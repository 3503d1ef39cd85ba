/** The minimal-parents search of the construction parser: from the dependency graph `G` it
    derives a smaller graph `G2`, by a frontier search over all subsets of the frontier.

    `ParseSubgraph` and `ParseSubgraphLegacy` differ in which neighbours of a target may
    excuse one missing ancestor, so everything below is stated for both rules at once.
    Python walks sets in an arbitrary order; so do the loops here. */
module Subgraph {
  import opened Options
  import opened Graphs

  /** Who may excuse the one ancestor of a target that is not active yet: a direct
      predecessor of the target, or (in the older code) a direct successor. */
  datatype Rule = ByPredecessor | BySuccessor

  function Excuses(g: Digraph, rule: Rule, t: Name): set<Name> {
    set q | q in (if rule.ByPredecessor? then g.Preds(t) else g.Succs(t)) && g.Descendants(q) != {}
  }

  predicate Matches(g: Digraph, rule: Rule, active: set<Name>, t: Name) {
    && t in g.SuccsOfAll(active)
    && exists q :: q in Excuses(g, rule, t) && g.Ancestors(t) <= active + {q}
  }

  ghost function Matched(g: Digraph, rule: Rule, active: set<Name>): set<Name> {
    set t | t in g.SuccsOfAll(active) && Matches(g, rule, active, t)
  }

  // ---------- One round and whole runs, as relations ----------

  /** The loop state between two rounds. */
  datatype Stage = Stage(explored: set<Name>, frontier: set<Name>, g2: Digraph)

  /** The parts of the frontier that, once active, make `t` a matched target. */
  ghost function Explanations(g: Digraph, rule: Rule, s: Stage, t: Name): set<set<Name>> {
    set S | S <= s.frontier && t in Matched(g, rule, s.explored + S)
  }

  /** What a round may give a target that is new to it as its parents: all frontier nodes
      that explain it alone, failing that one pair that explains it, failing that nothing. */
  ghost predicate ChosenParents(ex: set<set<Name>>, parents: set<Name>) {
    if exists p :: {p} in ex then forall p :: p in parents <==> {p} in ex
    else
      || (|parents| == 2 && parents in ex)
      || (parents == {} && forall P :: P in ex ==> |P| != 2)
  }

  ghost predicate Round(g: Digraph, rule: Rule, s: Stage, s': Stage) {
    && s.frontier != {}
    && s'.explored == s.explored + s.frontier
    && s'.frontier == Matched(g, rule, s'.explored) - s'.explored
    && (forall t {:trigger s'.g2.Preds(t)} :: if t in s'.explored then s'.g2.Preds(t) == s.g2.Preds(t)
                    else ChosenParents(Explanations(g, rule, s, t), s'.g2.Preds(t)))
    && s'.g2.nodes == Ends(s'.g2.edges)
  }

  function Ends(E: set<Edge>): set<Name> {
    (set e | e in E :: e.0) + Heads(E)
  }

  const EMPTY := Digraph({}, {})

  /** The loop states of a search, from the start to some round. */
  ghost predicate IsRun(g: Digraph, rule: Rule, start: set<Name>, trace: seq<Stage>)
    decreases |trace|
  {
    var n := |trace| - 1;
    && n >= 0
    && if n == 0 then trace[0] == Stage({}, start, EMPTY)
       else IsRun(g, rule, start, trace[..n]) && Round(g, rule, trace[n - 1], trace[n])
  }

  /** What holds between any two rounds.  The first clause is the heart of the matter: a node
      that the explored set matches on its own is never left behind. */
  ghost predicate StageInv(g: Digraph, rule: Rule, s: Stage) {
    && Matched(g, rule, s.explored) <= s.explored + s.frontier
    && s.explored !! s.frontier
    && s.explored + s.frontier <= g.nodes
    && s.g2.nodes == Ends(s.g2.edges)
    && (forall p, t :: (p, t) in s.g2.edges ==> p in s.explored && t in s.explored + s.frontier)
  }

  // ---------- Facts about matching ----------

  lemma MatchedMonotone(g: Digraph, rule: Rule, A: set<Name>, B: set<Name>, t: Name)
    requires A <= B && t in Matched(g, rule, A)
    ensures t in Matched(g, rule, B)
  {
    var q :| q in Excuses(g, rule, t) && g.Ancestors(t) <= A + {q};
    assert g.Ancestors(t) <= B + {q};
  }

  /** If an active node is no ancestor of the target, the target matches without it. */
  lemma MatchedWithout(g: Digraph, rule: Rule, A: set<Name>, p: Name, t: Name)
    requires g.Valid() && t in Matched(g, rule, A) && t !in A
    requires p !in g.Ancestors(t)
    ensures t in Matched(g, rule, A - {p})
  {
    var a :| a in A && (a, t) in g.edges;
    assert a in g.Ancestors(t) by {
      EdgeReach(g.edges, a, t);
      AncestorsReach(g, a, t);
    }
    assert t in g.SuccsOfAll(A - {p});
    var q :| q in Excuses(g, rule, t) && g.Ancestors(t) <= A + {q};
    assert g.Ancestors(t) <= (A - {p}) + {q};
    assert Matches(g, rule, A - {p}, t);
  }

  /** Only one ancestor of a matched target can lie outside the active set. */
  lemma OneOutside(g: Digraph, rule: Rule, A: set<Name>, t: Name, a: Name, b: Name)
    requires t in Matched(g, rule, A)
    requires a in g.Ancestors(t) - A && b in g.Ancestors(t) - A
    ensures a == b
  {
  }

  lemma SingleParentIsAncestor(g: Digraph, rule: Rule, s: Stage, p: Name, t: Name)
    requires g.Valid() && StageInv(g, rule, s)
    requires t in Matched(g, rule, s.explored + {p}) && t !in s.explored + s.frontier && p in s.frontier
    ensures p in g.Ancestors(t)
  {
    if p !in g.Ancestors(t) {
      assert s.explored + {p} - {p} == s.explored;
      MatchedWithout(g, rule, s.explored + {p}, p, t);
    }
  }

  lemma PairWithoutSingleIsAncestral(g: Digraph, rule: Rule, s: Stage, p: Name, q: Name, t: Name)
    requires g.Valid() && StageInv(g, rule, s)
    requires p in s.frontier && q in s.frontier && p != q
    requires t in Matched(g, rule, s.explored + {p, q}) && t !in s.explored + s.frontier
    requires t !in Matched(g, rule, s.explored + {q})
    ensures p in g.Ancestors(t)
  {
    assert s.explored + {p, q} - {p} == s.explored + {q};
    if p !in g.Ancestors(t) {
      MatchedWithout(g, rule, s.explored + {p, q}, p, t);
    }
  }

  /** Two explanations of a target without a common node cannot both be found, unless one of
      the nodes explains the target alone. */
  ghost predicate Overlapping(ex: set<set<Name>>) {
    forall p, q, Q :: PairOnly(ex, p, q) && Q in ex ==> p in Q || q in Q
  }

  ghost predicate PairOnly(ex: set<set<Name>>, p: Name, q: Name) {
    p != q && {p, q} in ex && {p} !in ex && {q} !in ex
  }

  lemma ExplanationsOverlap(g: Digraph, rule: Rule, s: Stage, t: Name)
    requires g.Valid() && StageInv(g, rule, s) && t !in s.explored + s.frontier
    ensures Overlapping(Explanations(g, rule, s, t))
  {
    var ex := Explanations(g, rule, s, t);
    forall p, q, Q | PairOnly(ex, p, q) && Q in ex
      ensures p in Q || q in Q
    {
      assert p in {p, q} && q in {p, q} && {q, p} == {p, q};
      PairWithoutSingleIsAncestral(g, rule, s, p, q, t);
      PairWithoutSingleIsAncestral(g, rule, s, q, p, t);
      if p !in s.explored + Q && q !in s.explored + Q {
        OneOutside(g, rule, s.explored + Q, t, p, q);
      }
    }
  }

  lemma PairSplit(P: set<Name>) returns (p: Name, q: Name)
    requires |P| == 2
    ensures p != q && P == {p, q}
  {
    p :| p in P;
    assert |P - {p}| == 1;
    q :| q in P - {p};
    assert |P - {p} - {q}| == 0;
    assert P == {p, q};
  }

  lemma SingletonSplit(P: set<Name>) returns (p: Name)
    requires |P| == 1
    ensures P == {p}
  {
    p :| p in P;
    assert |P - {p}| == 0;
    assert P == {p};
  }

  // ---------- Inside one round ----------

  /** What a target new to the round has as parents once the active sets in `done` were tried. */
  ghost predicate PartialParents(ex: set<set<Name>>, done: set<set<Name>>, parents: set<Name>) {
    FromSingles(ex, done, parents) || FromPair(ex, done, parents)
  }

  ghost predicate FromSingles(ex: set<set<Name>>, done: set<set<Name>>, parents: set<Name>) {
    && (forall p :: p in parents <==> {p} in done && {p} in ex)
    && (parents == {} ==> forall P :: P in done && P in ex ==> |P| != 2)
  }

  ghost predicate FromPair(ex: set<set<Name>>, done: set<set<Name>>, parents: set<Name>) {
    && parents in done && parents in ex && |parents| == 2
    && forall p :: {p} !in ex
  }

  /** The active sets of one round are tried in the order of their size. */
  ghost predicate InSizeOrder(frontier: set<Name>, done: set<set<Name>>) {
    && (forall S :: S in done ==> S <= frontier && S != {})
    && (forall S, p :: S in done && |S| >= 2 && p in frontier ==> {p} in done)
  }

  /** The effect of one matched active set on the parents of one target. */
  function Extended(parents: set<Name>, added: set<Name>): set<Name> {
    if |added| == 1 || (|added| == 2 && parents * added == {}) then parents + added else parents
  }

  /** `g2'` is `g2` after the targets were offered `added` as parents. */
  ghost predicate Handed(g2: Digraph, g2': Digraph, targets: set<Name>, added: set<Name>) {
    && g2'.nodes == Ends(g2'.edges)
    && forall t {:trigger g2'.Preds(t)} :: g2'.Preds(t) == (if t in targets then Extended(g2.Preds(t), added) else g2.Preds(t))
  }

  lemma OneMoreActiveSet(ex: set<set<Name>>, frontier: set<Name>, done: set<set<Name>>, S: set<Name>, parents: set<Name>)
    requires Overlapping(ex) && (forall P :: P in ex ==> P <= frontier)
    requires PartialParents(ex, done, parents)
    requires InSizeOrder(frontier, done) && InSizeOrder(frontier, done + {S})
    ensures PartialParents(ex, done + {S}, if S in ex then Extended(parents, S) else parents)
  {
    if |S| == 1 {
      var p := SingletonSplit(S);
      if FromSingles(ex, done, parents) {
        SingleExtends(ex, done, p, parents);
      }
    } else if |S| == 2 {
      var p, q := PairSplit(S);
      forall r | {r} in ex ensures {r} in done {
        assert r in {r} && S in done + {S} && |{r}| == 1;
      }
      PairExtends(ex, done, p, q, parents);
    } else {
      assert forall r: Name :: |{r}| == 1;
    }
  }

  lemma SingleExtends(ex: set<set<Name>>, done: set<set<Name>>, p: Name, parents: set<Name>)
    requires FromSingles(ex, done, parents)
    ensures FromSingles(ex, done + {{p}}, if {p} in ex then parents + {p} else parents)
  {
    forall q ensures q in {p} <==> {q} == {p} { assert q in {q}; }
    assert |{p}| == 1;
  }

  lemma PairExtends(ex: set<set<Name>>, done: set<set<Name>>, p: Name, q: Name, parents: set<Name>)
    requires Overlapping(ex) && p != q
    requires PartialParents(ex, done, parents)
    requires forall r :: {r} in ex ==> {r} in done
    ensures PartialParents(ex, done + {{p, q}}, if {p, q} in ex then Extended(parents, {p, q}) else parents)
  {
    var S := {p, q};
    assert |S| == 2;
    assert forall r: Name :: |{r}| == 1;
    if S in ex && parents == {} {
      assert parents + S == S;
    } else if S in ex {
      assert p in parents || q in parents by { PairMeetsParents(ex, done, p, q, parents); }
      assert p in S && q in S;
      assert parents * S != {};
    }
  }

  /** A pair that explains a target which already has parents meets them. */
  lemma PairMeetsParents(ex: set<set<Name>>, done: set<set<Name>>, p: Name, q: Name, parents: set<Name>)
    requires Overlapping(ex) && p != q && {p, q} in ex
    requires PartialParents(ex, done, parents) && parents != {}
    requires forall r :: {r} in ex ==> {r} in done
    ensures p in parents || q in parents
  {
    if {p} !in ex && {q} !in ex {
      assert PairOnly(ex, p, q);
    }
  }

  ghost predicate Searching(g: Digraph, rule: Rule, s: Stage, done: set<set<Name>>, g2: Digraph) {
    && g2.nodes == Ends(g2.edges)
    && InSizeOrder(s.frontier, done)
    && forall t {:trigger g2.Preds(t)} :: if t in s.explored + s.frontier then g2.Preds(t) == s.g2.Preds(t)
                   else PartialParents(Explanations(g, rule, s, t), done, g2.Preds(t))
  }

  lemma SearchStepAt(g: Digraph, rule: Rule, s: Stage, done: set<set<Name>>, S: set<Name>, t: Name, parents: set<Name>)
    requires g.Valid() && StageInv(g, rule, s) && t !in s.explored + s.frontier
    requires InSizeOrder(s.frontier, done) && InSizeOrder(s.frontier, done + {S}) && S <= s.frontier
    requires PartialParents(Explanations(g, rule, s, t), done, parents)
    ensures PartialParents(Explanations(g, rule, s, t), done + {S},
      if t in Matched(g, rule, s.explored + S) then Extended(parents, S) else parents)
  {
    var ex := Explanations(g, rule, s, t);
    ExplanationsOverlap(g, rule, s, t);
    assert S in ex <==> t in Matched(g, rule, s.explored + S);
    assert forall P :: P in ex ==> P <= s.frontier;
    OneMoreActiveSet(ex, s.frontier, done, S, parents);
  }

  lemma SearchStep(g: Digraph, rule: Rule, s: Stage, done: set<set<Name>>, S: set<Name>, g2: Digraph, g2': Digraph)
    requires g.Valid() && StageInv(g, rule, s)
    requires Searching(g, rule, s, done, g2) && InSizeOrder(s.frontier, done + {S}) && S <= s.frontier
    requires Handed(g2, g2', Matched(g, rule, s.explored + S) - (s.explored + S) - s.frontier, S)
    ensures Searching(g, rule, s, done + {S}, g2')
  {
    forall t | t !in s.explored + s.frontier
      ensures PartialParents(Explanations(g, rule, s, t), done + {S}, g2'.Preds(t))
    {
      SearchStepAt(g, rule, s, done, S, t, g2.Preds(t));
      assert t !in s.explored + S;
    }
  }

  lemma SearchDone(g: Digraph, rule: Rule, s: Stage, done: set<set<Name>>, g2: Digraph)
    requires g.Valid() && StageInv(g, rule, s) && s.frontier != {}
    requires Searching(g, rule, s, done, g2)
    requires forall S :: S <= s.frontier && S != {} ==> S in done
    ensures Round(g, rule, s, Stage(s.explored + s.frontier,
      Matched(g, rule, s.explored + s.frontier) - (s.explored + s.frontier), g2))
  {
    forall t | t !in s.explored + s.frontier
      ensures ChosenParents(Explanations(g, rule, s, t), g2.Preds(t))
    {
      var ex := Explanations(g, rule, s, t);
      forall p | {p} in ex ensures {p} in done { assert p in {p}; }
      forall P | P in ex && |P| == 2 ensures P in done { assert P != {}; }
    }
  }

  lemma RoundKeepsInv(g: Digraph, rule: Rule, s: Stage, s': Stage)
    requires g.Valid() && StageInv(g, rule, s) && Round(g, rule, s, s')
    ensures StageInv(g, rule, s')
  {
    forall p, t | (p, t) in s'.g2.edges
      ensures p in s'.explored && t in s'.explored + s'.frontier
    {
      assert p in s'.g2.Preds(t);
      if t in s'.explored {
        assert (p, t) in s.g2.edges;
      } else {
        var S := ParentExplained(Explanations(g, rule, s, t), s'.g2.Preds(t), p);
        MatchedMonotone(g, rule, s.explored + S, s'.explored, t);
      }
    }
  }

  lemma ParentExplained(ex: set<set<Name>>, parents: set<Name>, p: Name) returns (S: set<Name>)
    requires ChosenParents(ex, parents) && p in parents
    ensures S in ex && p in S
  {
    if exists q :: {q} in ex { S := {p}; } else { S := parents; }
  }

  // ---------- The parser object ----------

  class ConstructionParser {
    var G: Digraph
    var G2: Digraph
    var roots: set<Name>
    var ft: map<Name, seq<Name>>

    function Start(): set<Name>
      reads `roots, `ft
    {
      roots * ft.Keys
    }

    /** The targets matched by one active set, under the newer rule. */
    method MatchedTargets(active: set<Name>) returns (matched: set<Name>)
      ensures matched == Matched(G, ByPredecessor, active)
    {
      matched := {};
      var targets := G.SuccsOfAll(active);
      var todo := targets;
      while todo != {}
        invariant todo <= targets
        invariant matched == Matched(G, ByPredecessor, active) - todo
      {
        var target :| target in todo;
        var preds := G.Preds(target);
        var hit := false;
        while preds != {} && !hit
          invariant preds <= G.Preds(target)
          invariant hit ==> Matches(G, ByPredecessor, active, target)
          invariant !hit ==> forall q :: q in Excuses(G, ByPredecessor, target) - preds ==>
            !(G.Ancestors(target) <= active + {q})
          decreases preds, !hit
        {
          var pred :| pred in preds;
          if G.Descendants(pred) != {} && G.Ancestors(target) - (active + {pred}) == {} {
            assert pred in Excuses(G, ByPredecessor, target) && G.Ancestors(target) <= active + {pred};
            hit := true;
          } else {
            assert G.Descendants(pred) != {} ==> !(G.Ancestors(target) <= active + {pred});
            preds := preds - {pred};
          }
        }
        if hit {
          matched := matched + {target};
        }
        todo := todo - {target};
      }
    }

    /** The targets matched by one active set, under the older rule: every successor of a
        candidate is looked at, once for each active node. */
    method MatchedTargetsLegacy(active: set<Name>) returns (matched: set<Name>)
      ensures matched == Matched(G, BySuccessor, active)
    {
      matched := {};
      var rounds := active;
      while rounds != {}
        invariant matched == if rounds == active then {} else Matched(G, BySuccessor, active)
      {
        var n :| n in rounds;
        var targets := G.SuccsOfAll(active);
        var todo := targets;
        while todo != {}
          invariant todo <= targets
          invariant Matched(G, BySuccessor, active) - todo <= matched <= Matched(G, BySuccessor, active)
        {
          var target :| target in todo;
          var succs := G.Succs(target);
          while succs != {}
            invariant succs <= G.Succs(target)
            invariant Matched(G, BySuccessor, active) - todo <= matched <= Matched(G, BySuccessor, active)
            invariant target !in matched ==> forall q :: q in Excuses(G, BySuccessor, target) - succs ==>
              !(G.Ancestors(target) <= active + {q})
          {
            var succ :| succ in succs;
            if G.Descendants(succ) != {} && G.Ancestors(target) - (active + {succ}) == {} {
              assert succ in Excuses(G, BySuccessor, target) && G.Ancestors(target) <= active + {succ};
              matched := matched + {target};
            } else {
              assert G.Descendants(succ) != {} ==> !(G.Ancestors(target) <= active + {succ});
            }
            succs := succs - {succ};
          }
          todo := todo - {target};
        }
        assert matched == Matched(G, BySuccessor, active);
        rounds := rounds - {n};
      }
    }

    /** Hands the matched targets that are new to the round to the nodes that were newly
        activated for them, when those are one or two. */
    method AddParents(active: set<Name>, explored: set<Name>, frontier: set<Name>, matched: set<Name>)
      requires G2.nodes == Ends(G2.edges)
      modifies `G2
      ensures Handed(old(G2), G2, matched - active - frontier, active - explored)
    {
      var todo := matched - active - frontier;
      while todo != {}
        invariant todo <= matched - active - frontier
        invariant Handed(old(G2), G2, matched - active - frontier - todo, active - explored)
      {
        var target :| target in todo;
        ghost var before := G2;
        AddParentsOf(target, active - explored);
        HandedOneMore(old(G2), before, G2, matched - active - frontier - todo, target, active - explored);
        assert matched - active - frontier - (todo - {target}) == matched - active - frontier - todo + {target};
        todo := todo - {target};
      }
    }

    method AddParentsOf(target: Name, newParents: set<Name>)
      requires G2.nodes == Ends(G2.edges)
      modifies `G2
      ensures Handed(old(G2), G2, {target}, newParents)
    {
      if |newParents| == 1 {
        var parent :| parent in newParents;
        assert newParents == {parent} by { assert |newParents - {parent}| == 0; }
        HandOne(G2, parent, target);
        G2 := G2.AddEdge(parent, target);
      } else if |newParents| == 2 {
        var p1 :| p1 in newParents;
        assert |newParents - {p1}| == 1;
        var p2 :| p2 in newParents - {p1};
        assert newParents == {p1, p2} by { assert |newParents - {p1} - {p2}| == 0; }
        EdgeEnds(G2);
        if !(p1 in G2.nodes && target in G2.Succs(p1)) && !(p2 in G2.nodes && target in G2.Succs(p2)) {
          HandTwo(G2, p1, p2, target);
          G2 := G2.AddEdge(p1, target);
          G2 := G2.AddEdge(p2, target);
        } else {
          HandNone(G2, p1, p2, target);
        }
      }
    }

    method TryActiveSet(rule: Rule, explored: set<Name>, frontier: set<Name>, combo: set<Name>,
                        ghost s: Stage, ghost done: set<set<Name>>)
      returns (matched: set<Name>)
      requires G.Valid() && StageInv(G, rule, s) && s.explored == explored && s.frontier == frontier
      requires Searching(G, rule, s, done, G2)
      requires combo <= frontier && InSizeOrder(frontier, done + {combo})
      modifies `G2
      ensures matched == Matched(G, rule, explored + combo)
      ensures Searching(G, rule, s, done + {combo}, G2)
    {
      var active := explored + combo;
      if rule.ByPredecessor? {
        matched := MatchedTargets(active);
      } else {
        matched := MatchedTargetsLegacy(active);
      }
      assert active - explored == combo;
      ghost var g2 := G2;
      AddParents(active, explored, frontier, matched);
      SearchStep(G, rule, s, done, combo, g2, G2);
    }

    /** Tries the parts of the frontier that have size `r`, in any order. */
    method TryCombinations(rule: Rule, explored: set<Name>, frontier: set<Name>, r: nat,
                           ghost s: Stage, ghost smaller: set<set<Name>>)
      returns (found: set<Name>, last: set<Name>, ghost lastTried: set<Name>)
      requires G.Valid() && StageInv(G, rule, s) && s.explored == explored && s.frontier == frontier
      requires Searching(G, rule, s, smaller, G2)
      requires 1 <= r <= |frontier| && forall S :: S <= frontier && 1 <= |S| < r ==> S in smaller
      modifies `G2
      ensures Searching(G, rule, s, smaller + Combinations(frontier, r), G2)
      ensures lastTried in Combinations(frontier, r) && last == Matched(G, rule, explored + lastTried)
      ensures Collected(G, rule, s, found) && last <= found
    {
      found, last, lastTried := {}, {}, {};
      assert |lastTried| != r;
      var todo := Combinations(frontier, r);
      CombinationExists(frontier, r);
      ghost var done := smaller;
      while todo != {}
        invariant todo <= Combinations(frontier, r)
        invariant smaller <= done && done + todo == smaller + Combinations(frontier, r)
        invariant Searching(G, rule, s, done, G2)
        invariant lastTried in Combinations(frontier, r) || todo == Combinations(frontier, r)
        invariant lastTried in Combinations(frontier, r) ==> last == Matched(G, rule, explored + lastTried)
        invariant Collected(G, rule, s, found) && last <= found
      {
        var combo :| combo in todo;
        OrderKept(frontier, done, combo, r);
        var matched := TryActiveSet(rule, explored, frontier, combo, s, done);
        CollectedGrows(G, rule, s, found, combo);
        MoveOver(done, todo, combo);
        found := found + matched;
        last, lastTried := matched, combo;
        todo := todo - {combo};
        done := done + {combo};
      }
      assert done == done + todo;
    }

    /** One round: tries every non-empty part of the frontier, the smaller ones first.
        `collected` is what any of them matched, `last` what the last one matched. */
    method TryActiveSets(rule: Rule, explored: set<Name>, frontier: set<Name>)
      returns (collected: set<Name>, last: set<Name>)
      requires G.Valid() && StageInv(G, rule, Stage(explored, frontier, G2)) && frontier != {}
      modifies `G2
      ensures last == Matched(G, rule, explored + frontier)
      ensures collected - (explored + frontier) == last - (explored + frontier)
      ensures Round(G, rule, Stage(explored, frontier, old(G2)),
                    Stage(explored + frontier, last - (explored + frontier), G2))
    {
      ghost var s := Stage(explored, frontier, G2);
      ghost var done: set<set<Name>> := {};
      ghost var lastTried: set<Name> := {};
      collected, last := {}, {};
      for r := 1 to |frontier| + 1
        invariant Searching(G, rule, s, done, G2)
        invariant forall S :: S <= frontier && 1 <= |S| < r ==> S in done
        invariant r > 1 ==> lastTried in Combinations(frontier, r - 1) && last == Matched(G, rule, explored + lastTried)
        invariant Collected(G, rule, s, collected) && last <= collected
      {
        var found;
        found, last, lastTried := TryCombinations(rule, explored, frontier, r, s, done);
        collected := collected + found;
        done := done + Combinations(frontier, r);
      }
      FullSizeIsFull(frontier, lastTried);
      SearchDone(G, rule, s, done, G2);
    }

    /** The newer search.  `trace` lists the loop state between the rounds. */
    method ParseSubgraph(maxDepth: Option<int>) returns (ghost trace: seq<Stage>)
      requires G.Valid() && roots <= G.nodes
      modifies `G2
      ensures IsRun(G, ByPredecessor, Start(), trace)
      ensures forall n :: n in trace[0].frontier <==> n in roots && n in ft
      ensures G2 == trace[|trace| - 1].g2
      ensures trace[|trace| - 1].frontier == {} ||
        (maxDepth.Some? && |trace| - 1 == if maxDepth.value <= 1 then 1 else maxDepth.value)
    {
      G2 := EMPTY;
      var explored: set<Name> := {};
      var frontier := Start();
      var depth := 0;
      trace := [Stage({}, frontier, EMPTY)];
      RunStarts(G, ByPredecessor, frontier);
      while frontier != {}
        invariant IsRun(G, ByPredecessor, Start(), trace) && trace[0].frontier == Start()
        invariant trace[|trace| - 1] == Stage(explored, frontier, G2)
        invariant StageInv(G, ByPredecessor, trace[|trace| - 1])
        invariant depth == |trace| - 1
        invariant maxDepth.Some? ==> depth == 0 || depth < maxDepth.value
        decreases G.nodes - explored
      {
        var collected, last := TryActiveSets(ByPredecessor, explored, frontier);
        explored := explored + frontier;
        frontier := collected - explored;
        assert frontier == last - explored;
        trace := RunExtends(G, ByPredecessor, Start(), trace, Stage(explored, frontier, G2));
        depth := depth + 1;
        if maxDepth.Some? && depth >= maxDepth.value {
          break;
        }
      }
    }

    /** The older search.  Its loop was feared not to end; it does, on every graph. */
    method ParseSubgraphLegacy() returns (ghost trace: seq<Stage>)
      requires G.Valid() && roots <= G.nodes
      modifies `G2
      ensures IsRun(G, BySuccessor, Start(), trace)
      ensures forall n :: n in trace[0].frontier <==> n in roots && n in ft
      ensures G2 == trace[|trace| - 1].g2
      ensures trace[|trace| - 1].frontier == {}
    {
      G2 := EMPTY;
      var nodes0: set<Name> := {};
      var nodes1 := Start();
      trace := [Stage({}, nodes1, EMPTY)];
      RunStarts(G, BySuccessor, nodes1);
      while nodes1 != {}
        invariant IsRun(G, BySuccessor, Start(), trace) && trace[0].frontier == Start()
        invariant trace[|trace| - 1] == Stage(nodes0, nodes1, G2)
        invariant StageInv(G, BySuccessor, trace[|trace| - 1])
        decreases G.nodes - nodes0
      {
        var _, nodes3 := TryActiveSets(BySuccessor, nodes0, nodes1);
        var nodes2 := nodes0 + nodes1;
        nodes0 := nodes0 + nodes1;
        nodes1 := nodes3 - nodes2 - nodes1;
        assert nodes1 == nodes3 - nodes0;
        trace := RunExtends(G, BySuccessor, Start(), trace, Stage(nodes0, nodes1, G2));
      }
    }
  }

  /** `itertools.combinations`: the parts of a set that have a given size. */
  function Combinations(frontier: set<Name>, r: nat): (c: set<set<Name>>)
    ensures forall S :: S in c <==> S <= frontier && |S| == r
  {
    set S | S <= frontier && |S| == r
  }

  lemma {:induction false} CombinationExists(frontier: set<Name>, r: nat)
    requires r <= |frontier|
    ensures Combinations(frontier, r) != {}
    decreases |frontier|
  {
    if r == |frontier| {
      assert frontier in Combinations(frontier, r);
    } else {
      var n :| n in frontier;
      CombinationExists(frontier - {n}, r);
      var S :| S in Combinations(frontier - {n}, r);
      assert S in Combinations(frontier, r);
    }
  }

  lemma FullSizeIsFull(frontier: set<Name>, S: set<Name>)
    requires S <= frontier && |S| == |frontier|
    ensures S == frontier
    ensures forall T :: T <= frontier && T != {} ==> 1 <= |T| <= |frontier|
  {
    assert |frontier - S| == 0;
    assert S == frontier;
    forall T | T <= frontier && T != {} ensures 1 <= |T| <= |frontier| {
      assert |frontier - T| == |frontier| - |T|;
    }
  }

  lemma MoveOver<T>(done: set<T>, todo: set<T>, x: T)
    requires x in todo
    ensures (done + {x}) + (todo - {x}) == done + todo
  {
  }

  lemma OrderKept(frontier: set<Name>, done: set<set<Name>>, combo: set<Name>, r: nat)
    requires InSizeOrder(frontier, done) && combo <= frontier && |combo| == r >= 1
    requires forall S :: S <= frontier && 1 <= |S| < r ==> S in done
    ensures InSizeOrder(frontier, done + {combo})
  {
    assert combo != {};
    forall p | p in frontier && r >= 2 ensures {p} in done {
      assert |{p}| == 1;
    }
  }

  /** What the active sets tried so far matched beyond the frontier, the whole frontier
      matches too: the search over all parts adds nothing to the next frontier. */
  ghost predicate Collected(g: Digraph, rule: Rule, s: Stage, collected: set<Name>) {
    collected - (s.explored + s.frontier) <= Matched(g, rule, s.explored + s.frontier)
  }

  lemma CollectedGrows(g: Digraph, rule: Rule, s: Stage, collected: set<Name>, S: set<Name>)
    requires Collected(g, rule, s, collected) && S <= s.frontier
    ensures Collected(g, rule, s, collected + Matched(g, rule, s.explored + S))
  {
    forall t | t in Matched(g, rule, s.explored + S) ensures t in Matched(g, rule, s.explored + s.frontier) {
      MatchedMonotone(g, rule, s.explored + S, s.explored + s.frontier, t);
    }
  }

  lemma RunStarts(g: Digraph, rule: Rule, start: set<Name>)
    requires start <= g.nodes
    ensures IsRun(g, rule, start, [Stage({}, start, EMPTY)])
    ensures StageInv(g, rule, Stage({}, start, EMPTY))
  {
    assert Ends({}) == {};
  }

  lemma RunExtends(g: Digraph, rule: Rule, start: set<Name>, trace: seq<Stage>, s: Stage) returns (longer: seq<Stage>)
    requires g.Valid() && IsRun(g, rule, start, trace) && StageInv(g, rule, trace[|trace| - 1])
    requires Round(g, rule, trace[|trace| - 1], s)
    ensures longer == trace + [s] && IsRun(g, rule, start, longer) && StageInv(g, rule, s)
    ensures g.nodes - s.explored < g.nodes - trace[|trace| - 1].explored
  {
    longer := trace + [s];
    RunAppends(g, rule, start, trace, s);
    RoundProgress(g, rule, trace[|trace| - 1], s);
    RoundKeepsInv(g, rule, trace[|trace| - 1], s);
  }

  lemma RunAppends(g: Digraph, rule: Rule, start: set<Name>, trace: seq<Stage>, s: Stage)
    requires IsRun(g, rule, start, trace) && Round(g, rule, trace[|trace| - 1], s)
    ensures IsRun(g, rule, start, trace + [s])
  {
    var longer, n := trace + [s], |trace|;
    assert longer[..n] == trace && longer[n - 1] == trace[n - 1] && longer[n] == s;
  }

  lemma RoundProgress(g: Digraph, rule: Rule, s: Stage, s': Stage)
    requires StageInv(g, rule, s) && Round(g, rule, s, s')
    ensures g.nodes - s'.explored < g.nodes - s.explored
  {
    var n :| n in s.frontier;
    assert n in g.nodes - s.explored && n !in g.nodes - s'.explored;
  }

  lemma HandedOneMore(g0: Digraph, g1: Digraph, g2: Digraph, targets: set<Name>, target: Name, added: set<Name>)
    requires Handed(g0, g1, targets, added) && target !in targets
    requires Handed(g1, g2, {target}, added)
    ensures Handed(g0, g2, targets + {target}, added)
  {
  }

  lemma HandOne(g2: Digraph, p: Name, target: Name)
    requires g2.nodes == Ends(g2.edges)
    ensures Handed(g2, g2.AddEdge(p, target), {target}, {p})
  {
    AddEdgePreds(g2, p, target);
  }

  lemma HandTwo(g2: Digraph, p1: Name, p2: Name, target: Name)
    requires g2.nodes == Ends(g2.edges) && p1 != p2
    requires (p1, target) !in g2.edges && (p2, target) !in g2.edges
    ensures Handed(g2, g2.AddEdge(p1, target).AddEdge(p2, target), {target}, {p1, p2})
  {
    AddTwoPreds(g2, p1, p2, target);
    ExtendedByPair(g2.Preds(target), p1, p2);
  }

  lemma AddTwoPreds(g2: Digraph, p1: Name, p2: Name, target: Name)
    requires g2.nodes == Ends(g2.edges)
    ensures g2.AddEdge(p1, target).AddEdge(p2, target).nodes == Ends(g2.AddEdge(p1, target).AddEdge(p2, target).edges)
    ensures forall t :: t != target ==> g2.AddEdge(p1, target).AddEdge(p2, target).Preds(t) == g2.Preds(t)
    ensures g2.AddEdge(p1, target).AddEdge(p2, target).Preds(target) == g2.Preds(target) + {p1} + {p2}
  {
    AddEdgePreds(g2, p1, target);
    AddEdgePreds(g2.AddEdge(p1, target), p2, target);
  }

  lemma ExtendedByPair(parents: set<Name>, p1: Name, p2: Name)
    requires p1 != p2 && p1 !in parents && p2 !in parents
    ensures Extended(parents, {p1, p2}) == parents + {p1} + {p2}
  {
    assert |{p1, p2}| == 2 && parents * {p1, p2} == {};
    assert parents + {p1, p2} == parents + {p1} + {p2};
  }

  lemma HandNone(g2: Digraph, p1: Name, p2: Name, target: Name)
    requires g2.nodes == Ends(g2.edges) && p1 != p2
    requires (p1, target) in g2.edges || (p2, target) in g2.edges
    ensures Handed(g2, g2, {target}, {p1, p2})
  {
    var parents, added := g2.Preds(target), {p1, p2};
    assert p1 in parents * added || p2 in parents * added;
  }

  lemma EndsOf(E: set<Edge>, u: Name, v: Name)
    requires (u, v) in E
    ensures u in Ends(E) && v in Ends(E)
  {
    assert (u, v).0 in Ends(E) && (u, v).1 in Ends(E);
  }

  lemma EdgeEnds(g: Digraph)
    requires g.nodes == Ends(g.edges)
    ensures g.Valid()
  {
    forall x, y | (x, y) in g.edges ensures x in g.nodes && y in g.nodes { EndsOf(g.edges, x, y); }
  }

  lemma AddEdgePreds(g: Digraph, u: Name, v: Name)
    requires g.nodes == Ends(g.edges)
    ensures g.AddEdge(u, v).nodes == Ends(g.AddEdge(u, v).edges)
    ensures forall t :: g.AddEdge(u, v).Preds(t) == (if t == v then g.Preds(t) + {u} else g.Preds(t))
  {
    var h := g.AddEdge(u, v);
    EndsOf(h.edges, u, v);
    forall e | e in h.edges ensures e.0 in h.nodes && e.1 in h.nodes {
      if e in g.edges { EndsOf(g.edges, e.0, e.1); }
    }
    forall x | x in h.nodes ensures x in Ends(h.edges) {
      if x in Ends(g.edges) {
        var e :| e in g.edges && (e.0 == x || e.1 == x);
        EndsOf(h.edges, e.0, e.1);
      }
    }
  }
}
