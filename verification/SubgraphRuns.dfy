/** What every run of the minimal-parents search has in common, whatever the graph (cycles
    included) and whatever order sets are walked in. */
module SubgraphRuns {
  import opened Graphs
  import opened Subgraph

  lemma {:induction false} StartOf(g: Digraph, rule: Rule, start: set<Name>, trace: seq<Stage>)
    requires IsRun(g, rule, start, trace)
    ensures trace[0] == Stage({}, start, EMPTY)
    decreases |trace|
  {
    if |trace| > 1 {
      StartOf(g, rule, start, trace[..|trace| - 1]);
    }
  }

  lemma {:induction false} RoundOf(g: Digraph, rule: Rule, start: set<Name>, trace: seq<Stage>, k: nat)
    requires IsRun(g, rule, start, trace) && 0 < k < |trace|
    ensures Round(g, rule, trace[k - 1], trace[k])
    decreases |trace|
  {
    if k < |trace| - 1 {
      RoundOf(g, rule, start, trace[..|trace| - 1], k);
    }
  }

  lemma FrontierMoves(g: Digraph, rule: Rule, start: set<Name>, trace: seq<Stage>, k: nat)
    requires IsRun(g, rule, start, trace) && 0 < k < |trace|
    ensures trace[k].explored == trace[k - 1].explored + trace[k - 1].frontier
    ensures trace[k].frontier == Matched(g, rule, trace[k].explored) - trace[k].explored
    ensures trace[k - 1].frontier != {}
  {
    RoundOf(g, rule, start, trace, k);
  }

  lemma {:induction false} StagesKeepInv(g: Digraph, rule: Rule, start: set<Name>, trace: seq<Stage>, k: nat)
    requires g.Valid() && start <= g.nodes && IsRun(g, rule, start, trace) && k < |trace|
    ensures StageInv(g, rule, trace[k])
  {
    if k == 0 {
      StartOf(g, rule, start, trace);
      RunStarts(g, rule, start);
    } else {
      StagesKeepInv(g, rule, start, trace, k - 1);
      RoundOf(g, rule, start, trace, k);
      RoundKeepsInv(g, rule, trace[k - 1], trace[k]);
    }
  }

  // ---------- Soundness ----------

  lemma ChosenParentIsAncestor(g: Digraph, rule: Rule, s: Stage, t: Name, parents: set<Name>, p: Name)
    requires g.Valid() && StageInv(g, rule, s) && t !in s.explored + s.frontier
    requires ChosenParents(Explanations(g, rule, s, t), parents) && p in parents
    ensures p in g.Ancestors(t)
  {
    var ex := Explanations(g, rule, s, t);
    if {p} in ex {
      assert p in {p};
      SingleParentIsAncestor(g, rule, s, p, t);
    } else {
      var a, b := PairSplit(parents);
      var q := if p == a then b else a;
      assert parents == {p, q};
      assert q in parents && {q} !in ex;
      PairWithoutSingleIsAncestral(g, rule, s, p, q, t);
    }
  }

  lemma NewParents(g: Digraph, rule: Rule, s: Stage, s': Stage, p: Name, t: Name)
    requires g.Valid() && StageInv(g, rule, s) && Round(g, rule, s, s')
    requires (p, t) in s'.g2.edges && t !in s'.explored
    ensures p in s.frontier && t in s'.frontier && p in s'.g2.Preds(t)
    ensures ChosenParents(Explanations(g, rule, s, t), s'.g2.Preds(t))
  {
    assert p in s'.g2.Preds(t);
    var S := ParentExplained(Explanations(g, rule, s, t), s'.g2.Preds(t), p);
    MatchedMonotone(g, rule, s.explored + S, s'.explored, t);
  }

  /** The two cases for an edge that is there after round `k`. */
  lemma EdgeAfter(g: Digraph, rule: Rule, start: set<Name>, trace: seq<Stage>, k: nat, p: Name, t: Name)
    requires g.Valid() && start <= g.nodes && IsRun(g, rule, start, trace) && k < |trace|
    requires (p, t) in trace[k].g2.edges
    ensures k > 0 && StageInv(g, rule, trace[k - 1])
    ensures (p, t) in trace[k - 1].g2.edges ||
      (&& p in trace[k - 1].frontier && t in trace[k].frontier
       && t !in trace[k - 1].explored + trace[k - 1].frontier && p in trace[k].g2.Preds(t)
       && ChosenParents(Explanations(g, rule, trace[k - 1], t), trace[k].g2.Preds(t)))
  {
    StartOf(g, rule, start, trace);
    RoundOf(g, rule, start, trace, k);
    StagesKeepInv(g, rule, start, trace, k - 1);
    if t in trace[k].explored {
      assert p in trace[k].g2.Preds(t);
      assert p in trace[k - 1].g2.Preds(t);
    } else {
      NewParents(g, rule, trace[k - 1], trace[k], p, t);
    }
  }

  /** Every edge of `G2` starts at a proper ancestor, in `G`, of the node it ends at. */
  lemma {:induction false} ParentsAreAncestors(g: Digraph, rule: Rule, start: set<Name>, trace: seq<Stage>, k: nat, p: Name, t: Name)
    requires g.Valid() && start <= g.nodes && IsRun(g, rule, start, trace) && k < |trace|
    requires (p, t) in trace[k].g2.edges
    ensures p != t && Reach(g.edges, p, t)
  {
    EdgeAfter(g, rule, start, trace, k, p, t);
    if (p, t) in trace[k - 1].g2.edges {
      ParentsAreAncestors(g, rule, start, trace, k - 1, p, t);
    } else {
      ChosenParentIsAncestor(g, rule, trace[k - 1], t, trace[k].g2.Preds(t), p);
      AncestorsReach(g, p, t);
    }
  }

  // ---------- Layers ----------

  lemma {:induction false} ExploredGrows(g: Digraph, rule: Rule, start: set<Name>, trace: seq<Stage>, i: nat, j: nat)
    requires IsRun(g, rule, start, trace) && i < j < |trace|
    ensures trace[i].explored + trace[i].frontier <= trace[j].explored
    decreases j
  {
    FrontierMoves(g, rule, start, trace, j);
    if i < j - 1 {
      ExploredGrows(g, rule, start, trace, i, j - 1);
    }
  }

  /** A node enters the frontier at most once. */
  lemma LayersAreDisjoint(g: Digraph, rule: Rule, start: set<Name>, trace: seq<Stage>, i: nat, j: nat)
    requires g.Valid() && start <= g.nodes && IsRun(g, rule, start, trace) && i < j < |trace|
    ensures trace[i].frontier !! trace[j].frontier
  {
    ExploredGrows(g, rule, start, trace, i, j);
    StagesKeepInv(g, rule, start, trace, j);
  }

  /** Every edge of `G2` leads from one frontier to the next. */
  lemma {:induction false} EdgesJoinNeighbours(g: Digraph, rule: Rule, start: set<Name>, trace: seq<Stage>, k: nat, p: Name, t: Name)
    returns (i: nat)
    requires g.Valid() && start <= g.nodes && IsRun(g, rule, start, trace) && k < |trace|
    requires (p, t) in trace[k].g2.edges
    ensures i < k && p in trace[i].frontier && t in trace[i + 1].frontier
  {
    EdgeAfter(g, rule, start, trace, k, p, t);
    if (p, t) in trace[k - 1].g2.edges {
      i := EdgesJoinNeighbours(g, rule, start, trace, k - 1, p, t);
    } else {
      i := k - 1;
    }
  }

  lemma {:induction false} PathsClimb(g: Digraph, rule: Rule, start: set<Name>, trace: seq<Stage>, k: nat, path: seq<Name>)
    returns (i: nat, j: nat)
    requires g.Valid() && start <= g.nodes && IsRun(g, rule, start, trace) && k < |trace|
    requires IsPath(trace[k].g2.edges, path) && |path| >= 2
    ensures i < j <= k && path[0] in trace[i].frontier && path[|path| - 1] in trace[j].frontier
    decreases |path|
  {
    var E := trace[k].g2.edges;
    var n := |path| - 1;
    assert (path[n - 1], path[n]) in E;
    var m := EdgesJoinNeighbours(g, rule, start, trace, k, path[n - 1], path[n]);
    if n == 1 {
      i, j := m, m + 1;
    } else {
      PathSlice(E, path, 0, n);
      i, j := PathsClimb(g, rule, start, trace, k, path[..n]);
      if j < m {
        LayersAreDisjoint(g, rule, start, trace, j, m);
      } else if m < j {
        LayersAreDisjoint(g, rule, start, trace, m, j);
      }
      j := m + 1;
    }
  }

  /** `G2` has no cycles, even when `G` has. */
  lemma ResultIsAcyclic(g: Digraph, rule: Rule, start: set<Name>, trace: seq<Stage>, k: nat)
    requires g.Valid() && start <= g.nodes && IsRun(g, rule, start, trace) && k < |trace|
    ensures Acyclic(trace[k].g2.edges)
  {
    var E := trace[k].g2.edges;
    forall n ensures !Reach(E, n, n) {
      if Reach(E, n, n) {
        var p :| PathBetween(E, p, n, n) && |p| >= 2;
        var i, j := PathsClimb(g, rule, start, trace, k, p);
        LayersAreDisjoint(g, rule, start, trace, i, j);
      }
    }
  }

  /** A run has at most one round for each node of the graph. */
  lemma {:induction false} RunsAreShort(g: Digraph, rule: Rule, start: set<Name>, trace: seq<Stage>, k: nat)
    requires g.Valid() && start <= g.nodes && IsRun(g, rule, start, trace) && k < |trace|
    ensures k <= |trace[k].explored| <= |g.nodes|
  {
    ExploredBound(g, rule, start, trace, k);
    if k > 0 {
      RunsAreShort(g, rule, start, trace, k - 1);
      ExploredMore(g, rule, start, trace, k);
    }
  }

  lemma ExploredBound(g: Digraph, rule: Rule, start: set<Name>, trace: seq<Stage>, k: nat)
    requires g.Valid() && start <= g.nodes && IsRun(g, rule, start, trace) && k < |trace|
    ensures |trace[k].explored| <= |g.nodes|
  {
    StagesKeepInv(g, rule, start, trace, k);
    SubsetSize(trace[k].explored, g.nodes);
  }

  lemma ExploredMore(g: Digraph, rule: Rule, start: set<Name>, trace: seq<Stage>, k: nat)
    requires g.Valid() && start <= g.nodes && IsRun(g, rule, start, trace) && 0 < k < |trace|
    ensures |trace[k].explored| >= |trace[k - 1].explored| + 1
  {
    StagesKeepInv(g, rule, start, trace, k - 1);
    FrontierMoves(g, rule, start, trace, k);
    UnionSize(trace[k - 1].explored, trace[k - 1].frontier);
  }

  lemma UnionSize<T>(a: set<T>, b: set<T>)
    requires a !! b && b != {}
    ensures |a + b| >= |a| + 1
  {
  }

  lemma SubsetSize<T>(a: set<T>, b: set<T>)
    requires a <= b
    ensures |a| <= |b|
  {
    assert |b - a| == |b| - |a|;
  }

  // ---------- At most two parents ----------

  lemma AtMostTwo(parents: set<Name>)
    requires forall a, b, c :: a in parents && b in parents && c in parents ==> a == b || b == c || a == c
    ensures |parents| <= 2
  {
    if parents != {} {
      var a :| a in parents;
      if parents != {a} {
        var b :| b in parents && b != a;
        assert parents == {a, b};
      }
    }
  }

  /** No node of `G2` has more than two parents, although the search tries active sets of
      every size and adds every single parent it finds. */
  lemma {:induction false} AtMostTwoParents(g: Digraph, rule: Rule, start: set<Name>, trace: seq<Stage>, k: nat, t: Name)
    requires g.Valid() && start <= g.nodes && IsRun(g, rule, start, trace) && k < |trace|
    ensures |trace[k].g2.Preds(t)| <= 2
  {
    if k == 0 {
      StartOf(g, rule, start, trace);
      assert trace[k].g2.Preds(t) == {};
    } else {
      ParentsFrom(g, rule, start, trace, k, t);
      FrontierMoves(g, rule, start, trace, k);
      if t in trace[k].explored {
        AtMostTwoParents(g, rule, start, trace, k - 1, t);
      } else {
        StagesKeepInv(g, rule, start, trace, k - 1);
        AtMostTwoChosen(g, rule, trace[k - 1], t, trace[k].g2.Preds(t));
      }
    }
  }

  lemma AtMostTwoChosen(g: Digraph, rule: Rule, s: Stage, t: Name, parents: set<Name>)
    requires g.Valid() && StageInv(g, rule, s) && t !in s.explored + s.frontier
    requires ChosenParents(Explanations(g, rule, s, t), parents)
    ensures |parents| <= 2
  {
    if exists p :: {p} in Explanations(g, rule, s, t) {
      forall a, b, c | a in parents && b in parents && c in parents ensures a == b || b == c || a == c {
        ThreeSingles(g, rule, s, t, a, b, c);
      }
      AtMostTwo(parents);
    }
  }

  lemma ThreeSingles(g: Digraph, rule: Rule, s: Stage, t: Name, a: Name, b: Name, c: Name)
    requires g.Valid() && StageInv(g, rule, s) && t !in s.explored + s.frontier
    requires {a} in Explanations(g, rule, s, t) && {b} in Explanations(g, rule, s, t) && {c} in Explanations(g, rule, s, t)
    ensures a == b || b == c || a == c
  {
    assert a in {a} && b in {b} && c in {c};
    SingleParentIsAncestor(g, rule, s, b, t);
    SingleParentIsAncestor(g, rule, s, c, t);
    if a != b && a != c {
      OneOutside(g, rule, s.explored + {a}, t, b, c);
    }
  }

  // ---------- Which part of a run depends on the order sets are walked in ----------

  /** The layers do not: two runs from the same start go through the same frontiers. */
  lemma {:induction false} LayersAreDetermined(g: Digraph, rule: Rule, start: set<Name>, a: seq<Stage>, b: seq<Stage>, k: nat)
    requires IsRun(g, rule, start, a) && IsRun(g, rule, start, b) && k < |a| && k < |b|
    ensures a[k].explored == b[k].explored && a[k].frontier == b[k].frontier
  {
    StartOf(g, rule, start, a);
    StartOf(g, rule, start, b);
    if k > 0 {
      FrontierMoves(g, rule, start, a, k);
      FrontierMoves(g, rule, start, b, k);
      LayersAreDetermined(g, rule, start, a, b, k - 1);
    }
  }

  /** A target that no node explains alone and that two different pairs explain. */
  ghost predicate HasRivalPairs(ex: set<set<Name>>, P: set<Name>, Q: set<Name>) {
    P != Q && |P| == 2 && |Q| == 2 && P in ex && Q in ex && forall p :: {p} !in ex
  }

  /** The parents of a node do only where rival pairs explain it, and then each run keeps
      one of the pairs. */
  lemma {:induction false} ParentsAreDetermined(g: Digraph, rule: Rule, start: set<Name>, a: seq<Stage>, b: seq<Stage>, k: nat, t: Name)
    requires IsRun(g, rule, start, a) && IsRun(g, rule, start, b) && k < |a| && k < |b|
    requires a[k].g2.Preds(t) != b[k].g2.Preds(t)
    ensures exists i :: 0 <= i < k && HasRivalPairs(Explanations(g, rule, a[i], t), a[k].g2.Preds(t), b[k].g2.Preds(t))
  {
    StartOf(g, rule, start, a);
    StartOf(g, rule, start, b);
    if k > 0 {
      LayersAreDetermined(g, rule, start, a, b, k - 1);
      LayersAreDetermined(g, rule, start, a, b, k);
      ParentsFrom(g, rule, start, a, k, t);
      ParentsFrom(g, rule, start, b, k, t);
      if t in a[k].explored {
        ParentsAreDetermined(g, rule, start, a, b, k - 1, t);
      } else {
        assert Explanations(g, rule, a[k - 1], t) == Explanations(g, rule, b[k - 1], t);
        RivalChoices(Explanations(g, rule, a[k - 1], t), a[k].g2.Preds(t), b[k].g2.Preds(t));
      }
    }
  }

  lemma ParentsFrom(g: Digraph, rule: Rule, start: set<Name>, trace: seq<Stage>, k: nat, t: Name)
    requires IsRun(g, rule, start, trace) && 0 < k < |trace|
    ensures if t in trace[k].explored then trace[k].g2.Preds(t) == trace[k - 1].g2.Preds(t)
            else ChosenParents(Explanations(g, rule, trace[k - 1], t), trace[k].g2.Preds(t))
  {
    RoundOf(g, rule, start, trace, k);
  }

  /** A choice is free exactly between rival pairs. */
  lemma RivalChoices(ex: set<set<Name>>, P: set<Name>, Q: set<Name>)
    requires ChosenParents(ex, P) && P != Q
    ensures ChosenParents(ex, Q) <==> HasRivalPairs(ex, P, Q)
  {
  }

  // ---------- Coverage of acyclic graphs ----------

  lemma AncestorsShrink(g: Digraph, a: Name, t: Name)
    requires g.Valid() && Acyclic(g.edges) && a in g.Ancestors(t)
    ensures g.Ancestors(a) < g.Ancestors(t)
  {
    AncestorsReach(g, a, t);
    AncestorsReach(g, a, a);
    forall b | b in g.Ancestors(a) ensures b in g.Ancestors(t) {
      AncestorsReach(g, b, a);
      ReachTrans(g.edges, b, a, t);
      AncestorsReach(g, b, t);
    }
  }

  lemma {:induction false} EarliestMissing(g: Digraph, explored: set<Name>, t: Name) returns (m: Name)
    requires g.Valid() && Acyclic(g.edges) && t in g.nodes - explored
    ensures m in g.nodes - explored && g.Ancestors(m) <= explored
    decreases g.Ancestors(t)
  {
    if g.Ancestors(t) <= explored {
      m := t;
    } else {
      var a :| a in g.Ancestors(t) && a !in explored;
      AncestorsShrink(g, a, t);
      m := EarliestMissing(g, explored, a);
    }
  }

  lemma AllAncestorsExplored(g: Digraph, explored: set<Name>, m: Name)
    requires g.Valid() && Acyclic(g.edges)
    requires g.Ancestors(m) <= explored && g.Preds(m) != {}
    ensures m in Matched(g, ByPredecessor, explored)
  {
    var p :| p in g.Preds(m);
    EdgeReach(g.edges, p, m);
    AncestorsReach(g, p, m);
    DescendantsAreReached(g, p, m);
    assert p in Excuses(g, ByPredecessor, m) && p in explored;
    assert g.Ancestors(m) <= explored + {p};
    assert Matches(g, ByPredecessor, explored, m);
  }

  /** On an acyclic graph, a completed run of the newer search that starts from all nodes
      without predecessors explores every node. */
  lemma AcyclicGraphsAreCovered(g: Digraph, start: set<Name>, trace: seq<Stage>)
    requires g.Valid() && Acyclic(g.edges) && start <= g.nodes
    requires forall n :: n in g.nodes && g.Preds(n) == {} ==> n in start
    requires IsRun(g, ByPredecessor, start, trace) && trace[|trace| - 1].frontier == {}
    ensures trace[|trace| - 1].explored == g.nodes
  {
    var last := trace[|trace| - 1];
    StagesKeepInv(g, ByPredecessor, start, trace, |trace| - 1);
    if last.explored != g.nodes {
      assert !(g.nodes <= last.explored);
      var t :| t in g.nodes && t !in last.explored;
      var m := EarliestMissing(g, last.explored, t);
      if g.Preds(m) == {} {
        StartOf(g, ByPredecessor, start, trace);
        if |trace| > 1 { ExploredGrows(g, ByPredecessor, start, trace, 0, |trace| - 1); }
      } else {
        AllAncestorsExplored(g, last.explored, m);
      }
    }
  }
}
