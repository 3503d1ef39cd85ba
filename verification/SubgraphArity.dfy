/** How many objects may jointly create another before the search gives up on it. */
module SubgraphArity {
  import opened Graphs
  import opened Subgraph
  import opened SubgraphRuns

  /** The ancestors of `t` that the current round activates. */
  function NewAncestors(g: Digraph, s: Stage, t: Name): set<Name> {
    g.Ancestors(t) - s.explored
  }

  ghost predicate GetsParents(g: Digraph, rule: Rule, s: Stage, t: Name) {
    exists S :: S in Explanations(g, rule, s, t) && 1 <= |S| <= 2
  }

  /** Some new ancestor is a direct predecessor, and not the only one. */
  ghost predicate HasSparePredecessor(g: Digraph, s: Stage, t: Name) {
    exists q, p :: q in NewAncestors(g, s, t) && q in g.Preds(t) && p in g.Preds(t) && p != q && p != t
  }

  lemma PredsAreAncestors(g: Digraph, t: Name)
    requires g.Valid()
    ensures g.Preds(t) - {t} <= g.Ancestors(t)
  {
    forall p | p in g.Preds(t) - {t} ensures p in g.Ancestors(t) {
      EdgeReach(g.edges, p, t);
      AncestorsReach(g, p, t);
    }
  }

  lemma HasPredecessor(g: Digraph, t: Name, a: Name)
    requires g.Valid() && a in g.Ancestors(t)
    ensures g.Preds(t) - {t} != {}
  {
    AncestorsReach(g, a, t);
    var p :| PathBetween(g.edges, p, a, t) && |p| >= 2;
    var w := EntersFrom(g.edges, p);
    assert w in g.Preds(t) - {t};
  }

  lemma {:induction false} EntersFrom(E: set<Edge>, p: seq<Name>) returns (w: Name)
    requires IsPath(E, p) && p[0] != p[|p| - 1]
    ensures w != p[|p| - 1] && (w, p[|p| - 1]) in E
    decreases |p|
  {
    var n := |p| - 1;
    w := p[n - 1];
    assert (p[n - 1], p[n]) in E;
    if p[n - 1] == p[n] {
      PathSlice(E, p, 0, n);
      w := EntersFrom(E, p[..n]);
    }
  }

  lemma ExcusedBy(g: Digraph, s: Stage, S: set<Name>, t: Name, q: Name, p: Name)
    requires g.Valid() && S <= s.frontier && t !in s.explored + s.frontier
    requires g.Ancestors(t) <= s.explored + S + {q}
    requires q in g.Preds(t) && q != t && p in g.Preds(t) && p in s.explored + S
    ensures S in Explanations(g, ByPredecessor, s, t)
  {
    EdgeReach(g.edges, q, t);
    DescendantsAreReached(g, q, t);
    assert q in Excuses(g, ByPredecessor, t);
    assert Matches(g, ByPredecessor, s.explored + S, t);
  }

  lemma FewEnough(g: Digraph, s: Stage, t: Name)
    requires g.Valid() && StageInv(g, ByPredecessor, s) && t !in s.explored + s.frontier
    requires g.Ancestors(t) <= s.explored + s.frontier
    requires 1 <= |NewAncestors(g, s, t)| <= 2
    ensures GetsParents(g, ByPredecessor, s, t)
  {
    var S := NewAncestors(g, s, t);
    var a :| a in S;
    HasPredecessor(g, t, a);
    PredsAreAncestors(g, t);
    var p :| p in g.Preds(t) - {t};
    ExcusedBy(g, s, S, t, p, p);
  }

  lemma ThreeWithSpare(g: Digraph, s: Stage, t: Name)
    requires g.Valid() && StageInv(g, ByPredecessor, s) && t !in s.explored + s.frontier
    requires g.Ancestors(t) <= s.explored + s.frontier
    requires |NewAncestors(g, s, t)| == 3 && HasSparePredecessor(g, s, t)
    ensures GetsParents(g, ByPredecessor, s, t)
  {
    var N := NewAncestors(g, s, t);
    var q, p :| q in N && q in g.Preds(t) && p in g.Preds(t) && p != q && p != t;
    assert p in g.Ancestors(t) by { PredsAreAncestors(g, t); }
    var S := N - {q};
    assert S <= s.frontier;
    assert g.Ancestors(t) <= s.explored + S + {q};
    assert p in s.explored + S;
    ExcusedBy(g, s, S, t, q, p);
    assert |S| == 2;
  }

  lemma SomeNewAncestor(g: Digraph, s: Stage, t: Name, p: Name)
    requires g.Valid() && StageInv(g, ByPredecessor, s) && t !in s.explored + s.frontier
    requires p in g.Preds(t) && p != t
    ensures NewAncestors(g, s, t) != {}
  {
    assert p in g.Ancestors(t) by { PredsAreAncestors(g, t); }
    var none: set<Name> := {};
    assert s.explored + none == s.explored;
    if NewAncestors(g, s, t) == {} {
      ExcusedBy(g, s, none, t, p, p);
    }
  }

  lemma ExplainedArity(g: Digraph, s: Stage, t: Name, S: set<Name>)
    requires g.Valid() && StageInv(g, ByPredecessor, s) && t !in s.explored + s.frontier
    requires g.Ancestors(t) <= s.explored + s.frontier
    requires S in Explanations(g, ByPredecessor, s, t) && |S| <= 2
    ensures 1 <= |NewAncestors(g, s, t)| <= 2 || (|NewAncestors(g, s, t)| == 3 && HasSparePredecessor(g, s, t))
  {
    var N := NewAncestors(g, s, t);
    var p :| p in s.explored + S && (p, t) in g.edges;
    var q :| q in Excuses(g, ByPredecessor, t) && g.Ancestors(t) <= s.explored + S + {q};
    assert p in g.Preds(t) && p != t;
    SomeNewAncestor(g, s, t, p);
    assert N <= S + {q};
    SubsetSize(N, S + {q});
    if |N| == 3 {
      assert q in N && q !in S by {
        if N <= S { SubsetSize(N, S); }
      }
      assert p != q;
    }
  }

  /** For a target whose ancestors are all active by the end of the round, the newer search
      finds parents exactly when one or two of the ancestors are new, or when three are new
      and one of them is a direct predecessor beside another. */
  lemma ArityOfTarget(g: Digraph, s: Stage, t: Name)
    requires g.Valid() && StageInv(g, ByPredecessor, s) && t !in s.explored + s.frontier
    requires g.Ancestors(t) <= s.explored + s.frontier
    ensures GetsParents(g, ByPredecessor, s, t) <==>
      1 <= |NewAncestors(g, s, t)| <= 2 || (|NewAncestors(g, s, t)| == 3 && HasSparePredecessor(g, s, t))
  {
    if GetsParents(g, ByPredecessor, s, t) {
      var S :| S in Explanations(g, ByPredecessor, s, t) && 1 <= |S| <= 2;
      ExplainedArity(g, s, t, S);
    }
    if 1 <= |NewAncestors(g, s, t)| <= 2 {
      FewEnough(g, s, t);
    }
    if |NewAncestors(g, s, t)| == 3 && HasSparePredecessor(g, s, t) {
      ThreeWithSpare(g, s, t);
    }
  }

  /** One ancestor is not active at the end of the round, and it is a direct predecessor; one or two others are new,
      and some predecessor is active. */
  ghost predicate OneStaysOut(g: Digraph, s: Stage, t: Name, q: Name) {
    && g.Ancestors(t) - s.explored - s.frontier == {q} && q in g.Preds(t)
    && 1 <= |g.Ancestors(t) * s.frontier| <= 2
    && exists p :: p in g.Preds(t) && p in s.explored + s.frontier
  }

  lemma OutsideFound(g: Digraph, s: Stage, t: Name, q: Name)
    requires g.Valid() && StageInv(g, ByPredecessor, s) && t !in s.explored + s.frontier && OneStaysOut(g, s, t, q)
    ensures GetsParents(g, ByPredecessor, s, t)
  {
    var S := g.Ancestors(t) * s.frontier;
    var p :| p in g.Preds(t) && p in s.explored + s.frontier;
    assert p in g.Ancestors(t) by { PredsAreAncestors(g, t); }
    assert q != t by { assert q in g.Ancestors(t); }
    ExcusedBy(g, s, S, t, q, p);
  }

  lemma NewOneInFrontier(g: Digraph, s: Stage, t: Name, q: Name, p: Name)
    requires g.Valid() && StageInv(g, ByPredecessor, s) && t !in s.explored + s.frontier
    requires g.Ancestors(t) <= s.explored + s.frontier + {q} && q in g.Preds(t) && q != t
    requires p in g.Preds(t) && p in s.explored + s.frontier
    ensures g.Ancestors(t) * s.frontier != {}
  {
    assert p in g.Ancestors(t) by { PredsAreAncestors(g, t); }
    var none: set<Name> := {};
    assert s.explored + none == s.explored;
    if g.Ancestors(t) * s.frontier == {} {
      assert p in s.explored;
      ExcusedBy(g, s, none, t, q, p);
    }
  }

  lemma OutsideExplained(g: Digraph, s: Stage, t: Name, S: set<Name>, q: Name)
    requires g.Valid() && StageInv(g, ByPredecessor, s) && t !in s.explored + s.frontier
    requires q in g.Ancestors(t) - s.explored - s.frontier
    requires S in Explanations(g, ByPredecessor, s, t) && |S| <= 2
    ensures OneStaysOut(g, s, t, q)
  {
    var p :| p in s.explored + S && (p, t) in g.edges;
    var e :| e in Excuses(g, ByPredecessor, t) && g.Ancestors(t) <= s.explored + S + {e};
    assert e == q && p in g.Preds(t);
    assert g.Ancestors(t) * s.frontier <= S;
    SubsetSize(g.Ancestors(t) * s.frontier, S);
    NewOneInFrontier(g, s, t, q, p);
  }

  /** For every target that is new to a round, the newer search finds parents exactly when its ancestors are all active by
      the end of the round and one or two of them are new, or three with a spare direct predecessor; or
      when one ancestor stays out that is a direct predecessor, one or two others are new and a
      predecessor is active. */
  lemma ArityExactly(g: Digraph, s: Stage, t: Name)
    requires g.Valid() && StageInv(g, ByPredecessor, s) && t !in s.explored + s.frontier
    ensures GetsParents(g, ByPredecessor, s, t) <==>
      if g.Ancestors(t) <= s.explored + s.frontier then
        1 <= |NewAncestors(g, s, t)| <= 2 || (|NewAncestors(g, s, t)| == 3 && HasSparePredecessor(g, s, t))
      else exists q :: OneStaysOut(g, s, t, q)
  {
    if g.Ancestors(t) <= s.explored + s.frontier {
      ArityOfTarget(g, s, t);
    } else {
      var q :| q in g.Ancestors(t) && q !in s.explored + s.frontier;
      if GetsParents(g, ByPredecessor, s, t) {
        var S :| S in Explanations(g, ByPredecessor, s, t) && 1 <= |S| <= 2;
        OutsideExplained(g, s, t, S, q);
      }
      if e :| OneStaysOut(g, s, t, e) {
        OutsideFound(g, s, t, e);
      }
    }
  }

  /** An object made from three free objects is not left out, as the documentation has it:
      it gets two of the three as parents, and which two is a matter of set order. */
  lemma ThreeFreeParents(g: Digraph, s: Stage, t: Name, a: Name, b: Name, c: Name)
    requires g.Valid() && StageInv(g, ByPredecessor, s) && t !in s.explored + s.frontier
    requires a != b && b != c && a != c && {a, b, c} <= s.frontier
    requires g.Preds(t) == {a, b, c} && g.Ancestors(t) == {a, b, c}
    ensures HasRivalPairs(Explanations(g, ByPredecessor, s, t), {a, b}, {b, c})
  {
    assert {a, b} != {b, c} by { assert a in {a, b} && a !in {b, c}; }
    PairSize(a, b);
    PairSize(b, c);
    TwoOfThree(g, s, t, a, b, c);
    TwoOfThree(g, s, t, b, c, a);
    forall p ensures {p} !in Explanations(g, ByPredecessor, s, t) {
      NoneOfThreeAlone(g, s, t, a, b, c, p);
    }
  }

  lemma PairSize(a: Name, b: Name)
    requires a != b
    ensures |{a, b}| == 2
  {
  }

  lemma TwoOfThree(g: Digraph, s: Stage, t: Name, p1: Name, p2: Name, q: Name)
    requires g.Valid() && t !in s.explored + s.frontier
    requires p1 in s.frontier && p2 in s.frontier && q in s.frontier
    requires p1 in g.Preds(t) && q in g.Preds(t) && g.Ancestors(t) <= {p1, p2, q}
    ensures {p1, p2} in Explanations(g, ByPredecessor, s, t)
  {
    ExcusedBy(g, s, {p1, p2}, t, q, p1);
  }

  lemma NoneOfThreeAlone(g: Digraph, s: Stage, t: Name, a: Name, b: Name, c: Name, p: Name)
    requires StageInv(g, ByPredecessor, s)
    requires a != b && b != c && a != c && {a, b, c} <= s.frontier && {a, b, c} <= g.Ancestors(t)
    ensures {p} !in Explanations(g, ByPredecessor, s, t)
  {
    var x, y := if p == a then b else a, if p == c || p == a then (if p == c then b else c) else (if p == b then c else b);
    assert x != y && x != p && y != p && x in {a, b, c} && y in {a, b, c};
    assert x !in s.explored + {p} && y !in s.explored + {p};
    if t in Matched(g, ByPredecessor, s.explored + {p}) {
      OneOutside(g, ByPredecessor, s.explored + {p}, t, x, y);
    }
  }

  /** The older search, on an acyclic graph, gives a target parents only if all its new
      ancestors are these parents: it does ignore three and more. */
  lemma OlderParents(g: Digraph, s: Stage, t: Name, S: set<Name>)
    requires g.Valid() && Acyclic(g.edges) && StageInv(g, BySuccessor, s) && t !in s.explored + s.frontier
    requires S in Explanations(g, BySuccessor, s, t)
    ensures NewAncestors(g, s, t) <= S
  {
    var q :| q in Excuses(g, BySuccessor, t) && g.Ancestors(t) <= s.explored + S + {q};
    if q in g.Ancestors(t) {
      AncestorsReach(g, q, t);
      EdgeReach(g.edges, t, q);
      ReachTrans(g.edges, t, q, t);
    }
  }
}
