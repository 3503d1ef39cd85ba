/** The edge-pruning step of `build_graph_from_df`: an edge goes when a longer simple path
    joins its end points.  All such edges are found first and removed together. */
module Reduction {
  import opened Graphs

  /** A path without repeated nodes that stays clear of `avoid`. */
  ghost predicate SimplePath(E: set<Edge>, p: seq<Name>, u: Name, v: Name, avoid: set<Name>) {
    PathBetween(E, p, u, v) && Distinct(p) && forall i :: 0 <= i < |p| ==> p[i] !in avoid
  }

  /** `nx.all_simple_paths`, with the nodes on the current path in `avoid`. */
  function AllSimplePaths(g: Digraph, u: Name, v: Name, avoid: set<Name>): set<seq<Name>>
    decreases Heads(g.edges) - avoid - {u}
  {
    if u == v then {[u]}
    else
      set w, p | w in NextNodes(g, u, avoid) && p in AllSimplePaths(g, w, v, avoid + {u}) :: [u] + p
  }

  function NextNodes(g: Digraph, u: Name, avoid: set<Name>): (s: set<Name>)
    ensures forall w :: w in s ==> Heads(g.edges) - (avoid + {u}) - {w} < Heads(g.edges) - avoid - {u}
  {
    var s := g.Succs(u) - avoid - {u};
    assert forall w :: w in s ==> (u, w).1 in Heads(g.edges);
    assert forall w :: w in s ==> w in Heads(g.edges) - avoid - {u};
    s
  }

  lemma {:induction false} EnumeratedAreSimple(g: Digraph, u: Name, v: Name, avoid: set<Name>, p: seq<Name>)
    requires u !in avoid && p in AllSimplePaths(g, u, v, avoid)
    ensures SimplePath(g.edges, p, u, v, avoid)
    decreases Heads(g.edges) - avoid - {u}
  {
    if u != v {
      var w, q :| w in NextNodes(g, u, avoid) && q in AllSimplePaths(g, w, v, avoid + {u}) && p == [u] + q;
      EnumeratedAreSimple(g, w, v, avoid + {u}, q);
      forall i | 0 < i < |p| ensures (p[i - 1], p[i]) in g.edges {
        if i > 1 { assert (q[i - 2], q[i - 1]) in g.edges; }
      }
    }
  }

  lemma TailIsSimple(E: set<Edge>, p: seq<Name>, u: Name, v: Name, avoid: set<Name>)
    requires SimplePath(E, p, u, v, avoid) && |p| > 1
    ensures u != v && (u, p[1]) in E && p[1] !in avoid + {u}
    ensures SimplePath(E, p[1..], p[1], v, avoid + {u})
  {
    var q := p[1..];
    assert p[0] != p[|p| - 1];
    assert (p[0], p[1]) in E;
    PathSlice(E, p, 1, |p|);
    forall i | 0 <= i < |q| ensures q[i] !in avoid + {u} { assert q[i] == p[i + 1]; }
  }

  lemma {:induction false} SimpleAreEnumerated(g: Digraph, u: Name, v: Name, avoid: set<Name>, p: seq<Name>)
    requires SimplePath(g.edges, p, u, v, avoid)
    ensures p in AllSimplePaths(g, u, v, avoid)
    decreases |p|
  {
    if |p| == 1 {
      assert p == [u];
    } else {
      TailIsSimple(g.edges, p, u, v, avoid);
      var w, q := p[1], p[1..];
      SimpleAreEnumerated(g, w, v, avoid + {u}, q);
      assert w in NextNodes(g, u, avoid);
      assert p == [u] + q;
    }
  }

  /** The edge has an alternative with at least one node in between. */
  ghost predicate HasDetour(E: set<Edge>, u: Name, v: Name) {
    exists p :: SimplePath(E, p, u, v, {}) && |p| > 2
  }

  lemma DetourIsEnumerated(g: Digraph, u: Name, v: Name)
    ensures HasDetour(g.edges, u, v) ==> exists p :: p in AllSimplePaths(g, u, v, {}) && |p| > 2
  {
    if HasDetour(g.edges, u, v) {
      var p :| SimplePath(g.edges, p, u, v, {}) && |p| > 2;
      SimpleAreEnumerated(g, u, v, {}, p);
    }
  }

  ghost predicate IsReduced(g: Digraph, r: Digraph) {
    && r.nodes == g.nodes
    && forall u, v :: (u, v) in r.edges <==> (u, v) in g.edges && !HasDetour(g.edges, u, v)
  }

  method Reduce(g: Digraph) returns (r: Digraph)
    ensures IsReduced(g, r)
  {
    var toRemove: set<Edge> := {};
    var edges := g.edges;
    while edges != {}
      invariant edges <= g.edges
      invariant forall u, v :: (u, v) in toRemove <==> (u, v) in g.edges - edges && HasDetour(g.edges, u, v)
    {
      var e :| e in edges;
      var all := AllSimplePaths(g, e.0, e.1, {});
      var paths := all;
      var found := false;
      while paths != {} && !found
        invariant paths <= all
        invariant found ==> HasDetour(g.edges, e.0, e.1)
        invariant !found ==> forall p :: p in all - paths ==> |p| <= 2
        decreases paths, !found
      {
        var path :| path in paths;
        if |path| > 2 {
          EnumeratedAreSimple(g, e.0, e.1, {}, path);
          found := true;
        } else {
          paths := paths - {path};
        }
      }
      assert e == (e.0, e.1);
      DetourIsEnumerated(g, e.0, e.1);
      if found {
        toRemove := toRemove + {e};
      }
      edges := edges - {e};
    }
    r := Digraph(g.nodes, g.edges - toRemove);
  }

  // ---------- On acyclic graphs ----------

  lemma SliceReach(E: set<Edge>, p: seq<Name>, i: nat, j: nat)
    requires IsPath(E, p) && i < j < |p|
    ensures Reach(E, p[i], p[j])
  {
    PathSlice(E, p, i, j + 1);
    assert |p[i..j + 1]| >= 2;
  }

  /** Without cycles every path is simple. */
  lemma PathsAreSimple(E: set<Edge>, p: seq<Name>, u: Name, v: Name)
    requires Acyclic(E) && PathBetween(E, p, u, v)
    ensures SimplePath(E, p, u, v, {})
  {
    forall i, j | 0 <= i < j < |p| ensures p[i] != p[j] {
      if p[i] == p[j] {
        SliceReach(E, p, i, j);
      }
    }
  }

  lemma DetourByNode(E: set<Edge>, u: Name, w: Name, v: Name)
    requires Acyclic(E) && Reach(E, u, w) && Reach(E, w, v)
    ensures HasDetour(E, u, v)
  {
    var p :| PathBetween(E, p, u, w) && |p| >= 2;
    var q :| PathBetween(E, q, w, v) && |q| >= 2;
    PathConcat(E, p, q);
    PathsAreSimple(E, p + q[1..], u, v);
  }

  ghost function Between(g: Digraph, u: Name, v: Name): set<Name> {
    set w | w in g.nodes && Reach(g.edges, u, w) && Reach(g.edges, w, v)
  }

  lemma {:induction false} ReachSurvives(g: Digraph, r: Digraph, u: Name, v: Name)
    requires g.Valid() && Acyclic(g.edges) && IsReduced(g, r) && Reach(g.edges, u, v)
    ensures Reach(r.edges, u, v)
    decreases Between(g, u, v)
  {
    if w :| w in Between(g, u, v) {
      BetweenShrinks(g, u, w, v);
      ReachSurvives(g, r, u, w);
      ReachSurvives(g, r, w, v);
      ReachTrans(r.edges, u, w, v);
    } else {
      NothingBetween(g, r, u, v);
      EdgeReach(r.edges, u, v);
    }
  }

  lemma NothingBetween(g: Digraph, r: Digraph, u: Name, v: Name)
    requires g.Valid() && Acyclic(g.edges) && IsReduced(g, r) && Reach(g.edges, u, v)
    requires Between(g, u, v) == {}
    ensures (u, v) in r.edges
  {
    var w := ReachFirst(g.edges, u, v);
    EdgeReach(g.edges, u, w);
    assert w == v by {
      if w != v { InBetween(g, u, w, v); }
    }
    if HasDetour(g.edges, u, v) {
      var p :| SimplePath(g.edges, p, u, v, {}) && |p| > 2;
      var m := p[1];
      SliceReach(g.edges, p, 0, 1);
      SliceReach(g.edges, p, 1, |p| - 1);
      InBetween(g, u, m, v);
    }
  }

  lemma InBetween(g: Digraph, u: Name, w: Name, v: Name)
    requires g.Valid() && Reach(g.edges, u, w) && Reach(g.edges, w, v)
    ensures w in Between(g, u, v)
  {
    var x := ReachLast(g.edges, u, w);
    assert (x, w) in g.edges;
  }

  lemma BetweenShrinks(g: Digraph, u: Name, w: Name, v: Name)
    requires g.Valid() && Acyclic(g.edges) && w in Between(g, u, v)
    ensures Between(g, u, w) < Between(g, u, v) && Between(g, w, v) < Between(g, u, v)
  {
    forall x | x in Between(g, u, w) ensures x in Between(g, u, v) { ReachTrans(g.edges, x, w, v); }
    forall x | x in Between(g, w, v) ensures x in Between(g, u, v) { ReachTrans(g.edges, u, w, x); }
    assert w !in Between(g, u, w) && w !in Between(g, w, v);
  }

  lemma {:induction false} PathInLarger(E: set<Edge>, F: set<Edge>, p: seq<Name>)
    requires E <= F && IsPath(E, p)
    ensures IsPath(F, p)
  {
    forall i | 0 < i < |p| ensures (p[i - 1], p[i]) in F {
      assert (p[i - 1], p[i]) in E;
    }
  }

  lemma SimpleInLarger(E: set<Edge>, F: set<Edge>, p: seq<Name>, u: Name, v: Name)
    requires E <= F && SimplePath(E, p, u, v, {})
    ensures SimplePath(F, p, u, v, {})
  {
    PathInLarger(E, F, p);
  }

  /** Pruning an acyclic graph keeps, for every pair of nodes, whether the one reaches the other. */
  lemma SameReachability(g: Digraph, r: Digraph, u: Name, v: Name)
    requires g.Valid() && Acyclic(g.edges) && IsReduced(g, r)
    ensures Reach(r.edges, u, v) <==> Reach(g.edges, u, v)
  {
    if Reach(g.edges, u, v) {
      ReachSurvives(g, r, u, v);
    }
    if Reach(r.edges, u, v) {
      var p :| PathBetween(r.edges, p, u, v) && |p| >= 2;
      EdgesWithin(r.edges, g.edges);
      PathInLarger(r.edges, g.edges, p);
    }
  }

  /** What is left is contained in every edge set with the same reachability: it is the one
      least of them, so the library's transitive reduction cannot differ from it. */
  lemma LeastWithSameReachability(g: Digraph, r: Digraph, F: set<Edge>, u: Name, v: Name)
    requires g.Valid() && Acyclic(g.edges) && IsReduced(g, r)
    requires forall x, y :: Reach(F, x, y) <==> Reach(g.edges, x, y)
    requires (u, v) in r.edges
    ensures (u, v) in F
  {
    EdgeReach(g.edges, u, v);
    assert Reach(F, u, v);
    var w := ReachFirst(F, u, v);
    if w != v {
      EdgeReach(F, u, w);
      assert Reach(g.edges, u, w) && Reach(g.edges, w, v);
      DetourByNode(g.edges, u, w, v);
    }
  }

  // ---------- On every graph ----------

  /** A second pass removes nothing, cycles or not: the repeated passes of the source, one
      for each pair of declared dependencies, leave the graph as the first one left it. */
  lemma SecondPassDoesNothing(g: Digraph, r: Digraph, r2: Digraph)
    requires IsReduced(g, r) && IsReduced(r, r2)
    ensures r2 == r
  {
    EdgesWithin(r.edges, g.edges);
    forall u, v | (u, v) in r.edges ensures (u, v) in r2.edges {
      if HasDetour(r.edges, u, v) {
        var p :| SimplePath(r.edges, p, u, v, {}) && |p| > 2;
        SimpleInLarger(r.edges, g.edges, p, u, v);
      }
    }
    EdgesWithin(r.edges, r2.edges);
    EdgesWithin(r2.edges, r.edges);
  }

  lemma EdgesWithin(E: set<Edge>, F: set<Edge>)
    requires forall u, v :: (u, v) in E ==> (u, v) in F
    ensures E <= F
  {
    forall e | e in E ensures e in F { assert e == (e.0, e.1); }
  }

  ghost predicate SameReach(E: set<Edge>, F: set<Edge>) {
    forall x, y :: Reach(E, x, y) <==> Reach(F, x, y)
  }

  function Loopless(E: set<Edge>): set<Edge> {
    set e | e in E && e.0 != e.1
  }

  ghost predicate IsLeast(F: set<Edge>, E: set<Edge>) {
    && F <= E && SameReach(F, E)
    && forall F' :: F' <= E && SameReach(F', E) ==> F <= F'
  }

  /** An edge that is kept between different nodes lies in every part of the graph with the same reachability,
      cycles or not. */
  lemma KeptIsNeeded(E: set<Edge>, F: set<Edge>, u: Name, v: Name)
    requires F <= E && u != v && Reach(F, u, v) && !HasDetour(E, u, v)
    ensures (u, v) in F
  {
    var p :| PathBetween(F, p, u, v) && |p| >= 2;
    var q := PathsCanBeSimple(F, p, u, v);
    SimpleInLarger(F, E, q, u, v);
    assert |q| == 2 && (q[0], q[1]) in F;
  }

  ghost predicate Covers(F: set<Edge>, E: set<Edge>) {
    forall x, y :: (x, y) in E ==> Reach(F, x, y)
  }

  /** When every edge of one graph can be replaced by a walk in another one, so can every walk. */
  lemma {:induction false} WalkReplaced(E: set<Edge>, F: set<Edge>, p: seq<Name>)
    requires IsPath(E, p) && |p| >= 2 && Covers(F, E)
    ensures Reach(F, p[0], p[|p| - 1])
    decreases |p|
  {
    assert (p[0], p[1]) in E;
    if |p| > 2 {
      PathSlice(E, p, 1, |p|);
      assert p[1..] == p[1..|p|];
      WalkReplaced(E, F, p[1..]);
      ReachTrans(F, p[0], p[1], p[|p| - 1]);
    }
  }

  lemma ReachReplaced(E: set<Edge>, F: set<Edge>, u: Name, v: Name)
    requires Covers(F, E) && Reach(E, u, v)
    ensures Reach(F, u, v)
  {
    var p :| PathBetween(E, p, u, v) && |p| >= 2;
    WalkReplaced(E, F, p);
  }

  lemma CoversItsParts(E: set<Edge>, F: set<Edge>)
    requires E <= F
    ensures Covers(F, E)
  {
    forall x, y | (x, y) in E ensures Reach(F, x, y) {
      EdgeReach(F, x, y);
    }
  }

  lemma CoveringIsSame(E: set<Edge>, F: set<Edge>)
    requires Covers(F, E) && Covers(E, F)
    ensures SameReach(E, F)
  {
    forall x, y ensures Reach(E, x, y) <==> Reach(F, x, y) {
      if Reach(E, x, y) {
        ReachReplaced(E, F, x, y);
      }
      if Reach(F, x, y) {
        ReachReplaced(F, E, x, y);
      }
    }
  }

  /** An edge with a detour is not needed. */
  lemma DetourSuffices(E: set<Edge>, u: Name, v: Name)
    requires HasDetour(E, u, v)
    ensures SameReach(Loopless(E) - {(u, v)}, Loopless(E))
  {
    var rest := Loopless(E) - {(u, v)};
    var p :| SimplePath(E, p, u, v, {}) && |p| > 2;
    forall i | 0 < i < |p| ensures (p[i - 1], p[i]) in rest {
      assert (p[i - 1], p[i]) in E && p[i - 1] != p[i];
      assert p[i - 1] == u ==> i == 1;
      assert p[i] == v ==> i == |p| - 1;
    }
    forall x, y | (x, y) in Loopless(E) ensures Reach(rest, x, y) {
      if (x, y) == (u, v) {
        assert PathBetween(rest, p, u, v);
      } else {
        EdgeReach(rest, x, y);
      }
    }
    CoversItsParts(rest, Loopless(E));
    CoveringIsSame(rest, Loopless(E));
  }

  lemma LoopsHaveNoDetour(E: set<Edge>, u: Name)
    ensures !HasDetour(E, u, u)
  {
    forall p | SimplePath(E, p, u, u, {}) ensures |p| <= 2 {
      assert p[0] == u == p[|p| - 1];
    }
  }

  lemma ReducedLoopless(g: Digraph, r: Digraph)
    requires IsReduced(g, r)
    ensures Loopless(r.edges) <= Loopless(g.edges) && r.edges <= g.edges
    ensures forall u :: (u, u) in g.edges ==> (u, u) in r.edges
  {
    EdgesWithin(Loopless(r.edges), Loopless(g.edges));
    EdgesWithin(r.edges, g.edges);
    forall u | (u, u) in g.edges ensures (u, u) in r.edges {
      LoopsHaveNoDetour(g.edges, u);
    }
  }

  /** Loops do not matter to the question whether reachability stays. */
  lemma WithLoops(g: Digraph, r: Digraph)
    requires IsReduced(g, r) && SameReach(Loopless(r.edges), Loopless(g.edges))
    ensures SameReach(r.edges, g.edges)
  {
    ReducedLoopless(g, r);
    forall u, v | (u, v) in g.edges ensures Reach(r.edges, u, v) {
      if u == v {
        EdgeReach(r.edges, u, v);
      } else {
        EdgeReach(Loopless(g.edges), u, v);
        assert Reach(Loopless(r.edges), u, v);
        CoversItsParts(Loopless(r.edges), r.edges);
        ReachReplaced(Loopless(r.edges), r.edges, u, v);
      }
    }
    CoversItsParts(r.edges, g.edges);
    CoveringIsSame(r.edges, g.edges);
  }

  lemma WithoutLoops(g: Digraph, r: Digraph)
    requires IsReduced(g, r) && SameReach(r.edges, g.edges)
    ensures SameReach(Loopless(r.edges), Loopless(g.edges))
  {
    var E, F := Loopless(g.edges), Loopless(r.edges);
    ReducedLoopless(g, r);
    forall u, v | (u, v) in E ensures Reach(F, u, v) {
      EdgeReach(g.edges, u, v);
      assert Reach(r.edges, u, v);
      SimpleWithoutLoops(r.edges, u, v);
    }
    CoversItsParts(F, E);
    CoveringIsSame(F, E);
  }

  lemma SimpleWithoutLoops(E: set<Edge>, u: Name, v: Name)
    requires u != v && Reach(E, u, v)
    ensures Reach(Loopless(E), u, v)
  {
    var p :| PathBetween(E, p, u, v) && |p| >= 2;
    var q := PathsCanBeSimple(E, p, u, v);
    forall i | 0 < i < |q| ensures (q[i - 1], q[i]) in Loopless(E) {
      assert (q[i - 1], q[i]) in E && q[i - 1] != q[i];
    }
    assert PathBetween(Loopless(E), q, u, v);
  }

  lemma LeastHasNoDetours(E: set<Edge>, F: set<Edge>, u: Name, v: Name)
    requires IsLeast(F, Loopless(E)) && HasDetour(E, u, v)
    ensures (u, v) !in F
  {
    DetourSuffices(E, u, v);
    assert F <= Loopless(E) - {(u, v)};
  }

  lemma LeastIsReduced(g: Digraph, r: Digraph, F: set<Edge>)
    requires IsReduced(g, r) && IsLeast(F, Loopless(g.edges))
    ensures F == Loopless(r.edges)
  {
    forall u, v | (u, v) in F ensures (u, v) in Loopless(r.edges) {
      if HasDetour(g.edges, u, v) {
        LeastHasNoDetours(g.edges, F, u, v);
      }
    }
    EdgesWithin(F, Loopless(r.edges));
    KeptAreNeeded(g, r, F);
  }

  lemma KeptAreNeeded(g: Digraph, r: Digraph, F: set<Edge>)
    requires IsReduced(g, r) && F <= Loopless(g.edges) && SameReach(F, Loopless(g.edges))
    ensures Loopless(r.edges) <= F
  {
    forall u, v | (u, v) in Loopless(r.edges) ensures (u, v) in F {
      EdgeReach(Loopless(g.edges), u, v);
      assert Reach(F, u, v);
      KeptIsNeeded(g.edges, F, u, v);
    }
    EdgesWithin(Loopless(r.edges), F);
  }

  /** Pruning keeps reachability if and only if the edges between different nodes have a least part with the
      same reachability; and then it leaves exactly that part of them. */
  lemma ReachabilityStaysExactly(g: Digraph, r: Digraph)
    requires IsReduced(g, r)
    ensures SameReach(r.edges, g.edges) <==> exists F :: IsLeast(F, Loopless(g.edges))
    ensures forall F :: IsLeast(F, Loopless(g.edges)) ==> F == Loopless(r.edges)
  {
    var E, kept := Loopless(g.edges), Loopless(r.edges);
    ReducedLoopless(g, r);
    forall F | IsLeast(F, E) ensures F == kept {
      LeastIsReduced(g, r, F);
    }
    if F :| IsLeast(F, E) {
      WithLoops(g, r);
    }
    if SameReach(r.edges, g.edges) {
      WithoutLoops(g, r);
      forall F' | F' <= E && SameReach(F', E) ensures kept <= F' {
        KeptAreNeeded(g, r, F');
      }
      assert IsLeast(kept, E);
    }
  }

  /** With cycles the pass can disconnect everything: three objects that all depend on one
      another lose every edge. */
  lemma CyclesMayFallApart(a: Name, b: Name, c: Name, r: Digraph)
    requires a != b && b != c && a != c
    requires IsReduced(Triangle(a, b, c), r)
    ensures r.edges == {} && Reach(Triangle(a, b, c).edges, a, b) && !Reach(r.edges, a, b)
  {
    TriangleEdge(a, b, c, a, b);
    EdgeReach(Triangle(a, b, c).edges, a, b);
    TriangleReduced(a, b, c, r);
    NoEdgesNoReach(a, b);
  }

  lemma TriangleReduced(a: Name, b: Name, c: Name, r: Digraph)
    requires a != b && b != c && a != c && IsReduced(Triangle(a, b, c), r)
    ensures r.edges == {}
  {
    if r.edges != {} {
      var e :| e in r.edges;
      TriangleEdgeGoes(a, b, c, r, e.0, e.1);
    }
  }

  lemma TriangleEdgeGoes(a: Name, b: Name, c: Name, r: Digraph, u: Name, v: Name)
    requires a != b && b != c && a != c && IsReduced(Triangle(a, b, c), r)
    ensures (u, v) !in r.edges
  {
    TriangleEdge(a, b, c, u, v);
    if (u, v) in Triangle(a, b, c).edges {
      TriangleDetour(a, b, c, u, v);
    }
  }

  lemma NoEdgesNoReach(u: Name, v: Name)
    ensures !Reach({}, u, v)
  {
    if Reach({}, u, v) {
      var w := ReachFirst({}, u, v);
    }
  }

  lemma TriangleEdge(a: Name, b: Name, c: Name, u: Name, v: Name)
    requires a != b && b != c && a != c
    ensures (u, v) in Triangle(a, b, c).edges <==> (u == a || u == b || u == c) && (v == a || v == b || v == c) && u != v
  {
  }

  lemma TriangleDetour(a: Name, b: Name, c: Name, u: Name, v: Name)
    requires a != b && b != c && a != c
    requires (u == a || u == b || u == c) && (v == a || v == b || v == c) && u != v
    ensures HasDetour(Triangle(a, b, c).edges, u, v)
  {
    var E := Triangle(a, b, c).edges;
    var w := if a != u && a != v then a else if b != u && b != v then b else c;
    TriangleEdge(a, b, c, u, w);
    TriangleEdge(a, b, c, w, v);
    assert SimplePath(E, [u, w, v], u, v, {});
  }

  function Triangle(a: Name, b: Name, c: Name): Digraph {
    Digraph({a, b, c}, {(a, b), (b, a), (b, c), (c, b), (a, c), (c, a)})
  }
}
