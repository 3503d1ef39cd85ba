/** Finite directed graphs over object names, with reachability.

    The dependency graphs of the construction parser are `networkx.DiGraph`s; only their
    node set and edge set matter here.  `Descendants` and `Ancestors` stand for the library
    functions of those names, which never contain the node they start from. */
module Graphs {
  datatype Name = Name(text: string)

  type Edge = (Name, Name)

  datatype Digraph = Digraph(nodes: set<Name>, edges: set<Edge>) {
    /** Every edge joins two nodes of the graph. */
    ghost predicate Valid() {
      forall u, v :: (u, v) in edges ==> u in nodes && v in nodes
    }

    function Succs(n: Name): (s: set<Name>)
      ensures forall v :: v in s <==> (n, v) in edges
    {
      set e | e in edges && e.0 == n :: e.1
    }

    function Preds(n: Name): (s: set<Name>)
      ensures forall u :: u in s <==> (u, n) in edges
    {
      set e | e in edges && e.1 == n :: e.0
    }

    function SuccsOfAll(ns: set<Name>): (s: set<Name>)
      ensures forall v :: v in s <==> exists u :: u in ns && (u, v) in edges
    {
      var s := set e | e in edges && e.0 in ns :: e.1;
      assert forall u, v :: u in ns && (u, v) in edges ==> (u, v).1 in s;
      s
    }

    /** `DiGraph.add_edge`: missing end points become nodes. */
    function AddEdge(u: Name, v: Name): Digraph {
      Digraph(nodes + {u, v}, edges + {(u, v)})
    }

    function Descendants(n: Name): set<Name> {
      Closure(edges, Succs(n)) - {n}
    }

    function Ancestors(n: Name): set<Name> {
      set u | u in nodes && n in Descendants(u)
    }
  }

  // ---------- Paths and reachability ----------

  ghost predicate IsPath(E: set<Edge>, p: seq<Name>) {
    && |p| > 0
    && forall i {:trigger p[i]} :: 0 < i < |p| ==> (p[i - 1], p[i]) in E
  }

  ghost predicate PathBetween(E: set<Edge>, p: seq<Name>, u: Name, v: Name) {
    IsPath(E, p) && p[0] == u && p[|p| - 1] == v
  }

  /** `v` can be reached from `u` in one or more steps. */
  ghost predicate Reach(E: set<Edge>, u: Name, v: Name) {
    exists p :: PathBetween(E, p, u, v) && |p| >= 2
  }

  ghost predicate Acyclic(E: set<Edge>) {
    forall n :: !Reach(E, n, n)
  }

  lemma EdgeReach(E: set<Edge>, u: Name, v: Name)
    requires (u, v) in E
    ensures Reach(E, u, v)
  {
    assert PathBetween(E, [u, v], u, v);
  }

  lemma PathConcat(E: set<Edge>, p: seq<Name>, q: seq<Name>)
    requires IsPath(E, p) && IsPath(E, q) && p[|p| - 1] == q[0]
    ensures PathBetween(E, p + q[1..], p[0], q[|q| - 1])
  {
    var r := p + q[1..];
    forall i | 0 < i < |r| ensures (r[i - 1], r[i]) in E {
      if i < |p| {
        assert r[i - 1] == p[i - 1] && r[i] == p[i];
      } else {
        var j := i - |p| + 1;
        assert r[i] == q[j] && r[i - 1] == q[j - 1];
      }
    }
  }

  lemma PathSlice(E: set<Edge>, p: seq<Name>, i: nat, j: nat)
    requires IsPath(E, p) && i < j <= |p|
    ensures PathBetween(E, p[i..j], p[i], p[j - 1])
  {
    var r := p[i..j];
    forall k | 0 < k < |r| ensures (r[k - 1], r[k]) in E {
      assert r[k] == p[i + k] && r[k - 1] == p[i + k - 1];
    }
  }

  lemma ReachTrans(E: set<Edge>, u: Name, v: Name, w: Name)
    requires Reach(E, u, v) && Reach(E, v, w)
    ensures Reach(E, u, w)
  {
    var p :| PathBetween(E, p, u, v) && |p| >= 2;
    var q :| PathBetween(E, q, v, w) && |q| >= 2;
    PathConcat(E, p, q);
  }

  /** The last step of a walk. */
  lemma ReachLast(E: set<Edge>, u: Name, v: Name) returns (w: Name)
    requires Reach(E, u, v)
    ensures (w, v) in E && (w == u || Reach(E, u, w))
  {
    var p :| PathBetween(E, p, u, v) && |p| >= 2;
    w := p[|p| - 2];
    assert p[|p| - 1] == v;
    if |p| > 2 {
      PathSlice(E, p, 0, |p| - 1);
    }
  }

  /** The first step of a walk. */
  lemma ReachFirst(E: set<Edge>, u: Name, v: Name) returns (w: Name)
    requires Reach(E, u, v)
    ensures (u, w) in E && (w == v || Reach(E, w, v))
  {
    var p :| PathBetween(E, p, u, v) && |p| >= 2;
    w := p[1];
    assert p[0] == u;
    if |p| > 2 {
      PathSlice(E, p, 1, |p|);
    }
  }

  // ---------- Paths without repetitions ----------

  ghost predicate Distinct(p: seq<Name>) {
    forall i, j :: 0 <= i < j < |p| ==> p[i] != p[j]
  }

  lemma CutLoop(E: set<Edge>, p: seq<Name>, i: nat, j: nat) returns (q: seq<Name>)
    requires IsPath(E, p) && i < j < |p| && p[i] == p[j]
    ensures PathBetween(E, q, p[0], p[|p| - 1]) && |q| < |p|
  {
    var front, back := p[..i + 1], p[j..];
    PathSlice(E, p, 0, i + 1);
    PathSlice(E, p, j, |p|);
    assert front == p[0..i + 1] && back == p[j..|p|];
    PathConcat(E, front, back);
    q := front + back[1..];
  }

  lemma {:induction false} PathsCanBeSimple(E: set<Edge>, p: seq<Name>, u: Name, v: Name) returns (q: seq<Name>)
    requires PathBetween(E, p, u, v)
    ensures PathBetween(E, q, u, v) && Distinct(q)
    decreases |p|
  {
    q := p;
    if !Distinct(p) {
      var i, j :| 0 <= i < j < |p| && p[i] == p[j];
      q := CutLoop(E, p, i, j);
      q := PathsCanBeSimple(E, q, u, v);
    }
  }

  // ---------- Closure ----------

  function Heads(E: set<Edge>): set<Name> {
    set e | e in E :: e.1
  }

  /** All nodes of `S` and everything that can be reached from them. */
  function Closure(E: set<Edge>, S: set<Name>): (r: set<Name>)
    ensures S <= r
    ensures forall u, v :: u in r && (u, v) in E ==> v in r
    decreases Heads(E) - S
  {
    var next := S + set e | e in E && e.0 in S :: e.1;
    if next == S then
      assert forall u, v :: u in S && (u, v) in E ==> (u, v).1 in next;
      S
    else
      assert Heads(E) - next < Heads(E) - S by { ClosureGrows(E, S); }
      Closure(E, next)
  }

  lemma ClosureGrows(E: set<Edge>, S: set<Name>)
    ensures var next := S + set e | e in E && e.0 in S :: e.1;
      next != S ==> Heads(E) - next < Heads(E) - S
  {
    var next := S + set e | e in E && e.0 in S :: e.1;
    if next != S {
      assert !(next <= S);
      var v :| v in next && v !in S;
      assert v in Heads(E) - S;
    }
  }

  lemma {:induction false} ClosureReached(E: set<Edge>, S: set<Name>, v: Name)
    requires v in Closure(E, S)
    ensures v in S || exists u :: u in S && Reach(E, u, v)
    decreases Heads(E) - S
  {
    var next := S + set e | e in E && e.0 in S :: e.1;
    if next != S {
      ClosureGrows(E, S);
      ClosureReached(E, next, v);
      var w :| w in next && (w == v || Reach(E, w, v));
      if w !in S {
        var e :| e in E && e.0 in S && e.1 == w;
        assert e == (e.0, w);
        EdgeReach(E, e.0, w);
        if w != v {
          ReachTrans(E, e.0, w, v);
        }
      }
    }
  }

  lemma {:induction false} ClosureComplete(E: set<Edge>, S: set<Name>, p: seq<Name>)
    requires IsPath(E, p) && p[0] in S
    ensures p[|p| - 1] in Closure(E, S)
    decreases |p|
  {
    if |p| > 1 {
      PathSlice(E, p, 0, |p| - 1);
      ClosureComplete(E, S, p[..|p| - 1]);
      assert (p[|p| - 2], p[|p| - 1]) in E;
    }
  }

  /** The library function agrees with reachability, except that the start is left out. */
  lemma DescendantsAreReached(g: Digraph, n: Name, v: Name)
    ensures v in g.Descendants(n) <==> v != n && Reach(g.edges, n, v)
  {
    if v in g.Descendants(n) {
      ClosureReached(g.edges, g.Succs(n), v);
      if v in g.Succs(n) {
        EdgeReach(g.edges, n, v);
      } else {
        var u :| u in g.Succs(n) && Reach(g.edges, u, v);
        EdgeReach(g.edges, n, u);
        ReachTrans(g.edges, n, u, v);
      }
    }
    if v != n && Reach(g.edges, n, v) {
      var p :| PathBetween(g.edges, p, n, v) && |p| >= 2;
      assert (p[0], p[1]) in g.edges;
      PathSlice(g.edges, p, 1, |p|);
      ClosureComplete(g.edges, g.Succs(n), p[1..]);
    }
  }

  lemma AncestorsReach(g: Digraph, u: Name, n: Name)
    requires g.Valid()
    ensures u in g.Ancestors(n) <==> u != n && Reach(g.edges, u, n)
  {
    DescendantsAreReached(g, u, n);
    if Reach(g.edges, u, n) {
      var w := ReachFirst(g.edges, u, n);
    }
  }
}
