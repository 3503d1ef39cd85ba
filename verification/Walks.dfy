/** Two walks over dependencies: the path-guarded recursion `fbd` over the token table, and
    the traversal that stops at group nodes. */
module Walks {
  import opened Options
  import opened Graphs

  // ---------- The path-guarded recursion ----------

  /** The nested lists that `_fbd` builds and `flatten` takes apart. */
  datatype Nest = One(name: Name) | Many(items: seq<Nest>)

  function Flatten(n: Nest): seq<Name> {
    match n
    case One(name) => [name]
    case Many(items) => FlattenAll(items)
  }

  function FlattenAll(ns: seq<Nest>): seq<Name> {
    if ns == [] then [] else Flatten(ns[0]) + FlattenAll(ns[1..])
  }

  lemma {:induction false} FlattenAppend(ns: seq<Nest>, n: Nest)
    ensures FlattenAll(ns + [n]) == FlattenAll(ns) + Flatten(n)
  {
    if ns == [] {
      assert [n][1..] == [];
    } else {
      assert (ns + [n])[1..] == ns[1..] + [n];
      FlattenAppend(ns[1..], n);
    }
  }

  lemma {:induction false} FlattenNames(names: seq<Name>)
    ensures FlattenAll(seq(|names|, i requires 0 <= i < |names| => One(names[i]))) == names
  {
    var ns := seq(|names|, i requires 0 <= i < |names| => One(names[i]));
    if names != [] {
      var rest := names[1..];
      FlattenNames(rest);
      assert ns[1..] == seq(|rest|, i requires 0 <= i < |rest| => One(rest[i]));
      assert [names[0]] + rest == names;
    }
  }

  /** The token table, and what the helper for regular polygons says of an object of the table: more names,
      or `None` if it fails, in which case the recursion gives up this object. */
  datatype TokenTable = TokenTable(ft: map<Name, seq<Name>>, polygon: Name -> Option<seq<Name>>) {
    predicate Expands(k: Name) {
      k in ft && polygon(k).Some?
    }

    /** A row refers to another row whose name is among its tokens. */
    ghost function References(): set<Edge> {
      set k, e | k in ft && Expands(k) && e in ft[k] && e in ft :: (k, e)
    }

    ghost function Helped(): set<Edge> {
      set k, e | k in ft && Expands(k) && e in polygon(k).value :: (k, e)
    }
  }

  lemma ReferencesMember(table: TokenTable, k: Name, e: Name)
    ensures table.Expands(k) <==> k in table.ft && table.polygon(k) != None
    ensures (k, e) in table.References() <==> table.Expands(k) && e in table.ft[k] && e in table.ft
    ensures (k, e) in table.Helped() <==> table.Expands(k) && e in table.polygon(k).value
  {
  }

  /** A walk that the recursion takes: all its nodes but the last are distinct and unseen, and only the last step
      may be one of the helper's, which are in `H`. */
  ghost predicate GuardedWalk(E: set<Edge>, H: set<Edge>, seen: set<Name>, p: seq<Name>, v: Name) {
    && IsPath(E, p) && Distinct(p) && (p[|p| - 1], v) in E + H
    && forall i :: 0 <= i < |p| ==> p[i] !in seen
  }

  ghost predicate Guarded(E: set<Edge>, H: set<Edge>, seen: set<Name>, k: Name, v: Name) {
    exists p :: GuardedWalk(E, H, seen, p, v) && p[0] == k
  }

  lemma GuardedFirst(E: set<Edge>, H: set<Edge>, seen: set<Name>, k: Name, v: Name) returns (e: Name)
    requires Guarded(E, H, seen, k, v)
    ensures k !in seen
    ensures (e == v && (k, v) in E + H) || ((k, e) in E && Guarded(E, H, seen + {k}, e, v))
  {
    var p :| GuardedWalk(E, H, seen, p, v) && p[0] == k;
    if |p| == 1 {
      e := v;
    } else {
      e := p[1];
      assert (p[0], p[1]) in E;
      GuardedRest(E, H, seen, p, v);
    }
  }

  lemma GuardedRest(E: set<Edge>, H: set<Edge>, seen: set<Name>, p: seq<Name>, v: Name)
    requires GuardedWalk(E, H, seen, p, v) && |p| > 1
    ensures GuardedWalk(E, H, seen + {p[0]}, p[1..], v)
  {
    var q := p[1..];
    PathSlice(E, p, 1, |p|);
    assert q == p[1..|p|];
    forall i | 0 <= i < |q| ensures q[i] !in seen + {p[0]} {
      assert q[i] == p[i + 1] && p[0] != p[i + 1];
    }
  }

  lemma GuardedEdge(E: set<Edge>, H: set<Edge>, seen: set<Name>, k: Name, e: Name)
    requires k !in seen && (k, e) in E + H
    ensures Guarded(E, H, seen, k, e)
  {
    assert GuardedWalk(E, H, seen, [k], e);
  }

  lemma GuardedMore(E: set<Edge>, H: set<Edge>, seen: set<Name>, k: Name, e: Name, v: Name)
    requires k !in seen && (k, e) in E && Guarded(E, H, seen + {k}, e, v)
    ensures Guarded(E, H, seen, k, v)
  {
    var q :| GuardedWalk(E, H, seen + {k}, q, v) && q[0] == e;
    GuardedLonger(E, H, seen, k, q, v);
  }

  lemma GuardedLonger(E: set<Edge>, H: set<Edge>, seen: set<Name>, k: Name, q: seq<Name>, v: Name)
    requires GuardedWalk(E, H, seen + {k}, q, v) && k !in seen && (k, q[0]) in E
    ensures GuardedWalk(E, H, seen, [k] + q, v)
  {
    var p := [k] + q;
    forall i | 0 < i < |p| ensures (p[i - 1], p[i]) in E {
      assert i > 1 ==> (q[i - 2], q[i - 1]) in E;
    }
    forall i | 0 <= i < |q| ensures q[i] !in seen && q[i] != k {
      assert q[i] !in seen + {k};
    }
  }

  /** Cutting the loops out of a walk leaves one that the recursion takes. */
  lemma LoopsCanBeCut(E: set<Edge>, H: set<Edge>, k: Name, w: Name, v: Name)
    requires (w == k || Reach(E, k, w)) && (w, v) in E + H
    ensures Guarded(E, H, {}, k, v)
  {
    if w == k {
      GuardedEdge(E, H, {}, k, v);
    } else {
      var p :| PathBetween(E, p, k, w) && |p| >= 2;
      var q := PathsCanBeSimple(E, p, k, w);
      assert GuardedWalk(E, H, {}, q, v);
    }
  }

  /** The set of names on the current path, shared by all calls of the recursion. */
  class Seen {
    var names: set<Name>

    constructor ()
      ensures names == {}
    {
      names := {};
    }
  }

  method FbdRec(table: TokenTable, k: Name, seen: Seen) returns (results: seq<Nest>)
    modifies seen
    ensures seen.names == old(seen.names)
    ensures forall v :: v in FlattenAll(results) <==> Guarded(table.References(), table.Helped(), old(seen.names), k, v)
    decreases table.ft.Keys - seen.names
  {
    ghost var before := seen.names;
    if k in seen.names {
      NothingFrom(table, before, k);
      return [];
    }
    seen.names := seen.names + {k};
    results := [];
    if k in table.ft {
      for i := 0 to |table.ft[k]|
        invariant seen.names == before + {k}
        invariant forall v :: v in FlattenAll(results) <==>
          exists j :: 0 <= j < i && Via(table, before + {k}, table.ft[k][j], v)
      {
        var e := table.ft[k][i];
        if e in table.ft {
          var sub := FbdRec(table, e, seen);
          FlattenAppend(results, Many([One(e), Many(sub)]));
          FlattenPair(e, sub);
          results := results + [Many([One(e), Many(sub)])];
        }
      }
      var more := table.polygon(k);
      if more.Some? {
        var names := more.value;
        var vertices := seq(|names|, i requires 0 <= i < |names| => One(names[i]));
        FlattenNames(names);
        FlattenAppend(results, Many(vertices));
        results := results + [Many(vertices)];
        ViaAll(table, before, k);
      } else {
        NothingFrom(table, before, k);
        results := [];
      }
    } else {
      NothingFrom(table, before, k);
    }
    seen.names := seen.names - {k};
  }

  lemma NothingFrom(table: TokenTable, seen: set<Name>, k: Name)
    requires k in seen || !table.Expands(k)
    ensures forall v :: !Guarded(table.References(), table.Helped(), seen, k, v)
  {
    forall v ensures !Guarded(table.References(), table.Helped(), seen, k, v) {
      if Guarded(table.References(), table.Helped(), seen, k, v) {
        var e := GuardedFirst(table.References(), table.Helped(), seen, k, v);
        ReferencesMember(table, k, e);
      }
    }
  }

  lemma FlattenPair(e: Name, sub: seq<Nest>)
    ensures Flatten(Many([One(e), Many(sub)])) == [e] + FlattenAll(sub)
  {
    var items := [One(e), Many(sub)];
    assert items[1..] == [Many(sub)] && items[1..][1..] == [];
    assert FlattenAll([Many(sub)]) == Flatten(Many(sub)) + FlattenAll([]);
    assert Flatten(Many(items)) == Flatten(items[0]) + FlattenAll(items[1..]);
  }

  ghost predicate Via(table: TokenTable, seen: set<Name>, e: Name, v: Name) {
    e in table.ft && (v == e || Guarded(table.References(), table.Helped(), seen, e, v))
  }

  lemma ViaIsGuarded(table: TokenTable, seen: set<Name>, k: Name, e: Name, v: Name)
    requires k !in seen && table.Expands(k) && e in table.ft[k] && Via(table, seen + {k}, e, v)
    ensures Guarded(table.References(), table.Helped(), seen, k, v)
  {
    ReferencesMember(table, k, e);
    if v == e {
      GuardedEdge(table.References(), table.Helped(), seen, k, e);
    } else {
      GuardedMore(table.References(), table.Helped(), seen, k, e, v);
    }
  }

  lemma GuardedIsVia(table: TokenTable, seen: set<Name>, k: Name, v: Name)
    requires k !in seen && table.Expands(k) && Guarded(table.References(), table.Helped(), seen, k, v)
    ensures v in table.polygon(k).value || exists j :: 0 <= j < |table.ft[k]| && Via(table, seen + {k}, table.ft[k][j], v)
  {
    var e := GuardedFirst(table.References(), table.Helped(), seen, k, v);
    ReferencesMember(table, k, e);
    if e in table.ft[k] && e in table.ft {
      var j :| 0 <= j < |table.ft[k]| && table.ft[k][j] == e;
      assert v in table.polygon(k).value || Via(table, seen + {k}, table.ft[k][j], v);
    }
  }

  lemma ViaAll(table: TokenTable, seen: set<Name>, k: Name)
    requires k !in seen && table.Expands(k)
    ensures forall v ::
      (v in table.polygon(k).value || exists j :: 0 <= j < |table.ft[k]| && Via(table, seen + {k}, table.ft[k][j], v)) <==>
      Guarded(table.References(), table.Helped(), seen, k, v)
  {
    forall v
      ensures (v in table.polygon(k).value || exists j :: 0 <= j < |table.ft[k]| && Via(table, seen + {k}, table.ft[k][j], v)) <==>
        Guarded(table.References(), table.Helped(), seen, k, v)
    {
      if Guarded(table.References(), table.Helped(), seen, k, v) {
        GuardedIsVia(table, seen, k, v);
      }
      if v in table.polygon(k).value {
        ReferencesMember(table, k, v);
        GuardedEdge(table.References(), table.Helped(), seen, k, v);
      }
      if j :| 0 <= j < |table.ft[k]| && Via(table, seen + {k}, table.ft[k][j], v) {
        ViaIsGuarded(table, seen, k, table.ft[k][j], v);
      }
    }
  }

  /** What is reached from `k` in one or more steps, the helper's steps counting only as last ones. */
  ghost predicate Depends(E: set<Edge>, H: set<Edge>, k: Name, v: Name) {
    Reach(E, k, v) || exists w :: (w == k || Reach(E, k, w)) && (w, v) in H
  }

  /** The guard on the current path ends the recursion on cyclic tables and loses nothing: the result is
      everything `k` refers to in one or more steps and what the helper says of these objects
      and of `k`, without `k` itself. */
  method Fbd(table: TokenTable, k: Name) returns (r: set<Name>)
    ensures forall v :: v in r <==> v != k && Depends(table.References(), table.Helped(), k, v)
  {
    var seen := new Seen();
    var results := FbdRec(table, k, seen);
    r := (set v | v in FlattenAll(results)) - {k};
    GuardLosesNothing(table.References(), table.Helped(), k);
  }

  lemma GuardLosesNothing(E: set<Edge>, H: set<Edge>, k: Name)
    ensures forall v :: Guarded(E, H, {}, k, v) <==> Depends(E, H, k, v)
  {
    forall v ensures Guarded(E, H, {}, k, v) <==> Depends(E, H, k, v) {
      if Depends(E, H, k, v) {
        if Reach(E, k, v) {
          var w := ReachLast(E, k, v);
          LoopsCanBeCut(E, H, k, w, v);
        } else {
          var w :| (w == k || Reach(E, k, w)) && (w, v) in H;
          LoopsCanBeCut(E, H, k, w, v);
        }
      }
      if Guarded(E, H, {}, k, v) {
        GuardedDepends(E, H, k, v);
      }
    }
  }

  lemma GuardedDepends(E: set<Edge>, H: set<Edge>, k: Name, v: Name)
    requires Guarded(E, H, {}, k, v)
    ensures Depends(E, H, k, v)
  {
    var p :| GuardedWalk(E, H, {}, p, v) && p[0] == k;
    var w := p[|p| - 1];
    if |p| > 1 {
      assert PathBetween(E, p, k, w);
    }
    if (w, v) in E {
      EdgeReach(E, w, v);
      if w != k {
        ReachTrans(E, k, w, v);
      }
    }
  }

  // ---------- The traversal that stops at groups ----------

  /** A path none of whose inner nodes is a group. */
  ghost predicate OpenPath(E: set<Edge>, groups: set<Name>, p: seq<Name>, u: Name, v: Name) {
    && PathBetween(E, p, u, v) && |p| >= 2
    && forall i :: 0 < i < |p| - 1 ==> p[i] !in groups
  }

  ghost predicate Visible(E: set<Edge>, groups: set<Name>, u: Name, v: Name) {
    exists p :: OpenPath(E, groups, p, u, v)
  }

  lemma VisibleFromNode(g: Digraph, groups: set<Name>, u: Name, v: Name)
    requires g.Valid() && Visible(g.edges, groups, u, v)
    ensures u in g.nodes
  {
    var p :| OpenPath(g.edges, groups, p, u, v);
    assert (p[0], p[1]) in g.edges;
  }

  lemma VisibleEdge(E: set<Edge>, groups: set<Name>, u: Name, v: Name)
    requires (u, v) in E
    ensures Visible(E, groups, u, v)
  {
    assert OpenPath(E, groups, [u, v], u, v);
  }

  lemma VisibleMore(E: set<Edge>, groups: set<Name>, u: Name, v: Name, w: Name)
    requires Visible(E, groups, u, v) && v !in groups && (v, w) in E
    ensures Visible(E, groups, u, w)
  {
    var p :| OpenPath(E, groups, p, u, v);
    var q := p + [w];
    forall i | 0 < i < |q| ensures (q[i - 1], q[i]) in E {
      if i < |p| { assert (p[i - 1], p[i]) in E; }
    }
    assert OpenPath(E, groups, q, u, w);
  }

  /** The traversal goes on from the source and from visited nodes that are no groups. */
  ghost predicate GoesOn(source: Name, visited: set<Name>, groups: set<Name>, n: Name) {
    n == source || (n in visited && n !in groups)
  }

  /** Every node the traversal goes on from has been expanded or still is on the stack. */
  ghost predicate Expanded(E: set<Edge>, groups: set<Name>, source: Name, visited: set<Name>, stack: seq<Name>) {
    && (forall n :: n in stack ==> GoesOn(source, visited, groups, n))
    && forall n, s :: GoesOn(source, visited, groups, n) && n !in stack && (n, s) in E ==> s in visited
  }

  lemma ExpandedStep(g: Digraph, groups: set<Name>, source: Name, before: set<Name>, stackBefore: seq<Name>, n: Name,
                     visited: set<Name>, stack: seq<Name>)
    requires Expanded(g.edges, groups, source, before, stackBefore + [n])
    requires visited == before + g.Succs(n)
    requires forall m :: m in stack <==> m in stackBefore || (m in visited - before && m !in groups)
    ensures Expanded(g.edges, groups, source, visited, stack)
  {
    forall m | m in stack ensures GoesOn(source, visited, groups, m) {
      if m in stackBefore { assert m in stackBefore + [n]; }
    }
    forall m, s | GoesOn(source, visited, groups, m) && m !in stack && (m, s) in g.edges ensures s in visited {
      assert GoesOn(source, before, groups, m);
      if m != n { assert m !in stackBefore + [n]; }
    }
  }

  lemma {:induction false} VisibleIsVisited(E: set<Edge>, groups: set<Name>, source: Name, visited: set<Name>, p: seq<Name>, v: Name)
    requires OpenPath(E, groups, p, source, v)
    requires forall n, s :: GoesOn(source, visited, groups, n) && (n, s) in E ==> s in visited
    ensures v in visited
    decreases |p|
  {
    var n := |p| - 1;
    assert (p[n - 1], p[n]) in E;
    if n == 1 {
      assert GoesOn(source, visited, groups, source);
    } else {
      PathSlice(E, p, 0, n);
      assert OpenPath(E, groups, p[..n], source, p[n - 1]);
      VisibleIsVisited(E, groups, source, visited, p[..n], p[n - 1]);
      assert GoesOn(source, visited, groups, p[n - 1]);
    }
  }

  method VisibleDescendants(g: Digraph, groups: set<Name>, source: Name) returns (visited: set<Name>)
    requires g.Valid()
    ensures forall v :: v in visited <==> Visible(g.edges, groups, source, v)
  {
    visited := {};
    if source !in g.nodes {
      forall v ensures !Visible(g.edges, groups, source, v) {
        if Visible(g.edges, groups, source, v) { VisibleFromNode(g, groups, source, v); }
      }
      return;
    }
    var stack := [source];
    while stack != []
      invariant visited <= g.nodes
      invariant forall v :: v in visited ==> Visible(g.edges, groups, source, v)
      invariant Expanded(g.edges, groups, source, visited, stack)
      decreases g.nodes - visited, |stack|
    {
      var n := stack[|stack| - 1];
      var rest := stack[..|stack| - 1];
      assert stack == rest + [n];
      ghost var before := visited;
      visited, stack := VisitSuccessors(g, groups, source, n, visited, rest);
      ExpandedStep(g, groups, source, before, rest, n, visited, stack);
    }
    forall v | Visible(g.edges, groups, source, v) ensures v in visited {
      var p :| OpenPath(g.edges, groups, p, source, v);
      VisibleIsVisited(g.edges, groups, source, visited, p, v);
    }
  }

  /** The inner loop: what popping `n` adds. */
  method VisitSuccessors(g: Digraph, groups: set<Name>, ghost source: Name, n: Name, before: set<Name>, stackBefore: seq<Name>)
    returns (visited: set<Name>, stack: seq<Name>)
    requires g.Valid() && before <= g.nodes
    requires GoesOn(source, before, groups, n)
    requires forall v :: v in before ==> Visible(g.edges, groups, source, v)
    ensures visited == before + g.Succs(n) && visited <= g.nodes
    ensures forall v :: v in visited ==> Visible(g.edges, groups, source, v)
    ensures forall m :: m in stack <==> m in stackBefore || (m in visited - before && m !in groups)
    ensures visited == before ==> stack == stackBefore
  {
    visited, stack := before, stackBefore;
    var succs := g.Succs(n);
    while succs != {}
      invariant succs <= g.Succs(n)
      invariant visited == before + (g.Succs(n) - succs) && visited <= g.nodes
      invariant forall v :: v in visited ==> Visible(g.edges, groups, source, v)
      invariant forall m :: m in stack <==> m in stackBefore || (m in visited - before && m !in groups)
      invariant visited == before ==> stack == stackBefore
    {
      var s :| s in succs;
      succs := succs - {s};
      if s !in visited {
        if n == source && n !in before { VisibleEdge(g.edges, groups, n, s); }
        else if n in groups { VisibleEdge(g.edges, groups, n, s); }
        else { VisibleMore(g.edges, groups, source, n, s); }
        visited := visited + {s};
        if s !in groups {
          stack := stack + [s];
        }
      }
    }
  }
}
