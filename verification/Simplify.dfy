/** `tokenize_simplify`: duplicate members of a list of lists go, numbers being compared with
    a tolerance.  Tolerant equality is not transitive, so what is kept depends on the order. */
module Simplify {
  import opened Options
  import opened Pipeline

  /** What `float()` reads from a token. */
  datatype Number = NaN | Infinite(negative: bool) | Finite(value: real)

  /** How token texts read as numbers, and the two tolerances of `math.isclose`. */
  datatype Reading = Reading(number: string -> Option<Number>, relTol: real, absTol: real)

  function Abs(x: real): real { if x < 0.0 then -x else x }

  predicate Near(relTol: real, absTol: real, distance: real, x: real, y: real) {
    distance <= relTol * y || distance <= relTol * x || distance <= absTol
  }

  /** `math.isclose`, with two NaNs counted as close. */
  predicate Close(rd: Reading, a: Number, b: Number) {
    match (a, b)
    case (NaN, NaN) => true
    case (Infinite(s), Infinite(t)) => s == t
    case (Finite(x), Finite(y)) => x == y || Near(rd.relTol, rd.absTol, Abs(x - y), Abs(x), Abs(y))
    case _ => false
  }

  function NumberOf(rd: Reading, v: Value): Option<Number> {
    match v
    case Word(text) => rd.number(text)
    case Missing => Some(NaN)
    case List(_) => None
  }

  predicate DeepEq(rd: Reading, a: Value, b: Value)
    decreases a, 1
  {
    if a.List? && b.List? then DeepEqAll(rd, a.items, b.items)
    else
      var x, y := NumberOf(rd, a), NumberOf(rd, b);
      if x.Some? && y.Some? then Close(rd, x.value, y.value) else a == b
  }

  predicate DeepEqAll(rd: Reading, a: seq<Value>, b: seq<Value>)
    decreases a, 0
  {
    |a| == |b| && (a == [] || (DeepEq(rd, a[0], b[0]) && DeepEqAll(rd, a[1..], b[1..])))
  }

  predicate SeenBefore(rd: Reading, seen: seq<Value>, c: Value) {
    exists i :: 0 <= i < |seen| && DeepEq(rd, c, seen[i])
  }

  /** The members of `vs` that survive behind those in `seen`. */
  function Dedup(rd: Reading, seen: seq<Value>, vs: seq<Value>): seq<Value>
    decreases |vs|
  {
    if vs == [] then []
    else if SeenBefore(rd, seen, vs[0]) then Dedup(rd, seen, vs[1..])
    else [vs[0]] + Dedup(rd, seen + [vs[0]], vs[1..])
  }

  function Simplified(rd: Reading, v: Value): Value
    decreases v, 1
  {
    match v
    case List(items) =>
      var kids := SimplifiedAll(rd, items);
      List(if kids != [] && AllLists(kids) then Dedup(rd, [], kids) else kids)
    case _ => v
  }

  function SimplifiedAll(rd: Reading, vs: seq<Value>): seq<Value>
    decreases vs, 0
  {
    if vs == [] then [] else [Simplified(rd, vs[0])] + SimplifiedAll(rd, vs[1..])
  }

  /** The loop that drops duplicates. */
  method DropDuplicates(rd: Reading, children: seq<Value>) returns (out: seq<Value>)
    ensures out == Dedup(rd, [], children)
  {
    out := [];
    for i := 0 to |children|
      invariant out + Dedup(rd, out, children[i..]) == Dedup(rd, [], children)
    {
      var c := children[i];
      assert children[i..][0] == c && children[i..][1..] == children[i + 1..];
      var found, k := false, 0;
      while k < |out| && !found
        invariant 0 <= k <= |out|
        invariant found <==> SeenBefore(rd, out[..k], c)
        decreases |out| - k
      {
        found := DeepEq(rd, c, out[k]);
        assert out[..k + 1][k] == out[k];
        assert out[..k + 1] == out[..k] + [out[k]];
        k := k + 1;
      }
      assert found ==> SeenBefore(rd, out, c);
      assert !found ==> out[..k] == out;
      if !found {
        assert out + ([c] + Dedup(rd, out + [c], children[i + 1..])) == (out + [c]) + Dedup(rd, out + [c], children[i + 1..]);
        out := out + [c];
      }
    }
    assert children[|children|..] == [] && out + [] == out;
  }

  // ---------- What is kept ----------

  /** No member equals an earlier one. */
  ghost predicate AllDifferent(rd: Reading, vs: seq<Value>) {
    forall i, j :: 0 <= j < i < |vs| ==> !DeepEq(rd, vs[i], vs[j])
  }

  /** `a` is `b` with some members left out. */
  predicate Subsequence<T(==)>(a: seq<T>, b: seq<T>)
    decreases |b|
  {
    if a == [] then true
    else if b == [] then false
    else (a[0] == b[0] && Subsequence(a[1..], b[1..])) || Subsequence(a, b[1..])
  }

  lemma {:induction false} KeptDiffer(rd: Reading, seen: seq<Value>, vs: seq<Value>)
    requires AllDifferent(rd, seen)
    ensures AllDifferent(rd, seen + Dedup(rd, seen, vs))
    decreases |vs|
  {
    if vs == [] {
      assert seen + [] == seen;
    } else {
      var c := vs[0];
      if SeenBefore(rd, seen, c) {
        KeptDiffer(rd, seen, vs[1..]);
      } else {
        DifferentMore(rd, seen, c);
        KeptDiffer(rd, seen + [c], vs[1..]);
        assert seen + ([c] + Dedup(rd, seen + [c], vs[1..])) == (seen + [c]) + Dedup(rd, seen + [c], vs[1..]);
      }
    }
  }

  /** One more member, behind those in `before`: it is kept if it equals none of them and none in `seen`. */
  function KeptWith(rd: Reading, seen: seq<Value>, before: seq<Value>, c: Value): seq<Value> {
    if SeenBefore(rd, seen + before, c) then before else before + [c]
  }

  /** The last member is kept exactly if it equals none that is kept before it. */
  lemma {:induction false} LastDecided(rd: Reading, seen: seq<Value>, vs: seq<Value>, c: Value)
    ensures Dedup(rd, seen, vs + [c]) == KeptWith(rd, seen, Dedup(rd, seen, vs), c)
    decreases |vs|
  {
    if vs == [] {
      assert vs + [c] == [c] && [c][1..] == [] && seen + [] == seen && [] + [c] == [c];
    } else {
      var v, rest := vs[0], vs[1..];
      assert (vs + [c])[0] == v && (vs + [c])[1..] == rest + [c];
      if SeenBefore(rd, seen, v) {
        LastDecided(rd, seen, rest, c);
      } else {
        LastDecided(rd, seen + [v], rest, c);
        Shift(seen, v, Dedup(rd, seen + [v], rest));
        Grow(v, Dedup(rd, seen + [v], rest), c);
      }
    }
  }

  lemma Shift(a: seq<Value>, v: Value, b: seq<Value>)
    ensures a + [v] + b == a + ([v] + b)
  {
  }

  lemma Grow(v: Value, b: seq<Value>, c: Value)
    ensures [v] + (b + [c]) == [v] + b + [c]
  {
  }

  /** No two siblings that are kept are equal within the tolerance; and each member in turn is kept if it
      equals none that is kept before it, else it is dropped and all before it stay. */
  lemma DedupSplits(rd: Reading, seen: seq<Value>, vs: seq<Value>)
    requires AllDifferent(rd, seen)
    ensures AllDifferent(rd, seen + Dedup(rd, seen, vs))
    ensures forall i :: 0 <= i < |vs| ==> Dedup(rd, seen, vs[..i + 1]) == KeptWith(rd, seen, Dedup(rd, seen, vs[..i]), vs[i])
  {
    KeptDiffer(rd, seen, vs);
    forall i | 0 <= i < |vs| ensures Dedup(rd, seen, vs[..i + 1]) == KeptWith(rd, seen, Dedup(rd, seen, vs[..i]), vs[i]) {
      assert vs[..i + 1] == vs[..i] + [vs[i]];
      LastDecided(rd, seen, vs[..i], vs[i]);
    }
  }

  /** A dropped member equals one that is kept before it. */
  lemma DroppedEqualsEarlier(rd: Reading, vs: seq<Value>, i: nat)
    requires i < |vs| && Dedup(rd, [], vs[..i + 1]) != Dedup(rd, [], vs[..i]) + [vs[i]]
    ensures SeenBefore(rd, Dedup(rd, [], vs[..i]), vs[i])
  {
    DedupSplits(rd, [], vs);
    assert [] + Dedup(rd, [], vs[..i]) == Dedup(rd, [], vs[..i]);
  }

  lemma DifferentMore(rd: Reading, seen: seq<Value>, c: Value)
    requires AllDifferent(rd, seen) && !SeenBefore(rd, seen, c)
    ensures AllDifferent(rd, seen + [c])
  {
    var more := seen + [c];
    forall i, j | 0 <= j < i < |more| ensures !DeepEq(rd, more[i], more[j]) {
      assert more[j] == seen[j];
    }
  }

  lemma {:induction false} DedupSubsequence(rd: Reading, seen: seq<Value>, vs: seq<Value>)
    ensures Subsequence(Dedup(rd, seen, vs), vs)
    decreases |vs|
  {
    if vs != [] {
      if SeenBefore(rd, seen, vs[0]) {
        DedupSubsequence(rd, seen, vs[1..]);
      } else {
        DedupSubsequence(rd, seen + [vs[0]], vs[1..]);
        assert ([vs[0]] + Dedup(rd, seen + [vs[0]], vs[1..]))[1..] == Dedup(rd, seen + [vs[0]], vs[1..]);
      }
    }
  }

  // ---------- Idempotence ----------

  lemma {:induction false} DifferentStay(rd: Reading, seen: seq<Value>, vs: seq<Value>)
    requires AllDifferent(rd, seen + vs)
    ensures Dedup(rd, seen, vs) == vs
    decreases |vs|
  {
    if vs != [] {
      var all, c := seen + vs, vs[0];
      assert all[|seen|] == c;
      assert forall i :: 0 <= i < |seen| ==> all[i] == seen[i];
      assert !SeenBefore(rd, seen, c);
      assert (seen + [c]) + vs[1..] == all;
      DifferentStay(rd, seen + [c], vs[1..]);
    }
  }

  lemma {:induction false} DedupMembers(rd: Reading, seen: seq<Value>, vs: seq<Value>)
    ensures forall v :: v in Dedup(rd, seen, vs) ==> v in vs
    decreases |vs|
  {
    if vs != [] {
      DedupMembers(rd, if SeenBefore(rd, seen, vs[0]) then seen else seen + [vs[0]], vs[1..]);
    }
  }

  lemma {:induction false} FixedMembers(rd: Reading, vs: seq<Value>)
    requires forall v :: v in vs ==> Simplified(rd, v) == v
    ensures SimplifiedAll(rd, vs) == vs
    decreases vs, 0
  {
    if vs != [] {
      assert vs[0] in vs;
      FixedMembers(rd, vs[1..]);
      assert [vs[0]] + vs[1..] == vs;
    }
  }

  /** Simplifying a simplified tree changes nothing. */
  lemma {:induction false} SimplifyIdempotent(rd: Reading, v: Value)
    ensures Simplified(rd, Simplified(rd, v)) == Simplified(rd, v)
    decreases v, 1
  {
    if v.List? {
      var kids := SimplifiedAll(rd, v.items);
      SimplifiedMembersFixed(rd, v.items);
      if kids != [] && AllLists(kids) {
        var out := Dedup(rd, [], kids);
        DedupMembers(rd, [], kids);
        FixedMembers(rd, out);
        DedupSplits(rd, [], kids);
        assert [] + out == out;
        DifferentStay(rd, [], out);
      } else {
        FixedMembers(rd, kids);
      }
    }
  }

  lemma {:induction false} SimplifiedMembersFixed(rd: Reading, vs: seq<Value>)
    ensures forall v :: v in SimplifiedAll(rd, vs) ==> Simplified(rd, v) == v
    decreases vs, 0
  {
    if vs != [] {
      SimplifyIdempotent(rd, vs[0]);
      SimplifiedMembersFixed(rd, vs[1..]);
    }
  }

  // ---------- Tolerant equality ----------

  lemma {:induction false} DeepEqSymmetric(rd: Reading, a: Value, b: Value)
    ensures DeepEq(rd, a, b) == DeepEq(rd, b, a)
    decreases a, 1
  {
    if a.List? && b.List? { DeepEqAllSymmetric(rd, a.items, b.items); }
  }

  lemma {:induction false} DeepEqAllSymmetric(rd: Reading, a: seq<Value>, b: seq<Value>)
    ensures DeepEqAll(rd, a, b) == DeepEqAll(rd, b, a)
    decreases a, 0
  {
    if |a| == |b| && a != [] {
      DeepEqSymmetric(rd, a[0], b[0]);
      DeepEqAllSymmetric(rd, a[1..], b[1..]);
    }
  }

  /** It is not transitive, and so the order of the members decides how many are kept: of three
      numbers one tolerance apart, two stay if the middle one does not come first, else one. */
  lemma OrderDecides(rd: Reading, low: string, mid: string, high: string)
    requires rd.absTol > 0.0 && 0.0 <= rd.relTol < 1.0
    requires rd.number(low) == Some(Finite(0.0)) && rd.number(mid) == Some(Finite(rd.absTol))
    requires rd.number(high) == Some(Finite(rd.absTol + rd.absTol))
    ensures var l, m, h := List([Word(low)]), List([Word(mid)]), List([Word(high)]);
      && Dedup(rd, [], [l, m, h]) == [l, h]
      && Dedup(rd, [], [m, l, h]) == [m]
  {
    var l, m, h := List([Word(low)]), List([Word(mid)]), List([Word(high)]);
    OneWord(rd, low, mid);
    OneWord(rd, mid, low);
    OneWord(rd, high, low);
    OneWord(rd, high, mid);
    FarFromZero(rd, rd.absTol + rd.absTol);
    OneToleranceApart(rd);
    assert DeepEq(rd, m, l) && DeepEq(rd, l, m) && DeepEq(rd, h, m) && !DeepEq(rd, h, l);
    DedupThree(rd, l, m, h);
    DedupThree(rd, m, l, h);
  }

  lemma FarFromZero(rd: Reading, x: real)
    requires 0.0 <= rd.relTol < 1.0 && x > rd.absTol > 0.0
    ensures !Close(rd, Finite(x), Finite(0.0))
  {
    Scaled(rd.relTol, x);
    assert !Near(rd.relTol, rd.absTol, x, x, 0.0);
    assert Abs(x - 0.0) == x && Abs(x) == x && Abs(0.0) == 0.0;
  }

  lemma Scaled(r: real, x: real)
    requires 0.0 <= r < 1.0 && x > 0.0
    ensures r * x < x && r * 0.0 == 0.0
  {
  }

  lemma OneToleranceApart(rd: Reading)
    requires rd.absTol > 0.0
    ensures var t := rd.absTol;
      Close(rd, Finite(t), Finite(0.0)) && Close(rd, Finite(0.0), Finite(t)) && Close(rd, Finite(t + t), Finite(t))
  {
  }

  lemma OneWord(rd: Reading, a: string, b: string)
    ensures DeepEq(rd, List([Word(a)]), List([Word(b)])) == DeepEq(rd, Word(a), Word(b))
  {
    var x, y := [Word(a)], [Word(b)];
    assert x[1..] == [] && y[1..] == [];
    assert DeepEqAll(rd, x, y) == (DeepEq(rd, x[0], y[0]) && DeepEqAll(rd, x[1..], y[1..]));
    assert DeepEq(rd, List(x), List(y)) == DeepEqAll(rd, x, y);
  }

  lemma DedupThree(rd: Reading, x: Value, y: Value, z: Value)
    requires DeepEq(rd, y, x)
    ensures Dedup(rd, [], [x, y, z]) == if DeepEq(rd, z, x) then [x] else [x, z]
  {
    var none, one := [], [x];
    assert !SeenBefore(rd, none, x) && none + [x] == one;
    DedupStep(rd, none, x, [y, z]);
    assert [x] + [y, z] == [x, y, z];
    assert SeenBefore(rd, one, y) by { assert one[0] == x; }
    DedupStep(rd, one, y, [z]);
    assert SeenBefore(rd, one, z) == DeepEq(rd, z, x) by { assert one[0] == x; }
    DedupStep(rd, one, z, []);
    assert [x] + ([y] + [z]) == [x, y, z] && [y] + [z] == [y, z] && [z] + [] == [z];
  }

  lemma DedupStep(rd: Reading, seen: seq<Value>, c: Value, vs: seq<Value>)
    ensures Dedup(rd, seen, [c] + vs) ==
      if SeenBefore(rd, seen, c) then Dedup(rd, seen, vs) else [c] + Dedup(rd, seen + [c], vs)
  {
    assert ([c] + vs)[1..] == vs;
  }
}
