/** What tolerant equality means, and what simplified values look like. */
module SimplifyShape {
  import opened Options
  import opened Pipeline
  import opened Simplify

  // ---------- Tolerant equality ----------

  /** The atoms of a value, from left to right. */
  function Atoms(v: Value): seq<Value>
    decreases v, 1
  {
    if v.List? then AtomsOf(v.items) else [v]
  }

  function AtomsOf(vs: seq<Value>): seq<Value>
    decreases vs, 0
  {
    if vs == [] then [] else Atoms(vs[0]) + AtomsOf(vs[1..])
  }

  /** The lists of a value, with its atoms forgotten. */
  function Shape(v: Value): Value
    decreases v, 1
  {
    if v.List? then List(ShapesOf(v.items)) else Missing
  }

  function ShapesOf(vs: seq<Value>): seq<Value>
    decreases vs, 0
  {
    if vs == [] then [] else [Shape(vs[0])] + ShapesOf(vs[1..])
  }

  /** Two atoms are the same if both read as numbers and these are close, or if they do not both read as numbers and
      are equal. */
  predicate SameAtom(rd: Reading, a: Value, b: Value) {
    var x, y := NumberOf(rd, a), NumberOf(rd, b);
    (x.Some? && y.Some? && Close(rd, x.value, y.value)) || ((x.None? || y.None?) && a == b)
  }

  predicate SameAtoms(rd: Reading, as': seq<Value>, bs: seq<Value>) {
    |as'| == |bs| && forall i :: 0 <= i < |as'| ==> SameAtom(rd, as'[i], bs[i])
  }

  lemma {:induction false} ShapeSizes(a: Value, b: Value)
    requires Shape(a) == Shape(b)
    ensures |Atoms(a)| == |Atoms(b)|
    decreases a, 1
  {
    if a.List? { ShapesSizes(a.items, b.items); }
  }

  lemma ShapesCons(vs: seq<Value>)
    requires vs != []
    ensures ShapesOf(vs) != [] && ShapesOf(vs)[0] == Shape(vs[0]) && ShapesOf(vs)[1..] == ShapesOf(vs[1..])
  {
  }

  lemma {:induction false} ShapesSizes(a: seq<Value>, b: seq<Value>)
    requires ShapesOf(a) == ShapesOf(b)
    ensures |AtomsOf(a)| == |AtomsOf(b)|
    decreases a, 0
  {
    if a != [] {
      ShapesCons(a);
      assert b != [];
      ShapesCons(b);
      ShapeSizes(a[0], b[0]);
      ShapesSizes(a[1..], b[1..]);
    }
  }

  lemma AtomsJoin(rd: Reading, a: seq<Value>, b: seq<Value>, c: seq<Value>, d: seq<Value>)
    requires |a| == |b|
    ensures SameAtoms(rd, a + c, b + d) <==> SameAtoms(rd, a, b) && SameAtoms(rd, c, d)
  {
    if SameAtoms(rd, a + c, b + d) {
      assert forall i :: 0 <= i < |a| ==> (a + c)[i] == a[i] && (b + d)[i] == b[i];
      assert forall i :: 0 <= i < |c| ==> (a + c)[|a| + i] == c[i] && (b + d)[|b| + i] == d[i];
    }
  }

  /** Values are equal within the tolerance exactly if they have the same shape and, in turn, the same atoms. */
  lemma {:induction false} EqualExactly(rd: Reading, a: Value, b: Value)
    ensures DeepEq(rd, a, b) <==> Shape(a) == Shape(b) && SameAtoms(rd, Atoms(a), Atoms(b))
    decreases a, 1
  {
    if a.List? && b.List? {
      AllEqualExactly(rd, a.items, b.items);
    } else if !a.List? && !b.List? {
      assert SameAtoms(rd, [a], [b]) <==> SameAtom(rd, a, b) by { assert [a][0] == a && [b][0] == b; }
    }
  }

  lemma {:induction false} AllEqualExactly(rd: Reading, a: seq<Value>, b: seq<Value>)
    ensures DeepEqAll(rd, a, b) <==> ShapesOf(a) == ShapesOf(b) && SameAtoms(rd, AtomsOf(a), AtomsOf(b))
    decreases a, 0
  {
    if a != [] && b != [] {
      EqualExactly(rd, a[0], b[0]);
      AllEqualExactly(rd, a[1..], b[1..]);
      ShapesCons(a);
      ShapesCons(b);
      SizesOfShapes(a);
      SizesOfShapes(b);
      assert ShapesOf(a) == ShapesOf(b) <==> Shape(a[0]) == Shape(b[0]) && ShapesOf(a[1..]) == ShapesOf(b[1..]) by {
        assert ShapesOf(a) == [Shape(a[0])] + ShapesOf(a[1..]) && ShapesOf(b) == [Shape(b[0])] + ShapesOf(b[1..]);
      }
      if Shape(a[0]) == Shape(b[0]) {
        ShapeSizes(a[0], b[0]);
        AtomsJoin(rd, Atoms(a[0]), Atoms(b[0]), AtomsOf(a[1..]), AtomsOf(b[1..]));
      }
    } else {
      SizesOfShapes(a);
      SizesOfShapes(b);
    }
  }

  lemma {:induction false} SizesOfShapes(vs: seq<Value>)
    ensures |ShapesOf(vs)| == |vs|
  {
    if vs != [] { SizesOfShapes(vs[1..]); }
  }

  function Max(x: real, y: real): real { if x < y then y else x }

  lemma ScaledMax(r: real, x: real, y: real)
    requires r >= 0.0
    ensures r * Max(x, y) == Max(r * x, r * y)
  {
    if x < y {
      Larger(r, x, y);
    } else {
      Larger(r, y, x);
    }
  }

  lemma Larger(r: real, x: real, y: real)
    requires r >= 0.0 && x <= y
    ensures r * x <= r * y
  {
    assert r * (y - x) >= 0.0;
  }

  lemma NearExactly(r: real, a: real, distance: real, x: real, y: real)
    requires r >= 0.0
    ensures Near(r, a, distance, x, y) <==> distance <= Max(r * Max(x, y), a)
  {
    ScaledMax(r, x, y);
  }

  /** At most the relative tolerance of the larger number apart, or the absolute tolerance. */
  predicate Within(relTol: real, absTol: real, x: real, y: real) {
    Abs(x - y) <= Max(relTol * Max(Abs(x), Abs(y)), absTol)
  }

  lemma FiniteClose(rd: Reading, x: real, y: real)
    requires rd.relTol >= 0.0 && rd.absTol >= 0.0
    ensures Close(rd, Finite(x), Finite(y)) <==> Within(rd.relTol, rd.absTol, x, y)
  {
    NearExactly(rd.relTol, rd.absTol, Abs(x - y), Abs(x), Abs(y));
    assert x == y ==> Abs(x - y) == 0.0;
  }

  lemma OthersClose(rd: Reading, a: Number, b: Number)
    requires !a.Finite? || !b.Finite?
    ensures Close(rd, a, b) <==> a == b
  {
  }

  /** Two finite numbers are close exactly if they are within the tolerances of one another, others only if they are the same. */
  lemma CloseExactly(rd: Reading, a: Number, b: Number)
    requires rd.relTol >= 0.0 && rd.absTol >= 0.0
    ensures a.Finite? && b.Finite? ==> (Close(rd, a, b) <==> Within(rd.relTol, rd.absTol, a.value, b.value))
    ensures !a.Finite? || !b.Finite? ==> (Close(rd, a, b) <==> a == b)
  {
    if a.Finite? && b.Finite? {
      FiniteClose(rd, a.value, b.value);
    } else {
      OthersClose(rd, a, b);
    }
  }

  // ---------- Simplified values ----------

  /** At no depth does a list of lists hold two equal members. */
  ghost predicate NoDuplicates(rd: Reading, v: Value)
    decreases v, 1
  {
    v.List? ==> NoneDuplicates(rd, v.items) && (v.items != [] && AllLists(v.items) ==> AllDifferent(rd, v.items))
  }

  ghost predicate NoneDuplicates(rd: Reading, vs: seq<Value>)
    decreases vs, 0
  {
    vs == [] || (NoDuplicates(rd, vs[0]) && NoneDuplicates(rd, vs[1..]))
  }

  lemma {:induction false} KidsKeepKind(rd: Reading, vs: seq<Value>)
    ensures |SimplifiedAll(rd, vs)| == |vs| && (AllLists(SimplifiedAll(rd, vs)) <==> AllLists(vs))
    decreases vs, 0
  {
    if vs != [] {
      var kids, rest := SimplifiedAll(rd, vs), SimplifiedAll(rd, vs[1..]);
      KidsKeepKind(rd, vs[1..]);
      assert kids == [Simplified(rd, vs[0])] + rest && (Simplified(rd, vs[0]).List? <==> vs[0].List?);
      ListsCons(kids);
      ListsCons(vs);
      assert kids[1..] == rest;
    }
  }

  lemma ListsCons(vs: seq<Value>)
    requires vs != []
    ensures AllLists(vs) <==> vs[0].List? && AllLists(vs[1..])
  {
    if vs[0].List? && AllLists(vs[1..]) {
      forall i | 0 <= i < |vs| ensures vs[i].List? { assert i > 0 ==> vs[i] == vs[1..][i - 1]; }
    }
  }

  lemma {:induction false} SameSizeSame<T>(a: seq<T>, b: seq<T>)
    requires Subsequence(a, b)
    ensures |a| <= |b| && (|a| == |b| ==> a == b)
    decreases |b|
  {
    if a != [] {
      if a[0] == b[0] && Subsequence(a[1..], b[1..]) {
        SameSizeSame(a[1..], b[1..]);
        assert a == [a[0]] + a[1..] && b == [b[0]] + b[1..];
      } else {
        SameSizeSame(a, b[1..]);
      }
    }
  }

  lemma DedupFixed(rd: Reading, kids: seq<Value>)
    ensures |Dedup(rd, [], kids)| <= |kids|
    ensures |Dedup(rd, [], kids)| == |kids| ==> Dedup(rd, [], kids) == kids
    ensures Dedup(rd, [], kids) == kids <==> AllDifferent(rd, kids)
  {
    DedupSubsequence(rd, [], kids);
    SameSizeSame(Dedup(rd, [], kids), kids);
    KeptDiffer(rd, [], kids);
    assert [] + Dedup(rd, [], kids) == Dedup(rd, [], kids) && [] + kids == kids;
    if AllDifferent(rd, kids) {
      DifferentStay(rd, [], kids);
    }
  }

  /** Simplifying leaves exactly those values alone in which, at every depth, no list of lists holds two equal members. */
  lemma {:induction false} SimplifiedExactly(rd: Reading, v: Value)
    ensures Simplified(rd, v) == v <==> NoDuplicates(rd, v)
    decreases v, 1
  {
    if v.List? {
      var kids := SimplifiedAll(rd, v.items);
      KidsKeepKind(rd, v.items);
      AllSimplifiedExactly(rd, v.items);
      DedupFixed(rd, kids);
    }
  }

  lemma {:induction false} AllSimplifiedExactly(rd: Reading, vs: seq<Value>)
    ensures SimplifiedAll(rd, vs) == vs <==> NoneDuplicates(rd, vs)
    decreases vs, 0
  {
    if vs != [] {
      var v, rest := Simplified(rd, vs[0]), SimplifiedAll(rd, vs[1..]);
      SimplifiedExactly(rd, vs[0]);
      AllSimplifiedExactly(rd, vs[1..]);
      assert [v] + rest == vs <==> v == vs[0] && rest == vs[1..] by {
        assert ([v] + rest)[0] == v && ([v] + rest)[1..] == rest;
        assert [vs[0]] + vs[1..] == vs;
      }
    }
  }

  /** So no duplicates are left, at any depth. */
  lemma SimplifiedHasNoDuplicates(rd: Reading, v: Value)
    ensures NoDuplicates(rd, Simplified(rd, v))
  {
    SimplifyIdempotent(rd, v);
    SimplifiedExactly(rd, Simplified(rd, v));
  }

  // ---------- What simplifying keeps ----------

  lemma {:induction false} SubsequenceOfLonger<T>(a: seq<T>, before: seq<T>, b: seq<T>)
    requires Subsequence(a, b)
    ensures Subsequence(a, before + b)
    decreases |before|
  {
    if before == [] {
      assert before + b == b;
    } else {
      SubsequenceOfLonger(a, before[1..], b);
      assert (before + b)[1..] == before[1..] + b;
    }
  }

  lemma {:induction false} SubsequenceJoin<T>(a: seq<T>, b: seq<T>, c: seq<T>, d: seq<T>)
    requires Subsequence(a, b) && Subsequence(c, d)
    ensures Subsequence(a + c, b + d)
    decreases |b|
  {
    if a == [] {
      assert a + c == c;
      SubsequenceOfLonger(c, b, d);
    } else {
      assert (b + d)[1..] == b[1..] + d && (a + c)[1..] == a[1..] + c;
      if a[0] == b[0] && Subsequence(a[1..], b[1..]) {
        SubsequenceJoin(a[1..], b[1..], c, d);
      } else {
        SubsequenceJoin(a, b[1..], c, d);
      }
    }
  }

  lemma {:induction false} DedupWords(rd: Reading, seen: seq<Value>, vs: seq<Value>)
    ensures Subsequence(WordsOf(Dedup(rd, seen, vs)), WordsOf(vs))
    decreases |vs|
  {
    if vs != [] {
      if SeenBefore(rd, seen, vs[0]) {
        DedupWords(rd, seen, vs[1..]);
        SubsequenceOfLonger(WordsOf(Dedup(rd, seen, vs)), Words(vs[0]), WordsOf(vs[1..]));
      } else {
        var rest := Dedup(rd, seen + [vs[0]], vs[1..]);
        DedupWords(rd, seen + [vs[0]], vs[1..]);
        WordsCons(vs[0], rest);
        SubsequenceSelf(Words(vs[0]));
        SubsequenceJoin(Words(vs[0]), Words(vs[0]), WordsOf(rest), WordsOf(vs[1..]));
      }
    }
  }

  lemma {:induction false} SubsequenceSelf<T>(a: seq<T>)
    ensures Subsequence(a, a)
  {
    if a != [] { SubsequenceSelf(a[1..]); }
  }

  lemma {:induction false} SubsequenceTwice<T>(a: seq<T>, b: seq<T>, c: seq<T>)
    requires Subsequence(a, b) && Subsequence(b, c)
    ensures Subsequence(a, c)
    decreases |c|
  {
    if a != [] {
      if b[0] == c[0] && Subsequence(b[1..], c[1..]) {
        if a[0] == b[0] && Subsequence(a[1..], b[1..]) {
          SubsequenceTwice(a[1..], b[1..], c[1..]);
        } else {
          SubsequenceTwice(a, b[1..], c[1..]);
        }
      } else {
        SubsequenceTwice(a, b, c[1..]);
      }
    }
  }

  /** The words that are left stand in their old order, and no word is new. */
  lemma {:induction false} SimplifiedWords(rd: Reading, v: Value)
    ensures Subsequence(Words(Simplified(rd, v)), Words(v))
    decreases v, 1
  {
    if v.List? {
      var kids := SimplifiedAll(rd, v.items);
      AllSimplifiedWords(rd, v.items);
      DedupWords(rd, [], kids);
      SubsequenceTwice(WordsOf(Dedup(rd, [], kids)), WordsOf(kids), WordsOf(v.items));
    } else {
      SubsequenceSelf(Words(v));
    }
  }

  lemma {:induction false} AllSimplifiedWords(rd: Reading, vs: seq<Value>)
    ensures Subsequence(WordsOf(SimplifiedAll(rd, vs)), WordsOf(vs))
    decreases vs, 0
  {
    if vs != [] {
      var v, rest := Simplified(rd, vs[0]), SimplifiedAll(rd, vs[1..]);
      SimplifiedWords(rd, vs[0]);
      AllSimplifiedWords(rd, vs[1..]);
      WordsCons(v, rest);
      SubsequenceJoin(Words(v), Words(vs[0]), WordsOf(rest), WordsOf(vs[1..]));
    }
  }

  lemma {:induction false} EqualToItself(rd: Reading, v: Value)
    ensures DeepEq(rd, v, v)
    decreases v, 1
  {
    if v.List? { AllEqualToThemselves(rd, v.items); }
  }

  lemma {:induction false} AllEqualToThemselves(rd: Reading, vs: seq<Value>)
    ensures DeepEqAll(rd, vs, vs)
    decreases vs, 0
  {
    if vs != [] {
      EqualToItself(rd, vs[0]);
      AllEqualToThemselves(rd, vs[1..]);
    }
  }

  lemma {:induction false} DedupStands(rd: Reading, seen: seq<Value>, vs: seq<Value>, i: nat)
    requires i < |vs|
    ensures SeenBefore(rd, seen + Dedup(rd, seen, vs), vs[i])
    decreases |vs|
  {
    var v := vs[0];
    if SeenBefore(rd, seen, v) {
      if i == 0 {
        SeenInLonger(rd, seen, Dedup(rd, seen, vs), v);
      } else {
        DedupStands(rd, seen, vs[1..], i - 1);
      }
    } else {
      var rest := Dedup(rd, seen + [v], vs[1..]);
      assert seen + ([v] + rest) == (seen + [v]) + rest;
      if i == 0 {
        EqualToItself(rd, v);
        assert (seen + [v])[|seen|] == v;
        SeenInLonger(rd, seen + [v], rest, v);
      } else {
        DedupStands(rd, seen + [v], vs[1..], i - 1);
      }
    }
  }

  lemma SeenInLonger(rd: Reading, a: seq<Value>, b: seq<Value>, v: Value)
    requires SeenBefore(rd, a, v)
    ensures SeenBefore(rd, a + b, v)
  {
    var i :| 0 <= i < |a| && DeepEq(rd, v, a[i]);
    assert (a + b)[i] == a[i];
  }

  lemma {:induction false} SimplifiedAt(rd: Reading, vs: seq<Value>, i: nat)
    requires i < |vs|
    ensures |SimplifiedAll(rd, vs)| == |vs| && SimplifiedAll(rd, vs)[i] == Simplified(rd, vs[i])
    decreases vs, 0
  {
    KidsKeepKind(rd, vs);
    if i > 0 {
      SimplifiedAt(rd, vs[1..], i - 1);
    }
  }

  /** Every member of a list is still there, simplified: itself, or one that equals it.  In a list that holds anything but lists,
      itself and in its place. */
  lemma MembersAreRepresented(rd: Reading, items: seq<Value>, i: nat)
    requires i < |items|
    ensures SeenBefore(rd, Simplified(rd, List(items)).items, Simplified(rd, items[i]))
    ensures !AllLists(items) ==>
      |Simplified(rd, List(items)).items| == |items| && Simplified(rd, List(items)).items[i] == Simplified(rd, items[i])
  {
    var kids := SimplifiedAll(rd, items);
    KidsKeepKind(rd, items);
    SimplifiedAt(rd, items, i);
    if AllLists(kids) {
      DedupStands(rd, [], kids, i);
      assert [] + Dedup(rd, [], kids) == Dedup(rd, [], kids);
    } else {
      EqualToItself(rd, kids[i]);
    }
  }
}
