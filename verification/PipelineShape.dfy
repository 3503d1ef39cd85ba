/** The shape of what the passes of `tokenize` make: which lists there are, and what stands in them. */
module PipelineShape {
  import opened Tokens
  import opened Pipeline

  // ---------- First pass ----------

  lemma {:induction false} StripAllAt(ts: seq<Tree>, i: nat)
    requires i < |ts|
    ensures |StripAll(ts)| == |ts| && StripAll(ts)[i] == StripComma(ts[i])
  {
    StripAllSize(ts);
    if i > 0 {
      StripAllAt(ts[1..], i - 1);
    }
  }

  /** What an argument becomes: a single item stands for itself, no items or several become a list. */
  ghost predicate IsArgument(argument: seq<Tree>, t: Tree) {
    if |argument| == 1 then t == StripComma(argument[0])
    else t.Node? && |t.kids| == |argument| && forall j :: 0 <= j < |argument| ==> t.kids[j] == StripComma(argument[j])
  }

  lemma SegmentIsArgument(argument: seq<Tree>)
    ensures IsArgument(argument, Segment(StripAll(argument)))
  {
    StripAllSize(argument);
    forall j | 0 <= j < |argument| ensures StripAll(argument)[j] == StripComma(argument[j]) {
      StripAllAt(argument, j);
    }
  }

  /** How many arguments come out: an empty last one does not count. */
  function Counted(arguments: seq<seq<Tree>>): (n: nat)
    ensures n <= |arguments|
  {
    var n := |arguments|;
    if n > 0 && arguments[n - 1] == [] then n - 1 else n
  }

  lemma {:induction false} StrippedAt(arguments: seq<seq<Tree>>)
    ensures |Stripped(arguments)| == Counted(arguments)
    ensures forall i :: 0 <= i < Counted(arguments) ==> IsArgument(arguments[i], Stripped(arguments)[i])
  {
    if arguments != [] && arguments != [[]] {
      var rest := arguments[1..];
      StrippedAt(rest);
      SegmentIsArgument(arguments[0]);
      assert Counted(arguments) == 1 + Counted(rest);
      forall i | 0 < i < Counted(arguments) ensures IsArgument(arguments[i], Stripped(arguments)[i]) {
        assert IsArgument(rest[i - 1], Stripped(rest)[i - 1]);
      }
    }
  }

  /** Arguments without commas of their own, separated by commas: there comes out one tree for each, in order, an empty last
      one dropped; and a list without commas keeps its items. */
  lemma ListsByArguments(arguments: seq<seq<Tree>>)
    requires |arguments| > 0 && forall i :: 0 <= i < |arguments| ==> COMMA !in arguments[i]
    ensures var r := StripComma(Node(Separated(arguments)));
      && r.Node?
      && if |arguments| == 1 then
           |r.kids| == |arguments[0]| && forall j :: 0 <= j < |r.kids| ==> r.kids[j] == StripComma(arguments[0][j])
         else
           |r.kids| == Counted(arguments) && forall i :: 0 <= i < |r.kids| ==> IsArgument(arguments[i], r.kids[i])
  {
    if |arguments| == 1 {
      StripAllSize(arguments[0]);
      forall j | 0 <= j < |arguments[0]| ensures StripAll(arguments[0])[j] == StripComma(arguments[0][j]) {
        StripAllAt(arguments[0], j);
      }
    } else {
      ArgumentsComeOut(arguments);
      StrippedAt(arguments);
    }
  }

  // ---------- Second pass ----------

  /** A tree inside `n` lists that hold nothing else. */
  function Wrapped(n: nat, t: Tree): Tree {
    if n == 0 then t else Node([Wrapped(n - 1, t)])
  }

  /** The list is not itself a list that holds only a list. */
  predicate IsCore(t: Tree) {
    t.Node? && !(|t.kids| == 1 && t.kids[0].Node?)
  }

  lemma {:induction false} CoreStays(t: Tree)
    requires IsCore(t)
    ensures IsCore(Normalize(t))
  {
    NormalizeAllSize(t.kids);
    if |t.kids| == 1 {
      assert NormalizeAll(t.kids)[0] == t.kids[0];
    }
  }

  /** However deeply a list is nested alone in lists inside a list, at most one of these is left. */
  lemma {:induction false} NestingIsCut(n: nat, t: Tree)
    requires IsCore(t)
    ensures Unwrap(Normalize(Wrapped(n, t))) == Wrapped(if n == 0 then 0 else 1, Normalize(t))
    ensures Normalize(Node([Wrapped(n, t)])) == Node([Wrapped(if n == 0 then 0 else 1, Normalize(t))])
  {
    var core := Normalize(t);
    CoreStays(t);
    assert Wrapped(0, core) == core && Wrapped(1, core) == Node([core]) && Wrapped(0, t) == t;
    OneNormalized(Wrapped(n, t));
    if n > 0 {
      var inner := Wrapped(n - 1, t);
      NestingIsCut(n - 1, t);
      OneNormalized(inner);
      var u := Unwrap(Normalize(inner));
      assert Normalize(Wrapped(n, t)) == Node([u]);
      assert u == if n == 1 then core else Node([core]);
    }
  }

  lemma OneNormalized(t: Tree)
    ensures Normalize(Node([t])) == Node([Unwrap(Normalize(t))])
  {
    var u := Unwrap(Normalize(t));
    assert [t][1..] == [] && [u] + [] == [u];
    assert NormalizeAll([t]) == [u];
  }

  // ---------- Trees that no pass changes ----------

  /** The tree as a value. */
  function Lifted(t: Tree): Value
    decreases t, 1
  {
    match t
    case Leaf(text) => Word(text)
    case Node(kids) => List(LiftedAll(kids))
  }

  function LiftedAll(ts: seq<Tree>): seq<Value>
    decreases ts, 0
  {
    if ts == [] then [] else [Lifted(ts[0])] + LiftedAll(ts[1..])
  }

  /** No commas and no question marks, and no empty list in a list of lists. */
  predicate Ordinary(t: Tree)
    decreases t, 1
  {
    match t
    case Leaf(text) => text != "," && text != "?"
    case Node(kids) => AllOrdinary(kids) && (Node([]) in kids ==> exists i :: 0 <= i < |kids| && kids[i].Leaf?)
  }

  predicate AllOrdinary(ts: seq<Tree>)
    decreases ts, 0
  {
    ts == [] || (Ordinary(ts[0]) && AllOrdinary(ts[1..]))
  }

  lemma {:induction false} NoCommaInside(ts: seq<Tree>)
    requires AllOrdinary(ts)
    ensures COMMA !in ts && Leaf("?") !in ts
  {
    if ts != [] {
      NoCommaInside(ts[1..]);
      assert ts == [ts[0]] + ts[1..];
    }
  }

  lemma {:induction false} StripStays(t: Tree)
    requires Ordinary(t)
    ensures StripComma(t) == t
    decreases t, 1
  {
    if t.Node? {
      NoCommaInside(t.kids);
      StripAllStays(t.kids);
    }
  }

  lemma {:induction false} StripAllStays(ts: seq<Tree>)
    requires AllOrdinary(ts)
    ensures StripAll(ts) == ts
    decreases ts, 0
  {
    if ts != [] {
      StripStays(ts[0]);
      StripAllStays(ts[1..]);
      assert [ts[0]] + ts[1..] == ts;
    }
  }

  lemma {:induction false} ConvertLifts(t: Tree)
    requires Ordinary(t)
    ensures ConvertQuestion(t) == Lifted(t)
    decreases t, 1
  {
    if t.Node? {
      assert t.kids == [Leaf("?")] ==> Leaf("?") in t.kids;
      NoCommaInside(t.kids);
      ConvertAllLifts(t.kids);
    }
  }

  lemma {:induction false} ConvertAllLifts(ts: seq<Tree>)
    requires AllOrdinary(ts)
    ensures ConvertAll(ts) == LiftedAll(ts)
    decreases ts, 0
  {
    if ts != [] {
      ConvertLifts(ts[0]);
      ConvertAllLifts(ts[1..]);
    }
  }

  lemma {:induction false} LiftedAt(ts: seq<Tree>)
    ensures |LiftedAll(ts)| == |ts| && forall i :: 0 <= i < |ts| ==> LiftedAll(ts)[i] == Lifted(ts[i])
    decreases ts, 0
  {
    if ts != [] {
      LiftedAt(ts[1..]);
    }
  }

  lemma EmptyLifted(t: Tree)
    ensures Lifted(t) == List([]) <==> t == Node([])
  {
    if t.Node? {
      LiftedAt(t.kids);
    }
  }

  lemma {:induction false} LiftedIsPruned(t: Tree)
    requires Ordinary(t)
    ensures Pruned(Lifted(t)) && Lifted(t) != Missing
    decreases t, 1
  {
    if t.Node? {
      var items := LiftedAll(t.kids);
      LiftedAllPruned(t.kids);
      LiftedAt(t.kids);
      if List([]) in items {
        var i :| 0 <= i < |items| && items[i] == List([]);
        EmptyLifted(t.kids[i]);
        var j :| 0 <= j < |t.kids| && t.kids[j].Leaf?;
        assert !items[j].List?;
      }
    }
  }

  lemma {:induction false} LiftedAllPruned(ts: seq<Tree>)
    requires AllOrdinary(ts)
    ensures AllPruned(LiftedAll(ts)) && Missing !in LiftedAll(ts)
    decreases ts, 0
  {
    if ts != [] {
      LiftedIsPruned(ts[0]);
      LiftedAllPruned(ts[1..]);
      assert LiftedAll(ts)[1..] == LiftedAll(ts[1..]);
    }
  }

  /** A token tree without commas, question marks, triple nesting and empty lists among lists comes out of `tokenize` as it is. */
  lemma OrdinaryTreesStay(items: seq<Tree>)
    requires Ordinary(Node(items)) && NoTriples(Node(items))
    ensures TokenizeTree(items) == Lifted(Node(items))
  {
    var t := Node(items);
    StripStays(t);
    NormalizeFixed(t);
    ConvertLifts(t);
    LiftedIsPruned(t);
    PruneFixed(Lifted(t));
  }
}
