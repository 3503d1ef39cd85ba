/** The passes that `tokenize` runs over the token tree: commas out, triple nesting undone,
    question marks turned into missing values, missing values pruned. */
module Pipeline {
  import opened Options
  import opened Tokens

  /** A token list after the third pass: a question mark has become a missing value. */
  datatype Value = Word(text: string) | Missing | List(items: seq<Value>)

  // ---------- Leaves ----------

  function Leaves(t: Tree): seq<string>
    decreases t, 1
  {
    match t
    case Leaf(text) => [text]
    case Node(kids) => LeavesOf(kids)
  }

  function LeavesOf(ts: seq<Tree>): seq<string>
    decreases ts, 0
  {
    if ts == [] then [] else Leaves(ts[0]) + LeavesOf(ts[1..])
  }

  function Words(v: Value): seq<string>
    decreases v, 1
  {
    match v
    case Word(text) => [text]
    case Missing => []
    case List(items) => WordsOf(items)
  }

  function WordsOf(vs: seq<Value>): seq<string>
    decreases vs, 0
  {
    if vs == [] then [] else Words(vs[0]) + WordsOf(vs[1..])
  }

  function Without(ws: seq<string>, w: string): seq<string> {
    if ws == [] then [] else (if ws[0] == w then [] else [ws[0]]) + Without(ws[1..], w)
  }

  lemma {:induction false} WithoutAppend(a: seq<string>, b: seq<string>, w: string)
    ensures Without(a + b, w) == Without(a, w) + Without(b, w)
  {
    if a == [] {
      assert a + b == b;
    } else {
      assert (a + b)[1..] == a[1..] + b;
      WithoutAppend(a[1..], b, w);
    }
  }

  lemma {:induction false} LeavesAppend(a: seq<Tree>, b: seq<Tree>)
    ensures LeavesOf(a + b) == LeavesOf(a) + LeavesOf(b)
  {
    if a == [] {
      assert a + b == b;
    } else {
      assert (a + b)[1..] == a[1..] + b;
      LeavesAppend(a[1..], b);
    }
  }

  lemma LeavesOne(t: Tree)
    ensures LeavesOf([t]) == Leaves(t)
  {
    assert [t][1..] == [] && Leaves(t) + [] == Leaves(t);
  }

  // ---------- First pass: commas ----------

  const COMMA := Leaf(",")

  /** One argument: a single item stands for itself, anything else becomes a list. */
  function Segment(cur: seq<Tree>): Tree {
    if |cur| == 1 then cur[0] else Node(cur)
  }

  function StripComma(t: Tree): Tree
    decreases t, 2
  {
    match t
    case Leaf(_) => t
    case Node(kids) => Node(if COMMA in kids then Segments(kids, []) else StripAll(kids))
  }

  function StripAll(ts: seq<Tree>): seq<Tree>
    decreases ts, 0
  {
    if ts == [] then [] else [StripComma(ts[0])] + StripAll(ts[1..])
  }

  /** The stripped arguments of a list, `cur` being what the current one holds so far. */
  function Segments(ts: seq<Tree>, cur: seq<Tree>): seq<Tree>
    decreases ts, 1
  {
    if ts == [] then (if cur == [] then [] else [Segment(cur)])
    else if ts[0] == COMMA then [Segment(cur)] + Segments(ts[1..], [])
    else Segments(ts[1..], cur + [StripComma(ts[0])])
  }

  /** Arguments with commas between them. */
  function Separated(arguments: seq<seq<Tree>>): seq<Tree> {
    if arguments == [] then []
    else if |arguments| == 1 then arguments[0]
    else arguments[0] + [COMMA] + Separated(arguments[1..])
  }

  /** Each argument on its own; nothing stands for an empty last one. */
  function Stripped(arguments: seq<seq<Tree>>): seq<Tree> {
    if arguments == [] || arguments == [[]] then []
    else [Segment(StripAll(arguments[0]))] + Stripped(arguments[1..])
  }

  lemma {:induction false} SegmentsPass(argument: seq<Tree>, rest: seq<Tree>, cur: seq<Tree>)
    requires COMMA !in argument
    ensures Segments(argument + rest, cur) == Segments(rest, cur + StripAll(argument))
    decreases |argument|
  {
    if argument == [] {
      assert argument + rest == rest && cur + [] == cur;
    } else {
      var first, more := StripComma(argument[0]), argument[1..];
      assert argument[0] in argument;
      SegmentsPass(more, rest, cur + [first]);
      assert (argument + rest)[0] == argument[0] && (argument + rest)[1..] == more + rest;
      Grow(cur, first, StripAll(more));
    }
  }

  lemma Grow(a: seq<Tree>, t: Tree, b: seq<Tree>)
    ensures a + [t] + b == a + ([t] + b)
  {
  }

  /** Arguments that hold no commas of their own and are separated by commas come out one by one,
      whatever lists they hold. */
  lemma {:induction false} ArgumentsComeOut(arguments: seq<seq<Tree>>)
    requires forall i :: 0 <= i < |arguments| ==> COMMA !in arguments[i]
    ensures Segments(Separated(arguments), []) == Stripped(arguments)
    ensures |arguments| > 1 ==> StripComma(Node(Separated(arguments))) == Node(Stripped(arguments))
    decreases |arguments|
  {
    if |arguments| == 1 {
      SegmentsPass(arguments[0], [], []);
      assert arguments[0] + [] == arguments[0] && [] + StripAll(arguments[0]) == StripAll(arguments[0]);
      assert arguments[1..] == [] && (arguments[0] == [] ==> arguments == [[]]);
    } else if |arguments| > 1 {
      var rest := Separated(arguments[1..]);
      ArgumentsComeOut(arguments[1..]);
      assert arguments[0] + [COMMA] + rest == arguments[0] + ([COMMA] + rest);
      SegmentsPass(arguments[0], [COMMA] + rest, []);
      assert [] + StripAll(arguments[0]) == StripAll(arguments[0]) && ([COMMA] + rest)[1..] == rest;
      assert COMMA in Separated(arguments);
    }
  }

  lemma SegmentLeaves(cur: seq<Tree>)
    ensures Leaves(Segment(cur)) == LeavesOf(cur)
  {
    if |cur| == 1 {
      assert cur == [cur[0]];
      LeavesOne(cur[0]);
    }
  }

  lemma {:induction false} StripLeaves(t: Tree)
    requires t != COMMA
    ensures Leaves(StripComma(t)) == Without(Leaves(t), ",")
    decreases t, 2
  {
    match t
    case Leaf(text) => assert Without([text], ",") == [text] + Without([text][1..], ",");
    case Node(kids) =>
      if COMMA in kids {
        SegmentsLeaves(kids, []);
        assert LeavesOf([]) + Without(LeavesOf(kids), ",") == Without(LeavesOf(kids), ",");
      } else {
        StripAllLeaves(kids);
      }
  }

  lemma {:induction false} StripAllLeaves(ts: seq<Tree>)
    requires COMMA !in ts
    ensures LeavesOf(StripAll(ts)) == Without(LeavesOf(ts), ",")
    decreases ts, 0
  {
    if ts != [] {
      assert ts[0] in ts;
      StripLeaves(ts[0]);
      StripAllLeaves(ts[1..]);
      WithoutAppend(Leaves(ts[0]), LeavesOf(ts[1..]), ",");
      assert StripAll(ts)[1..] == StripAll(ts[1..]);
    }
  }

  lemma {:induction false} SegmentsLeaves(ts: seq<Tree>, cur: seq<Tree>)
    ensures LeavesOf(Segments(ts, cur)) == LeavesOf(cur) + Without(LeavesOf(ts), ",")
    decreases ts, 1
  {
    if ts == [] {
      if cur != [] {
        SegmentLeaves(cur);
        LeavesOne(Segment(cur));
      }
      assert LeavesOf(cur) + [] == LeavesOf(cur);
    } else {
      var rest := LeavesOf(ts[1..]);
      WithoutAppend(Leaves(ts[0]), rest, ",");
      if ts[0] == COMMA {
        SegmentLeaves(cur);
        SegmentsLeaves(ts[1..], []);
        assert Without([","], ",") == [] + Without([","][1..], ",");
        assert Segments(ts, cur)[1..] == Segments(ts[1..], []);
        assert LeavesOf([]) + Without(rest, ",") == Without(rest, ",") == [] + Without(rest, ",");
      } else {
        StripLeaves(ts[0]);
        SegmentsLeaves(ts[1..], cur + [StripComma(ts[0])]);
        LeavesAppend(cur, [StripComma(ts[0])]);
        LeavesOne(StripComma(ts[0]));
        Reassociate(LeavesOf(cur), Leaves(StripComma(ts[0])), Without(rest, ","));
      }
    }
  }

  lemma Reassociate(a: seq<string>, b: seq<string>, c: seq<string>)
    ensures a + b + c == a + (b + c)
  {
  }

  /** The pass as the program runs it. */
  method StripCommaList(tokens: seq<Tree>) returns (r: seq<Tree>)
    ensures Node(r) == StripComma(Node(tokens))
    decreases tokens, 1
  {
    if COMMA !in tokens {
      r := StripEach(tokens);
      return;
    }
    var segments: seq<Tree>, cur: seq<Tree> := [], [];
    ghost var done: seq<Tree> := [];
    for i := 0 to |tokens|
      invariant forall x :: x in cur ==> x in tokens
      invariant done == StripAll(cur)
      invariant segments + Segments(tokens[i..], done) == Segments(tokens, [])
    {
      var t := tokens[i];
      assert tokens[i..][0] == t && tokens[i..][1..] == tokens[i + 1..];
      if t == COMMA {
        var segment := SegmentOf(tokens, cur);
        assert segments + ([segment] + Segments(tokens[i + 1..], [])) == (segments + [segment]) + Segments(tokens[i + 1..], []);
        segments := segments + [segment];
        cur, done := [], [];
      } else {
        StripAllAppend(cur, t);
        cur, done := cur + [t], done + [StripComma(t)];
      }
    }
    assert tokens[|tokens|..] == [];
    if cur != [] {
      var segment := SegmentOf(tokens, cur);
      segments := segments + [segment];
    } else {
      assert segments + [] == segments;
    }
    r := segments;
  }

  method SegmentOf(ghost tokens: seq<Tree>, cur: seq<Tree>) returns (segment: Tree)
    requires forall x :: x in cur ==> x in tokens
    ensures segment == Segment(StripAll(cur))
    decreases tokens, 0, |cur|
  {
    if |cur| == 1 {
      assert cur[0] in tokens;
      assert StripAll(cur) == [StripComma(cur[0])] + StripAll(cur[1..]);
      match cur[0]
      case Leaf(_) => segment := cur[0];
      case Node(kids) =>
        var stripped := StripCommaList(kids);
        segment := Node(stripped);
    } else {
      var items: seq<Tree> := [];
      for k := 0 to |cur|
        invariant items == StripAll(cur[..k])
      {
        assert cur[k] in tokens;
        assert cur[..k + 1] == cur[..k] + [cur[k]];
        StripAllAppend(cur[..k], cur[k]);
        var item := cur[k];
        if item.Node? {
          var stripped := StripCommaList(item.kids);
          item := Node(stripped);
        }
        items := items + [item];
      }
      assert cur[..|cur|] == cur;
      StripAllSize(cur);
      segment := Node(items);
    }
  }

  method StripEach(tokens: seq<Tree>) returns (items: seq<Tree>)
    ensures items == StripAll(tokens)
    decreases tokens, 0
  {
    items := [];
    for k := 0 to |tokens|
      invariant items == StripAll(tokens[..k])
    {
      assert tokens[..k + 1] == tokens[..k] + [tokens[k]];
      StripAllAppend(tokens[..k], tokens[k]);
      var item := tokens[k];
      if item.Node? {
        var stripped := StripCommaList(item.kids);
        item := Node(stripped);
      }
      items := items + [item];
    }
    assert tokens[..|tokens|] == tokens;
  }

  lemma {:induction false} StripAllSize(ts: seq<Tree>)
    ensures |StripAll(ts)| == |ts|
  {
    if ts != [] { StripAllSize(ts[1..]); }
  }

  lemma {:induction false} StripAllAppend(ts: seq<Tree>, t: Tree)
    ensures StripAll(ts + [t]) == StripAll(ts) + [StripComma(t)]
  {
    if ts == [] {
      assert [t][1..] == [];
    } else {
      assert (ts + [t])[1..] == ts[1..] + [t];
      StripAllAppend(ts[1..], t);
    }
  }

  // ---------- Second pass: triple nesting ----------

  /** A list holding only a list holding only a list. */
  predicate Triple(t: Tree) {
    && t.Node? && |t.kids| == 1
    && t.kids[0].Node? && |t.kids[0].kids| == 1
    && t.kids[0].kids[0].Node?
  }

  function Unwrap(t: Tree): Tree {
    if Triple(t) then t.kids[0] else t
  }

  function Normalize(t: Tree): Tree
    decreases t, 1
  {
    match t
    case Leaf(_) => t
    case Node(kids) => Node(NormalizeAll(kids))
  }

  function NormalizeAll(ts: seq<Tree>): seq<Tree>
    decreases ts, 0
  {
    if ts == [] then [] else [Unwrap(Normalize(ts[0]))] + NormalizeAll(ts[1..])
  }

  lemma UnwrapLeaves(t: Tree)
    ensures Leaves(Unwrap(t)) == Leaves(t)
  {
    if Triple(t) {
      assert t.kids == [t.kids[0]];
      LeavesOne(t.kids[0]);
    }
  }

  lemma {:induction false} NormalizeLeaves(t: Tree)
    ensures Leaves(Normalize(t)) == Leaves(t)
    decreases t, 1
  {
    match t
    case Leaf(_) =>
    case Node(kids) => NormalizeAllLeaves(kids);
  }

  lemma {:induction false} NormalizeAllLeaves(ts: seq<Tree>)
    ensures LeavesOf(NormalizeAll(ts)) == LeavesOf(ts)
    decreases ts, 0
  {
    if ts != [] {
      NormalizeLeaves(ts[0]);
      UnwrapLeaves(Normalize(ts[0]));
      NormalizeAllLeaves(ts[1..]);
      assert NormalizeAll(ts)[1..] == NormalizeAll(ts[1..]);
    }
  }

  /** Unwrapping once is enough: what the pass leaves in a list is no triple any more, and
      passing over it again changes nothing. */
  lemma {:induction false} UnwrappedIsStable(t: Tree)
    ensures var u := Unwrap(Normalize(t)); !Triple(u) && Normalize(u) == u
    decreases t, 1
  {
    NormalizeIdempotent(t);
    var n := Normalize(t);
    if Triple(n) {
      assert n.kids == NormalizeAll(t.kids);
      assert |t.kids| == 1 by { NormalizeAllSize(t.kids); }
      assert n.kids[0] == Unwrap(Normalize(t.kids[0]));
      UnwrappedIsStable(t.kids[0]);
    }
  }

  lemma {:induction false} NormalizeAllSize(ts: seq<Tree>)
    ensures |NormalizeAll(ts)| == |ts|
  {
    if ts != [] { NormalizeAllSize(ts[1..]); }
  }

  /** The second pass is idempotent. */
  lemma {:induction false} NormalizeIdempotent(t: Tree)
    ensures Normalize(Normalize(t)) == Normalize(t)
    decreases t, 0
  {
    match t
    case Leaf(_) =>
    case Node(kids) => NormalizeAllIdempotent(kids);
  }

  lemma {:induction false} NormalizeAllIdempotent(ts: seq<Tree>)
    ensures NormalizeAll(NormalizeAll(ts)) == NormalizeAll(ts)
    decreases ts, 2
  {
    if ts != [] {
      var u := Unwrap(Normalize(ts[0]));
      UnwrappedIsStable(ts[0]);
      NormalizeAllIdempotent(ts[1..]);
      assert NormalizeAll(ts)[1..] == NormalizeAll(ts[1..]);
      assert Unwrap(Normalize(u)) == u;
    }
  }

  predicate NoTriples(t: Tree)
    decreases t, 1
  {
    match t
    case Leaf(_) => true
    case Node(kids) => NoneTriple(kids)
  }

  predicate NoneTriple(ts: seq<Tree>)
    decreases ts, 0
  {
    ts == [] || (!Triple(ts[0]) && NoTriples(ts[0]) && NoneTriple(ts[1..]))
  }

  /** The second pass leaves exactly those trees alone in which no list holds a triple, and
      makes every tree one of them. */
  lemma {:induction false} NormalizeFixed(t: Tree)
    ensures Normalize(t) == t <==> NoTriples(t)
    decreases t, 1
  {
    if t.Node? {
      NormalizeAllFixed(t.kids);
    }
  }

  lemma {:induction false} NormalizeAllFixed(ts: seq<Tree>)
    ensures NormalizeAll(ts) == ts <==> NoneTriple(ts)
    decreases ts, 0
  {
    if ts != [] {
      var u, rest := Unwrap(Normalize(ts[0])), NormalizeAll(ts[1..]);
      NormalizeFixed(ts[0]);
      NormalizeAllFixed(ts[1..]);
      UnwrappedIsStable(ts[0]);
      assert [u] + rest == ts <==> u == ts[0] && rest == ts[1..] by {
        assert ([u] + rest)[0] == u && ([u] + rest)[1..] == rest;
        assert [ts[0]] + ts[1..] == ts;
      }
    }
  }

  lemma NormalizedHasNoTriples(t: Tree)
    ensures NoTriples(Normalize(t))
  {
    NormalizeIdempotent(t);
    NormalizeFixed(Normalize(t));
  }

  // ---------- Third pass: question marks ----------

  function ConvertQuestion(t: Tree): Value
    decreases t, 1
  {
    match t
    case Leaf(text) => if text == "?" then Missing else Word(text)
    case Node(kids) => if kids == [Leaf("?")] then List([]) else List(ConvertAll(kids))
  }

  function ConvertAll(ts: seq<Tree>): seq<Value>
    decreases ts, 0
  {
    if ts == [] then [] else [ConvertQuestion(ts[0])] + ConvertAll(ts[1..])
  }

  lemma {:induction false} ConvertWords(t: Tree)
    ensures Words(ConvertQuestion(t)) == Without(Leaves(t), "?")
    decreases t, 1
  {
    match t
    case Leaf(text) => assert [text][1..] == [];
    case Node(kids) =>
      if kids == [Leaf("?")] {
        LeavesOne(Leaf("?"));
        assert ["?"][1..] == [];
      } else {
        ConvertAllWords(kids);
      }
  }

  lemma {:induction false} ConvertAllWords(ts: seq<Tree>)
    ensures WordsOf(ConvertAll(ts)) == Without(LeavesOf(ts), "?")
    decreases ts, 0
  {
    if ts != [] {
      ConvertWords(ts[0]);
      ConvertAllWords(ts[1..]);
      WithoutAppend(Leaves(ts[0]), LeavesOf(ts[1..]), "?");
      assert ConvertAll(ts)[1..] == ConvertAll(ts[1..]);
    }
  }

  // ---------- Fourth pass: missing values ----------

  predicate AllLists(vs: seq<Value>) {
    forall i :: 0 <= i < |vs| ==> vs[i].List?
  }

  function DropEmpty(vs: seq<Value>): seq<Value> {
    if vs == [] then [] else (if vs[0] == List([]) then [] else [vs[0]]) + DropEmpty(vs[1..])
  }

  function DropMissing(vs: seq<Value>): seq<Value> {
    if vs == [] then [] else (if vs[0] == Missing then [] else [vs[0]]) + DropMissing(vs[1..])
  }

  function Prune(v: Value): Value
    decreases v, 1
  {
    match v
    case Word(_) => v
    case Missing => v
    case List(items) =>
      List(Left(PruneAll(items)))
  }

  /** What is left of a list when its items are pruned. */
  function Left(kids: seq<Value>): seq<Value> {
    if kids != [] && AllLists(kids) then DropEmpty(kids) else DropMissing(kids)
  }

  function PruneAll(vs: seq<Value>): seq<Value>
    decreases vs, 0
  {
    if vs == [] then [] else [Prune(vs[0])] + PruneAll(vs[1..])
  }

  lemma WordsCons(v: Value, vs: seq<Value>)
    ensures WordsOf([v] + vs) == Words(v) + WordsOf(vs)
  {
    assert ([v] + vs)[1..] == vs;
  }

  lemma {:induction false} DropEmptyWords(vs: seq<Value>)
    ensures WordsOf(DropEmpty(vs)) == WordsOf(vs)
  {
    if vs != [] {
      DropEmptyWords(vs[1..]);
      if vs[0] == List([]) {
        assert [] + DropEmpty(vs[1..]) == DropEmpty(vs[1..]) && [] + WordsOf(vs[1..]) == WordsOf(vs[1..]);
      } else {
        WordsCons(vs[0], DropEmpty(vs[1..]));
      }
    }
  }

  lemma {:induction false} DropMissingWords(vs: seq<Value>)
    ensures WordsOf(DropMissing(vs)) == WordsOf(vs)
  {
    if vs != [] {
      DropMissingWords(vs[1..]);
      if vs[0] == Missing {
        assert [] + DropMissing(vs[1..]) == DropMissing(vs[1..]) && [] + WordsOf(vs[1..]) == WordsOf(vs[1..]);
      } else {
        WordsCons(vs[0], DropMissing(vs[1..]));
      }
    }
  }

  lemma {:induction false} PruneWords(v: Value)
    ensures Words(Prune(v)) == Words(v)
    decreases v, 1
  {
    if v.List? {
      PruneAllWords(v.items);
      DropEmptyWords(PruneAll(v.items));
      DropMissingWords(PruneAll(v.items));
    }
  }

  lemma {:induction false} PruneAllWords(vs: seq<Value>)
    ensures WordsOf(PruneAll(vs)) == WordsOf(vs)
    decreases vs, 0
  {
    if vs != [] {
      PruneWords(vs[0]);
      PruneAllWords(vs[1..]);
      assert PruneAll(vs)[1..] == PruneAll(vs[1..]);
    }
  }

  /** No missing value is left inside a list. */
  predicate NothingMissing(v: Value)
    decreases v, 1
  {
    match v
    case Word(_) => true
    case Missing => false
    case List(items) => NoneMissing(items)
  }

  predicate NoneMissing(vs: seq<Value>)
    decreases vs, 0
  {
    vs == [] || (NothingMissing(vs[0]) && NoneMissing(vs[1..]))
  }

  lemma {:induction false} PruneRemovesMissing(v: Value)
    requires v != Missing
    ensures NothingMissing(Prune(v))
    decreases v, 1
  {
    if v.List? {
      var kids := PruneAll(v.items);
      PrunedKids(v.items);
      DropLeavesNone(kids);
    }
  }

  /** After pruning, a child is missing itself or holds nothing missing. */
  predicate MissingOnTop(vs: seq<Value>) {
    vs == [] || ((vs[0] == Missing || NothingMissing(vs[0])) && MissingOnTop(vs[1..]))
  }

  lemma {:induction false} PrunedKids(vs: seq<Value>)
    ensures MissingOnTop(PruneAll(vs))
    decreases vs, 0
  {
    if vs != [] {
      if vs[0] != Missing { PruneRemovesMissing(vs[0]); }
      PrunedKids(vs[1..]);
      assert PruneAll(vs)[1..] == PruneAll(vs[1..]);
    }
  }

  lemma {:induction false} DropLeavesNone(vs: seq<Value>)
    requires MissingOnTop(vs)
    ensures NoneMissing(DropMissing(vs))
    ensures AllLists(vs) ==> NoneMissing(DropEmpty(vs))
  {
    if vs != [] {
      DropLeavesNone(vs[1..]);
      assert ([vs[0]] + DropEmpty(vs[1..]))[1..] == DropEmpty(vs[1..]);
      assert ([vs[0]] + DropMissing(vs[1..]))[1..] == DropMissing(vs[1..]);
      assert [] + DropEmpty(vs[1..]) == DropEmpty(vs[1..]);
      assert [] + DropMissing(vs[1..]) == DropMissing(vs[1..]);
    }
  }

  /** Inside, no value is missing, and a list of lists holds no empty list. */
  predicate Pruned(v: Value)
    decreases v, 1
  {
    match v
    case Word(_) => true
    case Missing => true
    case List(items) => AllPruned(items) && Missing !in items && (AllLists(items) ==> List([]) !in items)
  }

  predicate AllPruned(vs: seq<Value>)
    decreases vs, 0
  {
    vs == [] || (Pruned(vs[0]) && AllPruned(vs[1..]))
  }

  /** The fourth pass leaves exactly the pruned values alone. */
  lemma {:induction false} PruneFixed(v: Value)
    ensures Prune(v) == v <==> Pruned(v)
    decreases v, 1
  {
    if v.List? {
      var kids := PruneAll(v.items);
      PruneAllFixed(v.items);
      DropEmptyFixed(kids);
      DropMissingFixed(kids);
    }
  }

  lemma {:induction false} PruneAllFixed(vs: seq<Value>)
    ensures PruneAll(vs) == vs <==> AllPruned(vs)
    ensures |PruneAll(vs)| == |vs|
    decreases vs, 0
  {
    if vs != [] {
      var v, rest := Prune(vs[0]), PruneAll(vs[1..]);
      PruneFixed(vs[0]);
      PruneAllFixed(vs[1..]);
      assert [v] + rest == vs <==> v == vs[0] && rest == vs[1..] by {
        assert ([v] + rest)[0] == v && ([v] + rest)[1..] == rest;
        assert [vs[0]] + vs[1..] == vs;
      }
    }
  }

  lemma {:induction false} DropEmptyFixed(vs: seq<Value>)
    ensures |DropEmpty(vs)| <= |vs|
    ensures List([]) !in vs ==> DropEmpty(vs) == vs
    ensures List([]) in vs ==> |DropEmpty(vs)| < |vs|
  {
    if vs != [] {
      DropEmptyFixed(vs[1..]);
      assert vs == [vs[0]] + vs[1..];
    }
  }

  lemma {:induction false} DropMissingFixed(vs: seq<Value>)
    ensures |DropMissing(vs)| <= |vs|
    ensures Missing !in vs ==> DropMissing(vs) == vs
    ensures Missing in vs ==> |DropMissing(vs)| < |vs|
  {
    if vs != [] {
      DropMissingFixed(vs[1..]);
      assert vs == [vs[0]] + vs[1..];
    }
  }

  lemma PruneOneWord(w: string)
    ensures Prune(List([Word(w)])) == List([Word(w)])
  {
    var items := [Word(w)];
    assert items[1..] == [] && PruneAll(items) == items && DropMissing(items) == items;
    assert !AllLists(items) by { assert !items[0].List?; }
  }

  lemma PruneWithEmpty(last: Value)
    requires last.List? && last != List([]) && Prune(last) == last
    ensures var rest := [List([]), last];
      PruneAll(rest) == rest && DropMissing(rest) == rest && Prune(List(rest)) == List([last])
  {
    var rest := [List([]), last];
    assert rest[1..] == [last] && [last][1..] == [];
    assert Prune(List([])) == List([]);
    assert PruneAll([last]) == [last] && DropMissing([last]) == [last] && DropEmpty([last]) == [last];
    assert PruneAll(rest) == [List([])] + PruneAll([last]);
    assert DropMissing(rest) == [List([])] + DropMissing([last]);
    assert DropEmpty(rest) == [] + DropEmpty([last]);
  }

  /** Once is not always enough: without the missing value, what is left is a list of lists. */
  lemma PruningTwiceMayPruneMore(w: string)
    ensures var once := Prune(List([Missing, List([]), List([Word(w)])]));
      once == List([List([]), List([Word(w)])]) && Prune(once) == List([List([Word(w)])]) != once
  {
    var last := List([Word(w)]);
    var rest := [List([]), last];
    var items := [Missing, List([]), last];
    PruneOneWord(w);
    PruneWithEmpty(last);
    assert items[1..] == rest;
    assert PruneAll(items) == [Missing] + PruneAll(rest) == items;
    assert !AllLists(items) by { assert !items[0].List?; }
    assert DropMissing(items) == [] + DropMissing(rest) == rest;
  }

  /** A list from which everything goes: it holds only missing values, or only such lists. */
  predicate Vanishes(v: Value) {
    v.List? && ((forall i :: 0 <= i < |v.items| ==> v.items[i] == Missing) || (forall i :: 0 <= i < |v.items| ==> Vanishes(v.items[i])))
  }

  /** Beside missing values there are only lists here, and one of them vanishes. */
  predicate Unsettled(items: seq<Value>) {
    && Missing in items
    && (forall i :: 0 <= i < |items| ==> items[i] == Missing || items[i].List?)
    && (exists i :: 0 <= i < |items| && Vanishes(items[i]))
  }

  predicate Settles(v: Value) {
    v.List? ==> !Unsettled(v.items) && forall i :: 0 <= i < |v.items| ==> Settles(v.items[i])
  }

  lemma {:induction false} PruneEach(vs: seq<Value>)
    ensures |PruneAll(vs)| == |vs| && forall i :: 0 <= i < |vs| ==> PruneAll(vs)[i] == Prune(vs[i])
    decreases vs, 0
  {
    if vs != [] {
      PruneEach(vs[1..]);
    }
  }

  lemma {:induction false} EmptyGone(vs: seq<Value>, v: Value)
    ensures v in DropEmpty(vs) <==> v in vs && v != List([])
  {
    if vs != [] {
      EmptyGone(vs[1..], v);
      assert vs == [vs[0]] + vs[1..];
    }
  }

  lemma {:induction false} MissingGone(vs: seq<Value>, v: Value)
    ensures v in DropMissing(vs) <==> v in vs && v != Missing
  {
    if vs != [] {
      MissingGone(vs[1..], v);
      assert vs == [vs[0]] + vs[1..];
    }
  }

  lemma {:induction false} EachPruned(vs: seq<Value>)
    ensures AllPruned(vs) <==> forall i :: 0 <= i < |vs| ==> Pruned(vs[i])
    decreases vs, 0
  {
    if vs != [] {
      var rest := vs[1..];
      EachPruned(rest);
      assert forall i :: 0 <= i < |rest| ==> rest[i] == vs[i + 1];
      assert forall i :: 0 < i < |vs| ==> vs[i] == rest[i - 1];
    }
  }

  lemma {:induction false} DropsKeepPruned(vs: seq<Value>)
    ensures AllPruned(DropEmpty(vs)) <==> AllPruned(vs)
    ensures AllPruned(DropMissing(vs)) <==> AllPruned(vs)
    decreases vs, 0
  {
    if vs != [] {
      DropsKeepPruned(vs[1..]);
      assert DropEmpty(vs) == (if vs[0] == List([]) then [] else [vs[0]]) + DropEmpty(vs[1..]);
      assert DropMissing(vs) == (if vs[0] == Missing then [] else [vs[0]]) + DropMissing(vs[1..]);
      assert ([vs[0]] + DropEmpty(vs[1..]))[1..] == DropEmpty(vs[1..]);
      assert ([vs[0]] + DropMissing(vs[1..]))[1..] == DropMissing(vs[1..]);
      assert [] + DropEmpty(vs[1..]) == DropEmpty(vs[1..]) && [] + DropMissing(vs[1..]) == DropMissing(vs[1..]);
    }
  }

  lemma EmptyBySize(vs: seq<Value>)
    ensures vs == [] <==> forall v :: v !in vs
  {
    if vs != [] {
      assert vs[0] in vs;
    }
  }

  lemma LeftHolds(kids: seq<Value>, v: Value)
    ensures v in Left(kids) <==> v in kids && v != if kids != [] && AllLists(kids) then List([]) else Missing
  {
    EmptyGone(kids, v);
    MissingGone(kids, v);
  }

  lemma {:induction false} VanishesExactly(v: Value)
    ensures Prune(v) == List([]) <==> Vanishes(v)
    decreases v
  {
    if v.List? {
      var kids := PruneAll(v.items);
      PruneEach(v.items);
      forall i | 0 <= i < |v.items| ensures kids[i] == List([]) <==> Vanishes(v.items[i]) {
        VanishesExactly(v.items[i]);
      }
      forall u ensures u in Left(kids) <==> u in kids && u != if kids != [] && AllLists(kids) then List([]) else Missing {
        LeftHolds(kids, u);
      }
      EmptyBySize(Left(kids));
      NothingLeft(kids);
      assert forall i :: 0 <= i < |kids| ==> (kids[i] == Missing <==> v.items[i] == Missing);
    }
  }

  lemma NothingLeft(kids: seq<Value>)
    ensures (forall u :: !(u in kids && u != if kids != [] && AllLists(kids) then List([]) else Missing)) <==>
      (forall i :: 0 <= i < |kids| ==> kids[i] == Missing) || (forall i :: 0 <= i < |kids| ==> kids[i] == List([]))
  {
    if kids != [] && AllLists(kids) {
      assert kids[0].List?;
      assert forall i :: 0 <= i < |kids| ==> kids[i] in kids;
    } else {
      assert forall i :: 0 <= i < |kids| ==> kids[i] in kids;
    }
  }

  lemma ListsLeft(kids: seq<Value>)
    requires kids != [] && AllLists(kids)
    ensures Pruned(List(Left(kids))) <==> AllPruned(kids)
  {
    DropsKeepPruned(kids);
    EmptyGone(kids, Missing);
    EmptyGone(kids, List([]));
    assert forall i :: 0 <= i < |kids| ==> kids[i] != Missing;
  }

  lemma OthersLeft(kids: seq<Value>)
    requires kids == [] || !AllLists(kids)
    ensures Pruned(List(Left(kids))) <==>
      AllPruned(kids) && !(List([]) in kids && forall i :: 0 <= i < |kids| ==> kids[i] == Missing || kids[i].List?)
  {
    var rest := DropMissing(kids);
    DropsKeepPruned(kids);
    MissingGone(kids, Missing);
    MissingGone(kids, List([]));
    forall u ensures u in rest <==> u in kids && u != Missing {
      MissingGone(kids, u);
    }
    assert AllLists(rest) <==> forall i :: 0 <= i < |kids| ==> kids[i] == Missing || kids[i].List? by {
      if AllLists(rest) {
        forall i | 0 <= i < |kids| ensures kids[i] == Missing || kids[i].List? {
          assert kids[i] != Missing ==> kids[i] in rest;
        }
      } else {
        var i :| 0 <= i < |rest| && !rest[i].List?;
        assert rest[i] in kids;
      }
    }
  }

  lemma LeftIsPruned(items: seq<Value>, kids: seq<Value>)
    requires |kids| == |items| && forall i :: 0 <= i < |items| ==> kids[i] == Prune(items[i])
    ensures Pruned(List(Left(kids))) <==> AllPruned(kids) && !Unsettled(items)
  {
    forall i | 0 <= i < |items|
      ensures (kids[i] == Missing <==> items[i] == Missing) && (kids[i].List? <==> items[i].List?)
      ensures kids[i] == List([]) <==> Vanishes(items[i])
    {
      VanishesExactly(items[i]);
    }
    if kids != [] && AllLists(kids) {
      ListsLeft(kids);
      assert forall i :: 0 <= i < |items| ==> items[i] != Missing;
    } else {
      OthersLeft(kids);
      assert List([]) in kids <==> exists i :: 0 <= i < |items| && Vanishes(items[i]);
    }
  }

  lemma {:induction false} SettledExactly(v: Value)
    ensures Pruned(Prune(v)) <==> Settles(v)
    decreases v
  {
    if v.List? {
      var kids := PruneAll(v.items);
      PruneEach(v.items);
      LeftIsPruned(v.items, kids);
      EachPruned(kids);
      forall i | 0 <= i < |v.items| ensures Pruned(kids[i]) <==> Settles(v.items[i]) {
        SettledExactly(v.items[i]);
      }
    }
  }

  /** Pruning twice is pruning once exactly for values in which no list is unsettled. */
  lemma PruneIdempotentExactly(v: Value)
    ensures Prune(Prune(v)) == Prune(v) <==> Settles(v)
  {
    PruneFixed(Prune(v));
    SettledExactly(v);
  }

  // ---------- The whole pipeline ----------

  function TokenizeTree(items: seq<Tree>): Value {
    Prune(ConvertQuestion(Normalize(StripComma(Node(items)))))
  }

  /** Read from left to right, the words that come out are the leaves that go in, without
      commas and question marks: none lost, none added, none moved; and no missing value stays. */
  lemma PipelineKeepsWords(items: seq<Tree>)
    ensures Words(TokenizeTree(items)) == Without(Without(LeavesOf(items), ","), "?")
    ensures NothingMissing(TokenizeTree(items))
  {
    var stripped := StripComma(Node(items));
    var normal := Normalize(stripped);
    StripLeaves(Node(items));
    NormalizeLeaves(stripped);
    ConvertWords(normal);
    PruneWords(ConvertQuestion(normal));
    PruneRemovesMissing(ConvertQuestion(normal));
  }
}
