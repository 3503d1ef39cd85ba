/** What tokenizing the printed form of a token tree gives, for every tree, and so exactly when
    the printer is the inverse of the tokenizer. */
module RoundTrip {
  import opened Options
  import opened Tokens
  import opened Printer

  // ---------- The tree that comes back ----------

  /** A word comes back split after its coefficient; its group hangs on the remainder. */
  function NormWord(w: string): seq<Tree> {
    if ScriptShape(w) && !PlainWord(w) then
      var s := Stem(w);
      if Splits(s) then [Leaf(Coefficient(s)), Leaf(ScriptText(Remainder(s), Inner(w)))]
      else [Leaf(ScriptText(s, Inner(w)))]
    else WordLeaves(w)
  }

  function NormItem(item: Tree): seq<Tree>
    decreases item, 2
  {
    match item
    case Leaf(text) => if text == "," then [item] else NormWord(text)
    case Node(kids) => [Node(Norm(kids))]
  }

  function NormSeq(items: seq<Tree>): seq<Tree>
    decreases items, 0
  {
    if items == [] then [] else NormItem(items[0]) + NormSeq(items[1..])
  }

  function Norm(items: seq<Tree>): seq<Tree>
    decreases items, 1
  {
    if Glues(items) then NormWord("-" + items[1].text) + NormSeq(items[2..]) else NormSeq(items)
  }

  // ---------- Groups whose braces match ----------

  /** The number of open braces after `s`, starting from `depth`; 0 once a brace closes the
      group itself. */
  function DepthAtEnd(s: string, depth: nat): nat {
    if s == "" || depth == 0 then depth
    else DepthAtEnd(s[1..], if s[0] == '{' then depth + 1 else if s[0] == '}' then depth - 1 else depth)
  }

  /** Words with a group whose inner braces match. */
  predicate ClosedWord(w: string) {
    ScriptShape(w) && !PlainWord(w) ==> DepthAtEnd(Inner(w), 1) == 1
  }

  predicate ClosedItem(item: Tree)
    decreases item, 1
  {
    match item
    case Leaf(text) => ClosedWord(text)
    case Node(kids) => Closed(kids)
  }

  predicate Closed(items: seq<Tree>)
    decreases items, 0
  {
    items == [] || (ClosedItem(items[0]) && Closed(items[1..]))
  }

  // ---------- The machine on one word ----------

  predicate NoBraceNext(rest: seq<Lexeme>) {
    rest == [] || rest[0] != "{"
  }

  /** Only an opening brace asks for the word read last. */
  lemma PrevIrrelevant(rest: seq<Lexeme>, m: Machine)
    requires m.Valid() && NoBraceNext(rest)
    ensures Run(rest, m) == Run(rest, Machine(m.below, m.top, None))
  {
  }

  lemma RunPlain(w: string, rest: seq<Lexeme>, m: Machine)
    requires m.Valid() && PlainWord(w)
    ensures Lexemes(w) == [w]
    ensures Run([w] + rest, m) == Run(rest, m.Word(w))
  {
    WordIsLexeme(w);
    assert IsPlain(w[0]);
    assert ([w] + rest)[1..] == rest;
  }

  /** A balanced text is read through, whatever follows it. */
  lemma {:induction false} GroupReads(cur: string, s: string, depth: nat, tail: seq<Lexeme>)
    requires PlainText(cur) && SpaceFree(s) && depth >= 1 && DepthAtEnd(s, depth) >= 1
    ensures Group(Lex(cur, s) + tail, depth) == Prefixed(cur + s, Group(tail, DepthAtEnd(s, depth)))
    decreases |s|
  {
    if s == "" {
      GroupSkips(cur, tail, depth);
      assert cur + s == cur;
    } else if IsPlain(s[0]) {
      GroupReads(cur + [s[0]], s[1..], depth, tail);
      assert cur + [s[0]] + s[1..] == cur + s;
    } else {
      GroupReads("", s[1..], DepthAfter(s[0], depth), tail);
      assert "" + s[1..] == s[1..];
      GroupReadsSep(cur, s[0], s[1..], depth, tail, DepthAtEnd(s, depth));
      assert [s[0]] + s[1..] == s;
    }
  }

  lemma GroupReadsSep(cur: string, c: char, t: string, depth: nat, tail: seq<Lexeme>, end: nat)
    requires PlainText(cur) && IsSep(c) && depth >= 1 && DepthAfter(c, depth) >= 1
    requires Group(Lex("", t) + tail, DepthAfter(c, depth)) == Prefixed(t, Group(tail, end))
    ensures Group(Lex(cur, [c] + t) + tail, depth) == Prefixed(cur + ([c] + t), Group(tail, end))
  {
    var rest: seq<Lexeme> := [[c]] + (Lex("", t) + tail);
    assert Lex(cur, [c] + t) + tail == Flush(cur) + rest by {
      assert ([c] + t)[1..] == t;
      Reassociate(Flush(cur), [[c]], Lex("", t), tail);
    }
    GroupSkips(cur, rest, depth);
    GroupPasses(c, Lex("", t) + tail, depth);
    PrefixedTwice(cur, [c], t, Group(tail, end));
  }

  function Prefixed(p: string, r: (string, seq<Lexeme>, bool)): (string, seq<Lexeme>, bool) {
    (p + r.0, r.1, r.2)
  }

  lemma PrefixedTwice(p: string, q: string, t: string, r: (string, seq<Lexeme>, bool))
    ensures Prefixed(p, Prefixed(q, Prefixed(t, r))) == Prefixed(p + (q + t), r)
  {
    assert p + (q + (t + r.0)) == p + (q + t) + r.0;
  }

  lemma Reassociate(a: seq<Lexeme>, b: seq<Lexeme>, c: seq<Lexeme>, d: seq<Lexeme>)
    ensures a + b + c + d == a + (b + (c + d))
  {
  }

  function DepthAfter(c: char, depth: nat): int {
    if c == '{' then depth + 1 else if c == '}' then depth - 1 else depth
  }

  lemma GroupPasses(c: char, tail: seq<Lexeme>, depth: nat)
    requires IsSep(c) && depth >= 1 && DepthAfter(c, depth) >= 1
    ensures Group([[c]] + tail, depth) == Prefixed([c], Group(tail, DepthAfter(c, depth)))
  {
    assert ([[c]] + tail)[1..] == tail;
  }

  lemma GroupSkips(cur: string, tail: seq<Lexeme>, depth: nat)
    requires PlainText(cur) && depth >= 1
    ensures Group(Flush(cur) + tail, depth) == Prefixed(cur, Group(tail, depth))
  {
    if cur == "" {
      assert Flush(cur) + tail == tail;
      assert cur + Group(tail, depth).0 == Group(tail, depth).0;
    } else {
      assert IsPlain(cur[0]);
      assert (Flush(cur) + tail)[1..] == tail;
    }
  }

  lemma ScriptLexemes(w: string)
    requires ScriptShape(w)
    ensures Lexemes(w) == [Stem(w), "{"] + Lexemes(Inner(w)) + ["}"]
  {
    var s, inner := Stem(w), Inner(w);
    FirstBraceIs(w);
    assert w == s + ['{'] + (inner + "}");
    LexSep("", s, '{', inner + "}");
    WordIsLexeme(s);
    assert inner + "}" == inner + ['}'] + "";
    LexSep("", inner, '}', "");
    assert Lex("", "") == [];
    assert [s] + ["{"] + (Lexemes(inner) + ["}"] + []) == [s, "{"] + Lexemes(inner) + ["}"];
  }

  lemma LastPartKeepsEnd(s: string)
    requires s != ""
    ensures LastPart(s) != "" && LastPart(s)[|LastPart(s)| - 1] == s[|s| - 1]
  {
  }

  function Extended(m: Machine, items: seq<Tree>): Machine {
    Machine(m.below, m.top + items, None)
  }

  lemma GroupCloses(inner: string, rest: seq<Lexeme>)
    requires SpaceFree(inner) && DepthAtEnd(inner, 1) == 1
    ensures Group(Lexemes(inner) + (["}"] + rest), 1) == (inner, rest, true)
  {
    var close: seq<Lexeme> := ["}"] + rest;
    GroupReads("", inner, 1, close);
    assert close[1..] == rest && Group(close, 1) == ("", rest, true);
    assert "" + inner + "" == inner;
  }

  lemma RunScript(w: string, rest: seq<Lexeme>, m: Machine)
    requires m.Valid() && ScriptShape(w) && !PlainWord(w) && ClosedWord(w) && NoBraceNext(rest)
    ensures Run(Lexemes(w) + rest, m) == Run(rest, Extended(m, NormWord(w)))
  {
    var s, inner := Stem(w), Inner(w);
    var body := Lexemes(inner) + (["}"] + rest);
    assert Lexemes(w) + rest == [s] + (["{"] + body) by { ScriptLexemes(w); }
    GroupCloses(inner, rest);
    RunStem(s, body, inner, rest, m);
    AttachNorm(w, m);
    DropPrev(rest, m, NormWord(w), Some(ScriptText(LastPart(s), inner)));
  }

  lemma RunStem(s: string, body: seq<Lexeme>, inner: string, rest: seq<Lexeme>, m: Machine)
    requires m.Valid() && PlainWord(s) && EndsInScript(s)
    requires Group(body, 1).0 == inner && Group(body, 1).1 == rest
    ensures m.Word(s).Valid() && m.Word(s).prev.Some?
    ensures Run([s] + (["{"] + body), m) == Run(rest, m.Word(s).Attach(inner))
  {
    RunPlain(s, ["{"] + body, m);
    LastPartKeepsEnd(s);
    RunGroup(m.Word(s), body, inner, rest);
  }

  lemma RunGroup(m: Machine, body: seq<Lexeme>, inner: string, rest: seq<Lexeme>)
    requires m.Valid() && TakesScript(m.prev) && Group(body, 1).0 == inner && Group(body, 1).1 == rest
    ensures Run(["{"] + body, m) == Run(rest, m.Attach(inner))
  {
    var tail: seq<Lexeme> := ["{"] + body;
    assert tail[1..] == body;
  }

  lemma AttachNorm(w: string, m: Machine)
    requires m.Valid() && ScriptShape(w) && !PlainWord(w)
    requires m.Word(Stem(w)).Valid() && m.Word(Stem(w)).prev.Some?
    ensures m.Word(Stem(w)).Attach(Inner(w)) ==
      Machine(m.below, m.top + NormWord(w), Some(ScriptText(LastPart(Stem(w)), Inner(w))))
  {
    var s := Stem(w);
    var top, leaf := m.top + WordLeaves(s), Leaf(ScriptText(LastPart(s), Inner(w)));
    assert top[..|top| - 1] + [leaf] == m.top + NormWord(w);
  }

  // ---------- The machine on whole lists ----------

  lemma ExtendedTwice(m: Machine, a: seq<Tree>, b: seq<Tree>)
    ensures Extended(Extended(m, a), b) == Extended(m, a + b)
  {
    assert m.top + a + b == m.top + (a + b);
  }

  lemma ExtendedByNone(m: Machine)
    ensures Extended(m, []) == Machine(m.below, m.top, None)
  {
    assert m.top + [] == m.top;
  }

  lemma SepIsLexeme(c: char)
    requires IsSep(c)
    ensures Lexemes([c]) == [[c]]
  {
    assert [c][1..] == "" && Lex("", "") == [];
  }

  lemma RunSeparator(w: string, rest: seq<Lexeme>, m: Machine)
    requires m.Valid() && (w == ":" || w == ";")
    ensures Run(Lexemes(w) + rest, m) == Run(rest, m.Word(w)) && NormWord(w) == WordLeaves(w)
  {
    SepIsLexeme(w[0]);
    assert w == [w[0]] && FirstBrace(w[1..]) == 0;
    assert ([w] + rest)[1..] == rest;
  }

  /** Any word a list can hold, also with a minus sign glued to it. */
  lemma RunWord(w: string, rest: seq<Lexeme>, m: Machine)
    requires m.Valid() && LexicalWord(w) && ClosedWord(w) && w != "," && NoBraceNext(rest)
    ensures Run(Lexemes(w) + rest, m) == Run(rest, Extended(m, NormWord(w)))
  {
    if PlainWord(w) {
      RunPlain(w, rest, m);
      DropPrev(rest, m, WordLeaves(w), Some(LastPart(w)));
    } else if ScriptShape(w) {
      RunScript(w, rest, m);
    } else {
      RunSeparator(w, rest, m);
      DropPrev(rest, m, WordLeaves(w), Some(LastPart(w)));
    }
  }

  lemma DropPrev(rest: seq<Lexeme>, m: Machine, items: seq<Tree>, prev: Option<string>)
    requires NoBraceNext(rest) && Machine(m.below, m.top + items, prev).Valid()
    ensures Run(rest, Machine(m.below, m.top + items, prev)) == Run(rest, Extended(m, items))
  {
    PrevIrrelevant(rest, Machine(m.below, m.top + items, prev));
  }

  lemma {:induction false} RunItem(item: Tree, rest: seq<Lexeme>, m: Machine)
    requires m.Valid() && LexicalItem(item) && ClosedItem(item) && NoBraceNext(rest)
    ensures Run(FlatItem(item) + rest, m) == Run(rest, Extended(m, NormItem(item)))
    decreases item, 2
  {
    match item
    case Leaf(w) =>
      if w == "," {
        SepIsLexeme(',');
        assert ([w] + rest)[1..] == rest;
      } else {
        RunWord(w, rest, m);
      }
    case Node(kids) =>
      RunFlat(kids, BEHIND + rest, m.Open());
      RunNode(Flat(kids), rest, m, Norm(kids));
  }

  const BEFORE: seq<Lexeme> := ["("]
  const BEHIND: seq<Lexeme> := [")"]

  lemma RunNode(body: seq<Lexeme>, rest: seq<Lexeme>, m: Machine, kids: seq<Tree>)
    requires m.Valid()
    requires Run(body + (BEHIND + rest), m.Open()) == Run(BEHIND + rest, Extended(m.Open(), kids))
    ensures Run(BEFORE + body + BEHIND + rest, m) == Run(rest, Extended(m, [Node(kids)]))
  {
    var tail := body + (BEHIND + rest);
    assert BEFORE + body + BEHIND + rest == BEFORE + tail;
    RunOpens(tail, m);
    NodeCloses(m, kids);
    RunCloses(rest, Extended(m.Open(), kids));
  }

  lemma RunOpens(tail: seq<Lexeme>, m: Machine)
    requires m.Valid()
    ensures Run(BEFORE + tail, m) == Run(tail, m.Open())
  {
    assert (BEFORE + tail)[0] == "(" && (BEFORE + tail)[1..] == tail;
  }

  lemma RunCloses(tail: seq<Lexeme>, m: Machine)
    requires m.Valid() && m.below != []
    ensures Run(BEHIND + tail, m) == Run(tail, m.Close())
  {
    assert (BEHIND + tail)[0] == ")" && (BEHIND + tail)[1..] == tail;
  }

  lemma NodeCloses(m: Machine, kids: seq<Tree>)
    ensures Extended(m.Open(), kids).below != []
    ensures Extended(m.Open(), kids).Close() == Extended(m, [Node(kids)])
  {
    assert [] + kids == kids;
    assert (m.below + [m.top])[..|m.below|] == m.below;
  }

  lemma FlatHasNoBrace(items: seq<Tree>, rest: seq<Lexeme>)
    requires Lexical(items) && NoBraceNext(rest)
    ensures NoBraceNext(FlatSeq(items) + rest)
  {
    if items != [] {
      assert FlatItem(items[0]) != [] && FlatItem(items[0])[0] != "{" by { ItemHasNoBrace(items[0]); }
      assert (FlatSeq(items) + rest)[0] == FlatItem(items[0])[0];
    } else {
      assert FlatSeq(items) + rest == rest;
    }
  }

  lemma ItemHasNoBrace(item: Tree)
    requires LexicalItem(item)
    ensures FlatItem(item) != [] && FlatItem(item)[0] != "{"
  {
    if item.Leaf? {
      var w := item.text;
      if PlainWord(w) {
        WordIsLexeme(w);
        assert IsPlain(w[0]);
      } else if ScriptShape(w) {
        ScriptLexemes(w);
        assert IsPlain(Stem(w)[0]);
      } else {
        SepIsLexeme(w[0]);
        assert w == [w[0]];
      }
    }
  }

  lemma {:induction false} RunSeq(items: seq<Tree>, rest: seq<Lexeme>, m: Machine)
    requires m.Valid() && Lexical(items) && Closed(items) && NoBraceNext(rest)
    ensures Run(FlatSeq(items) + rest, m) == Run(rest, Extended(m, NormSeq(items)))
    decreases items, 0
  {
    if items == [] {
      assert FlatSeq(items) + rest == rest;
      PrevIrrelevant(rest, m);
      ExtendedByNone(m);
    } else {
      var more := FlatSeq(items[1..]) + rest;
      assert FlatSeq(items) + rest == FlatItem(items[0]) + more;
      FlatHasNoBrace(items[1..], rest);
      RunItem(items[0], more, m);
      RunSeq(items[1..], rest, Extended(m, NormItem(items[0])));
      ExtendedTwice(m, NormItem(items[0]), NormSeq(items[1..]));
    }
  }

  lemma GluedIsLexical(w: string)
    requires LexicalWord(w) && ClosedWord(w) && IsPlain(w[0])
    ensures LexicalWord("-" + w) && ClosedWord("-" + w) && "-" + w != ","
  {
    var v := "-" + w;
    assert v[1..] == w;
    if PlainWord(w) {
      assert PlainWord(v);
    } else {
      assert FirstBrace(v) == 1 + FirstBrace(w);
      assert Stem(v) == "-" + Stem(w);
      assert Inner(v) == Inner(w);
      assert ScriptShape(v);
    }
  }

  lemma {:induction false} RunFlat(items: seq<Tree>, rest: seq<Lexeme>, m: Machine)
    requires m.Valid() && Lexical(items) && Closed(items) && NoBraceNext(rest)
    ensures Run(Flat(items) + rest, m) == Run(rest, Extended(m, Norm(items)))
    decreases items, 1
  {
    if Glues(items) {
      var w := "-" + items[1].text;
      assert Lexical(items[1..]) && items[1..][0] == items[1] && items[1..][1..] == items[2..];
      assert LexicalItem(items[1]) && ClosedItem(items[1]) && Closed(items[2..]);
      GluedIsLexical(items[1].text);
      var more := FlatSeq(items[2..]) + rest;
      assert Flat(items) + rest == Lexemes(w) + more;
      FlatHasNoBrace(items[2..], rest);
      RunWord(w, more, m);
      RunSeq(items[2..], rest, Extended(m, NormWord(w)));
      ExtendedTwice(m, NormWord(w), NormSeq(items[2..]));
    } else {
      RunSeq(items, rest, m);
    }
  }

  /** Tokenizing what the printer makes of a tree never fails and gives back the tree, with
      splittable words split, lone script symbols doubled and leading minus signs glued on. */
  lemma TokenizePrinted(items: seq<Tree>)
    requires Lexical(items) && Closed(items)
    ensures Tokenize(Reconstruct(items)) == Some(Norm(items))
  {
    PrintedLexemes(items);
    assert Flat(items) + [] == Flat(items);
    RunFlat(items, [], START);
    assert [] + Norm(items) == Norm(items);
  }

  // ---------- When the tree that comes back is the same ----------

  predicate NormalWord(w: string) {
    if ScriptShape(w) && !PlainWord(w) then !Splits(Stem(w)) && |Stem(w)| > 1 else !Splits(w)
  }

  predicate NormalItem(item: Tree)
    decreases item, 2
  {
    match item
    case Leaf(text) => text == "," || NormalWord(text)
    case Node(kids) => Normal(kids)
  }

  predicate NormalSeq(items: seq<Tree>)
    decreases items, 0
  {
    items == [] || (NormalItem(items[0]) && NormalSeq(items[1..]))
  }

  /** No word splits, no script symbol stands alone, and no list starts with a minus sign
      followed by a word. */
  predicate Normal(items: seq<Tree>)
    decreases items, 1
  {
    !Glues(items) && NormalSeq(items)
  }

  lemma ScriptTextShape(w: string)
    requires ScriptShape(w)
    ensures w == Stem(w) + "{" + Inner(w) + "}"
    ensures |Stem(w)| > 1 ==> ScriptText(Stem(w), Inner(w)) == w
    ensures |Stem(w)| == 1 ==> |ScriptText(Stem(w), Inner(w))| > |w|
  {
    FirstBraceIs(w);
    var s := Stem(w);
    assert w == s + "{" + Inner(w) + "}";
    if |s| > 1 {
      assert s[..|s| - 1] + [s[|s| - 1]] == s;
    }
  }

  lemma NormWordFixed(w: string)
    requires LexicalWord(w)
    ensures NormWord(w) != []
    ensures NormalWord(w) ==> NormWord(w) == [Leaf(w)]
    ensures !NormalWord(w) ==> NormWord(w)[0] != Leaf(w)
  {
    if ScriptShape(w) && !PlainWord(w) {
      ScriptTextShape(w);
    }
  }

  lemma GluedDiffers(w: string)
    requires w != ""
    ensures NormWord("-" + w) != [] && NormWord("-" + w)[0] != Leaf("-")
  {
    var v := "-" + w;
    if ScriptShape(v) && !PlainWord(v) {
      ScriptTextShape(v);
      assert Stem(v)[0] == v[0] == '-';
    }
  }

  lemma {:induction false} NormItemFixed(item: Tree)
    requires LexicalItem(item)
    ensures NormItem(item) != []
    ensures NormalItem(item) ==> NormItem(item) == [item]
    ensures !NormalItem(item) ==> NormItem(item)[0] != item
    decreases item, 2
  {
    match item
    case Leaf(w) => if w != "," { NormWordFixed(w); }
    case Node(kids) => NormFixed(kids);
  }

  lemma {:induction false} NormSeqFixed(items: seq<Tree>)
    requires Lexical(items)
    ensures NormSeq(items) == items <==> NormalSeq(items)
    decreases items, 0
  {
    if items != [] {
      NormItemFixed(items[0]);
      NormSeqFixed(items[1..]);
      assert items == [items[0]] + items[1..];
      if NormalItem(items[0]) {
        assert NormSeq(items)[1..] == NormSeq(items[1..]);
      } else {
        assert NormSeq(items)[0] == NormItem(items[0])[0];
      }
    }
  }

  lemma {:induction false} NormFixed(items: seq<Tree>)
    requires Lexical(items)
    ensures Norm(items) == items <==> Normal(items)
    decreases items, 1
  {
    if Glues(items) {
      GluedDiffers(items[1].text);
      assert Norm(items)[0] == NormWord("-" + items[1].text)[0];
    } else {
      NormSeqFixed(items);
    }
  }

  /** The printer is undone by the tokenizer exactly on the normal trees. */
  lemma InverseExactlyOnNormal(items: seq<Tree>)
    requires Lexical(items) && Closed(items)
    ensures Tokenize(Reconstruct(items)) == Some(items) <==> Normal(items)
  {
    TokenizePrinted(items);
    NormFixed(items);
  }
}
