/** What the tokenizer's output looks like for every input string: its words, when it exists at
    all, how its text relates to the input, and when printing it can be undone. */
module TokenizerOutput {
  import opened Options
  import opened Tokens
  import opened Printer
  import opened RoundTrip

  // ---------- Groups ----------

  lemma {:induction false} DepthThroughPlain(w: string, s: string, depth: nat)
    requires PlainText(w) && depth >= 1
    ensures DepthAtEnd(w + s, depth) == DepthAtEnd(s, depth)
  {
    if w == "" {
      assert w + s == s;
    } else {
      assert (w + s)[1..] == w[1..] + s && (w + s)[0] == w[0] && IsPlain(w[0]);
      DepthThroughPlain(w[1..], s, depth);
    }
  }

  function DepthAfterLexeme(t: string, depth: nat): int {
    if t == "{" then depth + 1 else if t == "}" then depth - 1 else depth
  }

  lemma DepthThroughLexeme(t: Lexeme, s: string, depth: nat)
    requires IsLexeme(t) && depth >= 1 && DepthAfterLexeme(t, depth) >= 1
    ensures DepthAtEnd(t + s, depth) == DepthAtEnd(s, DepthAfterLexeme(t, depth))
  {
    if PlainText(t) {
      assert IsPlain(t[0]);
      DepthThroughPlain(t, s, depth);
    } else {
      assert (t + s)[1..] == s && t == [t[0]];
    }
  }

  predicate AllLexemes(toks: seq<Lexeme>) {
    forall t :: t in toks ==> IsLexeme(t)
  }

  /** The text of a group: its braces match if the group was closed; otherwise the input ended. */
  lemma {:induction false} GroupText(toks: seq<Lexeme>, depth: nat)
    requires AllLexemes(toks) && depth >= 1
    ensures var r := Group(toks, depth);
      && SpaceFree(r.0) && AllLexemes(r.1) && DepthAtEnd(r.0, depth) >= 1
      && (if r.2 then DepthAtEnd(r.0, depth) == 1 else r.1 == [])
  {
    if toks != [] && !(toks[0] == "}" && depth == 1) {
      var t := toks[0];
      GroupText(toks[1..], DepthAfterLexeme(t, depth));
      DepthThroughLexeme(t, Group(toks[1..], DepthAfterLexeme(t, depth)).0, depth);
      assert SpaceFree(t);
    }
  }

  lemma {:induction false} FirstBraceAt(w: string, s: string)
    requires forall i :: 0 <= i < |w| ==> w[i] != '{'
    requires s != "" && s[0] == '{'
    ensures FirstBrace(w + s) == |w|
  {
    if w == "" {
      assert w + s == s;
    } else {
      assert (w + s)[1..] == w[1..] + s;
      FirstBraceAt(w[1..], s);
    }
  }

  function ScriptStem(p: string): string
    requires p != ""
  {
    (if |p| > 1 then p[..|p| - 1] else p) + [p[|p| - 1]]
  }

  lemma ScriptTextParts(p: string, inner: string)
    requires PlainWord(p)
    ensures var w := ScriptText(p, inner);
      FirstBrace(w) + 2 <= |w| && Stem(w) == ScriptStem(p) && Inner(w) == inner && w[|w| - 1] == '}'
  {
    var w, stem, back := ScriptText(p, inner), ScriptStem(p), "{" + inner + "}";
    assert w == stem + back;
    FirstBraceAt(stem, back);
    assert Stem(w) == stem;
    assert Inner(w) == inner;
  }

  // ---------- The words of the output ----------

  predicate LexicalMachine(m: Machine) {
    && Lexical(m.top) && Closed(m.top) && PrevPlain(m.prev)
    && forall i :: 0 <= i < |m.below| ==> Lexical(m.below[i]) && Closed(m.below[i])
  }

  predicate PrevPlain(p: Option<string>) {
    p.Some? && EndsInScript(p.value) ==> PlainWord(p.value)
  }

  lemma {:induction false} LexicalAppend(a: seq<Tree>, b: seq<Tree>)
    ensures Lexical(a + b) <==> Lexical(a) && Lexical(b)
    ensures Closed(a + b) <==> Closed(a) && Closed(b)
  {
    if a == [] {
      assert a + b == b;
    } else {
      assert (a + b)[1..] == a[1..] + b;
      LexicalAppend(a[1..], b);
    }
  }

  lemma OneLexical(item: Tree)
    ensures Lexical([item]) <==> LexicalItem(item)
    ensures Closed([item]) <==> ClosedItem(item)
  {
    assert [item][1..] == [];
  }

  lemma WordLeavesLexical(t: Lexeme)
    requires IsLexeme(t) && !Opens(t) && !Closes(t) && t != ","
    ensures Lexical(WordLeaves(t)) && Closed(WordLeaves(t)) && PrevPlain(Some(LastPart(t)))
  {
    if PlainText(t) {
      if Splits(t) {
        assert PlainWord(Coefficient(t)) && PlainWord(Remainder(t));
        OneLexical(Leaf(Coefficient(t)));
        OneLexical(Leaf(Remainder(t)));
        LexicalAppend([Leaf(Coefficient(t))], [Leaf(Remainder(t))]);
      } else {
        OneLexical(Leaf(t));
      }
    } else {
      assert t == [t[0]];
      OneLexical(Leaf(t));
    }
  }

  lemma WordKeepsLexical(t: Lexeme, m: Machine)
    requires LexicalMachine(m) && IsLexeme(t) && !Opens(t) && !Closes(t) && t != ","
    ensures LexicalMachine(m.Word(t))
  {
    WordLeavesLexical(t);
    LexicalAppend(m.top, WordLeaves(t));
  }

  lemma CommaKeepsLexical(m: Machine)
    requires LexicalMachine(m)
    ensures LexicalMachine(m.Comma())
  {
    OneLexical(Leaf(","));
    LexicalAppend(m.top, [Leaf(",")]);
  }

  lemma CloseKeepsLexical(m: Machine)
    requires LexicalMachine(m) && m.below != []
    ensures LexicalMachine(m.Close())
  {
    var n := |m.below| - 1;
    OneLexical(Node(m.top));
    LexicalAppend(m.below[n], [Node(m.top)]);
  }

  /** The last word swallowed the rest of the input and still has an inner brace open. */
  predicate OpenWord(w: string) {
    ScriptShape(w) && !PlainWord(w) && DepthAtEnd(Inner(w), 1) > 1
  }

  ghost predicate EndsOpen(items: seq<Tree>) {
    exists before, w :: items == before + [Leaf(w)] && Lexical(before) && Closed(before) && OpenWord(w)
  }

  lemma AttachedWord(p: string, inner: string)
    requires PlainWord(p) && EndsInScript(p) && SpaceFree(inner)
    ensures var w := ScriptText(p, inner);
      ScriptShape(w) && !PlainWord(w) && Inner(w) == inner && !EndsInScript(w)
  {
    var w := ScriptText(p, inner);
    ScriptTextParts(p, inner);
    FirstBraceIs(w);
    assert !IsPlain(w[FirstBrace(w)]);
  }

  /** The machine behind a script group: still lexical, or at the end of the input. */
  lemma AttachLexical(m: Machine, inner: string)
    requires m.Valid() && LexicalMachine(m) && TakesScript(m.prev)
    requires SpaceFree(inner) && DepthAtEnd(inner, 1) >= 1
    ensures var n := m.Attach(inner);
      Lexical(n.top) && if DepthAtEnd(inner, 1) == 1 then LexicalMachine(n) else EndsOpen(n.top)
  {
    var p, k := m.prev.value, |m.top| - 1;
    var before, w := m.top[..k], ScriptText(p, inner);
    assert before + [m.top[k]] == m.top;
    LexicalAppend(before, [m.top[k]]);
    AttachedWord(p, inner);
    ScriptAppended(before, w);
  }

  lemma ScriptAppended(before: seq<Tree>, w: string)
    requires Lexical(before) && Closed(before) && ScriptShape(w) && !PlainWord(w) && DepthAtEnd(Inner(w), 1) >= 1
    ensures Lexical(before + [Leaf(w)])
    ensures if DepthAtEnd(Inner(w), 1) == 1 then Closed(before + [Leaf(w)]) else EndsOpen(before + [Leaf(w)])
  {
    OneLexical(Leaf(w));
    LexicalAppend(before, [Leaf(w)]);
  }

  lemma {:induction false} RunOutput(toks: seq<Lexeme>, m: Machine)
    requires m.Valid() && LexicalMachine(m) && AllLexemes(toks)
    requires Run(toks, m).Some?
    ensures var items := Run(toks, m).value; Lexical(items) && (Closed(items) || EndsOpen(items))
    decreases |toks|
  {
    if toks != [] {
      var t, rest := toks[0], toks[1..];
      if t == "{" && TakesScript(m.prev) {
        var g := Group(rest, 1);
        GroupText(rest, 1);
        AttachLexical(m, g.0);
        if DepthAtEnd(g.0, 1) == 1 {
          RunOutput(g.1, m.Attach(g.0));
        }
      } else if Opens(t) {
        RunOutput(rest, m.Open());
      } else if Closes(t) {
        CloseKeepsLexical(m);
        RunOutput(rest, m.Close());
      } else if t == "," {
        CommaKeepsLexical(m);
        RunOutput(rest, m.Comma());
      } else {
        WordKeepsLexical(t, m);
        RunOutput(rest, m.Word(t));
      }
    }
  }

  lemma TokenizeOutput(s: string)
    requires Tokenize(s).Some?
    ensures var items := Tokenize(s).value; Lexical(items) && (Closed(items) || EndsOpen(items))
  {
    LexGivesLexemes("", s);
    RunOutput(Lexemes(s), START);
  }

  // ---------- When printing the output can be undone ----------

  lemma {:induction false} FlatSeqAppend(a: seq<Tree>, b: seq<Tree>)
    ensures FlatSeq(a + b) == FlatSeq(a) + FlatSeq(b)
  {
    if a == [] {
      assert a + b == b;
    } else {
      assert (a + b)[1..] == a[1..] + b;
      FlatSeqAppend(a[1..], b);
    }
  }

  /** The word of an open group gets a second closing brace. */
  lemma RunOpenWord(w: string, m: Machine)
    requires m.Valid() && m.below == []
    requires OpenWord(w)
    ensures Run(Lexemes(w), m).Some? && Run(Lexemes(w), m).value != []
    ensures var r := Run(Lexemes(w), m).value; r[|r| - 1] == Leaf(ScriptText(LastPart(Stem(w)), Inner(w) + "}"))
  {
    var s, inner := Stem(w), Inner(w);
    var close: seq<Lexeme> := ["}"];
    var body := Lexemes(inner) + close;
    assert Lexemes(w) == [s] + (["{"] + body) by { ScriptLexemes(w); }
    GroupReads("", inner, 1, close);
    GroupOpenAtEnd(DepthAtEnd(inner, 1));
    assert "" + inner + "}" == inner + "}";
    RunStem(s, body, inner + "}", [], m);
  }

  lemma GroupOpenAtEnd(depth: nat)
    requires depth > 1
    ensures Group(["}"], depth) == ("}", [], false)
  {
    var toks: seq<Lexeme> := ["}"];
    assert toks[1..] == [] && Group([], depth - 1) == ("", [], false);
    assert "}" + "" == "}";
  }

  lemma OpenTextDiffers(w: string, p: string)
    requires ScriptShape(w) && PlainWord(p)
    ensures ScriptText(p, Inner(w) + "}") != w
  {
    ScriptTextParts(p, Inner(w) + "}");
    ScriptTextShape(w);
  }

  lemma RunEndsOpen(before: seq<Tree>, w: string)
    requires Lexical(before) && Closed(before) && OpenWord(w)
    ensures var r := Run(Flat(before) + Lexemes(w), START);
      r.Some? && r.value != [] && r.value[|r.value| - 1] == Leaf(ScriptText(LastPart(Stem(w)), Inner(w) + "}"))
  {
    assert NoBraceNext(Lexemes(w)) by { ScriptLexemes(w); assert IsPlain(Stem(w)[0]); }
    RunFlat(before, Lexemes(w), START);
    RunOpenWord(w, Extended(START, Norm(before)));
  }

  lemma OpenPrinted(before: seq<Tree>, w: string)
    requires Lexical(before) && OpenWord(w)
    ensures Lexemes(Reconstruct(before + [Leaf(w)])) == Flat(before + [Leaf(w)])
  {
    OneLexical(Leaf(w));
    LexicalAppend(before, [Leaf(w)]);
    PrintedLexemes(before + [Leaf(w)]);
  }

  lemma OpenNeverReturns(before: seq<Tree>, w: string)
    requires Lexical(before) && Closed(before) && OpenWord(w)
    ensures Tokenize(Reconstruct(before + [Leaf(w)])) != Some(before + [Leaf(w)])
  {
    OpenPrinted(before, w);
    if before == [Leaf("-")] && IsPlain(w[0]) {
      OpenBehindMinus(w);
    } else {
      FlatLast(before, Leaf(w));
      RunEndsOpen(before, w);
      OpenTextDiffers(w, LastPart(Stem(w)));
    }
  }

  lemma FlatOne(item: Tree)
    ensures FlatSeq([item]) == FlatItem(item)
  {
    assert [item][1..] == [] && FlatItem(item) + [] == FlatItem(item);
  }

  lemma FlatLastGlued(before: seq<Tree>, last: Tree)
    requires Glues(before)
    ensures Flat(before + [last]) == Flat(before) + FlatItem(last)
  {
    var items := before + [last];
    assert items[0] == before[0] && items[1] == before[1];
    assert items[2..] == before[2..] + [last];
    FlatSeqAppend(before[2..], [last]);
    FlatOne(last);
  }

  lemma FlatLastPlain(before: seq<Tree>, last: Tree)
    requires !Glues(before) && !Glues(before + [last])
    ensures Flat(before + [last]) == Flat(before) + FlatItem(last)
  {
    FlatSeqAppend(before, [last]);
    FlatOne(last);
  }

  lemma FlatLast(before: seq<Tree>, last: Tree)
    requires !(before == [Leaf("-")] && Glues(before + [last]))
    ensures Flat(before + [last]) == Flat(before) + FlatItem(last)
  {
    var items := before + [last];
    if |before| >= 2 {
      assert items[0] == before[0] && items[1] == before[1];
    } else if |before| == 1 {
      assert items[0] == before[0];
    }
    if Glues(before) {
      FlatLastGlued(before, last);
    } else {
      FlatLastPlain(before, last);
    }
  }

  lemma OpenBehindMinus(w: string)
    requires OpenWord(w) && IsPlain(w[0])
    requires Lexemes(Reconstruct([Leaf("-")] + [Leaf(w)])) == Flat([Leaf("-")] + [Leaf(w)])
    ensures Tokenize(Reconstruct([Leaf("-")] + [Leaf(w)])) != Some([Leaf("-")] + [Leaf(w)])
  {
    FlatMinus(w);
    MinusScript(w);
    RunOpenWord("-" + w, START);
    OpenTextDiffers(w, LastPart("-" + Stem(w)));
  }

  lemma FlatMinus(w: string)
    requires w != "" && IsPlain(w[0])
    ensures Flat([Leaf("-")] + [Leaf(w)]) == Lexemes("-" + w)
  {
    var items := [Leaf("-")] + [Leaf(w)];
    assert items[2..] == [] && Lexemes("-" + w) + [] == Lexemes("-" + w);
  }

  lemma MinusScript(w: string)
    requires ScriptShape(w) && IsPlain(w[0])
    ensures ScriptShape("-" + w) && !PlainWord("-" + w) && Inner("-" + w) == Inner(w)
    ensures Stem("-" + w) == "-" + Stem(w)
  {
    var v := "-" + w;
    assert v[1..] == w;
    assert FirstBrace(v) == 1 + FirstBrace(w);
    assert Stem(v) == "-" + Stem(w);
    assert Inner(v) == Inner(w);
    FirstBraceIs(v);
    assert !IsPlain(v[FirstBrace(v)]);
  }

  /** For every input string: the printer is undone by the tokenizer exactly if no group ran
      into the end of the input with a brace inside it open, no word of the tree splits, no
      script symbol stands alone and no list starts with a minus sign and a word. */
  lemma InverseOnTokenized(s: string)
    requires Tokenize(s).Some?
    ensures var items := Tokenize(s).value;
      Tokenize(Reconstruct(items)) == Some(items) <==> Closed(items) && Normal(items)
  {
    var items := Tokenize(s).value;
    TokenizeOutput(s);
    if Closed(items) {
      InverseExactlyOnNormal(items);
    } else {
      var before, w :| items == before + [Leaf(w)] && Lexical(before) && Closed(before) && OpenWord(w);
      OpenNeverReturns(before, w);
    }
  }

  // ---------- When there is an output ----------

  /** Bracket depth, blind to the kind of the brackets and to everything inside script groups. */
  predicate Balanced(toks: seq<Lexeme>, depth: nat, script: bool)
    decreases |toks|
  {
    if toks == [] then depth == 0
    else if toks[0] == "{" && script then Balanced(Group(toks[1..], 1).1, depth, false)
    else if Opens(toks[0]) then Balanced(toks[1..], depth + 1, false)
    else if Closes(toks[0]) then depth > 0 && Balanced(toks[1..], depth - 1, false)
    else if toks[0] == "," then Balanced(toks[1..], depth, false)
    else Balanced(toks[1..], depth, EndsInScript(toks[0]))
  }

  lemma {:induction false} RunSucceeds(toks: seq<Lexeme>, m: Machine)
    requires m.Valid()
    ensures Run(toks, m).Some? <==> Balanced(toks, |m.below|, TakesScript(m.prev))
    decreases |toks|
  {
    if toks != [] {
      var t, rest := toks[0], toks[1..];
      if t == "{" && TakesScript(m.prev) {
        var g := Group(rest, 1);
        ScriptIsOver(m, g.0);
        RunSucceeds(g.1, m.Attach(g.0));
      } else if Opens(t) {
        RunSucceeds(rest, m.Open());
      } else if Closes(t) {
        if m.below != [] { RunSucceeds(rest, m.Close()); }
      } else if t == "," {
        RunSucceeds(rest, m.Comma());
      } else {
        WordReads(m, t);
        RunSucceeds(rest, m.Word(t));
      }
    }
  }

  lemma WordReads(m: Machine, t: Lexeme)
    ensures m.Word(t).Valid() && TakesScript(m.Word(t).prev) == EndsInScript(t)
  {
    LastPartKeepsEnd(t);
  }

  lemma ScriptIsOver(m: Machine, inner: string)
    requires m.Valid() && m.prev.Some?
    ensures !TakesScript(m.Attach(inner).prev)
  {
    var w := ScriptText(m.prev.value, inner);
    assert w[|w| - 1] == '}';
  }

  /** The tokenizer succeeds exactly on inputs whose outer bracket depth never falls below
      zero and ends at zero. */
  lemma SucceedsExactlyWhenBalanced(s: string)
    ensures Tokenize(s).Some? <==> Balanced(Lexemes(s), 0, false)
  {
    RunSucceeds(Lexemes(s), START);
  }

  // ---------- Which text the output holds ----------

  function SpellItem(item: Tree): string
    decreases item, 1
  {
    match item
    case Leaf(text) => text
    case Node(kids) => "(" + Spell(kids) + ")"
  }

  /** The text of a token tree, with round brackets around its lists. */
  function Spell(items: seq<Tree>): string
    decreases items, 0
  {
    if items == [] then "" else SpellItem(items[0]) + Spell(items[1..])
  }

  function SpellBelow(below: seq<seq<Tree>>): string {
    if below == [] then "" else SpellBelow(below[..|below| - 1]) + Spell(below[|below| - 1]) + "("
  }

  /** The text that the machine holds. */
  function SpellMachine(m: Machine): string {
    SpellBelow(m.below) + Spell(m.top)
  }

  lemma {:induction false} SpellAppend(a: seq<Tree>, b: seq<Tree>)
    ensures Spell(a + b) == Spell(a) + Spell(b)
  {
    if a == [] {
      assert a + b == b;
    } else {
      assert (a + b)[1..] == a[1..] + b;
      SpellAppend(a[1..], b);
    }
  }

  lemma SpellOne(item: Tree)
    ensures Spell([item]) == SpellItem(item)
  {
    assert [item][1..] == [] && SpellItem(item) + "" == SpellItem(item);
  }

  lemma SpellTop(m: Machine, more: seq<Tree>, p: Option<string>)
    ensures SpellMachine(Machine(m.below, m.top + more, p)) == SpellMachine(m) + Spell(more)
  {
    SpellAppend(m.top, more);
    Regroup(SpellBelow(m.below), Spell(m.top), Spell(more));
  }

  lemma Regroup(a: string, b: string, c: string)
    ensures a + b + c == a + (b + c)
  {
  }

  lemma SpellWord(m: Machine, t: Lexeme)
    ensures SpellMachine(m.Word(t)) == SpellMachine(m) + t
  {
    SpellTop(m, WordLeaves(t), Some(LastPart(t)));
    if Splits(t) {
      SpellAppend([Leaf(Coefficient(t))], [Leaf(Remainder(t))]);
      SpellOne(Leaf(Coefficient(t)));
      SpellOne(Leaf(Remainder(t)));
      assert [Leaf(Coefficient(t))] + [Leaf(Remainder(t))] == WordLeaves(t);
      assert Coefficient(t) + Remainder(t) == t;
    } else {
      SpellOne(Leaf(t));
    }
  }

  lemma SpellOpen(m: Machine)
    ensures SpellMachine(m.Open()) == SpellMachine(m) + "("
  {
    var below := m.below + [m.top];
    assert below[..|below| - 1] == m.below;
    assert SpellBelow(below) + "" == SpellBelow(below);
  }

  lemma SpellClose(m: Machine)
    requires m.below != []
    ensures SpellMachine(m.Close()) == SpellMachine(m) + ")"
  {
    var n := |m.below| - 1;
    var front := Machine(m.below[..n], m.below[n], None);
    SpellTop(front, [Node(m.top)], None);
    SpellOne(Node(m.top));
    assert SpellMachine(front) + ("(" + Spell(m.top) + ")") == SpellMachine(front) + "(" + Spell(m.top) + ")";
  }

  /** The symbol that a lone script symbol gains. */
  function Lone(p: string): string {
    if |p| == 1 then p else ""
  }

  lemma SpellAttach(m: Machine, inner: string)
    requires m.Valid() && m.prev.Some?
    ensures SpellMachine(m.Attach(inner)) == SpellMachine(m) + (Lone(m.prev.value) + "{" + inner + "}")
  {
    var p, k := m.prev.value, |m.top| - 1;
    var front, w := Machine(m.below, m.top[..k], None), ScriptText(p, inner);
    assert front.top + [Leaf(p)] == m.top;
    SpellTop(front, [Leaf(p)], m.prev);
    SpellTop(front, [Leaf(w)], Some(w));
    SpellOne(Leaf(p));
    SpellOne(Leaf(w));
    ScriptTextSpells(p, inner);
    Regroup(SpellMachine(front), p, Lone(p) + "{" + inner + "}");
  }

  lemma ScriptTextSpells(p: string, inner: string)
    requires p != ""
    ensures ScriptText(p, inner) == p + (Lone(p) + "{" + inner + "}")
  {
    var n := |p|;
    if n > 1 {
      assert p[..n - 1] + [p[n - 1]] == p;
      assert p + "{" + inner + "}" == p + ("" + "{" + inner + "}");
    } else {
      assert [p[n - 1]] == p;
      assert p + p + "{" + inner + "}" == p + (p + "{" + inner + "}");
    }
  }

  /** The text of the finished tree, `text` being what the machine holds now. */
  function Written(text: string, toks: seq<Lexeme>, prev: Option<string>): string
    decreases |toks|
  {
    if toks == [] then text
    else
      var t, rest := toks[0], toks[1..];
      if t == "{" && TakesScript(prev) then
        var g := Group(rest, 1);
        Written(text + (Lone(prev.value) + "{" + g.0 + "}"), g.1, None)
      else if Opens(t) then Written(text + "(", rest, None)
      else if Closes(t) then Written(text + ")", rest, None)
      else if t == "," then Written(text + t, rest, None)
      else Written(text + t, rest, Some(LastPart(t)))
  }

  lemma WrittenPrev(text: string, toks: seq<Lexeme>, p: Option<string>)
    requires !TakesScript(p)
    ensures Written(text, toks, p) == Written(text, toks, None)
  {
  }

  lemma {:induction false} RunSpells(toks: seq<Lexeme>, m: Machine)
    requires m.Valid() && Run(toks, m).Some?
    ensures Spell(Run(toks, m).value) == Written(SpellMachine(m), toks, m.prev)
    decreases |toks|
  {
    if toks != [] {
      var t, rest := toks[0], toks[1..];
      if t == "{" && TakesScript(m.prev) {
        var g := Group(rest, 1);
        var n := m.Attach(g.0);
        SpellAttach(m, g.0);
        RunSpells(g.1, n);
        ScriptIsOver(m, g.0);
        WrittenPrev(SpellMachine(n), g.1, n.prev);
      } else if Opens(t) {
        SpellOpen(m);
        RunSpells(rest, m.Open());
      } else if Closes(t) {
        SpellClose(m);
        RunSpells(rest, m.Close());
      } else if t == "," {
        SpellTop(m, [Leaf(",")], None);
        SpellOne(Leaf(","));
        RunSpells(rest, m.Comma());
      } else {
        SpellWord(m, t);
        RunSpells(rest, m.Word(t));
      }
    }
  }

  // ---------- The output holds the input's text ----------

  /** The input without white space and with its outer brackets made round, behind `text`. */
  function Rounded(text: string, toks: seq<Lexeme>, script: bool): string
    decreases |toks|
  {
    if toks == [] then text
    else
      var t, rest := toks[0], toks[1..];
      if t == "{" && script then
        var g := Group(rest, 1);
        Rounded(text + ("{" + g.0 + (if g.2 then "}" else "")), g.1, false)
      else if Opens(t) then Rounded(text + "(", rest, false)
      else if Closes(t) then Rounded(text + ")", rest, false)
      else Rounded(text + t, rest, EndsInScript(t))
  }

  /** The places where the machine adds a character: a lone script symbol is doubled, an
      unfinished group is closed. */
  function Defects(toks: seq<Lexeme>, prev: Option<string>): nat
    decreases |toks|
  {
    if toks == [] then 0
    else
      var t, rest := toks[0], toks[1..];
      if t == "{" && TakesScript(prev) then
        var g := Group(rest, 1);
        (if |prev.value| == 1 then 1 else 0) + (if g.2 then 0 else 1) + Defects(g.1, None)
      else if Opens(t) || Closes(t) || t == "," then Defects(rest, None)
      else Defects(rest, Some(LastPart(t)))
  }

  lemma {:induction false} WrittenIsRounded(a: string, b: string, toks: seq<Lexeme>, prev: Option<string>)
    ensures |Written(a, toks, prev)| + |b| == |Rounded(b, toks, TakesScript(prev))| + |a| + Defects(toks, prev)
    ensures a == b && Defects(toks, prev) == 0 ==> Written(a, toks, prev) == Rounded(b, toks, TakesScript(prev))
    decreases |toks|
  {
    if toks != [] {
      var t, rest := toks[0], toks[1..];
      if t == "{" && TakesScript(prev) {
        var g := Group(rest, 1);
        var w, r := Lone(prev.value) + "{" + g.0 + "}", "{" + g.0 + (if g.2 then "}" else "");
        if |prev.value| != 1 && g.2 { assert "" + "{" + g.0 + "}" == "{" + g.0 + "}"; }
        WrittenIsRounded(a + w, b + r, g.1, None);
      } else if Opens(t) {
        WrittenIsRounded(a + "(", b + "(", rest, None);
      } else if Closes(t) {
        WrittenIsRounded(a + ")", b + ")", rest, None);
      } else if t == "," {
        WrittenIsRounded(a + t, b + t, rest, None);
      } else {
        LastPartKeepsEnd(t);
        WrittenIsRounded(a + t, b + t, rest, Some(LastPart(t)));
      }
    }
  }

  /** Two characters that differ at most in the kind of bracket. */
  predicate SameButRound(a: char, b: char) {
    a == b || (IsOpener(a) && b == '(') || (IsCloser(a) && b == ')')
  }

  ghost predicate RoundsOnlyBrackets(a: string, b: string) {
    |a| == |b| && forall i :: 0 <= i < |a| ==> SameButRound(a[i], b[i])
  }

  lemma RoundsConcat(a: string, b: string, c: string, d: string)
    requires RoundsOnlyBrackets(a, b) && RoundsOnlyBrackets(c, d)
    ensures RoundsOnlyBrackets(a + c, b + d)
  {
  }

  lemma {:induction false} GroupConcat(toks: seq<Lexeme>, depth: nat)
    requires depth >= 1
    ensures var g := Group(toks, depth);
      Concat(toks) == g.0 + (if g.2 then "}" else "") + Concat(g.1)
  {
    if toks == [] {
    } else if toks[0] == "}" && depth == 1 {
      assert "" + "}" + Concat(toks[1..]) == Concat(toks);
    } else {
      var t, d := toks[0], DepthAfterLexeme(toks[0], depth);
      GroupConcat(toks[1..], d);
      var g := Group(toks[1..], d);
      Regroup4(t, g.0, if g.2 then "}" else "", Concat(g.1));
    }
  }

  lemma Regroup4(a: string, b: string, c: string, d: string)
    ensures a + (b + c + d) == (a + b) + c + d
  {
  }

  lemma GroupWhole(toks: seq<Lexeme>)
    requires toks != [] && toks[0] == "{"
    ensures var g := Group(toks[1..], 1);
      Concat(toks) == ("{" + g.0 + (if g.2 then "}" else "")) + Concat(g.1)
  {
    var g := Group(toks[1..], 1);
    var close := if g.2 then "}" else "";
    GroupConcat(toks[1..], 1);
    assert "{" + (g.0 + close + Concat(g.1)) == ("{" + g.0 + close) + Concat(g.1);
  }

  lemma {:induction false} RoundedRounds(a: string, b: string, toks: seq<Lexeme>, script: bool)
    requires RoundsOnlyBrackets(a, b)
    ensures RoundsOnlyBrackets(a + Concat(toks), Rounded(b, toks, script))
    decreases |toks|
  {
    if toks == [] {
      assert a + Concat(toks) == a;
    } else {
      var t, rest := toks[0], toks[1..];
      if t == "{" && script {
        var g := Group(rest, 1);
        var text := "{" + g.0 + (if g.2 then "}" else "");
        GroupWhole(toks);
        RoundsConcat(a, b, text, text);
        RoundedRounds(a + text, b + text, g.1, false);
        Regroup(a, text, Concat(g.1));
      } else {
        var r := if Opens(t) then "(" else if Closes(t) then ")" else t;
        RoundsConcat(a, b, t, r);
        RoundedRounds(a + t, b + r, rest, !Opens(t) && !Closes(t) && EndsInScript(t));
        Regroup(a, t, Concat(rest));
      }
    }
  }

  /** No character is lost, added or moved: the tree spells the input without its white space,
      outer brackets made round, exactly if there is no lone script symbol and no unfinished
      group; otherwise it is longer by one character for each of them. */
  lemma TextIsKept(s: string)
    requires Tokenize(s).Some?
    ensures var text, round := Spell(Tokenize(s).value), Rounded("", Lexemes(s), false);
      && RoundsOnlyBrackets(WithoutSpace(s), round)
      && |text| == |WithoutSpace(s)| + Defects(Lexemes(s), None)
      && (text == round <==> Defects(Lexemes(s), None) == 0)
  {
    var toks := Lexemes(s);
    RunSpells(toks, START);
    assert SpellMachine(START) == "";
    WrittenIsRounded("", "", toks, None);
    RoundedRounds("", "", toks, false);
    LexKeepsText("", s);
    assert "" + WithoutSpace(s) == WithoutSpace(s) && "" + Concat(toks) == Concat(toks);
  }
}
