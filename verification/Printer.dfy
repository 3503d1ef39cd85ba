/** The printer of token trees, and what tokenizing its output gives. */
module Printer {
  import opened Chars
  import opened Tokens

  // ---------- Printing ----------

  /** `" ".join` over the items of one list. */
  function Join(items: seq<Tree>): string
    decreases items, 0
  {
    if items == [] then ""
    else if |items| == 1 then ItemText(items[0])
    else ItemText(items[0]) + " " + Join(items[1..])
  }

  function ItemText(item: Tree): string
    decreases item, 2
  {
    match item
    case Leaf(text) => text
    case Node(kids) => "(" + Reconstruct(kids) + ")"
  }

  /** `str.replace(" , ", ", ")`. */
  function TightenCommas(s: string): string {
    if s == "" then ""
    else if |s| >= 3 && s[0] == ' ' && s[1] == ',' && s[2] == ' ' then ", " + TightenCommas(s[3..])
    else [s[0]] + TightenCommas(s[1..])
  }

  predicate IsOperator(c: char) { c == '+' || c == '-' || c == '*' || c == '/' }

  /** Removes the space before an opening bracket, unless an operator stands in front of it. */
  function TightenCalls(s: string): string {
    if s == "" then ""
    else if |s| >= 3 && !IsOperator(s[0]) && s[1] == ' ' && s[2] == '(' then [s[0], '('] + TightenCalls(s[3..])
    else [s[0]] + TightenCalls(s[1..])
  }

  /** Removes the space after a minus sign at the very front. */
  function TightenMinus(s: string): string {
    if |s| >= 2 && s[0] == '-' && s[1] == ' ' then "-" + s[2..] else s
  }

  function Reconstruct(items: seq<Tree>): string
    decreases items, 1
  {
    TightenMinus(TightenCalls(TightenCommas(Join(items))))
  }

  // ---------- The first two rewrites do not change the lexemes ----------

  function After(cur: string, c: char): string {
    if IsPlain(c) then cur + [c] else ""
  }

  /** The lexemes depend on what follows a character only through the lexemes of that. */
  lemma LexBehind(cur: string, c: char, a: string, b: string)
    requires Lex(After(cur, c), a) == Lex(After(cur, c), b)
    ensures Lex(cur, [c] + a) == Lex(cur, [c] + b)
  {
    assert ([c] + a)[1..] == a && ([c] + b)[1..] == b;
  }

  lemma LexSpaceBeforeSep(cur: string, c: char, r: string)
    requires IsSep(c)
    ensures Lex(cur, [' ', c] + r) == Lex(cur, [c] + r) == Flush(cur) + [[c]] + Lex("", r)
  {
    var x, rest := [c] + r, Lex("", r);
    var s := [' '] + x;
    assert s == [' ', c] + r && s[1..] == x && x[1..] == r;
    assert Lex("", x) == Flush("") + [[c]] + rest;
    assert Flush("") + [[c]] + rest == [[c]] + rest;
    assert Flush(cur) + ([[c]] + rest) == Flush(cur) + [[c]] + rest;
  }

  lemma {:induction false} CommasKeepLexemes(cur: string, s: string)
    ensures Lex(cur, TightenCommas(s)) == Lex(cur, s)
    decreases |s|
  {
    if s == "" {
    } else if |s| >= 3 && s[0] == ' ' && s[1] == ',' && s[2] == ' ' {
      var t := TightenCommas(s[3..]);
      CommasKeepLexemes("", s[3..]);
      LexBehind("", ' ', t, s[3..]);
      LexSpaceBeforeSep(cur, ',', [' '] + s[3..]);
      LexSpaceBeforeSep(cur, ',', [' '] + t);
      assert s == [' ', ','] + ([' '] + s[3..]) && ", " + t == [','] + ([' '] + t);
    } else {
      CommasKeepLexemes(After(cur, s[0]), s[1..]);
      LexBehind(cur, s[0], TightenCommas(s[1..]), s[1..]);
      assert s == [s[0]] + s[1..];
    }
  }

  lemma TightenedCall(cur: string, c: char, rest: string, t: string)
    requires Lex("", t) == Lex("", rest)
    ensures Lex(cur, [c, '('] + t) == Lex(cur, [c, ' ', '('] + rest)
  {
    LexSpaceBeforeSep(After(cur, c), '(', rest);
    LexSpaceBeforeSep(After(cur, c), '(', t);
    LexBehind(cur, c, ['('] + t, [' ', '('] + rest);
    assert [c, ' ', '('] + rest == [c] + ([' ', '('] + rest);
    assert [c, '('] + t == [c] + (['('] + t);
  }

  lemma {:induction false} CallsKeepLexemes(cur: string, s: string)
    ensures Lex(cur, TightenCalls(s)) == Lex(cur, s)
    decreases |s|
  {
    if s == "" {
    } else if |s| >= 3 && !IsOperator(s[0]) && s[1] == ' ' && s[2] == '(' {
      CallsKeepLexemes("", s[3..]);
      TightenedCall(cur, s[0], s[3..], TightenCalls(s[3..]));
      assert s == [s[0], ' ', '('] + s[3..];
    } else {
      CallsKeepLexemes(After(cur, s[0]), s[1..]);
      LexBehind(cur, s[0], TightenCalls(s[1..]), s[1..]);
      assert s == [s[0]] + s[1..];
    }
  }

  /** Both rewrites leave the first character alone, unless it is a space. */
  lemma FirstCharStays(s: string)
    ensures TightenCommas(s) == "" <==> s == ""
    ensures TightenCalls(s) == "" <==> s == ""
    ensures s != "" && s[0] != ' ' ==> TightenCommas(s)[0] == s[0]
    ensures s != "" ==> TightenCalls(s)[0] == s[0]
  {
  }

  // ---------- The third one may glue a word to the minus sign ----------

  /** The list starts with a minus sign that is followed by a word. */
  predicate Glues(items: seq<Tree>) {
    |items| >= 2 && items[0] == Leaf("-") && items[1].Leaf? && items[1].text != "" && IsPlain(items[1].text[0])
  }

  lemma MinusKeepsLexemes(s: string)
    requires |s| > 2 && s[0] == '-' && s[1] == ' ' ==> IsSep(s[2])
    ensures Lexemes(TightenMinus(s)) == Lexemes(s)
  {
    if |s| >= 2 && s[0] == '-' && s[1] == ' ' {
      var r := "-" + s[2..];
      assert r[1..] == s[2..] && s[1..][1..] == s[2..];
      assert "" + ['-'] == "-";
      assert Lexemes(s) == Lex("-", s[1..]) == ["-"] + Lex("", s[2..]);
      assert Lexemes(r) == Lex("-", s[2..]);
      if |s| > 2 {
        assert Lex("", s[2..]) == [[s[2]]] + Lex("", s[2..][1..]);
      }
    }
  }

  // ---------- Trees that lexing can produce ----------

  function FirstBrace(w: string): (k: nat)
    ensures k <= |w|
  {
    if w == "" || w[0] == '{' then 0 else 1 + FirstBrace(w[1..])
  }

  function Stem(w: string): string { w[..FirstBrace(w)] }

  function Inner(w: string): string
    requires FirstBrace(w) + 2 <= |w|
  {
    w[FirstBrace(w) + 1..|w| - 1]
  }

  /** A word with its sub- or superscript group, such as `C_{t}`. */
  predicate ScriptShape(w: string) {
    && 0 < FirstBrace(w) && FirstBrace(w) + 2 <= |w| && w[|w| - 1] == '}'
    && PlainText(Stem(w)) && EndsInScript(Stem(w)) && SpaceFree(Inner(w))
  }

  predicate PlainWord(w: string) { w != "" && PlainText(w) }

  predicate LexicalWord(w: string) {
    w == "," || w == ":" || w == ";" || PlainWord(w) || ScriptShape(w)
  }

  predicate LexicalItem(item: Tree)
    decreases item, 1
  {
    match item
    case Leaf(text) => LexicalWord(text)
    case Node(kids) => Lexical(kids)
  }

  predicate Lexical(items: seq<Tree>)
    decreases items, 0
  {
    items == [] || (LexicalItem(items[0]) && Lexical(items[1..]))
  }

  // ---------- The lexemes of a printed list ----------

  function FlatItem(item: Tree): seq<Lexeme>
    decreases item, 2
  {
    match item
    case Leaf(text) => Lexemes(text)
    case Node(kids) => ["("] + Flat(kids) + [")"]
  }

  function FlatSeq(items: seq<Tree>): seq<Lexeme>
    decreases items, 0
  {
    if items == [] then [] else FlatItem(items[0]) + FlatSeq(items[1..])
  }

  function Flat(items: seq<Tree>): seq<Lexeme>
    decreases items, 1
  {
    if Glues(items) then Lexemes("-" + items[1].text) + FlatSeq(items[2..]) else FlatSeq(items)
  }

  lemma BracketedLexemes(x: string)
    ensures Lexemes("(" + x + ")") == ["("] + Lexemes(x) + [")"]
  {
    assert "(" + x + ")" == "" + ['('] + (x + ")");
    LexSep("", "", '(', x + ")");
    assert x + ")" == x + [')'] + "";
    LexSep("", x, ')', "");
    assert Lex("", "") == [];
  }

  lemma {:induction false} ItemLexemes(item: Tree)
    requires LexicalItem(item)
    ensures Lexemes(ItemText(item)) == FlatItem(item)
    decreases item, 2
  {
    match item
    case Leaf(_) =>
    case Node(kids) =>
      PrintedLexemes(kids);
      BracketedLexemes(Reconstruct(kids));
  }

  lemma {:induction false} JoinLexemes(items: seq<Tree>)
    requires Lexical(items)
    ensures Lexemes(Join(items)) == FlatSeq(items)
    decreases items, 0
  {
    if items != [] {
      ItemLexemes(items[0]);
      JoinLexemes(items[1..]);
      if |items| == 1 {
        assert FlatSeq(items[1..]) == [];
      } else {
        LexSpace("", ItemText(items[0]), Join(items[1..]));
      }
    }
  }

  lemma {:induction false} PrintedLexemes(items: seq<Tree>)
    requires Lexical(items)
    ensures Lexemes(Reconstruct(items)) == Flat(items)
    decreases items, 1
  {
    var J := Join(items);
    if Glues(items) {
      assert Lexical(items[1..]) && items[1..][1..] == items[2..];
      JoinLexemes(items[2..]);
      GluedLexemes(items);
    } else {
      JoinLexemes(items);
      NotGlued(items);
      MinusKeepsLexemes(TightenCalls(TightenCommas(J)));
      CallsKeepLexemes("", TightenCommas(J));
      CommasKeepLexemes("", J);
    }
  }

  /** Behind a leading minus sign and a space, the first two rewrites go on independently
      unless a comma or another space follows. */
  lemma RewritesBehindMinus(x: string)
    requires x != "" && x[0] != ' ' && !(x[0] == ',' && |x| > 1 && x[1] == ' ')
    ensures TightenCalls(TightenCommas("- " + x)) == "- " + TightenCalls(TightenCommas(x))
  {
    var y := TightenCommas(x);
    FirstCharStays(x);
    MinusSpace(x);
    CommasBehindMinus(x);
    CallsBehindMinus(y);
    MinusSpace(TightenCalls(y));
  }

  lemma MinusSpace(x: string)
    ensures "- " + x == ['-'] + ([' '] + x)
  {
  }

  lemma CommasBehindMinus(x: string)
    requires !(|x| > 1 && x[0] == ',' && x[1] == ' ')
    ensures TightenCommas(['-'] + ([' '] + x)) == ['-'] + ([' '] + TightenCommas(x))
  {
    CommasStep(' ', x);
    CommasStep('-', [' '] + x);
  }

  lemma CallsBehindMinus(y: string)
    requires y != "" && y[0] != ' '
    ensures TightenCalls(['-'] + ([' '] + y)) == ['-'] + ([' '] + TightenCalls(y))
  {
    CallsStep(' ', y);
    CallsStep('-', [' '] + y);
  }

  lemma CommasStep(c: char, r: string)
    requires !(c == ' ' && |r| >= 2 && r[0] == ',' && r[1] == ' ')
    ensures TightenCommas([c] + r) == [c] + TightenCommas(r)
  {
    assert ([c] + r)[1..] == r;
  }

  lemma CallsStep(c: char, r: string)
    requires !(!IsOperator(c) && |r| >= 2 && r[0] == ' ' && r[1] == '(')
    ensures TightenCalls([c] + r) == [c] + TightenCalls(r)
  {
    assert ([c] + r)[1..] == r;
  }

  lemma JoinTwo(items: seq<Tree>)
    requires |items| >= 2
    ensures Join(items) == ItemText(items[0]) + " " + Join(items[1..])
    ensures Join(items[1..]) == ItemText(items[1]) + (if |items| == 2 then "" else " " + Join(items[2..]))
  {
    JoinHead(items[1..]);
    assert items[1..][1..] == items[2..];
  }

  lemma JoinHead(items: seq<Tree>)
    requires items != []
    ensures Join(items) == ItemText(items[0]) + (if |items| == 1 then "" else " " + Join(items[1..]))
  {
    if |items| > 1 {
      var a, b := ItemText(items[0]), Join(items[1..]);
      assert a + " " + b == a + (" " + b);
    } else {
      assert ItemText(items[0]) + "" == ItemText(items[0]);
    }
  }

  lemma GluedLexemes(items: seq<Tree>)
    requires Glues(items)
    requires Lexemes(Join(items[2..])) == FlatSeq(items[2..])
    ensures Lexemes(Reconstruct(items)) == Flat(items)
  {
    var w, x := items[1].text, Join(items[1..]);
    JoinTwo(items);
    assert Join(items) == "- " + x && x[0] == w[0];
    MinusJoins(x);
    MinusWord(x);
    assert Reconstruct(items) == "-" + TightenCalls(TightenCommas(x));
    if |items| == 2 {
      assert items[2..] == [] && x == w;
    } else {
      assert "-" + x == ("-" + w) + " " + Join(items[2..]);
      LexSpace("", "-" + w, Join(items[2..]));
    }
  }

  lemma MinusJoins(x: string)
    requires x != "" && IsPlain(x[0])
    ensures TightenMinus(TightenCalls(TightenCommas("- " + x))) == "-" + TightenCalls(TightenCommas(x))
  {
    RewritesBehindMinus(x);
    var z := TightenCalls(TightenCommas(x));
    assert ("- " + z)[2..] == z;
  }

  lemma MinusWord(x: string)
    ensures Lexemes("-" + TightenCalls(TightenCommas(x))) == Lexemes("-" + x)
  {
    var z := TightenCalls(TightenCommas(x));
    LexPlain("", "-", z);
    LexPlain("", "-", x);
    CallsKeepLexemes("-", TightenCommas(x));
    CommasKeepLexemes("-", x);
    assert "" + "-" == "-";
  }

  lemma WordHead(w: string)
    requires LexicalWord(w)
    ensures w != "" && !IsSpace(w[0]) && (|w| > 1 ==> w[1] != ' ')
  {
    if ScriptShape(w) && !PlainWord(w) {
      var k := FirstBrace(w);
      assert w[0] == Stem(w)[0];
      FirstBraceIs(w);
      if k > 1 { assert w[1] == Stem(w)[1]; }
    }
  }

  lemma {:induction false} FirstBraceIs(w: string)
    ensures FirstBrace(w) < |w| ==> w[FirstBrace(w)] == '{'
    ensures forall i :: 0 <= i < FirstBrace(w) ==> w[i] != '{'
  {
    if w != "" && w[0] != '{' { FirstBraceIs(w[1..]); }
  }

  /** After the first two rewrites, a list that does not glue has no word character behind
      a leading minus sign and space. */
  lemma NotGlued(items: seq<Tree>)
    requires Lexical(items) && !Glues(items)
    ensures var K := TightenCalls(TightenCommas(Join(items)));
      |K| > 2 && K[0] == '-' && K[1] == ' ' ==> IsSep(K[2])
  {
    if items != [] {
      var J, a := Join(items), ItemText(items[0]);
      if items[0].Leaf? { WordHead(a); }
      assert J[0] == a[0];
      FirstCharStays(J);
      FirstCharStays(TightenCommas(J));
      if a[0] == '-' {
        if |a| > 1 {
          SecondCharStays(J);
        } else if |items| > 1 {
          assert items[0] == Leaf("-");
          MinusAlone(items);
        }
      }
    }
  }

  lemma SecondCharStays(s: string)
    requires |s| > 1 && s[0] == '-' && s[1] != ' '
    ensures var K := TightenCalls(TightenCommas(s)); |K| > 1 && K[1] != ' '
  {
    var t := TightenCommas(s[1..]);
    FirstCharStays(s[1..]);
    assert TightenCommas(s) == ['-'] + t;
    FirstCharStays(t);
    CallsStep('-', t);
  }

  lemma MinusAlone(items: seq<Tree>)
    requires Lexical(items) && !Glues(items) && |items| > 1 && items[0] == Leaf("-")
    ensures var K := TightenCalls(TightenCommas(Join(items)));
      |K| > 2 && K[0] == '-' && K[1] == ' ' ==> IsSep(K[2])
  {
    var x, b := Join(items[1..]), ItemText(items[1]);
    assert Lexical(items[1..]) && items[1..][0] == items[1];
    assert LexicalItem(items[1]);
    JoinTwo(items);
    if items[1].Leaf? { WordHead(b); }
    assert x[0] == b[0] && IsSep(b[0]);
    assert Join(items) == "- " + x by { JoinTwo(items); }
    if x[0] == ',' && |x| > 1 && x[1] == ' ' {
      CommaBehindMinus(x);
    } else {
      RewritesBehindMinus(x);
      FirstCharStays(x);
      FirstCharStays(TightenCommas(x));
    }
  }

  lemma CommaBehindMinus(x: string)
    requires |x| > 1 && x[0] == ',' && x[1] == ' '
    ensures var K := TightenCalls(TightenCommas("- " + x)); |K| > 1 && K[1] != ' '
  {
    var s := [' '] + x;
    var t := [','] + ([' '] + TightenCommas(s[3..]));
    assert TightenCommas(s) == t;
    CommasStep('-', s);
    CallsStep('-', t);
    FirstCharStays(t);
    assert "- " + x == ['-'] + s;
  }
}
