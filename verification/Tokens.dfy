/** Lexemes of a GeoGebra command and the stack machine that turns them into a token tree. */
module Tokens {
  import opened Options
  import opened Chars

  /** A nested token list: words and commas are leaves, bracket groups are nodes. */
  datatype Tree = Leaf(text: string) | Node(kids: seq<Tree>)

  // ---------- Characters ----------

  predicate IsOpener(c: char) { c == '(' || c == '[' || c == '{' }

  predicate IsCloser(c: char) { c == ')' || c == ']' || c == '}' }

  predicate IsSep(c: char) {
    IsOpener(c) || IsCloser(c) || c == ',' || c == ':' || c == ';'
  }

  predicate IsPlain(c: char) { !IsSep(c) && !IsSpace(c) }

  predicate PlainText(s: string) {
    forall i :: 0 <= i < |s| ==> IsPlain(s[i])
  }

  predicate SpaceFree(s: string) {
    forall i :: 0 <= i < |s| ==> !IsSpace(s[i])
  }

  // ---------- Lexemes ----------

  type Lexeme = t: string | t != "" witness ","

  function Flush(cur: string): seq<Lexeme> {
    if cur == "" then [] else [cur]
  }

  /** The lexemes of `s` when the word `cur` has been read just before it: single separator
      characters and maximal runs of other characters, white space dropped. */
  function Lex(cur: string, s: string): seq<Lexeme>
    decreases |s|
  {
    if s == "" then Flush(cur)
    else if IsSpace(s[0]) then Flush(cur) + Lex("", s[1..])
    else if IsSep(s[0]) then Flush(cur) + [[s[0]]] + Lex("", s[1..])
    else Lex(cur + [s[0]], s[1..])
  }

  function Lexemes(s: string): seq<Lexeme> {
    Lex("", s)
  }

  lemma {:induction false} LexSpace(cur: string, a: string, b: string)
    ensures Lex(cur, a + " " + b) == Lex(cur, a) + Lex("", b)
    decreases |a|
  {
    var s := a + " " + b;
    if a == "" {
      assert s[1..] == b;
    } else {
      assert s[1..] == a[1..] + " " + b;
      LexSpace(if IsPlain(a[0]) then cur + [a[0]] else "", a[1..], b);
    }
  }

  lemma {:induction false} LexSep(cur: string, a: string, c: char, b: string)
    requires IsSep(c)
    ensures Lex(cur, a + [c] + b) == Lex(cur, a) + [[c]] + Lex("", b)
    decreases |a|
  {
    var s := a + [c] + b;
    if a == "" {
      assert s[1..] == b;
    } else {
      assert s[1..] == a[1..] + [c] + b;
      if IsPlain(a[0]) {
        LexSep(cur + [a[0]], a[1..], c, b);
      } else {
        LexSep("", a[1..], c, b);
        var head: seq<Lexeme> := Flush(cur) + (if IsSep(a[0]) then [[a[0]]] else []);
        LexNonPlain(cur, s);
        LexNonPlain(cur, a);
        assert head + (Lex("", a[1..]) + [[c]] + Lex("", b)) == head + Lex("", a[1..]) + [[c]] + Lex("", b);
      }
    }
  }

  lemma LexNonPlain(cur: string, s: string)
    requires s != "" && !IsPlain(s[0])
    ensures Lex(cur, s) == Flush(cur) + (if IsSep(s[0]) then [[s[0]]] else []) + Lex("", s[1..])
  {
    assert Flush(cur) + [] == Flush(cur);
  }

  lemma {:induction false} LexPlain(cur: string, w: string, rest: string)
    requires PlainText(w)
    ensures Lex(cur, w + rest) == Lex(cur + w, rest)
    decreases |w|
  {
    if w == "" {
      assert w + rest == rest && cur + w == cur;
    } else {
      assert (w + rest)[1..] == w[1..] + rest;
      LexPlain(cur + [w[0]], w[1..], rest);
      assert cur + [w[0]] + w[1..] == cur + w;
    }
  }

  lemma WordIsLexeme(w: string)
    requires PlainText(w) && w != ""
    ensures Lexemes(w) == [w]
  {
    LexPlain("", w, "");
    assert w + "" == w && "" + w == w;
  }

  function Concat(ts: seq<Lexeme>): string {
    if ts == [] then "" else ts[0] + Concat(ts[1..])
  }

  function WithoutSpace(s: string): string {
    if s == "" then "" else (if IsSpace(s[0]) then "" else [s[0]]) + WithoutSpace(s[1..])
  }

  lemma {:induction false} ConcatAppend(a: seq<Lexeme>, b: seq<Lexeme>)
    ensures Concat(a + b) == Concat(a) + Concat(b)
  {
    if a == [] {
      assert a + b == b;
    } else {
      assert (a + b)[1..] == a[1..] + b;
      ConcatAppend(a[1..], b);
    }
  }

  /** Lexing drops white space and nothing else. */
  lemma {:induction false} LexKeepsText(cur: string, s: string)
    ensures Concat(Lex(cur, s)) == cur + WithoutSpace(s)
    decreases |s|
  {
    if s == "" {
    } else if IsPlain(s[0]) {
      LexKeepsText(cur + [s[0]], s[1..]);
    } else {
      LexKeepsText("", s[1..]);
      var head := Flush(cur) + (if IsSep(s[0]) then [[s[0]]] else []);
      assert Lex(cur, s) == head + Lex("", s[1..]);
      ConcatAppend(head, Lex("", s[1..]));
      assert Concat(head) == cur + (if IsSep(s[0]) then [s[0]] else "");
    }
  }

  /** A lexeme is one separator character or a word of plain characters. */
  predicate IsLexeme(t: string) {
    (|t| == 1 && IsSep(t[0])) || (t != "" && PlainText(t))
  }

  lemma {:induction false} LexGivesLexemes(cur: string, s: string)
    requires PlainText(cur)
    ensures forall t :: t in Lex(cur, s) ==> IsLexeme(t)
    decreases |s|
  {
    if s != "" {
      LexGivesLexemes(if IsPlain(s[0]) then cur + [s[0]] else "", s[1..]);
    }
  }

  // ---------- Coefficients ----------

  function DigitRun(s: string): nat {
    if s != "" && IsDigit(s[0]) then 1 + DigitRun(s[1..]) else 0
  }

  lemma {:induction false} DigitRunBound(s: string)
    ensures DigitRun(s) <= |s|
  {
    if s != "" && IsDigit(s[0]) { DigitRunBound(s[1..]); }
  }

  /** The length of the decimal that the coefficient pattern finds at the front of a word:
      an optionally signed number with a fraction, or else a run of digits; 0 for none. */
  function CoefficientLength(w: string): (n: nat)
    ensures n <= |w|
    ensures n > 0 && !IsDigit(w[0]) ==> n >= 2
  {
    var sign := if w != "" && (w[0] == '-' || w[0] == '+') then 1 else 0;
    DigitRunBound(w[sign..]);
    DigitRunBound(w);
    var point := sign + DigitRun(w[sign..]);
    if point < |w| && w[point] == '.' && DigitRun(w[point + 1..]) > 0 then
      DigitRunBound(w[point + 1..]);
      point + 1 + DigitRun(w[point + 1..])
    else DigitRun(w)
  }

  /** The word is an implicit product such as `2x`: a number with something behind it. */
  predicate Splits(w: string) {
    0 < CoefficientLength(w) < |w|
  }

  function Coefficient(w: string): string { w[..CoefficientLength(w)] }

  function Remainder(w: string): string { w[CoefficientLength(w)..] }

  function WordLeaves(w: string): seq<Tree> {
    if Splits(w) then [Leaf(Coefficient(w)), Leaf(Remainder(w))] else [Leaf(w)]
  }

  /** The word a following bracket sees. */
  function LastPart(w: string): string {
    if Splits(w) then Remainder(w) else w
  }

  // ---------- The machine ----------

  /** The innermost open list, the open lists around it (outermost first), and the word read
      last, if nothing came between.  A list joins its parent when it is closed. */
  datatype Machine = Machine(below: seq<seq<Tree>>, top: seq<Tree>, prev: Option<string>) {
    ghost predicate Valid() {
      prev.Some? ==> prev.value != "" && top != [] && top[|top| - 1] == Leaf(prev.value)
    }

    function Open(): Machine {
      Machine(below + [top], [], None)
    }

    function Close(): Machine
      requires below != []
    {
      var n := |below| - 1;
      Machine(below[..n], below[n] + [Node(top)], None)
    }

    function Comma(): Machine {
      Machine(below, top + [Leaf(",")], None)
    }

    function Word(w: string): Machine {
      Machine(below, top + WordLeaves(w), Some(LastPart(w)))
    }

    /** Hangs a sub- or superscript group on the last word.  A word that is only the symbol
        stays in front of it, so the symbol appears twice. */
    function Attach(inner: string): Machine
      requires Valid() && prev.Some?
    {
      var combined := ScriptText(prev.value, inner);
      Machine(below, top[..|top| - 1] + [Leaf(combined)], Some(combined))
    }
  }

  function ScriptText(p: string, inner: string): string
    requires p != ""
  {
    var n := |p|;
    (if n > 1 then p[..n - 1] else p) + [p[n - 1]] + "{" + inner + "}"
  }

  predicate EndsInScript(w: string) {
    w != "" && (w[|w| - 1] == '^' || w[|w| - 1] == '_')
  }

  predicate TakesScript(p: Option<string>) {
    p.Some? && EndsInScript(p.value)
  }

  /** The text of a script group up to its closing brace (or to the end of the input when the
      brace is missing), the lexemes behind it, and whether the brace was there. */
  function Group(toks: seq<Lexeme>, depth: nat): (r: (string, seq<Lexeme>, bool))
    ensures |r.1| <= |toks|
  {
    if depth == 0 then ("", toks, true)
    else if toks == [] then ("", [], false)
    else if toks[0] == "}" && depth == 1 then ("", toks[1..], true)
    else
      var r := Group(toks[1..], if toks[0] == "{" then depth + 1 else if toks[0] == "}" then depth - 1 else depth);
      (toks[0] + r.0, r.1, r.2)
  }

  predicate Opens(t: string) { t == "(" || t == "[" || t == "{" }

  predicate Closes(t: string) { t == ")" || t == "]" || t == "}" }

  /** What the machine makes of the remaining lexemes; `None` stands for the error about
      mismatched brackets. */
  function Run(toks: seq<Lexeme>, m: Machine): Option<seq<Tree>>
    requires m.Valid()
    decreases |toks|
  {
    if toks == [] then
      if m.below == [] then Some(m.top) else None
    else
      var t, rest := toks[0], toks[1..];
      if t == "{" && TakesScript(m.prev) then
        var g := Group(rest, 1);
        Run(g.1, m.Attach(g.0))
      else if Opens(t) then Run(rest, m.Open())
      else if Closes(t) then if m.below != [] then Run(rest, m.Close()) else None
      else if t == "," then Run(rest, m.Comma())
      else Run(rest, m.Word(t))
  }

  const START := Machine([], [], None)

  function Tokenize(s: string): Option<seq<Tree>> {
    Run(Lexemes(s), START)
  }
}
