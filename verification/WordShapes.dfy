/** Which words the tokenizer splits, and where, by the shape of the word; and what it makes of a
    word with a script group. */
module WordShapes {
  import opened Options
  import opened Chars
  import opened Tokens
  import opened Printer
  import opened RoundTrip

  predicate AllDigits(s: string) {
    forall i :: 0 <= i < |s| ==> IsDigit(s[i])
  }

  /** No digit comes next. */
  predicate DigitsEnd(r: string) {
    r == "" || !IsDigit(r[0])
  }

  ghost predicate DecimalParts(c: string, sign: string, whole: string, fraction: string) {
    && c == sign + whole + "." + fraction && (sign == "" || sign == "+" || sign == "-")
    && AllDigits(whole) && AllDigits(fraction) && fraction != ""
  }

  /** An optional sign, digits or none, a point and digits. */
  ghost predicate IsDecimal(c: string) {
    exists sign, whole, fraction :: DecimalParts(c, sign, whole, fraction)
  }

  ghost predicate StartsWithDecimal(w: string) {
    exists n :: 0 <= n <= |w| && IsDecimal(w[..n])
  }

  /** The word `c + r` has the coefficient `c`: the longest decimal at its front or, if it starts with
      none, its longest run of digits. */
  ghost predicate HasCoefficient(c: string, r: string) {
    DigitsEnd(r) && (IsDecimal(c) || (c != "" && AllDigits(c) && !StartsWithDecimal(c + r)))
  }

  // ---------- Runs of digits ----------

  lemma {:induction false} RunTaken(d: string, r: string)
    requires AllDigits(d)
    ensures DigitRun(d + r) >= |d|
    ensures DigitsEnd(r) ==> DigitRun(d + r) == |d|
  {
    if d == "" {
      assert d + r == r;
    } else {
      assert (d + r)[1..] == d[1..] + r;
      RunTaken(d[1..], r);
    }
  }

  lemma {:induction false} RunParts(s: string)
    ensures var n := DigitRun(s); n <= |s| && AllDigits(s[..n]) && DigitsEnd(s[n..])
  {
    if s != "" && IsDigit(s[0]) {
      RunParts(s[1..]);
      var n := DigitRun(s[1..]);
      assert s[n + 1..] == s[1..][n..];
      assert forall i :: 0 < i < n + 1 ==> s[i] == s[1..][..n][i - 1];
    }
  }

  // ---------- Decimals ----------

  function SignLength(w: string): nat {
    if w != "" && (w[0] == '-' || w[0] == '+') then 1 else 0
  }

  /** Where the point of a leading decimal would be. */
  function PointAt(w: string): (n: nat)
    ensures SignLength(w) <= n <= |w|
  {
    DigitRunBound(w[SignLength(w)..]);
    SignLength(w) + DigitRun(w[SignLength(w)..])
  }

  predicate FindsDecimal(w: string) {
    var point := PointAt(w);
    point < |w| && w[point] == '.' && DigitRun(w[point + 1..]) > 0
  }

  lemma LengthByCase(w: string)
    ensures CoefficientLength(w) == if FindsDecimal(w) then PointAt(w) + 1 + DigitRun(w[PointAt(w) + 1..]) else DigitRun(w)
  {
  }

  lemma SignIs(sign: string, rest: string)
    requires (sign == "" || sign == "+" || sign == "-") && rest != "" && (IsDigit(rest[0]) || rest[0] == '.')
    ensures SignLength(sign + rest) == |sign| && (sign + rest)[|sign|..] == rest
  {
    assert (sign + rest)[0] == if sign == "" then rest[0] else sign[0];
  }

  lemma PointIs(sign: string, whole: string, tail: string)
    requires (sign == "" || sign == "+" || sign == "-") && AllDigits(whole) && tail != "" && tail[0] == '.'
    ensures var w := sign + (whole + tail); PointAt(w) == |sign| + |whole| && w[PointAt(w)..] == tail
  {
    var w := sign + (whole + tail);
    SignIs(sign, whole + tail);
    RunTaken(whole, tail);
    assert w[|sign| + |whole|..] == (whole + tail)[|whole|..] == tail;
  }

  /** Where the parts of a decimal stand in a word that starts with it. */
  lemma DecimalFound(c: string, sign: string, whole: string, fraction: string, r: string)
    requires DecimalParts(c, sign, whole, fraction)
    ensures var w := c + r; PointAt(w) == |sign| + |whole| && FindsDecimal(w) && w[PointAt(w) + 1..] == fraction + r
  {
    var w, tail := c + r, "." + (fraction + r);
    assert w == sign + (whole + tail);
    PointIs(sign, whole, tail);
    assert w[PointAt(w)] == tail[0] && w[PointAt(w) + 1..] == tail[1..] == fraction + r;
    RunTaken(fraction, r);
  }

  lemma Sliced(w: string, sg: nat, point: nat, n: nat)
    requires sg <= point < n <= |w| && w[point] == '.'
    ensures w[..n] == w[..sg] + w[sg..point] + "." + w[point + 1..n]
  {
    assert w[..point] == w[..sg] + w[sg..point] && w[point..point + 1] == ".";
    assert w[..n] == w[..point] + w[point..point + 1] + w[point + 1..n];
  }

  lemma RunSlice(w: string, from: nat)
    requires from <= |w|
    ensures var n := DigitRun(w[from..]); from + n <= |w| && AllDigits(w[from..from + n]) && DigitsEnd(w[from + n..])
  {
    RunParts(w[from..]);
    var n := DigitRun(w[from..]);
    assert w[from..][..n] == w[from..from + n] && w[from..][n..] == w[from + n..];
  }

  lemma FoundIsDecimal(w: string)
    requires FindsDecimal(w)
    ensures var n := PointAt(w) + 1 + DigitRun(w[PointAt(w) + 1..]); n <= |w| && IsDecimal(w[..n]) && DigitsEnd(w[n..])
  {
    var sg, point := SignLength(w), PointAt(w);
    RunSlice(w, sg);
    RunSlice(w, point + 1);
    var n := point + 1 + DigitRun(w[point + 1..]);
    Sliced(w, sg, point, n);
    assert w[..sg] == "" || w[..sg] == "+" || w[..sg] == "-" by { assert sg == 1 ==> w[..sg] == [w[0]]; }
    assert DecimalParts(w[..n], w[..sg], w[sg..point], w[point + 1..n]);
  }

  lemma FindsExactly(w: string)
    ensures FindsDecimal(w) <==> StartsWithDecimal(w)
  {
    if FindsDecimal(w) {
      FoundIsDecimal(w);
    }
    if n :| 0 <= n <= |w| && IsDecimal(w[..n]) {
      var sign, whole, fraction :| DecimalParts(w[..n], sign, whole, fraction);
      DecimalFound(w[..n], sign, whole, fraction, w[n..]);
      assert w[..n] + w[n..] == w;
    }
  }

  // ---------- Words ----------

  lemma CoefficientIs(c: string, r: string)
    requires HasCoefficient(c, r)
    ensures CoefficientLength(c + r) == |c| > 0
  {
    var w := c + r;
    LengthByCase(w);
    FindsExactly(w);
    if IsDecimal(c) {
      var sign, whole, fraction :| DecimalParts(c, sign, whole, fraction);
      DecimalFound(c, sign, whole, fraction, r);
      RunTaken(fraction, r);
    } else {
      RunTaken(c, r);
    }
  }

  lemma CoefficientHas(w: string)
    requires CoefficientLength(w) > 0
    ensures HasCoefficient(Coefficient(w), Remainder(w))
  {
    var n := CoefficientLength(w);
    LengthByCase(w);
    FindsExactly(w);
    assert w[..n] + w[n..] == w;
    if FindsDecimal(w) {
      FoundIsDecimal(w);
    } else {
      RunParts(w);
    }
  }

  lemma SplitAt(c: string, r: string)
    requires r != "" && HasCoefficient(c, r)
    ensures WordLeaves(c + r) == [Leaf(c), Leaf(r)]
  {
    CoefficientIs(c, r);
    assert Coefficient(c + r) == c && Remainder(c + r) == r;
  }

  ghost predicate HasNone(w: string) {
    forall c, r :: w == c + r && r != "" ==> !HasCoefficient(c, r)
  }

  lemma NotSplit(w: string)
    requires HasNone(w)
    ensures WordLeaves(w) == [Leaf(w)]
  {
    if Splits(w) {
      assert w == Coefficient(w) + Remainder(w);
      CoefficientHas(w);
    }
  }

  /** A word with a coefficient and something behind it comes out as two leaves, the coefficient and the
      rest; every other word comes out as one leaf. */
  lemma WordsByShape(w: string)
    ensures forall c, r :: w == c + r && r != "" && HasCoefficient(c, r) ==> WordLeaves(w) == [Leaf(c), Leaf(r)]
    ensures HasNone(w) ==> WordLeaves(w) == [Leaf(w)]
  {
    forall c, r | w == c + r && r != "" && HasCoefficient(c, r) ensures WordLeaves(w) == [Leaf(c), Leaf(r)] {
      SplitAt(c, r);
    }
    if HasNone(w) {
      NotSplit(w);
    }
  }

  lemma TokenizeWord(w: string)
    requires LexicalWord(w) && ClosedWord(w) && w != ","
    ensures Tokenize(w) == Some(NormWord(w))
  {
    RunWord(w, [], START);
    assert Lexemes(w) + [] == Lexemes(w) && [] + NormWord(w) == NormWord(w);
  }

  /** So a text that is one word is tokenized. */
  lemma PlainWordsByShape(w: string)
    requires PlainWord(w)
    ensures forall c, r :: w == c + r && r != "" && HasCoefficient(c, r) ==> Tokenize(w) == Some([Leaf(c), Leaf(r)])
    ensures HasNone(w) ==> Tokenize(w) == Some([Leaf(w)])
  {
    assert IsPlain(w[0]);
    TokenizeWord(w);
    WordsByShape(w);
  }

  // ---------- Script groups ----------

  /** A lone symbol is written twice. */
  function Doubled(p: string): string {
    if |p| == 1 then p + p else p
  }

  lemma GroupShape(p: string, inner: string)
    requires PlainWord(p) && EndsInScript(p) && SpaceFree(inner)
    ensures var w := p + "{" + inner + "}"; ScriptShape(w) && !PlainWord(w) && Stem(w) == p && Inner(w) == inner
  {
    var w := p + "{" + inner + "}";
    assert w == p + ("{" + inner + "}");
    BraceBehind(p, "{" + inner + "}");
    assert !IsPlain(w[|p|]);
  }

  lemma {:induction false} BraceBehind(p: string, s: string)
    requires PlainText(p) && s != "" && s[0] == '{'
    ensures FirstBrace(p + s) == |p|
  {
    if p == "" {
      assert p + s == s;
    } else {
      assert (p + s)[1..] == p[1..] + s && IsPlain(p[0]);
      BraceBehind(p[1..], s);
    }
  }

  lemma ScriptTextIs(p: string, inner: string)
    requires p != ""
    ensures ScriptText(p, inner) == Doubled(p) + "{" + inner + "}"
  {
    if |p| > 1 {
      assert p[..|p| - 1] + [p[|p| - 1]] == p;
    } else {
      assert [p[|p| - 1]] == p;
    }
  }

  /** A group whose braces match stays in one leaf with the word before it, or with the rest of that word behind its
      coefficient, whatever separators and brackets the group holds. */
  lemma GroupsByShape(p: string, inner: string)
    requires PlainWord(p) && (p[|p| - 1] == '^' || p[|p| - 1] == '_') && SpaceFree(inner) && DepthAtEnd(inner, 1) == 1
    ensures var input := p + "{" + inner + "}";
      && (forall c, r :: p == c + r && r != "" && HasCoefficient(c, r) ==>
            Tokenize(input) == Some([Leaf(c), Leaf(Doubled(r) + "{" + inner + "}")]))
      && (HasNone(p) ==> Tokenize(input) == Some([Leaf(Doubled(p) + "{" + inner + "}")]))
  {
    var w := p + "{" + inner + "}";
    GroupShape(p, inner);
    assert |w| > 1;
    TokenizeWord(w);
    WordsByShape(p);
    ScriptTextIs(LastPart(p), inner);
    assert WordLeaves(p) == if Splits(p) then [Leaf(Coefficient(p)), Leaf(LastPart(p))] else [Leaf(LastPart(p))];
  }

  // ---------- Brackets ----------

  lemma BracketLexemes(p: string, o: char, x: string, c: char)
    requires PlainWord(p) && IsOpener(o) && IsCloser(c)
    ensures Lexemes(p + [o] + x + [c]) == [p] + ([[o]] + (Lexemes(x) + ([[c]] + [])))
  {
    assert p + [o] + x + [c] == p + [o] + (x + [c]) && x + [c] == x + [c] + "";
    LexSep("", p, o, x + [c]);
    LexSep("", x, c, "");
    WordIsLexeme(p);
    assert Lex("", "") == [];
    assert [p] + [[o]] + (Lexemes(x) + [[c]] + []) == [p] + ([[o]] + (Lexemes(x) + ([[c]] + [])));
  }

  lemma RunOpener(o: char, rest: seq<Lexeme>, m: Machine)
    requires m.Valid() && (o == '(' || o == '[' || o == '{') && !(o == '{' && TakesScript(m.prev))
    ensures Run([[o]] + rest, m) == Run(rest, m.Open())
  {
    assert ([[o]] + rest)[1..] == rest && ([[o]] + rest)[0] == [o];
  }

  lemma RunCloser(c: char, rest: seq<Lexeme>, m: Machine)
    requires m.Valid() && (c == ')' || c == ']' || c == '}') && m.below != []
    ensures Run([[c]] + rest, m) == Run(rest, m.Close())
  {
    assert ([[c]] + rest)[1..] == rest && ([[c]] + rest)[0] == [c];
  }

  lemma WordEnds(m: Machine, p: string)
    requires p != ""
    ensures TakesScript(m.Word(p).prev) <==> p[|p| - 1] == '^' || p[|p| - 1] == '_'
  {
    LastPartKeepsEnd(p);
  }

  lemma BracketsRun(p: string, o: char, items: seq<Tree>, c: char, m: Machine)
    requires PlainWord(p) && Lexical(items) && Closed(items) && m == START.Word(p)
    requires (o == '(' || o == '[' || o == '{') && (c == ')' || c == ']' || c == '}')
    requires o != '{' || (p[|p| - 1] != '^' && p[|p| - 1] != '_')
    ensures Run([[o]] + (Flat(items) + ([[c]] + [])), m) == Run([], Extended(m, [Node(Norm(items))]))
  {
    var close: seq<Lexeme> := [[c]] + [];
    WordEnds(START, p);
    RunOpener(o, Flat(items) + close, m);
    assert close[0] == [c] && [c] != "{";
    RunFlat(items, close, m.Open());
    NodeCloses(m, Norm(items));
    RunCloser(c, [], Extended(m.Open(), Norm(items)));
  }

  lemma RunEnds(p: string, items: seq<Tree>)
    ensures Run([], Extended(START.Word(p), items)) == Some(WordLeaves(p) + items)
  {
    assert [] + WordLeaves(p) == WordLeaves(p);
  }

  /** Brackets of all three kinds make a list, also when they do not fit together; only a brace behind a word that ends in a
      script symbol does not. */
  lemma BracketsMakeLists(p: string, o: char, items: seq<Tree>, c: char)
    requires PlainWord(p) && Lexical(items) && Closed(items)
    requires (o == '(' || o == '[' || o == '{') && (c == ')' || c == ']' || c == '}')
    requires o != '{' || (p[|p| - 1] != '^' && p[|p| - 1] != '_')
    ensures Tokenize(p + [o] + Reconstruct(items) + [c]) == Some(WordLeaves(p) + [Node(Norm(items))])
  {
    var toks: seq<Lexeme> := [[o]] + (Flat(items) + ([[c]] + []));
    BracketLexemes(p, o, Reconstruct(items), c);
    PrintedLexemes(items);
    assert Lexemes(p + [o] + Reconstruct(items) + [c]) == [p] + toks;
    RunPlain(p, toks, START);
    BracketsRun(p, o, items, c, START.Word(p));
    RunEnds(p, [Node(Norm(items))]);
  }

  lemma SepRun(c: char, rest: seq<Lexeme>, m: Machine)
    requires m.Valid() && (c == ',' || c == ':' || c == ';') && NoBraceNext(rest)
    ensures Run([[c]] + rest, m) == Run(rest, Extended(m, [Leaf([c])]))
  {
    var t: Lexeme := [c];
    assert ([t] + rest)[1..] == rest && ([t] + rest)[0] == t;
    if c != ',' {
      PrevIrrelevant(rest, m.Word(t));
    }
  }

  /** A comma, a colon or a semicolon stands alone, whether or not there are blanks around it. */
  lemma SeparatorsStandAlone(p: string, c: char, q: string)
    requires PlainWord(p) && PlainWord(q) && (c == ',' || c == ':' || c == ';')
    ensures Tokenize(p + [c] + q) == Some(WordLeaves(p) + [Leaf([c])] + WordLeaves(q))
  {
    var m, last: seq<Lexeme> := START.Word(p), [q];
    LexSep("", p, c, q);
    WordIsLexeme(p);
    WordIsLexeme(q);
    assert [p] + [[c]] + last == [p] + ([[c]] + last);
    RunPlain(p, [[c]] + last, START);
    assert IsPlain(q[0]);
    SepRun(c, last, m);
    assert last == last + [];
    RunPlain(q, [], Extended(m, [Leaf([c])]));
    assert [] + WordLeaves(p) == WordLeaves(p);
  }
}
