/** Text as words, primes and everything else, and regular-expression substitution of patterns
    that match at the start of a word. */
module WordText {
  import opened Chars

  predicate AllWord(s: string) {
    forall i :: 0 <= i < |s| ==> IsWordChar(s[i])
  }

  predicate Word(s: string) {
    s != "" && AllWord(s)
  }

  /** The next character, if any, is not a word character. */
  predicate AtBoundary(s: string) {
    s == "" || !IsWordChar(s[0])
  }

  function Primes(n: nat): (r: string)
    ensures |r| == n && forall i :: 0 <= i < n ==> r[i] == '\''
  {
    seq(n, _ => '\'')
  }

  function WordRun(s: string): (n: nat)
    ensures n <= |s| && AllWord(s[..n]) && AtBoundary(s[n..])
  {
    if AtBoundary(s) then 0 else
      assert forall i :: 0 < i <= WordRun(s[1..]) ==> s[i] == s[1..][..WordRun(s[1..])][i - 1];
      1 + WordRun(s[1..])
  }

  function PrimeRun(s: string): (n: nat)
    ensures n <= |s| && s[..n] == Primes(n) && (n < |s| ==> s[n] != '\'')
  {
    if s == "" || s[0] != '\'' then 0 else
      assert s[..1 + PrimeRun(s[1..])] == [s[0]] + s[1..][..PrimeRun(s[1..])];
      1 + PrimeRun(s[1..])
  }

  /** An occurrence of a word: the primes behind it, whether a prime stands directly before it, and
      whether a word follows the primes at once. */
  datatype Token = Token(quoted: bool, word: string, primes: nat, glued: bool) {
    function Show(): string {
      word + Primes(primes)
    }
  }

  predicate Sound(t: Token) {
    Word(t.word) && (t.glued ==> t.primes > 0)
  }

  /** What the text after a word and its primes looks like. */
  predicate Follows(primes: nat, glued: bool, rest: string) {
    && glued == !AtBoundary(rest)
    && (rest != "" ==> rest[0] != '\'')
    && (glued ==> primes > 0)
  }

  function FirstToken(quoted: bool, s: string): (t: Token)
    requires !AtBoundary(s)
    ensures Sound(t) && t.quoted == quoted && |t.word| + t.primes <= |s|
    ensures s == t.word + Primes(t.primes) + s[|t.word| + t.primes..]
    ensures Follows(t.primes, t.glued, s[|t.word| + t.primes..])
  {
    var n := WordRun(s);
    var k := PrimeRun(s[n..]);
    assert s[n..] == Primes(k) + s[n..][k..] && s[n..][k..] == s[n + k..];
    Token(quoted, s[..n], k, !AtBoundary(s[n + k..]))
  }

  function Tokens(quoted: bool, s: string): seq<Token>
    decreases |s|
  {
    if s == "" then []
    else if AtBoundary(s) then Tokens(s[0] == '\'', s[1..])
    else
      var t := FirstToken(quoted, s);
      [t] + Tokens(t.primes > 0, s[|t.word| + t.primes..])
  }

  /** Replaces every word with its primes. */
  function MapTokens(f: Token -> string, quoted: bool, s: string): string
    decreases |s|
  {
    if s == "" then ""
    else if AtBoundary(s) then [s[0]] + MapTokens(f, s[0] == '\'', s[1..])
    else
      var t := FirstToken(quoted, s);
      f(t) + MapTokens(f, t.primes > 0, s[|t.word| + t.primes..])
  }

  lemma {:induction false} MapsAgree(f: Token -> string, g: Token -> string, quoted: bool, s: string)
    requires forall t :: t in Tokens(quoted, s) ==> f(t) == g(t)
    ensures MapTokens(f, quoted, s) == MapTokens(g, quoted, s)
    decreases |s|
  {
    if s != "" {
      if AtBoundary(s) {
        MapsAgree(f, g, s[0] == '\'', s[1..]);
      } else {
        var t := FirstToken(quoted, s);
        assert t in Tokens(quoted, s);
        MapsAgree(f, g, t.primes > 0, s[|t.word| + t.primes..]);
      }
    }
  }

  lemma {:induction false} TokensAreWords(quoted: bool, s: string, t: Token)
    requires t in Tokens(quoted, s)
    ensures Sound(t)
    decreases |s|
  {
    if AtBoundary(s) {
      TokensAreWords(s[0] == '\'', s[1..], t);
    } else {
      var u := FirstToken(quoted, s);
      if t != u {
        TokensAreWords(u.primes > 0, s[|u.word| + u.primes..], t);
      }
    }
  }

  // ---------- Rewriting twice ----------

  /** A replacement that leaves a word, keeps what stands around it, and does not use up primes that
      separate it from the next word. */
  predicate Reshapes(t: Token, u: Token) {
    && Word(u.word) && u.quoted == t.quoted && u.glued == t.glued
    && (t.glued ==> u.primes > 0)
    && (u.primes > 0 ==> t.primes > 0)
  }

  lemma FirstTokenIs(t: Token, rest: string)
    requires Word(t.word) && Follows(t.primes, t.glued, rest)
    ensures var s := t.word + Primes(t.primes) + rest;
      !AtBoundary(s) && FirstToken(t.quoted, s) == t && s[|t.word| + t.primes..] == rest
  {
    var s, more := t.word + Primes(t.primes) + rest, Primes(t.primes) + rest;
    assert s == t.word + more;
    RunsAre(t.word, t.primes, rest, s);
    assert s[..|t.word|] == t.word && s[|t.word| + t.primes..] == rest;
  }

  lemma RunsAre(w: string, primes: nat, rest: string, s: string)
    requires Word(w) && s == w + (Primes(primes) + rest) && (primes == 0 ==> AtBoundary(rest)) && (rest != "" ==> rest[0] != '\'')
    ensures WordRun(s) == |w| && PrimeRun(s[|w|..]) == primes && !AtBoundary(s)
  {
    var more := Primes(primes) + rest;
    WordRunIs(w, more);
    PrimeRunIs(primes, rest);
    assert s[|w|..] == more && s[0] == w[0];
  }

  lemma {:induction false} WordRunIs(w: string, rest: string)
    requires AllWord(w) && AtBoundary(rest)
    ensures WordRun(w + rest) == |w|
  {
    if w == "" {
      assert w + rest == rest;
    } else {
      assert (w + rest)[1..] == w[1..] + rest;
      WordRunIs(w[1..], rest);
    }
  }

  lemma {:induction false} PrimeRunIs(n: nat, rest: string)
    requires rest == "" || rest[0] != '\''
    ensures PrimeRun(Primes(n) + rest) == n
  {
    if n == 0 {
      assert Primes(0) + rest == rest;
    } else {
      assert (Primes(n) + rest)[1..] == Primes(n - 1) + rest;
      PrimeRunIs(n - 1, rest);
    }
  }

  /** Every token becomes a token that fits in its place; `g` shows it. */
  ghost predicate Rewrites(h: Token -> Token, g: Token -> string) {
    forall t :: Sound(t) ==> Reshapes(t, h(t)) && g(t) == h(t).Show()
  }

  /** How a rewritten text starts: as the text itself starts. */
  lemma RewriteStarts(h: Token -> Token, g: Token -> string, quoted: bool, s: string)
    requires Rewrites(h, g)
    ensures var r := MapTokens(g, quoted, s);
      (s == "" <==> r == "") && (s != "" ==> IsWordChar(r[0]) == IsWordChar(s[0]) && (r[0] == '\'' <==> s[0] == '\''))
  {
    if s != "" && !AtBoundary(s) {
      var t := FirstToken(quoted, s);
      assert g(t)[0] == h(t).word[0] && IsWordChar(h(t).word[0]);
      assert t.word[0] == s[0];
    }
  }

  lemma MapFirst(f: Token -> string, t: Token, rest: string)
    requires Word(t.word) && Follows(t.primes, t.glued, rest)
    ensures MapTokens(f, t.quoted, t.Show() + rest) == f(t) + MapTokens(f, t.primes > 0, rest)
  {
    FirstTokenIs(t, rest);
  }

  /** Two rewritings in a row are one, token by token. */
  lemma {:induction false} MapsCompose(h: Token -> Token, g: Token -> string, f: Token -> string, k: Token -> string,
                                       quoted: bool, s: string)
    requires Rewrites(h, g) && forall t :: t in Tokens(quoted, s) ==> k(t) == f(h(t))
    ensures MapTokens(f, quoted, MapTokens(g, quoted, s)) == MapTokens(k, quoted, s)
    decreases |s|
  {
    if s == "" {
    } else if AtBoundary(s) {
      var rest := MapTokens(g, s[0] == '\'', s[1..]);
      MapsCompose(h, g, f, k, s[0] == '\'', s[1..]);
      assert MapTokens(g, quoted, s) == [s[0]] + rest;
      assert ([s[0]] + rest)[1..] == rest;
    } else {
      var t := FirstToken(quoted, s);
      var tail := s[|t.word| + t.primes..];
      assert t in Tokens(quoted, s);
      MapsCompose(h, g, f, k, t.primes > 0, tail);
      RewriteStarts(h, g, t.primes > 0, tail);
      ComposeFirst(f, t, h(t), MapTokens(g, t.primes > 0, tail));
    }
  }

  lemma ComposeFirst(f: Token -> string, t: Token, u: Token, rest: string)
    requires Sound(t) && Reshapes(t, u) && Follows(t.primes, t.glued, rest)
    ensures MapTokens(f, t.quoted, u.Show() + rest) == f(u) + MapTokens(f, t.primes > 0, rest)
  {
    MapFirst(f, u, rest);
    QuoteIrrelevant(f, u.primes > 0, t.primes > 0, rest);
  }

  /** Whether a prime stood before matters only to a word that comes at once. */
  lemma QuoteIrrelevant(f: Token -> string, q1: bool, q2: bool, s: string)
    requires AtBoundary(s) || q1 == q2
    ensures MapTokens(f, q1, s) == MapTokens(f, q2, s)
  {
  }

  // ---------- Substitution ----------

  /** A pattern with a lookbehind: the characters that must not stand before a match, the length of the
      match at the start of a text (0 for none), and what a match becomes. */
  datatype Pattern = Pattern(blocks: char -> bool, length: string -> nat, becomes: string -> string)

  /** `re.sub`: matches are taken from left to right. */
  function Sub(p: Pattern, blocked: bool, s: string): string
    decreases |s|
  {
    if s == "" then ""
    else
      var n := p.length(s);
      if !blocked && 0 < n <= |s| then p.becomes(s[..n]) + Sub(p, p.blocks(s[n - 1]), s[n..])
      else [s[0]] + Sub(p, p.blocks(s[0]), s[1..])
  }

  /** Matches start with a word character and never inside a word. */
  ghost predicate StartsWords(p: Pattern) {
    && (forall c :: IsWordChar(c) ==> p.blocks(c))
    && (forall s :: p.length(s) > 0 ==> !AtBoundary(s))
  }

  lemma {:induction false} SkipWord(p: Pattern, w: string, rest: string)
    requires StartsWords(p) && AllWord(w)
    ensures Sub(p, true, w + rest) == w + Sub(p, true, rest)
    decreases |w|
  {
    if w == "" {
      assert w + rest == rest;
    } else {
      assert (w + rest)[1..] == w[1..] + rest;
      SkipWord(p, w[1..], rest);
    }
  }

  lemma SkipOther(p: Pattern, blocked: bool, c: char, rest: string)
    requires StartsWords(p) && !IsWordChar(c)
    ensures Sub(p, blocked, [c] + rest) == [c] + Sub(p, p.blocks(c), rest)
  {
    var s := [c] + rest;
    assert s[0] == c && s[1..] == rest && AtBoundary(s);
  }

  lemma PrimesNext(n: nat, rest: string)
    requires n > 0
    ensures Primes(n) + rest == ['\''] + (Primes(n - 1) + rest)
  {
  }

  lemma {:induction false} SkipPrimes(p: Pattern, blocked: bool, n: nat, rest: string)
    requires StartsWords(p)
    ensures Sub(p, blocked, Primes(n) + rest) == Primes(n) + Sub(p, if n == 0 then blocked else p.blocks('\''), rest)
    decreases n
  {
    if n == 0 {
      assert Primes(0) + rest == rest;
    } else {
      PrimesNext(n, rest);
      SkipOther(p, blocked, '\'', Primes(n - 1) + rest);
      SkipPrimes(p, p.blocks('\''), n - 1, rest);
      PrimesNext(n, Sub(p, p.blocks('\''), rest));
    }
  }

  lemma BlockIrrelevant(p: Pattern, b1: bool, b2: bool, s: string)
    requires StartsWords(p) && (AtBoundary(s) || b1 == b2)
    ensures Sub(p, b1, s) == Sub(p, b2, s)
  {
  }

  lemma SkipHead(p: Pattern, blocked: bool, w: string, rest: string)
    requires StartsWords(p) && Word(w)
    requires blocked || p.length(w + rest) == 0
    ensures Sub(p, blocked, w + rest) == w + Sub(p, true, rest)
  {
    assert (w + rest)[0] == w[0] && (w + rest)[1..] == w[1..] + rest;
    SkipWord(p, w[1..], rest);
    assert [w[0]] + w[1..] == w;
  }

  lemma SkipPrimesOfToken(p: Pattern, blocked: bool, k: nat, primes: nat, glued: bool, rest: string)
    requires StartsWords(p) && k <= primes && Follows(primes, glued, rest) && (glued ==> k > 0)
    ensures Sub(p, blocked, Primes(k) + rest) == Primes(k) + Sub(p, primes > 0 && p.blocks('\''), rest)
  {
    SkipPrimes(p, blocked, k, rest);
    BlockIrrelevant(p, if k == 0 then blocked else p.blocks('\''), primes > 0 && p.blocks('\''), rest);
  }

  /** Substitution leaves this token alone. */
  lemma SkipToken(p: Pattern, blocked: bool, t: Token, rest: string)
    requires StartsWords(p) && Word(t.word) && Follows(t.primes, t.glued, rest)
    requires blocked || p.length(t.word + (Primes(t.primes) + rest)) == 0
    ensures Sub(p, blocked, t.word + Primes(t.primes) + rest) == t.Show() + Sub(p, t.primes > 0 && p.blocks('\''), rest)
  {
    var tail := Sub(p, t.primes > 0 && p.blocks('\''), rest);
    SkipHead(p, blocked, t.word, Primes(t.primes) + rest);
    SkipPrimesOfToken(p, true, t.primes, t.primes, t.glued, rest);
    Assoc(t.word, Primes(t.primes), rest);
    Assoc(t.word, Primes(t.primes), tail);
  }

  lemma Assoc(a: string, b: string, c: string)
    ensures a + b + c == a + (b + c)
  {
  }

  /** Substitution replaces the word and the first `k` primes of this token. */
  lemma ReplaceToken(p: Pattern, t: Token, k: nat, rest: string)
    requires StartsWords(p) && Word(t.word) && Follows(t.primes, t.glued, rest)
    requires k <= t.primes && (t.glued ==> k < t.primes)
    requires p.length(t.word + (Primes(t.primes) + rest)) == |t.word| + k
    ensures Sub(p, false, t.word + Primes(t.primes) + rest) ==
      p.becomes(t.word + Primes(k)) + Primes(t.primes - k) + Sub(p, t.primes > 0 && p.blocks('\''), rest)
  {
    var m, left := t.word + Primes(k), Primes(t.primes - k) + rest;
    Assoc(t.word, Primes(t.primes), rest);
    PrimesSplit(t.word, k, t.primes, rest);
    SubMatch(p, m, left);
    SkipPrimesOfToken(p, p.blocks(m[|m| - 1]), t.primes - k, t.primes, t.glued, rest);
    Assoc(p.becomes(m), Primes(t.primes - k), Sub(p, t.primes > 0 && p.blocks('\''), rest));
  }

  lemma PrimesSplit(w: string, k: nat, n: nat, rest: string)
    requires k <= n
    ensures w + Primes(n) + rest == (w + Primes(k)) + (Primes(n - k) + rest)
  {
  }

  lemma SubMatch(p: Pattern, m: string, rest: string)
    requires m != "" && p.length(m + rest) == |m|
    ensures Sub(p, false, m + rest) == p.becomes(m) + Sub(p, p.blocks(m[|m| - 1]), rest)
  {
    var s := m + rest;
    assert s[..|m|] == m && s[|m|..] == rest && s[|m| - 1] == m[|m| - 1];
  }
}
