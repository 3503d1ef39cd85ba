/** Object names in a construction table become numbered registers. */
module Registers {
  import opened Options
  import opened WordText
  import opened Chars

  // ---------- Numbers ----------

  function Decimal(n: nat): (r: string)
    ensures r != "" && forall c :: c in r ==> IsDigit(c)
  {
    var last := [(n % 10) as char + '0'];
    if n < 10 then last else Decimal(n / 10) + last
  }

  function DigitValue(c: char): nat {
    if IsDigit(c) then c as int - '0' as int else 0
  }

  function ValueOf(digits: string): nat {
    if digits == "" then 0 else 10 * ValueOf(digits[..|digits| - 1]) + DigitValue(digits[|digits| - 1])
  }

  lemma {:induction false} DecimalIsRead(n: nat)
    ensures ValueOf(Decimal(n)) == n
  {
    var r := Decimal(n);
    if n < 10 {
      assert r[..0] == "" && ValueOf("") == 0;
    } else {
      DecimalIsRead(n / 10);
      assert r[..|r| - 1] == Decimal(n / 10);
    }
  }

  function Register(k: nat): (r: string)
    ensures Word(r) && RegisterLike(r)
  {
    var digits := Decimal(k);
    assert forall i :: 0 <= i < |digits| ==> digits[i] in digits;
    "_" + digits
  }

  /** An underscore and digits. */
  predicate RegisterLike(w: string) {
    |w| > 1 && w[0] == '_' && forall i :: 1 <= i < |w| ==> IsDigit(w[i])
  }

  lemma RegistersDiffer(j: nat, k: nat)
    requires Register(j) == Register(k)
    ensures j == k
  {
    assert Decimal(j) == Register(j)[1..] && Decimal(k) == Register(k)[1..];
    DecimalIsRead(j);
    DecimalIsRead(k);
  }

  // ---------- Names ----------

  /** A word with any number of primes behind it. */
  predicate IsName(name: string) {
    WordRun(name) > 0 && name == name[..WordRun(name)] + Primes(|name| - WordRun(name))
  }

  /** A whole-name occurrence: the characters on both sides are no word characters. */
  function NamePattern(name: string, becomes: string): Pattern {
    Pattern(c => IsWordChar(c), (s: string) => if name <= s && AtBoundary(s[|name|..]) then |name| else 0, _ => becomes)
  }

  /** The name is this word with some of its primes, and no word comes at once. */
  predicate Hits(name: string, t: Token) {
    && |t.word| <= |name| <= |t.word| + t.primes
    && (t.glued ==> |name| < |t.word| + t.primes)
    && name == t.word + Primes(|name| - |t.word|)
  }

  function Renamed(name: string, word: string, t: Token): Token
    requires Hits(name, t)
  {
    t.(word := word, primes := t.primes - (|name| - |t.word|))
  }

  function RenameOne(name: string, word: string, t: Token): Token {
    if Hits(name, t) then Renamed(name, word, t) else t
  }

  /** Where the pattern for a name matches. */
  lemma NameMatches(name: string, becomes: string, t: Token, rest: string)
    requires IsName(name) && Word(t.word) && Follows(t.primes, t.glued, rest)
    ensures NamePattern(name, becomes).length(t.word + (Primes(t.primes) + rest)) == if Hits(name, t) then |name| else 0
  {
    var s := t.word + (Primes(t.primes) + rest);
    if Hits(name, t) {
      assert s == name + (Primes(t.primes - (|name| - |t.word|)) + rest);
      assert s[|name|..] == Primes(t.primes - (|name| - |t.word|)) + rest;
    } else if name <= s && AtBoundary(s[|name|..]) {
      MatchIsHit(name, t, rest, s[|name|..]);
    }
  }

  lemma MatchIsHit(name: string, t: Token, rest: string, tail: string)
    requires IsName(name) && Word(t.word) && Follows(t.primes, t.glued, rest) && AtBoundary(tail)
    requires name + tail == t.word + (Primes(t.primes) + rest)
    ensures Hits(name, t)
  {
    var m := WordRun(name);
    var w, k := name[..m], |name| - m;
    SameSplit(w, Primes(k) + tail, t.word, Primes(t.primes) + rest, name + tail);
    PrimesFit(k, tail, t.primes, t.glued, rest);
  }

  lemma SameSplit(a: string, b: string, c: string, d: string, s: string)
    requires AllWord(a) && AllWord(c) && AtBoundary(b) && AtBoundary(d) && s == a + b && s == c + d
    ensures a == c && b == d
  {
    WordRunIs(a, b);
    WordRunIs(c, d);
    assert s[..|a|] == a && s[..|c|] == c && s[|a|..] == b && s[|c|..] == d;
  }

  lemma PrimesFit(k: nat, tail: string, primes: nat, glued: bool, rest: string)
    requires Primes(k) + tail == Primes(primes) + rest && Follows(primes, glued, rest) && AtBoundary(tail)
    ensures k <= primes && (glued ==> k < primes)
  {
    var s := Primes(k) + tail;
    assert forall i :: 0 <= i < k ==> s[i] == '\'';
    assert primes < |s| ==> s[primes] == rest[0];
    assert k < |s| ==> s[k] == tail[0];
  }

  /** Replacing a name in a text replaces it in every token that it hits. */
  lemma {:induction false} SubName(name: string, becomes: string, f: Token -> string, quoted: bool, s: string)
    requires IsName(name) && forall t :: f(t) == RenameOne(name, becomes, t).Show()
    ensures Sub(NamePattern(name, becomes), false, s) == MapTokens(f, quoted, s)
    decreases |s|
  {
    var p := NamePattern(name, becomes);
    NameStartsWords(name, becomes);
    if s == "" {
    } else if AtBoundary(s) {
      SubName(name, becomes, f, s[0] == '\'', s[1..]);
      assert p.length(s) == 0;
    } else {
      var t := FirstToken(quoted, s);
      var rest := s[|t.word| + t.primes..];
      SubName(name, becomes, f, t.primes > 0, rest);
      SubNameToken(name, becomes, t, rest);
    }
  }

  lemma SubNameToken(name: string, becomes: string, t: Token, rest: string)
    requires IsName(name) && Sound(t) && Follows(t.primes, t.glued, rest)
    ensures Sub(NamePattern(name, becomes), false, t.Show() + rest) ==
      RenameOne(name, becomes, t).Show() + Sub(NamePattern(name, becomes), false, rest)
  {
    var p := NamePattern(name, becomes);
    NameStartsWords(name, becomes);
    NameMatches(name, becomes, t, rest);
    assert !p.blocks('\'');
    if Hits(name, t) {
      var k := |name| - |t.word|;
      ReplaceToken(p, t, k, rest);
      assert RenameOne(name, becomes, t).Show() == becomes + Primes(t.primes - k);
      assert p.becomes(t.word + Primes(k)) == becomes;
    } else {
      SkipToken(p, false, t, rest);
    }
  }

  lemma NameStartsWords(name: string, becomes: string)
    requires IsName(name)
    ensures StartsWords(NamePattern(name, becomes))
  {
    assert name[..WordRun(name)][0] == name[0];
  }

  // ---------- All names, one after the other ----------

  function SubAll(names: seq<string>, number: map<string, nat>, s: string): string
    decreases |names|
  {
    if names == [] then s
    else SubAll(names[1..], number, SubBy(names[0], number, s))
  }

  /** What this makes of one token. */
  function Chain(names: seq<string>, number: map<string, nat>, t: Token): Token
    decreases |names|
  {
    if names == [] then t
    else Chain(names[1..], number, RenameBy(names[0], number, t))
  }

  function RenameBy(name: string, number: map<string, nat>, t: Token): Token {
    if name in number then RenameOne(name, Register(number[name]), t) else t
  }

  lemma {:induction false} ChainReshapes(names: seq<string>, number: map<string, nat>, t: Token)
    requires Sound(t)
    ensures Reshapes(t, Chain(names, number, t))
    decreases |names|
  {
    if names != [] {
      ChainReshapes(names[1..], number, RenameBy(names[0], number, t));
    }
  }

  function SubBy(name: string, number: map<string, nat>, s: string): string {
    if name in number then Sub(NamePattern(name, Register(number[name])), false, s) else s
  }

  function ShowRenamed(name: string, number: map<string, nat>): Token -> string {
    t => RenameBy(name, number, t).Show()
  }

  function ShowChain(names: seq<string>, number: map<string, nat>): Token -> string {
    t => Chain(names, number, t).Show()
  }

  lemma SubByName(name: string, number: map<string, nat>, s: string)
    requires IsName(name)
    ensures SubBy(name, number, s) == MapTokens(ShowRenamed(name, number), false, s)
  {
    if name in number {
      SubName(name, Register(number[name]), ShowRenamed(name, number), false, s);
    } else {
      MapsIdentity(ShowRenamed(name, number), false, s);
    }
  }

  function OneRenaming(name: string, number: map<string, nat>): Token -> Token {
    t => RenameBy(name, number, t)
  }

  lemma RenamingRewrites(name: string, number: map<string, nat>)
    ensures Rewrites(OneRenaming(name, number), ShowRenamed(name, number))
  {
  }

  lemma ChainStep(names: seq<string>, number: map<string, nat>, t: Token)
    requires names != []
    ensures ShowChain(names, number)(t) == ShowChain(names[1..], number)(OneRenaming(names[0], number)(t))
  {
  }

  /** Replacing the names one after the other rewrites token by token. */
  lemma {:induction false} SubAllIsChain(names: seq<string>, number: map<string, nat>, s: string)
    requires forall name :: name in names ==> IsName(name)
    ensures SubAll(names, number, s) == MapTokens(ShowChain(names, number), false, s)
    decreases |names|
  {
    if names == [] {
      MapsIdentity(ShowChain(names, number), false, s);
    } else {
      var rest, once := names[1..], SubBy(names[0], number, s);
      SubAllIsChain(rest, number, once);
      assert SubAll(names, number, s) == SubAll(rest, number, once);
      ChainAfterOne(names, number, s);
    }
  }

  lemma ChainAfterOne(names: seq<string>, number: map<string, nat>, s: string)
    requires names != [] && IsName(names[0])
    ensures MapTokens(ShowChain(names[1..], number), false, SubBy(names[0], number, s)) == MapTokens(ShowChain(names, number), false, s)
  {
    var name := names[0];
    SubByName(name, number, s);
    RenamingRewrites(name, number);
    forall t | t in Tokens(false, s)
      ensures ShowChain(names, number)(t) == ShowChain(names[1..], number)(OneRenaming(name, number)(t))
    {
      ChainStep(names, number, t);
    }
    MapsCompose(OneRenaming(name, number), ShowRenamed(name, number), ShowChain(names[1..], number), ShowChain(names, number), false, s);
  }

  lemma {:induction false} MapsIdentity(f: Token -> string, quoted: bool, s: string)
    requires forall t :: f(t) == t.Show()
    ensures MapTokens(f, quoted, s) == s
    decreases |s|
  {
    if s != "" {
      if AtBoundary(s) {
        MapsIdentity(f, s[0] == '\'', s[1..]);
      } else {
        var t := FirstToken(quoted, s);
        MapsIdentity(f, t.primes > 0, s[|t.word| + t.primes..]);
      }
    }
  }

  // ---------- Longest names first is all names at once ----------

  /** How many of the token's primes a name may take. */
  function Room(t: Token): int {
    if t.glued then t.primes - 1 else t.primes
  }

  /** The most primes, up to `k`, with which the word is a name. */
  function Best(names: seq<string>, word: string, k: int): (r: Option<nat>)
    ensures r.Some? ==> r.value <= k
    decreases k
  {
    if k < 0 then None
    else if word + Primes(k) in names then Some(k)
    else Best(names, word, k - 1)
  }

  lemma {:induction false} BestIsName(names: seq<string>, word: string, k: int)
    ensures Best(names, word, k).Some? ==> word + Primes(Best(names, word, k).value) in names
    decreases k
  {
    if k >= 0 {
      BestIsName(names, word, k - 1);
    }
  }

  lemma {:induction false} BestIsLargest(names: seq<string>, word: string, k: int, q: nat)
    requires q <= k && word + Primes(q) in names
    ensures Best(names, word, k).Some? && q <= Best(names, word, k).value
    decreases k
  {
    if q < k {
      BestIsLargest(names, word, k - 1, q);
    }
  }

  /** The longest name that the token starts with becomes its register. */
  function AtOnce(names: seq<string>, number: map<string, nat>, t: Token): Token {
    match Best(names, t.word, Room(t))
    case None => t
    case Some(q) =>
      var name := t.word + Primes(q);
      if name in number then t.(word := Register(number[name]), primes := t.primes - q) else t
  }

  predicate Descending(names: seq<string>) {
    forall i, j :: 0 <= i < j < |names| ==> |names[i]| >= |names[j]|
  }

  /** The word and the number of primes of a name. */
  function WordOf(name: string): string {
    name[..WordRun(name)]
  }

  function PrimesOf(name: string): nat {
    |name| - WordRun(name)
  }

  lemma HitParts(name: string, t: Token)
    requires Hits(name, t) && Word(t.word)
    ensures WordOf(name) == t.word && PrimesOf(name) == |name| - |t.word|
  {
    WordRunIs(t.word, Primes(|name| - |t.word|));
  }

  /** The word of a name with more primes. */
  function Longer(name: string, r: nat): Token {
    Token(false, WordOf(name), PrimesOf(name) + r, false)
  }

  /** No longer name takes that word first. */
  predicate TakesFirst(names: seq<string>, name: string, r: nat) {
    var t := Longer(name, r);
    Best(names, t.word, Room(t)) == Some(PrimesOf(name))
  }

  /** What is written for name `i` is then taken for name `j`: some word becomes the register of `i` with as many
      primes left as `j` has, no longer name takes that word first, and `j` writes something else. */
  predicate Clash(names: seq<string>, number: map<string, nat>, i: nat, j: nat)
    requires i < |names| && j < |names|
  {
    names[i] in number && names[j] in number &&
    var register := Register(number[names[i]]);
    var r := |names[j]| - |register|;
    && r >= 0 && names[j] == register + Primes(r)
    && (r > 0 || number[names[j]] != number[names[i]])
    && TakesFirst(names, names[i], r)
  }

  /** No name clashes with a later one. */
  predicate NoClash(names: seq<string>, number: map<string, nat>) {
    forall i, j :: 0 <= i < j < |names| ==> !Clash(names, number, i, j)
  }

  predicate Distinct(names: seq<string>) {
    forall i, j :: 0 <= i < j < |names| ==> names[i] != names[j]
  }

  predicate AllNames(names: seq<string>, number: map<string, nat>) {
    forall name :: name in names ==> name in number && IsName(name)
  }

  // ---------- Chains, name by name ----------

  lemma {:induction false} ChainFixed(names: seq<string>, number: map<string, nat>, t: Token)
    requires forall i :: 0 <= i < |names| ==> RenameBy(names[i], number, t) == t
    ensures Chain(names, number, t) == t
    decreases |names|
  {
    if names != [] {
      assert RenameBy(names[0], number, t) == t;
      assert forall i :: 0 <= i < |names| - 1 ==> names[1..][i] == names[i + 1];
      ChainFixed(names[1..], number, t);
    }
  }

  lemma {:induction false} ChainSkips(names: seq<string>, number: map<string, nat>, t: Token, n: nat)
    requires n <= |names| && forall i :: 0 <= i < n ==> !Hits(names[i], t)
    ensures Chain(names, number, t) == Chain(names[n..], number, t)
    decreases n
  {
    if n == 0 {
      assert names[0..] == names;
    } else {
      assert !Hits(names[0], t) && RenameBy(names[0], number, t) == t;
      assert forall i :: 0 <= i < n - 1 ==> names[1..][i] == names[i + 1];
      ChainSkips(names[1..], number, t, n - 1);
      assert names[1..][n - 1..] == names[n..];
    }
  }

  lemma ChainAt(names: seq<string>, number: map<string, nat>, t: Token, i: nat)
    requires i < |names| && forall k :: 0 <= k < i ==> !Hits(names[k], t)
    ensures Chain(names, number, t) == Chain(names[i + 1..], number, RenameBy(names[i], number, t))
  {
    ChainSkips(names, number, t, i);
    assert names[i..][0] == names[i] && names[i..][1..] == names[i + 1..];
  }

  lemma {:induction false} ChainPrimes(names: seq<string>, number: map<string, nat>, t: Token)
    ensures Chain(names, number, t).primes <= t.primes
    ensures Chain(names, number, t).quoted == t.quoted && Chain(names, number, t).glued == t.glued
    decreases |names|
  {
    if names != [] {
      ChainPrimes(names[1..], number, RenameBy(names[0], number, t));
    }
  }

  // ---------- Without clashes ----------

  lemma {:induction false} BestShrinks(names: seq<string>, word: string, k: int, k': int)
    requires Best(names, word, k).Some? && Best(names, word, k).value <= k' <= k
    ensures Best(names, word, k') == Best(names, word, k)
    decreases k
  {
    if k' < k {
      BestShrinks(names, word, k - 1, k');
    }
  }

  lemma HitIsBounded(names: seq<string>, t: Token, i: nat)
    requires i < |names| && Hits(names[i], t)
    ensures Best(names, t.word, Room(t)).Some?
    ensures |names[i]| <= |t.word| + Best(names, t.word, Room(t)).value
  {
    var q := |names[i]| - |t.word|;
    assert names[i] == t.word + Primes(q);
    BestIsLargest(names, t.word, Room(t), q);
  }

  lemma EarlierMisses(names: seq<string>, t: Token, k: nat, i: nat)
    requires Descending(names) && Distinct(names) && Best(names, t.word, Room(t)).Some? && k < i < |names|
    requires names[i] == t.word + Primes(Best(names, t.word, Room(t)).value)
    ensures !Hits(names[k], t)
  {
    assert |names[k]| >= |names[i]| && names[k] != names[i];
    if Hits(names[k], t) {
      HitIsBounded(names, t, k);
    }
  }

  /** The place of the name that takes the token: no earlier name hits. */
  lemma BestPlace(names: seq<string>, t: Token) returns (i: nat)
    requires Descending(names) && Distinct(names) && Best(names, t.word, Room(t)).Some?
    ensures i < |names| && names[i] == t.word + Primes(Best(names, t.word, Room(t)).value)
    ensures forall k :: 0 <= k < i ==> !Hits(names[k], t)
  {
    BestIsName(names, t.word, Room(t));
    i :| 0 <= i < |names| && names[i] == t.word + Primes(Best(names, t.word, Room(t)).value);
    forall k | 0 <= k < i ensures !Hits(names[k], t) {
      EarlierMisses(names, t, k, i);
    }
  }

  lemma BestHits(names: seq<string>, t: Token)
    requires Best(names, t.word, Room(t)).Some?
    ensures Hits(t.word + Primes(Best(names, t.word, Room(t)).value), t)
  {
  }

  /** Behind name `i`, no name changes what was written for it. */
  lemma NothingTakesIt(names: seq<string>, number: map<string, nat>, t: Token, i: nat, j: nat)
    requires AllNames(names, number) && NoClash(names, number) && Sound(t) && i < j < |names|
    requires Hits(names[i], t) && Best(names, t.word, Room(t)) == Some(|names[i]| - |t.word|)
    ensures names[i] in number && RenameBy(names[j], number, RenameBy(names[i], number, t)) == RenameBy(names[i], number, t)
  {
    assert names[i] in names && names[j] in names;
    var u := RenameBy(names[i], number, t);
    if Hits(names[j], u) {
      var r := |names[j]| - |u.word|;
      HitParts(names[i], t);
      BestShrinks(names, t.word, Room(t), PrimesOf(names[i]) + r);
      assert !Clash(names, number, i, j);
      assert r == 0 && number[names[j]] == number[names[i]];
    }
  }

  lemma NoHitNoChange(names: seq<string>, number: map<string, nat>, t: Token)
    requires Best(names, t.word, Room(t)).None?
    ensures Chain(names, number, t) == t
  {
    forall i | 0 <= i < |names| ensures RenameBy(names[i], number, t) == t {
      if Hits(names[i], t) {
        HitIsBounded(names, t, i);
      }
    }
    ChainFixed(names, number, t);
  }

  lemma BestIsFinal(names: seq<string>, number: map<string, nat>, t: Token, i: nat)
    requires AllNames(names, number) && NoClash(names, number) && Sound(t) && i < |names|
    requires Hits(names[i], t) && Best(names, t.word, Room(t)) == Some(|names[i]| - |t.word|)
    ensures Chain(names[i + 1..], number, RenameBy(names[i], number, t)) == RenameBy(names[i], number, t)
  {
    var u, rest := RenameBy(names[i], number, t), names[i + 1..];
    forall k | 0 <= k < |rest| ensures RenameBy(rest[k], number, u) == u {
      NothingTakesIt(names, number, t, i, i + 1 + k);
    }
    ChainFixed(rest, number, u);
  }

  /** Without clashes, names that are replaced one after the other, longest first, are replaced all at once: what
      one replacement writes is not touched by a later one. */
  lemma ChainIsAtOnce(names: seq<string>, number: map<string, nat>, t: Token)
    requires Descending(names) && Distinct(names) && AllNames(names, number) && NoClash(names, number) && Sound(t)
    ensures Chain(names, number, t) == AtOnce(names, number, t)
  {
    if Best(names, t.word, Room(t)).None? {
      NoHitNoChange(names, number, t);
    } else {
      var i := BestPlace(names, t);
      BestHits(names, t);
      ChainAt(names, number, t, i);
      BestIsFinal(names, number, t, i);
      assert names[i] in names;
    }
  }

  // ---------- With clashes ----------

  lemma SuffixSorted(names: seq<string>, n: nat)
    requires Descending(names) && Distinct(names) && n <= |names|
    ensures Descending(names[n..]) && Distinct(names[n..])
  {
  }

  /** A name that is all of a token is the first one to take it. */
  lemma WholeHit(names: seq<string>, number: map<string, nat>, u: Token, n: nat)
    requires Descending(names) && Distinct(names) && n < |names| && names[n] in number && names[n] == u.Show() && !u.glued
    ensures Chain(names, number, u) == Chain(names[n + 1..], number, u.(word := Register(number[names[n]]), primes := 0))
  {
    forall k | 0 <= k < n ensures !Hits(names[k], u) {
      assert |names[k]| >= |names[n]| && names[k] != names[n];
    }
    ChainAt(names, number, u, n);
    assert Hits(names[n], u);
  }

  lemma BestTakes(names: seq<string>, number: map<string, nat>, t: Token, i: nat)
    requires Descending(names) && Distinct(names) && i < |names| && names[i] in number
    requires Best(names, t.word, Room(t)).Some? && names[i] == t.word + Primes(Best(names, t.word, Room(t)).value)
    ensures Chain(names, number, t) == Chain(names[i + 1..], number, AtOnce(names, number, t))
  {
    var k := BestPlace(names, t);
    assert k == i;
    BestHits(names, t);
    ChainAt(names, number, t, i);
  }

  /** The word on which a clash shows, and what is first written for it. */
  predicate ClashWord(names: seq<string>, number: map<string, nat>, i: nat, j: nat, t: Token, u: Token)
    requires i < |names| && j < |names|
  {
    && names[i] in number && |Register(number[names[i]])| <= |names[j]|
    && u == Token(false, Register(number[names[i]]), |names[j]| - |Register(number[names[i]])|, false)
    && t == Longer(names[i], u.primes)
  }

  lemma ClashNext(names: seq<string>, number: map<string, nat>, i: nat, j: nat, t: Token, u: Token)
    requires AllNames(names, number) && i < |names| && j < |names| && Clash(names, number, i, j)
    requires ClashWord(names, number, i, j, t, u)
    ensures names[j] == u.Show() && names[j] in number && TakesFirst(names, names[i], u.primes)
  {
  }

  lemma ClashAtOnce(names: seq<string>, number: map<string, nat>, i: nat, j: nat, t: Token, u: Token)
    requires AllNames(names, number) && i < |names| && j < |names| && ClashWord(names, number, i, j, t, u)
    requires TakesFirst(names, names[i], u.primes)
    ensures Sound(t) && AtOnce(names, number, t) == u
    ensures names[i] == t.word + Primes(Best(names, t.word, Room(t)).value)
  {
    assert names[i] in names && IsName(names[i]);
    NameParts(names[i]);
    AtOnceIs(names, number, t, names[i], PrimesOf(names[i]));
  }

  lemma NameParts(name: string)
    requires IsName(name)
    ensures Word(WordOf(name)) && name == WordOf(name) + Primes(PrimesOf(name))
  {
  }

  lemma AtOnceIs(names: seq<string>, number: map<string, nat>, t: Token, name: string, q: nat)
    requires Best(names, t.word, Room(t)) == Some(q) && name == t.word + Primes(q) && name in number
    ensures AtOnce(names, number, t) == t.(word := Register(number[name]), primes := t.primes - q)
  {
  }

  lemma ClashHits(names: seq<string>, number: map<string, nat>, i: nat, j: nat, t: Token, u: Token)
    requires Descending(names) && Distinct(names) && AllNames(names, number) && i < j < |names| && Clash(names, number, i, j)
    requires ClashWord(names, number, i, j, t, u)
    ensures names[j] in number
    ensures Chain(names, number, t) == Chain(names[j + 1..], number, u.(word := Register(number[names[j]]), primes := 0))
  {
    ClashNext(names, number, i, j, t, u);
    ClashAtOnce(names, number, i, j, t, u);
    BestTakes(names, number, t, i);
    SuffixSorted(names, i + 1);
    HitLater(names, number, i, j, u);
  }

  lemma HitLater(names: seq<string>, number: map<string, nat>, i: nat, j: nat, u: Token)
    requires i < j < |names| && Descending(names[i + 1..]) && Distinct(names[i + 1..])
    requires names[j] in number && names[j] == u.Show() && !u.glued
    ensures Chain(names[i + 1..], number, u) == Chain(names[j + 1..], number, u.(word := Register(number[names[j]]), primes := 0))
  {
    var rest := names[i + 1..];
    assert rest[j - i - 1] == names[j] && rest[j - i..] == names[j + 1..];
    WholeHit(rest, number, u, j - i - 1);
  }

  lemma RegisterNameDiffers(names: seq<string>, number: map<string, nat>, j: nat, u: Token)
    requires Descending(names) && Distinct(names) && AllNames(names, number) && j < |names|
    requires u == Token(false, names[j], 0, false)
    ensures names[j] in number
    ensures AtOnce(names, number, u) == u.(word := Register(number[names[j]]))
    ensures Chain(names, number, u) == Chain(names[j + 1..], number, u.(word := Register(number[names[j]])))
  {
    assert names[j] in names && names[j] + Primes(0) == names[j];
    assert Best(names, u.word, 0) == Some(0);
    BestTakes(names, number, u, j);
  }

  /** Every clash shows on some word. */
  lemma ClashShows(names: seq<string>, number: map<string, nat>, i: nat, j: nat) returns (t: Token)
    requires Descending(names) && Distinct(names) && AllNames(names, number) && i < j < |names| && Clash(names, number, i, j)
    ensures Sound(t) && !t.quoted && !t.glued && Chain(names, number, t) != AtOnce(names, number, t)
  {
    var u := Token(false, Register(number[names[i]]), |names[j]| - |Register(number[names[i]])|, false);
    t := Longer(names[i], u.primes);
    ClashNext(names, number, i, j, t, u);
    ClashAtOnce(names, number, i, j, t, u);
    ClashHits(names, number, i, j, t, u);
    ChainPrimes(names[j + 1..], number, u.(word := Register(number[names[j]]), primes := 0));
    if Chain(names, number, t) == u {
      assert u.primes == 0 && names[j] == u.word;
      RegisterNameDiffers(names, number, j, u);
      if Register(number[names[i]]) == Register(number[names[j]]) {
        RegistersDiffer(number[names[i]], number[names[j]]);
      }
      t := u;
    }
  }
}
