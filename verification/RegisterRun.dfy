/** Running commands over registers: the labels that come back fill the registers. */
module RegisterRun {
  import opened Options
  import opened WordText
  import opened Registers
  import opened RegisterTable
  import opened Chars

  /** A register holds a label, or the report of an error as it prints. */
  datatype Entry = Label(text: string) | Report(shown: string)

  /** What the applet answers to one command. */
  datatype Reply =
    | Nothing
    | One(text: string)
    | Several(items: seq<Option<string>>)
    | Refused(shown: string)
    | Failed(shown: string)

  // ---------- Texts ----------

  predicate Blank(s: string) {
    forall i :: 0 <= i < |s| ==> IsSpace(s[i])
  }

  function Strip(s: string): string
    decreases |s|
  {
    if s == "" then "" else if IsSpace(s[0]) then Strip(s[1..])
    else if IsSpace(s[|s| - 1]) then Strip(s[..|s| - 1]) else s
  }

  /** The text up to the first comma. */
  function FirstPart(s: string): (r: string)
    ensures r <= s
  {
    if s == "" || s[0] == ',' then "" else [s[0]] + FirstPart(s[1..])
  }

  /** `[part.strip() for part in s.split(",")]`. */
  function Parts(s: string): seq<Entry>
    decreases |s|
  {
    var first := FirstPart(s);
    [Label(Strip(first))] + if |first| == |s| then [] else Parts(s[|first| + 1..])
  }

  /** Several labels in one text; a parenthesis makes it an expression. */
  predicate Packed(s: string) {
    ',' in s && '(' !in s && ')' !in s
  }

  function Stringify(e: Entry): string {
    match e
    case Label(text) => if Packed(text) then Strip(FirstPart(text)) else text
    case Report(shown) => shown
  }

  function Labels(items: seq<Option<string>>): seq<Entry>
    decreases |items|
  {
    if items == [] then []
    else (if items[0].None? then [] else [Label(items[0].value)]) + Labels(items[1..])
  }

  function Recorded(results: seq<Entry>, reply: Reply): seq<Entry> {
    match reply
    case Nothing => results
    case One(text) => results + if Packed(text) then Parts(text) else [Label(text)]
    case Several(items) => results + Labels(items)
    case Refused(shown) => [Report(shown)]
    case Failed(shown) => results + [Report(shown)]
  }

  // ---------- Reading registers ----------

  function DigitRun(s: string): (n: nat)
    ensures n <= |s| && (forall i :: 0 <= i < n ==> IsDigit(s[i])) && (n < |s| ==> !IsDigit(s[n]))
  {
    if s == "" || !IsDigit(s[0]) then 0 else 1 + DigitRun(s[1..])
  }

  function UnderscoreRun(s: string): (n: nat)
    ensures n <= |s| && (forall i :: 0 <= i < n ==> s[i] == '_') && (n < |s| ==> s[n] != '_')
  {
    if s == "" || s[0] != '_' then 0 else 1 + UnderscoreRun(s[1..])
  }

  /** How much of the text matches as a register: an underscore with digits or, failing that, a run of
      underscores, with no word character behind. */
  function RegisterLength(s: string): (n: nat)
    ensures n <= |s|
  {
    if s == "" || s[0] != '_' then 0
    else
      var digits := DigitRun(s[1..]);
      if digits > 0 && AtBoundary(s[1 + digits..]) then 1 + digits
      else
        var n := UnderscoreRun(s);
        if AtBoundary(s[n..]) then n else 0
  }

  /** `_3` is the third result, `__` the last but one; without such a result the text stays. */
  function Lookup(results: seq<Entry>, m: string): string {
    if RegisterLike(m) then
      var n := ValueOf(m[1..]);
      if 1 <= n <= |results| then Stringify(results[n - 1]) else m
    else if 1 <= |m| <= |results| then Stringify(results[|results| - |m|])
    else m
  }

  /** No word character and no prime may stand before a register. */
  function RegisterPattern(results: seq<Entry>): Pattern {
    Pattern(c => IsWordChar(c) || c == '\'', s => RegisterLength(s), m => Lookup(results, m))
  }

  function Substituted(results: seq<Entry>, cmd: string): string {
    Sub(RegisterPattern(results), false, cmd)
  }

  predicate ReadsAsRegister(w: string) {
    RegisterLike(w) || (w != "" && forall i :: 0 <= i < |w| ==> w[i] == '_')
  }

  function Resolve(results: seq<Entry>): Token -> string {
    (t: Token) => if !t.quoted && ReadsAsRegister(t.word) then Lookup(results, t.word) + Primes(t.primes) else t.Show()
  }

  lemma RegisterMatches(w: string, more: string)
    requires Word(w) && AtBoundary(more)
    ensures RegisterLength(w + more) == if ReadsAsRegister(w) then |w| else 0
  {
    var s := w + more;
    if w[0] == '_' {
      assert s[1..] == w[1..] + more;
      DigitsInWord(w[1..], more);
      UnderscoresInWord(w, more);
    }
  }

  lemma DigitsInWord(w: string, more: string)
    requires AllWord(w) && AtBoundary(more)
    ensures var n := DigitRun(w + more); n <= |w| && (AtBoundary((w + more)[n..]) <==> n == |w|)
    ensures DigitRun(w + more) == |w| <==> forall i :: 0 <= i < |w| ==> IsDigit(w[i])
  {
    var s, n := w + more, DigitRun(w + more);
    assert |w| < |s| ==> s[|w|] == more[0];
    assert n < |w| ==> s[n..][0] == w[n];
    assert n == |w| ==> s[n..] == more;
    assert forall i :: 0 <= i < |w| ==> s[i] == w[i];
  }

  lemma UnderscoresInWord(w: string, more: string)
    requires AllWord(w) && AtBoundary(more)
    ensures var n := UnderscoreRun(w + more); n <= |w| && (AtBoundary((w + more)[n..]) <==> n == |w|)
    ensures UnderscoreRun(w + more) == |w| <==> forall i :: 0 <= i < |w| ==> w[i] == '_'
  {
    var s, n := w + more, UnderscoreRun(w + more);
    assert |w| < |s| ==> s[|w|] == more[0];
    assert n < |w| ==> s[n..][0] == w[n];
    assert n == |w| ==> s[n..] == more;
    assert forall i :: 0 <= i < |w| ==> s[i] == w[i];
  }

  /** The pattern for registers, whatever they become, and what it makes of a token. */
  ghost predicate MatchesRegisters(p: Pattern, f: Token -> string) {
    && (forall c :: p.blocks(c) <==> IsWordChar(c) || c == '\'')
    && (forall s :: p.length(s) == RegisterLength(s))
    && (forall t :: f(t) == if !t.quoted && ReadsAsRegister(t.word) then p.becomes(t.word) + Primes(t.primes) else t.Show())
  }

  lemma {:induction false} SubTokens(p: Pattern, f: Token -> string, quoted: bool, s: string)
    requires MatchesRegisters(p, f)
    ensures Sub(p, quoted, s) == MapTokens(f, quoted, s)
    decreases |s|
  {
    if s == "" {
    } else if AtBoundary(s) {
      SubTokens(p, f, s[0] == '\'', s[1..]);
      assert p.blocks(s[0]) == (s[0] == '\'') && p.length(s) == 0;
    } else {
      var t := FirstToken(quoted, s);
      var rest := s[|t.word| + t.primes..];
      SubTokens(p, f, t.primes > 0, rest);
      SubOneToken(p, f, t, rest);
    }
  }

  lemma RegistersStartWords(p: Pattern, f: Token -> string)
    requires MatchesRegisters(p, f)
    ensures StartsWords(p) && p.blocks('\'')
  {
  }

  lemma RegisterTaken(p: Pattern, f: Token -> string, t: Token, rest: string)
    requires MatchesRegisters(p, f) && StartsWords(p) && p.blocks('\'') && Sound(t) && Follows(t.primes, t.glued, rest)
    requires !t.quoted && ReadsAsRegister(t.word) && p.length(t.word + (Primes(t.primes) + rest)) == |t.word|
    ensures Sub(p, false, t.Show() + rest) == f(t) + Sub(p, t.primes > 0, rest)
  {
    assert t.word + Primes(0) == t.word;
    ReplaceToken(p, t, 0, rest);
  }

  lemma OtherPassed(p: Pattern, f: Token -> string, t: Token, rest: string)
    requires MatchesRegisters(p, f) && StartsWords(p) && p.blocks('\'') && Sound(t) && Follows(t.primes, t.glued, rest)
    requires t.quoted || !ReadsAsRegister(t.word)
    requires t.quoted || p.length(t.word + (Primes(t.primes) + rest)) == 0
    ensures Sub(p, t.quoted, t.Show() + rest) == f(t) + Sub(p, t.primes > 0, rest)
  {
    SkipToken(p, t.quoted, t, rest);
  }

  lemma SubOneToken(p: Pattern, f: Token -> string, t: Token, rest: string)
    requires MatchesRegisters(p, f) && Sound(t) && Follows(t.primes, t.glued, rest)
    ensures Sub(p, t.quoted, t.Show() + rest) == f(t) + Sub(p, t.primes > 0, rest)
  {
    RegisterMatches(t.word, Primes(t.primes) + rest);
    RegistersStartWords(p, f);
    if !t.quoted && ReadsAsRegister(t.word) {
      RegisterTaken(p, f, t, rest);
    } else {
      OtherPassed(p, f, t, rest);
    }
  }

  /** Registers are substituted token by token. */
  lemma SubRegisters(results: seq<Entry>, s: string)
    ensures Substituted(results, s) == MapTokens(Resolve(results), false, s)
  {
    SubTokens(RegisterPattern(results), Resolve(results), false, s);
  }

  // ---------- The program ----------

  datatype RunState = RunState(sent: seq<string>, results: seq<Entry>, stopped: bool)

  function Sent(st: RunState, cmd: string, applet: nat -> Reply): RunState {
    if st.stopped || Blank(cmd) then st
    else
      var reply := applet(|st.sent|);
      RunState(st.sent + [Substituted(st.results, cmd)], Recorded(st.results, reply), reply.Refused?)
  }

  /** The commands in order; `applet` says what comes back for the command sent at each place. */
  function Ran(cmds: seq<string>, applet: nat -> Reply): RunState {
    if cmds == [] then RunState([], [], false)
    else Sent(Ran(cmds[..|cmds| - 1], applet), cmds[|cmds| - 1], applet)
  }

  lemma {:induction false} StoppedForGood(cmds: seq<string>, applet: nat -> Reply, n: nat)
    requires n <= |cmds| && Ran(cmds[..n], applet).stopped
    ensures Ran(cmds, applet) == Ran(cmds[..n], applet)
    decreases |cmds| - n
  {
    if n == |cmds| {
      assert cmds[..n] == cmds;
    } else {
      assert cmds[..n + 1][..n] == cmds[..n];
      StoppedForGood(cmds, applet, n + 1);
    }
  }

  method RunCommands(cmds: seq<string>, applet: nat -> Reply) returns (sent: seq<string>, results: seq<Entry>)
    ensures sent == Ran(cmds, applet).sent && results == Ran(cmds, applet).results
  {
    sent, results := [], [];
    for i := 0 to |cmds|
      invariant Ran(cmds[..i], applet) == RunState(sent, results, false)
    {
      assert cmds[..i + 1][..i] == cmds[..i];
      if Blank(cmds[i]) {
        continue;
      }
      var reply := applet(|sent|);
      sent := sent + [Substituted(results, cmds[i])];
      results := Recorded(results, reply);
      if reply.Refused? {
        StoppedForGood(cmds, applet, i + 1);
        return;
      }
    }
    assert cmds[..|cmds|] == cmds;
  }

  lemma RanMore(cmds: seq<string>, cmd: string, applet: nat -> Reply)
    ensures Ran(cmds + [cmd], applet) == Sent(Ran(cmds, applet), cmd, applet)
  {
    assert (cmds + [cmd])[..|cmds|] == cmds;
  }

  // ---------- One label for each command ----------

  lemma SilentMore(cmds: seq<string>, cmd: string, applet: nat -> Reply)
    ensures Ran(cmds + NonEmpty(cmd), applet) == Sent(Ran(cmds, applet), cmd, applet)
  {
    if cmd == "" {
      assert cmds + NonEmpty(cmd) == cmds;
    } else {
      RanMore(cmds, cmd, applet);
    }
  }

  lemma RanAs(cmds: seq<string>, cmd: string, applet: nat -> Reply, st: RunState)
    requires Ran(cmds, applet) == st
    ensures Ran(cmds + NonEmpty(cmd), applet) == Sent(st, cmd, applet)
  {
    SilentMore(cmds, cmd, applet);
  }

  lemma WithoutEmptyNext(texts: seq<string>, n: nat)
    requires 0 < n <= |texts|
    ensures WithoutEmpty(texts, n) == WithoutEmpty(texts, n - 1) + NonEmpty(texts[n - 1])
  {
  }

  /** How many of the first `n` flags are set. */
  function Count(flags: seq<bool>, n: nat): (r: nat)
    requires n <= |flags|
    ensures r <= n
  {
    if n == 0 then 0 else Count(flags, n - 1) + if flags[n - 1] then 1 else 0
  }

  lemma {:induction false} CountGrows(flags: seq<bool>, i: nat, j: nat)
    requires i <= j <= |flags|
    ensures Count(flags, i) <= Count(flags, j)
    decreases j
  {
    if i < j {
      CountGrows(flags, i, j - 1);
    }
  }

  lemma CountPlaces(flags: seq<bool>, k: nat, j: nat)
    requires k < j <= |flags| && flags[k]
    ensures Count(flags, k + 1) == Count(flags, k) + 1 <= Count(flags, j) <= Count(flags, |flags|)
  {
    CountGrows(flags, k + 1, j);
    CountGrows(flags, j, |flags|);
  }

  lemma {:induction false} CountAll(flags: seq<bool>, n: nat)
    requires n <= |flags|
    ensures Count(flags, n) == n <==> forall i :: 0 <= i < n ==> flags[i]
  {
    if n > 0 {
      CountAll(flags, n - 1);
    }
  }

  /** The items whose flags are set, among the first `n`. */
  function Picked(flags: seq<bool>, items: seq<string>, n: nat): (r: seq<string>)
    requires n <= |flags| == |items|
    ensures |r| == Count(flags, n)
  {
    if n == 0 then [] else Picked(flags, items, n - 1) + if flags[n - 1] then [items[n - 1]] else []
  }

  lemma {:induction false} PickedAt(flags: seq<bool>, items: seq<string>, j: nat, n: nat)
    requires j < n <= |flags| == |items| && flags[j]
    ensures Count(flags, j) < Count(flags, n) && Picked(flags, items, n)[Count(flags, j)] == items[j]
    decreases n
  {
    if j < n - 1 {
      PickedAt(flags, items, j, n - 1);
    }
  }

  function LabelsOf(labels: seq<string>, n: nat): seq<Entry> {
    var m := if n <= |labels| then n else |labels|;
    seq(m, k requires 0 <= k < m => Label(labels[k]))
  }

  lemma OneLabelMore(labels: seq<string>, m: nat)
    requires m < |labels|
    ensures LabelsOf(labels, m + 1) == LabelsOf(labels, m) + [Label(labels[m])]
  {
  }

  lemma SentOne(sent: seq<string>, labels: seq<string>, cmd: string, text: string, applet: nat -> Reply)
    requires |sent| < |labels| && applet(|sent|) == One(labels[|sent|]) && !Packed(labels[|sent|]) && !Blank(cmd)
    requires Substituted(LabelsOf(labels, |sent|), cmd) == text
    ensures Sent(RunState(sent, LabelsOf(labels, |sent|), false), cmd, applet) ==
      RunState(sent + [text], LabelsOf(labels, |sent| + 1), false)
  {
    OneLabelMore(labels, |sent|);
  }

  ghost predicate Answers(labels: seq<string>, applet: nat -> Reply) {
    forall i :: 0 <= i < |labels| ==> applet(i) == One(labels[i]) && !Packed(labels[i])
  }

  /** The texts that are not blank are flagged, and `outs` says what each of them becomes when the labels
      for the flagged ones before it are known. */
  ghost predicate Substitutes(texts: seq<string>, flags: seq<bool>, outs: seq<string>, labels: seq<string>) {
    && |texts| == |flags| == |outs|
    && (forall j :: 0 <= j < |texts| ==> flags[j] == !Blank(texts[j]))
    && (forall j :: 0 <= j < |texts| && flags[j] ==> Substituted(LabelsOf(labels, Count(flags, j)), texts[j]) == outs[j])
  }

  lemma NextText(texts: seq<string>, flags: seq<bool>, outs: seq<string>, labels: seq<string>, applet: nat -> Reply, j: nat)
    requires Substitutes(texts, flags, outs, labels) && Answers(labels, applet) && j < |texts|
    requires Count(flags, j + 1) <= |labels|
    ensures Sent(RunState(Picked(flags, outs, j), LabelsOf(labels, Count(flags, j)), false), texts[j], applet) ==
      RunState(Picked(flags, outs, j + 1), LabelsOf(labels, Count(flags, j + 1)), false)
  {
    var before := Picked(flags, outs, j);
    if flags[j] {
      SentOne(before, labels, texts[j], outs[j], applet);
    } else {
      assert before + [] == before;
    }
  }

  lemma {:induction false} RunOverTexts(texts: seq<string>, flags: seq<bool>, outs: seq<string>,
                                       labels: seq<string>, applet: nat -> Reply, n: nat)
    requires Substitutes(texts, flags, outs, labels) && Answers(labels, applet) && n <= |texts|
    requires Count(flags, n) <= |labels|
    ensures Ran(WithoutEmpty(texts, n), applet) == RunState(Picked(flags, outs, n), LabelsOf(labels, Count(flags, n)), false)
    decreases n
  {
    if n == 0 {
      assert LabelsOf(labels, 0) == [];
    } else {
      RunOverTexts(texts, flags, outs, labels, applet, n - 1);
      NextText(texts, flags, outs, labels, applet, n - 1);
      WithoutEmptyNext(texts, n);
      RanAs(WithoutEmpty(texts, n - 1), texts[n - 1], applet, Ran(WithoutEmpty(texts, n - 1), applet));
    }
  }
}
