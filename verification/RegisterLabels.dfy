/** What registers mean: each command is sent with names replaced by labels, as far as every row
    before them sends a command. */
module RegisterLabels {
  import opened Options
  import opened Chars
  import opened WordText
  import opened Registers
  import opened RegisterTable
  import opened RegisterRun

  // ---------- Rows that send something ----------

  predicate Sends(row: Row) {
    !Blank(TextOf(row))
  }

  function Sending(rows: seq<Row>): seq<bool> {
    seq(|rows|, i requires 0 <= i < |rows| => Sends(rows[i]))
  }

  /** How many of the first `n` rows send something. */
  function Place(rows: seq<Row>, n: nat): (r: nat)
    requires n <= |rows|
    ensures r <= n
  {
    Count(Sending(rows), n)
  }

  lemma AllSend(rows: seq<Row>, n: nat)
    requires n <= |rows|
    ensures Place(rows, n) == n <==> forall i :: 0 <= i < n ==> Sends(rows[i])
  {
    CountAll(Sending(rows), n);
    assert forall i :: 0 <= i < n ==> Sending(rows)[i] == Sends(rows[i]);
  }

  lemma {:induction false} BlankStays(f: Token -> string, quoted: bool, s: string)
    requires Blank(s)
    ensures MapTokens(f, quoted, s) == s
    decreases |s|
  {
    if s != "" {
      assert IsSpace(s[0]);
      BlankStays(f, s[0] == '\'', s[1..]);
    }
  }

  lemma {:induction false} NotBlankAfter(h: Token -> Token, g: Token -> string, quoted: bool, s: string)
    requires Rewrites(h, g) && !Blank(s)
    ensures !Blank(MapTokens(g, quoted, s))
    decreases |s|
  {
    var r := MapTokens(g, quoted, s);
    if AtBoundary(s) {
      if IsSpace(s[0]) {
        NotBlankAfter(h, g, s[0] == '\'', s[1..]);
        var rest := MapTokens(g, s[0] == '\'', s[1..]);
        var i :| 0 <= i < |rest| && !IsSpace(rest[i]);
        assert r[i + 1] == rest[i];
      } else {
        assert r[0] == s[0];
      }
    } else {
      var t := FirstToken(quoted, s);
      assert r[0] == h(t).word[0] && IsWordChar(r[0]);
    }
  }

  function AllAtOnce(rows: seq<Row>): Token -> Token {
    t => AtOnce(TableOf(rows).names, TableOf(rows).number, t)
  }

  lemma AtOnceRewrites(rows: seq<Row>)
    ensures Rewrites(AllAtOnce(rows), ShowAtOnce(rows))
  {
  }

  lemma BlankExactly(rows: seq<Row>, text: string)
    requires Clear(rows)
    ensures Blank(Transformed(rows, text)) <==> Blank(text)
  {
    TransformsAtOnce(rows, text);
    if Blank(text) {
      BlankStays(ShowAtOnce(rows), false, text);
    } else {
      AtOnceRewrites(rows);
      NotBlankAfter(AllAtOnce(rows), ShowAtOnce(rows), false, text);
    }
  }

  lemma {:induction false} CountNonEmpty(texts: seq<string>, flags: seq<bool>, n: nat)
    requires n <= |texts| == |flags| && forall i :: 0 <= i < n ==> flags[i] == (texts[i] != "")
    ensures |WithoutEmpty(texts, n)| == Count(flags, n)
  {
    if n > 0 {
      CountNonEmpty(texts, flags, n - 1);
    }
  }

  /** Where no row has a blank command, the commands are what is sent. */
  lemma CommandsAreSent(rows: seq<Row>, n: nat)
    requires n <= |rows| && Clear(rows) && forall i :: 0 <= i < n ==> TextOf(rows[i]) == "" || Sends(rows[i])
    ensures |CommandsUpTo(rows, n)| == Place(rows, n)
  {
    forall i | 0 <= i < n ensures Sending(rows)[i] == (Texts(rows)[i] != "") {
      BlankExactly(rows, TextOf(rows[i]));
      SubAllOfEmpty(LongestFirst(TableOf(rows).names), TableOf(rows).number);
    }
    CountNonEmpty(Texts(rows), Sending(rows), n);
  }

  // ---------- References ----------

  /** Every row has a number, its place, and no name clashes with another. */
  predicate Numbered(rows: seq<Row>) {
    (forall k :: 0 <= k < |rows| ==> rows[k].seqNo == Some(k + 1)) && Clear(rows)
  }

  /** The row whose name this token starts with, and how many primes that name has; the longest such name. */
  function Reference(rows: seq<Row>, t: Token): Option<(nat, nat)> {
    var table := TableOf(rows);
    match Best(table.names, t.word, Room(t))
    case None => None
    case Some(q) =>
      var name := t.word + Primes(q);
      if name in table.number && table.number[name] > 0 then Some((table.number[name] - 1, q)) else None
  }

  lemma NamesHaveRows(rows: seq<Row>, name: string)
    requires Numbered(rows) && name in TableOf(rows).names
    ensures name in TableOf(rows).number && 0 < TableOf(rows).number[name] <= |rows|
  {
    NamesAreNumbered(rows, name);
  }

  /** A reference becomes the register of its row. */
  lemma ReferenceIsRegister(rows: seq<Row>, t: Token)
    requires Numbered(rows) && Sound(t)
    ensures match Reference(rows, t)
      case None => AllAtOnce(rows)(t) == t
      case Some((k, q)) => k < |rows| && q <= t.primes && AllAtOnce(rows)(t) == Token(t.quoted, Register(k + 1), t.primes - q, t.glued)
  {
    var best := Best(TableOf(rows).names, t.word, Room(t));
    BestIsName(TableOf(rows).names, t.word, Room(t));
    if best.Some? {
      NamesHaveRows(rows, t.word + Primes(best.value));
    }
  }

  // ---------- What is sent for a token ----------

  predicate AllSingle(labels: seq<string>) {
    forall k :: 0 <= k < |labels| ==> !Packed(labels[k])
  }

  /** With `m` labels known: a reference to row `k` becomes label `k`, or stays a register if that is not known yet. */
  function FilledText(ref: Option<(nat, nat)>, labels: seq<string>, m: nat, t: Token): string {
    match ref
    case Some((k, q)) =>
      (if !t.quoted && k < m && k < |labels| then labels[k] else Register(k + 1)) + Primes(if q <= t.primes then t.primes - q else 0)
    case None =>
      if !t.quoted && ReadsAsRegister(t.word) then Lookup(LabelsOf(labels, m), t.word) + Primes(t.primes) else t.Show()
  }

  function ShowFilled(rows: seq<Row>, labels: seq<string>, m: nat): Token -> string {
    (t: Token) => FilledText(Reference(rows, t), labels, m, t)
  }

  lemma RegisterIsRead(labels: seq<string>, m: nat, n: nat)
    requires n > 0 && m <= |labels| && AllSingle(labels)
    ensures Lookup(LabelsOf(labels, m), Register(n)) == if n <= m then labels[n - 1] else Register(n)
  {
    DecimalIsRead(n);
    assert Register(n)[1..] == Decimal(n);
  }

  lemma RegisterResolves(labels: seq<string>, m: nat, n: nat, u: Token)
    requires n > 0 && m <= |labels| && AllSingle(labels) && u.word == Register(n)
    ensures Resolve(LabelsOf(labels, m))(u) == (if !u.quoted && n <= m then labels[n - 1] else Register(n)) + Primes(u.primes)
  {
    RegisterIsRead(labels, m, n);
  }

  lemma TokenResolves(ref: Option<(nat, nat)>, labels: seq<string>, m: nat, t: Token, u: Token)
    requires m <= |labels| && AllSingle(labels)
    requires match ref
      case Some((k, q)) => q <= t.primes && u == Token(t.quoted, Register(k + 1), t.primes - q, t.glued)
      case None => u == t
    ensures FilledText(ref, labels, m, t) == Resolve(LabelsOf(labels, m))(u)
  {
    if ref.Some? {
      RegisterResolves(labels, m, ref.value.0 + 1, u);
    }
  }

  /** What is sent for a text when `m` labels are known. */
  lemma SentForText(rows: seq<Row>, labels: seq<string>, m: nat, text: string)
    requires Numbered(rows) && m <= |labels| && AllSingle(labels)
    ensures Substituted(LabelsOf(labels, m), Transformed(rows, text)) == MapTokens(ShowFilled(rows, labels, m), false, text)
  {
    TransformsAtOnce(rows, text);
    SubRegisters(LabelsOf(labels, m), Transformed(rows, text));
    AtOnceRewrites(rows);
    forall t | t in Tokens(false, text)
      ensures ShowFilled(rows, labels, m)(t) == Resolve(LabelsOf(labels, m))(AllAtOnce(rows)(t))
    {
      TokensAreWords(false, text, t);
      FilledIsResolved(rows, labels, m, t);
    }
    MapsCompose(AllAtOnce(rows), ShowAtOnce(rows), Resolve(LabelsOf(labels, m)), ShowFilled(rows, labels, m), false, text);
  }

  lemma FilledIsResolved(rows: seq<Row>, labels: seq<string>, m: nat, t: Token)
    requires Numbered(rows) && m <= |labels| && AllSingle(labels) && Sound(t)
    ensures ShowFilled(rows, labels, m)(t) == Resolve(LabelsOf(labels, m))(AllAtOnce(rows)(t))
  {
    ReferenceIsRegister(rows, t);
    TokenResolves(Reference(rows, t), labels, m, t, AllAtOnce(rows)(t));
  }

  // ---------- Runs ----------

  /** The applet gives one label to each command that is sent. */
  ghost predicate Answered(rows: seq<Row>, labels: seq<string>, applet: nat -> Reply) {
    |labels| == Place(rows, |rows|) && Answers(labels, applet)
  }

  /** What is sent for row `j`: by then, as many labels are known as rows before it have sent something. */
  function SentText(rows: seq<Row>, labels: seq<string>, j: nat): string
    requires j < |rows|
  {
    MapTokens(ShowFilled(rows, labels, Place(rows, j)), false, TextOf(rows[j]))
  }

  function SentTexts(rows: seq<Row>, labels: seq<string>): seq<string> {
    seq(|rows|, j requires 0 <= j < |rows| => SentText(rows, labels, j))
  }

  lemma TableSubstitutes(rows: seq<Row>, labels: seq<string>)
    requires Numbered(rows) && |labels| == Place(rows, |rows|) && AllSingle(labels)
    ensures Substitutes(Texts(rows), Sending(rows), SentTexts(rows, labels), labels)
  {
    forall j | 0 <= j < |rows|
      ensures Sending(rows)[j] == !Blank(Texts(rows)[j])
      ensures Substituted(LabelsOf(labels, Count(Sending(rows), j)), Texts(rows)[j]) == SentTexts(rows, labels)[j]
    {
      BlankExactly(rows, TextOf(rows[j]));
      CountGrows(Sending(rows), j, |rows|);
      SentForText(rows, labels, Place(rows, j), TextOf(rows[j]));
    }
  }

  /** With one label for each command, whatever the rows send and refer to: what is sent for a row is its text, in
      which each reference to row `k` became label number `k` if that was known, and stayed a register if not. */
  lemma RunsFillRegisters(rows: seq<Row>, labels: seq<string>, applet: nat -> Reply, j: nat)
    requires Numbered(rows) && Answered(rows, labels, applet) && j < |rows| && Sends(rows[j])
    ensures var run := Ran(CommandsUpTo(rows, |rows|), applet);
      && |run.sent| == |labels|
      && Place(rows, j) < |labels| && run.sent[Place(rows, j)] == SentText(rows, labels, j)
  {
    var texts, flags, outs := Texts(rows), Sending(rows), SentTexts(rows, labels);
    TableSubstitutes(rows, labels);
    RunOverTexts(texts, flags, outs, labels, applet, |rows|);
    PickedAt(flags, outs, j, |rows|);
  }

  // ---------- Registers mean labels ----------

  /** A reference as the label of its row: the one that came back for the row's command. */
  function LabelText(rows: seq<Row>, labels: seq<string>, ref: Option<(nat, nat)>, t: Token): string {
    match ref
    case Some((k, q)) =>
      if k < |rows| && Place(rows, k) < |labels| && q <= t.primes then labels[Place(rows, k)] + Primes(t.primes - q) else ""
    case None => t.Show()
  }

  function ShowLabels(rows: seq<Row>, labels: seq<string>): Token -> string {
    (t: Token) => LabelText(rows, labels, Reference(rows, t), t)
  }

  /** Text `j` refers to earlier rows only, up to which every row sends something, without a prime directly
      before a reference; and nothing else in it reads as a register. */
  predicate RefersBack(rows: seq<Row>, j: nat)
    requires j < |rows|
  {
    forall t :: t in Tokens(false, TextOf(rows[j])) ==>
      match Reference(rows, t)
      case Some((k, _)) => k < j && !t.quoted && Place(rows, k + 1) == k + 1
      case None => t.quoted || !ReadsAsRegister(t.word)
  }

  lemma FilledIsLabel(rows: seq<Row>, labels: seq<string>, j: nat, k: nat, q: nat, t: Token)
    requires k < j < |rows| && Place(rows, j) <= |labels| && Place(rows, k + 1) == k + 1 && !t.quoted && q <= t.primes
    ensures Place(rows, k) == k < Place(rows, j)
    ensures FilledText(Some((k, q)), labels, Place(rows, j), t) == LabelText(rows, labels, Some((k, q)), t)
  {
    CountGrows(Sending(rows), k + 1, j);
  }

  /** What is sent for a row that refers back is its own text with all names replaced by the labels of
      their rows. */
  lemma RegistersMeanLabels(rows: seq<Row>, labels: seq<string>, applet: nat -> Reply, j: nat)
    requires Numbered(rows) && Answered(rows, labels, applet) && j < |rows| && Sends(rows[j]) && RefersBack(rows, j)
    ensures var run := Ran(CommandsUpTo(rows, |rows|), applet);
      && Place(rows, j) < |run.sent|
      && run.sent[Place(rows, j)] == MapTokens(ShowLabels(rows, labels), false, TextOf(rows[j]))
  {
    RunsFillRegisters(rows, labels, applet, j);
    CountGrows(Sending(rows), j, |rows|);
    var text, m := TextOf(rows[j]), Place(rows, j);
    forall t | t in Tokens(false, text) ensures ShowFilled(rows, labels, m)(t) == ShowLabels(rows, labels)(t) {
      TokensAreWords(false, text, t);
      ReferenceIsRegister(rows, t);
      var ref := Reference(rows, t);
      assert match ref
        case Some((k, _)) => k < j && !t.quoted && Place(rows, k + 1) == k + 1
        case None => t.quoted || !ReadsAsRegister(t.word);
      if ref.Some? {
        FilledIsLabel(rows, labels, j, ref.value.0, ref.value.1, t);
      }
    }
    MapsAgree(ShowFilled(rows, labels, m), ShowLabels(rows, labels), false, text);
  }

  lemma SameEnd(a: string, b: string, c: string)
    ensures a + c == b + c <==> a == b
  {
    if a + c == b + c {
      assert |a| == |b|;
      assert (a + c)[..|a|] == a && (b + c)[..|b|] == b;
    }
  }

  lemma LabelsDiffer(labels: seq<string>, a: nat, b: nat, rest: string)
    requires (forall a, b :: 0 <= a < b < |labels| ==> labels[a] != labels[b]) && a < |labels| && b < |labels|
    ensures labels[a] + rest == labels[b] + rest <==> a == b
  {
    SameEnd(labels[a], labels[b], rest);
    assert a < b || b < a ==> labels[a] != labels[b];
  }

  /** In row `j`, a reference to an earlier row `k` that sends something is sent as the label of row `k` if and only if
      every row up to `k` sends something; or that label happens to be the register which stays when
      nothing has filled it yet. */
  lemma ReferenceIsLabelExactly(rows: seq<Row>, labels: seq<string>, j: nat, k: nat, q: nat, t: Token)
    requires |labels| == Place(rows, |rows|) && forall a, b :: 0 <= a < b < |labels| ==> labels[a] != labels[b]
    requires k < j < |rows| && Sends(rows[k]) && !t.quoted && q <= t.primes
    ensures Place(rows, k) < |labels| && Place(rows, j) <= |labels|
    ensures FilledText(Some((k, q)), labels, Place(rows, j), t) == LabelText(rows, labels, Some((k, q)), t) <==>
      Place(rows, k + 1) == k + 1 || (Place(rows, j) <= k && labels[Place(rows, k)] == Register(k + 1))
  {
    Places(rows, j, k);
    FilledExactly(labels, Place(rows, j), k, Place(rows, k), q, t);
  }

  lemma Places(rows: seq<Row>, j: nat, k: nat)
    requires k < j < |rows| && Sends(rows[k])
    ensures Place(rows, k + 1) == Place(rows, k) + 1 <= Place(rows, j) <= Place(rows, |rows|)
  {
    assert Sending(rows)[k];
    CountPlaces(Sending(rows), k, j);
  }

  lemma FilledExactly(labels: seq<string>, m: nat, k: nat, c: nat, q: nat, t: Token)
    requires forall a, b :: 0 <= a < b < |labels| ==> labels[a] != labels[b]
    requires c < m <= |labels| && c <= k && !t.quoted && q <= t.primes
    ensures FilledText(Some((k, q)), labels, m, t) == labels[c] + Primes(t.primes - q) <==>
      c == k || (m <= k && labels[c] == Register(k + 1))
  {
    if k < m {
      LabelsDiffer(labels, k, c, Primes(t.primes - q));
    } else {
      SameEnd(Register(k + 1), labels[c], Primes(t.primes - q));
    }
  }

  // ---------- Two small tables ----------

  /** A name that does not read as a register. */
  predicate PlainName(name: string) {
    IsName(name) && !RegisterLike(WordOf(name))
  }

  /** Names that do not read as registers never clash. */
  lemma PlainIsClear(rows: seq<Row>)
    requires forall name :: name in TableOf(rows).names ==> PlainName(name)
    ensures Clear(rows)
  {
    var names, number := LongestFirst(TableOf(rows).names), TableOf(rows).number;
    forall i, j | 0 <= i < j < |names| ensures !Clash(names, number, i, j) {
      assert names[j] in names;
      SortedHasAll(TableOf(rows).names, names[j]);
      if names[i] in number {
        PlainIsNoRegister(names[j], number[names[i]]);
      }
    }
  }

  lemma PlainIsNoRegister(name: string, n: nat)
    requires PlainName(name)
    ensures forall r: nat :: name != Register(n) + Primes(r)
  {
    forall r: nat ensures name != Register(n) + Primes(r) {
      WordRunIs(Register(n), Primes(r));
      assert (Register(n) + Primes(r))[..|Register(n)|] == Register(n);
    }
  }

  lemma WordAlone(f: Token -> string, w: string)
    requires Word(w)
    ensures MapTokens(f, false, w) == f(Token(false, w, 0, false))
    ensures Tokens(false, w) == [Token(false, w, 0, false)]
  {
    var t := Token(false, w, 0, false);
    FirstTokenIs(t, "");
    TokenAlone(f, t);
    assert t.Show() == w && [t] + Tokens(false, "") == [t] && w + "" == w;
  }

  lemma WordReference(rows: seq<Row>, w: string)
    requires w in TableOf(rows).number ==> TableOf(rows).number[w] > 0
    ensures Reference(rows, Token(false, w, 0, false)) ==
      if w in TableOf(rows).number then Some((TableOf(rows).number[w] - 1, 0)) else None
  {
    NamesAreNumbered(rows, w);
    assert w + Primes(0) == w;
    assert Best(TableOf(rows).names, w, 0) == if w in TableOf(rows).names then Some(0) else None;
  }

  lemma TableOfThree(rows: seq<Row>, a: string, b: string, c: string)
    requires |rows| == 3 && a != b && b != c && a != c
    requires rows[0].name == Some(a) && rows[1].name == Some(b) && rows[2].name == Some(c)
    requires rows[0].seqNo == Some(1) && rows[1].seqNo == Some(2) && rows[2].seqNo == Some(3)
    ensures TableOf(rows) == Table([a, b, c], map[a := 1, b := 2, c := 3])
  {
    assert rows[..2][..1] == rows[..1] && rows[..1][..0] == [];
    assert TableOf(rows[..1]) == Table([a], map[a := 1]);
    assert TableOf(rows[..2]) == Table([a, b], map[a := 1, b := 2]);
  }

  /** Three named rows; the first one sends `first`, which may be nothing, the second `x`, and the command of the
      third is the name of the second. */
  predicate ThreeRows(rows: seq<Row>, a: string, b: string, c: string, first: string, x: string) {
    && rows == [Row(Some(a), Some(1), first, false, ""), Row(Some(b), Some(2), x, false, ""), Row(Some(c), Some(3), b, false, "")]
    && PlainName(a) && PlainName(b) && PlainName(c) && a != b && b != c && a != c
    && Word(b) && Word(x) && (first == "" || Word(first))
  }

  lemma ThreeNames(rows: seq<Row>, a: string, b: string, c: string, first: string, x: string)
    requires ThreeRows(rows, a, b, c, first, x)
    ensures TableOf(rows) == Table([a, b, c], map[a := 1, b := 2, c := 3])
  {
    TableOfThree(rows, a, b, c);
  }

  lemma PlainTable(rows: seq<Row>, a: string, b: string, c: string)
    requires TableOf(rows).names == [a, b, c] && PlainName(a) && PlainName(b) && PlainName(c)
    ensures Clear(rows)
  {
    forall name | name in TableOf(rows).names ensures PlainName(name) {
      assert name == a || name == b || name == c;
    }
    PlainIsClear(rows);
  }

  lemma ThreeNumbers(rows: seq<Row>)
    requires |rows| == 3 && rows[0].seqNo == Some(1) && rows[1].seqNo == Some(2) && rows[2].seqNo == Some(3) && Clear(rows)
    ensures Numbered(rows)
  {
  }

  lemma ThreeRowsAreNumbered(rows: seq<Row>, a: string, b: string, c: string, first: string, x: string)
    requires ThreeRows(rows, a, b, c, first, x)
    ensures Numbered(rows)
  {
    ThreeNames(rows, a, b, c, first, x);
    PlainTable(rows, a, b, c);
    ThreeNumbers(rows);
  }

  lemma ThirdRefersToSecond(rows: seq<Row>, a: string, b: string, c: string, first: string, x: string)
    requires ThreeRows(rows, a, b, c, first, x)
    ensures Reference(rows, Token(false, b, 0, false)) == Some((1, 0))
  {
    ThreeNames(rows, a, b, c, first, x);
    WordReference(rows, b);
  }

  lemma CommandSent(row: Row)
    ensures Word(row.command) ==> Sends(row) && TextOf(row) == row.command
    ensures row.command == "" && !row.numeric ==> !Sends(row)
  {
    if Word(row.command) {
      assert IsWordChar(row.command[0]);
    }
  }

  lemma CountThree(flags: seq<bool>)
    requires |flags| == 3 && flags[1] && flags[2]
    ensures Count(flags, 2) == (if flags[0] then 2 else 1) && Count(flags, 3) == Count(flags, 2) + 1
  {
    assert Count(flags, 1) == if flags[0] then 1 else 0;
  }

  lemma ThreePlaces(rows: seq<Row>, a: string, b: string, c: string, first: string, x: string)
    requires ThreeRows(rows, a, b, c, first, x)
    ensures Sends(rows[1]) && Sends(rows[2]) && TextOf(rows[2]) == b
    ensures Place(rows, 2) == (if first == "" then 1 else 2) && Place(rows, 3) == Place(rows, 2) + 1
    ensures Sends(rows[0]) <==> first != ""
  {
    CommandSent(rows[0]);
    CommandSent(rows[1]);
    CommandSent(rows[2]);
    CountThree(Sending(rows));
  }

  /** When the first row sends something, the third command is sent as the label of the second row. */
  lemma LabelsAreSent(rows: seq<Row>, a: string, b: string, c: string, first: string, x: string, labels: seq<string>, applet: nat -> Reply)
    requires ThreeRows(rows, a, b, c, first, x) && first != "" && |labels| == 3 && Answers(labels, applet)
    ensures Answered(rows, labels, applet)
    ensures var run := Ran(CommandsUpTo(rows, 3), applet); |run.sent| == 3 && run.sent[2] == labels[1]
  {
    ThreeRowsAreNumbered(rows, a, b, c, first, x);
    ThirdRefersToSecond(rows, a, b, c, first, x);
    ThreePlaces(rows, a, b, c, first, x);
    RunsFillRegisters(rows, labels, applet, 2);
    WordAlone(ShowFilled(rows, labels, 2), b);
    assert labels[1] + Primes(0) == labels[1];
  }

  /** When it sends nothing, the third command is sent as a register that nothing has filled yet, although the
      label of the second row is known. */
  lemma MissingCommandsShift(rows: seq<Row>, a: string, b: string, c: string, x: string, labels: seq<string>, applet: nat -> Reply)
    requires ThreeRows(rows, a, b, c, "", x) && |labels| == 2 && Answers(labels, applet)
    ensures Answered(rows, labels, applet)
    ensures var run := Ran(CommandsUpTo(rows, 3), applet); |run.sent| == 2 && run.sent[1] == Register(2)
  {
    ThreeRowsAreNumbered(rows, a, b, c, "", x);
    ThirdRefersToSecond(rows, a, b, c, "", x);
    ThreePlaces(rows, a, b, c, "", x);
    RunsFillRegisters(rows, labels, applet, 2);
    WordAlone(ShowFilled(rows, labels, 1), b);
    assert Register(2) + Primes(0) == Register(2);
  }
}
