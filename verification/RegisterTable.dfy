/** From a construction table to commands over registers. */
module RegisterTable {
  import opened Options
  import opened WordText
  import opened Registers
  import opened Chars

  /** A row of the table.  An empty command or value stands for a missing one. */
  datatype Row = Row(name: Option<string>, seqNo: Option<nat>, command: string, numeric: bool, value: string)

  /** The dictionary from names to row numbers, with its keys in insertion order. */
  datatype Table = Table(names: seq<string>, number: map<string, nat>)

  function Entered(table: Table, row: Row): Table {
    if row.name.None? || row.seqNo.None? then table
    else
      var name := row.name.value;
      Table(if name in table.number then table.names else table.names + [name], table.number[name := row.seqNo.value])
  }

  function TableOf(rows: seq<Row>): Table {
    if rows == [] then Table([], map[]) else Entered(TableOf(rows[..|rows| - 1]), rows[|rows| - 1])
  }

  /** Each name of the table belongs to the row with its number. */
  lemma {:induction false} NamesAreNumbered(rows: seq<Row>, name: string)
    ensures name in TableOf(rows).names <==> name in TableOf(rows).number
    ensures name in TableOf(rows).number ==>
      exists k :: 0 <= k < |rows| && rows[k].name == Some(name) && rows[k].seqNo == Some(TableOf(rows).number[name])
  {
    if rows != [] {
      var n := |rows| - 1;
      var before := rows[..n];
      NamesAreNumbered(before, name);
      assert forall k :: 0 <= k < n ==> before[k] == rows[k];
      if name in TableOf(rows).number && rows[n].name != Some(name) {
        var k :| 0 <= k < n && before[k].name == Some(name) && before[k].seqNo == Some(TableOf(before).number[name]);
        assert rows[k] == before[k];
      }
    }
  }

  /** The last row with this name gives it its number. */
  lemma {:induction false} LastRowNumbers(rows: seq<Row>, k: nat, name: string)
    requires k < |rows| && rows[k].name == Some(name) && rows[k].seqNo.Some?
    requires forall i :: k < i < |rows| ==> rows[i].name != Some(name) || rows[i].seqNo.None?
    ensures name in TableOf(rows).number && TableOf(rows).number[name] == rows[k].seqNo.value
    decreases |rows|
  {
    var n := |rows| - 1;
    if k < n {
      assert forall i :: 0 <= i < n ==> rows[..n][i] == rows[i];
      LastRowNumbers(rows[..n], k, name);
    }
  }

  /** A stable sort by length, longest first. */
  function LongestFirst(names: seq<string>): (r: seq<string>)
    ensures Descending(r) && multiset(r) == multiset(names)
  {
    if names == [] then []
    else
      var n := |names| - 1;
      var sorted := LongestFirst(names[..n]);
      assert names == names[..n] + [names[n]];
      InsertSorts(sorted, names[n]);
      InsertKeeps(sorted, names[n]);
      InsertByLength(sorted, names[n])
  }

  function InsertByLength(sorted: seq<string>, name: string): seq<string> {
    if sorted == [] || |sorted[0]| < |name| then [name] + sorted
    else [sorted[0]] + InsertByLength(sorted[1..], name)
  }

  lemma {:induction false} InsertKeeps(sorted: seq<string>, name: string)
    ensures multiset(InsertByLength(sorted, name)) == multiset(sorted) + multiset{name}
  {
    if sorted != [] && |sorted[0]| >= |name| {
      InsertKeeps(sorted[1..], name);
      assert sorted == [sorted[0]] + sorted[1..];
    }
  }

  lemma {:induction false} InsertBounded(sorted: seq<string>, name: string, n: nat)
    requires |name| <= n && forall i :: 0 <= i < |sorted| ==> |sorted[i]| <= n
    ensures forall i :: 0 <= i < |InsertByLength(sorted, name)| ==> |InsertByLength(sorted, name)[i]| <= n
  {
    if sorted != [] && |sorted[0]| >= |name| {
      InsertBounded(sorted[1..], name, n);
    }
  }

  lemma {:induction false} InsertSorts(sorted: seq<string>, name: string)
    requires Descending(sorted)
    ensures Descending(InsertByLength(sorted, name))
  {
    if sorted != [] && |sorted[0]| >= |name| {
      var rest := InsertByLength(sorted[1..], name);
      InsertSorts(sorted[1..], name);
      InsertBounded(sorted[1..], name, |sorted[0]|);
      assert forall i :: 1 <= i < |rest| + 1 ==> ([sorted[0]] + rest)[i] == rest[i - 1];
    }
  }

  function Transformed(rows: seq<Row>, cmd: string): string {
    SubAll(LongestFirst(TableOf(rows).names), TableOf(rows).number, cmd)
  }

  /** What is sent for a row before names are replaced: its command, or the value of a number. */
  function TextOf(row: Row): string {
    if row.command != "" then row.command
    else if row.numeric && row.value != "" && row.name.Some? && row.name.value != "" then
      if '=' in row.value then row.value else row.name.value + " = " + row.value
    else ""
  }

  /** What each row sends, some of it empty. */
  function Texts(rows: seq<Row>): seq<string> {
    seq(|rows|, i requires 0 <= i < |rows| => Transformed(rows, TextOf(rows[i])))
  }

  function NonEmpty(s: string): seq<string> {
    if s == "" then [] else [s]
  }

  function WithoutEmpty(texts: seq<string>, n: nat): seq<string>
    requires n <= |texts|
  {
    if n == 0 then [] else WithoutEmpty(texts, n - 1) + NonEmpty(texts[n - 1])
  }

  /** The commands for the first `n` rows. */
  function CommandsUpTo(rows: seq<Row>, n: nat): seq<string>
    requires n <= |rows|
  {
    WithoutEmpty(Texts(rows), n)
  }

  // ---------- The program ----------

  lemma {:induction false} SubAllOfEmpty(names: seq<string>, number: map<string, nat>)
    ensures SubAll(names, number, "") == ""
    decreases |names|
  {
    if names != [] {
      SubAllOfEmpty(names[1..], number);
    }
  }

  method TransformCommand(names: seq<string>, number: map<string, nat>, cmd: string) returns (s: string)
    ensures s == SubAll(names, number, cmd)
  {
    SubAllOfEmpty(names, number);
    if cmd == "" {
      return "";
    }
    s := cmd;
    for i := 0 to |names|
      invariant SubAll(names[i..], number, s) == SubAll(names, number, cmd)
    {
      assert names[i..][1..] == names[i + 1..];
      if names[i] in number {
        s := Sub(NamePattern(names[i], Register(number[names[i]])), false, s);
      }
    }
  }

  method NumberNames(rows: seq<Row>) returns (names: seq<string>, number: map<string, nat>)
    ensures Table(names, number) == TableOf(rows)
  {
    names, number := [], map[];
    for i := 0 to |rows|
      invariant Table(names, number) == TableOf(rows[..i])
    {
      assert rows[..i + 1][..i] == rows[..i];
      var row := rows[i];
      if row.name.Some? && row.seqNo.Some? {
        if row.name.value !in number {
          names := names + [row.name.value];
        }
        number := number[row.name.value := row.seqNo.value];
      }
    }
    assert rows[..|rows|] == rows;
  }

  lemma NextCommand(rows: seq<Row>, i: nat, t: string)
    requires i < |rows| && t == SubAll(LongestFirst(TableOf(rows).names), TableOf(rows).number, TextOf(rows[i]))
    ensures CommandsUpTo(rows, i + 1) == if t == "" then CommandsUpTo(rows, i) else CommandsUpTo(rows, i) + [t]
  {
    assert Texts(rows)[i] == t;
  }

  method CommandsForGgb(rows: seq<Row>) returns (out: seq<string>)
    ensures out == CommandsUpTo(rows, |rows|)
  {
    var names, number := NumberNames(rows);
    var namesSorted := LongestFirst(names);
    assert namesSorted == LongestFirst(TableOf(rows).names) && number == TableOf(rows).number;
    out := [];
    for i := 0 to |rows|
      invariant out == CommandsUpTo(rows, i)
    {
      var row := rows[i];
      var candidate := row.command;
      if candidate == "" && row.numeric && row.value != "" && row.name.Some? && row.name.value != "" {
        candidate := if '=' in row.value then row.value else row.name.value + " = " + row.value;
      }
      assert candidate == TextOf(row);
      var t := TransformCommand(namesSorted, number, candidate);
      NextCommand(rows, i, t);
      if t != "" {
        out := out + [t];
      }
    }
  }

  // ---------- What it means ----------

  function ShowNumbers(names: seq<string>, number: map<string, nat>): Token -> string {
    t => AtOnce(names, number, t).Show()
  }

  function ShowAtOnce(rows: seq<Row>): Token -> string {
    ShowNumbers(TableOf(rows).names, TableOf(rows).number)
  }

  lemma SortedHasAll(names: seq<string>, name: string)
    ensures name in LongestFirst(names) <==> name in names
  {
    assert name in multiset(LongestFirst(names)) <==> name in multiset(names);
  }

  lemma {:induction false} OrderIrrelevant(names: seq<string>, word: string, k: int)
    ensures Best(LongestFirst(names), word, k) == Best(names, word, k)
    decreases k
  {
    if k >= 0 {
      SortedHasAll(names, word + Primes(k));
      OrderIrrelevant(names, word, k - 1);
    }
  }

  lemma SortedDistinct(names: seq<string>)
    requires Distinct(names)
    ensures Distinct(LongestFirst(names))
  {
    forall name ensures multiset(names)[name] <= 1 {
      OnceEach(names, name);
    }
    var sorted := LongestFirst(names);
    forall i, j | 0 <= i < j < |sorted| ensures sorted[i] != sorted[j] {
      assert multiset(sorted)[sorted[i]] <= 1;
      assert sorted == sorted[..j] + sorted[j..];
      assert sorted[i] == sorted[..j][i] && sorted[j] == sorted[j..][0];
      assert sorted[i] in multiset(sorted[..j]) && sorted[j] in multiset(sorted[j..]);
    }
  }

  lemma {:induction false} OnceEach(names: seq<string>, name: string)
    requires Distinct(names)
    ensures multiset(names)[name] <= 1
  {
    if names != [] {
      var n := |names| - 1;
      assert names == names[..n] + [names[n]];
      OnceEach(names[..n], name);
      assert name == names[n] ==> name !in names[..n];
    }
  }

  /** The names are usable: all of them words with primes, each with a number, none twice. */
  predicate Usable(names: seq<string>, number: map<string, nat>) {
    AllNames(names, number) && Distinct(names)
  }

  lemma SortedUsable(names: seq<string>, number: map<string, nat>)
    requires Usable(names, number)
    ensures Usable(LongestFirst(names), number)
  {
    SortedDistinct(names);
    forall name | name in LongestFirst(names) ensures name in number && IsName(name) {
      SortedHasAll(names, name);
    }
  }

  lemma SortedAtOnce(names: seq<string>, number: map<string, nat>, t: Token)
    ensures AtOnce(LongestFirst(names), number, t) == AtOnce(names, number, t)
  {
    OrderIrrelevant(names, t.word, Room(t));
  }

  lemma ReplacedAtOnce(names: seq<string>, number: map<string, nat>, s: string)
    requires Usable(names, number) && NoClash(LongestFirst(names), number)
    ensures SubAll(LongestFirst(names), number, s) == MapTokens(ShowNumbers(names, number), false, s)
  {
    var sorted := LongestFirst(names);
    SortedUsable(names, number);
    SubAllIsChain(sorted, number, s);
    forall t | t in Tokens(false, s) ensures ShowChain(sorted, number)(t) == ShowNumbers(names, number)(t) {
      TokensAreWords(false, s, t);
      ChainIsAtOnce(sorted, number, t);
      SortedAtOnce(names, number, t);
    }
    MapsAgree(ShowChain(sorted, number), ShowNumbers(names, number), false, s);
  }

  lemma TokenAlone(f: Token -> string, t: Token)
    requires Sound(t) && !t.quoted && !t.glued
    ensures MapTokens(f, false, t.Show()) == f(t)
  {
    MapFirst(f, t, "");
    assert t.Show() + "" == t.Show() && f(t) + MapTokens(f, false, "") == f(t);
  }

  lemma ShowsAll(t: Token, u: Token)
    requires Sound(t) && Sound(u) && t.Show() == u.Show() && t.quoted == u.quoted && t.glued == u.glued
    ensures t == u
  {
    SameSplit(t.word, Primes(t.primes), u.word, Primes(u.primes), t.Show());
    assert |Primes(t.primes)| == t.primes && |Primes(u.primes)| == u.primes;
  }

  lemma ShowsDiffer(t: Token, u: Token)
    requires Sound(t) && Sound(u) && t != u && t.quoted == u.quoted && t.glued == u.glued
    ensures t.Show() != u.Show()
  {
    if t.Show() == u.Show() {
      ShowsAll(t, u);
    }
  }

  /** A clash shows on some command. */
  lemma ClashBreaks(names: seq<string>, number: map<string, nat>) returns (s: string)
    requires Usable(names, number) && !NoClash(LongestFirst(names), number)
    ensures SubAll(LongestFirst(names), number, s) != MapTokens(ShowNumbers(names, number), false, s)
  {
    var sorted := LongestFirst(names);
    SortedUsable(names, number);
    var i, j :| 0 <= i < j < |sorted| && Clash(sorted, number, i, j);
    var t := ClashShows(sorted, number, i, j);
    s := t.Show();
    SubAllIsChain(sorted, number, s);
    TokenAlone(ShowChain(sorted, number), t);
    TokenAlone(ShowNumbers(names, number), t);
    SortedAtOnce(names, number, t);
    ChainReshapes(sorted, number, t);
    AtOnceReshapes(names, number, t);
    ShowsDiffer(Chain(sorted, number, t), AtOnce(names, number, t));
  }

  lemma AtOnceReshapes(names: seq<string>, number: map<string, nat>, t: Token)
    requires Sound(t)
    ensures Reshapes(t, AtOnce(names, number, t))
  {
  }

  /** One after the other, longest first, is all at once for every command, if and only if no name
      clashes with a later one. */
  lemma ReplacedAtOnceExactly(names: seq<string>, number: map<string, nat>)
    requires Usable(names, number)
    ensures (forall s :: SubAll(LongestFirst(names), number, s) == MapTokens(ShowNumbers(names, number), false, s))
      <==> NoClash(LongestFirst(names), number)
  {
    if NoClash(LongestFirst(names), number) {
      forall s ensures SubAll(LongestFirst(names), number, s) == MapTokens(ShowNumbers(names, number), false, s) {
        ReplacedAtOnce(names, number, s);
      }
    } else {
      var s := ClashBreaks(names, number);
    }
  }

  lemma {:induction false} NamesDistinct(rows: seq<Row>)
    ensures Distinct(TableOf(rows).names)
  {
    if rows != [] {
      var before := rows[..|rows| - 1];
      NamesDistinct(before);
      forall name ensures name in TableOf(before).names <==> name in TableOf(before).number {
        NamesAreNumbered(before, name);
      }
    }
  }

  /** All names of the table are words with primes, and none clashes with another. */
  predicate Clear(rows: seq<Row>) {
    && (forall name :: name in TableOf(rows).names ==> IsName(name))
    && NoClash(LongestFirst(TableOf(rows).names), TableOf(rows).number)
  }

  lemma TableUsable(rows: seq<Row>)
    requires forall name :: name in TableOf(rows).names ==> IsName(name)
    ensures Usable(TableOf(rows).names, TableOf(rows).number)
  {
    NamesDistinct(rows);
    forall name | name in TableOf(rows).names ensures name in TableOf(rows).number {
      NamesAreNumbered(rows, name);
    }
  }

  /** In a clear table, a transformed command is the command with every token replaced at once by the
      register of the longest name that the token starts with. */
  lemma TransformsAtOnce(rows: seq<Row>, cmd: string)
    requires Clear(rows)
    ensures Transformed(rows, cmd) == MapTokens(ShowAtOnce(rows), false, cmd)
  {
    TableUsable(rows);
    ReplacedAtOnce(TableOf(rows).names, TableOf(rows).number, cmd);
  }

  /** Only in a clear table does this hold for all commands. */
  lemma TransformsAtOnceExactly(rows: seq<Row>)
    requires forall name :: name in TableOf(rows).names ==> IsName(name)
    ensures (forall cmd :: Transformed(rows, cmd) == MapTokens(ShowAtOnce(rows), false, cmd)) <==> Clear(rows)
  {
    TableUsable(rows);
    ReplacedAtOnceExactly(TableOf(rows).names, TableOf(rows).number);
    if Clear(rows) {
      forall cmd ensures Transformed(rows, cmd) == MapTokens(ShowAtOnce(rows), false, cmd) {
        TransformsAtOnce(rows, cmd);
      }
    } else {
      var cmd :| SubAll(LongestFirst(TableOf(rows).names), TableOf(rows).number, cmd) != MapTokens(ShowAtOnce(rows), false, cmd);
      assert Transformed(rows, cmd) != MapTokens(ShowAtOnce(rows), false, cmd);
    }
  }

  /** Names that read as registers break this: here the register of one name is another name, and
      the word `ab` becomes the register of that one. */
  lemma RegistersAsNamesClash(names: seq<string>, number: map<string, nat>, t: Token)
    requires names == ["ab", Register(1)] && number == map["ab" := 1, Register(1) := 2]
    requires t == Token(false, "ab", 0, false)
    ensures Descending(names) && Chain(names, number, t).Show() == Register(2) != Register(1) == AtOnce(names, number, t).Show()
  {
    assert Register(1) == "_1" && "_1"[0] != "ab"[0];
    assert "ab" + Primes(0) == "ab" && "_1" + Primes(0) == "_1";
    var u := RenameBy("ab", number, t);
    assert u == Token(false, "_1", 0, false);
    assert RenameBy("_1", number, u).word == Register(2);
    var rest := names[1..];
    assert rest == ["_1"] && rest[1..] == [];
    assert Chain(rest, number, u) == RenameBy("_1", number, u);
    if Register(1) == Register(2) {
      RegistersDiffer(1, 2);
    }
  }
}
