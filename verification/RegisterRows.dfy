/** What each row of a construction table emits and what is sent for it, said in the fields of the row. */
module RegisterRows {
  import opened Options
  import opened Chars
  import opened WordText
  import opened Registers
  import opened RegisterTable
  import opened RegisterRun
  import opened RegisterLabels

  /** A number without a command. */
  predicate ValueRow(row: Row) {
    row.command == "" && row.numeric && row.value != "" && row.name.Some? && row.name.value != ""
  }

  /** A text with all names replaced by registers at once. */
  function Replaced(rows: seq<Row>, text: string): string {
    MapTokens(ShowAtOnce(rows), false, text)
  }

  // ---------- The name of a row ----------

  function NameToken(name: string): Token {
    Token(false, WordOf(name), PrimesOf(name), false)
  }

  lemma NameShows(name: string)
    requires IsName(name)
    ensures Sound(NameToken(name)) && NameToken(name).Show() == name
  {
  }

  lemma OneBlank(f: Token -> string, quoted: bool, c: char, rest: string)
    requires !IsWordChar(c) && c != '\''
    ensures MapTokens(f, quoted, [c] + rest) == [c] + MapTokens(f, false, rest)
  {
    var s := [c] + rest;
    assert s[1..] == rest && AtBoundary(s);
  }

  lemma Spelled(rest: string)
    ensures " = " + rest == [' '] + (['='] + ([' '] + rest))
  {
  }

  lemma Between(f: Token -> string, quoted: bool, value: string)
    ensures MapTokens(f, quoted, " = " + value) == " = " + MapTokens(f, false, value)
  {
    var third := [' '] + value;
    var second := ['='] + third;
    Spelled(value);
    OneBlank(f, quoted, ' ', second);
    OneBlank(f, false, '=', third);
    OneBlank(f, false, ' ', value);
    Spelled(MapTokens(f, false, value));
  }

  /** An assignment is rewritten on both sides. */
  lemma BothSides(f: Token -> string, name: string, value: string)
    requires IsName(name)
    ensures MapTokens(f, false, name + " = " + value) == f(NameToken(name)) + " = " + MapTokens(f, false, value)
  {
    var t, more := NameToken(name), " = " + value;
    NameShows(name);
    assert more[0] == ' ' && AtBoundary(more);
    MapFirst(f, t, more);
    Between(f, t.primes > 0, value);
    Assoc(name, " = ", value);
    Assoc(f(t), " = ", MapTokens(f, false, value));
  }

  lemma {:induction false} LastRow(rows: seq<Row>, j: nat) returns (k: nat)
    requires j < |rows| && rows[j].name.Some? && forall i :: 0 <= i < |rows| ==> rows[i].seqNo.Some?
    ensures j <= k < |rows| && rows[k].name == rows[j].name && forall i :: k < i < |rows| ==> rows[i].name != rows[j].name
  {
    var n := |rows| - 1;
    if rows[n].name == rows[j].name {
      k := n;
    } else {
      k := LastRow(rows[..n], j);
      assert forall i :: k < i < n ==> rows[..n][i] == rows[i];
    }
  }

  /** In a numbered table, a name refers to the last row that has it. */
  lemma NameRefers(rows: seq<Row>, k: nat, name: string)
    requires Numbered(rows) && k < |rows| && rows[k].name == Some(name) && forall i :: k < i < |rows| ==> rows[i].name != Some(name)
    ensures IsName(name) && Reference(rows, NameToken(name)) == Some((k, PrimesOf(name)))
    ensures AllAtOnce(rows)(NameToken(name)) == Token(false, Register(k + 1), 0, false)
  {
    LastRowNumbers(rows, k, name);
    NamesAreNumbered(rows, name);
    NameShows(name);
    assert Best(TableOf(rows).names, WordOf(name), PrimesOf(name)) == Some(PrimesOf(name));
  }

  // ---------- What the rows emit ----------

  lemma NeverEmpty(rows: seq<Row>, text: string)
    requires text != ""
    ensures Replaced(rows, text) != ""
  {
    AtOnceRewrites(rows);
    RewriteStarts(AllAtOnce(rows), ShowAtOnce(rows), false, text);
  }

  lemma EmitsText(rows: seq<Row>, j: nat)
    requires Clear(rows) && j < |rows|
    ensures CommandsUpTo(rows, j + 1) == CommandsUpTo(rows, j) +
      if TextOf(rows[j]) == "" then [] else [Replaced(rows, TextOf(rows[j]))]
  {
    TransformsAtOnce(rows, TextOf(rows[j]));
    if TextOf(rows[j]) != "" {
      NeverEmpty(rows, TextOf(rows[j]));
    }
    NextCommand(rows, j, Replaced(rows, TextOf(rows[j])));
    assert CommandsUpTo(rows, j) + [] == CommandsUpTo(rows, j);
  }

  /** Row by row: a row with a command emits it with its names replaced; a number without a command emits its value, as an
      assignment to the register of the last row with its name unless the value is an assignment already;
      every other row emits nothing. */
  lemma RowsEmit(rows: seq<Row>, j: nat) returns (k: nat)
    requires Numbered(rows) && j < |rows|
    ensures rows[j].name.Some? ==>
      j <= k < |rows| && rows[k].name == rows[j].name && forall i :: k < i < |rows| ==> rows[i].name != rows[j].name
    ensures var row := rows[j];
      CommandsUpTo(rows, j + 1) == CommandsUpTo(rows, j) +
        if row.command != "" then [Replaced(rows, row.command)]
        else if !ValueRow(row) then []
        else if '=' in row.value then [Replaced(rows, row.value)]
        else [Register(k + 1) + " = " + Replaced(rows, row.value)]
  {
    var row := rows[j];
    k := j;
    EmitsText(rows, j);
    if row.name.Some? {
      k := LastRow(rows, j);
    }
    if ValueRow(row) && '=' !in row.value {
      NameRefers(rows, k, row.name.value);
      BothSides(ShowAtOnce(rows), row.name.value, row.value);
      assert Register(k + 1) + Primes(0) == Register(k + 1);
    }
  }

  // ---------- What is sent for the rows ----------

  /** A row sends something exactly if its command is not blank, or if it is a number without one. */
  lemma SendsExactly(row: Row)
    ensures Sends(row) <==> if row.command != "" then !Blank(row.command) else ValueRow(row)
  {
    if ValueRow(row) {
      var text := TextOf(row);
      assert '=' in text by {
        if '=' !in row.value {
          assert text[|row.name.value| + 1] == " = "[1] == '=';
        }
      }
    }
  }

  lemma AssignmentFilled(rows: seq<Row>, labels: seq<string>, known: nat, k: nat, name: string, value: string)
    requires Numbered(rows) && k < |rows| && rows[k].name == Some(name) && forall i :: k < i < |rows| ==> rows[i].name != Some(name)
    requires known <= k
    ensures MapTokens(ShowFilled(rows, labels, known), false, name + " = " + value) ==
      Register(k + 1) + " = " + MapTokens(ShowFilled(rows, labels, known), false, value)
  {
    NameRefers(rows, k, name);
    BothSides(ShowFilled(rows, labels, known), name, value);
    assert ShowFilled(rows, labels, known)(NameToken(name)) == Register(k + 1) + Primes(0) == Register(k + 1);
  }

  /** With one label for each command that is sent: what the applet gets for a row.  The register of the row's own name is
      never filled, because no label of the row or behind it is known yet. */
  lemma RowsAreSent(rows: seq<Row>, labels: seq<string>, applet: nat -> Reply, j: nat) returns (k: nat)
    requires Numbered(rows) && Answered(rows, labels, applet) && j < |rows|
    requires if rows[j].command != "" then !Blank(rows[j].command) else ValueRow(rows[j])
    ensures rows[j].name.Some? ==>
      j <= k < |rows| && rows[k].name == rows[j].name && forall i :: k < i < |rows| ==> rows[i].name != rows[j].name
    ensures var row, run, known := rows[j], Ran(CommandsUpTo(rows, |rows|), applet), Place(rows, j);
      known < |run.sent| && run.sent[known] ==
        if row.command != "" then MapTokens(ShowFilled(rows, labels, known), false, row.command)
        else if '=' in row.value then MapTokens(ShowFilled(rows, labels, known), false, row.value)
        else Register(k + 1) + " = " + MapTokens(ShowFilled(rows, labels, known), false, row.value)
  {
    var row := rows[j];
    k := j;
    SendsExactly(row);
    RunsFillRegisters(rows, labels, applet, j);
    if row.name.Some? {
      k := LastRow(rows, j);
    }
    if row.command == "" && '=' !in row.value {
      AssignmentFilled(rows, labels, Place(rows, j), k, row.name.value, row.value);
    }
  }
}
