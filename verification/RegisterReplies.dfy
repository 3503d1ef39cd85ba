/** What the registers hold after a reply, what reading one gives, and when a run stops. */
module RegisterReplies {
  import opened Options
  import opened Chars
  import opened WordText
  import opened Registers
  import opened RegisterTable
  import opened RegisterRun
  import opened RegisterLabels

  // ---------- Reading ----------

  function Underscores(n: nat): (w: string)
    ensures |w| == n && forall i :: 0 <= i < n ==> w[i] == '_'
  {
    seq(n, _ => '_')
  }

  lemma ReadsWord(results: seq<Entry>, w: string)
    requires Word(w) && ReadsAsRegister(w)
    ensures Substituted(results, w) == Lookup(results, w)
  {
    SubRegisters(results, w);
    WordAlone(Resolve(results), w);
    assert Lookup(results, w) + Primes(0) == Lookup(results, w);
  }

  /** A run of underscores counts back from the last result. */
  lemma UnderscoresCountBack(results: seq<Entry>, n: nat)
    requires n > 0
    ensures Substituted(results, Underscores(n)) ==
      if n <= |results| then Stringify(results[|results| - n]) else Underscores(n)
  {
    var w := Underscores(n);
    assert w[0] == '_';
    assert n > 1 ==> !IsDigit(w[1]);
    ReadsWord(results, w);
  }

  /** A number counts from the first one. */
  lemma NumbersCount(results: seq<Entry>, n: nat)
    ensures Substituted(results, Register(n)) ==
      if 1 <= n <= |results| then Stringify(results[n - 1]) else Register(n)
  {
    DecimalIsRead(n);
    assert Register(n)[1..] == Decimal(n);
    ReadsWord(results, Register(n));
  }

  // ---------- Several labels in one reply ----------

  /** A label without commas, brackets and blanks at its ends. */
  predicate Tidy(item: string) {
    && item != "" && !IsSpace(item[0]) && !IsSpace(item[|item| - 1])
    && ',' !in item && '(' !in item && ')' !in item
  }

  function Joined(labels: seq<string>, blanks: string): string {
    if labels == [] then ""
    else if |labels| == 1 then labels[0]
    else labels[0] + "," + (blanks + Joined(labels[1..], blanks))
  }

  function AsEntries(labels: seq<string>): seq<Entry> {
    if labels == [] then [] else [Label(labels[0])] + AsEntries(labels[1..])
  }

  lemma {:induction false} StripBlanks(blanks: string, item: string)
    requires Blank(blanks) && Tidy(item)
    ensures Strip(blanks + item) == item
  {
    if blanks == "" {
      assert blanks + item == item;
    } else {
      assert IsSpace(blanks[0]) && (blanks + item)[1..] == blanks[1..] + item;
      StripBlanks(blanks[1..], item);
    }
  }

  lemma {:induction false} FirstPartIs(s: string, rest: string)
    requires ',' !in s && (rest == "" || rest[0] == ',')
    ensures FirstPart(s + rest) == s
  {
    if s == "" {
      assert s + rest == rest;
    } else {
      assert (s + rest)[1..] == s[1..] + rest && s[0] in s;
      FirstPartIs(s[1..], rest);
    }
  }

  lemma BlankHasNone(blanks: string, c: char)
    requires Blank(blanks) && !IsSpace(c)
    ensures c !in blanks
  {
  }

  lemma LabelPart(blanks: string, item: string, rest: string)
    requires Blank(blanks) && Tidy(item) && (rest == "" || rest[0] == ',')
    ensures FirstPart(blanks + item + rest) == blanks + item && Strip(blanks + item) == item
  {
    BlankHasNone(blanks, ',');
    assert ',' !in blanks + item;
    FirstPartIs(blanks + item, rest);
    StripBlanks(blanks, item);
  }

  lemma PartsStep(s: string, first: string)
    requires FirstPart(s) == first && |first| < |s|
    ensures Parts(s) == [Label(Strip(first))] + Parts(s[|first| + 1..])
  {
  }

  lemma LastPart(first: string)
    requires FirstPart(first) == first
    ensures Parts(first) == [Label(Strip(first))]
  {
  }

  lemma Apart(before: string, item: string, rest: string)
    ensures before + (item + "," + rest) == (before + item) + ("," + rest)
    ensures ((before + item) + ("," + rest))[|before + item| + 1..] == rest
  {
  }

  lemma PartsSplit(s: string, first: string, item: string, rest: string)
    requires FirstPart(s) == first && |first| < |s| && Strip(first) == item && s[|first| + 1..] == rest
    ensures Parts(s) == [Label(item)] + Parts(rest)
  {
    PartsStep(s, first);
  }

  lemma PartsMore(before: string, item: string, rest: string)
    requires Blank(before) && Tidy(item)
    ensures Parts(before + (item + "," + rest)) == [Label(item)] + Parts(rest)
  {
    LabelPart(before, item, "," + rest);
    Apart(before, item, rest);
    PartsSplit(before + item + ("," + rest), before + item, item, rest);
  }

  lemma PartsOne(before: string, item: string)
    requires Blank(before) && Tidy(item)
    ensures Parts(before + item) == [Label(item)]
  {
    LabelPart(before, item, "");
    assert before + item + "" == before + item;
    LastPart(before + item);
  }

  lemma {:induction false} PartsAreLabels(labels: seq<string>, before: string, blanks: string)
    requires labels != [] && Blank(before) && Blank(blanks) && forall i :: 0 <= i < |labels| ==> Tidy(labels[i])
    ensures Parts(before + Joined(labels, blanks)) == AsEntries(labels)
    decreases |labels|
  {
    if |labels| == 1 {
      PartsOne(before, labels[0]);
      assert labels[1..] == [];
    } else {
      PartsMore(before, labels[0], blanks + Joined(labels[1..], blanks));
      PartsAreLabels(labels[1..], blanks, blanks);
    }
  }

  lemma {:induction false} JoinedIsPlain(labels: seq<string>, blanks: string, c: char)
    requires Blank(blanks) && (c == '(' || c == ')') && forall i :: 0 <= i < |labels| ==> Tidy(labels[i])
    ensures c !in Joined(labels, blanks)
  {
    if |labels| > 1 {
      BlankHasNone(blanks, c);
      JoinedIsPlain(labels[1..], blanks, c);
      assert c !in labels[0] && c !in ",";
      assert c !in blanks + Joined(labels[1..], blanks);
    }
  }

  lemma JoinedIsPacked(labels: seq<string>, blanks: string)
    requires |labels| > 1 && Blank(blanks) && forall i :: 0 <= i < |labels| ==> Tidy(labels[i])
    ensures Packed(Joined(labels, blanks))
  {
    JoinedIsPlain(labels, blanks, '(');
    JoinedIsPlain(labels, blanks, ')');
    assert Joined(labels, blanks)[|labels[0]|] == ',';
  }

  lemma StripTidy(item: string)
    requires Tidy(item)
    ensures Strip(item) == item
  {
  }

  lemma JoinedParts(labels: seq<string>, blanks: string)
    requires labels != [] && Blank(blanks) && forall i :: 0 <= i < |labels| ==> Tidy(labels[i])
    ensures Parts(Joined(labels, blanks)) == AsEntries(labels)
  {
    PartsAreLabels(labels, "", blanks);
    assert "" + Joined(labels, blanks) == Joined(labels, blanks);
  }

  lemma FirstLabel(labels: seq<string>, blanks: string)
    requires |labels| > 1 && Tidy(labels[0])
    ensures Strip(FirstPart(Joined(labels, blanks))) == labels[0]
  {
    var tail := blanks + Joined(labels[1..], blanks);
    assert labels[0] + "," + tail == labels[0] + ("," + tail);
    FirstPartIs(labels[0], "," + tail);
    StripTidy(labels[0]);
  }

  /** A reply that lists several labels fills one register with each, in order; if it is put in a register as it
      is, reading that gives the first label. */
  lemma PackedRepliesSplit(results: seq<Entry>, labels: seq<string>, blanks: string)
    requires |labels| > 1 && Blank(blanks) && forall i :: 0 <= i < |labels| ==> Tidy(labels[i])
    ensures Recorded(results, One(Joined(labels, blanks))) == results + AsEntries(labels)
    ensures Stringify(Label(Joined(labels, blanks))) == labels[0]
  {
    JoinedIsPacked(labels, blanks);
    JoinedParts(labels, blanks);
    FirstLabel(labels, blanks);
  }

  function Present(items: seq<string>): seq<Option<string>> {
    if items == [] then [] else [Some(items[0])] + Present(items[1..])
  }

  lemma {:induction false} LabelsJoin(a: seq<Option<string>>, b: seq<Option<string>>)
    ensures Labels(a + b) == Labels(a) + Labels(b)
  {
    if a == [] {
      assert a + b == b;
    } else {
      assert (a + b)[1..] == a[1..] + b;
      LabelsJoin(a[1..], b);
    }
  }

  lemma {:induction false} PresentLabels(items: seq<string>)
    ensures Labels(Present(items)) == AsEntries(items)
  {
    if items != [] {
      PresentLabels(items[1..]);
      assert Present(items)[1..] == Present(items[1..]);
    }
  }

  /** A reply that is a list fills one register with each of its items, and missing ones are skipped. */
  lemma ListRepliesFill(results: seq<Entry>, a: seq<string>, b: seq<string>)
    ensures Recorded(results, Several(Present(a) + [None] + Present(b))) == results + AsEntries(a) + AsEntries(b)
  {
    var none: seq<Option<string>> := [None];
    assert none[1..] == [] && Labels(none) == [];
    LabelsJoin(Present(a) + none, Present(b));
    LabelsJoin(Present(a), none);
    PresentLabels(a);
    PresentLabels(b);
    assert AsEntries(a) + [] == AsEntries(a);
    assert results + (AsEntries(a) + AsEntries(b)) == results + AsEntries(a) + AsEntries(b);
  }

  // ---------- When a run stops ----------

  /** After a refused command nothing more is sent, and the report is all that is left. */
  lemma RefusalStops(cmds: seq<string>, i: nat, applet: nat -> Reply, shown: string)
    requires i < |cmds| && !Blank(cmds[i]) && !Ran(cmds[..i], applet).stopped
    requires applet(|Ran(cmds[..i], applet).sent|) == Refused(shown)
    ensures var run, before := Ran(cmds, applet), Ran(cmds[..i], applet);
      |run.sent| == |before.sent| + 1 && run.sent[..|before.sent|] == before.sent && run.results == [Report(shown)]
  {
    assert cmds[..i + 1][..i] == cmds[..i];
    StoppedForGood(cmds, applet, i + 1);
  }

  function NotBlank(cmds: seq<string>): nat {
    if cmds == [] then 0 else NotBlank(cmds[..|cmds| - 1]) + if Blank(cmds[|cmds| - 1]) then 0 else 1
  }

  /** Nothing else stops it: without a refusal, one command is sent for each that is not blank. */
  lemma {:induction false} OnlyRefusalStops(cmds: seq<string>, applet: nat -> Reply)
    requires forall k :: 0 <= k < NotBlank(cmds) ==> !applet(k).Refused?
    ensures !Ran(cmds, applet).stopped && |Ran(cmds, applet).sent| == NotBlank(cmds)
  {
    if cmds != [] {
      OnlyRefusalStops(cmds[..|cmds| - 1], applet);
    }
  }
}
