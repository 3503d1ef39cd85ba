/** Whole sessions, from the calls of the user interface to the contents of the store. */
module Sessions {
  import opened Options
  import opened JsonValues
  import opened Observer
  import opened ObserverLog
  import opened ObserverService
  import opened Payloads
  import ActionBatch
  import opened Ingest

  type Entry = ActionBatch.Entry

  // ---------- What a list of actions makes of the store ----------

  /** The action gives no value to this name. */
  ghost predicate LeavesAlone(e: Entry, name: Json) {
    forall value :: !Assigns(e.payload, name, value)
  }

  lemma OneAction(s: Server, e: Entry)
    requires !Rejected(e.payload)
    ensures TakesEffect(s, Updated(s, [e]), e.payload)
  {
    assert [e][1..] == [];
    UpdatesTakeEffect(s, e.payload);
  }

  lemma OneMore(s: Server, entries: seq<Entry>)
    requires entries != []
    ensures Updated(s, entries) == Updated(Updated(s, [entries[0]]), entries[1..])
  {
    assert [entries[0]][1..] == [];
  }

  lemma OneLeavesAlone(s: Server, e: Entry, name: Json)
    requires !Rejected(e.payload) && LeavesAlone(e, name)
    ensures AgreeOn(s.objs, Updated(s, [e]).objs, Key(name))
  {
    OneAction(s, e);
  }

  lemma OneGives(s: Server, e: Entry, name: Json, value: Json)
    requires !Rejected(e.payload) && Assigns(e.payload, name, value)
    ensures Key(name) in Updated(s, [e]).objs && Updated(s, [e]).objs[Key(name)] == Val(value)
  {
    OneAction(s, e);
  }

  lemma {:induction false} AllLeaveAlone(s: Server, entries: seq<Entry>, name: Json)
    requires forall i :: 0 <= i < |entries| ==> !Rejected(entries[i].payload) && LeavesAlone(entries[i], name)
    ensures AgreeOn(s.objs, Updated(s, entries).objs, Key(name))
    decreases |entries|
  {
    if entries != [] {
      OneMore(s, entries);
      OneLeavesAlone(s, entries[0], name);
      AllLeaveAlone(Updated(s, [entries[0]]), entries[1..], name);
    }
  }

  lemma {:induction false} LastGiven(s: Server, entries: seq<Entry>, n: nat, name: Json, value: Json)
    requires forall i :: 0 <= i < |entries| ==> !Rejected(entries[i].payload)
    requires n < |entries| && Assigns(entries[n].payload, name, value)
    requires forall i :: n < i < |entries| ==> LeavesAlone(entries[i], name)
    ensures Key(name) in Updated(s, entries).objs && Updated(s, entries).objs[Key(name)] == Val(value)
    decreases |entries|
  {
    var rest := entries[1..];
    OneMore(s, entries);
    assert forall i :: 0 <= i < |rest| ==> rest[i] == entries[i + 1];
    if n == 0 {
      OneGives(s, entries[0], name, value);
      AllLeaveAlone(Updated(s, [entries[0]]), rest, name);
    } else {
      LastGiven(Updated(s, [entries[0]]), rest, n - 1, name, value);
    }
  }

  // ---------- Sessions ----------

  /** All messages were sent, none failed, no action names something that cannot be a key, and no other
      submission reads as a bulk. */
  ghost predicate Smooth(steps: seq<ActionBatch.Step>) {
    && ActionBatch.After(steps).Some? && ActionBatch.Drained(ActionBatch.After(steps).value)
    && (forall i :: 0 <= i < |ActionBatch.After(steps).value.ended| ==> ActionBatch.After(steps).value.ended[i].1)
    && (forall i :: 0 <= i < |ActionBatch.Actions(steps)| ==> !Rejected(ActionBatch.Actions(steps)[i].payload))
    && (forall m :: m in ActionBatch.Others(steps) ==> m.kind != Some("bulk_actions"))
  }

  /** What the receiving side is after everything that a session sent has arrived in order. */
  function Delivered(steps: seq<ActionBatch.Step>, h: Hub): Hub
    requires ActionBatch.After(steps).Some?
  {
    TakeMessages(h, ActionBatch.Arrived(ActionBatch.After(steps).value.ended))
  }

  lemma {:induction false} PlainIsWhole(ms: seq<ActionBatch.Message>, m: ActionBatch.Message)
    requires m in ms && m.Plain?
    ensures m.submission in ActionBatch.Wholes(ms)
  {
    var n := |ms| - 1;
    assert ms == ms[..n] + [ms[n]];
    if m != ms[n] {
      PlainIsWhole(ms[..n], m);
    }
  }

  lemma SmoothMessages(steps: seq<ActionBatch.Step>)
    requires Smooth(steps)
    ensures var c := ActionBatch.After(steps).value;
      && ActionBatch.Arrived(c.ended) == c.queued && ActionBatch.AllEntries(c.queued) == ActionBatch.Actions(steps)
      && ActionBatch.Wholes(c.queued) == ActionBatch.Others(steps)
      && NoLoneBulks(c.queued) && NoLoneUpdates(c.queued) && AllFine(ActionBatch.Actions(steps))
  {
    var c := ActionBatch.After(steps).value;
    ActionBatch.DrainedClientsLoseNothing(steps);
    ActionBatch.CallsAreTaken(steps);
    ActionBatch.RunsKeepInv(steps);
    forall m | m in c.queued && m.Plain? ensures m.submission.kind != Some("bulk_actions") {
      PlainIsWhole(c.queued, m);
    }
    forall i | 0 <= i < |ActionBatch.Actions(steps)| ensures Fine(ActionBatch.Actions(steps)[i]) {
      PayloadsMean(ActionBatch.Actions(steps)[i].payload);
    }
  }

  lemma StoreIsUpdated(steps: seq<ActionBatch.Step>, h: Hub)
    requires Smooth(steps)
    ensures Delivered(steps, h).server == Updated(h.server, ActionBatch.Actions(steps))
  {
    SmoothMessages(steps);
    var c := ActionBatch.After(steps).value;
    MessagesUpdate(h, c.queued);
    AllEntriesTaken(c.queued);
  }

  /** The value that the last submitted action with this name gives it is the one that the store holds. */
  lemma LastSubmittedHolds(steps: seq<ActionBatch.Step>, h: Hub, n: nat, name: Json, value: Json)
    requires Smooth(steps)
    requires var actions := ActionBatch.Actions(steps);
      && n < |actions| && Assigns(actions[n].payload, name, value)
      && forall i :: n < i < |actions| ==> LeavesAlone(actions[i], name)
    ensures var objs := Delivered(steps, h).server.objs; Key(name) in objs && objs[Key(name)] == Val(value)
  {
    StoreIsUpdated(steps, h);
    LastGiven(h.server, ActionBatch.Actions(steps), n, name, value);
  }

  /** A name to which no action gives a value has in the store what it had before. */
  lemma OtherNamesStay(steps: seq<ActionBatch.Step>, h: Hub, name: Json)
    requires Smooth(steps)
    requires var actions := ActionBatch.Actions(steps); forall i :: 0 <= i < |actions| ==> LeavesAlone(actions[i], name)
    ensures AgreeOn(h.server.objs, Delivered(steps, h).server.objs, Key(name))
  {
    StoreIsUpdated(steps, h);
    AllLeaveAlone(h.server, ActionBatch.Actions(steps), name);
  }

  /** The simplest session: one update, sent at once. */
  function OneUpdate(name: Json, value: Json, text: string): seq<ActionBatch.Step> {
    [ActionBatch.Call(ActionBatch.Submission(Some("object_update"), Obj(map["name" := name, "value" := value]), text)),
     ActionBatch.Begin, ActionBatch.End(true)]
  }

  lemma OneStepMore(steps: seq<ActionBatch.Step>, step: ActionBatch.Step, c: ActionBatch.Client)
    requires ActionBatch.After(steps) == Some(c) && ActionBatch.Enabled(c, step)
    ensures ActionBatch.After(steps + [step]) == Some(ActionBatch.Next(c, step))
    ensures !step.Call? ==> ActionBatch.Actions(steps + [step]) == ActionBatch.Actions(steps)
    ensures !step.Call? ==> ActionBatch.Others(steps + [step]) == ActionBatch.Others(steps)
  {
    assert (steps + [step])[..|steps|] == steps;
  }

  lemma FirstUpdate(m: ActionBatch.Submission)
    requires m.kind == Some("object_update")
    ensures var e := ActionBatch.Entry("object_update", m.payload);
      ActionBatch.Called(ActionBatch.INITIAL, m) ==
      ActionBatch.Client([], false, false, [ActionBatch.Bulk([e])], None, [e], [ActionBatch.Bulk([e])], [])
  {
    var e := ActionBatch.Entry("object_update", m.payload);
    var batch := ActionBatch.Bulk([e]);
    var c := ActionBatch.INITIAL;
    assert c.buffer + [e] == [e] && c.accepted + [e] == [e] && c.queue + [batch] == [batch] && c.queued + [batch] == [batch];
    assert ActionBatch.IsAction(m);
  }

  lemma AfterOneUpdate(name: Json, value: Json, text: string)
    ensures var steps, e := OneUpdate(name, value, text), ActionBatch.Entry("object_update", Obj(map["name" := name, "value" := value]));
      && ActionBatch.Actions(steps) == [e] && ActionBatch.Others(steps) == []
      && ActionBatch.After(steps) ==
           Some(ActionBatch.Client([], false, false, [], None, [e], [ActionBatch.Bulk([e])], [(ActionBatch.Bulk([e]), true)]))
  {
    var steps := OneUpdate(name, value, text);
    var one, two, m := [steps[0]], [steps[0], steps[1]], steps[0].m;
    var e := ActionBatch.Entry("object_update", m.payload);
    var batch := ActionBatch.Bulk([e]);
    var c := ActionBatch.Client([], false, false, [batch], None, [e], [batch], []);
    var d := ActionBatch.Client([], false, false, [], Some(batch), [e], [batch], []);
    ActionBatch.OneCall(m);
    FirstUpdate(m);
    assert [] + one == one && one[..0] == [] && one + [ActionBatch.Begin] == two && two + [ActionBatch.End(true)] == steps;
    OneStepMore([], steps[0], ActionBatch.INITIAL);
    OneStepMore(one, ActionBatch.Begin, c);
    assert c.queue[1..] == [];
    assert ActionBatch.Next(c, ActionBatch.Begin) == d;
    OneStepMore(two, ActionBatch.End(true), d);
    assert d.ended + [(batch, true)] == [(batch, true)];
  }

  lemma OneUpdateArrives(name: Json, value: Json, text: string, h: Hub)
    requires Hashable(name)
    ensures Smooth(OneUpdate(name, value, text))
    ensures var s := Delivered(OneUpdate(name, value, text), h).server;
      Key(name) in s.objs && s.objs[Key(name)] == Val(value) && s.seqNo == h.server.seqNo + 1
  {
    var steps := OneUpdate(name, value, text);
    AfterOneUpdate(name, value, text);
    var e := ActionBatch.Actions(steps)[0];
    assert "name" != "value" by { assert "name"[0] == 'n' && "value"[0] == 'v'; }
    assert Assigns(e.payload, name, value);
    StoreIsUpdated(steps, h);
    OneAction(h.server, e);
  }

  // ---------- What is passed on ----------

  function ItemsOf(passed: seq<Passed>): seq<Entry> {
    if passed == [] then []
    else ItemsOf(passed[..|passed| - 1]) + if passed[|passed| - 1].Item? then [passed[|passed| - 1].entry] else []
  }

  function WholesOf(passed: seq<Passed>): seq<ActionBatch.Submission> {
    if passed == [] then []
    else WholesOf(passed[..|passed| - 1]) + if passed[|passed| - 1].Whole? then [passed[|passed| - 1].submission] else []
  }

  /** The actions that are no updates and bring no list or dictionary. */
  function Notices(entries: seq<Entry>): seq<Entry> {
    if entries == [] then []
    else
      var e := entries[0];
      (if e.kind == "object_update" || e.payload.Arr? || e.payload.Obj? then [] else [e]) + Notices(entries[1..])
  }

  lemma PassedMore(passed: seq<Passed>, p: Passed)
    ensures ItemsOf(passed + [p]) == ItemsOf(passed) + if p.Item? then [p.entry] else []
    ensures WholesOf(passed + [p]) == WholesOf(passed) + if p.Whole? then [p.submission] else []
  {
    assert (passed + [p])[..|passed|] == passed;
  }

  lemma EntryPasses(h: Hub, e: Entry)
    requires Fine(e)
    ensures TakeEntry(h, e).Some?
    ensures ItemsOf(TakeEntry(h, e).value.passedOn) == ItemsOf(h.passedOn) + Notices([e])
    ensures WholesOf(TakeEntry(h, e).value.passedOn) == WholesOf(h.passedOn)
  {
    PassedMore(h.passedOn, Item(e));
    assert [e][1..] == [] && Notices([]) == [];
    assert ItemsOf(h.passedOn) + [] == ItemsOf(h.passedOn);
  }

  lemma {:induction false} BulkPasses(h: Hub, entries: seq<Entry>)
    requires AllFine(entries)
    ensures ItemsOf(TakeBulk(h, entries).passedOn) == ItemsOf(h.passedOn) + Notices(entries)
    ensures WholesOf(TakeBulk(h, entries).passedOn) == WholesOf(h.passedOn)
    decreases |entries|
  {
    if entries != [] {
      var e, rest := entries[0], entries[1..];
      assert Fine(e);
      EntryPasses(h, e);
      BulkPasses(TakeEntry(h, e).value, rest);
      assert entries == [e] + rest;
      NoticesJoin([e], rest);
      Rejoin(ItemsOf(h.passedOn), Notices([e]), Notices(rest));
    }
  }

  lemma {:induction false} NoticesJoin(a: seq<Entry>, b: seq<Entry>)
    ensures Notices(a + b) == Notices(a) + Notices(b)
  {
    if a == [] {
      assert a + b == b;
    } else {
      assert (a + b)[1..] == a[1..] + b;
      NoticesJoin(a[1..], b);
    }
  }

  function WholeOf(m: ActionBatch.Message): seq<ActionBatch.Submission> {
    if m.Plain? then [m.submission] else []
  }

  lemma {:induction false} WholesFromFront(ms: seq<ActionBatch.Message>)
    requires ms != []
    ensures ActionBatch.Wholes(ms) == WholeOf(ms[0]) + ActionBatch.Wholes(ms[1..])
  {
    var n := |ms| - 1;
    if n > 0 {
      WholesFromFront(ms[..n]);
      assert ms[..n][1..] == ms[1..n] == ms[1..][..n - 1];
      Rejoin(WholeOf(ms[0]), ActionBatch.Wholes(ms[1..n]), WholeOf(ms[n]));
    } else {
      assert ms[1..] == [] && ActionBatch.Wholes(ms[..0]) == [];
    }
  }

  lemma Rejoin<T>(a: seq<T>, b: seq<T>, c: seq<T>)
    ensures a + b + c == a + (b + c)
  {
  }

  /** From one state to the other, these actions and submissions were passed on. */
  predicate PassesOn(h: Hub, k: Hub, actions: seq<Entry>, others: seq<ActionBatch.Submission>) {
    && ItemsOf(k.passedOn) == ItemsOf(h.passedOn) + Notices(actions)
    && WholesOf(k.passedOn) == WholesOf(h.passedOn) + others
  }

  lemma PassedBoth(h: Hub, k: Hub, l: Hub, a: seq<Entry>, s: seq<ActionBatch.Submission>,
                   b: seq<Entry>, t: seq<ActionBatch.Submission>)
    requires PassesOn(h, k, a, s) && PassesOn(k, l, b, t)
    ensures PassesOn(h, l, a + b, s + t)
  {
    NoticesJoin(a, b);
    Rejoin(ItemsOf(h.passedOn), Notices(a), Notices(b));
    Rejoin(WholesOf(h.passedOn), s, t);
  }

  lemma OnePasses(h: Hub, m: ActionBatch.Message)
    requires NoLoneBulks([m]) && NoLoneUpdates([m]) && AllFine(ActionBatch.EntriesOf(m))
    ensures PassesOn(h, TakeMessage(h, m), ActionBatch.EntriesOf(m), WholeOf(m))
  {
    assert m in [m];
    match m
    case Bulk(entries) => BulkPasses(h, entries);
    case Plain(submission) => PassedMore(h.passedOn, Whole(submission));
  }

  lemma {:induction false} MessagesPass(h: Hub, ms: seq<ActionBatch.Message>)
    requires NoLoneBulks(ms) && NoLoneUpdates(ms) && AllFine(ActionBatch.AllEntries(ms))
    ensures PassesOn(h, TakeMessages(h, ms), ActionBatch.AllEntries(ms), ActionBatch.Wholes(ms))
    decreases |ms|
  {
    if ms != [] {
      var first, rest := ActionBatch.EntriesOf(ms[0]), ActionBatch.AllEntries(ms[1..]);
      var next := TakeMessage(h, ms[0]);
      EntriesFromFront(ms);
      WholesFromFront(ms);
      FineParts(first, rest);
      OnePasses(h, ms[0]);
      MessagesPass(next, ms[1..]);
      PassedBoth(h, next, TakeMessages(next, ms[1..]), first, WholeOf(ms[0]), rest, ActionBatch.Wholes(ms[1..]));
    }
  }

  lemma FineParts(a: seq<Entry>, b: seq<Entry>)
    requires AllFine(a + b)
    ensures AllFine(a) && AllFine(b)
  {
    assert forall i :: 0 <= i < |a| ==> (a + b)[i] == a[i];
    assert forall i :: 0 <= i < |b| ==> (a + b)[|a| + i] == b[i];
  }

  /** Every other action and every other submission is passed on, once and in order. */
  lemma OthersArePassedOn(steps: seq<ActionBatch.Step>, h: Hub)
    requires Smooth(steps)
    ensures PassesOn(h, Delivered(steps, h), ActionBatch.Actions(steps), ActionBatch.Others(steps))
  {
    SmoothMessages(steps);
    MessagesPass(h, ActionBatch.After(steps).value.queued);
  }

  // ---------- Batches as text ----------

  /** The entries of a batch as they are sent. */
  function Encoded(entries: seq<Entry>): seq<Json> {
    if entries == [] then []
    else [Obj(map["type" := Text(entries[0].kind), "payload" := entries[0].payload])] + Encoded(entries[1..])
  }

  lemma {:induction false} ItemsAreRead(entries: seq<Entry>)
    ensures Items(Encoded(entries)) == entries
  {
    if entries != [] {
      assert "type" != "payload" by { assert "type"[0] == 't' && "payload"[0] == 'p'; }
      ItemsAreRead(entries[1..]);
      assert Encoded(entries)[1..] == Encoded(entries[1..]);
    }
  }

  /** A message that holds the entries of a batch as text is taken as the batch. */
  lemma TextsAreBatches(h: Hub, entries: seq<Entry>, text: string)
    ensures TakeMessage(h, ActionBatch.Plain(ActionBatch.Submission(Some("bulk_actions"), Arr(Encoded(entries)), text))) ==
      TakeMessage(h, ActionBatch.Bulk(entries))
  {
    ItemsAreRead(entries);
  }

  lemma ItemsStep(item: Json, rest: seq<Json>)
    ensures Items([item] + rest) == (if item.Obj? then [ItemEntry(item.members)] else []) + Items(rest)
  {
    assert ([item] + rest)[1..] == rest;
  }

  lemma {:induction false} ItemsJoin(a: seq<Json>, b: seq<Json>)
    ensures Items(a + b) == Items(a) + Items(b)
  {
    if a == [] {
      assert a + b == b;
    } else {
      var first := if a[0].Obj? then [ItemEntry(a[0].members)] else [];
      ItemsJoin(a[1..], b);
      ItemsStep(a[0], a[1..] + b);
      assert a + b == [a[0]] + (a[1..] + b);
      Rejoin(first, Items(a[1..]), Items(b));
    }
  }

  /** Items of such a message that are no dictionaries count for nothing. */
  lemma OtherItemsAreSkipped(h: Hub, a: seq<Json>, item: Json, b: seq<Json>, text: string)
    requires !item.Obj?
    ensures TakeMessage(h, ActionBatch.Plain(ActionBatch.Submission(Some("bulk_actions"), Arr(a + [item] + b), text))) ==
      TakeMessage(h, ActionBatch.Plain(ActionBatch.Submission(Some("bulk_actions"), Arr(a + b), text)))
  {
    ItemsJoin(a + [item], b);
    ItemsJoin(a, [item]);
    ItemsJoin(a, b);
    assert [item][1..] == [] && Items([item]) == [] && Items(a) + [] == Items(a);
  }

  /** An update that comes as a message of its own takes effect, unless it names something that cannot be a key. */
  lemma LoneUpdatesTakeEffect(h: Hub, payload: Json, text: string)
    ensures var k := TakeMessage(h, ActionBatch.Plain(ActionBatch.Submission(Some("object_update"), payload, text)));
      k.passedOn == h.passedOn && if Rejected(payload) then k.server == h.server else TakesEffect(h.server, k.server, payload)
  {
    UpdatesTakeEffect(h.server, payload);
  }
}
