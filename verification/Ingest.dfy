/** The receiving side: messages to the replicated store, one by one or in bulk. */
module Ingest {
  import opened Options
  import opened JsonValues
  import opened Observer
  import opened ObserverService
  import opened Payloads
  import opened ActionBatch

  /** What is passed on to whoever reads it: an entry, or a whole message. */
  datatype Passed = Item(entry: Entry) | Whole(submission: Submission)

  datatype Hub = Hub(server: Server, passedOn: seq<Passed>)

  predicate Container(j: Json) { j.Arr? || j.Obj? }

  /** A bulk takes an entry for an update by its kind, or by the looks of its payload. */
  predicate IsUpdate(e: Entry) {
    e.kind == "object_update" || Container(e.payload)
  }

  /** One entry of a bulk.  `None`: the handler fails. */
  function TakeEntry(h: Hub, e: Entry): Option<Hub> {
    if IsUpdate(e) then
      match Handled(h.server, e.payload)
      case None => None
      case Some(s) => Some(h.(server := s))
    else Some(h.(passedOn := h.passedOn + [Item(e)]))
  }

  /** A failure ends the handler and with it the rest of the bulk. */
  function TakeBulk(h: Hub, entries: seq<Entry>): Hub
    decreases |entries|
  {
    if entries == [] then h
    else
      match TakeEntry(h, entries[0])
      case None => h
      case Some(next) => TakeBulk(next, entries[1..])
  }

  /** A message of its own. */
  function TakeSingle(h: Hub, e: Entry): Hub {
    if e.kind == "object_update" then
      match Handled(h.server, e.payload)
      case None => h
      case Some(s) => h.(server := s)
    else h.(passedOn := h.passedOn + [Item(e)])
  }

  function TakeSingles(h: Hub, entries: seq<Entry>): Hub
    decreases |entries|
  {
    if entries == [] then h else TakeSingles(TakeSingle(h, entries[0]), entries[1..])
  }

  /** The entries of a bulk that was written by hand; items that are no dictionaries are skipped. */
  function Items(items: seq<Json>): seq<Entry> {
    if items == [] then []
    else (if items[0].Obj? then [ItemEntry(items[0].members)] else []) + Items(items[1..])
  }

  function ItemEntry(members: map<string, Json>): Entry {
    Entry(if "type" in members && members["type"].Text? then members["type"].text else "",
          if "payload" in members then members["payload"] else Null)
  }

  /** The entries that a message brings: those of a batch, or of a message that reads as one. */
  function EntriesIn(m: ActionBatch.Message): seq<Entry> {
    match m
    case Bulk(entries) => entries
    case Plain(submission) =>
      if submission.kind == Some("bulk_actions") && submission.payload.Arr? then Items(submission.payload.items) else []
  }

  function TakeMessage(h: Hub, m: ActionBatch.Message): Hub {
    if m.Bulk? || m.submission.kind == Some("bulk_actions") then TakeBulk(h, EntriesIn(m))
    else if m.submission.kind == Some("object_update") then TakeSingle(h, Entry("object_update", m.submission.payload))
    else h.(passedOn := h.passedOn + [Whole(m.submission)])
  }

  function TakeMessages(h: Hub, ms: seq<ActionBatch.Message>): Hub
    decreases |ms|
  {
    if ms == [] then h else TakeMessages(TakeMessage(h, ms[0]), ms[1..])
  }

  /** The handler does not fail on this payload. */
  predicate Fine(e: Entry) {
    ParseChanges(e.payload).Some?
  }

  predicate AllFine(entries: seq<Entry>) {
    forall i :: 0 <= i < |entries| ==> Fine(entries[i])
  }

  /** In bulk and alone, this entry is treated alike. */
  predicate Alike(e: Entry) {
    e.kind == "object_update" || !Container(e.payload)
  }

  predicate AllAlike(entries: seq<Entry>) {
    forall i :: 0 <= i < |entries| ==> Alike(entries[i])
  }

  lemma {:induction false} BulkPassesOnLess(h: Hub, g: Hub, entries: seq<Entry>)
    requires AllFine(entries) && |h.passedOn| <= |g.passedOn|
    ensures |TakeBulk(h, entries).passedOn| <= |TakeSingles(g, entries).passedOn|
    ensures !AllAlike(entries) || |h.passedOn| < |g.passedOn| ==>
      |TakeBulk(h, entries).passedOn| < |TakeSingles(g, entries).passedOn|
    decreases |entries|
  {
    if entries != [] {
      assert Fine(entries[0]);
      BulkPassesOnLess(TakeEntry(h, entries[0]).value, TakeSingle(g, entries[0]), entries[1..]);
      if AllAlike(entries[1..]) && Alike(entries[0]) {
        assert forall i :: 1 <= i < |entries| ==> entries[i] == entries[1..][i - 1];
      }
    }
  }

  lemma {:induction false} AlikeIsSame(h: Hub, entries: seq<Entry>)
    requires AllFine(entries) && AllAlike(entries)
    ensures TakeBulk(h, entries) == TakeSingles(h, entries)
    decreases |entries|
  {
    if entries != [] {
      assert Fine(entries[0]) && Alike(entries[0]);
      AlikeIsSame(TakeSingle(h, entries[0]), entries[1..]);
    }
  }

  /** When no payload makes the handler fail, a bulk does what its entries do one by one exactly if
      every list and every dictionary in it belongs to an object update. */
  lemma BulkIsSingles(h: Hub, entries: seq<Entry>)
    requires AllFine(entries)
    ensures TakeBulk(h, entries) == TakeSingles(h, entries) <==> AllAlike(entries)
  {
    BulkPassesOnLess(h, h, entries);
    if AllAlike(entries) {
      AlikeIsSame(h, entries);
    }
  }

  /** A bulk whose entry `n` is the first to fail does what the entries before it do, and nothing more;
      one by one, the entries after it would still be taken. */
  lemma {:induction false} FailureEndsBulk(h: Hub, entries: seq<Entry>, n: nat)
    requires n < |entries| && AllFine(entries[..n]) && AllAlike(entries[..n])
    requires entries[n].kind == "object_update" && !Fine(entries[n])
    ensures TakeBulk(h, entries) == TakeSingles(h, entries[..n])
    ensures TakeSingles(h, entries) == TakeSingles(TakeBulk(h, entries), entries[n + 1..])
    decreases n
  {
    if n > 0 {
      assert entries[..n][0] == entries[0] && Fine(entries[0]) && Alike(entries[0]);
      assert entries[1..][..n - 1] == entries[..n][1..] && entries[1..][n - 1] == entries[n];
      assert entries[1..][n..] == entries[n + 1..];
      FailureEndsBulk(TakeSingle(h, entries[0]), entries[1..], n - 1);
    }
  }

  // ---------- What reaches the store ----------

  /** The entries before the first one that makes the handler fail. */
  function Until(entries: seq<Entry>): seq<Entry> {
    if entries == [] || !Fine(entries[0]) then [] else [entries[0]] + Until(entries[1..])
  }

  /** The updates among these entries, one by one. */
  function Updated(s: Server, entries: seq<Entry>): Server
    decreases |entries|
  {
    if entries == [] then s
    else
      var next := if IsUpdate(entries[0]) then Handled(s, entries[0].payload) else None;
      Updated(if next.Some? then next.value else s, entries[1..])
  }

  lemma {:induction false} UpdatedJoin(s: Server, a: seq<Entry>, b: seq<Entry>)
    ensures Updated(s, a + b) == Updated(Updated(s, a), b)
    decreases |a|
  {
    if a == [] {
      assert a + b == b;
    } else {
      assert (a + b)[1..] == a[1..] + b;
      var next := if IsUpdate(a[0]) then Handled(s, a[0].payload) else None;
      UpdatedJoin(if next.Some? then next.value else s, a[1..], b);
    }
  }

  lemma {:induction false} BulkUpdates(h: Hub, entries: seq<Entry>)
    ensures TakeBulk(h, entries).server == Updated(h.server, Until(entries))
    decreases |entries|
  {
    if entries != [] && Fine(entries[0]) {
      BulkUpdates(TakeEntry(h, entries[0]).value, entries[1..]);
      assert ([entries[0]] + Until(entries[1..]))[1..] == Until(entries[1..]);
    }
  }

  /** What a message brings up to the first failure. */
  function AllTaken(ms: seq<ActionBatch.Message>): seq<Entry>
    decreases |ms|
  {
    if ms == [] then [] else Until(EntriesIn(ms[0])) + AllTaken(ms[1..])
  }

  /** No message of its own is an object update. */
  predicate NoLoneUpdates(ms: seq<ActionBatch.Message>) {
    forall m :: m in ms && m.Plain? ==> m.submission.kind != Some("object_update")
  }

  lemma {:induction false} MessagesUpdate(h: Hub, ms: seq<ActionBatch.Message>)
    requires NoLoneUpdates(ms)
    ensures TakeMessages(h, ms).server == Updated(h.server, AllTaken(ms))
    decreases |ms|
  {
    if ms != [] {
      var m := ms[0];
      BulkUpdates(h, EntriesIn(m));
      MessagesUpdate(TakeMessage(h, m), ms[1..]);
      UpdatedJoin(h.server, Until(EntriesIn(m)), AllTaken(ms[1..]));
    }
  }

  /** From the user interface to the store, for every session: when a client has drained and nothing failed to be
      sent, and what it sent arrived in order, the store has taken, one by one and in the order of
      queueing, the updates that its messages brought, each message up to its first failure. */
  lemma SessionsArriveInOrder(steps: seq<ActionBatch.Step>, h: Hub)
    requires ActionBatch.After(steps).Some? && ActionBatch.Drained(ActionBatch.After(steps).value)
    requires var c := ActionBatch.After(steps).value; forall i :: 0 <= i < |c.ended| ==> c.ended[i].1
    ensures var c := ActionBatch.After(steps).value;
      TakeMessages(h, Arrived(c.ended)).server == Updated(h.server, AllTaken(c.queued))
  {
    var c := ActionBatch.After(steps).value;
    DrainedClientsLoseNothing(steps);
    ActionBatch.RunsKeepInv(steps);
    MessagesUpdate(h, c.queued);
  }

  // ---------- Sessions without failures ----------

  lemma {:induction false} AllFineUntil(entries: seq<Entry>)
    requires AllFine(entries)
    ensures Until(entries) == entries
    decreases |entries|
  {
    if entries != [] {
      assert Fine(entries[0]);
      AllFineUntil(entries[1..]);
    }
  }

  lemma {:induction false} EntriesFromFront(ms: seq<ActionBatch.Message>)
    requires ms != []
    ensures AllEntries(ms) == EntriesOf(ms[0]) + AllEntries(ms[1..])
  {
    var n := |ms| - 1;
    var rest := ms[1..];
    if n > 0 {
      EntriesFromFront(ms[..n]);
      assert rest[..n - 1] == ms[..n][1..] && rest[n - 1] == ms[n];
      Regroup(EntriesOf(ms[0]), AllEntries(ms[..n][1..]), EntriesOf(ms[n]));
    } else {
      assert rest == [] && AllEntries(ms[..0]) == [];
      assert [] + EntriesOf(ms[0]) == EntriesOf(ms[0]) + [];
    }
  }

  lemma Regroup(a: seq<Entry>, b: seq<Entry>, c: seq<Entry>)
    ensures a + b + c == a + (b + c)
  {
  }

  /** No message of its own reads as a bulk. */
  predicate NoLoneBulks(ms: seq<ActionBatch.Message>) {
    forall m :: m in ms && m.Plain? ==> m.submission.kind != Some("bulk_actions")
  }

  lemma {:induction false} AllEntriesTaken(ms: seq<ActionBatch.Message>)
    requires NoLoneBulks(ms) && AllFine(AllEntries(ms))
    ensures AllTaken(ms) == AllEntries(ms)
    decreases |ms|
  {
    if ms != [] {
      var first, rest := EntriesOf(ms[0]), AllEntries(ms[1..]);
      EntriesFromFront(ms);
      assert forall i :: 0 <= i < |first| ==> AllEntries(ms)[i] == first[i];
      assert forall i :: 0 <= i < |rest| ==> AllEntries(ms)[|first| + i] == rest[i];
      AllFineUntil(first);
      AllEntriesTaken(ms[1..]);
    }
  }

  lemma {:induction false} SinglesUpdate(h: Hub, entries: seq<Entry>)
    requires AllFine(entries) && AllAlike(entries)
    ensures TakeSingles(h, entries).server == Updated(h.server, entries)
    decreases |entries|
  {
    if entries != [] {
      assert Fine(entries[0]) && Alike(entries[0]);
      SinglesUpdate(TakeSingle(h, entries[0]), entries[1..]);
    }
  }

  /** In a session where no payload makes the handler fail, every list or dictionary among the actions belongs to
      an object update, and no other message reads as a bulk, the store has taken the object updates
      one by one in the order in which they were submitted, whatever other actions and messages there were. */
  lemma UpdatesArriveInOrder(steps: seq<ActionBatch.Step>, h: Hub)
    requires ActionBatch.After(steps).Some? && ActionBatch.Drained(ActionBatch.After(steps).value)
    requires var c := ActionBatch.After(steps).value;
      && (forall i :: 0 <= i < |c.ended| ==> c.ended[i].1)
      && NoLoneBulks(c.queued) && AllFine(c.accepted) && AllAlike(c.accepted)
    ensures var c := ActionBatch.After(steps).value;
      TakeMessages(h, Arrived(c.ended)).server == TakeSingles(h, c.accepted).server
  {
    var c := ActionBatch.After(steps).value;
    SessionsArriveInOrder(steps, h);
    DrainedClientsLoseNothing(steps);
    AllEntriesTaken(c.queued);
    SinglesUpdate(h, c.accepted);
  }

  // ---------- The program ----------

  class IngestLoop {
    const server: OobServer
    var passedOn: seq<Passed>

    ghost function View(): Hub
      reads this, server
    {
      Hub(server.View(), passedOn)
    }

    constructor (server: OobServer)
      ensures this.server == server && passedOn == []
    {
      this.server, passedOn := server, [];
    }

    method HandleBulk(entries: seq<Entry>)
      modifies this, server
      ensures View() == TakeBulk(old(View()), entries)
    {
      for i := 0 to |entries|
        invariant TakeBulk(View(), entries[i..]) == TakeBulk(old(View()), entries)
      {
        var e := entries[i];
        assert entries[i..][1..] == entries[i + 1..];
        if IsUpdate(e) {
          var ok := server.HandleObjectUpdate(e.payload);
          if !ok {
            return;
          }
        } else {
          passedOn := passedOn + [Item(e)];
        }
      }
    }

    method HandleSingle(e: Entry)
      modifies this, server
      ensures View() == TakeSingle(old(View()), e)
    {
      if e.kind == "object_update" {
        var _ := server.HandleObjectUpdate(e.payload);
      } else {
        passedOn := passedOn + [Item(e)];
      }
    }

    /** One message of a connection. */
    method HandleMessage(m: ActionBatch.Message)
      modifies this, server
      ensures View() == TakeMessage(old(View()), m)
    {
      if m.Bulk? || m.submission.kind == Some("bulk_actions") {
        HandleBulk(EntriesIn(m));
      } else if m.submission.kind == Some("object_update") {
        HandleSingle(Entry("object_update", m.submission.payload));
      } else {
        passedOn := passedOn + [Whole(m.submission)];
      }
    }
  }
}
