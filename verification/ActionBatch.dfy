/** The sending side: action messages are buffered and flushed in batches, and messages are sent one
    at a time in the order in which they were queued. */
module ActionBatch {
  import opened Options
  import opened JsonValues

  /** A message of the user interface.  A text that is not JSON has no kind; a missing payload is null. */
  datatype Submission = Submission(kind: Option<string>, payload: Json, text: string)

  datatype Entry = Entry(kind: string, payload: Json)

  datatype Message = Bulk(entries: seq<Entry>) | Plain(submission: Submission)

  /** `timer` is the variable that holds the timer and `ticking` the timer itself.  The program does not
      keep the last three: the entries it accepted, the messages it queued, and those whose sending
      ended, each with whether it was sent. */
  datatype Client = Client(
    buffer: seq<Entry>, timer: bool, ticking: bool, queue: seq<Message>, sending: Option<Message>,
    accepted: seq<Entry>, queued: seq<Message>, ended: seq<(Message, bool)>)

  const INITIAL := Client([], false, false, [], None, [], [], [])

  predicate IsAction(m: Submission) {
    m.kind.Some? && m.kind.value in ["add", "remove", "rename", "clear", "object_update"]
  }

  // ---------- The steps ----------

  function Queued(c: Client, m: Message): Client {
    c.(queue := c.queue + [m], queued := c.queued + [m])
  }

  /** With an empty buffer the timer variable stays as it is. */
  function Flushed(c: Client): Client {
    if c.buffer == [] then c
    else Queued(c.(buffer := [], timer := false, ticking := c.ticking && !c.timer), Bulk(c.buffer))
  }

  function Scheduled(c: Client): Client {
    if c.timer then c else c.(timer := true, ticking := true)
  }

  function Called(c: Client, m: Submission): Client {
    if IsAction(m) then
      var e := Entry(m.kind.value, m.payload);
      var d := c.(buffer := c.buffer + [e], accepted := c.accepted + [e]);
      if e.kind == "object_update" then Flushed(d) else Scheduled(d)
    else Queued(c, Plain(m))
  }

  datatype Step = Call(m: Submission) | Timer | Begin | End(ok: bool)

  predicate Enabled(c: Client, step: Step) {
    match step
    case Call(_) => true
    case Timer => c.ticking
    case Begin => c.sending.None? && c.queue != []
    case End(_) => c.sending.Some?
  }

  function Next(c: Client, step: Step): Client
    requires Enabled(c, step)
  {
    match step
    case Call(m) => Called(c, m)
    case Timer => Flushed(c.(ticking := false))
    case Begin => c.(sending := Some(c.queue[0]), queue := c.queue[1..])
    case End(ok) => c.(sending := None, ended := c.ended + [(c.sending.value, ok)])
  }

  /** The state after a run; `None` if a step is not possible where it stands. */
  function After(steps: seq<Step>): Option<Client> {
    if steps == [] then Some(INITIAL)
    else
      match After(steps[..|steps| - 1])
      case None => None
      case Some(c) => if Enabled(c, steps[|steps| - 1]) then Some(Next(c, steps[|steps| - 1])) else None
  }

  // ---------- What every run keeps ----------

  function EntriesOf(m: Message): seq<Entry> {
    if m.Bulk? then m.entries else []
  }

  function AllEntries(ms: seq<Message>): seq<Entry> {
    if ms == [] then [] else AllEntries(ms[..|ms| - 1]) + EntriesOf(ms[|ms| - 1])
  }

  function Messages(ended: seq<(Message, bool)>): seq<Message> {
    seq(|ended|, i requires 0 <= i < |ended| => ended[i].0)
  }

  ghost predicate Inv(c: Client) {
    && (c.timer <==> c.buffer != []) && (c.ticking <==> c.buffer != [])
    && AllEntries(c.queued) + c.buffer == c.accepted
    && (forall m :: m in c.queued && m.Plain? ==> !IsAction(m.submission))
    && Messages(c.ended) + (if c.sending.Some? then [c.sending.value] else []) + c.queue == c.queued
  }

  lemma AllEntriesMore(ms: seq<Message>, m: Message)
    ensures AllEntries(ms + [m]) == AllEntries(ms) + EntriesOf(m)
  {
    assert (ms + [m])[..|ms|] == ms;
  }

  lemma FlushKeepsInv(c: Client, d: Client)
    requires AllEntries(c.queued) + c.buffer == c.accepted && c.buffer != [] && (c.ticking ==> c.timer)
    requires forall m :: m in c.queued && m.Plain? ==> !IsAction(m.submission)
    requires Messages(c.ended) + (if c.sending.Some? then [c.sending.value] else []) + c.queue == c.queued
    requires d == Flushed(c)
    ensures Inv(d) && d.buffer == []
  {
    AllEntriesMore(c.queued, Bulk(c.buffer));
    assert c.accepted + [] == c.accepted;
  }

  lemma CallKeepsInv(c: Client, m: Submission)
    requires Inv(c)
    ensures Inv(Called(c, m))
  {
    if IsAction(m) {
      var e := Entry(m.kind.value, m.payload);
      var d := c.(buffer := c.buffer + [e], accepted := c.accepted + [e]);
      assert AllEntries(c.queued) + d.buffer == AllEntries(c.queued) + c.buffer + [e];
      if e.kind == "object_update" {
        FlushKeepsInv(d, Flushed(d));
      }
    } else {
      AllEntriesMore(c.queued, Plain(m));
      assert AllEntries(c.queued) + [] + c.buffer == AllEntries(c.queued) + c.buffer;
    }
  }

  lemma SendKeepsInv(c: Client, step: Step)
    requires Inv(c) && Enabled(c, step) && (step.Begin? || step.End?)
    ensures Inv(Next(c, step))
  {
    var d := Next(c, step);
    if step.Begin? {
      assert [c.queue[0]] + c.queue[1..] == c.queue;
      assert Messages(c.ended) + [] + c.queue == Messages(c.ended) + [c.queue[0]] + c.queue[1..];
    } else {
      assert Messages(d.ended) == Messages(c.ended) + [c.sending.value];
      assert Messages(d.ended) + [] == Messages(d.ended);
    }
  }

  /** In every run, the batches that were queued and then the buffer are the accepted entries in order;
      messages end one at a time in the order in which they were queued, whether or not they could be
      sent; and a timer runs exactly while something is buffered. */
  lemma {:induction false} RunsKeepInv(steps: seq<Step>)
    requires After(steps).Some?
    ensures Inv(After(steps).value)
  {
    if steps == [] {
      assert Messages([]) == [];
    } else {
      var before, last := steps[..|steps| - 1], steps[|steps| - 1];
      RunsKeepInv(before);
      var c := After(before).value;
      match last
      case Call(m) => CallKeepsInv(c, m);
      case Timer => FlushKeepsInv(c.(ticking := false), Next(c, last));
      case Begin => SendKeepsInv(c, last);
      case End(_) => SendKeepsInv(c, last);
    }
  }

  // ---------- What is accepted ----------

  /** The actions among the calls of a run, as entries. */
  function Actions(steps: seq<Step>): seq<Entry> {
    if steps == [] then []
    else
      Actions(steps[..|steps| - 1]) +
      match steps[|steps| - 1]
      case Call(Submission(Some(kind), payload, _)) =>
        if kind == "add" || kind == "remove" || kind == "rename" || kind == "clear" || kind == "object_update"
        then [Entry(kind, payload)] else []
      case _ => []
  }

  /** The other calls of a run. */
  function Others(steps: seq<Step>): seq<Submission> {
    if steps == [] then []
    else
      Others(steps[..|steps| - 1]) +
      match steps[|steps| - 1]
      case Call(m) => if Actions([Call(m)]) == [] then [m] else []
      case _ => []
  }

  /** The submissions among the messages that are no batches. */
  function Wholes(ms: seq<Message>): seq<Submission> {
    if ms == [] then []
    else Wholes(ms[..|ms| - 1]) + if ms[|ms| - 1].Plain? then [ms[|ms| - 1].submission] else []
  }

  lemma WholesMore(ms: seq<Message>, m: Message)
    ensures Wholes(ms + [m]) == Wholes(ms) + if m.Plain? then [m.submission] else []
  {
    assert (ms + [m])[..|ms|] == ms;
  }

  lemma OneCall(m: Submission)
    ensures Actions([Call(m)]) == if IsAction(m) then [Entry(m.kind.value, m.payload)] else []
  {
    assert [Call(m)][..0] == [] && Actions([]) == [];
  }

  lemma FlushedAccepts(c: Client)
    ensures Flushed(c).accepted == c.accepted && Wholes(Flushed(c).queued) == Wholes(c.queued)
  {
    WholesMore(c.queued, Bulk(c.buffer));
  }

  lemma CalledAccepts(c: Client, m: Submission)
    ensures Called(c, m).accepted == c.accepted + (if IsAction(m) then [Entry(m.kind.value, m.payload)] else [])
    ensures Wholes(Called(c, m).queued) == Wholes(c.queued) + (if IsAction(m) then [] else [m])
  {
    if IsAction(m) {
      var e := Entry(m.kind.value, m.payload);
      FlushedAccepts(c.(buffer := c.buffer + [e], accepted := c.accepted + [e]));
    } else {
      WholesMore(c.queued, Plain(m));
    }
  }

  /** In every run, the accepted entries are the actions that were submitted, and the messages queued beside the
      batches are the other submissions, in order. */
  lemma {:induction false} CallsAreTaken(steps: seq<Step>)
    requires After(steps).Some?
    ensures After(steps).value.accepted == Actions(steps) && Wholes(After(steps).value.queued) == Others(steps)
  {
    if steps != [] {
      var before, last := steps[..|steps| - 1], steps[|steps| - 1];
      CallsAreTaken(before);
      var c := After(before).value;
      match last
      case Call(m) =>
        CalledAccepts(c, m);
        OneCall(m);
      case Timer => FlushedAccepts(c.(ticking := false));
      case _ =>
    }
  }

  /** An object update does not wait for the timer: it is queued at once, as the last entry of a batch with everything
      that was buffered before it. */
  lemma UpdatesGoAtOnce(steps: seq<Step>, payload: Json, text: string)
    requires After(steps).Some?
    ensures var m, c := Submission(Some("object_update"), payload, text), After(steps).value;
      match After(steps + [Call(m)])
      case None => false
      case Some(d) => d.buffer == [] && !d.ticking && d.queue == c.queue + [Bulk(c.buffer + [Entry("object_update", payload)])]
  {
    RunsKeepInv(steps);
    assert (steps + [Call(Submission(Some("object_update"), payload, text))])[..|steps|] == steps;
  }

  // ---------- What arrives ----------

  /** The messages that were sent. */
  function Arrived(ended: seq<(Message, bool)>): seq<Message> {
    if ended == [] then []
    else Arrived(ended[..|ended| - 1]) + if ended[|ended| - 1].1 then [ended[|ended| - 1].0] else []
  }

  lemma {:induction false} AllArrived(ended: seq<(Message, bool)>)
    requires forall i :: 0 <= i < |ended| ==> ended[i].1
    ensures Arrived(ended) == Messages(ended)
  {
    if ended != [] {
      AllArrived(ended[..|ended| - 1]);
    }
  }

  predicate Drained(c: Client) {
    c.sending.None? && c.queue == [] && !c.ticking
  }

  /** When the timer has fired, every message has been sent and none failed, the entries that
      arrived are exactly the accepted ones, in order. */
  lemma DrainedClientsLoseNothing(steps: seq<Step>)
    requires After(steps).Some? && Drained(After(steps).value)
    requires forall i :: 0 <= i < |After(steps).value.ended| ==> After(steps).value.ended[i].1
    ensures AllEntries(Arrived(After(steps).value.ended)) == After(steps).value.accepted
    ensures Arrived(After(steps).value.ended) == After(steps).value.queued
  {
    RunsKeepInv(steps);
    AllArrived(After(steps).value.ended);
    var c := After(steps).value;
    assert Messages(c.ended) + [] + [] == Messages(c.ended) && AllEntries(c.queued) + [] == AllEntries(c.queued);
  }

  // ---------- The program ----------

  class Batcher {
    var actionBatchBuffer: seq<Entry>
    var actionBatchTimer: bool
    var ticking: bool
    var sendChain: seq<Message>
    var sending: Option<Message>
    ghost var accepted: seq<Entry>
    ghost var queued: seq<Message>
    ghost var ended: seq<(Message, bool)>

    ghost function View(): Client
      reads this
    {
      Client(actionBatchBuffer, actionBatchTimer, ticking, sendChain, sending, accepted, queued, ended)
    }

    constructor ()
      ensures View() == INITIAL
    {
      actionBatchBuffer, actionBatchTimer, ticking, sendChain, sending := [], false, false, [], None;
      accepted, queued, ended := [], [], [];
    }

    method EnqueueSend(m: Message)
      modifies this
      ensures View() == Queued(old(View()), m)
    {
      sendChain := sendChain + [m];
      queued := queued + [m];
    }

    method FlushActionBatch()
      modifies this
      ensures View() == Flushed(old(View()))
    {
      if actionBatchBuffer == [] {
        return;
      }
      var toSend := actionBatchBuffer;
      actionBatchBuffer := [];
      if actionBatchTimer {
        ticking := false;
        actionBatchTimer := false;
      }
      EnqueueSend(Bulk(toSend));
    }

    method ScheduleActionBatchFlush()
      modifies this
      ensures View() == Scheduled(old(View()))
    {
      if actionBatchTimer {
        return;
      }
      actionBatchTimer, ticking := true, true;
    }

    method CallRemoteSocketSend(m: Submission)
      modifies this
      ensures View() == Called(old(View()), m)
    {
      if IsAction(m) {
        var entry := Entry(m.kind.value, m.payload);
        actionBatchBuffer := actionBatchBuffer + [entry];
        accepted := accepted + [entry];
        if entry.kind == "object_update" {
          FlushActionBatch();
        } else {
          ScheduleActionBatchFlush();
        }
        return;
      }
      EnqueueSend(Plain(m));
    }

    method TimerFires()
      requires ticking
      modifies this
      ensures View() == Next(old(View()), Timer)
    {
      ticking := false;
      FlushActionBatch();
    }

    method BeginSend()
      requires sending.None? && sendChain != []
      modifies this
      ensures View() == Next(old(View()), Begin)
    {
      sending, sendChain := Some(sendChain[0]), sendChain[1..];
    }

    /** A failure to send is logged, and the chain goes on. */
    method EndSend(ok: bool)
      requires sending.Some?
      modifies this
      ensures View() == Next(old(View()), End(ok))
    {
      ended := ended + [(sending.value, ok)];
      sending := None;
    }
  }
}
