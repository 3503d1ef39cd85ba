/** Requests and their replies: a reply may come over the comm and over the mirror socket, in any order,
    and both race with a watchdog.  Every step is one atomic action of a thread. */
module Correlation {
  import opened Options
  import opened JsonValues

  type Id = string

  datatype Outcome = Value(payload: Json) | TimedOut

  /** The caller: before its wait, in it, back from it, or stopped because sending failed. */
  datatype Phase = Sending | Waiting | Returned(outcome: Outcome) | Stopped

  /** One request.  `future` is its future; `hand` is a payload that a handler took the future out of the
      table for and has not set yet; `timer` is the armed watchdog, and `firing` one that found the
      future open and has not set the exception yet.  The program does not keep the last two:
      whether a reply took the future out of the table, and how often the future was completed. */
  datatype Request = Request(
    phase: Phase, future: Option<Outcome>, hand: Option<Json>, timer: bool, firing: bool,
    answered: bool, completions: nat)

  /** `pending` is the table of futures; `received` all replies so far. */
  datatype Link = Link(pending: set<Id>, requests: map<Id, Request>, received: set<(Id, Json)>)

  datatype Reply = Reply(id: Option<Id>, payload: Json)

  datatype Step =
    | Register(id: Id)
    | SendFails(id: Id)
    | StartWait(id: Id)
    | Comm(reply: Reply)
    | MirrorCloses(replies: seq<Reply>)
    | SetResult(id: Id)
    | WatchdogLooks(id: Id)
    | WatchdogSets(id: Id)
    | Wake(id: Id)

  predicate Enabled(c: Link, step: Step) {
    match step
    case Register(id) => id !in c.requests
    case SendFails(id) => id in c.requests && c.requests[id].phase.Sending?
    case StartWait(id) => id in c.requests && c.requests[id].phase.Sending?
    case Comm(_) => true
    case MirrorCloses(_) => true
    case SetResult(id) => id in c.requests && c.requests[id].hand.Some?
    case WatchdogLooks(id) => id in c.requests && c.requests[id].timer
    case WatchdogSets(id) => id in c.requests && c.requests[id].firing
    case Wake(id) => id in c.requests && c.requests[id].phase.Waiting? && c.requests[id].future.Some?
  }

  /** A future is completed once; a second attempt raises an error, which is only logged. */
  function Completed(r: Request, o: Outcome): Request {
    if r.future.None? then r.(future := Some(o), completions := r.completions + 1) else r
  }

  /** A reply takes the future of its own id out of the table. */
  function Taken(c: Link, reply: Reply): Link {
    if reply.id.None? then c
    else
      var id := reply.id.value;
      var d := c.(received := c.received + {(id, reply.payload)});
      if id in c.pending && id in c.requests then
        d.(pending := c.pending - {id}, requests := c.requests[id := c.requests[id].(hand := Some(reply.payload), answered := true)])
      else d
  }

  function Next(c: Link, step: Step): Link
    requires Enabled(c, step)
  {
    match step
    case Register(id) => c.(pending := c.pending + {id}, requests := c.requests[id := Request(Sending, None, None, false, false, false, 0)])
    case SendFails(id) => c.(requests := c.requests[id := c.requests[id].(phase := Stopped)])
    case StartWait(id) => c.(requests := c.requests[id := c.requests[id].(phase := Waiting, timer := true)])
    case Comm(reply) => Taken(c, reply)
    case MirrorCloses(replies) => if replies == [] then c else Taken(c, replies[|replies| - 1])
    case SetResult(id) =>
      var r := c.requests[id];
      c.(requests := c.requests[id := Completed(r, Value(r.hand.value)).(hand := None)])
    case WatchdogLooks(id) =>
      var r := c.requests[id];
      c.(requests := c.requests[id := r.(timer := false, firing := r.future.None?)])
    case WatchdogSets(id) =>
      c.(requests := c.requests[id := Completed(c.requests[id], TimedOut).(firing := false)])
    case Wake(id) =>
      var r := c.requests[id];
      c.(pending := c.pending - {id}, requests := c.requests[id := r.(phase := Returned(r.future.value), timer := false)])
  }

  const INITIAL := Link({}, map[], {})

  /** The state after a run; `None` if a step is not possible where it stands. */
  function After(steps: seq<Step>): Option<Link> {
    if steps == [] then Some(INITIAL)
    else
      match After(steps[..|steps| - 1])
      case None => None
      case Some(c) => if Enabled(c, steps[|steps| - 1]) then Some(Next(c, steps[|steps| - 1])) else None
  }

  // ---------- What every run keeps ----------

  predicate InTable(r: Request) {
    !r.answered && !r.phase.Returned?
  }

  ghost predicate RequestOk(r: Request, id: Id, received: set<(Id, Json)>) {
    && r.completions == (if r.future.Some? then 1 else 0)
    && (r.future.Some? && r.future.value.Value? ==> r.answered && r.hand.None? && (id, r.future.value.payload) in received)
    && (r.hand.Some? ==> r.answered && (id, r.hand.value) in received)
    && (r.phase.Returned? ==> r.future == Some(r.phase.outcome) && !r.timer)
    && (r.phase.Waiting? && r.future.None? ==> r.timer || r.firing)
    && (r.phase.Sending? || r.phase.Stopped? ==> !r.timer && !r.firing && (r.future.Some? ==> r.future.value.Value?))
  }

  ghost predicate Inv(c: Link) {
    && (forall id :: id in c.pending <==> id in c.requests && InTable(c.requests[id]))
    && (forall id :: id in c.requests ==> RequestOk(c.requests[id], id, c.received))
  }

  lemma TakenKeepsInv(c: Link, reply: Reply)
    requires Inv(c)
    ensures Inv(Taken(c, reply))
  {
    var d := Taken(c, reply);
    forall id | id in d.requests ensures RequestOk(d.requests[id], id, d.received) {
      assert RequestOk(c.requests[id], id, c.received);
    }
  }

  lemma StepKeepsInv(c: Link, step: Step)
    requires Inv(c) && Enabled(c, step)
    ensures Inv(Next(c, step))
  {
    match step
    case Comm(reply) => TakenKeepsInv(c, reply);
    case MirrorCloses(replies) =>
      if replies != [] {
        TakenKeepsInv(c, replies[|replies| - 1]);
      }
    case _ =>
      var d := Next(c, step);
      forall id | id in d.requests ensures RequestOk(d.requests[id], id, d.received) {
        if id in c.requests {
          assert RequestOk(c.requests[id], id, c.received);
        }
      }
  }

  lemma {:induction false} RunsKeepInv(steps: seq<Step>)
    requires After(steps).Some?
    ensures Inv(After(steps).value)
  {
    if steps != [] {
      RunsKeepInv(steps[..|steps| - 1]);
      StepKeepsInv(After(steps[..|steps| - 1]).value, steps[|steps| - 1]);
    }
  }

  // ---------- What that means ----------

  /** Whatever the order of events, a future is completed at most once; a caller gets a payload that came
      with its own id, or a timeout; and a request that is over has left the table, unless sending
      failed and no reply took its future. */
  lemma {:induction false} RequestsEndProperly(steps: seq<Step>, id: Id)
    requires After(steps).Some? && id in After(steps).value.requests
    ensures var c := After(steps).value; var r := c.requests[id];
      && r.completions <= 1
      && (r.phase.Returned? && r.phase.outcome.Value? ==> (id, r.phase.outcome.payload) in c.received)
      && (r.phase.Returned? || r.phase.Stopped? ==> (id in c.pending <==> r.phase.Stopped? && !r.answered))
  {
    RunsKeepInv(steps);
  }

  /** Two replies never compete for a future: a reply that holds one finds it open or timed out. */
  lemma {:induction false} RepliesDoNotCompete(steps: seq<Step>, id: Id)
    requires After(steps).Some? && id in After(steps).value.requests && After(steps).value.requests[id].hand.Some?
    ensures After(steps).value.requests[id].future in {None, Some(TimedOut)}
  {
    RunsKeepInv(steps);
  }

  /** Nobody waits for ever: there is always a step that takes a waiting request further. */
  lemma {:induction false} WaitingEnds(steps: seq<Step>, id: Id)
    requires After(steps).Some? && id in After(steps).value.requests && After(steps).value.requests[id].phase.Waiting?
    ensures var c := After(steps).value; Enabled(c, Wake(id)) || Enabled(c, WatchdogLooks(id)) || Enabled(c, WatchdogSets(id))
  {
    RunsKeepInv(steps);
  }

  // ---------- The program ----------

  class CommLink {
    var pendingFutures: set<Id>
    var requests: map<Id, Request>
    ghost var received: set<(Id, Json)>

    ghost function View(): Link
      reads this
    {
      Link(pendingFutures, requests, received)
    }

    constructor ()
      ensures View() == INITIAL
    {
      pendingFutures, requests, received := {}, map[], {};
    }

    /** `send_recv` up to the sending; ids are fresh. */
    method BeginRequest(id: Id)
      requires id !in requests
      modifies this
      ensures View() == Next(old(View()), Register(id))
    {
      requests := requests[id := Request(Sending, None, None, false, false, false, 0)];
      pendingFutures := pendingFutures + {id};
    }

    method BeginWait(id: Id)
      requires id in requests && requests[id].phase.Sending?
      modifies this
      ensures View() == Next(old(View()), StartWait(id))
    {
      requests := requests[id := requests[id].(phase := Waiting, timer := true)];
    }

    /** The end of the wait, with what is done on every way out. */
    method EndWait(id: Id) returns (outcome: Outcome)
      requires id in requests && requests[id].phase.Waiting? && requests[id].future.Some?
      modifies this
      ensures View() == Next(old(View()), Wake(id)) && Some(outcome) == old(requests[id].future)
    {
      outcome := requests[id].future.value;
      requests := requests[id := requests[id].(phase := Returned(outcome), timer := false)];
      pendingFutures := pendingFutures - {id};
    }

    method HandleRecv(reply: Reply)
      modifies this
      ensures View() == Taken(old(View()), reply)
    {
      if reply.id.Some? {
        var id := reply.id.value;
        received := received + {(id, reply.payload)};
        if id in pendingFutures && id in requests {
          pendingFutures := pendingFutures - {id};
          requests := requests[id := requests[id].(hand := Some(reply.payload), answered := true)];
        }
      }
    }

    /** The replies of a mirror connection: correlation comes after the loop over its messages. */
    method ClientHandle(replies: seq<Reply>)
      modifies this
      ensures View() == Next(old(View()), MirrorCloses(replies))
    {
      var data: Option<Reply> := None;
      for i := 0 to |replies|
        invariant View() == old(View())
        invariant data == if i == 0 then None else Some(replies[i - 1])
      {
        data := Some(replies[i]);
      }
      if data.Some? {
        HandleRecv(data.value);
      }
    }

    method SetFutureResult(id: Id)
      requires id in requests && requests[id].hand.Some?
      modifies this
      ensures View() == Next(old(View()), SetResult(id))
    {
      var r := requests[id];
      if r.future.None? {
        r := r.(future := Some(Value(r.hand.value)), completions := r.completions + 1);
      }
      requests := requests[id := r.(hand := None)];
    }

    method WatchdogChecks(id: Id)
      requires id in requests && requests[id].timer
      modifies this
      ensures View() == Next(old(View()), WatchdogLooks(id))
    {
      requests := requests[id := requests[id].(timer := false, firing := requests[id].future.None?)];
    }

    method WatchdogExpires(id: Id)
      requires id in requests && requests[id].firing
      modifies this
      ensures View() == Next(old(View()), WatchdogSets(id))
    {
      var r := requests[id];
      if r.future.None? {
        r := r.(future := Some(TimedOut), completions := r.completions + 1);
      }
      requests := requests[id := r.(firing := false)];
    }
  }
}
