/** What a caller gets for its request: the first reply that meets it in the table, unless the watchdog
    completed its future first. */
module Delivery {
  import opened Options
  import opened JsonValues
  import opened Correlation

  /** This step hands a reply with this id to the table: over the comm, or as the last reply of a mirror
      connection. */
  predicate Brings(step: Step, id: Id, payload: Json) {
    match step
    case Comm(reply) => reply == Reply(Some(id), payload)
    case MirrorCloses(replies) => replies != [] && replies[|replies| - 1] == Reply(Some(id), payload)
    case _ => false
  }

  // ---------- Runs ----------

  lemma AfterMore(steps: seq<Step>, step: Step, c: Link)
    requires After(steps) == Some(c) && Enabled(c, step)
    ensures After(steps + [step]) == Some(Next(c, step))
  {
    assert (steps + [step])[..|steps|] == steps;
  }

  lemma {:induction false} AfterPrefix(steps: seq<Step>, n: nat)
    requires After(steps).Some? && n <= |steps|
    ensures After(steps[..n]).Some?
    decreases |steps|
  {
    if n == |steps| {
      assert steps[..n] == steps;
    } else {
      AfterPrefix(steps[..|steps| - 1], n);
      assert steps[..|steps| - 1][..n] == steps[..n];
    }
  }

  lemma AfterNext(steps: seq<Step>, n: nat)
    requires After(steps).Some? && n < |steps|
    ensures After(steps[..n]).Some? && Enabled(After(steps[..n]).value, steps[n])
    ensures After(steps[..n + 1]) == Some(Next(After(steps[..n]).value, steps[n]))
  {
    AfterPrefix(steps, n);
    AfterPrefix(steps, n + 1);
    assert steps[..n + 1][..n] == steps[..n] && steps[..n + 1][n] == steps[n];
  }

  // ---------- One step ----------

  /** The payload waits to be set. */
  ghost predicate Waits(c: Link, id: Id, payload: Json) {
    id !in c.pending && Enabled(c, SetResult(id)) && c.requests[id].hand == Some(payload)
  }

  /** A reply that meets a request in the table takes it out, and its payload can be set at once. */
  lemma ReplyTakesFuture(steps: seq<Step>, step: Step, id: Id, payload: Json)
    requires After(steps).Some? && id in After(steps).value.pending && Brings(step, id, payload)
    ensures id in After(steps).value.requests
    ensures var r := After(steps).value.requests[id];
      match After(steps + [step])
      case None => false
      case Some(c) => Waits(c, id, payload) && c.requests[id].future == r.future
  {
    RunsKeepInv(steps);
    AfterMore(steps, step, After(steps).value);
  }

  /** A reply that meets no request is only noted. */
  lemma OtherRepliesAreNoted(c: Link, step: Step, id: Id, payload: Json)
    requires id !in c.pending && Brings(step, id, payload)
    ensures Enabled(c, step) && Next(c, step) == c.(received := c.received + {(id, payload)})
  {
  }

  /** The payload that waits to be set stays until it is set. */
  lemma HandStepStays(c: Link, step: Step, id: Id)
    requires Inv(c) && Enabled(c, step) && step != SetResult(id)
    requires id in c.requests && c.requests[id].hand.Some?
    ensures id in Next(c, step).requests && Next(c, step).requests[id].hand == c.requests[id].hand
    ensures id !in Next(c, step).pending
  {
    assert RequestOk(c.requests[id], id, c.received);
  }

  lemma FutureStepStays(c: Link, step: Step, id: Id)
    requires Enabled(c, step) && id in c.requests && c.requests[id].future.Some?
    ensures id in Next(c, step).requests && Next(c, step).requests[id].future == c.requests[id].future
  {
  }

  predicate Completes(step: Step, id: Id) {
    step == SetResult(id) || step == WatchdogSets(id)
  }

  lemma OtherStepsComplete(c: Link, step: Step, id: Id)
    requires Enabled(c, step) && id in Next(c, step).requests && !Completes(step, id)
    ensures id in c.requests ==> Next(c, step).requests[id].future == c.requests[id].future
    ensures id !in c.requests ==> Next(c, step).requests[id].future == None
  {
  }

  // ---------- Whole runs ----------

  lemma WaitsOneMore(steps: seq<Step>, n: nat, id: Id, payload: Json)
    requires After(steps).Some? && n < |steps| && steps[n] != SetResult(id)
    requires After(steps[..n]).Some? && Waits(After(steps[..n]).value, id, payload)
    ensures After(steps[..n + 1]).Some? && Waits(After(steps[..n + 1]).value, id, payload)
  {
    AfterNext(steps, n);
    RunsKeepInv(steps[..n]);
    HandStepStays(After(steps[..n]).value, steps[n], id);
  }

  lemma WaitsFirst(steps: seq<Step>, i: nat, id: Id, payload: Json)
    requires After(steps).Some? && i < |steps| && Brings(steps[i], id, payload)
    requires After(steps[..i]).Some? && id in After(steps[..i]).value.pending
    ensures After(steps[..i + 1]).Some? && Waits(After(steps[..i + 1]).value, id, payload)
  {
    ReplyTakesFuture(steps[..i], steps[i], id, payload);
    assert steps[..i] + [steps[i]] == steps[..i + 1];
  }

  /** From the moment a reply took the future until its payload is set, it can be set at any time. */
  lemma {:induction false} HandStays(steps: seq<Step>, i: nat, n: nat, id: Id, payload: Json)
    requires After(steps).Some? && i < n <= |steps| && Brings(steps[i], id, payload)
    requires After(steps[..i]).Some? && id in After(steps[..i]).value.pending
    requires forall j :: i < j < n ==> steps[j] != SetResult(id)
    ensures After(steps[..n]).Some? && Waits(After(steps[..n]).value, id, payload)
    decreases n
  {
    if n == i + 1 {
      WaitsFirst(steps, i, id, payload);
    } else {
      HandStays(steps, i, n - 1, id, payload);
      WaitsOneMore(steps, n - 1, id, payload);
    }
  }

  lemma {:induction false} FutureStays(steps: seq<Step>, n: nat, id: Id)
    requires After(steps).Some? && n <= |steps| && After(steps[..n]).Some?
    requires id in After(steps[..n]).value.requests && After(steps[..n]).value.requests[id].future.Some?
    ensures id in After(steps).value.requests
    ensures After(steps).value.requests[id].future == After(steps[..n]).value.requests[id].future
    decreases |steps| - n
  {
    if n == |steps| {
      assert steps[..n] == steps;
    } else {
      AfterNext(steps, n);
      FutureStepStays(After(steps[..n]).value, steps[n], id);
      FutureStays(steps, n + 1, id);
    }
  }

  /** In every run: when a reply met the request in the table at step `i`, and its payload was set at step `j` while the
      future was still open, the future holds this payload for good, and a caller that has returned got it. */
  lemma RepliesAreDelivered(steps: seq<Step>, i: nat, j: nat, id: Id, payload: Json)
    requires After(steps).Some? && i < j < |steps| && Brings(steps[i], id, payload)
    requires After(steps[..i]).Some? && id in After(steps[..i]).value.pending
    requires steps[j] == SetResult(id) && forall l :: i < l < j ==> steps[l] != SetResult(id)
    requires After(steps[..j]).Some? && id in After(steps[..j]).value.requests
    requires After(steps[..j]).value.requests[id].future.None?
    ensures id in After(steps).value.requests
    ensures var r := After(steps).value.requests[id];
      r.future == Some(Value(payload)) && (r.phase.Returned? ==> r.phase.outcome == Value(payload))
  {
    HandStays(steps, i, j, id, payload);
    AfterNext(steps, j);
    FutureStays(steps, j + 1, id);
    RunsKeepInv(steps);
    assert RequestOk(After(steps).value.requests[id], id, After(steps).value.received);
  }

  /** The step that completed the future: the first one that sets a result or a timeout for it. */
  ghost predicate CompletedAt(steps: seq<Step>, i: nat, id: Id) {
    i < |steps| && Completes(steps[i], id) && forall j :: 0 <= j < i ==> !Completes(steps[j], id)
  }

  ghost predicate OpenIn(c: Link, id: Id) {
    id in c.requests ==> c.requests[id].future.None?
  }

  lemma OpenOneMore(steps: seq<Step>, n: nat, id: Id)
    requires After(steps).Some? && n < |steps| && !Completes(steps[n], id)
    requires After(steps[..n]).Some? && OpenIn(After(steps[..n]).value, id)
    ensures After(steps[..n + 1]).Some? && OpenIn(After(steps[..n + 1]).value, id)
  {
    AfterNext(steps, n);
    var c := After(steps[..n]).value;
    if id in Next(c, steps[n]).requests {
      OtherStepsComplete(c, steps[n], id);
    }
  }

  lemma {:induction false} NeverCompleted(steps: seq<Step>, n: nat, id: Id)
    requires After(steps).Some? && n <= |steps| && forall j :: 0 <= j < n ==> !Completes(steps[j], id)
    ensures After(steps[..n]).Some? && OpenIn(After(steps[..n]).value, id)
    decreases n
  {
    if n > 0 {
      NeverCompleted(steps, n - 1, id);
      OpenOneMore(steps, n - 1, id);
    }
  }

  /** The first step that completes a future decides: whoever returns gets the payload that waited there if that step
      set a result, and a timeout if it was the watchdog's. */
  lemma FirstDecides(steps: seq<Step>, i: nat, id: Id)
    requires After(steps).Some? && CompletedAt(steps, i, id)
    ensures id in After(steps).value.requests && After(steps[..i]).Some? && id in After(steps[..i]).value.requests
    ensures var before, r := After(steps[..i]).value.requests[id], After(steps).value.requests[id];
      && (steps[i] == SetResult(id) ==> before.hand.Some? && r.future == Some(Value(before.hand.value)))
      && (steps[i] == WatchdogSets(id) ==> r.future == Some(TimedOut))
      && (r.phase.Returned? ==> Some(r.phase.outcome) == r.future)
  {
    NeverCompleted(steps, i, id);
    AfterNext(steps, i);
    FutureStays(steps, i + 1, id);
    RunsKeepInv(steps);
    assert RequestOk(After(steps).value.requests[id], id, After(steps).value.received);
  }

  lemma {:induction false} FirstCompletion(steps: seq<Step>, n: nat, id: Id) returns (i: nat)
    requires n <= |steps| && exists j :: 0 <= j < n && Completes(steps[j], id)
    ensures i < n && CompletedAt(steps, i, id)
    decreases n
  {
    if exists j :: 0 <= j < n - 1 && Completes(steps[j], id) {
      i := FirstCompletion(steps, n - 1, id);
    } else {
      i := n - 1;
    }
  }

  /** Conversely, a caller gets a timeout only if the watchdog completed its future before any reply to it was set. */
  lemma TimeoutsComeFirst(steps: seq<Step>, id: Id) returns (i: nat)
    requires After(steps).Some? && id in After(steps).value.requests
    requires After(steps).value.requests[id].phase == Returned(TimedOut)
    ensures i < |steps| && steps[i] == WatchdogSets(id) && forall j :: 0 <= j < i ==> steps[j] != SetResult(id)
  {
    RunsKeepInv(steps);
    assert RequestOk(After(steps).value.requests[id], id, After(steps).value.received);
    assert steps[..|steps|] == steps;
    if forall j :: 0 <= j < |steps| ==> !Completes(steps[j], id) {
      NeverCompleted(steps, |steps|, id);
    }
    i := FirstCompletion(steps, |steps|, id);
    FirstDecides(steps, i, id);
  }

  // ---------- Two short runs ----------

  /** An answered request returns the payload of its reply; an unanswered one returns a timeout. */
  lemma ShortRuns(id: Id, payload: Json)
    ensures var c := After([Register(id), StartWait(id), Comm(Reply(Some(id), payload)), SetResult(id), Wake(id)]);
      c.Some? && id in c.value.requests && c.value.requests[id].phase == Returned(Value(payload)) && id !in c.value.pending
    ensures var c := After([Register(id), StartWait(id), WatchdogLooks(id), WatchdogSets(id), Wake(id)]);
      c.Some? && id in c.value.requests && c.value.requests[id].phase == Returned(TimedOut) && id !in c.value.pending
  {
    var start := [Register(id), StartWait(id)];
    AfterMore([], Register(id), INITIAL);
    var a := Next(INITIAL, Register(id));
    assert [] + [Register(id)] == [Register(id)] && [Register(id)] + [StartWait(id)] == start;
    AfterMore([Register(id)], StartWait(id), a);
    var b := Next(a, StartWait(id));
    ThreeMore(start, b, Comm(Reply(Some(id), payload)), SetResult(id), Wake(id));
    ThreeMore(start, b, WatchdogLooks(id), WatchdogSets(id), Wake(id));
  }

  lemma ThreeMore(steps: seq<Step>, c: Link, x: Step, y: Step, z: Step)
    requires After(steps) == Some(c) && |steps| == 2
    requires Enabled(c, x) && Enabled(Next(c, x), y) && Enabled(Next(Next(c, x), y), z)
    ensures After([steps[0], steps[1], x, y, z]) == Some(Next(Next(Next(c, x), y), z))
  {
    AfterMore(steps, x, c);
    AfterMore(steps + [x], y, Next(c, x));
    AfterMore(steps + [x] + [y], z, Next(Next(c, x), y));
    assert steps + [x] + [y] + [z] == [steps[0], steps[1], x, y, z];
  }
}
