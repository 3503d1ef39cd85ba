/** The change log of the store and the answer to clients that ask what changed. */
module ObserverLog {
  import opened Options
  import opened Observer

  /** The answer to `get_shared_diffs`. */
  function Diffs(log: seq<Update>, since: int): seq<Update>
    decreases |log|
  {
    if log == [] then []
    else (if log[0].seqNo > since then [log[0]] else []) + Diffs(log[1..], since)
  }

  function ApplyAll(objs: Store, us: seq<Update>): Store
    decreases |us|
  {
    if us == [] then objs else ApplyAll(objs + us[0].changes, us[1..])
  }

  /** The updates with the numbers above `from`. */
  function Tail(past: seq<Store>, from: nat): seq<Update>
    requires from <= |past|
  {
    seq(|past| - from, i requires 0 <= i < |past| - from => Update(from + i + 1, past[from + i]))
  }

  lemma TailStep(past: seq<Store>, from: nat)
    requires from < |past|
    ensures Tail(past, from) == [Update(from + 1, past[from])] + Tail(past, from + 1)
  {
  }

  lemma DiffsStep(u: Update, log: seq<Update>, since: int)
    ensures Diffs([u] + log, since) == (if u.seqNo > since then [u] else []) + Diffs(log, since)
  {
    assert ([u] + log)[1..] == log;
  }

  lemma {:induction false} DiffsAreTail(past: seq<Store>, from: nat, since: int)
    requires from <= |past|
    ensures Diffs(Tail(past, from), since) ==
      if since <= from then Tail(past, from) else if since <= |past| then Tail(past, since) else []
    decreases |past| - from
  {
    if from < |past| {
      TailStep(past, from);
      DiffsStep(Update(from + 1, past[from]), Tail(past, from + 1), since);
      DiffsAreTail(past, from + 1, since);
      assert [] + Diffs(Tail(past, from + 1), since) == Diffs(Tail(past, from + 1), since);
    }
  }

  lemma {:induction false} TailReplays(past: seq<Store>, from: nat)
    requires from <= |past|
    ensures ApplyAll(Replay(past[..from]), Tail(past, from)) == Replay(past)
    decreases |past| - from
  {
    if from == |past| {
      assert past[..from] == past;
    } else {
      TailStep(past, from);
      var us := Tail(past, from);
      assert us[0] == Update(from + 1, past[from]) && us[1..] == Tail(past, from + 1);
      NextReplay(past, from);
      TailReplays(past, from + 1);
    }
  }

  ghost predicate Touched(us: seq<Update>, k: Key) {
    exists i :: 0 <= i < |us| && k in us[i].changes
  }

  ghost predicate AgreeOn(a: Store, b: Store, k: Key) {
    (k in a <==> k in b) && (k in a && k in b ==> a[k] == b[k])
  }

  /** Two maps that get the same updates agree afterwards on what was updated, and elsewhere
      as far as they agreed before. */
  lemma {:induction false} UpdatesAgree(a: Store, b: Store, us: seq<Update>, k: Key)
    ensures AgreeOn(ApplyAll(a, us), ApplyAll(b, us), k) <==> Touched(us, k) || AgreeOn(a, b, k)
    decreases |us|
  {
    if us != [] {
      UpdatesAgree(a + us[0].changes, b + us[0].changes, us[1..], k);
      assert forall i :: 0 <= i < |us| - 1 ==> us[1..][i] == us[i + 1];
      if k in us[0].changes {
        assert AgreeOn(a + us[0].changes, b + us[0].changes, k);
      } else {
        assert Touched(us, k) <==> Touched(us[1..], k) by {
          if Touched(us, k) {
            var i :| 0 <= i < |us| && k in us[i].changes;
            assert us[1..][i - 1] == us[i];
          }
        }
      }
    }
  }

  function WindowStart(past: seq<Store>): nat {
    if |past| < LOG_LIMIT then 0 else |past| - LOG_LIMIT
  }

  /** The diffs since a number that the log still reaches back to bring the map of that time up to
      date.  Since an older number they do so exactly for the names that the window touched or
      that had not changed before the window. */
  ghost predicate CatchesUp(s: Server, since: nat)
    requires since <= |s.past|
  {
    var caughtUp := ApplyAll(Replay(s.past[..since]), Diffs(s.log, since));
    && (WindowStart(s.past) <= since ==> caughtUp == s.objs)
    && (since < WindowStart(s.past) ==> forall k ::
          AgreeOn(caughtUp, s.objs, k) <==>
          Touched(s.log, k) || AgreeOn(Replay(s.past[..since]), Replay(s.past[..WindowStart(s.past)]), k))
  }

  lemma WindowCatchesUp(s: Server, since: nat)
    requires s.log == Window(s.past) && s.objs == Replay(s.past) && since <= |s.past|
    ensures CatchesUp(s, since)
  {
    var w := WindowStart(s.past);
    assert s.log == Tail(s.past, w);
    DiffsAreTail(s.past, w, since);
    if w <= since {
      TailReplays(s.past, since);
    } else {
      TailReplays(s.past, w);
      forall k ensures AgreeOn(ApplyAll(Replay(s.past[..since]), s.log), s.objs, k) <==>
        Touched(s.log, k) || AgreeOn(Replay(s.past[..since]), Replay(s.past[..w]), k)
      {
        UpdatesAgree(Replay(s.past[..since]), Replay(s.past[..w]), s.log, k);
      }
    }
  }

  /** After every run, in order or not, the diffs catch up. */
  lemma DiffsCatchUp(steps: seq<Step>, since: nat)
    requires After(steps).Some? && since <= After(steps).value.server.seqNo
    ensures var s := After(steps).value.server; since <= |s.past| && CatchesUp(s, since)
  {
    LogIsWindow(INITIAL, steps);
    WindowCatchesUp(After(steps).value.server, since);
  }

  /** After every run the log holds the last thousand changes, or all if there are no more, oldest first. */
  lemma LogHoldsThousand(steps: seq<Step>)
    requires After(steps).Some?
    ensures var s := After(steps).value.server;
      && |s.log| == (if |s.past| < 1000 then |s.past| else 1000)
      && forall i :: 0 <= i < |s.log| ==>
           var n := |s.past| - |s.log| + i; s.log[i] == Update(n + 1, s.past[n])
  {
    LogIsWindow(INITIAL, steps);
  }

  /** The log and the map are what they should be in every run, in order or not. */
  lemma {:induction false} LogIsWindow(y: System, steps: seq<Step>)
    requires y.server.seqNo == |y.server.past| && y.server.log == Window(y.server.past) && y.server.objs == Replay(y.server.past)
    requires RunFrom(y, steps).Some?
    ensures var s := RunFrom(y, steps).value.server;
      s.seqNo == |s.past| && s.log == Window(s.past) && s.objs == Replay(s.past)
    decreases |steps|
  {
    if steps != [] {
      var step := steps[0];
      if step.Apply? {
        ReplayMore(y.server.past, step.changes);
        WindowMore(y.server.past, step.changes);
      }
      LogIsWindow(Next(y, step), steps[1..]);
    }
  }
}
