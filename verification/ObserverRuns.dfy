/** What every run of the replicated store keeps, whatever the order in which changes are queued for
    broadcasting, and what clients see. */
module ObserverRuns {
  import opened Options
  import opened Observer

  // ---------- Overtaking ----------

  /** A larger number was queued before this one, which may not be queued yet. */
  predicate Overtaken(order: seq<nat>, q: nat) {
    exists i :: 0 <= i < |order| && order[i] > q && q !in order[..i]
  }

  /** Whether this number was overtaken cannot change any more. */
  predicate Decided(order: seq<nat>, q: nat) {
    q in order || Overtaken(order, q)
  }

  function Lost(order: seq<nat>): nat -> bool {
    (q: nat) => Overtaken(order, q)
  }

  /** The map at number `since` with all later changes up to number `n` that were not lost. */
  function Kept(past: seq<Store>, lost: nat -> bool, since: nat, n: nat): Store
    requires since <= n <= |past|
    decreases n
  {
    if n == since then Replay(past[..since])
    else if lost(n) then Kept(past, lost, since, n - 1)
    else Kept(past, lost, since, n - 1) + past[n - 1]
  }

  lemma OvertakenStays(order: seq<nat>, n: nat, q: nat)
    ensures Overtaken(order, q) ==> Overtaken(order + [n], q)
    ensures Decided(order, q) ==> Decided(order + [n], q) && (Overtaken(order + [n], q) ==> Overtaken(order, q))
  {
    var longer := order + [n];
    assert forall i :: 0 <= i < |order| ==> longer[i] == order[i] && longer[..i] == order[..i];
    assert longer[..|order|] == order;
  }

  lemma {:induction false} KeptStays(past: seq<Store>, past': seq<Store>, lost: nat -> bool, lost': nat -> bool, since: nat, n: nat)
    requires since <= n <= |past| && past <= past'
    requires forall q :: since < q <= n ==> lost'(q) == lost(q)
    ensures Kept(past', lost', since, n) == Kept(past, lost, since, n)
    decreases n
  {
    if n == since {
      assert past'[..since] == past[..since];
    } else {
      KeptStays(past, past', lost, lost', since, n - 1);
    }
  }

  lemma {:induction false} KeptSkips(past: seq<Store>, lost: nat -> bool, since: nat, n: nat, m: nat)
    requires since <= n <= m <= |past| && forall q :: n < q <= m ==> lost(q)
    ensures Kept(past, lost, since, m) == Kept(past, lost, since, n)
    decreases m
  {
    if n < m {
      KeptSkips(past, lost, since, n, m - 1);
    }
  }

  predicate AllLost(lost: nat -> bool, n: nat, m: nat) {
    forall q :: n < q < m ==> lost(q)
  }

  lemma GapIsLost(order: seq<nat>, n: nat, m: nat)
    requires Gap(order, n, m)
    ensures AllLost(Lost(order), n, m)
  {
  }

  lemma KeptThen(past: seq<Store>, lost: nat -> bool, since: nat, n: nat, u: nat)
    requires since <= n < u <= |past| && !lost(u) && AllLost(lost, n, u)
    ensures Kept(past, lost, since, u) == Kept(past, lost, since, n) + past[u - 1]
  {
    KeptSkips(past, lost, since, n, u - 1);
  }

  /** All numbers between these two were overtaken. */
  ghost predicate Gap(order: seq<nat>, n: nat, m: nat) {
    forall q :: n < q < m ==> Overtaken(order, q)
  }

  // ---------- The invariant ----------

  /** The client state when everything in the stream has been read. */
  function EndSeq(synced: bool, localSeq: nat, stream: seq<Message>): (bool, nat)
    decreases |stream|
  {
    if stream == [] then (synced, localSeq)
    else match stream[0]
      case Snapshot(upTo, _) => EndSeq(true, upTo, stream[1..])
      case Broadcast(u) => EndSeq(synced, if u.seqNo > localSeq then u.seqNo else localSeq, stream[1..])
  }

  /** This client takes update number `u` and misses only overtaken ones by that. */
  ghost predicate Takes(order: seq<nat>, localSeq: nat, u: nat) {
    !Overtaken(order, u) && Gap(order, localSeq, u)
  }

  /** Snapshots in the stream are states of the past, and a synced client that reads the stream misses
      only overtaken updates. */
  ghost predicate Clean(past: seq<Store>, order: seq<nat>, synced: bool, localSeq: nat, stream: seq<Message>)
    decreases |stream|
  {
    if stream == [] then true
    else match stream[0]
      case Snapshot(upTo, objs) =>
        upTo <= |past| && objs == Replay(past[..upTo]) && Clean(past, order, true, upTo, stream[1..])
      case Broadcast(u) =>
        && IsPast(past, u) && u.seqNo in order
        && (synced && u.seqNo > localSeq ==> Takes(order, localSeq, u.seqNo))
        && Clean(past, order, synced, if u.seqNo > localSeq then u.seqNo else localSeq, stream[1..])
  }

  ghost predicate ReplicaOk(past: seq<Store>, order: seq<nat>, r: Replica) {
    && r.localSeq <= |past|
    && (r.synced ==>
          && r.since <= r.localSeq
          && r.localObjs == Kept(past, Lost(order), r.since, r.localSeq)
          && forall q :: r.since < q <= r.localSeq ==> Decided(order, q))
  }

  ghost predicate Holds(us: seq<Update>, q: nat) {
    exists u :: u in us && u.seqNo == q
  }

  /** Update number `q` has still to be written to the client. */
  ghost predicate Awaits(s: Server, id: Id, q: nat) {
    || (s.sending.Some? && s.sending.value.update.seqNo == q && id in s.sending.value.remaining)
    || Holds(s.queue, q)
    || Holds(s.inflight, q)
  }

  /** A connected client whose stream ends after a snapshot misses nothing. */
  ghost predicate NothingMissed(s: Server, id: Id, end: (bool, nat)) {
    end.0 ==> forall q :: end.1 < q <= |s.past| ==> Awaits(s, id, q)
  }

  ghost predicate Ascending(us: seq<Update>) {
    forall i, j :: 0 <= i < j < |us| ==> us[i].seqNo < us[j].seqNo
  }

  /** Number `p` was queued, and before `q`. */
  ghost predicate Precedes(order: seq<nat>, p: nat, q: nat) {
    exists i :: 0 <= i < |order| && order[i] == p && q !in order[..i + 1]
  }

  /** Updates on their way, first the queued ones, then the others. */
  ghost predicate QueuedOk(past: seq<Store>, order: seq<nat>, queue: seq<Update>) {
    && (forall u :: u in queue ==> IsPast(past, u) && u.seqNo in order)
    && (forall i, j :: 0 <= i < j < |queue| ==> Precedes(order, queue[i].seqNo, queue[j].seqNo))
  }

  ghost predicate InflightOk(past: seq<Store>, order: seq<nat>, inflight: seq<Update>) {
    Ascending(inflight) && forall u :: u in inflight ==> IsPast(past, u) && u.seqNo !in order
  }

  function Line(s: Server): seq<Update> {
    (if s.sending.Some? then [s.sending.value.update] else []) + s.queue
  }

  ghost predicate ServerOk(s: Server) {
    && s.seqNo == |s.past| && s.objs == Replay(s.past)
    && (forall p :: p in s.order ==> p <= |s.past|)
    && QueuedOk(s.past, s.order, Line(s)) && InflightOk(s.past, s.order, s.inflight)
    && s.clients <= s.streams.Keys
  }

  ghost predicate ClientOk(y: System, id: Id)
    requires id in y.server.streams && id in y.replicas
  {
    var s, r := y.server, y.replicas[id];
    var end := EndSeq(r.synced, r.localSeq, s.streams[id]);
    && ReplicaOk(s.past, s.order, r)
    && Clean(s.past, s.order, r.synced, r.localSeq, s.streams[id])
    && end.1 <= |s.past|
    && (id in s.clients ==> NothingMissed(s, id, end))
  }

  ghost predicate Inv(y: System) {
    && ServerOk(y.server)
    && y.replicas.Keys == y.server.streams.Keys
    && forall id {:trigger y.replicas[id]} :: id in y.replicas ==> ClientOk(y, id)
  }

  // ---------- Streams ----------

  lemma {:induction false} EndOfLonger(synced: bool, localSeq: nat, stream: seq<Message>, m: Message)
    ensures EndSeq(synced, localSeq, stream + [m]) ==
      (var e := EndSeq(synced, localSeq, stream); EndSeq(e.0, e.1, [m]))
    decreases |stream|
  {
    if stream == [] {
      assert stream + [m] == [m];
    } else {
      assert (stream + [m])[1..] == stream[1..] + [m];
      match stream[0]
      case Snapshot(upTo, _) => EndOfLonger(true, upTo, stream[1..], m);
      case Broadcast(u) => EndOfLonger(synced, if u.seqNo > localSeq then u.seqNo else localSeq, stream[1..], m);
    }
  }

  lemma {:induction false} CleanLonger(past: seq<Store>, order: seq<nat>, synced: bool, localSeq: nat, stream: seq<Message>, m: Message)
    requires Clean(past, order, synced, localSeq, stream)
    requires var e := EndSeq(synced, localSeq, stream); Clean(past, order, e.0, e.1, [m])
    ensures Clean(past, order, synced, localSeq, stream + [m])
    decreases |stream|
  {
    if stream == [] {
      assert stream + [m] == [m];
    } else {
      assert (stream + [m])[1..] == stream[1..] + [m];
      match stream[0]
      case Snapshot(upTo, _) => CleanLonger(past, order, true, upTo, stream[1..], m);
      case Broadcast(u) => CleanLonger(past, order, synced, if u.seqNo > localSeq then u.seqNo else localSeq, stream[1..], m);
    }
  }

  /** History only grows. */
  ghost predicate Grows(past: seq<Store>, order: seq<nat>, past': seq<Store>, order': seq<nat>) {
    past <= past' && (order' == order || exists n :: order' == order + [n])
  }

  lemma TakesStays(order: seq<nat>, order': seq<nat>, localSeq: nat, u: nat)
    requires Takes(order, localSeq, u) && u in order && (order' == order || exists n :: order' == order + [n])
    ensures Takes(order', localSeq, u)
  {
    if order' != order {
      var n :| order' == order + [n];
      OvertakenStays(order, n, u);
      forall q | localSeq < q < u ensures Overtaken(order', q) {
        OvertakenStays(order, n, q);
      }
    }
  }

  lemma {:induction false} CleanStays(past: seq<Store>, order: seq<nat>, past': seq<Store>, order': seq<nat>,
                                      synced: bool, localSeq: nat, stream: seq<Message>)
    requires Clean(past, order, synced, localSeq, stream) && Grows(past, order, past', order')
    ensures Clean(past', order', synced, localSeq, stream)
    decreases |stream|
  {
    if stream != [] {
      match stream[0]
      case Snapshot(upTo, _) =>
        assert past'[..upTo] == past[..upTo];
        CleanStays(past, order, past', order', true, upTo, stream[1..]);
      case Broadcast(u) =>
        if synced && u.seqNo > localSeq {
          TakesStays(order, order', localSeq, u.seqNo);
        }
        CleanStays(past, order, past', order', synced, if u.seqNo > localSeq then u.seqNo else localSeq, stream[1..]);
    }
  }

  lemma ReplicaStays(past: seq<Store>, order: seq<nat>, past': seq<Store>, order': seq<nat>, r: Replica)
    requires ReplicaOk(past, order, r) && Grows(past, order, past', order')
    ensures ReplicaOk(past', order', r)
  {
    if r.synced {
      forall q | r.since < q <= r.localSeq ensures Decided(order', q) && Overtaken(order', q) == Overtaken(order, q) {
        if order' != order {
          var n :| order' == order + [n];
          OvertakenStays(order, n, q);
        }
      }
      KeptStays(past, past', Lost(order), Lost(order'), r.since, r.localSeq);
    }
  }

  // ---------- Every step keeps the server's part ----------

  lemma PrecedesStays(order: seq<nat>, n: nat, p: nat, q: nat)
    requires Precedes(order, p, q)
    ensures Precedes(order + [n], p, q)
  {
    var i :| 0 <= i < |order| && order[i] == p && q !in order[..i + 1];
    assert (order + [n])[..i + 1] == order[..i + 1] && (order + [n])[i] == p;
  }

  lemma NewIsLast(order: seq<nat>, n: nat, p: nat)
    requires n !in order && p in order
    ensures Precedes(order + [n], p, n)
  {
    var i :| 0 <= i < |order| && order[i] == p;
    assert (order + [n])[i] == p && (order + [n])[..i + 1] == order[..i + 1];
  }

  lemma QueuedStays(past: seq<Store>, order: seq<nat>, queue: seq<Update>, n: nat)
    requires QueuedOk(past, order, queue)
    ensures QueuedOk(past, order + [n], queue)
  {
    forall i, j | 0 <= i < j < |queue| ensures Precedes(order + [n], queue[i].seqNo, queue[j].seqNo) {
      PrecedesStays(order, n, queue[i].seqNo, queue[j].seqNo);
    }
  }

  lemma QueuedMore(past: seq<Store>, order: seq<nat>, queue: seq<Update>, u: Update)
    requires QueuedOk(past, order, queue) && IsPast(past, u) && u.seqNo !in order
    ensures QueuedOk(past, order + [u.seqNo], queue + [u])
  {
    var longer := queue + [u];
    forall i, j | 0 <= i < j < |longer| ensures Precedes(order + [u.seqNo], longer[i].seqNo, longer[j].seqNo) {
      assert longer[i] == queue[i] && queue[i] in queue;
      if j < |queue| {
        PrecedesStays(order, u.seqNo, queue[i].seqNo, queue[j].seqNo);
      } else {
        NewIsLast(order, u.seqNo, queue[i].seqNo);
      }
    }
  }

  lemma AscendingLess(us: seq<Update>, k: nat)
    requires Ascending(us) && k < |us|
    ensures Ascending(us[..k] + us[k + 1..])
    ensures forall u :: u in us[..k] + us[k + 1..] ==> u in us && u.seqNo != us[k].seqNo
  {
    var less := us[..k] + us[k + 1..];
    forall i, j | 0 <= i < j < |less| ensures less[i].seqNo < less[j].seqNo {
      assert less[i] == us[if i < k then i else i + 1] && less[j] == us[if j < k then j else j + 1];
    }
    forall i | 0 <= i < |less| ensures less[i] in us && less[i].seqNo != us[k].seqNo {
      assert less[i] == us[if i < k then i else i + 1];
    }
  }

  lemma InflightLess(past: seq<Store>, order: seq<nat>, us: seq<Update>, k: nat)
    requires InflightOk(past, order, us) && k < |us|
    ensures InflightOk(past, order + [us[k].seqNo], us[..k] + us[k + 1..])
  {
    AscendingLess(us, k);
  }

  lemma InflightMore(past: seq<Store>, order: seq<nat>, us: seq<Update>, changes: Store)
    requires InflightOk(past, order, us) && forall p :: p in order ==> p <= |past|
    ensures InflightOk(past + [changes], order, us + [Update(|past| + 1, changes)])
  {
    var u := Update(|past| + 1, changes);
    forall i | 0 <= i < |us| ensures us[i].seqNo < u.seqNo {
      assert us[i] in us;
    }
  }

  lemma ApplyServer(s: Server, changes: Store)
    requires ServerOk(s)
    ensures ServerOk(Applied(s, changes))
  {
    ReplayMore(s.past, changes);
    InflightMore(s.past, s.order, s.inflight, changes);
    assert Line(Applied(s, changes)) == Line(s);
  }

  lemma EnqueueServer(s: Server, which: nat)
    requires ServerOk(s) && which < |s.inflight|
    ensures ServerOk(Enqueued(s, which))
  {
    var t, u := Enqueued(s, which), s.inflight[which];
    assert u in s.inflight;
    InflightLess(s.past, s.order, s.inflight, which);
    if s.clients == {} {
      assert Line(t) == Line(s);
      QueuedStays(s.past, s.order, Line(s), u.seqNo);
    } else {
      assert Line(t) == Line(s) + [u];
      QueuedMore(s.past, s.order, Line(s), u);
    }
  }

  lemma QueuedRest(past: seq<Store>, order: seq<nat>, queue: seq<Update>)
    requires QueuedOk(past, order, queue) && queue != []
    ensures QueuedOk(past, order, queue[1..])
  {
    var rest := queue[1..];
    forall i, j | 0 <= i < j < |rest| ensures Precedes(order, rest[i].seqNo, rest[j].seqNo) {
      assert rest[i] == queue[i + 1] && rest[j] == queue[j + 1];
    }
  }

  lemma StepKeepsServer(y: System, step: Step)
    requires ServerOk(y.server) && y.replicas.Keys == y.server.streams.Keys && Enabled(y, step)
    ensures ServerOk(Next(y, step).server) && Next(y, step).replicas.Keys == Next(y, step).server.streams.Keys
  {
    var s, t := y.server, Next(y, step).server;
    match step
    case Apply(changes) => ApplyServer(s, changes);
    case Enqueue(which) => EnqueueServer(s, which);
    case StartSend => assert Line(t) == Line(s);
    case FinishSend =>
      QueuedRest(s.past, s.order, Line(s));
      assert Line(t) == Line(s)[1..];
    case _ => assert Line(t) == Line(s);
  }

  // ---------- Every step keeps each client's part ----------

  /** Steps that leave a client's stream and its replica alone keep that client's part of the
      invariant, as long as it awaits what it awaited before. */
  lemma SameClient(y: System, z: System, id: Id)
    requires id in y.replicas && id in z.replicas && id in y.server.streams && id in z.server.streams
    requires ClientOk(y, id) && z.replicas[id] == y.replicas[id]
    requires z.server.streams[id] == y.server.streams[id] && z.server.past == y.server.past
    requires Grows(y.server.past, y.server.order, z.server.past, z.server.order)
    requires id in z.server.clients ==> id in y.server.clients
    requires id in z.server.clients ==> forall q :: Awaits(y.server, id, q) ==> Awaits(z.server, id, q)
    ensures ClientOk(z, id)
  {
    var s, t, r := y.server, z.server, y.replicas[id];
    ReplicaStays(s.past, s.order, t.past, t.order, r);
    CleanStays(s.past, s.order, t.past, t.order, r.synced, r.localSeq, s.streams[id]);
  }

  lemma ApplyClient(y: System, changes: Store, id: Id)
    requires Inv(y) && id in y.replicas
    ensures ClientOk(y.(server := Applied(y.server, changes)), id)
  {
    var s, t, r := y.server, Applied(y.server, changes), y.replicas[id];
    ReplicaStays(s.past, s.order, t.past, t.order, r);
    CleanStays(s.past, s.order, t.past, t.order, r.synced, r.localSeq, s.streams[id]);
    if id in s.clients {
      ApplyMissesNothing(s, changes, id, EndSeq(r.synced, r.localSeq, s.streams[id]));
    }
  }

  lemma ApplyMissesNothing(s: Server, changes: Store, id: Id, end: (bool, nat))
    requires NothingMissed(s, id, end) && s.seqNo == |s.past|
    ensures NothingMissed(Applied(s, changes), id, end)
  {
    var t, u := Applied(s, changes), Update(s.seqNo + 1, changes);
    assert u in t.inflight;
    if end.0 {
      forall q | end.1 < q <= |t.past| ensures Awaits(t, id, q) {
        assert q <= |s.past| ==> Awaits(s, id, q);
        if q <= |s.past| && Holds(s.inflight, q) {
          var v :| v in s.inflight && v.seqNo == q;
          assert v in t.inflight;
        }
      }
    }
  }

  lemma EnqueueClient(y: System, which: nat, id: Id)
    requires Inv(y) && id in y.replicas && which < |y.server.inflight|
    ensures ClientOk(y.(server := Enqueued(y.server, which)), id)
  {
    var s, t := y.server, Enqueued(y.server, which);
    assert Grows(s.past, s.order, t.past, t.order);
    if id in s.clients {
      forall q | Awaits(s, id, q) ensures Awaits(t, id, q) {
        StillAwaits(s, which, id, q);
      }
    }
    SameClient(y, y.(server := t), id);
  }

  lemma StillAwaits(s: Server, which: nat, id: Id, q: nat)
    requires which < |s.inflight| && s.clients != {} && Awaits(s, id, q)
    ensures Awaits(Enqueued(s, which), id, q)
  {
    var t, u := Enqueued(s, which), s.inflight[which];
    if Holds(s.queue, q) {
      var v :| v in s.queue && v.seqNo == q;
      assert v in t.queue;
    } else if Holds(s.inflight, q) {
      var v :| v in s.inflight && v.seqNo == q;
      var i :| 0 <= i < |s.inflight| && s.inflight[i] == v;
      if i == which {
        assert u in t.queue;
      } else {
        assert t.inflight[if i < which then i else i - 1] == v;
        assert v in t.inflight;
      }
    }
  }

  lemma StartClient(y: System, id: Id)
    requires Inv(y) && id in y.replicas && y.server.queue != [] && y.server.sending.None?
    ensures ClientOk(y.(server := Started(y.server)), id)
  {
    var s, t := y.server, Started(y.server);
    forall q | id in s.clients && Awaits(s, id, q) ensures Awaits(t, id, q) {
      if Holds(s.queue, q) {
        var v :| v in s.queue && v.seqNo == q;
        assert v == s.queue[0] || v in s.queue[1..];
      }
    }
    SameClient(y, y.(server := t), id);
  }

  lemma ConnectClient(y: System, new': Id, id: Id)
    requires Inv(y) && new' !in y.replicas && (id in y.replicas || id == new')
    ensures ClientOk(Next(y, Connect(new')), id)
  {
    if id != new' {
      SameClient(y, Next(y, Connect(new')), id);
    }
  }

  lemma SnapshotClient(y: System, id: Id)
    requires Inv(y) && id in y.replicas && id in y.server.clients
    ensures ClientOk(Next(y, AskSnapshot(id)), id)
  {
    var s, r := y.server, y.replicas[id];
    var stream, m := s.streams[id], Snapshot(s.seqNo, s.objs);
    var e := EndSeq(r.synced, r.localSeq, stream);
    assert s.past[..s.seqNo] == s.past;
    assert [m][1..] == [];
    CleanLonger(s.past, s.order, r.synced, r.localSeq, stream, m);
    EndOfLonger(r.synced, r.localSeq, stream, m);
  }

  /** What a synced client still needs below the update that is being written has been overtaken by it. */
  lemma NeededIsOvertaken(s: Server, id: Id, end: (bool, nat), q: nat)
    requires ServerOk(s) && s.sending.Some? && NothingMissed(s, id, end) && end.0
    requires end.1 < q < s.sending.value.update.seqNo
    ensures Overtaken(s.order, q)
  {
    var u := s.sending.value.update;
    assert Line(s)[0] == u && u in Line(s);
    assert Awaits(s, id, q);
    if Holds(s.queue, q) {
      var v :| v in s.queue && v.seqNo == q;
      var j :| 0 <= j < |s.queue| && s.queue[j] == v;
      assert Line(s)[j + 1] == v;
      var i :| 0 <= i < |s.order| && s.order[i] == u.seqNo && q !in s.order[..i + 1];
      assert s.order[..i] <= s.order[..i + 1];
    } else {
      var v :| v in s.inflight && v.seqNo == q;
      var i :| 0 <= i < |s.order| && s.order[i] == u.seqNo;
    }
  }

  /** The update that is being written has not been overtaken if a synced client needs it. */
  lemma WrittenIsFirst(s: Server, id: Id, end: (bool, nat))
    requires ServerOk(s) && s.sending.Some? && NothingMissed(s, id, end) && end.0
    requires end.1 < s.sending.value.update.seqNo
    ensures !Overtaken(s.order, s.sending.value.update.seqNo)
  {
    var u := s.sending.value.update;
    forall i | 0 <= i < |s.order| && s.order[i] > u.seqNo ensures u.seqNo in s.order[..i] {
      var p := s.order[i];
      assert p in s.order;
      assert Awaits(s, id, p);
      if Holds(s.queue, p) {
        var v :| v in s.queue && v.seqNo == p;
        var j :| 0 <= j < |s.queue| && s.queue[j] == v;
        assert Line(s)[0] == u && Line(s)[j + 1] == v;
        PrecedesEach(s.order, u.seqNo, p, i);
      }
    }
  }

  lemma PrecedesEach(order: seq<nat>, p: nat, q: nat, i: nat)
    requires Precedes(order, p, q) && i < |order| && order[i] == q
    ensures p in order[..i]
  {
    var k :| 0 <= k < |order| && order[k] == p && q !in order[..k + 1];
    assert forall j :: 0 <= j < k + 1 ==> order[j] in order[..k + 1];
    assert k < i;
    assert order[..i][k] == p;
  }

  lemma WriteToClient(y: System, id: Id)
    requires Inv(y) && id in y.replicas && id in y.server.clients
    requires y.server.sending.Some?
    ensures ClientOk(y.(server := Wrote(y.server, id)), id)
  {
    var s, t, r := y.server, Wrote(y.server, id), y.replicas[id];
    var u, stream := s.sending.value.update, s.streams[id];
    var m := Broadcast(u);
    var e := EndSeq(r.synced, r.localSeq, stream);
    assert Line(s)[0] == u && u in Line(s);
    assert [m][1..] == [];
    if e.0 && u.seqNo > e.1 {
      WrittenIsFirst(s, id, e);
      forall q | e.1 < q < u.seqNo ensures Overtaken(s.order, q) {
        NeededIsOvertaken(s, id, e, q);
      }
    }
    CleanLonger(s.past, s.order, r.synced, r.localSeq, stream, m);
    EndOfLonger(r.synced, r.localSeq, stream, m);
    WriteMissesNothing(s, id, e);
  }

  lemma WriteMissesNothing(s: Server, id: Id, end: (bool, nat))
    requires NothingMissed(s, id, end) && s.sending.Some? && id in s.streams
    ensures NothingMissed(Wrote(s, id), id, EndSeq(end.0, end.1, [Broadcast(s.sending.value.update)]))
  {
    var t, u := Wrote(s, id), s.sending.value.update;
    assert [Broadcast(u)][1..] == [];
    if end.0 {
      forall q | end.1 < q <= |t.past| && u.seqNo < q ensures Awaits(t, id, q) {
        assert Awaits(s, id, q);
      }
    }
  }

  /** Reading one message keeps a replica in order. */
  lemma ReceiveKeeps(past: seq<Store>, order: seq<nat>, r: Replica, stream: seq<Message>)
    requires ReplicaOk(past, order, r) && Clean(past, order, r.synced, r.localSeq, stream) && stream != []
    ensures var n := Received(r, stream[0]);
      && ReplicaOk(past, order, n) && Clean(past, order, n.synced, n.localSeq, stream[1..])
      && EndSeq(n.synced, n.localSeq, stream[1..]) == EndSeq(r.synced, r.localSeq, stream)
  {
    match stream[0]
    case Snapshot(_, _) =>
    case Broadcast(u) =>
      if u.seqNo > r.localSeq && r.synced {
        UpdateKeeps(past, order, r, u);
      }
  }

  lemma UpdateKeeps(past: seq<Store>, order: seq<nat>, r: Replica, u: Update)
    requires ReplicaOk(past, order, r) && r.synced && u.seqNo > r.localSeq
    requires IsPast(past, u) && u.seqNo in order && Takes(order, r.localSeq, u.seqNo)
    ensures ReplicaOk(past, order, Received(r, Broadcast(u)))
  {
    TakesLost(order, r.localSeq, u.seqNo);
    KeptThen(past, Lost(order), r.since, r.localSeq, u.seqNo);
    AllDecided(order, r.since, r.localSeq, u.seqNo);
  }

  lemma TakesLost(order: seq<nat>, n: nat, u: nat)
    requires Takes(order, n, u)
    ensures AllLost(Lost(order), n, u) && !Lost(order)(u)
  {
    GapIsLost(order, n, u);
  }

  lemma AllDecided(order: seq<nat>, since: nat, localSeq: nat, u: nat)
    requires u in order && Gap(order, localSeq, u) && forall q :: since < q <= localSeq ==> Decided(order, q)
    ensures forall q :: since < q <= u ==> Decided(order, q)
  {
    forall q | since < q <= u ensures Decided(order, q) {
      if localSeq < q < u {
        assert Overtaken(order, q);
      }
    }
  }

  lemma ReceiveClient(y: System, id: Id)
    requires Inv(y) && Enabled(y, Receive(id))
    ensures ClientOk(Next(y, Receive(id)), id)
  {
    var s := y.server;
    ReceiveKeeps(s.past, s.order, y.replicas[id], s.streams[id]);
    var t := Next(y, Receive(id)).server;
    assert forall q :: Awaits(s, id, q) ==> Awaits(t, id, q);
  }

  lemma StepKeepsClient(y: System, step: Step, id: Id)
    requires Inv(y) && Enabled(y, step) && id in Next(y, step).replicas
    ensures id in Next(y, step).server.streams && ClientOk(Next(y, step), id)
  {
    StepKeepsServer(y, step);
    match step
    case Apply(changes) => ApplyClient(y, changes, id);
    case Enqueue(which) => EnqueueClient(y, which, id);
    case StartSend => StartClient(y, id);
    case FinishSend => SameClient(y, Next(y, step), id);
    case WriteTo(to) =>
      if id == to && id in y.server.clients { WriteToClient(y, id); } else { SameClient(y, Next(y, step), id); }
    case Connect(new') => ConnectClient(y, new', id);
    case AskSnapshot(to) =>
      if id == to { SnapshotClient(y, id); } else { SameClient(y, Next(y, step), id); }
    case Receive(to) =>
      if id == to { ReceiveClient(y, id); } else { SameClient(y, Next(y, step), id); }
    case Drop(gone) => SameClient(y, Next(y, step), id);
  }

  lemma {:induction false} RunKeepsInv(y: System, steps: seq<Step>)
    requires Inv(y) && RunFrom(y, steps).Some?
    ensures Inv(RunFrom(y, steps).value)
    decreases |steps|
  {
    if steps != [] {
      var z := Next(y, steps[0]);
      StepKeepsServer(y, steps[0]);
      forall id | id in z.replicas ensures ClientOk(z, id) {
        StepKeepsClient(y, steps[0], id);
      }
      RunKeepsInv(z, steps[1..]);
    }
  }

  lemma RunsKeepInv(steps: seq<Step>)
    requires After(steps).Some?
    ensures Inv(After(steps).value)
  {
    assert Line(INITIAL.server) == [];
    RunKeepsInv(INITIAL, steps);
  }

  // ---------- What clients see in every run ----------

  /** In every run, a client that has consumed a snapshot holds the map of that snapshot with exactly
      those later changes, up to the client's own number, that no larger number was queued before. */
  lemma ReplicasLackTheOvertaken(steps: seq<Step>, id: Id)
    requires After(steps).Some? && id in After(steps).value.replicas && After(steps).value.replicas[id].synced
    ensures var y := After(steps).value; var s, r := y.server, y.replicas[id];
      && r.since <= r.localSeq <= |s.past| == s.seqNo
      && r.localObjs == Kept(s.past, Lost(s.order), r.since, r.localSeq)
  {
    RunsKeepInv(steps);
    assert ClientOk(After(steps).value, id);
  }

  /** Once everything is drained, a connected client has reached the server's number. */
  lemma DrainedReplicasAreUpToDate(steps: seq<Step>, id: Id)
    requires After(steps).Some? && id in After(steps).value.replicas && After(steps).value.replicas[id].synced
    requires id in After(steps).value.server.clients && Drained(After(steps).value, id)
    ensures var y := After(steps).value; y.replicas[id].localSeq == y.server.seqNo == |y.server.past|
  {
    var y := After(steps).value;
    RunsKeepInv(steps);
    assert ClientOk(y, id);
    assert !Awaits(y.server, id, y.server.seqNo);
  }

  // ---------- Name by name ----------

  function ValueIn(m: Store, k: Key): Option<Val> {
    if k in m then Some(m[k]) else None
  }

  /** The number of the last change of a name after number `since`, or `since` if there is none. */
  function LastChange(past: seq<Store>, since: nat, n: nat, k: Key): (r: nat)
    requires since <= n <= |past|
    ensures since <= r <= n
    decreases n
  {
    if n == since || k in past[n - 1] then n else LastChange(past, since, n - 1, k)
  }

  /** The same among the changes that were not lost. */
  function LastKept(past: seq<Store>, lost: nat -> bool, since: nat, n: nat, k: Key): (r: nat)
    requires since <= n <= |past|
    ensures since <= r <= n
    decreases n
  {
    if n == since || (k in past[n - 1] && !lost(n)) then n else LastKept(past, lost, since, n - 1, k)
  }

  /** What change number `q` made of the name; at `since`, what the snapshot says. */
  function ValueAt(past: seq<Store>, since: nat, q: nat, k: Key): Option<Val>
    requires since <= q <= |past|
  {
    if q == since then ValueIn(Replay(past[..since]), k) else ValueIn(past[q - 1], k)
  }

  lemma {:induction false} KeptValue(past: seq<Store>, lost: nat -> bool, since: nat, n: nat, k: Key)
    requires since <= n <= |past|
    ensures ValueIn(Kept(past, lost, since, n), k) == ValueAt(past, since, LastKept(past, lost, since, n, k), k)
    decreases n
  {
    if n > since {
      KeptValue(past, lost, since, n - 1, k);
    }
  }

  lemma {:induction false} ReplayValue(past: seq<Store>, since: nat, n: nat, k: Key)
    requires since <= n <= |past|
    ensures ValueIn(Replay(past[..n]), k) == ValueAt(past, since, LastChange(past, since, n, k), k)
    decreases n
  {
    if n > since {
      NextReplay(past, n - 1);
      ReplayValue(past, since, n - 1, k);
    }
  }

  /** The client is right about this name: the name has not changed since the snapshot, or its last
      change was not overtaken, or the last change that was not gave it the same value. */
  predicate RightAbout(past: seq<Store>, order: seq<nat>, since: nat, k: Key)
    requires since <= |past|
  {
    var last := LastChange(past, since, |past|, k);
    || last == since
    || !Overtaken(order, last)
    || ValueAt(past, since, LastKept(past, Lost(order), since, |past|, k), k) == ValueAt(past, since, last, k)
  }

  lemma {:induction false} LastIsKept(past: seq<Store>, lost: nat -> bool, since: nat, n: nat, k: Key)
    requires since <= n <= |past|
    ensures var last := LastChange(past, since, n, k);
      last == since || !lost(last) ==> LastKept(past, lost, since, n, k) == last
    decreases n
  {
    if n > since && k !in past[n - 1] {
      LastIsKept(past, lost, since, n - 1, k);
    }
  }

  /** In every run, a drained and connected client that has consumed a snapshot agrees with the server
      about a name if and only if the order of queueing leaves it right about that name. */
  lemma DrainedReplicasAreRight(steps: seq<Step>, id: Id, k: Key)
    requires After(steps).Some? && id in After(steps).value.replicas && After(steps).value.replicas[id].synced
    requires id in After(steps).value.server.clients && Drained(After(steps).value, id)
    ensures var y := After(steps).value; var s, r := y.server, y.replicas[id];
      && r.since <= |s.past|
      && (ValueIn(r.localObjs, k) == ValueIn(s.objs, k) <==> RightAbout(s.past, s.order, r.since, k))
  {
    var y := After(steps).value;
    var s, r := y.server, y.replicas[id];
    ReplicasLackTheOvertaken(steps, id);
    DrainedReplicasAreUpToDate(steps, id);
    RunsKeepInv(steps);
    assert s.past[..|s.past|] == s.past;
    KeptValue(s.past, Lost(s.order), r.since, |s.past|, k);
    ReplayValue(s.past, r.since, |s.past|, k);
    LastIsKept(s.past, Lost(s.order), r.since, |s.past|, k);
  }

  // ---------- Runs in order ----------

  /** What waits to be queued continues what was queued: number by number. */
  ghost predicate Counted(s: Server) {
    && |s.order| + |s.inflight| == s.seqNo
    && (forall i :: 0 <= i < |s.order| ==> s.order[i] == i + 1)
    && (forall i :: 0 <= i < |s.inflight| ==> s.inflight[i].seqNo == |s.order| + i + 1)
  }

  lemma {:induction false} InOrderCounts(y: System, steps: seq<Step>)
    requires Counted(y.server) && InOrder(steps) && RunFrom(y, steps).Some?
    ensures Counted(RunFrom(y, steps).value.server)
    decreases |steps|
  {
    if steps != [] {
      assert InOrder(steps[1..]) by { assert forall i :: 0 <= i < |steps| - 1 ==> steps[1..][i] == steps[i + 1]; }
      InOrderCounts(Next(y, steps[0]), steps[1..]);
    }
  }

  lemma NothingOvertaken(order: seq<nat>, q: nat)
    requires (forall i :: 0 <= i < |order| ==> order[i] == i + 1) && q >= 1
    ensures !Overtaken(order, q)
  {
    forall i | 0 <= i < |order| && order[i] > q ensures q in order[..i] {
      assert order[q - 1] == q && order[..i][q - 1] == order[q - 1];
    }
  }

  lemma {:induction false} AllKept(past: seq<Store>, lost: nat -> bool, since: nat, n: nat)
    requires since <= n <= |past| && forall q :: 1 <= q <= n ==> !lost(q)
    ensures Kept(past, lost, since, n) == Replay(past[..n])
    decreases n
  {
    if n > since {
      NextReplay(past, n - 1);
      AllKept(past, lost, since, n - 1);
    }
  }

  /** In every in-order run, a client that has consumed a snapshot holds exactly the map the server had
      at the client's own sequence number, connected or not. */
  lemma ReplicasAreHistory(steps: seq<Step>, id: Id)
    requires InOrder(steps) && After(steps).Some? && id in After(steps).value.replicas && After(steps).value.replicas[id].synced
    ensures var y := After(steps).value; var r := y.replicas[id];
      r.localSeq <= |y.server.past| == y.server.seqNo && r.localObjs == Replay(y.server.past[..r.localSeq])
  {
    var y := After(steps).value;
    ReplicasLackTheOvertaken(steps, id);
    InOrderCounts(INITIAL, steps);
    forall q: nat | q >= 1 ensures !Lost(y.server.order)(q) {
      NothingOvertaken(y.server.order, q);
    }
    AllKept(y.server.past, Lost(y.server.order), y.replicas[id].since, y.replicas[id].localSeq);
  }

  /** Once everything is drained, a connected client that has consumed a snapshot is current. */
  lemma DrainedReplicasAreCurrent(steps: seq<Step>, id: Id)
    requires InOrder(steps) && After(steps).Some? && id in After(steps).value.replicas && After(steps).value.replicas[id].synced
    requires id in After(steps).value.server.clients && Drained(After(steps).value, id)
    ensures var y := After(steps).value; var r := y.replicas[id];
      r.localSeq == y.server.seqNo && r.localObjs == y.server.objs
  {
    var s := After(steps).value.server;
    ReplicasAreHistory(steps, id);
    DrainedReplicasAreUpToDate(steps, id);
    RunsKeepInv(steps);
    assert s.past[..|s.past|] == s.past;
  }

  // ---------- Out of order ----------

  /** A synced client is connected and waits for nothing. */
  function SyncedStart(id: Id): seq<Step> {
    [Connect(id), AskSnapshot(id), Receive(id)]
  }

  /** Two changes are applied and the second one is queued first. */
  function Overtaking(id: Id, first: Store, second: Store): seq<Step> {
    [Apply(first), Apply(second), Enqueue(1), Enqueue(0)]
  }

  function Delivery(id: Id): seq<Step> {
    [StartSend, WriteTo(id), FinishSend, Receive(id)]
  }

  /** The client takes the later change and then ignores the earlier one as old.  It ends up with the map of the
      server exactly if the later change covers all names of the earlier one. */
  lemma OvertakingLosesChanges(id: Id, first: Store, second: Store)
    requires first != map[] && second != map[]
    ensures var r := After(SyncedStart(id) + Overtaking(id, first, second) + Delivery(id) + Delivery(id));
      && r.Some? && id in r.value.server.clients && Drained(r.value, id)
      && id in r.value.replicas && r.value.replicas[id] == Replica(true, 0, 2, second)
      && r.value.server.seqNo == 2 && r.value.server.objs == first + second
      && (r.value.replicas[id].localObjs == r.value.server.objs <==> first.Keys <= second.Keys)
  {
    Covers(first, second);
    var y1 := AfterSync(id);
    var y2 := AfterOvertaking(y1, id, first, second);
    var u, v := Update(1, first), Update(2, second);
    var y3 := AfterDelivery(y2, id, v, [u]);
    var y4 := AfterDelivery(y3, id, u, []);
    var a, b, c := SyncedStart(id), Overtaking(id, first, second), Delivery(id);
    RunJoin(INITIAL, a, b, y1);
    RunJoin(INITIAL, a + b, c, y2);
    RunJoin(INITIAL, a + b + c, c, y3);
  }

  lemma Covers(first: Store, second: Store)
    ensures second == first + second <==> first.Keys <= second.Keys
  {
    if second == first + second {
      assert (first + second).Keys == first.Keys + second.Keys;
    }
  }

  lemma AfterSync(id: Id) returns (y: System)
    ensures RunFrom(INITIAL, SyncedStart(id)) == Some(y)
    ensures y == System(INITIAL.server.(clients := {id}, streams := map[id := []]), map[id := Replica(true, 0, 0, map[])])
  {
    var y1 := Next(INITIAL, Connect(id));
    var y2 := Next(y1, AskSnapshot(id));
    y := Next(y2, Receive(id));
    assert y2.server.streams[id] == [Snapshot(0, map[])] && y2.server.streams[id][1..] == [];
    RunCons(INITIAL, Connect(id), [AskSnapshot(id), Receive(id)]);
    RunCons(y1, AskSnapshot(id), [Receive(id)]);
    RunCons(y2, Receive(id), []);
    assert [Receive(id)] + [] == [Receive(id)];
    assert [AskSnapshot(id)] + [Receive(id)] == [AskSnapshot(id), Receive(id)];
    assert [Connect(id)] + [AskSnapshot(id), Receive(id)] == SyncedStart(id);
    assert y.server.streams == map[id := []];
  }

  lemma AfterOvertaking(y: System, id: Id, first: Store, second: Store) returns (z: System)
    requires first != map[] && second != map[] && y.server.clients == {id}
    requires y.server.seqNo == 0 && y.server.objs == map[] && y.server.inflight == [] && y.server.queue == []
    ensures RunFrom(y, Overtaking(id, first, second)) == Some(z)
    ensures z.replicas == y.replicas && z.server.streams == y.server.streams && z.server.clients == {id}
    ensures z.server.sending == y.server.sending && z.server.inflight == []
    ensures z.server.queue == [Update(2, second), Update(1, first)]
    ensures z.server.seqNo == 2 && z.server.objs == first + second
  {
    var y1 := Next(y, Apply(first));
    var y2 := Next(y1, Apply(second));
    assert y2.server.inflight == [Update(1, first), Update(2, second)];
    var y3 := Next(y2, Enqueue(1));
    assert y3.server.inflight == [Update(1, first)] && y3.server.queue == [Update(2, second)];
    z := Next(y3, Enqueue(0));
    assert map[] + first == first;
    RunCons(y, Apply(first), [Apply(second), Enqueue(1), Enqueue(0)]);
    RunCons(y1, Apply(second), [Enqueue(1), Enqueue(0)]);
    RunCons(y2, Enqueue(1), [Enqueue(0)]);
    RunCons(y3, Enqueue(0), []);
    assert [Enqueue(0)] + [] == [Enqueue(0)] && [Enqueue(1)] + [Enqueue(0)] == [Enqueue(1), Enqueue(0)];
    assert [Apply(second)] + [Enqueue(1), Enqueue(0)] == [Apply(second), Enqueue(1), Enqueue(0)];
    assert [Apply(first)] + [Apply(second), Enqueue(1), Enqueue(0)] == Overtaking(id, first, second);
  }

  lemma AfterDelivery(y: System, id: Id, u: Update, rest: seq<Update>) returns (z: System)
    requires y.server.sending.None? && y.server.queue == [u] + rest && y.server.clients == {id}
    requires id in y.server.streams && y.server.streams[id] == [] && id in y.replicas
    ensures RunFrom(y, Delivery(id)) == Some(z)
    ensures z.server.sending.None? && z.server.queue == rest && z.server.clients == {id}
    ensures id in z.server.streams && z.server.streams[id] == []
    ensures id in z.replicas && z.replicas[id] == Received(y.replicas[id], Broadcast(u))
    ensures z.server.inflight == y.server.inflight && z.server.seqNo == y.server.seqNo && z.server.objs == y.server.objs
  {
    var y1 := Next(y, StartSend);
    assert y1.server.queue == rest;
    var y2 := Next(y1, WriteTo(id));
    assert y2.server.streams[id] == [Broadcast(u)];
    var y3 := Next(y2, FinishSend);
    z := Next(y3, Receive(id));
    assert [Broadcast(u)][1..] == [];
    RunCons(y, StartSend, [WriteTo(id), FinishSend, Receive(id)]);
    RunCons(y1, WriteTo(id), [FinishSend, Receive(id)]);
    RunCons(y2, FinishSend, [Receive(id)]);
    RunCons(y3, Receive(id), []);
    assert [Receive(id)] + [] == [Receive(id)] && [FinishSend] + [Receive(id)] == [FinishSend, Receive(id)];
    assert [WriteTo(id)] + [FinishSend, Receive(id)] == [WriteTo(id), FinishSend, Receive(id)];
    assert [StartSend] + [WriteTo(id), FinishSend, Receive(id)] == Delivery(id);
  }

}
