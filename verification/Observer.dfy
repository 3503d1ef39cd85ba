/** The replicated object store: a sequence-numbered map with a bounded change log, a queue of
    broadcasts, and clients that hold copies.  One step of the protocol is one atomic action of
    one of the threads involved. */
module Observer {
  import opened Options
  import opened JsonValues

  /** Names and values of shared objects; what they look like inside does not matter here. */
  datatype Key = Key(name: Json)
  datatype Val = Val(value: Json)

  type Store = map<Key, Val>

  type Id = nat

  datatype Update = Update(seqNo: nat, changes: Store)

  datatype Message = Snapshot(upTo: nat, objs: Store) | Broadcast(update: Update)

  /** The broadcast that is being written, and the clients it was not written to yet. */
  datatype Sending = Sending(update: Update, remaining: set<Id>)

  const LOG_LIMIT: nat := 1000

  /** `past` lists all changes ever applied, and `order` their numbers in the order in which they were
      queued for broadcasting, or found nobody to be queued for; the program keeps neither. */
  datatype Server = Server(
    seqNo: nat, objs: Store, log: seq<Update>, past: seq<Store>, order: seq<nat>,
    inflight: seq<Update>, queue: seq<Update>, sending: Option<Sending>,
    clients: set<Id>, streams: map<Id, seq<Message>>)

  /** A client's copy.  `synced` says that it has consumed a snapshot, and `since` is the number of the
      last one. */
  datatype Replica = Replica(synced: bool, since: nat, localSeq: nat, localObjs: Store)

  datatype System = System(server: Server, replicas: map<Id, Replica>)

  // ---------- The steps ----------

  /** Appending to a `deque(maxlen=1000)`. */
  function Logged(log: seq<Update>, u: Update): seq<Update> {
    (if |log| < LOG_LIMIT then log else log[1..]) + [u]
  }

  function Applied(s: Server, changes: Store): Server {
    var u := Update(s.seqNo + 1, changes);
    s.(seqNo := s.seqNo + 1, objs := s.objs + changes, log := Logged(s.log, u), past := s.past + [changes],
       inflight := s.inflight + [u])
  }

  /** An applied change goes to the broadcast queue, or nowhere if nobody listens.  The program
      waits between applying and queueing, so it need not be the oldest one. */
  function Enqueued(s: Server, which: nat): Server
    requires which < |s.inflight|
  {
    s.(inflight := s.inflight[..which] + s.inflight[which + 1..], order := s.order + [s.inflight[which].seqNo],
       queue := if s.clients == {} then s.queue else s.queue + [s.inflight[which]])
  }

  function Started(s: Server): Server
    requires s.queue != []
  {
    s.(queue := s.queue[1..], sending := Some(Sending(s.queue[0], s.clients)))
  }

  function Posted(s: Server, id: Id, m: Message): Server
    requires id in s.streams
  {
    s.(streams := s.streams[id := s.streams[id] + [m]])
  }

  function Wrote(s: Server, id: Id): Server
    requires s.sending.Some? && id in s.streams
  {
    var w := s.sending.value;
    var t := s.(sending := Some(w.(remaining := w.remaining - {id})));
    if id in s.clients then Posted(t, id, Broadcast(w.update)) else t
  }

  function Joined(s: Server, id: Id): Server {
    s.(clients := s.clients + {id}, streams := s.streams[id := []])
  }

  /** What the read loop of the client makes of one message. */
  function Received(r: Replica, m: Message): Replica {
    match m
    case Snapshot(upTo, objs) => Replica(true, upTo, upTo, objs)
    case Broadcast(u) =>
      if u.seqNo != 0 && u.seqNo > r.localSeq then r.(localSeq := u.seqNo, localObjs := r.localObjs + u.changes) else r
  }

  datatype Step =
    | Apply(changes: Store)
    | Enqueue(which: nat)
    | StartSend
    | WriteTo(id: Id)
    | FinishSend
    | Connect(id: Id)
    | AskSnapshot(id: Id)
    | Receive(id: Id)
    | Drop(id: Id)

  predicate Enabled(y: System, step: Step) {
    var s := y.server;
    match step
    case Apply(changes) => changes != map[]
    case Enqueue(which) => which < |s.inflight|
    case StartSend => s.sending.None? && s.queue != []
    case WriteTo(id) => s.sending.Some? && id in s.sending.value.remaining && id in s.streams
    case FinishSend => s.sending.Some? && s.sending.value.remaining == {}
    case Connect(id) => id !in s.streams && id !in y.replicas
    case AskSnapshot(id) => id in s.clients && id in s.streams
    case Receive(id) => id in s.streams && id in y.replicas && s.streams[id] != []
    case Drop(id) => id in s.clients
  }

  function Next(y: System, step: Step): System
    requires Enabled(y, step)
  {
    var s := y.server;
    match step
    case Apply(changes) => y.(server := Applied(s, changes))
    case Enqueue(which) => y.(server := Enqueued(s, which))
    case StartSend => y.(server := Started(s))
    case WriteTo(id) => y.(server := Wrote(s, id))
    case FinishSend => y.(server := s.(sending := None))
    case Connect(id) => System(Joined(s, id), y.replicas[id := Replica(false, 0, 0, map[])])
    case AskSnapshot(id) => y.(server := Posted(s, id, Snapshot(s.seqNo, s.objs)))
    case Receive(id) =>
      System(s.(streams := s.streams[id := s.streams[id][1..]]),
             y.replicas[id := Received(y.replicas[id], s.streams[id][0])])
    case Drop(id) => y.(server := s.(clients := s.clients - {id}))
  }

  const INITIAL := System(Server(0, map[], [], [], [], [], [], None, {}, map[]), map[])

  /** The state after a run of steps; `None` if a step is not possible where it stands. */
  function RunFrom(y: System, steps: seq<Step>): Option<System>
    decreases |steps|
  {
    if steps == [] then Some(y)
    else if Enabled(y, steps[0]) then RunFrom(Next(y, steps[0]), steps[1..])
    else None
  }

  /** A run of the protocol from its start. */
  function After(steps: seq<Step>): Option<System> {
    RunFrom(INITIAL, steps)
  }

  /** Changes are queued for broadcasting in the order of their numbers: nothing makes one
      ingest connection wait between applying a change and queueing it. */
  predicate InOrder(steps: seq<Step>) {
    forall i :: 0 <= i < |steps| && steps[i].Enqueue? ==> steps[i].which == 0
  }

  // ---------- History ----------

  /** The map after a sequence of changes. */
  function Replay(past: seq<Store>): Store
    decreases |past|
  {
    if past == [] then map[] else Replay(past[..|past| - 1]) + past[|past| - 1]
  }

  /** The last changes, at most as many as the log holds, numbered up to the current number. */
  function Window(past: seq<Store>): seq<Update> {
    var first := if |past| < LOG_LIMIT then 0 else |past| - LOG_LIMIT;
    seq(|past| - first, i requires 0 <= i < |past| - first => Update(first + i + 1, past[first + i]))
  }

  ghost predicate IsPast(past: seq<Store>, u: Update) {
    1 <= u.seqNo <= |past| && past[u.seqNo - 1] == u.changes
  }

  lemma ReplayMore(past: seq<Store>, changes: Store)
    ensures Replay(past + [changes]) == Replay(past) + changes
  {
    assert (past + [changes])[..|past|] == past;
  }

  lemma NextReplay(past: seq<Store>, k: nat)
    requires k < |past|
    ensures Replay(past[..k + 1]) == Replay(past[..k]) + past[k]
  {
    assert past[..k + 1] == past[..k] + [past[k]];
    ReplayMore(past[..k], past[k]);
  }

  lemma WindowMore(past: seq<Store>, changes: Store)
    ensures Window(past + [changes]) == Logged(Window(past), Update(|past| + 1, changes))
  {
  }

  // ---------- Runs ----------

  lemma RunCons(y: System, step: Step, rest: seq<Step>)
    requires Enabled(y, step)
    ensures RunFrom(y, [step] + rest) == RunFrom(Next(y, step), rest)
  {
    assert ([step] + rest)[1..] == rest;
  }

  lemma {:induction false} RunJoin(y: System, a: seq<Step>, b: seq<Step>, z: System)
    requires RunFrom(y, a) == Some(z)
    ensures RunFrom(y, a + b) == RunFrom(z, b)
    decreases |a|
  {
    if a == [] {
      assert a + b == b;
    } else {
      assert (a + b)[1..] == a[1..] + b;
      RunJoin(Next(y, a[0]), a[1..], b, z);
    }
  }

  /** Nothing is under way any more, on the server and to this client. */
  predicate Drained(y: System, id: Id) {
    var s := y.server;
    s.inflight == [] && s.queue == [] && s.sending.None? && id in s.streams && s.streams[id] == []
  }
}
