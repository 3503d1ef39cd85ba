/** The server and client objects of the replicated store.  Each method is one atomic action;
    its contract says which step of the protocol it takes. */
module ObserverService {
  import opened Options
  import opened JsonValues
  import opened Observer
  import opened ObserverLog
  import opened Payloads

  /** What one update payload makes of the server: nothing without changes, and the handler
      fails, leaving the server alone, on an unhashable name. */
  function Handled(s: Server, payload: Json): Option<Server> {
    match ParseChanges(payload)
    case None => None
    case Some(changes) => Some(if changes == map[] then s else Applied(s, changes))
  }

  /** The last of these is the change that the payload means, under this number. */
  ghost predicate Announces(us: seq<Update>, seqNo: nat, payload: Json) {
    us != [] && us[|us| - 1].seqNo == seqNo && AssignedBy(payload, us[|us| - 1].changes)
  }

  /** What an update does to the server: it takes the next number, each name that it gives a value to has this value, and
      all others have theirs; the change is logged, the oldest one going from a full log, and due for
      broadcasting; and all else stays.  If it gives no values, nothing changes. */
  ghost predicate TakesEffect(s: Server, t: Server, payload: Json) {
    if exists name, value :: Assigns(payload, name, value) then
      && t.seqNo == s.seqNo + 1
      && (forall name, value :: Assigns(payload, name, value) ==> Key(name) in t.objs && t.objs[Key(name)] == Val(value))
      && (forall name :: (forall value :: !Assigns(payload, name, value)) ==> AgreeOn(s.objs, t.objs, Key(name)))
      && Announces(t.log, t.seqNo, payload)
      && t.log[..|t.log| - 1] == (if |s.log| < LOG_LIMIT then s.log else s.log[1..])
      && Announces(t.inflight, t.seqNo, payload) && t.inflight[..|t.inflight| - 1] == s.inflight
      && t.order == s.order && t.queue == s.queue && t.sending == s.sending && t.clients == s.clients && t.streams == s.streams
    else t == s
  }

  lemma NothingAssigned(payload: Json, changes: Store)
    requires AssignedBy(payload, changes)
    ensures changes == map[] <==> !exists name, value :: Assigns(payload, name, value)
  {
    if changes != map[] {
      assert changes.Keys != {};
      var k :| k in changes;
      assert Key(k.name) in changes && changes[Key(k.name)] == Val(changes[k].value);
      assert Assigns(payload, k.name, changes[k].value);
    }
  }

  lemma AppliedTakesEffect(s: Server, payload: Json, changes: Store)
    requires AssignedBy(payload, changes) && changes != map[]
    ensures TakesEffect(s, Applied(s, changes), payload)
  {
    NothingAssigned(payload, changes);
    var t := Applied(s, changes);
    forall name | forall value :: !Assigns(payload, name, value) ensures AgreeOn(s.objs, t.objs, Key(name)) {
      assert Key(name) in changes ==> Assigns(payload, name, changes[Key(name)].value);
    }
  }

  /** The handler fails exactly on payloads that name something that cannot be a key, and otherwise the update takes effect. */
  lemma UpdatesTakeEffect(s: Server, payload: Json)
    ensures Handled(s, payload).None? <==> Rejected(payload)
    ensures Handled(s, payload).Some? ==> TakesEffect(s, Handled(s, payload).value, payload)
  {
    PayloadsMean(payload);
    if ParseChanges(payload).Some? {
      var changes := ParseChanges(payload).value;
      if changes == map[] {
        NothingAssigned(payload, changes);
      } else {
        AppliedTakesEffect(s, payload, changes);
      }
    }
  }

  // ---------- The server object ----------

  class OobServer {
    var seqNo: nat
    var sharedObjects: Store
    var changeLog: seq<Update>
    var inflight: seq<Update>
    var broadcastQueue: seq<Update>
    var sending: Option<Sending>
    var clients: set<Id>
    var streams: map<Id, seq<Message>>
    ghost var past: seq<Store>
    ghost var order: seq<nat>

    ghost function View(): Server
      reads this
    {
      Server(seqNo, sharedObjects, changeLog, past, order, inflight, broadcastQueue, sending, clients, streams)
    }

    constructor ()
      ensures View() == INITIAL.server
    {
      seqNo, sharedObjects, changeLog, past, order := 0, map[], [], [], [];
      inflight, broadcastQueue, sending := [], [], None;
      clients, streams := {}, map[];
    }

    /** The handler up to its first wait; the broadcast is queued by `Enqueue`. */
    method HandleObjectUpdate(payload: Json) returns (ok: bool)
      modifies this
      ensures ok <==> Handled(old(View()), payload).Some?
      ensures View() == if ok then Handled(old(View()), payload).value else old(View())
      ensures ok <==> !Rejected(payload)
      ensures ok ==> TakesEffect(old(View()), View(), payload)
    {
      var parsed := ParsePayload(payload);
      if parsed.None? {
        UpdatesTakeEffect(View(), payload);
        return false;
      }
      var changes := parsed.value;
      if changes != map[] {
        seqNo := seqNo + 1;
        sharedObjects := sharedObjects + changes;
        var entry := Update(seqNo, changes);
        if |changeLog| >= LOG_LIMIT {
          changeLog := changeLog[1..];
        }
        changeLog := changeLog + [entry];
        inflight := inflight + [entry];
        past := past + [changes];
      }
      assert Handled(old(View()), payload) == Some(View());
      UpdatesTakeEffect(old(View()), payload);
      return true;
    }

    method Enqueue(which: nat)
      requires which < |inflight|
      modifies this
      ensures View() == Enqueued(old(View()), which)
      ensures broadcastQueue == old(broadcastQueue) + if clients == {} then [] else [old(inflight)[which]]
    {
      order := order + [inflight[which].seqNo];
      if clients != {} {
        broadcastQueue := broadcastQueue + [inflight[which]];
      }
      inflight := inflight[..which] + inflight[which + 1..];
    }

    method BroadcasterTakes()
      requires sending.None? && broadcastQueue != []
      modifies this
      ensures View() == Started(old(View()))
    {
      sending := Some(Sending(broadcastQueue[0], clients));
      broadcastQueue := broadcastQueue[1..];
    }

    method BroadcasterWrites(id: Id)
      requires sending.Some? && id in sending.value.remaining && id in streams
      modifies this
      ensures View() == Wrote(old(View()), id)
      ensures id !in clients ==> streams == old(streams)
    {
      var update := sending.value.update;
      sending := Some(Sending(update, sending.value.remaining - {id}));
      if id in clients {
        streams := streams[id := streams[id] + [Broadcast(update)]];
      }
    }

    method BroadcasterFinishes()
      requires sending.Some? && sending.value.remaining == {}
      modifies this
      ensures View() == old(View()).(sending := None)
    {
      sending := None;
    }

    /** A client that is slow or gone is taken off the list. */
    method ClientDropped(id: Id)
      requires id in clients
      modifies this
      ensures View() == old(View()).(clients := old(clients) - {id})
    {
      clients := clients - {id};
    }

    method ClientConnects(id: Id)
      requires id !in streams
      modifies this
      ensures View() == Joined(old(View()), id)
    {
      clients := clients + {id};
      streams := streams[id := []];
    }

    method AnswerSnapshot(id: Id)
      requires id in clients && id in streams
      modifies this
      ensures View() == Posted(old(View()), id, Snapshot(old(seqNo), old(sharedObjects)))
    {
      streams := streams[id := streams[id] + [Snapshot(seqNo, sharedObjects)]];
    }

    /** The loop over the log that answers a request for diffs. */
    method AnswerDiffs(since: int) returns (diffs: seq<Update>)
      ensures diffs == Diffs(changeLog, since)
    {
      diffs := [];
      for i := 0 to |changeLog|
        invariant diffs + Diffs(changeLog[i..], since) == Diffs(changeLog, since)
      {
        var u := changeLog[i];
        assert changeLog[i..] == [u] + changeLog[i + 1..];
        DiffsStep(u, changeLog[i + 1..], since);
        ghost var rest := Diffs(changeLog[i + 1..], since);
        assert diffs + ([u] + rest) == diffs + [u] + rest && diffs + ([] + rest) == diffs + rest;
        if u.seqNo > since {
          diffs := diffs + [u];
        }
      }
      assert changeLog[|changeLog|..] == [] && diffs + [] == diffs;
    }
  }

  /** A client of the store. */
  class OobClient {
    var localSeq: nat
    var localObjs: Store
    ghost var synced: bool
    ghost var since: nat

    ghost function View(): Replica
      reads this
    {
      Replica(synced, since, localSeq, localObjs)
    }

    constructor ()
      ensures View() == Replica(false, 0, 0, map[])
    {
      localSeq, localObjs, synced, since := 0, map[], false, 0;
    }

    method Read(m: Message)
      modifies this
      ensures View() == Received(old(View()), m)
    {
      match m
      case Snapshot(upTo, objs) =>
        localSeq, localObjs, synced, since := upTo, objs, true, upTo;
      case Broadcast(u) =>
        if u.seqNo != 0 && u.seqNo > localSeq {
          localObjs := localObjs + u.changes;
          localSeq := u.seqNo;
        }
    }
  }
}
