/** The bounded store for replies that nobody waited for.  The callback for incoming messages takes the
    lock three times, and requests to the store may come in between. */
module LateReplies {
  import opened Options
  import opened JsonValues

  type Id = string

  datatype Stored = Stored(id: Id, value: Json)

  const SHELF_LIMIT: nat := 1000

  // ---------- A dictionary in insertion order ----------

  function Lookup(shelf: seq<Stored>, id: Id): Option<Json> {
    if shelf == [] then None else if shelf[0].id == id then Some(shelf[0].value) else Lookup(shelf[1..], id)
  }

  predicate Has(shelf: seq<Stored>, id: Id) {
    Lookup(shelf, id).Some?
  }

  /** A known key keeps its place. */
  function Put(shelf: seq<Stored>, id: Id, value: Json): seq<Stored> {
    if shelf == [] then [Stored(id, value)]
    else if shelf[0].id == id then [Stored(id, value)] + shelf[1..]
    else [shelf[0]] + Put(shelf[1..], id, value)
  }

  function Without(shelf: seq<Stored>, id: Id): seq<Stored> {
    if shelf == [] then [] else if shelf[0].id == id then shelf[1..] else [shelf[0]] + Without(shelf[1..], id)
  }

  /** The entries that were stored after this one. */
  function Behind(shelf: seq<Stored>, id: Id): seq<Stored> {
    if shelf == [] then [] else if shelf[0].id == id then shelf[1..] else Behind(shelf[1..], id)
  }

  predicate Distinct(shelf: seq<Stored>)
    decreases |shelf|
  {
    shelf == [] || (!Has(shelf[1..], shelf[0].id) && Distinct(shelf[1..]))
  }

  // ---------- The bridge ----------

  /** A reply with its id: the payload and the reply of the message, if it has them, and the message. */
  datatype Message = Message(id: Id, payload: Option<Json>, reply: Option<Json>, whole: Json) {
    function FirstValue(): Json {
      var v := if payload.Some? then payload.value else if reply.Some? then reply.value else whole;
      if v.Null? then whole else v
    }

    function SecondValue(): Json {
      if payload.Some? then payload.value else whole
    }
  }

  /** Where the callback stands with a message. */
  datatype Phase = Idle | Shelved(m: Message) | Unclaimed(m: Message)

  datatype Bridge = Bridge(shelf: seq<Stored>, pending: set<Id>, phase: Phase)

  function Trimmed(shelf: seq<Stored>): seq<Stored> {
    if |shelf| > SHELF_LIMIT then shelf[1..] else shelf
  }

  datatype Step =
    | Arrive(m: Message)
    | Claim
    | StoreAgain
    | Take(id: Id)
    | Ask(id: Id)
    | GiveUp(id: Id)

  predicate Enabled(b: Bridge, step: Step) {
    match step
    case Arrive(_) => b.phase.Idle?
    case Claim => b.phase.Shelved?
    case StoreAgain => b.phase.Unclaimed?
    case _ => true
  }

  function Next(b: Bridge, step: Step): Bridge
    requires Enabled(b, step)
  {
    match step
    case Arrive(m) => b.(shelf := Put(Trimmed(b.shelf), m.id, m.FirstValue()), phase := Shelved(m))
    case Claim =>
      var m := b.phase.m;
      if m.id in b.pending then b.(pending := b.pending - {m.id}, phase := Idle) else b.(phase := Unclaimed(m))
    case StoreAgain => b.(shelf := Put(b.shelf, b.phase.m.id, b.phase.m.SecondValue()), phase := Idle)
    case Take(id) => b.(shelf := Without(b.shelf, id))
    case Ask(id) => b.(pending := b.pending + {id})
    case GiveUp(id) => b.(pending := b.pending - {id})
  }

  const INITIAL := Bridge([], {}, Idle)

  /** The state after a run; `None` if a step is not possible where it stands. */
  function RunFrom(b: Bridge, steps: seq<Step>): Option<Bridge>
    decreases |steps|
  {
    if steps == [] then Some(b)
    else if Enabled(b, steps[0]) then RunFrom(Next(b, steps[0]), steps[1..])
    else None
  }

  // ---------- The dictionary ----------

  lemma {:induction false} PutLooks(shelf: seq<Stored>, id: Id, value: Json, x: Id)
    ensures Lookup(Put(shelf, id, value), x) == if x == id then Some(value) else Lookup(shelf, x)
    ensures |Put(shelf, id, value)| == if Has(shelf, id) then |shelf| else |shelf| + 1
  {
    if shelf != [] && shelf[0].id != id {
      PutLooks(shelf[1..], id, value, x);
    }
  }

  lemma {:induction false} PutDistinct(shelf: seq<Stored>, id: Id, value: Json)
    requires Distinct(shelf)
    ensures Distinct(Put(shelf, id, value))
  {
    if shelf != [] && shelf[0].id != id {
      PutDistinct(shelf[1..], id, value);
      PutLooks(shelf[1..], id, value, shelf[0].id);
    }
  }

  lemma {:induction false} WithoutLooks(shelf: seq<Stored>, id: Id, x: Id)
    requires Distinct(shelf)
    ensures Lookup(Without(shelf, id), x) == if x == id then None else Lookup(shelf, x)
    ensures |Without(shelf, id)| == if Has(shelf, id) then |shelf| - 1 else |shelf|
  {
    if shelf != [] && shelf[0].id != id {
      WithoutLooks(shelf[1..], id, x);
    }
  }

  lemma {:induction false} WithoutDistinct(shelf: seq<Stored>, id: Id)
    requires Distinct(shelf)
    ensures Distinct(Without(shelf, id))
  {
    if shelf != [] && shelf[0].id != id {
      WithoutDistinct(shelf[1..], id);
      WithoutLooks(shelf[1..], id, shelf[0].id);
    }
  }

  lemma {:induction false} PutBehind(shelf: seq<Stored>, id: Id, value: Json, x: Id)
    requires x != id && Has(shelf, x)
    ensures var behind := Behind(Put(shelf, id, value), x);
      && |behind| == |Behind(shelf, x)| + (if Has(shelf, id) then 0 else 1)
      && (Has(behind, id) <==> Has(Behind(shelf, x), id) || !Has(shelf, id))
  {
    if shelf[0].id == x {
      PutLooks(shelf[1..], id, value, id);
      assert Put(shelf, id, value)[1..] == Put(shelf[1..], id, value);
    } else if shelf[0].id == id {
      assert Put(shelf, id, value)[1..] == shelf[1..];
    } else {
      PutBehind(shelf[1..], id, value, x);
      assert Put(shelf, id, value)[1..] == Put(shelf[1..], id, value);
    }
  }

  lemma {:induction false} WithoutBehind(shelf: seq<Stored>, id: Id, x: Id)
    requires x != id && Has(shelf, x) && Distinct(shelf)
    ensures |Behind(Without(shelf, id), x)| == |Behind(shelf, x)| - (if Has(Behind(shelf, x), id) then 1 else 0)
    ensures forall y :: y != id ==> Has(Behind(Without(shelf, id), x), y) == Has(Behind(shelf, x), y)
  {
    if shelf[0].id == x {
      assert Without(shelf, id)[1..] == Without(shelf[1..], id);
      forall y | y != id ensures Has(Without(shelf[1..], id), y) == Has(shelf[1..], y) {
        WithoutLooks(shelf[1..], id, y);
      }
      WithoutLooks(shelf[1..], id, id);
    } else if shelf[0].id == id {
      if Has(Behind(shelf[1..], x), id) {
        BehindIsThere(shelf[1..], x, id);
      }
    } else {
      assert Without(shelf, id)[1..] == Without(shelf[1..], id);
      WithoutBehind(shelf[1..], id, x);
    }
  }

  lemma {:induction false} BehindIsThere(shelf: seq<Stored>, x: Id, y: Id)
    requires Has(Behind(shelf, x), y)
    ensures Has(shelf, y)
  {
    if shelf[0].id != x {
      BehindIsThere(shelf[1..], x, y);
    }
  }

  // ---------- Size ----------

  ghost predicate Inv(b: Bridge) {
    && Distinct(b.shelf) && |b.shelf| <= SHELF_LIMIT + 1
    && (!b.phase.Idle? && !Has(b.shelf, b.phase.m.id) ==> |b.shelf| <= SHELF_LIMIT)
  }

  lemma StepKeepsInv(b: Bridge, step: Step)
    requires Inv(b) && Enabled(b, step)
    ensures Inv(Next(b, step))
  {
    match step
    case Arrive(m) =>
      PutLooks(Trimmed(b.shelf), m.id, m.FirstValue(), m.id);
      PutDistinct(Trimmed(b.shelf), m.id, m.FirstValue());
    case StoreAgain =>
      PutLooks(b.shelf, b.phase.m.id, b.phase.m.SecondValue(), b.phase.m.id);
      PutDistinct(b.shelf, b.phase.m.id, b.phase.m.SecondValue());
    case Take(id) =>
      WithoutDistinct(b.shelf, id);
      WithoutLooks(b.shelf, id, id);
      if !b.phase.Idle? {
        WithoutLooks(b.shelf, id, b.phase.m.id);
      }
    case _ =>
  }

  /** The store never holds more than 1001 replies, whatever is asked, taken or given up in between. */
  lemma {:induction false} ShelfIsBounded(b: Bridge, steps: seq<Step>)
    requires Inv(b) && RunFrom(b, steps).Some?
    ensures Inv(RunFrom(b, steps).value) && |RunFrom(b, steps).value.shelf| <= 1001
    decreases |steps|
  {
    if steps != [] {
      StepKeepsInv(b, steps[0]);
      ShelfIsBounded(Next(b, steps[0]), steps[1..]);
    }
  }

  // ---------- Survival ----------

  function Arrivals(steps: seq<Step>): nat {
    if steps == [] then 0 else (if steps[0].Arrive? then 1 else 0) + Arrivals(steps[1..])
  }

  /** No later reply has this id and nobody takes it. */
  predicate LeftAlone(steps: seq<Step>, x: Id) {
    forall i :: 0 <= i < |steps| ==>
      match steps[i]
      case Arrive(m) => m.id != x
      case Take(id) => id != x
      case _ => true
  }

  /** How many replies stand behind this one or may still get there without arriving anew. */
  function Weight(b: Bridge, x: Id): nat {
    |Behind(b.shelf, x)| + (if !b.phase.Idle? && b.phase.m.id != x && !Has(Behind(b.shelf, x), b.phase.m.id) then 1 else 0)
  }

  /** The value that the reply has now, or the one that its own message is about to give it. */
  predicate Keeps(b: Bridge, c: Bridge, x: Id) {
    && Has(c.shelf, x)
    && (Lookup(c.shelf, x) == Lookup(b.shelf, x) ||
        (!b.phase.Idle? && b.phase.m.id == x && Lookup(c.shelf, x) == Some(b.phase.m.SecondValue())))
    && (!c.phase.Idle? && c.phase.m.id == x ==> !b.phase.Idle? && b.phase.m == c.phase.m)
  }

  lemma ArriveSurvives(b: Bridge, m: Message, x: Id)
    requires Inv(b) && b.phase.Idle? && Has(b.shelf, x) && m.id != x && Weight(b, x) < SHELF_LIMIT
    ensures Keeps(b, Next(b, Arrive(m)), x) && Weight(Next(b, Arrive(m)), x) <= Weight(b, x) + 1
  {
    var t := Trimmed(b.shelf);
    if |b.shelf| > SHELF_LIMIT {
      assert b.shelf[0].id != x;
    }
    assert Has(t, x) && Lookup(t, x) == Lookup(b.shelf, x) && Behind(t, x) == Behind(b.shelf, x);
    PutLooks(t, m.id, m.FirstValue(), x);
    PutBehind(t, m.id, m.FirstValue(), x);
  }

  lemma StepSurvives(b: Bridge, step: Step, x: Id)
    requires Inv(b) && Enabled(b, step) && Has(b.shelf, x) && LeftAlone([step], x)
    requires step.Arrive? ==> Weight(b, x) < SHELF_LIMIT
    ensures Keeps(b, Next(b, step), x) && Weight(Next(b, step), x) <= Weight(b, x) + if step.Arrive? then 1 else 0
  {
    assert [step][0] == step;
    match step
    case Arrive(m) => ArriveSurvives(b, m, x);
    case StoreAgain =>
      var m := b.phase.m;
      PutLooks(b.shelf, m.id, m.SecondValue(), x);
      if m.id == x {
        OwnPutBehind(b.shelf, x, m.SecondValue());
      } else {
        PutBehind(b.shelf, m.id, m.SecondValue(), x);
        if Has(Behind(b.shelf, x), m.id) {
          BehindIsThere(b.shelf, x, m.id);
        }
      }
    case Take(id) =>
      WithoutLooks(b.shelf, id, x);
      WithoutBehind(b.shelf, id, x);
    case _ =>
  }

  lemma {:induction false} OwnPutBehind(shelf: seq<Stored>, x: Id, value: Json)
    requires Has(shelf, x)
    ensures Behind(Put(shelf, x, value), x) == Behind(shelf, x)
  {
    if shelf[0].id != x {
      OwnPutBehind(shelf[1..], x, value);
    }
  }

  lemma {:induction false} Survives(b: Bridge, steps: seq<Step>, x: Id)
    requires Inv(b) && RunFrom(b, steps).Some? && Has(b.shelf, x) && LeftAlone(steps, x)
    requires Weight(b, x) + Arrivals(steps) <= SHELF_LIMIT
    ensures Keeps(b, RunFrom(b, steps).value, x)
    decreases |steps|
  {
    if steps != [] {
      var c := Next(b, steps[0]);
      assert forall i :: 0 <= i < |steps| - 1 ==> steps[1..][i] == steps[i + 1];
      assert LeftAlone([steps[0]], x) && LeftAlone(steps[1..], x);
      StepKeepsInv(b, steps[0]);
      StepSurvives(b, steps[0], x);
      Survives(c, steps[1..], x);
    }
  }

  /** A reply whose id is new to the store survives any 1000 later replies with other ids, whatever
      else happens, until it is taken. */
  lemma NewRepliesSurvive(b: Bridge, m: Message, steps: seq<Step>)
    requires Inv(b) && b.phase.Idle? && !Has(Trimmed(b.shelf), m.id)
    requires RunFrom(Next(b, Arrive(m)), steps).Some? && LeftAlone(steps, m.id) && Arrivals(steps) <= 1000
    ensures Lookup(RunFrom(Next(b, Arrive(m)), steps).value.shelf, m.id) in [Some(m.FirstValue()), Some(m.SecondValue())]
  {
    var c := Next(b, Arrive(m));
    StepKeepsInv(b, Arrive(m));
    PutLooks(Trimmed(b.shelf), m.id, m.FirstValue(), m.id);
    NothingBehindNew(Trimmed(b.shelf), m.id, m.FirstValue());
    Survives(c, steps, m.id);
  }

  lemma {:induction false} NothingBehindNew(shelf: seq<Stored>, id: Id, value: Json)
    requires !Has(shelf, id)
    ensures Put(shelf, id, value) == shelf + [Stored(id, value)]
    ensures Behind(Put(shelf, id, value), id) == []
  {
    if shelf != [] {
      NothingBehindNew(shelf[1..], id, value);
    }
  }

  // ---------- Not longer than that ----------

  /** The whole callback for one message, without anything in between. */
  function Handle(b: Bridge, m: Message): (r: Bridge)
    requires b.phase.Idle?
    ensures r.phase.Idle?
  {
    var c := Next(Next(b, Arrive(m)), Claim);
    if c.phase.Idle? then c else Next(c, StoreAgain)
  }

  function HandleAll(b: Bridge, ms: seq<Message>): Bridge
    requires b.phase.Idle?
    decreases |ms|
  {
    if ms == [] then b else HandleAll(Handle(b, ms[0]), ms[1..])
  }

  /** The messages have ids of their own that are not stored. */
  predicate New(shelf: seq<Stored>, ms: seq<Message>)
    decreases |ms|
  {
    ms == [] || (!Has(shelf, ms[0].id) && (forall i :: 0 < i < |ms| ==> ms[i].id != ms[0].id) && New(shelf, ms[1..]))
  }

  lemma {:induction false} NewIsNew(shelf: seq<Stored>, shelf': seq<Stored>, ms: seq<Message>, id: Id)
    requires New(shelf, ms) && (forall i :: 0 <= i < |ms| ==> ms[i].id != id)
    requires forall y :: Has(shelf', y) ==> Has(shelf, y) || y == id
    ensures New(shelf', ms)
    decreases |ms|
  {
    if ms != [] {
      assert forall i :: 0 <= i < |ms| - 1 ==> ms[1..][i] == ms[i + 1];
      NewIsNew(shelf, shelf', ms[1..], id);
    }
  }

  lemma {:induction false} BehindIsShorter(shelf: seq<Stored>, x: Id)
    requires Has(shelf, x)
    ensures |Behind(shelf, x)| < |shelf|
  {
    if shelf[0].id != x {
      BehindIsShorter(shelf[1..], x);
    }
  }

  lemma HandleKeepsInv(b: Bridge, m: Message)
    requires Inv(b) && b.phase.Idle?
    ensures Inv(Handle(b, m))
    ensures forall y :: Has(Handle(b, m).shelf, y) <==> Has(Trimmed(b.shelf), y) || y == m.id
  {
    var c := Next(b, Arrive(m));
    StepKeepsInv(b, Arrive(m));
    StepKeepsInv(c, Claim);
    if !Next(c, Claim).phase.Idle? {
      StepKeepsInv(Next(c, Claim), StoreAgain);
    }
    forall y ensures Has(Handle(b, m).shelf, y) <==> Has(Trimmed(b.shelf), y) || y == m.id {
      PutLooks(Trimmed(b.shelf), m.id, m.FirstValue(), y);
      PutLooks(c.shelf, m.id, m.SecondValue(), y);
    }
  }

  lemma HandleAddsBehind(b: Bridge, m: Message, x: Id)
    requires Inv(b) && b.phase.Idle? && Has(Trimmed(b.shelf), x) && Has(b.shelf, x) && !Has(b.shelf, m.id)
    ensures |Behind(Handle(b, m).shelf, x)| == |Behind(b.shelf, x)| + 1
  {
    var t := Trimmed(b.shelf);
    PutBehind(t, m.id, m.FirstValue(), x);
    var u := Put(t, m.id, m.FirstValue());
    PutLooks(t, m.id, m.FirstValue(), x);
    PutLooks(t, m.id, m.FirstValue(), m.id);
    PutBehind(u, m.id, m.SecondValue(), x);
  }

  lemma {:induction false} StaysGone(b: Bridge, ms: seq<Message>, x: Id)
    requires Inv(b) && b.phase.Idle? && !Has(b.shelf, x) && forall i :: 0 <= i < |ms| ==> ms[i].id != x
    ensures !Has(HandleAll(b, ms).shelf, x)
    decreases |ms|
  {
    if ms != [] {
      HandleKeepsInv(b, ms[0]);
      assert forall i :: 0 <= i < |ms| - 1 ==> ms[1..][i] == ms[i + 1];
      StaysGone(Handle(b, ms[0]), ms[1..], x);
    }
  }

  /** Replies under new ids push a stored reply out as soon as there are more than 1000 of them
      together with those that stand behind it already. */
  lemma {:induction false} NewRepliesPushOut(b: Bridge, ms: seq<Message>, x: Id)
    requires Inv(b) && b.phase.Idle? && Has(b.shelf, x) && New(b.shelf, ms)
    requires |Behind(b.shelf, x)| + |ms| > SHELF_LIMIT
    ensures !Has(HandleAll(b, ms).shelf, x)
    decreases |ms|
  {
    BehindIsShorter(b.shelf, x);
    if ms != [] {
      var c, rest := Handle(b, ms[0]), ms[1..];
      assert forall i :: 0 <= i < |rest| ==> rest[i] == ms[i + 1];
      HandleKeepsInv(b, ms[0]);
      if Has(Trimmed(b.shelf), x) {
        HandleAddsBehind(b, ms[0], x);
        NewIsNew(b.shelf, c.shelf, rest, ms[0].id);
        NewRepliesPushOut(c, rest, x);
      } else {
        NewAreOthers(b.shelf, ms, x);
        StaysGone(c, rest, x);
      }
    }
  }

  lemma {:induction false} NewAreOthers(shelf: seq<Stored>, ms: seq<Message>, x: Id)
    requires New(shelf, ms) && Has(shelf, x)
    ensures forall i :: 0 <= i < |ms| ==> ms[i].id != x
    decreases |ms|
  {
    if ms != [] {
      NewAreOthers(shelf, ms[1..], x);
      assert forall i :: 0 < i < |ms| ==> ms[i] == ms[1..][i - 1];
    }
  }

  // ---------- Stored again ----------

  function Named(i: nat): Id {
    seq(i + 1, _ => 'a')
  }

  function ReplyTo(i: nat): Message {
    Message(Named(i), Some(Text("")), None, Null)
  }

  /** One reply that nobody waits for. */
  function Exchange(i: nat): seq<Step> {
    [Arrive(ReplyTo(i)), Claim, StoreAgain]
  }

  function Exchanges(n: nat): seq<Step> {
    if n == 0 then [] else Exchanges(n - 1) + Exchange(n - 1)
  }

  function Row(from: nat, n: nat): seq<Stored> {
    seq(n, i requires 0 <= i < n => Stored(Named(from + i), Text("")))
  }

  lemma {:induction false} RunJoin(b: Bridge, first: seq<Step>, second: seq<Step>, c: Bridge)
    requires RunFrom(b, first) == Some(c)
    ensures RunFrom(b, first + second) == RunFrom(c, second)
    decreases |first|
  {
    if first == [] {
      assert first + second == second;
    } else {
      assert (first + second)[1..] == first[1..] + second;
      RunJoin(Next(b, first[0]), first[1..], second, c);
    }
  }

  lemma {:induction false} RowHas(from: nat, n: nat, i: nat)
    ensures Has(Row(from, n), Named(i)) <==> from <= i < from + n
    decreases n
  {
    if n > 0 {
      assert |Named(i)| == i + 1 && |Named(from)| == from + 1;
      assert Row(from, n)[1..] == Row(from + 1, n - 1);
      RowHas(from + 1, n - 1, i);
    }
  }

  lemma ExchangeRuns(shelf: seq<Stored>, i: nat)
    ensures RunFrom(Bridge(shelf, {}, Idle), Exchange(i)) == Some(Bridge(Put(Trimmed(shelf), Named(i), Text("")), {}, Idle))
  {
    var b0 := Bridge(shelf, {}, Idle);
    var b1 := Next(b0, Arrive(ReplyTo(i)));
    var b2 := Next(b1, Claim);
    var b3 := Next(b2, StoreAgain);
    PutTwice(Trimmed(shelf), Named(i), Text(""));
    var steps := Exchange(i);
    assert steps[1..] == [Claim, StoreAgain] && steps[1..][1..] == [StoreAgain] && steps[1..][1..][1..] == [];
    assert RunFrom(b2, [StoreAgain]) == Some(b3);
    assert RunFrom(b1, [Claim, StoreAgain]) == RunFrom(b2, [StoreAgain]);
  }

  lemma {:induction false} PutTwice(shelf: seq<Stored>, id: Id, value: Json)
    ensures Put(Put(shelf, id, value), id, value) == Put(shelf, id, value)
  {
    if shelf != [] && shelf[0].id != id {
      assert Put(shelf, id, value)[1..] == Put(shelf[1..], id, value);
      PutTwice(shelf[1..], id, value);
    }
  }

  lemma ExchangeAppends(from: nat, n: nat)
    ensures Put(Row(from, n), Named(from + n), Text("")) == Row(from, n + 1)
  {
    RowHas(from, n, from + n);
    NothingBehindNew(Row(from, n), Named(from + n), Text(""));
  }

  lemma RowGrows(from: nat, n: nat)
    requires n <= SHELF_LIMIT
    ensures RunFrom(Bridge(Row(from, n), {}, Idle), Exchange(from + n)) == Some(Bridge(Row(from, n + 1), {}, Idle))
  {
    ExchangeRuns(Row(from, n), from + n);
    ExchangeAppends(from, n);
  }

  lemma RowMoves(from: nat, n: nat)
    requires n == SHELF_LIMIT + 1
    ensures RunFrom(Bridge(Row(from, n), {}, Idle), Exchange(from + n)) == Some(Bridge(Row(from + 1, n), {}, Idle))
  {
    ExchangeRuns(Row(from, n), from + n);
    assert Row(from, n)[1..] == Row(from + 1, n - 1);
    ExchangeAppends(from + 1, n - 1);
  }

  lemma {:induction false} ExchangesFill(n: nat)
    requires n <= SHELF_LIMIT + 1
    ensures RunFrom(INITIAL, Exchanges(n)) == Some(Bridge(Row(0, n), {}, Idle))
  {
    if n == 0 {
      assert Row(0, 0) == [];
    } else {
      ExchangesFill(n - 1);
      RunJoin(INITIAL, Exchanges(n - 1), Exchange(n - 1), Bridge(Row(0, n - 1), {}, Idle));
      RowGrows(0, n - 1);
    }
  }

  lemma StoredAgain(n: nat)
    requires n == SHELF_LIMIT + 1
    ensures RunFrom(INITIAL, Exchanges(n) + Exchange(1)) == Some(Bridge(Row(1, n - 1), {}, Idle))
  {
    ExchangesFill(n);
    RunJoin(INITIAL, Exchanges(n), Exchange(1), Bridge(Row(0, n), {}, Idle));
    ExchangeRuns(Row(0, n), 1);
    assert Row(0, n)[1..] == Row(1, n - 1) && Row(1, n - 1)[0] == Stored(Named(1), Text(""));
    assert Put(Row(1, n - 1), Named(1), Text("")) == Row(1, n - 1);
  }

  /** What is stored under the id of a message, and under all others what the trimmed store held: first the payload, the
      reply if there is no payload, or the whole message if neither is there or what is there is null.  When no
      request waits for it, this is overwritten by the payload, also by null, or by the whole message, even if
      it has a reply. */
  lemma RepliesAreStored(b: Bridge, m: Message, x: Id)
    requires b.phase.Idle?
    ensures Lookup(Next(b, Arrive(m)).shelf, m.id) == Some(
      if m.payload.Some? && m.payload.value != Null then m.payload.value
      else if m.payload.None? && m.reply.Some? && m.reply.value != Null then m.reply.value
      else m.whole)
    ensures Lookup(Handle(b, m).shelf, m.id) ==
      if m.id in b.pending then Lookup(Next(b, Arrive(m)).shelf, m.id)
      else Some(if m.payload.Some? then m.payload.value else m.whole)
    ensures x != m.id ==> Lookup(Handle(b, m).shelf, x) == Lookup(Trimmed(b.shelf), x)
    ensures Handle(b, m).pending == b.pending - {m.id}
  {
    var c := Next(b, Arrive(m));
    PutLooks(Trimmed(b.shelf), m.id, m.FirstValue(), m.id);
    PutLooks(Trimmed(b.shelf), m.id, m.FirstValue(), x);
    PutLooks(c.shelf, m.id, m.SecondValue(), m.id);
    PutLooks(c.shelf, m.id, m.SecondValue(), x);
  }

  /** A request that waits is taken out of the table by its reply, which stays as it was stored first. */
  lemma AskedRepliesAreClaimed(b: Bridge, m: Message)
    requires b.phase.Idle?
    ensures var c := Handle(Next(b, Ask(m.id)), m);
      c.pending == b.pending - {m.id} && Lookup(c.shelf, m.id) == Lookup(Next(b, Arrive(m)).shelf, m.id)
  {
    var asked := Next(b, Ask(m.id));
    RepliesAreStored(asked, m, m.id);
    assert asked.shelf == b.shelf && m.id in asked.pending;
    assert b.pending + {m.id} - {m.id} == b.pending - {m.id};
  }

  /** What is taken is gone, and nothing else is. */
  lemma TakenOnce(b: Bridge, id: Id, x: Id)
    requires Inv(b)
    ensures Lookup(Next(b, Take(id)).shelf, x) == if x == id then None else Lookup(b.shelf, x)
    ensures Next(b, Take(id)).pending == b.pending && Next(b, Take(id)).phase == b.phase
  {
    WithoutLooks(b.shelf, id, x);
  }

  lemma TwoMore(n: nat)
    requires n == SHELF_LIMIT + 1
    ensures RunFrom(Bridge(Row(1, n - 1), {}, Idle), Exchange(n) + Exchange(n + 1)) == Some(Bridge(Row(2, n), {}, Idle))
  {
    RowGrows(1, n - 1);
    RunJoin(Bridge(Row(1, n - 1), {}, Idle), Exchange(n), Exchange(n + 1), Bridge(Row(1, n), {}, Idle));
    RowMoves(1, n);
  }

  /** A reply whose id is already in the store keeps its old place: with `n` = 1001 replies stored, the
      second reply to arrive for the second oldest id is lost after only two later replies. */
  lemma RepeatedRepliesGoSoon(n: nat)
    requires n == SHELF_LIMIT + 1
    ensures var again := RunFrom(INITIAL, Exchanges(n) + Exchange(1));
      && again.Some? && again.value.phase.Idle? && Lookup(again.value.shelf, Named(1)) == Some(ReplyTo(1).SecondValue())
      && LeftAlone(Exchange(n) + Exchange(n + 1), Named(1))
      && RunFrom(again.value, Exchange(n) + Exchange(n + 1)).Some?
      && !Has(RunFrom(again.value, Exchange(n) + Exchange(n + 1)).value.shelf, Named(1))
  {
    StoredAgain(n);
    TwoMore(n);
    RowHas(2, n, 1);
    assert Row(1, n - 1)[0] == Stored(Named(1), Text(""));
    assert |Named(1)| == 2 && |Named(n)| == n + 1 && |Named(n + 1)| == n + 2;
  }

  // ---------- The program ----------

  class BridgeState {
    var storedReplies: seq<Stored>
    var pendingReplies: set<Id>
    ghost var phase: Phase

    ghost function View(): Bridge
      reads this
    {
      Bridge(storedReplies, pendingReplies, phase)
    }

    constructor ()
      ensures View() == INITIAL
    {
      storedReplies, pendingReplies, phase := [], {}, Idle;
    }

    method StoreReply(m: Message)
      requires phase.Idle?
      modifies this
      ensures View() == Next(old(View()), Arrive(m))
    {
      if |storedReplies| > 1000 {
        storedReplies := Without(storedReplies, storedReplies[0].id);
      }
      var value := if m.payload.Some? then m.payload.value else if m.reply.Some? then m.reply.value else m.whole;
      storedReplies := Put(storedReplies, m.id, if value.Null? then m.whole else value);
      phase := Shelved(m);
    }

    method ClaimPending(m: Message) returns (found: bool)
      requires phase == Shelved(m)
      modifies this
      ensures found <==> m.id in old(pendingReplies)
      ensures View() == Next(old(View()), Claim)
    {
      found := m.id in pendingReplies;
      if found {
        pendingReplies := pendingReplies - {m.id};
        phase := Idle;
      } else {
        phase := Unclaimed(m);
      }
    }

    method StoreUnclaimed(m: Message)
      requires phase == Unclaimed(m)
      modifies this
      ensures View() == Next(old(View()), StoreAgain)
    {
      storedReplies := Put(storedReplies, m.id, if m.payload.Some? then m.payload.value else m.whole);
      phase := Idle;
    }

    /** `None` stands for the error that no reply is available; a stored null counts as none. */
    method GetReply(id: Id) returns (reply: Option<Json>)
      modifies this
      ensures View() == Next(old(View()), Take(id))
      ensures reply == if Lookup(old(storedReplies), id) == Some(Null) then None else Lookup(old(storedReplies), id)
    {
      reply := Lookup(storedReplies, id);
      storedReplies := Without(storedReplies, id);
      if reply == Some(Null) {
        reply := None;
      }
    }
  }
}
