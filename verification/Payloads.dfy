/** Payloads of object updates, and which values they give to which names. */
module Payloads {
  import opened Options
  import opened JsonValues
  import opened Observer

  /** Lists and dictionaries cannot be keys. */
  predicate Hashable(j: Json) { !j.Arr? && !j.Obj? }

  /** The changes in a list of pairs; later pairs win, `None` stands for an unhashable name. */
  function PairChanges(pairs: seq<Json>): Option<Store>
    decreases |pairs|
  {
    if pairs == [] then Some(map[])
    else
      var n := |pairs| - 1;
      match PairChanges(pairs[..n])
      case None => None
      case Some(changes) =>
        var pair := pairs[n];
        if pair.Arr? && |pair.items| >= 2 then
          if Hashable(pair.items[0]) then Some(changes[Key(pair.items[0]) := Val(pair.items[1])]) else None
        else Some(changes)
  }

  predicate AnyList(items: seq<Json>) {
    exists i :: 0 <= i < |items| && items[i].Arr?
  }

  function AllChanges(members: map<string, Json>): Store {
    map k | k in members :: Key(Text(k)) := Val(members[k])
  }

  /** A list of pairs, one pair, a dictionary with a name and a value, or a dictionary of values. */
  function ParseChanges(payload: Json): Option<Store> {
    match payload
    case Arr(items) =>
      if items != [] && items[0].Arr? then PairChanges(items)
      else if |items| >= 2 && !AnyList(items) then
        if Hashable(items[0]) then Some(map[Key(items[0]) := Val(items[1])]) else None
      else Some(map[])
    case Obj(members) =>
      if "name" in members && "value" in members then
        if Hashable(members["name"]) then Some(map[Key(members["name"]) := Val(members["value"])]) else None
      else Some(AllChanges(members))
    case _ => Some(map[])
  }

  /** A list of one pair and a dictionary with a name and a value mean the same change.  So does the
      pair alone, exactly if the value is no list; otherwise it means none. */
  lemma ShapesAgree(name: Json, value: Json)
    requires Hashable(name)
    ensures ParseChanges(Arr([Arr([name, value])])) == Some(map[Key(name) := Val(value)])
    ensures ParseChanges(Obj(map["name" := name, "value" := value])) == Some(map[Key(name) := Val(value)])
    ensures ParseChanges(Arr([name, value])) == if value.Arr? then Some(map[]) else Some(map[Key(name) := Val(value)])
  {
    var pairs := [Arr([name, value])];
    assert pairs[..0] == [];
    assert PairChanges(pairs[..0]) == Some(map[]);
    var none: Store := map[];
    assert none[Key(name) := Val(value)] == map[Key(name) := Val(value)];
    assert "name" != "value" by { assert "name"[0] != "value"[0]; }
    assert [name, value][1] == value;
  }

  /** The entry of a list of pairs gives a value to this name. */
  predicate Gives(pair: Json, k: Key) {
    pair.Arr? && |pair.items| >= 2 && Key(pair.items[0]) == k
  }

  predicate Fails(pair: Json) {
    pair.Arr? && |pair.items| >= 2 && !Hashable(pair.items[0])
  }

  lemma {:induction false} WhenPairsFail(pairs: seq<Json>)
    ensures PairChanges(pairs).None? <==> exists i :: 0 <= i < |pairs| && Fails(pairs[i])
    decreases |pairs|
  {
    if pairs != [] {
      var before := pairs[..|pairs| - 1];
      WhenPairsFail(before);
      assert forall i :: 0 <= i < |before| ==> before[i] == pairs[i];
    }
  }

  lemma {:induction false} WhichNamesChange(pairs: seq<Json>, k: Key)
    requires PairChanges(pairs).Some?
    ensures k in PairChanges(pairs).value <==> exists i :: 0 <= i < |pairs| && Gives(pairs[i], k)
    decreases |pairs|
  {
    if pairs != [] {
      var before := pairs[..|pairs| - 1];
      WhichNamesChange(before, k);
      assert forall i :: 0 <= i < |before| ==> before[i] == pairs[i];
    }
  }

  lemma {:induction false} WhichValueCounts(pairs: seq<Json>, i: nat, k: Key)
    requires PairChanges(pairs).Some? && i < |pairs| && Gives(pairs[i], k)
    requires forall j :: i < j < |pairs| ==> !Gives(pairs[j], k)
    ensures k in PairChanges(pairs).value && PairChanges(pairs).value[k] == Val(pairs[i].items[1])
    decreases |pairs|
  {
    var before := pairs[..|pairs| - 1];
    if i < |before| {
      assert forall j :: 0 <= j < |before| ==> before[j] == pairs[j];
      WhichValueCounts(before, i, k);
      assert !Gives(pairs[|before|], k);
    }
  }

  /** A list of pairs fails exactly if it names something unhashable; otherwise it changes the names that
      it gives values to, and the last value counts. */
  lemma LastPairCounts(pairs: seq<Json>)
    ensures PairChanges(pairs).None? <==> exists i :: 0 <= i < |pairs| && Fails(pairs[i])
    ensures PairChanges(pairs).Some? ==> forall k ::
      (k in PairChanges(pairs).value <==> exists i :: 0 <= i < |pairs| && Gives(pairs[i], k))
    ensures PairChanges(pairs).Some? ==> forall i, k ::
      0 <= i < |pairs| && Gives(pairs[i], k) && (forall j :: i < j < |pairs| ==> !Gives(pairs[j], k)) ==>
      k in PairChanges(pairs).value && PairChanges(pairs).value[k] == Val(pairs[i].items[1])
  {
    WhenPairsFail(pairs);
    if PairChanges(pairs).Some? {
      forall k ensures k in PairChanges(pairs).value <==> exists i :: 0 <= i < |pairs| && Gives(pairs[i], k) {
        WhichNamesChange(pairs, k);
      }
      forall i, k | 0 <= i < |pairs| && Gives(pairs[i], k) && (forall j :: i < j < |pairs| ==> !Gives(pairs[j], k))
        ensures k in PairChanges(pairs).value && PairChanges(pairs).value[k] == Val(pairs[i].items[1])
      {
        WhichValueCounts(pairs, i, k);
      }
    }
  }

  method ParsePayload(payload: Json) returns (changes: Option<Store>)
    ensures changes == ParseChanges(payload)
  {
    changes := Some(map[]);
    match payload
    case Arr(items) =>
      if items != [] && items[0].Arr? {
        for i := 0 to |items|
          invariant changes.Some? && changes == PairChanges(items[..i])
        {
          var pair := items[i];
          assert items[..i + 1][..i] == items[..i];
          if pair.Arr? && |pair.items| >= 2 {
            if !Hashable(pair.items[0]) {
              FailsForGood(items, i + 1);
              return None;
            }
            changes := Some(changes.value[Key(pair.items[0]) := Val(pair.items[1])]);
          }
        }
        assert items[..|items|] == items;
      } else if |items| >= 2 && !AnyList(items) {
        changes := if Hashable(items[0]) then Some(map[Key(items[0]) := Val(items[1])]) else None;
      }
    case Obj(members) =>
      if "name" in members && "value" in members {
        changes := if Hashable(members["name"]) then Some(map[Key(members["name"]) := Val(members["value"])]) else None;
      } else {
        changes := Some(AllChanges(members));
      }
    case _ =>
  }

  lemma {:induction false} FailsForGood(pairs: seq<Json>, n: nat)
    requires n <= |pairs| && PairChanges(pairs[..n]).None?
    ensures PairChanges(pairs).None?
    decreases |pairs| - n
  {
    if n == |pairs| {
      assert pairs[..n] == pairs;
    } else {
      assert pairs[..n + 1][..n] == pairs[..n];
      FailsForGood(pairs, n + 1);
    }
  }

  // ---------- What a payload means ----------

  /** The last pair with this name gives it this value. */
  ghost predicate LastGives(pairs: seq<Json>, name: Json, value: Json) {
    exists i :: 0 <= i < |pairs| && Gives(pairs[i], Key(name)) && pairs[i].items[1] == value
      && forall j :: i < j < |pairs| ==> !Gives(pairs[j], Key(name))
  }

  /** The payload gives this value to this name. */
  ghost predicate Assigns(payload: Json, name: Json, value: Json) {
    match payload
    case Arr(items) =>
      if items != [] && items[0].Arr? then LastGives(items, name, value)
      else |items| >= 2 && items[0] == name && items[1] == value && forall i :: 0 <= i < |items| ==> !items[i].Arr?
    case Obj(members) =>
      if "name" in members && "value" in members then members["name"] == name && members["value"] == value
      else name.Text? && name.text in members && members[name.text] == value
    case _ => false
  }

  /** The payload names something that cannot be a key. */
  ghost predicate Rejected(payload: Json) {
    match payload
    case Arr(items) =>
      if items != [] && items[0].Arr? then exists i :: 0 <= i < |items| && Fails(items[i])
      else |items| >= 2 && items[0].Obj? && forall i :: 0 <= i < |items| ==> !items[i].Arr?
    case Obj(members) => "name" in members && "value" in members && (members["name"].Arr? || members["name"].Obj?)
    case _ => false
  }

  /** The map holds exactly what the payload gives. */
  ghost predicate AssignedBy(payload: Json, changes: Store) {
    forall name, value :: (Key(name) in changes && changes[Key(name)] == Val(value)) <==> Assigns(payload, name, value)
  }

  lemma {:induction false} LastPlace(pairs: seq<Json>, k: Key) returns (i: nat)
    requires exists j :: 0 <= j < |pairs| && Gives(pairs[j], k)
    ensures i < |pairs| && Gives(pairs[i], k) && forall j :: i < j < |pairs| ==> !Gives(pairs[j], k)
  {
    i := |pairs| - 1;
    if !Gives(pairs[i], k) {
      var before := pairs[..i];
      assert forall j :: 0 <= j < i ==> before[j] == pairs[j];
      i := LastPlace(before, k);
    }
  }

  lemma PairsAssign(pairs: seq<Json>, name: Json, value: Json)
    requires PairChanges(pairs).Some?
    ensures var changes := PairChanges(pairs).value;
      (Key(name) in changes && changes[Key(name)] == Val(value)) <==> LastGives(pairs, name, value)
  {
    var changes, k := PairChanges(pairs).value, Key(name);
    WhichNamesChange(pairs, k);
    if k in changes {
      var i := LastPlace(pairs, k);
      WhichValueCounts(pairs, i, k);
      if LastGives(pairs, name, value) {
        var j :| 0 <= j < |pairs| && Gives(pairs[j], k) && pairs[j].items[1] == value
          && forall l :: j < l < |pairs| ==> !Gives(pairs[l], k);
        assert j == i;
      }
    }
  }

  /** A payload is refused exactly if it names something that cannot be a key; otherwise its changes are exactly the
      values that it gives to names, in whichever of its shapes. */
  lemma PayloadsMean(payload: Json)
    ensures ParseChanges(payload).None? <==> Rejected(payload)
    ensures ParseChanges(payload).Some? ==> AssignedBy(payload, ParseChanges(payload).value)
  {
    if payload.Arr? && payload.items != [] && payload.items[0].Arr? {
      WhenPairsFail(payload.items);
      if ParseChanges(payload).Some? {
        forall name, value { PairsAssign(payload.items, name, value); }
      }
    } else if payload.Obj? {
      var all := AllChanges(payload.members);
      forall name, value
        ensures (Key(name) in all && all[Key(name)] == Val(value)) <==>
          name.Text? && name.text in payload.members && payload.members[name.text] == value
      {
        if name.Text? && name.text in payload.members { assert Key(Text(name.text)) in all; }
      }
    }
  }
}
