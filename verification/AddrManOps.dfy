/** The address manager's operations and the invariant they keep over every run. */
module AddrManOps {
  import opened Collections
  import opened Numbers
  import opened AddrManModel
  import opened AddrManSteps

  /** Ids are never reused, entries never change service, and tried slots once occupied stay occupied. */
  ghost predicate Evolves(s: State, t: State) {
    && t.key == s.key && s.nIdCount <= t.nIdCount && s.vvTried.Keys <= t.vvTried.Keys
    && forall id {:trigger Descends(s, t, id)} :: id in t.mapInfo ==> Descends(s, t, id)
  }

  predicate Descends(s: State, t: State, id: int)
    requires id in t.mapInfo
  {
    if id in s.mapInfo then t.mapInfo[id].svc == s.mapInfo[id].svc else id >= s.nIdCount
  }

  lemma {:induction false} EvolvesTransitive(s: State, t: State, u: State)
    requires InfosSane(s) && Evolves(s, t) && Evolves(t, u)
    ensures Evolves(s, u)
  {
    forall id | id in u.mapInfo
      ensures Descends(s, u, id)
    {
      assert Descends(t, u, id);
      assert id in t.mapInfo ==> Descends(s, t, id);
      assert id in s.mapInfo ==> InfoSane(s, id);
    }
  }

  /** While the tables only evolve, every recorded collision goes on colliding. */
  lemma {:induction false} CollisionsSurvive(c: Config, s: State, t: State)
    requires ValidConfig(c) && Evolves(s, t) && t.collisions <= s.collisions
    ensures CollisionsOk(c, s) ==> CollisionsOk(c, t)
  {
    SubsetSize(t.collisions, s.collisions);
    forall id | id in t.collisions && CollisionsOk(c, s)
      ensures CollisionOk(c, t, id)
    {
      assert CollisionOk(c, s, id);
      assert id in t.mapInfo ==> Descends(s, t, id);
    }
  }

  /** An entry of `t` that was in `s` already, with identity and history intact. */
  predicate Survivor(s: State, t: State, id: int)
    requires id in t.mapInfo
  {
    && id in s.mapInfo
    && var a, b := s.mapInfo[id], t.mapInfo[id];
      b.svc == a.svc && b.time == a.time && b.source == a.source && b.lastSuccess == a.lastSuccess
      && b.lastTry == a.lastTry
      && b.inTried == a.inTried
  }

  /** Nothing but entries, references and nNew has changed, and no entry was added or lost its identity. */
  ghost predicate OnlyThinned(s: State, t: State) {
    && t.key == s.key && t.vvTried == s.vvTried && t.nIdCount == s.nIdCount && t.nTried == s.nTried
    && t.collisions == s.collisions && t.nLastGood == s.nLastGood
    && forall id {:trigger Survivor(s, t, id)} :: id in t.mapInfo ==> Survivor(s, t, id)
  }

  predicate Stays(s: State, t: State, id: int)
    requires id in s.mapInfo
  {
    id in t.mapInfo && t.mapInfo[id].refCount == s.mapInfo[id].refCount
  }

  lemma {:induction false} DeleteThins(s: State, id: int)
    requires RandomConsistent(s) && id in s.mapInfo
    ensures OnlyThinned(s, Delete(s, id))
    ensures forall x {:trigger Stays(s, Delete(s, id), x)} :: x in s.mapInfo && x != id ==> Stays(s, Delete(s, id), x)
  {
    DeleteEffect(s, id);
  }

  lemma {:induction false} DropRefThins(s: State, slot: Slot)
    requires slot in s.vvNew && s.vvNew[slot] in s.mapInfo
    ensures OnlyThinned(s, DropRef(s, slot))
    ensures forall x {:trigger Stays(s, DropRef(s, slot), x)} :: x in s.mapInfo && x != s.vvNew[slot] ==>
      Stays(s, DropRef(s, slot), x)
  {
  }

  lemma {:induction false} ThinnedTwice(s: State, t: State, u: State)
    requires OnlyThinned(s, t) && OnlyThinned(t, u)
    ensures OnlyThinned(s, u)
  {
    forall id | id in u.mapInfo
      ensures Survivor(s, u, id)
    {
      assert Survivor(t, u, id) && Survivor(s, t, id);
    }
  }

  /** ClearNew removes at most the entry at the slot; every other one stays, with its references. */
  lemma {:induction false} ClearNewThins(c: Config, s: State, limbo: set<int>, counted: int, slot: Slot, keep: int)
    requires Consistent(c, s, limbo, counted) && keep in s.mapInfo
    requires slot in s.vvNew ==> s.vvNew[slot] in s.mapInfo && (keep in limbo || keep != s.vvNew[slot])
    ensures OnlyThinned(s, ClearNew(s, slot)) && Stays(s, ClearNew(s, slot), keep)
  {
    if slot in s.vvNew {
      var id := s.vvNew[slot];
      DropRefKeeps(c, s, limbo, counted, slot);
      DropRefThins(s, slot);
      var t := DropRef(s, slot);
      assert Stays(s, t, keep);
      if t.mapInfo[id].refCount == 0 {
        DeleteThins(t, id);
        assert Stays(t, Delete(t, id), keep);
        ThinnedTwice(s, t, Delete(t, id));
      }
    }
  }

  // ----- MakeTried -----

  /** Enter an evicted entry into the new table again. */
  function Resettle(s: State, id: int, place: Slot): State
    requires id in s.mapInfo
  {
    var t := AddRef(s, id, place);
    t.(nNew := t.nNew + 1)
  }

  lemma {:induction false} ResettleKeeps(c: Config, s: State, limbo: set<int>, id: int, place: Slot)
    requires Consistent(c, s, limbo, 0) && id in limbo && id in s.mapInfo
    requires place !in s.vvNew && 0 <= place.bucket < c.newBuckets
    requires place == NewSlot(c, s.key, s.mapInfo[id].svc, place.bucket)
    ensures Consistent(c, Resettle(s, id, place), limbo - {id}, 0)
  {
    assert NewOf(c, s, limbo, id);
    AddRefKeeps(c, s, limbo, 0, id, place);
    ScalarsKeep(c, AddRef(s, id, place), Resettle(s, id, place), limbo - {id}, -1);
  }

  /** The place in the new table that an entry's own source assigns to it. */
  function HomeSlot(c: Config, key: nat, info: Info): Slot
    requires ValidConfig(c)
  {
    NewSlot(c, key, info.svc, NewBucket(c, key, info.svc, info.source))
  }

  /** Move the entry at a tried slot back to the new table, clearing whatever held its place there. */
  function Evict(c: Config, s: State, ghost limbo: set<int>, slot: Slot): State
    requires Consistent(c, s, limbo, 0) && slot in s.vvTried
  {
    assert TriedAt(c, s, slot);
    var id := s.vvTried[slot];
    UntryKeeps(c, s, limbo, 0, slot);
    var place := HomeSlot(c, s.key, s.mapInfo[id]);
    ClearNewKeeps(c, Untry(s, slot), limbo + {id}, 0, place);
    var cleared := ClearNew(Untry(s, slot), place);
    assert id in limbo + {id};
    Resettle(cleared, id, place)
  }

  /** Eviction empties the slot and keeps the invariant and every entry in limbo. */
  lemma {:induction false} EvictKeeps(c: Config, s: State, limbo: set<int>, slot: Slot, keep: int)
    requires Consistent(c, s, limbo, 0) && slot in s.vvTried && keep in limbo
    ensures Consistent(c, Evict(c, s, limbo, slot), limbo, 0)
    ensures Vacated(s, Evict(c, s, limbo, slot), slot) && keep in Evict(c, s, limbo, slot).mapInfo
  {
    assert TriedAt(c, s, slot);
    var id := s.vvTried[slot];
    assert NewOf(c, s, limbo, id);
    var place := HomeSlot(c, s.key, s.mapInfo[id]);
    UntryKeeps(c, s, limbo, 0, slot);
    var untried := Untry(s, slot);
    var limbo' := limbo + {id};
    ClearNewKeeps(c, untried, limbo', 0, place);
    ClearNewThins(c, untried, limbo', 0, place, id);
    ClearNewThins(c, untried, limbo', 0, place, keep);
    var cleared := ClearNew(untried, place);
    assert Survivor(untried, cleared, id);
    ResettleKeeps(c, cleared, limbo', id, place);
    assert limbo' - {id} == limbo;
    VacatedBy(s, slot, cleared, place);
  }

  /** `t` is `s` with a tried slot emptied, no new entries, and the remaining ones in the same standing. */
  ghost predicate Vacated(s: State, t: State, slot: Slot) {
    && t.key == s.key && t.vvTried == s.vvTried - {slot} && t.nIdCount == s.nIdCount
    && t.collisions == s.collisions && t.nLastGood == s.nLastGood
    && forall id {:trigger SameStanding(s, t, id)} :: id in t.mapInfo ==> SameStanding(s, t, id)
  }

  predicate SameStanding(s: State, t: State, id: int)
    requires id in t.mapInfo
  {
    id in s.mapInfo && t.mapInfo[id].svc == s.mapInfo[id].svc && t.mapInfo[id].lastSuccess == s.mapInfo[id].lastSuccess
  }

  lemma {:induction false} VacatedBy(s: State, slot: Slot, cleared: State, place: Slot)
    requires slot in s.vvTried && s.vvTried[slot] in s.mapInfo
    requires OnlyThinned(Untry(s, slot), cleared) && s.vvTried[slot] in cleared.mapInfo
    ensures Vacated(s, Resettle(cleared, s.vvTried[slot], place), slot)
  {
    var t := Resettle(cleared, s.vvTried[slot], place);
    forall id | id in t.mapInfo
      ensures SameStanding(s, t, id)
    {
      assert Survivor(Untry(s, slot), cleared, id);
    }
  }

  function MakeRoom(c: Config, s: State, ghost limbo: set<int>, slot: Slot): State
    requires Consistent(c, s, limbo, 0)
  {
    if slot in s.vvTried then Evict(c, s, limbo, slot) else s
  }

  lemma {:induction false} MakeRoomKeeps(c: Config, s: State, limbo: set<int>, slot: Slot, keep: int)
    requires Consistent(c, s, limbo, 0) && keep in limbo
    ensures Consistent(c, MakeRoom(c, s, limbo, slot), limbo, 0)
    ensures Vacated(s, MakeRoom(c, s, limbo, slot), slot) && keep in MakeRoom(c, s, limbo, slot).mapInfo
  {
    if slot in s.vvTried {
      EvictKeeps(c, s, limbo, slot, keep);
    } else {
      assert s.vvTried - {slot} == s.vvTried;
    }
  }

  /** Move an entry from the new table to the tried table, making room if its slot is taken. */
  function MakeTried(c: Config, s: State, id: int): State
    requires Consistent(c, s, {}, 0) && id in s.mapInfo && !s.mapInfo[id].inTried
  {
    UnlistKeeps(c, s, {}, 0, id);
    var slot := TriedSlot(c, s.key, s.mapInfo[id].svc);
    MakeRoomKeeps(c, Unlist(s, id), {} + {id}, slot, id);
    PutTried(c, MakeRoom(c, Unlist(s, id), {} + {id}, slot), id)
  }

  lemma {:induction false} EvictUnfolds(
    c: Config, s: State, limbo: set<int>, slot: Slot, untried: State, cleared: State)
    requires Consistent(c, s, limbo, 0) && slot in s.vvTried && s.vvTried[slot] in s.mapInfo
    requires untried == Untry(s, slot)
    requires Consistent(c, untried, limbo + {s.vvTried[slot]}, 0)
    requires var place := HomeSlot(c, s.key, s.mapInfo[s.vvTried[slot]]);
      (place in untried.vvNew ==> untried.vvNew[place] in untried.mapInfo) && cleared == ClearNew(untried, place)
    requires s.vvTried[slot] in cleared.mapInfo
    ensures Evict(c, s, limbo, slot) ==
      Resettle(cleared, s.vvTried[slot], HomeSlot(c, s.key, s.mapInfo[s.vvTried[slot]]))
  {
  }

  lemma {:induction false} MakeTriedUnfolds(c: Config, s: State, id: int, unlisted: State, ready: State)
    requires Consistent(c, s, {}, 0) && id in s.mapInfo && !s.mapInfo[id].inTried && id in ready.mapInfo
    requires unlisted == Unlist(s, id) && Consistent(c, unlisted, {} + {id}, 0)
    requires ready == MakeRoom(c, unlisted, {} + {id}, TriedSlot(c, s.key, s.mapInfo[id].svc))
    ensures MakeTried(c, s, id) == PutTried(c, ready, id)
  {
  }

  /** MakeTried keeps the invariant; afterwards the entry occupies its slot, and no tried slot has become empty. */
  lemma {:induction false} MakeTriedKeeps(c: Config, s: State, id: int)
    requires Consistent(c, s, {}, 0) && id in s.mapInfo && !s.mapInfo[id].inTried && s.mapInfo[id].lastSuccess > 0
    ensures Consistent(c, MakeTried(c, s, id), {}, 0)
    ensures Evolves(s, MakeTried(c, s, id)) && MakeTried(c, s, id).collisions == s.collisions
    ensures var t := MakeTried(c, s, id);
      && id in t.mapInfo && t.mapInfo[id].inTried
      && t.vvTried.Keys == s.vvTried.Keys + {TriedSlot(c, s.key, s.mapInfo[id].svc)}
  {
    UnlistKeeps(c, s, {}, 0, id);
    var limbo := {} + {id};
    var slot := TriedSlot(c, s.key, s.mapInfo[id].svc);
    MakeRoomKeeps(c, Unlist(s, id), limbo, slot, id);
    var ready := MakeRoom(c, Unlist(s, id), limbo, slot);
    assert SameStanding(Unlist(s, id), ready, id);
    PutTriedKeeps(c, ready, limbo, 0, id);
    assert limbo - {id} == {};
    MakeTriedEvolves(c, s, id, slot, ready);
  }

  lemma {:induction false} MakeTriedEvolves(c: Config, s: State, id: int, slot: Slot, ready: State)
    requires ValidConfig(c) && id in s.mapInfo && id in ready.mapInfo
    requires slot == TriedSlot(c, s.key, s.mapInfo[id].svc) && ready.mapInfo[id].svc == s.mapInfo[id].svc
    requires Vacated(Unlist(s, id), ready, slot)
    ensures Evolves(s, PutTried(c, ready, id))
    ensures PutTried(c, ready, id).vvTried.Keys == s.vvTried.Keys + {slot}
  {
    var t := PutTried(c, ready, id);
    forall x | x in t.mapInfo
      ensures Descends(s, t, x)
    {
      assert SameStanding(Unlist(s, id), ready, x);
    }
  }

  /** The invariant of the tables between operations. */
  ghost predicate Sound(c: Config, s: State) {
    Consistent(c, s, {}, 0) && 0 <= s.nIdCount
  }

  /** The whole invariant: recorded collisions still collide. */
  ghost predicate Healthy(c: Config, s: State) {
    Sound(c, s) && CollisionsOk(c, s)
  }

  /** `t` is as sound as a successor of `s` can be, and healthy where `s` is. */
  ghost predicate Keeps(c: Config, s: State, t: State)
    requires ValidConfig(c)
  {
    Sound(c, t) && Evolves(s, t) && (CollisionsOk(c, s) ==> CollisionsOk(c, t))
  }

  // ----- Good_ -----

  function MarkGood(i: Info, time: int): Info {
    i.(lastSuccess := time, lastTry := time, attempts := 0)
  }

  /** What Good_ does once it has found the very service it was asked about. */
  function GoodEntry(c: Config, s: State, id: int, testBeforeEvict: bool, time: int): State
    requires Consistent(c, s, {}, 0) && id in s.mapInfo && time > 0
  {
    var t := WithInfo(s, id, MarkGood(s.mapInfo[id], time));
    if s.mapInfo[id].inTried then t
    else if testBeforeEvict && TriedSlot(c, s.key, s.mapInfo[id].svc) in s.vvTried then
      if |s.collisions| < COLLISION_SIZE then t.(collisions := t.collisions + {id}) else t
    else
      MarkGoodKeeps(c, s, id, time);
      MakeTried(c, t, id)
  }

  function Good(c: Config, s0: State, svc: Service, testBeforeEvict: bool, time: int): State
    requires Sound(c, s0) && time > 0
  {
    var s := s0.(nLastGood := time);
    if !Known(s, svc.addr) || s.mapInfo[s.mapAddr[svc.addr]].svc != svc then s else
      ScalarsKeep(c, s0, s, {}, 0);
      GoodEntry(c, s, s.mapAddr[svc.addr], testBeforeEvict, time)
  }

  lemma {:induction false} MarkGoodKeeps(c: Config, s: State, id: int, time: int)
    requires Consistent(c, s, {}, 0) && id in s.mapInfo && time > 0
    ensures Consistent(c, WithInfo(s, id, MarkGood(s.mapInfo[id], time)), {}, 0)
    ensures Evolves(s, WithInfo(s, id, MarkGood(s.mapInfo[id], time)))
  {
    assert InfoSane(s, id);
    TouchKeeps(c, s, {}, 0, id, MarkGood(s.mapInfo[id], time));
  }

  lemma {:induction false} RecordCollision(c: Config, s: State, id: int)
    requires Sound(c, s) && id in s.mapInfo && |s.collisions| < COLLISION_SIZE
    requires TriedSlot(c, s.key, s.mapInfo[id].svc) in s.vvTried
    ensures Keeps(c, s, s.(collisions := s.collisions + {id}))
  {
    var t := s.(collisions := s.collisions + {id});
    ScalarsKeep(c, s, t, {}, 0);
    assert InfoSane(s, id);
    forall x | x in t.collisions && CollisionsOk(c, s)
      ensures CollisionOk(c, t, x)
    {
      assert x in s.collisions ==> CollisionOk(c, s, x);
    }
  }

  lemma {:induction false} GoodEntryKeeps(c: Config, s: State, id: int, testBeforeEvict: bool, time: int)
    requires Sound(c, s) && id in s.mapInfo && time > 0
    ensures Keeps(c, s, GoodEntry(c, s, id, testBeforeEvict, time))
    ensures !testBeforeEvict ==> GoodEntry(c, s, id, testBeforeEvict, time).collisions == s.collisions
  {
    MarkGoodKeeps(c, s, id, time);
    var t := WithInfo(s, id, MarkGood(s.mapInfo[id], time));
    CollisionsSurvive(c, s, t);
    if !s.mapInfo[id].inTried {
      if testBeforeEvict && TriedSlot(c, s.key, s.mapInfo[id].svc) in s.vvTried {
        if |s.collisions| < COLLISION_SIZE {
          RecordCollision(c, t, id);
        }
      } else {
        MakeTriedKeeps(c, t, id);
        EvolvesTransitive(s, t, MakeTried(c, t, id));
        CollisionsSurvive(c, t, MakeTried(c, t, id));
      }
    }
  }

  /** Good_ keeps the invariant and never empties a tried slot. */
  lemma {:induction false} GoodKeeps(c: Config, s0: State, svc: Service, testBeforeEvict: bool, time: int)
    requires Sound(c, s0) && time > 0
    ensures Keeps(c, s0, Good(c, s0, svc, testBeforeEvict, time))
    ensures !testBeforeEvict ==> Good(c, s0, svc, testBeforeEvict, time).collisions == s0.collisions
  {
    var s := s0.(nLastGood := time);
    ScalarsKeep(c, s0, s, {}, 0);
    CollisionsSurvive(c, s0, s);
    if Known(s, svc.addr) && s.mapInfo[s.mapAddr[svc.addr]].svc == svc {
      GoodEntryKeeps(c, s, s.mapAddr[svc.addr], testBeforeEvict, time);
      EvolvesTransitive(s0, s, Good(c, s0, svc, testBeforeEvict, time));
    }
  }

  // ----- Add_ -----

  /** The second half of Add_: a reference in the bucket chosen by the source, if the slot can be had. */
  function Place(c: Config, s: State, ghost limbo: set<int>, id: int, source: NetAddr, now: int): State
    requires Consistent(c, s, limbo, |limbo|) && id in s.mapInfo
  {
    var info := s.mapInfo[id];
    var slot := NewSlot(c, s.key, info.svc, NewBucket(c, s.key, info.svc, source));
    if slot in s.vvNew && s.vvNew[slot] == id then s
    else
      assert slot in s.vvNew ==> NewAt(c, s, slot);
      if slot !in s.vvNew || Yields(s.mapInfo[s.vvNew[slot]], info, now) then
        ClearNewKeeps(c, s, limbo, |limbo|, slot);
        ClearNewThins(c, s, limbo, |limbo|, slot, id);
        AddRef(ClearNew(s, slot), id, slot)
      else if info.refCount == 0 then Delete(s, id)
      else s
  }

  /** Whether the entry at a contested new slot gives way. */
  predicate Yields(existing: Info, info: Info, now: int) {
    IsTerrible(existing, now) || (existing.refCount > 1 && info.refCount == 0)
  }

  lemma {:induction false} PlaceInserts(
    c: Config, s: State, limbo: set<int>, id: int, source: NetAddr, now: int, slot: Slot, cleared: State)
    requires Consistent(c, s, limbo, |limbo|) && id in s.mapInfo && id in cleared.mapInfo
    requires slot == NewSlot(c, s.key, s.mapInfo[id].svc, NewBucket(c, s.key, s.mapInfo[id].svc, source))
    requires slot in s.vvNew ==>
      s.vvNew[slot] in s.mapInfo && s.vvNew[slot] != id && Yields(s.mapInfo[s.vvNew[slot]], s.mapInfo[id], now)
    requires cleared == ClearNew(s, slot)
    ensures Place(c, s, limbo, id, source, now) == AddRef(cleared, id, slot)
  {
  }

  lemma {:induction false} PlaceThins(c: Config, s: State, limbo: set<int>, id: int, source: NetAddr, now: int)
    requires Consistent(c, s, limbo, |limbo|) && id in s.mapInfo
    ensures OnlyThinned(s, Place(c, s, limbo, id, source, now))
  {
    var info := s.mapInfo[id];
    var slot := NewSlot(c, s.key, info.svc, NewBucket(c, s.key, info.svc, source));
    assert slot in s.vvNew ==> NewAt(c, s, slot);
    if slot in s.vvNew && s.vvNew[slot] == id {
    } else if slot !in s.vvNew || Yields(s.mapInfo[s.vvNew[slot]], info, now) {
      ClearNewThins(c, s, limbo, |limbo|, slot, id);
      AddRefThins(s, ClearNew(s, slot), id, slot);
    } else if info.refCount == 0 {
      DeleteThins(s, id);
    }
  }

  lemma {:induction false} AddRefThins(s: State, t: State, id: int, slot: Slot)
    requires OnlyThinned(s, t) && id in t.mapInfo
    ensures OnlyThinned(s, AddRef(t, id, slot))
  {
    forall x | x in AddRef(t, id, slot).mapInfo
      ensures Survivor(s, AddRef(t, id, slot), x)
    {
      assert Survivor(s, t, x);
    }
  }

  lemma {:induction false} PlaceKeeps(c: Config, s: State, limbo: set<int>, id: int, source: NetAddr, now: int)
    requires Consistent(c, s, limbo, |limbo|) && id in s.mapInfo && !s.mapInfo[id].inTried
    requires s.mapInfo[id].refCount < NEW_BUCKETS_PER_ADDRESS && (limbo == {} || limbo == {id})
    ensures Consistent(c, Place(c, s, limbo, id, source, now), {}, 0)
  {
    var info := s.mapInfo[id];
    var slot := NewSlot(c, s.key, info.svc, NewBucket(c, s.key, info.svc, source));
    var n := |limbo|;
    assert NewOf(c, s, limbo, id);
    assert slot in s.vvNew ==> NewAt(c, s, slot);
    if slot in s.vvNew && s.vvNew[slot] == id {
      assert slot.bucket in Refs(c, s.key, s.vvNew, info.svc, id);
    } else if slot !in s.vvNew || Yields(s.mapInfo[s.vvNew[slot]], info, now) {
      ClearNewKeeps(c, s, limbo, n, slot);
      ClearNewThins(c, s, limbo, n, slot, id);
      var cleared := ClearNew(s, slot);
      assert Survivor(s, cleared, id);
      AddRefKeeps(c, cleared, limbo, n, id, slot);
      assert limbo - {id} == {};
    } else if info.refCount == 0 {
      DeleteKeeps(c, s, limbo, n, id);
      assert limbo - {id} == {};
    }
  }

  /** A known entry after hearing about it again. */
  function Refreshed(i: Info, addr: Address, penalty: int, now: int): Info {
    var interval := if now - addr.time < 24 * 60 * 60 then 60 * 60 else 24 * 60 * 60;
    var time := if addr.time != 0 && (i.time == 0 || i.time < addr.time - interval - penalty)
      then Max(0, addr.time - penalty) else i.time;
    i.(time := time, services := i.services + addr.services)
  }

  /** Whether a refreshed entry is left where it is. `rnd` stands for the stochastic test. */
  predicate LeftAlone(i: Info, addr: Address, rnd: nat) {
    || addr.time == 0 || (i.time != 0 && addr.time <= i.time)
    || i.inTried
    || i.refCount >= NEW_BUCKETS_PER_ADDRESS
    || rnd % Pow2(if i.refCount < 0 then 0 else i.refCount) != 0
  }

  function AddKnown(c: Config, s: State, addr: Address, source: NetAddr, penalty: int, now: int, rnd: nat): State
    requires Sound(c, s) && Known(s, addr.svc.addr)
  {
    var id := s.mapAddr[addr.svc.addr];
    var info := Refreshed(s.mapInfo[id], addr, penalty, now);
    RefreshKeeps(c, s, id, addr, penalty, now);
    if LeftAlone(info, addr, rnd) then WithInfo(s, id, info) else Place(c, WithInfo(s, id, info), {}, id, source, now)
  }

  lemma {:induction false} RefreshKeeps(c: Config, s: State, id: int, addr: Address, penalty: int, now: int)
    requires Consistent(c, s, {}, 0) && id in s.mapInfo
    ensures Consistent(c, WithInfo(s, id, Refreshed(s.mapInfo[id], addr, penalty, now)), {}, 0)
    ensures Evolves(s, WithInfo(s, id, Refreshed(s.mapInfo[id], addr, penalty, now)))
  {
    assert InfoSane(s, id) && TriedOf(c, s, id);
    TouchKeeps(c, s, {}, 0, id, Refreshed(s.mapInfo[id], addr, penalty, now));
  }

  /** A fresh entry, penalised and counted as new, not yet placed. */
  function Introduced(s: State, addr: Address, source: NetAddr, penalty: int): State {
    var t := Create(s, addr.(time := Max(0, addr.time - penalty)), source);
    t.(nNew := t.nNew + 1)
  }

  lemma {:induction false} IntroducedKeeps(c: Config, s: State, addr: Address, source: NetAddr, penalty: int)
    requires Consistent(c, s, {}, 0) && 0 <= s.nIdCount && addr.svc.addr !in s.mapAddr
    ensures Consistent(c, Introduced(s, addr, source, penalty), {s.nIdCount}, |{s.nIdCount}|)
    ensures Evolves(s, Introduced(s, addr, source, penalty)) && s.nIdCount !in s.mapInfo
  {
    var addr' := addr.(time := Max(0, addr.time - penalty));
    CreateKeeps(c, s, addr', source);
    ScalarsKeep(c, Create(s, addr', source), Introduced(s, addr, source, penalty), {s.nIdCount}, 0);
    assert s.nIdCount in s.mapInfo ==> InfoSane(s, s.nIdCount);
  }

  lemma {:induction false} KnownMeansMapped(s: State, a: NetAddr)
    requires AddrConsistent(s)
    ensures Known(s, a) <==> a in s.mapAddr
  {
    assert a in s.mapAddr ==> AddrAt(s, a);
  }

  /** Add_: the new state and whether the address was new. */
  function Add(c: Config, s: State, addr: Address, source: NetAddr, timePenalty: int, now: int, rnd: nat): (State, bool)
    requires Sound(c, s)
  {
    var penalty := if addr.svc.addr == source then 0 else timePenalty;
    if !c.routable(addr.svc.addr) then (s, false)
    else if Known(s, addr.svc.addr) then (AddKnown(c, s, addr, source, penalty, now, rnd), false)
    else
      KnownMeansMapped(s, addr.svc.addr);
      IntroducedKeeps(c, s, addr, source, penalty);
      (Place(c, Introduced(s, addr, source, penalty), {s.nIdCount}, s.nIdCount, source, now), true)
  }

  lemma {:induction false} ThinnedEvolves(s: State, t: State)
    requires OnlyThinned(s, t)
    ensures Evolves(s, t)
  {
    forall id | id in t.mapInfo
      ensures Descends(s, t, id)
    {
      assert Survivor(s, t, id);
    }
  }

  lemma {:induction false} PlacedSound(
    c: Config, s: State, u: State, limbo: set<int>, id: int, source: NetAddr, now: int)
    requires Sound(c, s) && Evolves(s, u) && u.collisions == s.collisions
    requires Consistent(c, u, limbo, |limbo|) && id in u.mapInfo && !u.mapInfo[id].inTried
    requires u.mapInfo[id].refCount < NEW_BUCKETS_PER_ADDRESS && (limbo == {} || limbo == {id})
    ensures Keeps(c, s, Place(c, u, limbo, id, source, now))
  {
    PlaceKeeps(c, u, limbo, id, source, now);
    PlaceThins(c, u, limbo, id, source, now);
    var t := Place(c, u, limbo, id, source, now);
    ThinnedEvolves(u, t);
    EvolvesTransitive(s, u, t);
    CollisionsSurvive(c, s, t);
  }

  /** Add_ keeps the invariant. */
  lemma {:induction false} AddKeeps(
    c: Config, s: State, addr: Address, source: NetAddr, timePenalty: int, now: int, rnd: nat)
    requires Sound(c, s)
    ensures var t := Add(c, s, addr, source, timePenalty, now, rnd).0; Keeps(c, s, t)
  {
    var penalty := if addr.svc.addr == source then 0 else timePenalty;
    if c.routable(addr.svc.addr) {
      KnownMeansMapped(s, addr.svc.addr);
      if Known(s, addr.svc.addr) {
        var id := s.mapAddr[addr.svc.addr];
        RefreshKeeps(c, s, id, addr, penalty, now);
        var t := WithInfo(s, id, Refreshed(s.mapInfo[id], addr, penalty, now));
        CollisionsSurvive(c, s, t);
        if !LeftAlone(t.mapInfo[id], addr, rnd) {
          PlacedSound(c, s, t, {}, id, source, now);
        }
      } else {
        IntroducedKeeps(c, s, addr, source, penalty);
        PlacedSound(c, s, Introduced(s, addr, source, penalty), {s.nIdCount}, s.nIdCount, source, now);
      }
    }
  }

  // ----- Attempt_, Connected_, SetServices_ -----

  /** The entry for exactly this service, if there is one. */
  predicate Holds(s: State, svc: Service) {
    Known(s, svc.addr) && s.mapInfo[s.mapAddr[svc.addr]].svc == svc
  }

  function Attempt(s: State, svc: Service, countFailure: bool, time: int): State {
    if !Holds(s, svc) then s else
      var id := s.mapAddr[svc.addr];
      var i := s.mapInfo[id].(lastTry := time);
      WithInfo(s, id, if countFailure && i.lastCountAttempt < s.nLastGood
                      then i.(lastCountAttempt := time, attempts := i.attempts + 1) else i)
  }

  function Connected(s: State, svc: Service, time: int): State {
    if !Holds(s, svc) then s else
      var id := s.mapAddr[svc.addr];
      WithInfo(s, id, if time - s.mapInfo[id].time > 20 * 60 then s.mapInfo[id].(time := time) else s.mapInfo[id])
  }

  function SetServices(s: State, svc: Service, services: Services): State {
    if !Holds(s, svc) then s else
      var id := s.mapAddr[svc.addr];
      WithInfo(s, id, s.mapInfo[id].(services := services))
  }

  /** Statistics updates of one entry. */
  lemma {:induction false} StatisticsKeep(c: Config, s: State, id: int, info: Info)
    requires Sound(c, s) && id in s.mapInfo
    requires info == s.mapInfo[id].(time := info.time, services := info.services, lastTry := info.lastTry,
                                    lastCountAttempt := info.lastCountAttempt, attempts := info.attempts)
    requires info.lastTry >= 0
    ensures Keeps(c, s, WithInfo(s, id, info))
  {
    assert InfoSane(s, id) && TriedOf(c, s, id);
    TouchKeeps(c, s, {}, 0, id, info);
    CollisionsSurvive(c, s, WithInfo(s, id, info));
  }

  lemma {:induction false} UpdatesKeep(
    c: Config, s: State, svc: Service, countFailure: bool, time: int, services: Services)
    requires Sound(c, s) && time > 0
    ensures Keeps(c, s, Attempt(s, svc, countFailure, time))
    ensures Keeps(c, s, Connected(s, svc, time))
    ensures Keeps(c, s, SetServices(s, svc, services))
  {
    if Holds(s, svc) {
      var id := s.mapAddr[svc.addr];
      assert InfoSane(s, id);
      StatisticsKeep(c, s, id, Attempt(s, svc, countFailure, time).mapInfo[id]);
      StatisticsKeep(c, s, id, Connected(s, svc, time).mapInfo[id]);
      StatisticsKeep(c, s, id, SetServices(s, svc, services).mapInfo[id]);
    }
  }

  // ----- collisions -----

  function TriedIdFor(c: Config, s: State, info: Info): int
    requires ValidConfig(c)
  {
    var slot := TriedSlot(c, s.key, info.svc);
    if slot in s.vvTried then s.vvTried[slot] else -1
  }

  /** What ResolveCollisions_ decides about one recorded collision. */
  datatype Verdict = Keep | Drop | Promote

  function Judge(c: Config, s: State, id: int, now: int): Verdict
    requires Sound(c, s)
  {
    if id !in s.mapInfo then Drop
    else
      var candidate := s.mapInfo[id];
      var slot := TriedSlot(c, s.key, candidate.svc);
      if !c.valid(candidate.svc) then Drop
      else if slot in s.vvTried then
        assert TriedAt(c, s, slot);
        var holder := s.mapInfo[s.vvTried[slot]];
        if now - holder.lastSuccess < REPLACEMENT_HOURS * 60 * 60 then Drop
        else if now - holder.lastTry < REPLACEMENT_HOURS * 60 * 60
          then (if now - holder.lastTry > 60 then Promote else Keep)
        else if now - candidate.lastSuccess > TEST_WINDOW then Promote
        else Keep
      else Promote
  }

  function ResolveOne(c: Config, s: State, id: int, now: int): State
    requires Sound(c, s) && now > 0
  {
    match Judge(c, s, id, now)
    case Keep => s
    case Drop => s.(collisions := s.collisions - {id})
    case Promote =>
      var t := Good(c, s, s.mapInfo[id].svc, false, now);
      t.(collisions := t.collisions - {id})
  }

  lemma {:induction false} ForgetKeeps(c: Config, s: State, id: int)
    requires Sound(c, s)
    ensures Keeps(c, s, s.(collisions := s.collisions - {id}))
  {
    var t := s.(collisions := s.collisions - {id});
    ScalarsKeep(c, s, t, {}, 0);
    CollisionsSurvive(c, s, t);
  }

  lemma {:induction false} ResolveOneKeeps(c: Config, s: State, id: int, now: int)
    requires Sound(c, s) && now > 0
    ensures Keeps(c, s, ResolveOne(c, s, id, now))
    ensures ResolveOne(c, s, id, now).collisions <= s.collisions
  {
    match Judge(c, s, id, now)
    case Keep =>
    case Drop => ForgetKeeps(c, s, id);
    case Promote =>
      var svc := s.mapInfo[id].svc;
      GoodKeeps(c, s, svc, false, now);
      var t := Good(c, s, svc, false, now);
      ForgetKeeps(c, t, id);
      EvolvesTransitive(s, t, t.(collisions := t.collisions - {id}));
  }

  ghost predicate IsLeast(id: int, ids: set<int>) {
    id in ids && forall x :: x in ids ==> id <= x
  }

  /** The least member of a set of ids: std::set iterates in ascending order. */
  ghost function Least(ids: set<int>): (id: int)
    requires ids != {}
    ensures IsLeast(id, ids)
  {
    LeastExists(ids);
    var id :| IsLeast(id, ids);
    id
  }

  lemma {:induction false} LeastExists(ids: set<int>)
    requires ids != {}
    ensures exists id :: IsLeast(id, ids)
    decreases |ids|
  {
    var y := AnyMember(ids);
    var rest := ids - {y};
    assert forall x :: x in ids ==> x == y || x in rest;
    if rest == {} {
      assert IsLeast(y, ids);
    } else {
      LeastExists(rest);
      var z :| IsLeast(z, rest);
      assert IsLeast(if y < z then y else z, ids);
    }
  }

  /** ResolveCollisions_: judge the recorded collisions in ascending order of id. */
  ghost function Resolve(c: Config, s: State, todo: set<int>, now: int): State
    requires Sound(c, s) && now > 0
    decreases |todo|
  {
    if todo == {} then s else
      var id := Least(todo);
      ResolveOneKeeps(c, s, id, now);
      Resolve(c, ResolveOne(c, s, id, now), todo - {id}, now)
  }

  lemma {:induction false} ResolveKeeps(c: Config, s: State, todo: set<int>, now: int)
    requires Sound(c, s) && now > 0
    ensures Keeps(c, s, Resolve(c, s, todo, now))
    ensures Resolve(c, s, todo, now).collisions <= s.collisions
    decreases |todo|
  {
    if todo != {} {
      var id := Least(todo);
      ResolveOneKeeps(c, s, id, now);
      var t := ResolveOne(c, s, id, now);
      ResolveKeeps(c, t, todo - {id}, now);
      EvolvesTransitive(s, t, Resolve(c, t, todo - {id}, now));
    }
  }

  datatype Selected = Nothing | Entry(info: Info)

  const DEFAULT_INFO := Info(Service(0, 0), {}, 100000000, 0, 0, 0, 0, 0, 0, false, -1)

  /** SelectTriedCollision_ on the randomly picked collision: mapInfo's operator[] would insert a default
      entry if the tried slot were empty. */
  function SelectCollision(c: Config, s: State, pick: int): (State, Selected)
    requires ValidConfig(c)
  {
    if s.collisions == {} then (s, Nothing)
    else if pick !in s.mapInfo then (s.(collisions := s.collisions - {pick}), Nothing)
    else
      var holder := TriedIdFor(c, s, s.mapInfo[pick]);
      if holder in s.mapInfo then (s, Entry(s.mapInfo[holder]))
        else (WithInfo(s, holder, DEFAULT_INFO), Entry(DEFAULT_INFO))
  }

  /** Picking this collision looks up a tried slot that is empty. */
  ghost predicate DeadEnd(c: Config, s: State, pick: int)
    requires ValidConfig(c)
  {
    pick in s.collisions && pick in s.mapInfo && TriedSlot(c, s.key, s.mapInfo[pick].svc) !in s.vvTried
  }

  /** Where recorded collisions still collide there is none. */
  lemma {:induction false} NoDeadEnd(c: Config, s: State, pick: int)
    requires ValidConfig(c) && CollisionsOk(c, s)
    ensures !DeadEnd(c, s, pick)
  {
    assert pick in s.collisions ==> CollisionOk(c, s, pick);
  }

  /** Any other pick leads to a live tried entry, so nothing is inserted by the lookup. */
  lemma {:induction false} SelectCollisionSafe(c: Config, s: State, pick: int)
    requires Sound(c, s) && (s.collisions != {} ==> pick in s.collisions) && !DeadEnd(c, s, pick)
    ensures var (t, r) := SelectCollision(c, s, pick);
      && Keeps(c, s, t) && t == s.(collisions := t.collisions)
      && (r.Entry? <==> pick in s.collisions && pick in s.mapInfo)
      && (r.Entry? ==> t == s && r.info.inTried && r.info in s.mapInfo.Values)
      && (r.Entry? ==> TriedSlot(c, s.key, r.info.svc) == TriedSlot(c, s.key, s.mapInfo[pick].svc))
  {
    if s.collisions != {} {
      if pick in s.mapInfo {
        var slot := TriedSlot(c, s.key, s.mapInfo[pick].svc);
        assert TriedAt(c, s, slot);
        assert s.mapInfo[s.vvTried[slot]] in s.mapInfo.Values;
      } else {
        ForgetKeeps(c, s, pick);
      }
    }
  }

  /** The lookup at a dead end inserts a default entry under id -1. */
  lemma {:induction false} DeadEndCorrupts(c: Config, s: State, pick: int)
    requires Sound(c, s) && DeadEnd(c, s, pick)
    ensures !Sound(c, SelectCollision(c, s, pick).0)
  {
    var t := SelectCollision(c, s, pick).0;
    assert -1 in s.mapInfo ==> InfoSane(s, -1);
    assert !InfoSane(t, -1);
  }

  // ----- GetAddr_ -----

  function GetAddrLimit(size: nat): nat {
    var n := GETADDR_MAX_PCT * size / 100;
    if n > GETADDR_MAX then GETADDR_MAX else n
  }

  /** The position drawn for index `n`: insecure_rand.randrange(size - n) + n. */
  function DrawPosition(rand: nat -> nat, n: nat, size: nat): (pos: nat)
    requires n < size
    ensures n <= pos < size
  {
    rand(n) % (size - n) + n
  }

  /** The shuffle-and-pick loop of GetAddr_ from index `n` on; `rand` supplies the random numbers. */
  function GetAddrFrom(s: State, n: nat, limit: nat, now: int, rand: nat -> nat, ids: seq<int>): (State, seq<int>)
    requires RandomConsistent(s) && n <= |s.vRandom|
    decreases |s.vRandom| - n
  {
    if n == |s.vRandom| || |ids| >= limit then (s, ids) else
      var pos := DrawPosition(rand, n, |s.vRandom|);
      assert RandomAt(s, n) && RandomAt(s, pos);
      SwapRandomConsistent(s, n, pos);
      var t := SwapRandom(s, n, pos);
      assert RandomAt(t, n);
      GetAddrFrom(t, n + 1, limit, now, rand, Gather(t, n, now, ids))
  }

  /** The picks so far and, unless it is of low quality, the entry at position `n`. */
  function Gather(t: State, n: nat, now: int, ids: seq<int>): seq<int>
    requires n < |t.vRandom| && t.vRandom[n] in t.mapInfo
  {
    if IsTerrible(t.mapInfo[t.vRandom[n]], now) then ids else ids + [t.vRandom[n]]
  }

  /** `ids` are live, acceptable entries at increasing positions below `n`, hence pairwise different. */
  ghost predicate PickedBelow(s: State, n: int, now: int, ids: seq<int>) {
    && (forall k {:trigger PickedAt(s, n, now, ids, k)} :: 0 <= k < |ids| ==> PickedAt(s, n, now, ids, k))
    && (forall k {:trigger PickedInOrder(s, ids, k)} :: 0 <= k < |ids| - 1 ==> PickedInOrder(s, ids, k))
  }

  ghost predicate PickedAt(s: State, n: int, now: int, ids: seq<int>, k: int)
    requires 0 <= k < |ids|
  {
    ids[k] in s.mapInfo && s.mapInfo[ids[k]].randomPos < n && !IsTerrible(s.mapInfo[ids[k]], now)
  }

  ghost predicate PickedInOrder(s: State, ids: seq<int>, k: int)
    requires 0 <= k < |ids| - 1
  {
    ids[k] in s.mapInfo && ids[k + 1] in s.mapInfo && s.mapInfo[ids[k]].randomPos < s.mapInfo[ids[k + 1]].randomPos
  }

  lemma {:induction false} SameButOrderTransitive(s: State, t: State, u: State)
    requires SameButOrder(s, t) && SameButOrder(t, u)
    ensures SameButOrder(s, u)
  {
    forall id | id in s.mapInfo
      ensures MovedOnly(s, u, id)
    {
      assert MovedOnly(s, t, id) && MovedOnly(t, u, id);
    }
  }

  /** Swapping positions from `n` on leaves earlier picks alone. */
  lemma {:induction false} PicksUnmoved(s: State, n: nat, pos: nat, now: int, ids: seq<int>)
    requires RandomConsistent(s) && n <= pos < |s.vRandom| && PickedBelow(s, n, now, ids)
    requires s.vRandom[n] in s.mapInfo && s.vRandom[pos] in s.mapInfo
    ensures PickedBelow(SwapRandom(s, n, pos), n, now, ids)
  {
    var t := SwapRandom(s, n, pos);
    if n != pos {
      SwapEntries(s, n, pos);
    }
    assert RandomAt(s, n) && RandomAt(s, pos);
    forall k | 0 <= k < |ids|
      ensures PickedAt(t, n, now, ids, k)
    {
      assert PickedAt(s, n, now, ids, k);
    }
    forall k | 0 <= k < |ids| - 1
      ensures PickedInOrder(t, ids, k)
    {
      assert PickedInOrder(s, ids, k) && PickedAt(s, n, now, ids, k) && PickedAt(s, n, now, ids, k + 1);
    }
  }

  lemma {:induction false} GatherKeeps(t: State, n: nat, now: int, ids: seq<int>)
    requires RandomConsistent(t) && n < |t.vRandom| && t.vRandom[n] in t.mapInfo && PickedBelow(t, n, now, ids)
    ensures PickedBelow(t, n + 1, now, Gather(t, n, now, ids))
  {
    var r, end := Gather(t, n, now, ids), n + 1;
    assert RandomAt(t, n);
    forall k | 0 <= k < |r|
      ensures PickedAt(t, end, now, r, k)
    {
      assert k < |ids| ==> PickedAt(t, n, now, ids, k);
    }
    forall k | 0 <= k < |r| - 1
      ensures PickedInOrder(t, r, k)
    {
      assert PickedAt(t, n, now, ids, k);
      assert k < |ids| - 1 ==> PickedInOrder(t, ids, k);
    }
  }

  lemma {:induction false} PickedByEnd(s: State, n: nat, now: int, ids: seq<int>)
    requires n <= |s.vRandom| && PickedBelow(s, n, now, ids)
    ensures PickedBelow(s, |s.vRandom|, now, ids)
  {
    forall k | 0 <= k < |ids|
      ensures PickedAt(s, |s.vRandom|, now, ids, k)
    {
      assert PickedAt(s, n, now, ids, k);
    }
  }

  /** One iteration of the GetAddr_ loop. */
  lemma {:induction false} GetAddrStep(c: Config, s: State, n: nat, now: int, pos: nat, ids: seq<int>)
    requires Consistent(c, s, {}, 0) && n <= pos < |s.vRandom| && PickedBelow(s, n, now, ids)
    requires s.vRandom[n] in s.mapInfo && s.vRandom[pos] in s.mapInfo
    ensures var t := SwapRandom(s, n, pos);
      && SameButOrder(s, t) && Consistent(c, t, {}, 0) && |t.vRandom| == |s.vRandom|
      && t.vRandom[n] in t.mapInfo && PickedBelow(t, n + 1, now, Gather(t, n, now, ids))
  {
    SwapKeeps(c, s, {}, 0, n, pos);
    PicksUnmoved(s, n, pos, now, ids);
    assert RandomAt(SwapRandom(s, n, pos), n);
    GatherKeeps(SwapRandom(s, n, pos), n, now, ids);
  }

  lemma {:induction false} GetAddrUnfold(
    s: State, n: nat, limit: nat, now: int, rand: nat -> nat, ids: seq<int>, u: State)
    requires RandomConsistent(s) && n < |s.vRandom| && |ids| < limit && RandomConsistent(u)
    requires s.vRandom[n] in s.mapInfo && s.vRandom[DrawPosition(rand, n, |s.vRandom|)] in s.mapInfo
    requires u == SwapRandom(s, n, DrawPosition(rand, n, |s.vRandom|)) && u.vRandom[n] in u.mapInfo
    ensures GetAddrFrom(s, n, limit, now, rand, ids) == GetAddrFrom(u, n + 1, limit, now, rand, Gather(u, n, now, ids))
  {
  }

  /** GetAddr_ changes nothing but the order of vRandom, and picks distinct acceptable entries up to its limit. */
  lemma {:induction false} GetAddrKeeps(
    c: Config, s: State, n: nat, limit: nat, now: int, rand: nat -> nat, ids: seq<int>)
    returns (t: State, r: seq<int>)
    requires Consistent(c, s, {}, 0) && n <= |s.vRandom| && PickedBelow(s, n, now, ids) && |ids| <= limit
    ensures (t, r) == GetAddrFrom(s, n, limit, now, rand, ids)
    ensures SameButOrder(s, t) && Consistent(c, t, {}, 0) && |r| <= limit && PickedBelow(t, |t.vRandom|, now, r)
    decreases |s.vRandom| - n
  {
    t, r := s, ids;
    if n < |s.vRandom| && |ids| < limit {
      var pos := DrawPosition(rand, n, |s.vRandom|);
      assert RandomAt(s, n) && RandomAt(s, pos);
      GetAddrStep(c, s, n, now, pos, ids);
      var u := SwapRandom(s, n, pos);
      GetAddrUnfold(s, n, limit, now, rand, ids, u);
      t, r := GetAddrKeeps(c, u, n + 1, limit, now, rand, Gather(u, n, now, ids));
      SameButOrderTransitive(s, u, t);
    } else {
      PickedByEnd(s, n, now, ids);
    }
  }

  function GetAddr(s: State, now: int, rand: nat -> nat): (State, seq<int>)
    requires RandomConsistent(s)
  {
    GetAddrFrom(s, 0, GetAddrLimit(|s.vRandom|), now, rand, [])
  }

  lemma {:induction false} GetAddrSound(c: Config, s: State, now: int, rand: nat -> nat)
    requires Sound(c, s)
    ensures var (t, ids) := GetAddr(s, now, rand);
      && Keeps(c, s, t)
      && SameButOrder(s, t) && |ids| <= GetAddrLimit(|s.vRandom|) && PickedBelow(t, |t.vRandom|, now, ids)
  {
    var t, _ := GetAddrKeeps(c, s, 0, GetAddrLimit(|s.vRandom|), now, rand, []);
    forall id | id in t.mapInfo
      ensures Descends(s, t, id)
    {
      assert MovedOnly(s, t, id);
    }
    CollisionsSurvive(c, s, t);
  }

  // ----- runs -----

  datatype Op =
    | OpAdd(addr: Address, source: NetAddr, penalty: int, now: int, rnd: nat)
    | OpGood(svc: Service, testBeforeEvict: bool, time: int)
    | OpAttempt(svc: Service, countFailure: bool, time: int)
    | OpConnected(svc: Service, time: int)
    | OpSetServices(svc: Service, services: Services)
    | OpGetAddr(now: int, rand: nat -> nat)
    | OpResolveCollisions(now: int)
    | OpSelectTriedCollision(pick: int)

  /** Clock readings are positive, and a collision is picked from those recorded. */
  ghost predicate Permitted(s: State, op: Op) {
    match op
    case OpGood(_, _, time) => time > 0
    case OpAttempt(_, _, time) => time > 0
    case OpConnected(_, time) => time > 0
    case OpResolveCollisions(now) => now > 0
    case OpSelectTriedCollision(pick) => s.collisions != {} ==> pick in s.collisions
    case _ => true
  }

  ghost function Apply(c: Config, s: State, op: Op): State
    requires Sound(c, s) && Permitted(s, op)
  {
    match op
    case OpAdd(addr, source, penalty, now, rnd) => Add(c, s, addr, source, penalty, now, rnd).0
    case OpGood(svc, test, time) => Good(c, s, svc, test, time)
    case OpAttempt(svc, count, time) => Attempt(s, svc, count, time)
    case OpConnected(svc, time) => Connected(s, svc, time)
    case OpSetServices(svc, services) => SetServices(s, svc, services)
    case OpGetAddr(now, rand) => GetAddr(s, now, rand).0
    case OpResolveCollisions(now) => Resolve(c, s, s.collisions, now)
    case OpSelectTriedCollision(pick) => SelectCollision(c, s, pick).0
  }

  /** Every operation keeps the invariant, except the lookup at a dead end. */
  lemma {:induction false} ApplyKeeps(c: Config, s: State, op: Op)
    requires Sound(c, s) && Permitted(s, op) && !(op.OpSelectTriedCollision? && DeadEnd(c, s, op.pick))
    ensures Keeps(c, s, Apply(c, s, op))
  {
    match op
    case OpAdd(addr, source, penalty, now, rnd) => AddKeeps(c, s, addr, source, penalty, now, rnd);
    case OpGood(svc, test, time) => GoodKeeps(c, s, svc, test, time);
    case OpAttempt(svc, count, time) => UpdatesKeep(c, s, svc, count, time, {});
    case OpConnected(svc, time) => UpdatesKeep(c, s, svc, false, time, {});
    case OpSetServices(svc, services) => UpdatesKeep(c, s, svc, false, 1, services);
    case OpGetAddr(now, rand) => GetAddrSound(c, s, now, rand);
    case OpResolveCollisions(now) => ResolveKeeps(c, s, s.collisions, now);
    case OpSelectTriedCollision(pick) => SelectCollisionSafe(c, s, pick);
  }

  /** So an operation breaks the tables exactly if it is a lookup at a dead end. */
  lemma {:induction false} ApplyExact(c: Config, s: State, op: Op)
    requires Sound(c, s) && Permitted(s, op)
    ensures Sound(c, Apply(c, s, op)) <==> !(op.OpSelectTriedCollision? && DeadEnd(c, s, op.pick))
  {
    if op.OpSelectTriedCollision? && DeadEnd(c, s, op.pick) {
      DeadEndCorrupts(c, s, op.pick);
    } else {
      ApplyKeeps(c, s, op);
    }
  }

  /** The states a run passes through; once the tables are broken anything may follow. */
  ghost predicate IsRun(c: Config, states: seq<State>, ops: seq<Op>) {
    && |states| == |ops| + 1
    && forall i {:trigger RunStep(c, states, ops, i)} :: 0 <= i < |ops| ==> RunStep(c, states, ops, i)
  }

  ghost predicate RunStep(c: Config, states: seq<State>, ops: seq<Op>, i: int)
    requires 0 <= i < |ops| && |states| == |ops| + 1
  {
    Permitted(states[i], ops[i]) && (Sound(c, states[i]) ==> states[i + 1] == Apply(c, states[i], ops[i]))
  }

  lemma {:induction false} ClearedConsistent(c: Config, key: nat, collisions: set<int>)
    requires ValidConfig(c)
    ensures Sound(c, Cleared(key, collisions))
  {
  }

  /** A cleared manager satisfies the whole invariant exactly when no collision was left over from before Clear. */
  lemma {:induction false} ClearedHealthy(c: Config, key: nat, collisions: set<int>)
    requires ValidConfig(c) && forall id :: id in collisions ==> 0 <= id
    ensures Healthy(c, Cleared(key, collisions)) <==> collisions == {}
  {
    var s := Cleared(key, collisions);
    ClearedConsistent(c, key, collisions);
    if collisions != {} {
      var id := AnyMember(collisions);
      assert !CollisionOk(c, s, id);
    }
  }

  /** Over every run from a healthy manager the invariant holds, tried slots never empty and ids keep their service. */
  lemma {:induction false} EveryRunHealthy(c: Config, states: seq<State>, ops: seq<Op>, n: nat)
    requires IsRun(c, states, ops) && n <= |ops| && Healthy(c, states[0])
    ensures Healthy(c, states[n]) && Evolves(states[0], states[n])
    ensures n > 0 ==> Evolves(states[n - 1], states[n])
  {
    if n > 0 {
      EveryRunHealthy(c, states, ops, n - 1);
      assert RunStep(c, states, ops, n - 1);
      if ops[n - 1].OpSelectTriedCollision? {
        NoDeadEnd(c, states[n - 1], ops[n - 1].pick);
      }
      ApplyKeeps(c, states[n - 1], ops[n - 1]);
      EvolvesTransitive(states[0], states[n - 1], states[n]);
    }
  }
}
