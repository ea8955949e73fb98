/** What each operation of the address manager does, entry by entry and slot by slot. */
module AddrManEffects {
  import opened Numbers
  import opened AddrManModel
  import opened AddrManSteps
  import opened AddrManOps

  /** The same entry, but for its references, its table and its place in vRandom. */
  predicate SameHistory(a: Info, b: Info) {
    b == a.(refCount := b.refCount, randomPos := b.randomPos, inTried := b.inTried)
  }

  /** The same entry, but for its place in vRandom. */
  predicate SameEntryElsewhere(a: Info, b: Info) {
    b == a.(randomPos := b.randomPos)
  }

  ghost predicate Emptied(s: State, t: State, slot: Slot) {
    && t.key == s.key && t.vvTried == s.vvTried && t.vvNew == s.vvNew - {slot} && t.nIdCount == s.nIdCount
    && t.collisions == s.collisions && t.nLastGood == s.nLastGood
    && (forall x {:trigger EmptiedAt(s, t, slot, x)} :: x in s.mapInfo ==> EmptiedAt(s, t, slot, x))
    && (forall x :: x in t.mapInfo ==> x in s.mapInfo)
  }

  /** Only the entry at the slot changes: it loses a reference, and is deleted if that was its last. */
  ghost predicate EmptiedAt(s: State, t: State, slot: Slot, x: int)
    requires x in s.mapInfo
  {
    if slot in s.vvNew && s.vvNew[slot] == x then
      && (x in t.mapInfo <==> s.mapInfo[x].refCount != 1)
      && (x in t.mapInfo ==>
           SameEntryElsewhere(s.mapInfo[x].(refCount := s.mapInfo[x].refCount - 1), t.mapInfo[x]))
    else x in t.mapInfo && SameEntryElsewhere(s.mapInfo[x], t.mapInfo[x])
  }

  lemma {:induction false} ClearNewEffect(c: Config, s: State, limbo: set<int>, counted: int, slot: Slot)
    requires Consistent(c, s, limbo, counted) && (slot in s.vvNew ==> s.vvNew[slot] in s.mapInfo)
    ensures Emptied(s, ClearNew(s, slot), slot)
  {
    var t := ClearNew(s, slot);
    if slot in s.vvNew {
      var id := s.vvNew[slot];
      var d := DropRef(s, slot);
      if d.mapInfo[id].refCount == 0 {
        DropRefKeepsRandom(s, slot);
        DeleteEffect(d, id);
      }
      forall x | x in s.mapInfo
        ensures EmptiedAt(s, t, slot, x)
      {
      }
    } else {
      assert s.vvNew - {slot} == s.vvNew;
    }
  }

  // ----- MakeTried -----

  /** The new slot that a source assigns to a service. */
  function SlotFrom(c: Config, s: State, svc: Service, source: NetAddr): Slot
    requires ValidConfig(c)
  {
    NewSlot(c, s.key, svc, NewBucket(c, s.key, svc, source))
  }

  /** `t` is `s` with `id` moved to its tried slot; a holder of the slot is back in the new table, at the slot its own
      source assigns, and whoever held that one lost a reference. */
  ghost predicate Promoted(c: Config, s: State, t: State, id: int)
    requires ValidConfig(c) && id in s.mapInfo
  {
    var slot := TriedSlot(c, s.key, s.mapInfo[id].svc);
    && t.key == s.key && t.nIdCount == s.nIdCount && t.collisions == s.collisions && t.nLastGood == s.nLastGood
    && t.vvTried == s.vvTried[slot := id]
    && id in t.mapInfo && SameHistory(s.mapInfo[id], t.mapInfo[id]) && t.mapInfo[id].inTried
    && (forall x {:trigger StaysPut(c, s, t, id, x)} :: x in s.mapInfo && x != id ==> StaysPut(c, s, t, id, x))
    && (forall x :: x in t.mapInfo ==> x in s.mapInfo)
  }

  /** What promoting `id` does to another entry. */
  ghost predicate StaysPut(c: Config, s: State, t: State, id: int, x: int)
    requires ValidConfig(c) && id in s.mapInfo && x in s.mapInfo
  {
    var slot := TriedSlot(c, s.key, s.mapInfo[id].svc);
    if slot in s.vvTried && s.vvTried[slot] == x then
      && x in t.mapInfo && SameHistory(s.mapInfo[x], t.mapInfo[x])
      && !t.mapInfo[x].inTried && t.mapInfo[x].refCount == 1
      && SlotFrom(c, s, s.mapInfo[x].svc, s.mapInfo[x].source) in t.vvNew
      && t.vvNew[SlotFrom(c, s, s.mapInfo[x].svc, s.mapInfo[x].source)] == x
    else
      && (x in t.mapInfo ==> SameHistory(s.mapInfo[x], t.mapInfo[x]) && t.mapInfo[x].inTried == s.mapInfo[x].inTried)
      && (x !in t.mapInfo ==> slot in s.vvTried && Displaced(c, s, s.vvTried[slot], x))
  }

  /** `x` has its only reference at the slot of the new table that `holder` returns to. */
  ghost predicate Displaced(c: Config, s: State, holder: int, x: int)
    requires ValidConfig(c) && x in s.mapInfo
  {
    && holder in s.mapInfo && s.mapInfo[x].refCount == 1
    && SlotFrom(c, s, s.mapInfo[holder].svc, s.mapInfo[holder].source) in s.vvNew
    && s.vvNew[SlotFrom(c, s, s.mapInfo[holder].svc, s.mapInfo[holder].source)] == x
  }

  /** An entry other than the evicted one, when `place` is cleared for that. */
  ghost predicate Bystander(s: State, t: State, place: Slot, x: int)
    requires x in s.mapInfo
  {
    && (x in t.mapInfo ==> SameHistory(s.mapInfo[x], t.mapInfo[x]) && t.mapInfo[x].inTried == s.mapInfo[x].inTried)
    && (x !in t.mapInfo ==> place in s.vvNew && s.vvNew[place] == x && s.mapInfo[x].refCount == 1)
  }

  /** The holder of a tried slot moves back to the new table. */
  lemma {:induction false} EvictEffect(
    c: Config, s: State, limbo: set<int>, slot: Slot, holder: int, place: Slot, untried: State, cleared: State,
    t: State)
    requires Consistent(c, s, limbo, 0) && slot in s.vvTried && holder == s.vvTried[slot] && holder in s.mapInfo
    requires untried == Untry(s, slot) && Emptied(untried, cleared, place) && holder in cleared.mapInfo
    requires t == Resettle(cleared, holder, place) && (place in untried.vvNew ==> untried.vvNew[place] != holder)
    ensures t.vvTried == s.vvTried - {slot} && place in t.vvNew && t.vvNew[place] == holder
    ensures SameHistory(s.mapInfo[holder], t.mapInfo[holder]) && !t.mapInfo[holder].inTried
    ensures t.mapInfo[holder].refCount == s.mapInfo[holder].refCount + 1
    ensures forall x {:trigger Bystander(s, t, place, x)} :: x in s.mapInfo && x != holder ==> Bystander(s, t, place, x)
    ensures forall x :: x in t.mapInfo ==> x in s.mapInfo
  {
    assert EmptiedAt(untried, cleared, place, holder);
    forall x | x in s.mapInfo && x != holder
      ensures Bystander(s, t, place, x)
    {
      assert EmptiedAt(untried, cleared, place, x);
    }
  }

  /** What Evict does, put together from its steps. */
  lemma {:induction false} EvictWhole(c: Config, s: State, limbo: set<int>, slot: Slot, holder: int, place: Slot)
    requires Consistent(c, s, limbo, 0) && slot in s.vvTried && holder == s.vvTried[slot] && holder in s.mapInfo
    requires place == HomeSlot(c, s.key, s.mapInfo[holder])
    ensures var t := Evict(c, s, limbo, slot);
      && t.vvTried == s.vvTried - {slot} && place in t.vvNew && t.vvNew[place] == holder && holder in t.mapInfo
      && SameHistory(s.mapInfo[holder], t.mapInfo[holder]) && !t.mapInfo[holder].inTried
      && t.mapInfo[holder].refCount == 1 && t.key == s.key && t.nIdCount == s.nIdCount
      && t.collisions == s.collisions && t.nLastGood == s.nLastGood
      && (forall x {:trigger Bystander(s, t, place, x)} :: x in s.mapInfo && x != holder ==> Bystander(s, t, place, x))
      && forall x :: x in t.mapInfo ==> x in s.mapInfo
  {
    assert TriedAt(c, s, slot) && TriedOf(c, s, holder) && NewOf(c, s, limbo, holder);
    UntryKeeps(c, s, limbo, 0, slot);
    var untried, limbo' := Untry(s, slot), limbo + {holder};
    ClearNewKeeps(c, untried, limbo', 0, place);
    ClearNewThins(c, untried, limbo', 0, place, holder);
    var cleared := ClearNew(untried, place);
    ClearNewEffect(c, untried, limbo', 0, place);
    EvictUnfolds(c, s, limbo, slot, untried, cleared);
    EvictEffect(c, s, limbo, slot, holder, place, untried, cleared, Evict(c, s, limbo, slot));
  }

  lemma {:induction false} MakeTriedEffect(c: Config, s: State, id: int)
    requires Consistent(c, s, {}, 0) && id in s.mapInfo && !s.mapInfo[id].inTried
    ensures Promoted(c, s, MakeTried(c, s, id), id)
  {
    UnlistKeeps(c, s, {}, 0, id);
    var unlisted, limbo := Unlist(s, id), {} + {id};
    var slot := TriedSlot(c, s.key, s.mapInfo[id].svc);
    MakeRoomKeeps(c, unlisted, limbo, slot, id);
    var ready := MakeRoom(c, unlisted, limbo, slot);
    MakeTriedUnfolds(c, s, id, unlisted, ready);
    if slot in s.vvTried {
      assert TriedAt(c, s, slot);
      var holder := s.vvTried[slot];
      EvictWhole(c, unlisted, limbo, slot, holder, HomeSlot(c, s.key, s.mapInfo[holder]));
    }
    PromotedBy(c, s, id, unlisted, ready, slot);
  }

  lemma {:induction false} PromotedBy(c: Config, s: State, id: int, unlisted: State, ready: State, slot: Slot)
    requires Consistent(c, s, {}, 0) && id in s.mapInfo && !s.mapInfo[id].inTried && id in ready.mapInfo
    requires unlisted == Unlist(s, id) && slot == TriedSlot(c, s.key, s.mapInfo[id].svc)
    requires slot !in s.vvTried ==> ready == unlisted
    requires slot in s.vvTried ==>
      var holder := s.vvTried[slot];
      && holder in s.mapInfo && holder != id && holder in ready.mapInfo
      && var place := HomeSlot(c, s.key, s.mapInfo[holder]);
        && ready.vvTried == s.vvTried - {slot} && place in ready.vvNew && ready.vvNew[place] == holder
        && SameHistory(s.mapInfo[holder], ready.mapInfo[holder]) && !ready.mapInfo[holder].inTried
        && ready.mapInfo[holder].refCount == 1 && ready.key == s.key && ready.nIdCount == s.nIdCount
        && ready.collisions == s.collisions && ready.nLastGood == s.nLastGood
        && (forall x {:trigger Bystander(unlisted, ready, place, x)} ::
             x in s.mapInfo && x != holder ==> Bystander(unlisted, ready, place, x))
        && forall x :: x in ready.mapInfo ==> x in s.mapInfo
    ensures Promoted(c, s, PutTried(c, ready, id), id)
  {
    var t := PutTried(c, ready, id);
    if slot in s.vvTried {
      var place := HomeSlot(c, s.key, s.mapInfo[s.vvTried[slot]]);
      assert Bystander(unlisted, ready, place, id);
      assert t.vvTried == s.vvTried[slot := id];
      forall x | x in s.mapInfo && x != id
        ensures StaysPut(c, s, t, id, x)
      {
        if x != s.vvTried[slot] {
          assert Bystander(unlisted, ready, place, x);
        }
      }
    } else {
      forall x | x in s.mapInfo && x != id
        ensures StaysPut(c, s, t, id, x)
      {
      }
    }
  }

  // ----- Good_ -----

  /** The entry for exactly this service. */
  ghost predicate EntryFor(s: State, svc: Service, id: int) {
    svc.addr in s.mapAddr && s.mapAddr[svc.addr] == id && id in s.mapInfo && s.mapInfo[id].svc == svc
  }

  /** An entry with a success on record. */
  predicate Succeeded(a: Info, b: Info, time: int) {
    SameHistory(a.(lastSuccess := time, lastTry := time, attempts := 0), b)
  }

  /** What Good_ does to the entry it is about: it has succeeded; an entry of the tried table stays; a collision is
      recorded, if there is room, where the slot is taken and its holder is to be tested first; otherwise the entry is
      in its tried slot. */
  lemma {:induction false} GoodEffect(c: Config, s: State, svc: Service, test: bool, time: int, id: int)
    requires Sound(c, s) && time > 0 && EntryFor(s, svc, id)
    ensures var (t, slot) := (Good(c, s, svc, test, time), TriedSlot(c, s.key, svc));
      && t.nLastGood == time && id in t.mapInfo && Succeeded(s.mapInfo[id], t.mapInfo[id], time)
      && t.vvTried ==
        (if s.mapInfo[id].inTried || (test && slot in s.vvTried) then s.vvTried else s.vvTried[slot := id])
      && (t.mapInfo[id].inTried <==> s.mapInfo[id].inTried || !(test && slot in s.vvTried))
      && (t.collisions == if !s.mapInfo[id].inTried && test && slot in s.vvTried && |s.collisions| < 10
                          then s.collisions + {id} else s.collisions)
      && (s.mapInfo[id].inTried || (test && slot in s.vvTried) ==>
           t.vvNew == s.vvNew && t.mapInfo == s.mapInfo[id := t.mapInfo[id]])
      && (!s.mapInfo[id].inTried && !(test && slot in s.vvTried) ==>
           Promoted(c, WithInfo(s, id, MarkGood(s.mapInfo[id], time)), t.(nLastGood := s.nLastGood), id))
  {
    var s' := s.(nLastGood := time);
    ScalarsKeep(c, s, s', {}, 0);
    MarkGoodKeeps(c, s', id, time);
    if !s.mapInfo[id].inTried && !(test && TriedSlot(c, s.key, svc) in s.vvTried) {
      MakeTriedEffect(c, WithInfo(s', id, MarkGood(s.mapInfo[id], time)), id);
      var u, v := WithInfo(s', id, MarkGood(s.mapInfo[id], time)), WithInfo(s, id, MarkGood(s.mapInfo[id], time));
      PromotedScalars(c, u, v, Good(c, s, svc, test, time), id, s.nLastGood);
    }
  }

  lemma {:induction false} PromotedScalars(c: Config, u: State, v: State, t: State, id: int, last: int)
    requires ValidConfig(c) && id in u.mapInfo && v == u.(nLastGood := last) && Promoted(c, u, t, id)
    ensures Promoted(c, v, t.(nLastGood := last), id)
  {
    var t' := t.(nLastGood := last);
    forall x | x in v.mapInfo && x != id
      ensures StaysPut(c, v, t', id, x)
    {
      assert StaysPut(c, u, t, id, x);
    }
  }

  /** About any other service Good_ says nothing. */
  lemma {:induction false} GoodUnknown(c: Config, s: State, svc: Service, test: bool, time: int)
    requires Sound(c, s) && time > 0 && !exists id :: EntryFor(s, svc, id)
    ensures Good(c, s, svc, test, time) == s.(nLastGood := time)
  {
    if svc.addr in s.mapAddr {
      assert !EntryFor(s, svc, s.mapAddr[svc.addr]);
    }
  }

  // ----- Add_ -----

  /** An entry of good quality with its only reference keeps its slot against a newcomer. */
  ghost predicate HoldsGround(s: State, slot: Slot, now: int) {
    && slot in s.vvNew && s.vvNew[slot] in s.mapInfo
    && !IsTerrible(s.mapInfo[s.vvNew[slot]], now) && s.mapInfo[s.vvNew[slot]].refCount <= 1
  }

  ghost predicate AllStay(s: State, t: State) {
    && t.key == s.key && t.vvTried == s.vvTried && t.collisions == s.collisions && t.nLastGood == s.nLastGood
    && forall x :: x in s.mapInfo ==> x in t.mapInfo && SameEntryElsewhere(s.mapInfo[x], t.mapInfo[x])
  }

  /** The entry of an address heard of for the first time. */
  ghost predicate FirstHeard(i: Info, addr: Address, source: NetAddr, penalty: int) {
    && i.svc == addr.svc && i.services == addr.services && i.source == source
    && i.time == Max(0, if addr.svc.addr == source then addr.time else addr.time - penalty)
    && i.lastTry == i.lastSuccess == i.lastCountAttempt == i.attempts == 0 && !i.inTried && i.refCount == 1
  }

  ghost predicate Refused(s: State, t: State) {
    && t.nIdCount == s.nIdCount + 1 && t.mapInfo.Keys == s.mapInfo.Keys && t.vvNew == s.vvNew && AllStay(s, t)
  }

  ghost predicate Entered(s: State, t: State, addr: Address, source: NetAddr, penalty: int, slot: Slot) {
    var id := s.nIdCount;
    && t.nIdCount == id + 1 && t.vvTried == s.vvTried && t.collisions == s.collisions
    && id !in s.mapInfo && id in t.mapInfo && FirstHeard(t.mapInfo[id], addr, source, penalty)
    && (forall x :: x in t.mapInfo ==> x == id || x in s.mapInfo) && t.vvNew == s.vvNew[slot := id]
    && addr.svc.addr in t.mapAddr && t.mapAddr[addr.svc.addr] == id
    && (forall x {:trigger EmptiedAt(s, t, slot, x)} :: x in s.mapInfo ==> EmptiedAt(s, t, slot, x))
  }

  lemma {:induction false} PlaceRefused(c: Config, s: State, addr: Address, source: NetAddr, p: int, now: int)
    requires Sound(c, s) && s.nIdCount !in s.mapInfo && addr.svc.addr !in s.mapAddr
    requires HoldsGround(s, SlotFrom(c, s, addr.svc, source), now)
    requires Consistent(c, Introduced(s, addr, source, p), {s.nIdCount}, |{s.nIdCount}|)
    ensures Refused(s, Place(c, Introduced(s, addr, source, p), {s.nIdCount}, s.nIdCount, source, now))
  {
    var u := Introduced(s, addr, source, p);
    var slot := SlotFrom(c, s, addr.svc, source);
    assert NewAt(c, s, slot);
    DeleteEffect(u, s.nIdCount);
  }

  lemma {:induction false} PlaceEntered(
    c: Config, s: State, addr: Address, source: NetAddr, penalty: int, p: int, now: int, slot: Slot)
    requires Sound(c, s) && s.nIdCount !in s.mapInfo && addr.svc.addr !in s.mapAddr
    requires slot == SlotFrom(c, s, addr.svc, source) && !HoldsGround(s, slot, now)
    requires p == if addr.svc.addr == source then 0 else penalty
    requires Consistent(c, Introduced(s, addr, source, p), {s.nIdCount}, |{s.nIdCount}|)
    ensures Entered(
      s, Place(c, Introduced(s, addr, source, p), {s.nIdCount}, s.nIdCount, source, now), addr, source, penalty, slot)
  {
    var id, u := s.nIdCount, Introduced(s, addr, source, p);
    assert slot in s.vvNew ==> NewAt(c, s, slot) && NewOf(c, s, {}, s.vvNew[slot]);
    ClearNewKeeps(c, u, {id}, |{id}|, slot);
    ClearNewEffect(c, u, {id}, |{id}|, slot);
    var cleared := ClearNew(u, slot);
    assert EmptiedAt(u, cleared, slot, id);
    PlaceInserts(c, u, {id}, id, source, now, slot, cleared);
    assert AddrOf(cleared, id);
    RefEnters(s, addr, source, penalty, p, slot, cleared);
  }

  lemma {:induction false} RefEnters(
    s: State, addr: Address, source: NetAddr, penalty: int, p: int, slot: Slot, cleared: State)
    requires s.nIdCount !in s.mapInfo && s.nIdCount in cleared.mapInfo && AddrOf(cleared, s.nIdCount)
    requires (slot in s.vvNew ==> s.vvNew[slot] in s.mapInfo) && p == if addr.svc.addr == source then 0 else penalty
    requires Emptied(Introduced(s, addr, source, p), cleared, slot)
    ensures Entered(s, AddRef(cleared, s.nIdCount, slot), addr, source, penalty, slot)
  {
    var id, u, t := s.nIdCount, Introduced(s, addr, source, p), AddRef(cleared, s.nIdCount, slot);
    assert EmptiedAt(u, cleared, slot, id);
    forall x | x in s.mapInfo
      ensures EmptiedAt(s, t, slot, x)
    {
      assert EmptiedAt(u, cleared, slot, x);
    }
  }

  /** An unknown routable address gets an entry with one reference, at the slot that its source assigns, unless that
      slot is kept against it; whoever held the slot loses a reference. */
  lemma {:induction false} AddUnknownEffect(
    c: Config, s: State, addr: Address, source: NetAddr, penalty: int, now: int, rnd: nat)
    requires Sound(c, s) && c.routable(addr.svc.addr) && addr.svc.addr !in s.mapAddr
    ensures var (t, isNew) := Add(c, s, addr, source, penalty, now, rnd);
      var slot := SlotFrom(c, s, addr.svc, source);
      isNew && if HoldsGround(s, slot, now) then Refused(s, t) else Entered(s, t, addr, source, penalty, slot)
  {
    var p := if addr.svc.addr == source then 0 else penalty;
    KnownMeansMapped(s, addr.svc.addr);
    IntroducedKeeps(c, s, addr, source, p);
    var slot := SlotFrom(c, s, addr.svc, source);
    if HoldsGround(s, slot, now) {
      PlaceRefused(c, s, addr, source, p, now);
    } else {
      PlaceEntered(c, s, addr, source, penalty, p, now, slot);
    }
  }

  /** The entry of a known address that is heard of again: services are added, and its time follows in steps of an hour
      for an address that seems online and of a day for others. */
  ghost predicate HeardAgain(a: Info, b: Info, addr: Address, penalty: int, now: int) {
    && b == a.(time := b.time, services := a.services + addr.services)
    && var step := if now - addr.time < 24 * 60 * 60 then 60 * 60 else 24 * 60 * 60;
      b.time == if addr.time != 0 && (a.time == 0 || a.time < addr.time - step - penalty)
        then Max(0, addr.time - penalty) else a.time
  }

  /** A known entry may gain a reference if the news is newer than the entry, it is in the new table with fewer than
      eight references, and a draw succeeds that is twice as hard for each reference it has. */
  ghost predicate MayGain(i: Info, addr: Address, rnd: nat) {
    && addr.time != 0 && (i.time == 0 || i.time < addr.time) && !i.inTried && 0 <= i.refCount < 8
    && rnd % Pow2(i.refCount) == 0
  }

  /** The slot is free for `id`: empty, or held by another entry, of low quality. */
  ghost predicate FreeFor(s: State, slot: Slot, id: int, now: int) {
    slot !in s.vvNew || (s.vvNew[slot] != id && s.vvNew[slot] in s.mapInfo && IsTerrible(s.mapInfo[s.vvNew[slot]], now))
  }

  /** `id`, with the entry `i`, gained a reference at `slot`. */
  ghost predicate Gained(s: State, t: State, id: int, i: Info, slot: Slot) {
    && t.vvTried == s.vvTried && t.collisions == s.collisions && t.vvNew == s.vvNew[slot := id] && id in t.mapInfo
    && SameEntryElsewhere(i.(refCount := i.refCount + 1), t.mapInfo[id])
    && (forall x {:trigger EmptiedAt(s, t, slot, x)} :: x in s.mapInfo && x != id ==> EmptiedAt(s, t, slot, x))
  }

  lemma {:induction false} PlaceGains(c: Config, s: State, id: int, i: Info, source: NetAddr, now: int, slot: Slot)
    requires Sound(c, s) && id in s.mapInfo && Consistent(c, WithInfo(s, id, i), {}, 0) && FreeFor(s, slot, id, now)
    requires slot == SlotFrom(c, s, i.svc, source)
    ensures Gained(s, Place(c, WithInfo(s, id, i), {}, id, source, now), id, i, slot)
  {
    var u := WithInfo(s, id, i);
    assert slot in s.vvNew ==> NewAt(c, s, slot);
    ClearNewKeeps(c, u, {}, 0, slot);
    ClearNewEffect(c, u, {}, 0, slot);
    var cleared := ClearNew(u, slot);
    assert EmptiedAt(u, cleared, slot, id);
    PlaceInserts(c, u, {}, id, source, now, slot, cleared);
    RefGains(s, id, i, slot, cleared);
  }

  lemma {:induction false} RefGains(s: State, id: int, i: Info, slot: Slot, cleared: State)
    requires id in s.mapInfo && Emptied(WithInfo(s, id, i), cleared, slot) && id in cleared.mapInfo
    requires slot in s.vvNew ==> s.vvNew[slot] != id
    ensures Gained(s, AddRef(cleared, id, slot), id, i, slot)
  {
    var u, t := WithInfo(s, id, i), AddRef(cleared, id, slot);
    assert EmptiedAt(u, cleared, slot, id);
    forall x | x in s.mapInfo && x != id
      ensures EmptiedAt(s, t, slot, x)
    {
      assert EmptiedAt(u, cleared, slot, x);
    }
  }

  /** A known address keeps its entry, refreshed; it gains a reference at the slot that the source assigns exactly if it
      may and the slot is free for it. */
  lemma {:induction false} AddKnownEffect(
    c: Config, s: State, addr: Address, source: NetAddr, penalty: int, now: int, rnd: nat, id: int, i: Info)
    requires Sound(c, s) && c.routable(addr.svc.addr) && addr.svc.addr in s.mapAddr && id == s.mapAddr[addr.svc.addr]
    requires id in s.mapInfo
    requires HeardAgain(s.mapInfo[id], i, addr, if addr.svc.addr == source then 0 else penalty, now)
    ensures var (t, isNew) := Add(c, s, addr, source, penalty, now, rnd);
      var slot := SlotFrom(c, s, i.svc, source);
      !isNew && if MayGain(i, addr, rnd) && FreeFor(s, slot, id, now) then Gained(s, t, id, i, slot)
        else t == WithInfo(s, id, i)
  {
    var p := if addr.svc.addr == source then 0 else penalty;
    RefreshKeeps(c, s, id, addr, p, now);
    assert i == Refreshed(s.mapInfo[id], addr, p, now);
    var u, slot := WithInfo(s, id, i), SlotFrom(c, s, i.svc, source);
    assert NewOf(c, s, {}, id);
    assert slot in s.vvNew ==> NewAt(c, s, slot);
    if MayGain(i, addr, rnd) {
      assert !LeftAlone(i, addr, rnd);
      if FreeFor(s, slot, id, now) {
        PlaceGains(c, s, id, i, source, now, slot);
      }
    }
  }

  /** Other addresses are ignored. */
  lemma {:induction false} AddUnroutable(
    c: Config, s: State, addr: Address, source: NetAddr, penalty: int, now: int, rnd: nat)
    requires Sound(c, s) && !c.routable(addr.svc.addr)
    ensures Add(c, s, addr, source, penalty, now, rnd) == (s, false)
  {
  }

  // ----- Attempt_, Connected_, SetServices_ -----

  /** Of attempts between two successes of any peer only the first that fails is counted against an entry. */
  lemma {:induction false} AttemptsCountOnce(c: Config, s: State, svc: Service, id: int, time: int, later: int)
    requires EntryFor(s, svc, id) && time >= s.nLastGood
    ensures var t := Attempt(s, svc, true, time);
      && t == s.(mapInfo := t.mapInfo) && t.mapInfo.Keys == s.mapInfo.Keys
      && (forall x :: x in s.mapInfo && x != id ==> t.mapInfo[x] == s.mapInfo[x])
      && t.mapInfo[id].lastTry == time
      && t.mapInfo[id].attempts == s.mapInfo[id].attempts +
           (if s.mapInfo[id].lastCountAttempt < s.nLastGood then 1 else 0)
      && Attempt(t, svc, true, later).mapInfo[id] == t.mapInfo[id].(lastTry := later)
    ensures Attempt(s, svc, false, time) == WithInfo(s, id, s.mapInfo[id].(lastTry := time))
  {
  }

  /** The time of a connected peer follows the clock in steps of more than twenty minutes. */
  lemma {:induction false} ConnectedFollows(c: Config, s: State, svc: Service, id: int, time: int)
    requires EntryFor(s, svc, id)
    ensures var t := Connected(s, svc, time);
      && t == WithInfo(s, id, s.mapInfo[id].(time := t.mapInfo[id].time))
      && t.mapInfo[id].time == (if time > s.mapInfo[id].time + 1200 then time else s.mapInfo[id].time)
      && time - t.mapInfo[id].time <= 1200
  {
  }

  lemma {:induction false} ServicesSet(s: State, svc: Service, id: int, services: Services)
    requires EntryFor(s, svc, id)
    ensures SetServices(s, svc, services) == WithInfo(s, id, s.mapInfo[id].(services := services))
  {
  }

  /** None of them touches anything for a service that has no entry of its own. */
  lemma {:induction false} UpdatesIgnore(
    s: State, svc: Service, countFailure: bool, time: int, services: Services)
    requires !exists id :: EntryFor(s, svc, id)
    ensures Attempt(s, svc, countFailure, time) == s && Connected(s, svc, time) == s
    ensures SetServices(s, svc, services) == s
  {
    if svc.addr in s.mapAddr {
      assert !EntryFor(s, svc, s.mapAddr[svc.addr]);
    }
  }

  // ----- quality -----

  /** When an entry is of low quality: not within a minute of an attempt; otherwise if its time is in the future,
      unknown or more than thirty days past, if three attempts went without any success, or ten with none for a week. */
  lemma {:induction false} TerribleExactly(i: Info, now: int)
    ensures i.lastTry != 0 && now - i.lastTry <= 60 ==> !IsTerrible(i, now)
    ensures i.lastTry == 0 || now - i.lastTry > 60 ==>
      (IsTerrible(i, now) <==>
        || i.time - now > 600 || i.time == 0 || now - i.time > 2592000
        || (i.lastSuccess == 0 && i.attempts >= 3) || (i.attempts >= 10 && now - i.lastSuccess > 604800))
  {
  }

  // ----- GetAddr_ -----

  /** Every entry of good quality at the first `n` positions has been picked. */
  ghost predicate PickedAll(s: State, n: nat, now: int, ids: seq<int>)
    requires n <= |s.vRandom|
  {
    forall k {:trigger PickedOrPoor(s, now, ids, k)} :: 0 <= k < n ==> PickedOrPoor(s, now, ids, k)
  }

  ghost predicate PickedOrPoor(s: State, now: int, ids: seq<int>, k: nat)
    requires k < |s.vRandom|
  {
    s.vRandom[k] in s.mapInfo && (IsTerrible(s.mapInfo[s.vRandom[k]], now) || s.vRandom[k] in ids)
  }

  lemma {:induction false} PickedAllStep(s: State, n: nat, pos: nat, now: int, ids: seq<int>, t: State)
    requires RandomConsistent(s) && n <= pos < |s.vRandom| && PickedAll(s, n, now, ids)
    requires s.vRandom[n] in s.mapInfo && s.vRandom[pos] in s.mapInfo && t == SwapRandom(s, n, pos)
    ensures |t.vRandom| == |s.vRandom| && t.vRandom[n] in t.mapInfo && PickedAll(t, n + 1, now, Gather(t, n, now, ids))
  {
    var r := Gather(t, n, now, ids);
    forall k | 0 <= k < n + 1
      ensures PickedOrPoor(t, now, r, k)
    {
      if k < n {
        assert PickedOrPoor(s, now, ids, k);
      }
    }
  }

  lemma {:induction false} GetAddrFromCovers(
    c: Config, s: State, n: nat, limit: nat, now: int, rand: nat -> nat, ids: seq<int>)
    returns (t: State, r: seq<int>)
    requires Consistent(c, s, {}, 0) && n <= |s.vRandom| && PickedBelow(s, n, now, ids) && PickedAll(s, n, now, ids)
    ensures (t, r) == GetAddrFrom(s, n, limit, now, rand, ids)
    ensures SameButOrder(s, t) && RandomConsistent(t)
    ensures |r| < limit ==> PickedAll(t, |t.vRandom|, now, r)
    decreases |s.vRandom| - n
  {
    t, r := s, ids;
    if n < |s.vRandom| && |ids| < limit {
      var pos := DrawPosition(rand, n, |s.vRandom|);
      assert RandomAt(s, n) && RandomAt(s, pos);
      GetAddrStep(c, s, n, now, pos, ids);
      var u := SwapRandom(s, n, pos);
      PickedAllStep(s, n, pos, now, ids, u);
      GetAddrUnfold(s, n, limit, now, rand, ids, u);
      t, r := GetAddrFromCovers(c, u, n + 1, limit, now, rand, Gather(u, n, now, ids));
      SameButOrderTransitive(s, u, t);
    }
  }

  /** The answer holds 23 percent of the entries and at most 2500; if fewer, every entry of good quality is in it. */
  lemma {:induction false} GetAddrCovers(c: Config, s: State, now: int, rand: nat -> nat)
    requires Sound(c, s)
    ensures var ids := GetAddr(s, now, rand).1;
      && |ids| <= 2500 && 100 * |ids| <= 23 * |s.vRandom|
      && (|ids| < 2500 && |ids| < 23 * |s.vRandom| / 100 ==>
           forall id :: id in s.mapInfo && !IsTerrible(s.mapInfo[id], now) ==> id in ids)
  {
    GetAddrSound(c, s, now, rand);
    var t, ids := GetAddrFromCovers(c, s, 0, GetAddrLimit(|s.vRandom|), now, rand, []);
    if |ids| < 2500 && |ids| < 23 * |s.vRandom| / 100 {
      forall id | id in s.mapInfo && !IsTerrible(s.mapInfo[id], now)
        ensures id in ids
      {
        assert MovedOnly(s, t, id) && RandomOf(t, id);
        assert PickedOrPoor(t, now, ids, t.mapInfo[id].randomPos);
      }
    }
  }

  lemma {:induction false} PicksStay(
    c: Config, s: State, n: nat, limit: nat, now: int, rand: nat -> nat, ids: seq<int>)
    requires Consistent(c, s, {}, 0) && n <= |s.vRandom| && PickedBelow(s, n, now, ids)
    ensures ids <= GetAddrFrom(s, n, limit, now, rand, ids).1
    decreases |s.vRandom| - n
  {
    if n < |s.vRandom| && |ids| < limit {
      var pos := DrawPosition(rand, n, |s.vRandom|);
      assert RandomAt(s, n) && RandomAt(s, pos);
      GetAddrStep(c, s, n, now, pos, ids);
      var u := SwapRandom(s, n, pos);
      GetAddrUnfold(s, n, limit, now, rand, ids, u);
      PicksStay(c, u, n + 1, limit, now, rand, Gather(u, n, now, ids));
    }
  }

  lemma {:induction false} FirstGathered(c: Config, s: State, now: int, pos: nat, id: int, u: State)
    requires Sound(c, s) && pos < |s.vRandom| && id == s.vRandom[pos] && id in s.mapInfo && s.vRandom[0] in s.mapInfo
    requires u == SwapRandom(s, 0, pos)
    ensures u.vRandom != [] && u.vRandom[0] == id && id in u.mapInfo
    ensures !IsTerrible(s.mapInfo[id], now) ==> Gather(u, 0, now, []) == [id]
  {
    if pos != 0 {
      SwapEntries(s, 0, pos);
    }
  }

  /** The first pick is drawn from all positions alike: it is the entry at the first random number modulo their count,
      unless that is of low quality. */
  lemma {:induction false} FirstPick(c: Config, s: State, now: int, rand: nat -> nat, id: int)
    requires Sound(c, s) && |s.vRandom| >= 5 && id == s.vRandom[rand(0) % |s.vRandom|]
    ensures id in s.mapInfo
    ensures !IsTerrible(s.mapInfo[id], now) ==> [id] <= GetAddr(s, now, rand).1
  {
    var size := |s.vRandom|;
    var pos := DrawPosition(rand, 0, size);
    assert RandomAt(s, 0) && RandomAt(s, pos);
    var u := SwapRandom(s, 0, pos);
    FirstGathered(c, s, now, pos, id, u);
    if !IsTerrible(s.mapInfo[id], now) {
      GetAddrStep(c, s, 0, now, pos, []);
      GetAddrUnfold(s, 0, GetAddrLimit(size), now, rand, [], u);
      PicksStay(c, u, 1, GetAddrLimit(size), now, rand, [id]);
    }
  }
}
