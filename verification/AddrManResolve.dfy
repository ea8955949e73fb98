/** What ResolveCollisions_ does: when a tried entry gives way, and to whom. */
module AddrManResolve {
  import opened AddrManModel
  import opened AddrManOps
  import opened AddrManEffects

  /** A holder gives way if it has not succeeded for four hours, and either failed an attempt of more than a minute ago
      but less than four hours, or has not been tried at all for that long while the newcomer has waited for more than
      forty minutes. */
  predicate GivesWay(holder: Info, newcomer: Info, now: int) {
    && now - holder.lastSuccess >= 4 * 60 * 60
    && if now - holder.lastTry < 4 * 60 * 60 then now - holder.lastTry > 60
       else now - newcomer.lastSuccess > 40 * 60
  }

  /** It is yet to be tested if it has not succeeded for four hours, and its attempt is still under way or has not been
      made while the newcomer can wait. */
  predicate Untested(holder: Info, newcomer: Info, now: int) {
    && now - holder.lastSuccess >= 4 * 60 * 60
    && if now - holder.lastTry < 4 * 60 * 60 then now - holder.lastTry <= 60
       else now - newcomer.lastSuccess <= 40 * 60
  }

  /** The tried slot of an entry. */
  function SlotOf(c: Config, s: State, id: int): Slot
    requires ValidConfig(c) && id in s.mapInfo
  {
    TriedSlot(c, s.key, s.mapInfo[id].svc)
  }

  ghost predicate Live(c: Config, s: State, id: int) {
    id in s.mapInfo && c.valid(s.mapInfo[id].svc)
  }

  ghost predicate Taken(c: Config, s: State, id: int)
    requires ValidConfig(c) && id in s.mapInfo
  {
    SlotOf(c, s, id) in s.vvTried && s.vvTried[SlotOf(c, s, id)] in s.mapInfo
  }

  ghost function HolderOf(c: Config, s: State, id: int): Info
    requires ValidConfig(c) && id in s.mapInfo && Taken(c, s, id)
  {
    s.mapInfo[s.vvTried[SlotOf(c, s, id)]]
  }

  /** The entry is to be put in its tried slot. */
  ghost predicate ToPromote(c: Config, s: State, id: int, now: int)
    requires ValidConfig(c)
  {
    Live(c, s, id) && (Taken(c, s, id) ==> GivesWay(HolderOf(c, s, id), s.mapInfo[id], now))
  }

  /** The collision is to stay on record. */
  ghost predicate ToWait(c: Config, s: State, id: int, now: int)
    requires ValidConfig(c)
  {
    Live(c, s, id) && Taken(c, s, id) && Untested(HolderOf(c, s, id), s.mapInfo[id], now)
  }

  lemma {:induction false} SlotTaken(c: Config, s: State, id: int)
    requires Sound(c, s) && id in s.mapInfo
    ensures Taken(c, s, id) <==> SlotOf(c, s, id) in s.vvTried
  {
    if SlotOf(c, s, id) in s.vvTried {
      assert TriedAt(c, s, SlotOf(c, s, id));
    }
  }

  /** One recorded collision. */
  lemma {:induction false} ResolveOneEffect(c: Config, s: State, id: int, now: int)
    requires Sound(c, s) && now > 0
    ensures var t := ResolveOne(c, s, id, now);
      && t.collisions == (if ToWait(c, s, id, now) then s.collisions else s.collisions - {id})
      && (!ToPromote(c, s, id, now) ==> t == s.(collisions := t.collisions))
      && (ToPromote(c, s, id, now) ==>
           && t.key == s.key && t.vvTried == s.vvTried[SlotOf(c, s, id) := id]
           && id in t.mapInfo && Succeeded(s.mapInfo[id], t.mapInfo[id], now) && t.mapInfo[id].inTried)
      && (forall x :: x in t.mapInfo && x != id ==> x in s.mapInfo && SameHistory(s.mapInfo[x], t.mapInfo[x]))
  {
    if id in s.mapInfo {
      SlotTaken(c, s, id);
      if ToPromote(c, s, id, now) {
        PromoteEffect(c, s, id, now);
      }
    }
  }

  lemma {:induction false} PromoteEffect(c: Config, s: State, id: int, now: int)
    requires Sound(c, s) && now > 0 && id in s.mapInfo
    ensures var (svc, slot) := (s.mapInfo[id].svc, SlotOf(c, s, id));
      var t := Good(c, s, svc, false, now);
      && t.key == s.key && t.collisions == s.collisions && t.vvTried == s.vvTried[slot := id]
      && id in t.mapInfo && Succeeded(s.mapInfo[id], t.mapInfo[id], now) && t.mapInfo[id].inTried
      && (forall x :: x in t.mapInfo && x != id ==> x in s.mapInfo && SameHistory(s.mapInfo[x], t.mapInfo[x]))
  {
    var svc := s.mapInfo[id].svc;
    assert AddrOf(s, id);
    GoodEffect(c, s, svc, false, now, id);
    GoodKeeps(c, s, svc, false, now);
    var t := Good(c, s, svc, false, now);
    if s.mapInfo[id].inTried {
      assert TriedOf(c, s, id);
    } else {
      var u := WithInfo(s, id, MarkGood(s.mapInfo[id], now));
      forall x | x in t.mapInfo && x != id
        ensures x in s.mapInfo && SameHistory(s.mapInfo[x], t.mapInfo[x])
      {
        assert x in u.mapInfo;
        assert StaysPut(c, u, t.(nLastGood := s.nLastGood), id, x);
      }
    }
  }

  // ----- all of them -----

  /** Slot by slot: the holder is the one there was, or a newcomer in whose favour it had to give way. */
  ghost predicate Settled(c: Config, s: State, t: State, done: set<int>, now: int, slot: Slot)
    requires ValidConfig(c) && slot in t.vvTried
  {
    var id := t.vvTried[slot];
    if slot in s.vvTried && s.vvTried[slot] == id then
      && id in s.mapInfo && id in t.mapInfo
      && (SameHistory(s.mapInfo[id], t.mapInfo[id]) || (id in done && t.mapInfo[id].lastSuccess == now))
    else
      && id in done && ToPromote(c, s, id, now) && SlotOf(c, s, id) == slot
      && id in t.mapInfo && t.mapInfo[id].inTried && t.mapInfo[id].lastSuccess == now
  }

  /** A collision that has been dealt with. */
  ghost predicate Dealt(c: Config, s: State, t: State, now: int, id: int)
    requires ValidConfig(c)
  {
    && (id in t.collisions ==> ToWait(c, s, id, now))
    && (ToWait(c, s, id, now) && id in t.mapInfo && HolderStays(c, s, t, id) ==> id in t.collisions)
    && (ToPromote(c, s, id, now) && id in t.mapInfo ==> !HolderStays(c, s, t, id))
  }

  /** The slot has the holder it had, which was not itself up for judgement. */
  ghost predicate HolderStays(c: Config, s: State, t: State, id: int)
    requires ValidConfig(c) && id in s.mapInfo
  {
    var slot := SlotOf(c, s, id);
    && (slot in t.vvTried <==> slot in s.vvTried)
    && (slot in s.vvTried ==> t.vvTried[slot] == s.vvTried[slot] && s.vvTried[slot] !in s.collisions)
  }

  ghost predicate Resolving(c: Config, s: State, t: State, done: set<int>, now: int) {
    && ValidConfig(c) && t.key == s.key && done <= s.collisions && s.vvTried.Keys <= t.vvTried.Keys
    && (forall slot {:trigger Settled(c, s, t, done, now, slot)} ::
         slot in t.vvTried ==> Settled(c, s, t, done, now, slot))
    && (forall x :: x in t.mapInfo ==> x in s.mapInfo && (x !in done ==> SameHistory(s.mapInfo[x], t.mapInfo[x])))
    && (forall x {:trigger Dealt(c, s, t, now, x)} :: x in done ==> Dealt(c, s, t, now, x))
    && t.collisions <= s.collisions && s.collisions - done <= t.collisions
  }

  lemma {:induction false} ResolvingStarts(c: Config, s: State, now: int)
    requires Sound(c, s)
    ensures Resolving(c, s, s, {}, now)
  {
    forall slot | slot in s.vvTried
      ensures Settled(c, s, s, {}, now, slot)
    {
      assert TriedAt(c, s, slot);
    }
  }

  /** Whoever may give way now is the holder there was at first, in the same state. */
  lemma {:induction false} SameContest(c: Config, s: State, t: State, done: set<int>, now: int, id: int)
    requires Sound(c, s) && Sound(c, t) && Resolving(c, s, t, done, now) && id !in done && id in t.mapInfo
    ensures id in s.mapInfo && SlotOf(c, s, id) == SlotOf(c, t, id)
    ensures ToPromote(c, t, id, now) ==> ToPromote(c, s, id, now)
    ensures ToWait(c, t, id, now) ==> ToWait(c, s, id, now)
    ensures HolderStays(c, s, t, id) ==>
      (ToPromote(c, s, id, now) ==> ToPromote(c, t, id, now)) && (ToWait(c, s, id, now) ==> ToWait(c, t, id, now))
  {
    var slot := SlotOf(c, t, id);
    SlotTaken(c, t, id);
    SlotTaken(c, s, id);
    if slot in t.vvTried {
      assert Settled(c, s, t, done, now, slot);
    }
  }

  /** A promotion settles its slot and leaves the others alone. */
  lemma {:induction false} PromotionSettles(
    c: Config, s: State, t: State, u: State, done: set<int>, now: int, id: int, slot: Slot)
    requires Sound(c, s) && Sound(c, t) && Resolving(c, s, t, done, now) && id !in done && id in t.mapInfo
    requires ToPromote(c, t, id, now) && u.vvTried == t.vvTried[SlotOf(c, t, id) := id] && slot in u.vvTried
    requires id in u.mapInfo && Succeeded(t.mapInfo[id], u.mapInfo[id], now) && u.mapInfo[id].inTried
    requires forall x :: x in u.mapInfo && x != id ==> x in t.mapInfo && SameHistory(t.mapInfo[x], u.mapInfo[x])
    requires Sound(c, u)
    ensures Settled(c, s, u, done + {id}, now, slot)
  {
    SameContest(c, s, t, done, now, id);
    if slot != SlotOf(c, t, id) {
      assert Settled(c, s, t, done, now, slot);
      assert TriedAt(c, u, slot);
    }
  }

  /** Where a slot has its first holder later, it has it now. */
  lemma {:induction false} HolderStayed(c: Config, s: State, t: State, u: State, id: int, slot: Slot, x: int)
    requires ValidConfig(c) && x in s.mapInfo && HolderStays(c, s, u, x) && s.vvTried.Keys <= t.vvTried.Keys
    requires u.vvTried == t.vvTried || u.vvTried == t.vvTried[slot := id]
    requires id in s.collisions
    ensures HolderStays(c, s, t, x)
  {
  }

  /** `u` follows `t` when the collision of `id` has been judged. */
  ghost predicate Judged(c: Config, t: State, u: State, id: int, now: int)
    requires ValidConfig(c)
  {
    && u.key == t.key
    && u.collisions == (if ToWait(c, t, id, now) then t.collisions else t.collisions - {id})
    && (!ToPromote(c, t, id, now) ==> u == t.(collisions := u.collisions))
    && (ToPromote(c, t, id, now) ==>
         && u.vvTried == t.vvTried[SlotOf(c, t, id) := id]
         && id in u.mapInfo && Succeeded(t.mapInfo[id], u.mapInfo[id], now) && u.mapInfo[id].inTried)
    && (forall x :: x in u.mapInfo && x != id ==> x in t.mapInfo && SameHistory(t.mapInfo[x], u.mapInfo[x]))
  }

  lemma {:induction false} StillDealt(
    c: Config, s: State, t: State, u: State, done: set<int>, now: int, id: int, x: int)
    requires Resolving(c, s, t, done, now) && id !in done && x in done && id in s.collisions && Judged(c, t, u, id, now)
    ensures Dealt(c, s, u, now, x)
  {
    assert Dealt(c, s, t, now, x);
    if x in s.mapInfo && HolderStays(c, s, u, x) {
      HolderStayed(c, s, t, u, id, if id in t.mapInfo then SlotOf(c, t, id) else Slot(0, 0), x);
    }
  }

  lemma {:induction false} NowDealt(c: Config, s: State, t: State, u: State, done: set<int>, now: int, id: int)
    requires Sound(c, s) && Sound(c, t) && Resolving(c, s, t, done, now) && id !in done && id in s.collisions
    requires Judged(c, t, u, id, now)
    ensures Dealt(c, s, u, now, id)
  {
    if id in t.mapInfo {
      SameContest(c, s, t, done, now, id);
      if HolderStays(c, s, u, id) {
        HolderStayed(c, s, t, u, id, SlotOf(c, t, id), id);
      }
    }
  }

  lemma {:induction false} SlotsSettle(c: Config, s: State, t: State, u: State, done: set<int>, now: int, id: int)
    requires Sound(c, s) && Sound(c, t) && Sound(c, u) && Resolving(c, s, t, done, now) && id !in done
    requires Judged(c, t, u, id, now)
    ensures forall slot {:trigger Settled(c, s, u, done + {id}, now, slot)} ::
      slot in u.vvTried ==> Settled(c, s, u, done + {id}, now, slot)
  {
    forall slot | slot in u.vvTried
      ensures Settled(c, s, u, done + {id}, now, slot)
    {
      if ToPromote(c, t, id, now) {
        PromotionSettles(c, s, t, u, done, now, id, slot);
      } else {
        assert Settled(c, s, t, done, now, slot);
      }
    }
  }

  lemma {:induction false} ResolvingStep(c: Config, s: State, t: State, u: State, done: set<int>, now: int, id: int)
    requires Sound(c, s) && Sound(c, t) && Sound(c, u) && Resolving(c, s, t, done, now)
    requires id !in done && id in s.collisions && Judged(c, t, u, id, now)
    ensures Resolving(c, s, u, done + {id}, now)
  {
    SlotsSettle(c, s, t, u, done, now, id);
    NowDealt(c, s, t, u, done, now, id);
    forall x | x in done
      ensures Dealt(c, s, u, now, x)
    {
      StillDealt(c, s, t, u, done, now, id, x);
    }
  }

  lemma {:induction false} ResolvingRun(c: Config, s: State, t: State, todo: set<int>, now: int)
    requires Sound(c, s) && Sound(c, t) && now > 0 && todo <= s.collisions
    requires Resolving(c, s, t, s.collisions - todo, now)
    ensures Resolving(c, s, Resolve(c, t, todo, now), s.collisions, now)
    decreases |todo|
  {
    if todo == {} {
      assert s.collisions - todo == s.collisions;
    } else {
      var id := Least(todo);
      ResolveOneKeeps(c, t, id, now);
      ResolveOneEffect(c, t, id, now);
      var u := ResolveOne(c, t, id, now);
      ResolvingStep(c, s, t, u, s.collisions - todo, now, id);
      assert s.collisions - todo + {id} == s.collisions - (todo - {id});
      ResolvingRun(c, s, u, todo - {id}, now);
    }
  }

  /**
   * ResolveCollisions_ as a whole. A tried slot changes its holder only in favour of a recorded collision that is live
   * and valid, and only if the holder had to give way to it; the newcomer is then in the tried table. A collision stays
   * on record only if its holder is yet to be tested, and does so unless the entry was deleted or the slot settled
   * meanwhile. A holder that has to give way does.
   */
  lemma {:induction false} ResolveEffect(c: Config, s: State, now: int)
    requires Sound(c, s) && now > 0
    ensures var t := Resolve(c, s, s.collisions, now);
      && (forall slot :: slot in t.vvTried && !(slot in s.vvTried && s.vvTried[slot] == t.vvTried[slot]) ==>
           var id := t.vvTried[slot];
           && id in s.collisions && ToPromote(c, s, id, now) && SlotOf(c, s, id) == slot
           && id in t.mapInfo && t.mapInfo[id].inTried && t.mapInfo[id].lastSuccess == now)
      && t.collisions <= s.collisions
      && (forall id :: id in t.collisions ==> ToWait(c, s, id, now))
      && (forall id :: id in s.collisions && id in t.mapInfo && id in s.mapInfo && HolderStays(c, s, t, id) ==>
           (id in t.collisions <==> ToWait(c, s, id, now)) && !ToPromote(c, s, id, now))
  {
    ResolvingStarts(c, s, now);
    assert s.collisions - s.collisions == {};
    ResolvingRun(c, s, s, s.collisions, now);
    var t := Resolve(c, s, s.collisions, now);
    forall slot | slot in t.vvTried
      ensures Settled(c, s, t, s.collisions, now, slot)
    {
    }
    forall id | id in s.collisions
      ensures Dealt(c, s, t, now, id)
    {
    }
  }
}
