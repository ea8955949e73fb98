/** What Clear leaves behind: collisions recorded before it make a later lookup break the tables. */
module AddrManClear {
  import opened Collections
  import opened Numbers
  import opened AddrManModel
  import opened AddrManSteps
  import opened AddrManOps

  // ----- adding addresses to a cleared manager -----

  const HORIZON := HORIZON_DAYS * 24 * 60 * 60

  /** Distinct routable addresses, all of which look out of date at time `now`. */
  ghost predicate Supply(c: Config, addrs: seq<Address>, now: int) {
    && now > HORIZON
    && (forall i {:trigger addrs[i]} :: 0 <= i < |addrs| ==>
         c.routable(addrs[i].svc.addr) && now - addrs[i].time > HORIZON)
    && (forall i, j :: 0 <= i < j < |addrs| ==> addrs[i].svc.addr != addrs[j].svc.addr)
  }

  ghost predicate EntryFrom(s: State, addrs: seq<Address>, id: int)
    requires id in s.mapInfo
  {
    && 0 <= id < |addrs|
    && s.mapInfo[id].svc == addrs[id].svc && s.mapInfo[id].lastTry == 0 && s.mapInfo[id].time == Max(0, addrs[id].time)
  }

  /** The first `k` addresses have been added; the last of them is there, and nothing has been tried. */
  ghost predicate Filled(c: Config, s: State, addrs: seq<Address>, k: nat, collisions: set<int>) {
    && Sound(c, s) && s.nIdCount == k <= |addrs| && s.vvTried == map[] && s.collisions == collisions
    && (k > 0 ==> k - 1 in s.mapInfo)
    && forall id {:trigger EntryFrom(s, addrs, id)} :: id in s.mapInfo ==> EntryFrom(s, addrs, id)
  }

  lemma {:induction false} NextUnknown(c: Config, s: State, addrs: seq<Address>, k: nat, collisions: set<int>, now: int)
    requires Filled(c, s, addrs, k, collisions) && Supply(c, addrs, now) && k < |addrs|
    ensures addrs[k].svc.addr !in s.mapAddr
  {
    forall x | x in s.mapAddr
      ensures x != addrs[k].svc.addr
    {
      assert AddrAt(s, x);
      var id := s.mapAddr[x];
      assert EntryFrom(s, addrs, id) && InfoSane(s, id);
      assert addrs[id].svc.addr != addrs[k].svc.addr;
    }
  }

  lemma {:induction false} OldEntriesYield(
    c: Config, s: State, addrs: seq<Address>, k: nat, collisions: set<int>, now: int, id: int)
    requires Filled(c, s, addrs, k, collisions) && Supply(c, addrs, now) && id in s.mapInfo
    ensures IsTerrible(s.mapInfo[id], now)
  {
    assert EntryFrom(s, addrs, id);
  }

  /** A new address takes its slot, whatever out-of-date entry is in it. */
  lemma {:induction false} FreshIsPlaced(c: Config, u: State, id: int, source: NetAddr, now: int)
    requires Consistent(c, u, {id}, |{id}|) && id in u.mapInfo
    requires forall x {:trigger IsTerrible(u.mapInfo[x], now)} :: x in u.mapInfo && x != id ==>
      IsTerrible(u.mapInfo[x], now)
    ensures var t := Place(c, u, {id}, id, source, now); id in t.mapInfo && OnlyThinned(u, t)
  {
    PlaceThins(c, u, {id}, id, source, now);
    var info := u.mapInfo[id];
    var slot := NewSlot(c, u.key, info.svc, NewBucket(c, u.key, info.svc, source));
    assert slot in u.vvNew ==> NewAt(c, u, slot);
    assert NewOf(c, u, {id}, id);
    if slot in u.vvNew && u.vvNew[slot] == id {
      assert slot.bucket in Refs(c, u.key, u.vvNew, info.svc, id);
    } else {
      ClearNewThins(c, u, {id}, |{id}|, slot, id);
      PlaceInserts(c, u, {id}, id, source, now, slot, ClearNew(u, slot));
    }
  }

  lemma {:induction false} IntroducedFilled(c: Config, s: State, addrs: seq<Address>, k: nat, source: NetAddr, id: int)
    requires k < |addrs| && s.nIdCount == k && id in Introduced(s, addrs[k], source, 0).mapInfo
    requires forall x {:trigger EntryFrom(s, addrs, x)} :: x in s.mapInfo ==> EntryFrom(s, addrs, x)
    ensures EntryFrom(Introduced(s, addrs[k], source, 0), addrs, id)
  {
    assert id in s.mapInfo ==> EntryFrom(s, addrs, id);
  }

  /** Adding the next address fills in the next id. */
  lemma {:induction false} AddFills(
    c: Config, s: State, addrs: seq<Address>, k: nat, collisions: set<int>, source: NetAddr, now: int)
    requires Filled(c, s, addrs, k, collisions) && Supply(c, addrs, now) && k < |addrs|
    ensures Filled(c, Add(c, s, addrs[k], source, 0, now, 0).0, addrs, k + 1, collisions)
  {
    var t := Add(c, s, addrs[k], source, 0, now, 0).0;
    AddKeeps(c, s, addrs[k], source, 0, now, 0);
    NextUnknown(c, s, addrs, k, collisions, now);
    KnownMeansMapped(s, addrs[k].svc.addr);
    IntroducedKeeps(c, s, addrs[k], source, 0);
    var u := Introduced(s, addrs[k], source, 0);
    forall x | x in u.mapInfo && x != k
      ensures IsTerrible(u.mapInfo[x], now)
    {
      OldEntriesYield(c, s, addrs, k, collisions, now, x);
    }
    FreshIsPlaced(c, u, k, source, now);
    forall id | id in t.mapInfo
      ensures EntryFrom(t, addrs, id)
    {
      assert Survivor(u, t, id);
      IntroducedFilled(c, s, addrs, k, source, id);
    }
  }

  /** Runs grow by one step. */
  lemma {:induction false} RunGrows(c: Config, states: seq<State>, ops: seq<Op>, op: Op, t: State)
    requires IsRun(c, states, ops) && Permitted(states[|ops|], op)
    requires Sound(c, states[|ops|]) ==> t == Apply(c, states[|ops|], op)
    ensures IsRun(c, states + [t], ops + [op])
  {
    var states', ops' := states + [t], ops + [op];
    forall i | 0 <= i < |ops'|
      ensures RunStep(c, states', ops', i)
    {
      assert i < |ops| ==> RunStep(c, states, ops, i);
    }
  }

  lemma {:induction false} Extended(c: Config, states: seq<State>, ops: seq<Op>, op: Op)
    returns (states': seq<State>, ops': seq<Op>)
    requires IsRun(c, states, ops) && Sound(c, states[|ops|]) && Permitted(states[|ops|], op)
    ensures IsRun(c, states', ops') && |ops'| == |ops| + 1 && states'[0] == states[0]
    ensures states'[|ops'|] == Apply(c, states[|ops|], op)
  {
    var t := Apply(c, states[|ops|], op);
    RunGrows(c, states, ops, op, t);
    states', ops' := states + [t], ops + [op];
  }

  lemma {:induction false} FillingRun(
    c: Config, key: nat, collisions: set<int>, addrs: seq<Address>, source: NetAddr, now: int, k: nat)
    returns (states: seq<State>, ops: seq<Op>)
    requires ValidConfig(c) && Supply(c, addrs, now) && k <= |addrs|
    ensures |ops| == k && IsRun(c, states, ops) && states[0] == Cleared(key, collisions)
    ensures Filled(c, states[k], addrs, k, collisions)
  {
    if k == 0 {
      states, ops := [Cleared(key, collisions)], [];
      ClearedConsistent(c, key, collisions);
    } else {
      states, ops := FillingRun(c, key, collisions, addrs, source, now, k - 1);
      var s := states[k - 1];
      AddFills(c, s, addrs, k - 1, collisions, source, now);
      states, ops := Extended(c, states, ops, OpAdd(addrs[k - 1], source, 0, now, 0));
    }
  }

  // ----- a run that records a collision -----

  /** Two services compete for one tried slot, but not for one new slot. */
  ghost predicate Rivals(c: Config, key: nat, a: Service, b: Service, source: NetAddr)
    requires ValidConfig(c)
  {
    TriedSlot(c, key, a) == TriedSlot(c, key, b)
    && NewSlot(c, key, a, NewBucket(c, key, a, source)) != NewSlot(c, key, b, NewBucket(c, key, b, source))
  }

  /** An address added to an empty manager stands in its slot. */
  lemma {:induction false} AddFirst(c: Config, key: nat, a: Address, source: NetAddr, now: int)
    requires ValidConfig(c) && c.routable(a.svc.addr)
    ensures Sound(c, Cleared(key, {}))
    ensures var t := Add(c, Cleared(key, {}), a, source, 0, now, 0).0;
      t.mapInfo.Keys == {0} && t.mapInfo[0].svc == a.svc && t.mapAddr.Keys == {a.svc.addr} && t.nIdCount == 1
      && t.key == key && t.vvTried == map[] && t.collisions == {}
      && t.vvNew == map[NewSlot(c, key, a.svc, NewBucket(c, key, a.svc, source)) := 0]
  {
    var s := Cleared(key, {});
    ClearedConsistent(c, key, {});
    IntroducedKeeps(c, s, a, source, 0);
    PlaceInserts(c, Introduced(s, a, source, 0), {0}, 0, source, now,
      NewSlot(c, key, a.svc, NewBucket(c, key, a.svc, source)), Introduced(s, a, source, 0));
  }

  /** A rival added next stands beside it. */
  lemma {:induction false} AddSecond(c: Config, s: State, a: Address, b: Address, source: NetAddr, now: int)
    requires Sound(c, s) && c.routable(b.svc.addr) && a.svc.addr != b.svc.addr && Rivals(c, s.key, a.svc, b.svc, source)
    requires s.mapInfo.Keys == {0} && s.mapInfo[0].svc == a.svc && s.mapAddr.Keys == {a.svc.addr} && s.nIdCount == 1
    requires s.vvTried == map[] && s.collisions == {}
    requires s.vvNew == map[NewSlot(c, s.key, a.svc, NewBucket(c, s.key, a.svc, source)) := 0]
    ensures var t := Add(c, s, b, source, 0, now, 0).0;
      t.mapInfo.Keys == {0, 1} && t.mapInfo[0].svc == a.svc && t.mapInfo[1].svc == b.svc
      && t.key == s.key && t.vvTried == map[] && t.collisions == {}
  {
    IntroducedKeeps(c, s, b, source, 0);
    var u := Introduced(s, b, source, 0);
    PlaceInserts(c, u, {1}, 1, source, now, NewSlot(c, s.key, b.svc, NewBucket(c, s.key, b.svc, source)), u);
  }

  /** Both present and neither tried: hearing that the second and then the first is good records the first. */
  lemma {:induction false} GoodRecords(c: Config, s: State, a: Service, b: Service, time: int)
    requires Sound(c, s) && time > 0 && a != b && TriedSlot(c, s.key, a) == TriedSlot(c, s.key, b)
    requires s.mapInfo.Keys == {0, 1} && s.mapInfo[0].svc == a && s.mapInfo[1].svc == b
    requires s.vvTried == map[] && s.collisions == {}
    ensures Sound(c, Good(c, s, b, true, time)) && Good(c, Good(c, s, b, true, time), a, true, time).collisions == {0}
  {
    GoodKeeps(c, s, b, true, time);
    ScalarsKeep(c, s, s.(nLastGood := time), {}, 0);
    assert AddrOf(s, 1) && TriedOf(c, s, 0) && TriedOf(c, s, 1);
    FirstPromoted(c, s.(nLastGood := time), 1, time);
    RivalRecorded(c, Good(c, s, b, true, time), a, time);
  }

  lemma {:induction false} RivalRecorded(c: Config, t: State, a: Service, time: int)
    requires Sound(c, t) && time > 0 && 0 in t.mapInfo && t.mapInfo[0].svc == a && !t.mapInfo[0].inTried
    requires TriedSlot(c, t.key, a) in t.vvTried && t.collisions == {}
    ensures Good(c, t, a, true, time).collisions == {0}
  {
    assert AddrOf(t, 0);
  }

  lemma {:induction false} FirstPromoted(c: Config, s: State, id: int, time: int)
    requires Consistent(c, s, {}, 0) && id in s.mapInfo && !s.mapInfo[id].inTried && s.vvTried == map[] && time > 0
    ensures var t := GoodEntry(c, s, id, true, time);
      && t.vvTried == map[TriedSlot(c, s.key, s.mapInfo[id].svc) := id] && t.collisions == s.collisions
      && t.key == s.key
      && t.mapInfo.Keys == s.mapInfo.Keys
      && forall x :: x in s.mapInfo ==>
          t.mapInfo[x].svc == s.mapInfo[x].svc && (x != id ==> t.mapInfo[x].inTried == s.mapInfo[x].inTried)
  {
    MarkGoodKeeps(c, s, id, time);
    var u := WithInfo(s, id, MarkGood(s.mapInfo[id], time));
    UnlistKeeps(c, u, {}, 0, id);
  }

  /** Add, Add, Good, Good: from nothing to a recorded collision of id 0. */
  lemma {:induction false} CollisionRecorded(
    c: Config, key: nat, a: Address, b: Address, source: NetAddr, now: int, time: int)
    returns (states: seq<State>, ops: seq<Op>)
    requires ValidConfig(c) && c.routable(a.svc.addr) && c.routable(b.svc.addr) && a.svc.addr != b.svc.addr
    requires Rivals(c, key, a.svc, b.svc, source) && time > 0
    ensures IsRun(c, states, ops) && |ops| == 4 && states[0] == Cleared(key, {}) && states[4].collisions == {0}
  {
    AddFirst(c, key, a, source, now);
    states, ops := [Cleared(key, {})], [];
    states, ops := Extended(c, states, ops, OpAdd(a, source, 0, now, 0));
    AddKeeps(c, Cleared(key, {}), a, source, 0, now, 0);
    AddSecond(c, states[1], a, b, source, now);
    AddKeeps(c, states[1], b, source, 0, now, 0);
    states, ops := Extended(c, states, ops, OpAdd(b, source, 0, now, 0));
    GoodRecords(c, states[2], a.svc, b.svc, time);
    states, ops := Extended(c, states, ops, OpGood(b.svc, true, time));
    states, ops := Extended(c, states, ops, OpGood(a.svc, true, time));
  }

  // ----- the exact condition -----

  ghost predicate Breaks(c: Config, key: nat, collisions: set<int>, states: seq<State>, ops: seq<Op>) {
    IsRun(c, states, ops) && states[0] == Cleared(key, collisions) && !Sound(c, states[|ops|])
  }

  /** Some run from the cleared manager breaks its tables. */
  ghost predicate CanBreak(c: Config, key: nat, collisions: set<int>) {
    exists states, ops :: Breaks(c, key, collisions, states, ops)
  }

  /** A collision left over: once its id is taken again, picking it breaks the tables. */
  lemma {:induction false} StaleCollisionBreaks(
    c: Config, key: nat, collisions: set<int>, id: nat, addrs: seq<Address>, source: NetAddr, now: int)
    requires ValidConfig(c) && Supply(c, addrs, now) && id in collisions && id < |addrs|
    ensures CanBreak(c, key, collisions)
  {
    var states, ops := FillingRun(c, key, collisions, addrs, source, now, id + 1);
    DeadEndCorrupts(c, states[id + 1], id);
    states, ops := Extended(c, states, ops, OpSelectTriedCollision(id));
    assert Breaks(c, key, collisions, states, ops);
  }

  /** Clear leaves a manager that no run can break exactly when it was called with no collision recorded. */
  lemma {:induction false} ClearExact(
    c: Config, key: nat, collisions: set<int>, addrs: seq<Address>, source: NetAddr, now: int)
    requires ValidConfig(c) && Supply(c, addrs, now)
    requires forall id :: id in collisions ==> 0 <= id < |addrs|
    ensures CanBreak(c, key, collisions) <==> collisions != {}
  {
    if collisions == {} {
      forall states, ops | IsRun(c, states, ops) && states[0] == Cleared(key, {})
        ensures Sound(c, states[|ops|])
      {
        ClearedHealthy(c, key, {});
        EveryRunHealthy(c, states, ops, |ops|);
      }
    } else {
      var id := AnyMember(collisions);
      StaleCollisionBreaks(c, key, collisions, id, addrs, source, now);
    }
  }
}
