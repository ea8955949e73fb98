/** CAddrMan itself: the operations in the source's own steps, each proved to compute its model. */
module AddrManager {
  import opened Collections
  import opened Numbers
  import opened AddrManModel
  import opened AddrManSteps
  import opened AddrManOps
  import M = AddrManModel
  import O = AddrManOps

  /** `(m + start) % n` reaches every bucket as `m` runs through one cycle. */
  lemma {:induction false} CycleReaches(start: nat, n: nat, b: nat) returns (m: nat)
    requires b < n
    ensures m < n && (m + start) % n == b
  {
    var q, r := start / n, start % n;
    m := if b >= r then b - r else b - r + n;
    var q' := if b >= r then q else q + 1;
    assert m + start == q' * n + b;
    DivModUnique(m + start, q', n, b);
  }

  class CAddrMan {
    const c: Config
    var nKey: nat
    var nIdCount: int
    var mapInfo: map<int, Info>
    var mapAddr: map<NetAddr, int>
    var vRandom: seq<int>
    var nTried: int
    var vvTried: Table
    var nNew: int
    var vvNew: Table
    var nLastGood: int
    var collisions: set<int>   // m_tried_collisions

    ghost function Value(): State
      reads this
    {
      State(nKey, nIdCount, mapInfo, mapAddr, vRandom, nTried, vvTried, nNew, vvNew, nLastGood, collisions)
    }

    constructor (config: Config, key: nat)
      requires ValidConfig(config)
      ensures c == config && Value() == Cleared(key, {}) && Healthy(c, Value())
    {
      c := config;
      nKey, nIdCount, mapInfo, mapAddr, vRandom := key, 0, map[], map[], [];
      nTried, vvTried, nNew, vvNew, nLastGood, collisions := 0, map[], 0, map[], 1, {};
      new;
      ClearedHealthy(c, key, {});
    }

    /** Clear does not touch the recorded collisions. */
    method Clear(key: nat)
      modifies this
      ensures Value() == Cleared(key, old(collisions))
    {
      vRandom := [];
      nKey := key;
      vvNew := map[];
      vvTried := map[];
      nIdCount, nTried, nNew, nLastGood := 0, 0, 0, 1;
      mapInfo, mapAddr := map[], map[];
    }

    method Create(addr: Address, source: NetAddr) returns (nId: int)
      modifies this
      ensures nId == old(nIdCount) && Value() == M.Create(old(Value()), addr, source)
    {
      nId := nIdCount;
      nIdCount := nIdCount + 1;
      mapInfo := mapInfo[nId := FreshInfo(addr, source, -1)];
      mapAddr := mapAddr[addr.svc.addr := nId];
      mapInfo := mapInfo[nId := mapInfo[nId].(randomPos := |vRandom|)];
      vRandom := vRandom + [nId];
      assert mapInfo == old(mapInfo)[nId := FreshInfo(addr, source, |old(vRandom)|)];
    }

    method SwapRandom(nRndPos1: int, nRndPos2: int)
      requires RandomConsistent(Value()) && 0 <= nRndPos1 < |vRandom| && 0 <= nRndPos2 < |vRandom|
      modifies this`mapInfo, this`vRandom
      ensures old(vRandom[nRndPos1]) in old(mapInfo) && old(vRandom[nRndPos2]) in old(mapInfo)
      ensures Value() == M.SwapRandom(old(Value()), nRndPos1, nRndPos2)
    {
      assert RandomAt(Value(), nRndPos1) && RandomAt(Value(), nRndPos2);
      if nRndPos1 == nRndPos2 {
        return;
      }
      var nId1, nId2 := vRandom[nRndPos1], vRandom[nRndPos2];
      mapInfo := mapInfo[nId1 := mapInfo[nId1].(randomPos := nRndPos2)];
      mapInfo := mapInfo[nId2 := mapInfo[nId2].(randomPos := nRndPos1)];
      vRandom := vRandom[nRndPos1 := nId2];
      vRandom := vRandom[nRndPos2 := nId1];
    }

    /** Delete: what its three assertions ask is what it needs of its callers. */
    method Delete(nId: int)
      requires RandomConsistent(Value()) && nId in mapInfo && !mapInfo[nId].inTried && mapInfo[nId].refCount == 0
      modifies this
      ensures Value() == M.Delete(old(Value()), nId)
    {
      assert RandomOf(Value(), nId);
      var info := mapInfo[nId];
      SwapRandom(info.randomPos, |vRandom| - 1);
      vRandom := vRandom[..|vRandom| - 1];
      mapAddr := mapAddr - {info.svc.addr};
      mapInfo := mapInfo - {nId};
      nNew := nNew - 1;
    }

    method ClearNew(slot: Slot, ghost limbo: set<int>, ghost counted: int)
      requires Consistent(c, Value(), limbo, counted)
      modifies this
      ensures slot in old(vvNew) ==> old(vvNew[slot]) in old(mapInfo)
      ensures Value() == M.ClearNew(old(Value()), slot)
    {
      if slot in vvNew {
        assert NewAt(c, Value(), slot);
        var nIdDelete := vvNew[slot];
        DropRefKeeps(c, Value(), limbo, counted, slot);
        assert mapInfo[nIdDelete].refCount > 0;
        mapInfo := mapInfo[nIdDelete := mapInfo[nIdDelete].(refCount := mapInfo[nIdDelete].refCount - 1)];
        vvNew := vvNew - {slot};
        assert Value() == DropRef(old(Value()), slot);
        if mapInfo[nIdDelete].refCount == 0 {
          assert NewOf(c, Value(), limbo + {nIdDelete}, nIdDelete);
          Delete(nIdDelete);
        }
      }
    }

    /** MakeTried: the loop over all new buckets finds exactly the references the count promised. */
    method MakeTried(nId: int)
      requires Consistent(c, Value(), {}, 0) && nId in mapInfo && !mapInfo[nId].inTried && mapInfo[nId].lastSuccess > 0
      modifies this
      ensures Value() == O.MakeTried(c, old(Value()), nId)
    {
      Unlist(nId);
      ghost var unlisted := Value();
      UnlistKeeps(c, old(Value()), {}, 0, nId);
      ghost var limbo := {} + {nId};
      assert mapInfo[nId].refCount == 0;
      var slot := TriedSlot(c, nKey, mapInfo[nId].svc);
      MakeRoomKeeps(c, unlisted, limbo, slot, nId);
      if slot in vvTried {
        Evict(slot, limbo);
      }
      ghost var ready := Value();
      assert SameStanding(unlisted, ready, nId);
      MakeTriedUnfolds(c, old(Value()), nId, unlisted, ready);
      PutTried(nId);
    }

    /** Enter an entry at its free tried slot. */
    method PutTried(nId: int)
      requires ValidConfig(c) && nId in mapInfo && TriedSlot(c, nKey, mapInfo[nId].svc) !in vvTried
      modifies this`vvTried, this`nTried, this`mapInfo
      ensures Value() == M.PutTried(c, old(Value()), nId)
    {
      var slot := TriedSlot(c, nKey, mapInfo[nId].svc);
      assert slot !in vvTried;
      vvTried := vvTried[slot := nId];
      nTried := nTried + 1;
      mapInfo := mapInfo[nId := mapInfo[nId].(inTried := true)];
    }

    /** The first half of MakeTried. */
    method Unlist(nId: int)
      requires Consistent(c, Value(), {}, 0) && nId in mapInfo && !mapInfo[nId].inTried
      modifies this`mapInfo, this`vvNew, this`nNew
      ensures Value() == M.Unlist(old(Value()), nId)
    {
      var svc := mapInfo[nId].svc;
      ghost var table := vvNew;
      ghost var refs := Refs(c, nKey, table, svc, nId);
      assert NewOf(c, Value(), {}, nId);
      ConsistentPlacement(c, Value(), nId);
      NothingUnlisted(c, nKey, table, svc, nId);
      var bucket := 0;
      while bucket < c.newBuckets
        invariant 0 <= bucket <= c.newBuckets
        invariant nNew == old(nNew) && vvNew == UnlistedBelow(table, nId, bucket)
        invariant nId in mapInfo
        invariant mapInfo == old(mapInfo)[nId := old(mapInfo[nId]).(refCount := |RefsFrom(refs, bucket)|)]
      {
        var slot := NewSlot(c, nKey, svc, bucket);
        if slot in vvNew && vvNew[slot] == nId {
          UnlistHit(c, nKey, table, svc, nId, bucket);
          vvNew := vvNew - {slot};
          mapInfo := mapInfo[nId := mapInfo[nId].(refCount := mapInfo[nId].refCount - 1)];
        } else {
          UnlistMiss(c, nKey, table, svc, nId, bucket);
        }
        bucket := bucket + 1;
      }
      UnlistDone(c, nKey, table, svc, nId);
      assert mapInfo == old(mapInfo)[nId := old(mapInfo[nId]).(refCount := 0)];
      nNew := nNew - 1;
    }

    /** The second half: the entry at an occupied tried slot goes back to the new table. */
    method Evict(slot: Slot, ghost limbo: set<int>)
      requires Consistent(c, Value(), limbo, 0) && slot in vvTried
      modifies this
      ensures Value() == O.Evict(c, old(Value()), limbo, slot)
    {
      assert TriedAt(c, Value(), slot);
      var nIdEvict := vvTried[slot];
      var infoOld := mapInfo[nIdEvict];
      UntryKeeps(c, Value(), limbo, 0, slot);
      Untry(slot);
      ghost var untried := Value();
      var place := HomeSlot(c, nKey, infoOld);
      ClearNewKeeps(c, untried, limbo + {nIdEvict}, 0, place);
      ClearNew(place, limbo + {nIdEvict}, 0);
      ghost var cleared := Value();
      assert NewOf(c, cleared, limbo + {nIdEvict}, nIdEvict);
      EvictUnfolds(c, old(Value()), limbo, slot, untried, cleared);
      Resettle(nIdEvict, place);
    }

    method Untry(slot: Slot)
      requires slot in vvTried && vvTried[slot] in mapInfo
      modifies this`vvTried, this`nTried, this`mapInfo
      ensures Value() == M.Untry(old(Value()), slot)
    {
      var nIdEvict := vvTried[slot];
      mapInfo := mapInfo[nIdEvict := mapInfo[nIdEvict].(inTried := false)];
      vvTried := vvTried - {slot};
      nTried := nTried - 1;
    }

    method Resettle(nId: int, place: Slot)
      requires nId in mapInfo && mapInfo[nId].refCount == 0 && place !in vvNew
      modifies this`vvNew, this`nNew, this`mapInfo
      ensures Value() == O.Resettle(old(Value()), nId, place)
    {
      assert place !in vvNew;
      mapInfo := mapInfo[nId := mapInfo[nId].(refCount := 1)];
      vvNew := vvNew[place := nId];
      nNew := nNew + 1;
    }

    /** Find, by network address alone. */
    method Find(addr: NetAddr) returns (found: bool, nId: int)
      ensures found <==> Known(Value(), addr)
      ensures found ==> nId == mapAddr[addr]
    {
      found, nId := false, -1;
      if addr in mapAddr {
        nId := mapAddr[addr];
        found := nId in mapInfo;
      }
    }

    /** Good_'s search for a bucket holding the entry, starting anywhere, misses none. */
    method FindBucket(nId: int, nRnd: nat) returns (nUBucket: int)
      requires ValidConfig(c) && nId in mapInfo
      ensures nUBucket == -1 <==> Refs(c, nKey, vvNew, mapInfo[nId].svc, nId) == {}
      ensures nUBucket != -1 ==> nUBucket in Refs(c, nKey, vvNew, mapInfo[nId].svc, nId)
    {
      nUBucket := -1;
      ghost var refs := Refs(c, nKey, vvNew, mapInfo[nId].svc, nId);
      var n := 0;
      while n < c.newBuckets
        invariant 0 <= n <= c.newBuckets && nUBucket == -1
        invariant forall m {:trigger BucketAt(m, nRnd)} :: 0 <= m < n ==> BucketAt(m, nRnd) !in refs
      {
        var nB := BucketAt(n, nRnd);
        var slot := NewSlot(c, nKey, mapInfo[nId].svc, nB);
        if slot in vvNew && vvNew[slot] == nId {
          assert nB in refs;
          nUBucket := nB;
          return;
        }
        n := n + 1;
      }
      forall b | 0 <= b < c.newBuckets
        ensures b !in refs
      {
        var m := CycleReaches(nRnd, c.newBuckets, b);
        assert BucketAt(m, nRnd) == b;
      }
    }

    function BucketAt(n: nat, nRnd: nat): (b: int)
      requires ValidConfig(c)
      ensures 0 <= b < c.newBuckets
    {
      (n + nRnd) % c.newBuckets
    }

    method Good(svc: Service, testBeforeEvict: bool, nTime: int, nRnd: nat)
      requires Sound(c, Value()) && nTime > 0
      modifies this
      ensures Value() == O.Good(c, old(Value()), svc, testBeforeEvict, nTime)
    {
      GoodKeeps(c, Value(), svc, testBeforeEvict, nTime);
      nLastGood := nTime;
      ScalarsKeep(c, old(Value()), Value(), {}, 0);
      var found, nId := Find(svc.addr);
      if !found || mapInfo[nId].svc != svc {
        return;
      }
      MarkGoodKeeps(c, Value(), nId, nTime);
      GoodEntry(nId, testBeforeEvict, nTime, nRnd);
    }

    method GoodEntry(nId: int, testBeforeEvict: bool, nTime: int, nRnd: nat)
      requires Consistent(c, Value(), {}, 0) && nId in mapInfo && nTime > 0
      modifies this
      ensures Value() == O.GoodEntry(c, old(Value()), nId, testBeforeEvict, nTime)
    {
      MarkGoodKeeps(c, Value(), nId, nTime);
      mapInfo := mapInfo[nId := mapInfo[nId].(lastSuccess := nTime, lastTry := nTime, attempts := 0)];
      if mapInfo[nId].inTried {
        return;
      }
      assert NewOf(c, Value(), {}, nId);
      var nUBucket := FindBucket(nId, nRnd);
      assert nUBucket != -1;
      if nUBucket == -1 {
        return;
      }
      Promote(nId, testBeforeEvict);
    }

    /** Move an entry to the tried table, or record that its slot there is taken. */
    method Promote(nId: int, testBeforeEvict: bool)
      requires Consistent(c, Value(), {}, 0) && nId in mapInfo && !mapInfo[nId].inTried && mapInfo[nId].lastSuccess > 0
      modifies this
      ensures var s := old(Value());
        Value() == if testBeforeEvict && TriedSlot(c, s.key, s.mapInfo[nId].svc) in s.vvTried
          then if |s.collisions| < COLLISION_SIZE then s.(collisions := s.collisions + {nId}) else s
          else O.MakeTried(c, s, nId)
    {
      var slot := TriedSlot(c, nKey, mapInfo[nId].svc);
      if testBeforeEvict && slot in vvTried {
        if |collisions| < COLLISION_SIZE {
          collisions := collisions + {nId};
        }
      } else {
        MakeTried(nId);
      }
    }

    /** The second half of Add_. */
    method Place(nId: int, source: NetAddr, now: int, ghost limbo: set<int>)
      requires Consistent(c, Value(), limbo, |limbo|) && nId in mapInfo && !mapInfo[nId].inTried
      requires mapInfo[nId].refCount < NEW_BUCKETS_PER_ADDRESS && (limbo == {} || limbo == {nId})
      modifies this
      ensures Value() == O.Place(c, old(Value()), limbo, nId, source, now)
    {
      var slot := NewSlot(c, nKey, mapInfo[nId].svc, NewBucket(c, nKey, mapInfo[nId].svc, source));
      assert slot in vvNew ==> NewAt(c, Value(), slot);
      assert NewOf(c, Value(), limbo, nId);
      if slot !in vvNew || vvNew[slot] != nId {
        var fInsert := slot !in vvNew;
        if !fInsert {
          var existing := mapInfo[vvNew[slot]];
          if IsTerrible(existing, now) || (existing.refCount > 1 && mapInfo[nId].refCount == 0) {
            fInsert := true;
          }
        }
        if fInsert {
          Insert(nId, slot, limbo);
          PlaceInserts(c, old(Value()), limbo, nId, source, now, slot, M.ClearNew(old(Value()), slot));
        } else if mapInfo[nId].refCount == 0 {
          assert NewOf(c, Value(), limbo, nId);
          Delete(nId);
        }
      }
    }

    /** Take a slot of the new table for an entry that is not in it. */
    method Insert(nId: int, slot: Slot, ghost limbo: set<int>)
      requires Consistent(c, Value(), limbo, |limbo|) && nId in mapInfo
      requires (slot in vvNew ==> vvNew[slot] in mapInfo && vvNew[slot] != nId)
      requires limbo == {} || limbo == {nId}
      modifies this
      ensures nId in M.ClearNew(old(Value()), slot).mapInfo
      ensures Value() == M.AddRef(M.ClearNew(old(Value()), slot), nId, slot)
    {
      ClearNewKeeps(c, Value(), limbo, |limbo|, slot);
      ClearNewThins(c, Value(), limbo, |limbo|, slot, nId);
      ClearNew(slot, limbo, |limbo|);
      AddRef(nId, slot);
    }

    method AddRef(nId: int, slot: Slot)
      requires nId in mapInfo
      modifies this`vvNew, this`mapInfo
      ensures Value() == M.AddRef(old(Value()), nId, slot)
    {
      mapInfo := mapInfo[nId := mapInfo[nId].(refCount := mapInfo[nId].refCount + 1)];
      vvNew := vvNew[slot := nId];
    }

    method Add(addr: Address, source: NetAddr, timePenalty: int, now: int, rnd: nat) returns (fNew: bool)
      requires Sound(c, Value())
      modifies this
      ensures (Value(), fNew) == O.Add(c, old(Value()), addr, source, timePenalty, now, rnd)
    {
      fNew := false;
      if !c.routable(addr.svc.addr) {
        return;
      }
      var penalty := if addr.svc.addr == source then 0 else timePenalty;
      var found, nId := Find(addr.svc.addr);
      if found {
        AddKnown(nId, addr, source, penalty, now, rnd);
      } else {
        KnownMeansMapped(Value(), addr.svc.addr);
        IntroducedKeeps(c, Value(), addr, source, penalty);
        nId := Introduce(addr, source, penalty);
        fNew := true;
        Place(nId, source, now, {nId});
      }
    }

    /** A fresh entry, penalised and counted as new. */
    method Introduce(addr: Address, source: NetAddr, penalty: int) returns (nId: int)
      modifies this
      ensures nId == old(nIdCount) && Value() == Introduced(old(Value()), addr, source, penalty)
    {
      nId := Create(addr, source);
      mapInfo := mapInfo[nId := mapInfo[nId].(time := Max(0, mapInfo[nId].time - penalty))];
      nNew := nNew + 1;
      assert mapInfo == Introduced(old(Value()), addr, source, penalty).mapInfo;
    }

    method AddKnown(nId: int, addr: Address, source: NetAddr, penalty: int, now: int, rnd: nat)
      requires Sound(c, Value()) && Known(Value(), addr.svc.addr) && nId == mapAddr[addr.svc.addr]
      modifies this
      ensures Value() == O.AddKnown(c, old(Value()), addr, source, penalty, now, rnd)
    {
      RefreshKeeps(c, Value(), nId, addr, penalty, now);
      Refresh(nId, addr, penalty, now);
      assert NewOf(c, Value(), {}, nId);
      var info := mapInfo[nId];
      if addr.time == 0 || (info.time != 0 && addr.time <= info.time) || info.inTried
        || info.refCount == NEW_BUCKETS_PER_ADDRESS {
        return;
      }
      var nFactor := StochasticFactor(info.refCount);
      if nFactor > 1 && rnd % nFactor != 0 {
        return;
      }
      Place(nId, source, now, {});
    }

    /** The periodic update of a known entry's time and services. */
    method Refresh(nId: int, addr: Address, penalty: int, now: int)
      requires nId in mapInfo
      modifies this`mapInfo
      ensures Value() == WithInfo(old(Value()), nId, Refreshed(old(mapInfo[nId]), addr, penalty, now))
    {
      var info := mapInfo[nId];
      var fCurrentlyOnline := now - addr.time < 24 * 60 * 60;
      var nUpdateInterval := if fCurrentlyOnline then 60 * 60 else 24 * 60 * 60;
      if addr.time != 0 && (info.time == 0 || info.time < addr.time - nUpdateInterval - penalty) {
        info := info.(time := Max(0, addr.time - penalty));
      }
      info := info.(services := info.services + addr.services);
      mapInfo := mapInfo[nId := info];
    }

    /** 2^N times harder to gain a reference beyond N. */
    static method StochasticFactor(refCount: nat) returns (nFactor: nat)
      ensures nFactor == Pow2(refCount)
    {
      nFactor := 1;
      var n := 0;
      while n < refCount
        invariant 0 <= n <= refCount && nFactor == Pow2(n)
      {
        nFactor := nFactor * 2;
        n := n + 1;
      }
    }

    method Attempt(svc: Service, fCountFailure: bool, nTime: int)
      modifies this`mapInfo
      ensures Value() == O.Attempt(old(Value()), svc, fCountFailure, nTime)
    {
      var found, nId := Find(svc.addr);
      if found && mapInfo[nId].svc == svc {
        var info := mapInfo[nId].(lastTry := nTime);
        if fCountFailure && info.lastCountAttempt < nLastGood {
          info := info.(lastCountAttempt := nTime);
          info := info.(attempts := info.attempts + 1);
        }
        mapInfo := mapInfo[nId := info];
      }
    }

    method Connected(svc: Service, nTime: int)
      modifies this`mapInfo
      ensures Value() == O.Connected(old(Value()), svc, nTime)
    {
      var found, nId := Find(svc.addr);
      if found && mapInfo[nId].svc == svc {
        if nTime - mapInfo[nId].time > 20 * 60 {
          mapInfo := mapInfo[nId := mapInfo[nId].(time := nTime)];
        } else {
          assert mapInfo == mapInfo[nId := mapInfo[nId]];
        }
      }
    }

    method SetServices(svc: Service, nServices: Services)
      modifies this`mapInfo
      ensures Value() == O.SetServices(old(Value()), svc, nServices)
    {
      var found, nId := Find(svc.addr);
      if found && mapInfo[nId].svc == svc {
        mapInfo := mapInfo[nId := mapInfo[nId].(services := nServices)];
      }
    }

    /** GetAddr_: shuffle the front of vRandom and collect the acceptable entries. */
    method GetAddr(now: int, rand: nat -> nat) returns (vAddr: seq<Address>)
      requires RandomConsistent(Value())
      modifies this`mapInfo, this`vRandom
      ensures var (t, ids) := O.GetAddr(old(Value()), now, rand); Value() == t && Addresses(mapInfo, ids, vAddr)
    {
      var nNodes := GETADDR_MAX_PCT * |vRandom| / 100;
      if nNodes > GETADDR_MAX {
        nNodes := GETADDR_MAX;
      }
      ghost var ids;
      vAddr, ids := PickAll(nNodes, now, rand);
    }

    method PickAll(nNodes: nat, now: int, rand: nat -> nat) returns (vAddr: seq<Address>, ghost ids: seq<int>)
      requires RandomConsistent(Value())
      modifies this`mapInfo, this`vRandom
      ensures (Value(), ids) == GetAddrFrom(old(Value()), 0, nNodes, now, rand, []) && Addresses(mapInfo, ids, vAddr)
    {
      vAddr, ids := [], [];
      ghost var trace := [(Value(), ids)];
      var n := 0;
      while n < |vRandom| && |vAddr| < nNodes
        invariant 0 <= n <= |vRandom| && RandomConsistent(Value())
        invariant Addresses(mapInfo, ids, vAddr)
        invariant |trace| == n + 1 && trace[0] == (old(Value()), []) && trace[n] == (Value(), ids)
        invariant IsTrace(trace, nNodes, now, rand)
      {
        vAddr, ids := PickAt(n, now, rand, ids, vAddr);
        TraceGrows(trace, nNodes, now, rand, (Value(), ids));
        trace := trace + [(Value(), ids)];
        n := n + 1;
      }
      TraceEnds(trace, 0, nNodes, now, rand);
    }

    method PickAt(n: nat, now: int, rand: nat -> nat, ghost ids: seq<int>, vAddr0: seq<Address>)
      returns (vAddr: seq<Address>, ghost ids': seq<int>)
      requires n < |vRandom| && RandomConsistent(Value()) && Addresses(mapInfo, ids, vAddr0)
      modifies this`mapInfo, this`vRandom
      ensures |vRandom| == |old(vRandom)| && RandomConsistent(Value()) && Addresses(mapInfo, ids', vAddr)
      ensures Picked(old(Value()), ids, n, now, rand, Value(), ids')
    {
      var nRndPos := DrawPosition(rand, n, |vRandom|);
      ghost var s := Value();
      SwapRandom(n, nRndPos);
      ghost var t := Value();
      SwapRandomConsistent(s, n, nRndPos);
      AddressesMoved(s, n, nRndPos, ids, vAddr0);
      assert RandomAt(t, n);
      ids' := Gather(t, n, now, ids);
      vAddr := vAddr0;
      var ai := mapInfo[vRandom[n]];
      if !IsTerrible(ai, now) {
        AddressesAppend(mapInfo, ids, vAddr, vRandom[n]);
        vAddr := vAddr + [Address(ai.svc, ai.services, ai.time)];
      }
    }

    /** ResolveCollisions_, visiting the recorded collisions in ascending order. */
    method ResolveCollisions(now: int, nRnd: nat)
      requires Sound(c, Value()) && now > 0
      modifies this
      ensures Value() == Resolve(c, old(Value()), old(collisions), now)
    {
      var todo := collisions;
      while todo != {}
        invariant Sound(c, Value())
        invariant Resolve(c, Value(), todo, now) == Resolve(c, old(Value()), old(collisions), now)
        decreases |todo|
      {
        var id := LeastOf(todo);
        ResolveOneKeeps(c, Value(), id, now);
        ResolveOne(id, now, nRnd);
        todo := todo - {id};
      }
    }

    method ResolveOne(idNew: int, now: int, nRnd: nat)
      requires Sound(c, Value()) && now > 0
      modifies this
      ensures Value() == O.ResolveOne(c, old(Value()), idNew, now)
    {
      var eraseCollision := false;
      if idNew !in mapInfo {
        eraseCollision := true;
      } else {
        var infoNew := mapInfo[idNew];
        var slot := TriedSlot(c, nKey, infoNew.svc);
        if !c.valid(infoNew.svc) {
          eraseCollision := true;
        } else if slot in vvTried {
          assert TriedAt(c, Value(), slot);
          var infoOld := mapInfo[vvTried[slot]];
          if now - infoOld.lastSuccess < REPLACEMENT_HOURS * (60 * 60) {
            eraseCollision := true;
          } else if now - infoOld.lastTry < REPLACEMENT_HOURS * (60 * 60) {
            if now - infoOld.lastTry > 60 {
              Good(infoNew.svc, false, now, nRnd);
              eraseCollision := true;
            }
          } else if now - infoNew.lastSuccess > TEST_WINDOW {
            Good(infoNew.svc, false, now, nRnd);
            eraseCollision := true;
          }
        } else {
          Good(infoNew.svc, false, now, nRnd);
          eraseCollision := true;
        }
      }
      if eraseCollision {
        collisions := collisions - {idNew};
      }
    }

    /** SelectTriedCollision_ for the picked collision; mapInfo's operator[] inserts what it does not find. */
    method SelectTriedCollision(pick: int) returns (r: Selected)
      requires ValidConfig(c)
      modifies this`collisions, this`mapInfo
      ensures (Value(), r) == SelectCollision(c, old(Value()), pick)
    {
      if collisions == {} {
        return Nothing;
      }
      if pick !in mapInfo {
        collisions := collisions - {pick};
        return Nothing;
      }
      var slot := TriedSlot(c, nKey, mapInfo[pick].svc);
      var idOld := if slot in vvTried then vvTried[slot] else -1;
      if idOld !in mapInfo {
        mapInfo := mapInfo[idOld := DEFAULT_INFO];
      }
      r := Entry(mapInfo[idOld]);
    }
  }

  /** One iteration of the GetAddr_ loop takes `s` with the picks `ids` to `t` with the picks `ids'`. */
  ghost predicate Picked(s: State, ids: seq<int>, n: nat, now: int, rand: nat -> nat, t: State, ids': seq<int>) {
    && RandomConsistent(s) && RandomConsistent(t) && n < |s.vRandom|
    && var pos := DrawPosition(rand, n, |s.vRandom|);
      && s.vRandom[n] in s.mapInfo && s.vRandom[pos] in s.mapInfo && t == M.SwapRandom(s, n, pos)
      && t.vRandom[n] in t.mapInfo && ids' == Gather(t, n, now, ids)
  }

  ghost predicate TraceAt(trace: seq<(State, seq<int>)>, limit: nat, now: int, rand: nat -> nat, n: nat)
    requires n + 1 < |trace|
  {
    |trace[n].1| < limit && Picked(trace[n].0, trace[n].1, n, now, rand, trace[n + 1].0, trace[n + 1].1)
  }

  /** The states the loop of GetAddr_ passes through. */
  ghost predicate IsTrace(trace: seq<(State, seq<int>)>, limit: nat, now: int, rand: nat -> nat) {
    forall n {:trigger TraceAt(trace, limit, now, rand, n)} :: 0 <= n < |trace| - 1 ==>
      TraceAt(trace, limit, now, rand, n)
  }

  lemma {:induction false} TraceGrows(
    trace: seq<(State, seq<int>)>, limit: nat, now: int, rand: nat -> nat, next: (State, seq<int>))
    requires trace != [] && IsTrace(trace, limit, now, rand)
    requires |trace[|trace| - 1].1| < limit
    requires Picked(trace[|trace| - 1].0, trace[|trace| - 1].1, |trace| - 1, now, rand, next.0, next.1)
    ensures IsTrace(trace + [next], limit, now, rand)
  {
    forall n | 0 <= n < |trace + [next]| - 1
      ensures TraceAt(trace + [next], limit, now, rand, n)
    {
      assert n < |trace| - 1 ==> TraceAt(trace, limit, now, rand, n);
    }
  }

  lemma {:induction false} TraceEnds(trace: seq<(State, seq<int>)>, n: nat, limit: nat, now: int, rand: nat -> nat)
    requires n < |trace| && IsTrace(trace, limit, now, rand) && RandomConsistent(trace[|trace| - 1].0)
    requires var (t, ids) := trace[|trace| - 1]; |ids| >= limit || |trace| - 1 == |t.vRandom|
    requires n <= |trace[n].0.vRandom| && RandomConsistent(trace[n].0)
    ensures GetAddrFrom(trace[n].0, n, limit, now, rand, trace[n].1) == trace[|trace| - 1]
    decreases |trace| - n
  {
    if n + 1 < |trace| {
      assert TraceAt(trace, limit, now, rand, n);
      GetAddrUnfold(trace[n].0, n, limit, now, rand, trace[n].1, trace[n + 1].0);
      TraceEnds(trace, n + 1, limit, now, rand);
    }
  }

  /** `vAddr` are the addresses of the entries `ids`. */
  ghost predicate Addresses(mapInfo: map<int, Info>, ids: seq<int>, vAddr: seq<Address>) {
    && |vAddr| == |ids|
    && forall k {:trigger AddressAt(mapInfo, ids, vAddr, k)} :: 0 <= k < |ids| ==> AddressAt(mapInfo, ids, vAddr, k)
  }

  predicate AddressAt(mapInfo: map<int, Info>, ids: seq<int>, vAddr: seq<Address>, k: int)
    requires 0 <= k < |ids| == |vAddr|
  {
    ids[k] in mapInfo && vAddr[k] == Address(mapInfo[ids[k]].svc, mapInfo[ids[k]].services, mapInfo[ids[k]].time)
  }

  lemma {:induction false} AddressesMoved(s: State, i: int, j: int, ids: seq<int>, vAddr: seq<Address>)
    requires 0 <= i < |s.vRandom| && 0 <= j < |s.vRandom|
    requires s.vRandom[i] in s.mapInfo && s.vRandom[j] in s.mapInfo && Addresses(s.mapInfo, ids, vAddr)
    ensures Addresses(M.SwapRandom(s, i, j).mapInfo, ids, vAddr)
  {
    forall k | 0 <= k < |ids|
      ensures AddressAt(M.SwapRandom(s, i, j).mapInfo, ids, vAddr, k)
    {
      assert AddressAt(s.mapInfo, ids, vAddr, k);
    }
  }

  lemma {:induction false} AddressesAppend(mapInfo: map<int, Info>, ids: seq<int>, vAddr: seq<Address>, id: int)
    requires Addresses(mapInfo, ids, vAddr) && id in mapInfo
    ensures Addresses(mapInfo, ids + [id], vAddr + [Address(mapInfo[id].svc, mapInfo[id].services, mapInfo[id].time)])
  {
    var vAddr' := vAddr + [Address(mapInfo[id].svc, mapInfo[id].services, mapInfo[id].time)];
    forall k | 0 <= k < |ids + [id]|
      ensures AddressAt(mapInfo, ids + [id], vAddr', k)
    {
      assert k < |ids| ==> AddressAt(mapInfo, ids, vAddr, k);
    }
  }

  method LeastOf(ids: set<int>) returns (id: int)
    requires ids != {}
    ensures id == Least(ids)
  {
    ghost var x := AnyMember(ids);
    id :| id in ids;
    var todo := ids - {id};
    while todo != {}
      invariant todo <= ids && id in ids
      invariant forall x :: x in ids && x !in todo ==> id <= x
      decreases todo
    {
      ghost var z := AnyMember(todo);
      var y :| y in todo;
      todo := todo - {y};
      if y < id {
        id := y;
      }
    }
  }

  /** The new table once the references to `id` in buckets below `b` are gone. */
  ghost function UnlistedBelow(vvNew: Table, id: int, b: int): Table {
    map slot | slot in vvNew && !(vvNew[slot] == id && slot.bucket < b) :: vvNew[slot]
  }

  ghost function RefsFrom(refs: set<int>, b: int): set<int> {
    set x | x in refs && b <= x
  }

  /** All references to `id` sit at the slots its service assigns. */
  ghost predicate WellPlaced(c: Config, key: nat, vvNew: Table, svc: Service, id: int)
    requires ValidConfig(c)
  {
    forall slot {:trigger slot in vvNew} :: slot in vvNew && vvNew[slot] == id ==> PlacedAt(c, key, svc, slot)
  }

  ghost predicate PlacedAt(c: Config, key: nat, svc: Service, slot: Slot)
    requires ValidConfig(c)
  {
    0 <= slot.bucket < c.newBuckets && slot == NewSlot(c, key, svc, slot.bucket)
  }

  lemma {:induction false} ConsistentPlacement(c: Config, s: State, id: int)
    requires Consistent(c, s, {}, 0) && id in s.mapInfo
    ensures WellPlaced(c, s.key, s.vvNew, s.mapInfo[id].svc, id)
  {
    forall slot | slot in s.vvNew && s.vvNew[slot] == id
      ensures PlacedAt(c, s.key, s.mapInfo[id].svc, slot)
    {
      assert NewAt(c, s, slot);
    }
  }

  lemma {:induction false} NothingUnlisted(c: Config, key: nat, vvNew: Table, svc: Service, id: int)
    requires ValidConfig(c) && WellPlaced(c, key, vvNew, svc, id)
    ensures UnlistedBelow(vvNew, id, 0) == vvNew
    ensures RefsFrom(Refs(c, key, vvNew, svc, id), 0) == Refs(c, key, vvNew, svc, id)
  {
  }

  lemma {:induction false} UnlistHit(c: Config, key: nat, vvNew: Table, svc: Service, id: int, b: int)
    requires ValidConfig(c) && WellPlaced(c, key, vvNew, svc, id) && 0 <= b < c.newBuckets
    requires var slot := NewSlot(c, key, svc, b); slot in vvNew && vvNew[slot] == id
    ensures UnlistedBelow(vvNew, id, b + 1) == UnlistedBelow(vvNew, id, b) - {NewSlot(c, key, svc, b)}
    ensures |RefsFrom(Refs(c, key, vvNew, svc, id), b + 1)| == |RefsFrom(Refs(c, key, vvNew, svc, id), b)| - 1
  {
    var refs := Refs(c, key, vvNew, svc, id);
    assert RefsFrom(refs, b) == RefsFrom(refs, b + 1) + {b};
  }

  lemma {:induction false} UnlistMiss(c: Config, key: nat, vvNew: Table, svc: Service, id: int, b: int)
    requires ValidConfig(c) && WellPlaced(c, key, vvNew, svc, id) && 0 <= b < c.newBuckets
    requires var slot := NewSlot(c, key, svc, b); !(slot in vvNew && vvNew[slot] == id)
    ensures UnlistedBelow(vvNew, id, b + 1) == UnlistedBelow(vvNew, id, b)
    ensures RefsFrom(Refs(c, key, vvNew, svc, id), b + 1) == RefsFrom(Refs(c, key, vvNew, svc, id), b)
  {
  }

  lemma {:induction false} UnlistDone(c: Config, key: nat, vvNew: Table, svc: Service, id: int)
    requires ValidConfig(c) && WellPlaced(c, key, vvNew, svc, id)
    ensures UnlistedBelow(vvNew, id, c.newBuckets) == Unreferenced(vvNew, id)
    ensures RefsFrom(Refs(c, key, vvNew, svc, id), c.newBuckets) == {}
  {
  }
}
