/** Which streams load into a consistent address manager, and that it then stays consistent. */
module AddrManLoad {
  import opened Collections
  import opened AddrManModel
  import opened AddrManSteps
  import opened AddrManOps
  import opened AddrManRestore
  import opened AddrManStream

  // ----- what holds of every manager while it is loaded -----

  ghost predicate TriedHome(c: Config, s: State, id: int)
    requires ValidConfig(c) && id in s.mapInfo
  {
    var info := s.mapInfo[id];
    var slot := TriedSlot(c, s.key, info.svc);
    info.inTried ==> info.refCount == 0 && slot in s.vvTried && s.vvTried[slot] == id
  }

  ghost predicate RefsMatch(c: Config, s: State, id: int)
    requires ValidConfig(c) && id in s.mapInfo
  {
    s.mapInfo[id].refCount == |Refs(c, s.key, s.vvNew, s.mapInfo[id].svc, id)| <= NEW_BUCKETS_PER_ADDRESS
  }

  ghost predicate Listed(s: State, id: int)
    requires id in s.mapInfo
  {
    s.mapInfo[id].svc.addr in s.mapAddr && s.mapInfo[id].lastTry == 0
  }

  /** Both tables match the entries, and every mapped address has its entry; addresses may repeat. */
  ghost predicate Solid(c: Config, s: State)
    requires ValidConfig(c)
  {
    && (forall slot {:trigger TriedAt(c, s, slot)} :: slot in s.vvTried ==> TriedAt(c, s, slot))
    && (forall id {:trigger TriedHome(c, s, id)} :: id in s.mapInfo ==> TriedHome(c, s, id))
    && (forall slot {:trigger NewAt(c, s, slot)} :: slot in s.vvNew ==> NewAt(c, s, slot))
    && (forall id {:trigger RefsMatch(c, s, id)} :: id in s.mapInfo ==> RefsMatch(c, s, id))
    && (forall a {:trigger AddrAt(s, a)} :: a in s.mapAddr ==> AddrAt(s, a))
    && (forall id {:trigger Listed(s, id)} :: id in s.mapInfo ==> Listed(s, id))
  }

  /** `t` is `s` with a further entry, in no bucket or at its free tried slot. */
  ghost predicate Enters(c: Config, s: State, t: State, id: int, r: Record, tried: bool)
    requires ValidConfig(c)
  {
    var info := Loaded(r, |s.vRandom|, tried);
    var slot := TriedSlot(c, s.key, r.svc);
    && id !in s.mapInfo && t.key == s.key && t.vvNew == s.vvNew
    && t.mapInfo == s.mapInfo[id := info] && t.mapAddr == s.mapAddr[r.svc.addr := id]
    && if tried then slot !in s.vvTried && t.vvTried == s.vvTried[slot := id] else t.vvTried == s.vvTried
  }

  lemma {:induction false} EntersTables(c: Config, s: State, t: State, id: int, r: Record, tried: bool)
    requires ValidConfig(c) && Solid(c, s) && Enters(c, s, t, id, r, tried)
    ensures forall slot {:trigger TriedAt(c, t, slot)} :: slot in t.vvTried ==> TriedAt(c, t, slot)
    ensures forall slot {:trigger NewAt(c, t, slot)} :: slot in t.vvNew ==> NewAt(c, t, slot)
    ensures forall a {:trigger AddrAt(t, a)} :: a in t.mapAddr ==> AddrAt(t, a)
  {
    forall slot | slot in t.vvTried
      ensures TriedAt(c, t, slot)
    {
      assert slot in s.vvTried ==> TriedAt(c, s, slot);
    }
    forall slot | slot in t.vvNew
      ensures NewAt(c, t, slot)
    {
      assert NewAt(c, s, slot);
    }
    forall a | a in t.mapAddr
      ensures AddrAt(t, a)
    {
      assert a in s.mapAddr ==> AddrAt(s, a);
    }
  }

  lemma {:induction false} EntersSolid(c: Config, s: State, t: State, id: int, r: Record, tried: bool)
    requires ValidConfig(c) && Solid(c, s) && Enters(c, s, t, id, r, tried)
    ensures Solid(c, t)
  {
    EntersTables(c, s, t, id, r, tried);
    NoRefs(c, s, r.svc, id);
    forall x | x in t.mapInfo
      ensures TriedHome(c, t, x) && RefsMatch(c, t, x) && Listed(t, x)
    {
      assert x != id ==> TriedHome(c, s, x) && RefsMatch(c, s, x) && Listed(s, x);
    }
  }

  /** A slot that a new entry may be referred to from. */
  predicate FreeSlot(c: Config, s: State, id: int, slot: Slot)
    requires ValidConfig(c) && id in s.mapInfo
  {
    && slot !in s.vvNew && 0 <= slot.bucket < c.newBuckets && slot == NewSlot(c, s.key, s.mapInfo[id].svc, slot.bucket)
    && !s.mapInfo[id].inTried && s.mapInfo[id].refCount < NEW_BUCKETS_PER_ADDRESS
  }

  lemma {:induction false} RefSolid(c: Config, s: State, id: int, slot: Slot)
    requires ValidConfig(c) && Solid(c, s) && id in s.mapInfo && FreeSlot(c, s, id, slot)
    ensures Solid(c, AddRef(s, id, slot))
  {
    var t := AddRef(s, id, slot);
    forall x | x in t.vvTried
      ensures TriedAt(c, t, x)
    {
      assert TriedAt(c, s, x);
    }
    forall x | x in t.vvNew
      ensures NewAt(c, t, x)
    {
      assert x in s.vvNew ==> NewAt(c, s, x);
    }
    forall a | a in t.mapAddr
      ensures AddrAt(t, a)
    {
      assert AddrAt(s, a);
    }
    forall x | x in t.mapInfo
      ensures TriedHome(c, t, x) && RefsMatch(c, t, x) && Listed(t, x)
    {
      assert TriedHome(c, s, x) && RefsMatch(c, s, x) && Listed(s, x);
      RefsAdded(c, s.key, s.vvNew, slot, id, s.mapInfo[id].svc, x, s.mapInfo[x].svc);
    }
  }

  // ----- loading -----

  ghost function UpTo(k: nat): (r: set<int>)
    ensures |r| == k && forall i :: i in r <==> 0 <= i < k
  {
    if k == 0 then {} else UpTo(k - 1) + {k - 1}
  }

  lemma {:induction false} FreshIds(m: map<int, Info>, id: int, info: Info)
    requires id !in m
    ensures TriedIds(m[id := info]) == if info.inTried then TriedIds(m) + {id} else TriedIds(m)
    ensures NewIds(m[id := info]) == if info.inTried then NewIds(m) else NewIds(m) + {id}
    ensures id !in TriedIds(m) && id !in NewIds(m)
  {
  }

  /** Every entry is new or tried. */
  lemma {:induction false} IdOf(m: map<int, Info>, id: int)
    requires id in m
    ensures id in NewIds(m) || id in TriedIds(m)
  {
  }

  /** The first `k` new entries have been read. */
  ghost predicate NewRead(c: Config, d: Dump, s: State, k: nat)
    requires ValidConfig(c)
  {
    && Solid(c, s) && NewIds(s.mapInfo) == UpTo(k) && TriedIds(s.mapInfo) == {} && s.vvTried == map[]
    && s.nNew == d.nNew && s.nTried == d.nTried
  }

  lemma {:induction false} NewReadStep(c: Config, d: Dump, s: State, k: nat, r: Record, usable: bool)
    requires ValidConfig(c) && NewRead(c, d, s, k)
    ensures NewRead(c, d, LoadNewOne(c, s, k, r, usable), k + 1)
  {
    var t := s.(mapInfo := s.mapInfo[k := Loaded(r, |s.vRandom|, false)], mapAddr := s.mapAddr[r.svc.addr := k],
      vRandom := s.vRandom + [k]);
    if k in s.mapInfo {
      IdOf(s.mapInfo, k);
      assert false;
    }
    EntersSolid(c, s, t, k, r, false);
    FreshIds(s.mapInfo, k, Loaded(r, |s.vRandom|, false));
    var slot := NewSlot(c, s.key, r.svc, NewBucket(c, s.key, r.svc, r.source));
    if !usable && slot !in t.vvNew {
      RefSolid(c, t, k, slot);
      IdsKept(t.mapInfo, k, AddRef(t, k, slot).mapInfo[k]);
    }
  }

  lemma {:induction false} LoadNewRead(c: Config, d: Dump, collisions: set<int>, rs: seq<Record>, usable: bool)
    requires ValidConfig(c)
    ensures NewRead(c, d, LoadNew(c, Emptied(d, collisions), rs, usable), |rs|)
  {
    if rs != [] {
      var k := |rs| - 1;
      LoadNewRead(c, d, collisions, rs[..k], usable);
      NewReadStep(c, d, LoadNew(c, Emptied(d, collisions), rs[..k], usable), k, rs[k], usable);
    }
  }

  /** `owed` tried entries are still to come; new entries have the ids below nNew. */
  ghost predicate TriedRead(c: Config, d: Dump, s: State, owed: int)
    requires ValidConfig(c)
  {
    && Solid(c, s) && s.nNew == d.nNew && NewIds(s.mapInfo) == UpTo(Times(d.nNew))
    && s.nTried == |TriedIds(s.mapInfo)| + owed
    && (0 <= d.nNew ==> IdsBelow(s, d.nNew))
  }

  ghost predicate IdsBelow(s: State, least: int) {
    least <= s.nIdCount && forall id :: id in s.mapInfo ==> 0 <= id < s.nIdCount
  }

  lemma {:induction false} TriedReadStep(c: Config, d: Dump, s: State, owed: int, r: Record)
    requires ValidConfig(c) && TriedRead(c, d, s, owed) && 0 <= d.nNew
    ensures TriedRead(c, d, LoadTriedOne(c, s, r), owed - 1)
  {
    var t := LoadTriedOne(c, s, r);
    if TriedSlot(c, s.key, r.svc) in s.vvTried {
      SolidScalars(c, s, t);
    } else {
      EntersSolid(c, s, t, s.nIdCount, r, true);
      EntersCounted(s, t, d.nNew, Loaded(r, |s.vRandom|, true));
    }
  }

  lemma {:induction false} EntersCounted(s: State, t: State, least: int, info: Info)
    requires IdsBelow(s, least) && 0 <= least && info.inTried
    requires t.mapInfo == s.mapInfo[s.nIdCount := info] && t.nIdCount == s.nIdCount + 1
    ensures IdsBelow(t, least) && NewIds(t.mapInfo) == NewIds(s.mapInfo)
    ensures |TriedIds(t.mapInfo)| == |TriedIds(s.mapInfo)| + 1
  {
    FreshIds(s.mapInfo, s.nIdCount, info);
  }

  lemma {:induction false} SolidScalars(c: Config, s: State, t: State)
    requires ValidConfig(c) && Solid(c, s)
    requires t == s.(nTried := t.nTried, nIdCount := t.nIdCount, vRandom := t.vRandom)
    ensures Solid(c, t)
  {
    forall x | x in t.vvTried
      ensures TriedAt(c, t, x)
    {
      assert TriedAt(c, s, x);
    }
    forall x | x in t.vvNew
      ensures NewAt(c, t, x)
    {
      assert NewAt(c, s, x);
    }
    forall a | a in t.mapAddr
      ensures AddrAt(t, a)
    {
      assert AddrAt(s, a);
    }
    forall x | x in t.mapInfo
      ensures TriedHome(c, t, x) && RefsMatch(c, t, x) && Listed(t, x)
    {
      assert TriedHome(c, s, x) && RefsMatch(c, s, x) && Listed(s, x);
    }
  }

  lemma {:induction false} LoadTriedRead(c: Config, d: Dump, s: State, owed: int, rs: seq<Record>)
    requires ValidConfig(c) && TriedRead(c, d, s, owed) && 0 <= d.nNew
    ensures TriedRead(c, d, LoadTried(c, s, rs), owed - |rs|)
  {
    if rs != [] {
      var k := |rs| - 1;
      LoadTriedRead(c, d, s, owed, rs[..k]);
      TriedReadStep(c, d, LoadTried(c, s, rs[..k]), owed - k, rs[k]);
    }
  }

  lemma {:induction false} PlaceIndexRead(c: Config, d: Dump, s: State, owed: int, b: int, x: int)
    requires ValidConfig(c) && TriedRead(c, d, s, owed) && 0 <= b < c.newBuckets
    ensures TriedRead(c, d, PlaceIndex(c, s, d.nNew, b, x), owed)
  {
    if 0 <= x < d.nNew && x in s.mapInfo {
      assert x in NewIds(s.mapInfo);
      var slot := NewSlot(c, s.key, s.mapInfo[x].svc, b);
      if slot !in s.vvNew && s.mapInfo[x].refCount < NEW_BUCKETS_PER_ADDRESS {
        RefSolid(c, s, x, slot);
        IdsKept(s.mapInfo, x, AddRef(s, x, slot).mapInfo[x]);
      }
    }
  }

  lemma {:induction false} PlaceBucketRead(c: Config, d: Dump, s: State, owed: int, b: int, xs: seq<int>)
    requires ValidConfig(c) && TriedRead(c, d, s, owed) && 0 <= b < c.newBuckets
    ensures TriedRead(c, d, PlaceBucket(c, s, d.nNew, b, xs), owed)
  {
    if xs != [] {
      var k := |xs| - 1;
      PlaceBucketRead(c, d, s, owed, b, xs[..k]);
      PlaceIndexRead(c, d, PlaceBucket(c, s, d.nNew, b, xs[..k]), owed, b, xs[k]);
    }
  }

  lemma {:induction false} PlaceBucketsRead(c: Config, d: Dump, s: State, owed: int, bs: seq<seq<int>>)
    requires ValidConfig(c) && TriedRead(c, d, s, owed) && |bs| <= c.newBuckets
    ensures TriedRead(c, d, PlaceBuckets(c, s, d.nNew, bs), owed)
  {
    if bs != [] {
      var k := |bs| - 1;
      PlaceBucketsRead(c, d, s, owed, bs[..k]);
      PlaceBucketRead(c, d, PlaceBuckets(c, s, d.nNew, bs[..k]), owed, k, bs[k]);
    }
  }

  lemma {:induction false} AllNewRead(c: Config, d: Dump, collisions: set<int>)
    requires ValidConfig(c) && WellFormed(c, d) && 0 <= d.nNew
    ensures var u := LoadNew(c, Emptied(d, collisions), d.news, Usable(c, d));
      TriedRead(c, d, u.(nIdCount := d.nNew), d.nTried)
  {
    var u := LoadNew(c, Emptied(d, collisions), d.news, Usable(c, d));
    var s := u.(nIdCount := d.nNew);
    LoadNewRead(c, d, collisions, d.news, Usable(c, d));
    SolidScalars(c, u, s);
    forall id | id in s.mapInfo
      ensures 0 <= id < s.nIdCount
    {
      IdOf(s.mapInfo, id);
    }
  }

  lemma {:induction false} LoadAllRead(c: Config, d: Dump, collisions: set<int>)
    requires ValidConfig(c) && WellFormed(c, d) && 0 <= d.nNew
    ensures TriedRead(c, d, LoadAll(c, d, collisions), d.nTried - Times(d.nTried))
  {
    var s := LoadNew(c, Emptied(d, collisions), d.news, Usable(c, d)).(nIdCount := d.nNew);
    AllNewRead(c, d, collisions);
    LoadTriedRead(c, d, s, d.nTried, d.tried);
    if Usable(c, d) {
      PlaceBucketsRead(c, d, LoadTried(c, s, d.tried), d.nTried - |d.tried|, Lists(d.positions));
    }
  }

  // ----- pruning -----

  /** `t` is `s` without the entries in `gone`, their addresses and their share of nNew. */
  ghost predicate IsPruned(s: State, t: State, gone: set<int>)
    requires gone <= s.mapInfo.Keys
  {
    && t.mapInfo.Keys == s.mapInfo.Keys - gone
    && (forall id :: id in t.mapInfo ==> t.mapInfo[id] == s.mapInfo[id].(randomPos := t.mapInfo[id].randomPos))
    && (forall a :: a in t.mapAddr <==> a in s.mapAddr && !AddressGone(s, gone, a))
    && (forall a :: a in t.mapAddr ==> t.mapAddr[a] == s.mapAddr[a])
    && t == s.(mapInfo := t.mapInfo, mapAddr := t.mapAddr, vRandom := t.vRandom, nNew := s.nNew - |gone|)
  }

  ghost predicate AddressGone(s: State, gone: set<int>, a: NetAddr)
    requires gone <= s.mapInfo.Keys
  {
    exists id :: id in gone && s.mapInfo[id].svc.addr == a
  }

  lemma {:induction false} DeleteIsPruned(s: State, id: int)
    requires RandomConsistent(s) && id in s.mapInfo
    ensures IsPruned(s, Delete(s, id), {id})
  {
    DeleteEffect(s, id);
    var t := Delete(s, id);
    forall a
      ensures a in t.mapAddr <==> a in s.mapAddr && !AddressGone(s, {id}, a)
    {
      assert AddressGone(s, {id}, a) <==> s.mapInfo[id].svc.addr == a;
    }
  }

  lemma {:induction false} PrunedTwice(s: State, t: State, u: State, id: int, gone: set<int>)
    requires id in s.mapInfo && id !in gone && gone <= t.mapInfo.Keys && IsPruned(s, t, {id}) && IsPruned(t, u, gone)
    ensures gone + {id} <= s.mapInfo.Keys && IsPruned(s, u, gone + {id})
  {
    forall a
      ensures AddressGone(s, gone + {id}, a) <==> AddressGone(s, {id}, a) || AddressGone(t, gone, a)
    {
      if AddressGone(s, gone + {id}, a) {
        var x :| x in gone + {id} && s.mapInfo[x].svc.addr == a;
        assert x in {id} || (x in gone && t.mapInfo[x].svc.addr == a);
      }
      if AddressGone(t, gone, a) {
        var x :| x in gone && t.mapInfo[x].svc.addr == a;
        assert x in gone + {id} && s.mapInfo[x].svc.addr == a;
      }
      if AddressGone(s, {id}, a) {
        assert id in gone + {id};
      }
    }
  }

  lemma {:induction false} PruneIsPruned(s: State, gone: set<int>)
    requires RandomConsistent(s) && gone <= s.mapInfo.Keys
    ensures RandomConsistent(Prune(s, gone)) && IsPruned(s, Prune(s, gone), gone)
    decreases |gone|
  {
    if gone != {} {
      var id := Least(gone);
      DeleteKeepsRandom(s, id);
      DeleteIsPruned(s, id);
      PruneIsPruned(Delete(s, id), gone - {id});
      PrunedTwice(s, Delete(s, id), Prune(s, gone), id, gone - {id});
      assert gone - {id} + {id} == gone;
    } else {
      assert forall a :: !AddressGone(s, {}, a);
    }
  }

  // ----- when the result is consistent -----

  /** An entry that pruning leaves. */
  predicate Stays(i: Info) {
    i.inTried || i.refCount != 0
  }

  predicate HistorySane(i: Info) {
    if i.inTried then i.lastSuccess > 0 else i.lastSuccess >= 0
  }

  ghost predicate AddressAlone(m: map<int, Info>, id: int)
    requires id in m
  {
    forall other :: other in m && other != id ==> m[other].svc.addr != m[id].svc.addr
  }

  ghost predicate EntryFit(m: map<int, Info>, id: int)
    requires id in m
  {
    Stays(m[id]) ==> HistorySane(m[id]) && AddressAlone(m, id)
  }

  /** Every entry that stays has a sane history and an address that no other entry read has. */
  ghost predicate EntriesFit(m: map<int, Info>) {
    forall id {:trigger EntryFit(m, id)} :: id in m ==> EntryFit(m, id)
  }

  /** What pruning starts from and ends with. */
  ghost predicate Pruning(c: Config, s: State, t: State)
    requires ValidConfig(c)
  {
    && Solid(c, s) && Doomed(s.mapInfo) <= s.mapInfo.Keys && IsPruned(s, t, Doomed(s.mapInfo)) && RandomConsistent(t)
    && s.nTried == |TriedIds(s.mapInfo)| && s.nNew == |NewIds(s.mapInfo)| && IdsBelow(s, 0)
  }

  lemma {:induction false} StaysIff(s: State, t: State, id: int)
    requires Doomed(s.mapInfo) <= s.mapInfo.Keys && IsPruned(s, t, Doomed(s.mapInfo)) && id in s.mapInfo
    ensures id in t.mapInfo <==> Stays(s.mapInfo[id])
  {
  }

  lemma {:induction false} PrunedSane(c: Config, s: State, t: State)
    requires ValidConfig(c) && Pruning(c, s, t)
    ensures InfosSane(t) && TriedConsistent(c, t) ==>
      forall id :: id in s.mapInfo && Stays(s.mapInfo[id]) ==> HistorySane(s.mapInfo[id])
  {
    if InfosSane(t) && TriedConsistent(c, t) {
      forall id | id in s.mapInfo && Stays(s.mapInfo[id])
        ensures HistorySane(s.mapInfo[id])
      {
        StaysIff(s, t, id);
        assert InfoSane(t, id) && TriedOf(c, t, id);
      }
    }
  }

  lemma {:induction false} PrunedTried(c: Config, s: State, t: State)
    requires ValidConfig(c) && Pruning(c, s, t) && EntriesFit(s.mapInfo)
    ensures InfosSane(t) && TriedConsistent(c, t)
  {
    forall slot | slot in t.vvTried
      ensures TriedAt(c, t, slot)
    {
      assert TriedAt(c, s, slot);
      StaysIff(s, t, t.vvTried[slot]);
    }
    forall id | id in t.mapInfo
      ensures InfoSane(t, id) && TriedOf(c, t, id)
    {
      assert EntryFit(s.mapInfo, id) && TriedHome(c, s, id) && Listed(s, id);
      StaysIff(s, t, id);
    }
  }

  lemma {:induction false} PrunedNew(c: Config, s: State, t: State)
    requires ValidConfig(c) && Pruning(c, s, t)
    ensures NewConsistent(c, t, {})
  {
    forall slot | slot in t.vvNew
      ensures NewAt(c, t, slot)
    {
      assert NewAt(c, s, slot);
      var id := s.vvNew[slot];
      assert RefsMatch(c, s, id);
      assert slot.bucket in Refs(c, s.key, s.vvNew, s.mapInfo[id].svc, id);
      StaysIff(s, t, id);
    }
    forall id | id in t.mapInfo
      ensures NewOf(c, t, {}, id)
    {
      assert RefsMatch(c, s, id);
      StaysIff(s, t, id);
    }
  }

  lemma {:induction false} PrunedIds(s: State, t: State)
    requires Doomed(s.mapInfo) <= s.mapInfo.Keys && IsPruned(s, t, Doomed(s.mapInfo))
    ensures TriedIds(t.mapInfo) == TriedIds(s.mapInfo)
    ensures NewIds(t.mapInfo) == NewIds(s.mapInfo) - Doomed(s.mapInfo) && Doomed(s.mapInfo) <= NewIds(s.mapInfo)
  {
    forall id | id in s.mapInfo
      ensures id in TriedIds(t.mapInfo) <==> id in TriedIds(s.mapInfo)
      ensures id in NewIds(t.mapInfo) <==> id in NewIds(s.mapInfo) - Doomed(s.mapInfo)
    {
      StaysIff(s, t, id);
    }
  }

  lemma {:induction false} PrunedCounted(c: Config, s: State, t: State)
    requires ValidConfig(c) && Pruning(c, s, t)
    ensures Counted(t, {}, 0)
  {
    var gone := Doomed(s.mapInfo);
    PrunedIds(s, t);
    SplitOff(NewIds(s.mapInfo), gone);
    assert NewIds(t.mapInfo) - {} == NewIds(t.mapInfo);
  }

  lemma {:induction false} PrunedAddresses(c: Config, s: State, t: State)
    requires ValidConfig(c) && Pruning(c, s, t)
    requires forall id :: id in s.mapInfo && Stays(s.mapInfo[id]) ==> AddressAlone(s.mapInfo, id)
    ensures AddrConsistent(t)
  {
    forall id | id in t.mapInfo
      ensures AddrOf(t, id)
    {
      StaysIff(s, t, id);
      var a := s.mapInfo[id].svc.addr;
      assert Listed(s, id) && AddrAt(s, a) && AddressAlone(s.mapInfo, id);
      assert !AddressGone(s, Doomed(s.mapInfo), a);
    }
    forall a | a in t.mapAddr
      ensures AddrAt(t, a)
    {
      assert AddrAt(s, a) && !AddressGone(s, Doomed(s.mapInfo), a);
      StaysIff(s, t, s.mapAddr[a]);
    }
  }

  lemma {:induction false} ConsistentAlone(c: Config, s: State, t: State, id: int)
    requires ValidConfig(c) && Pruning(c, s, t) && AddrConsistent(t) && id in s.mapInfo && Stays(s.mapInfo[id])
    ensures AddressAlone(s.mapInfo, id)
  {
    StaysIff(s, t, id);
    var a := s.mapInfo[id].svc.addr;
    assert AddrOf(t, id);
    forall other | other in s.mapInfo && s.mapInfo[other].svc.addr == a
      ensures other == id
    {
      StaysIff(s, t, other);
      if other in t.mapInfo {
        assert AddrOf(t, other);
      } else {
        assert other in Doomed(s.mapInfo);
        assert AddressGone(s, Doomed(s.mapInfo), a);
      }
    }
  }

  lemma {:induction false} PrunedExact(c: Config, s: State, t: State)
    requires ValidConfig(c) && Pruning(c, s, t)
    ensures Consistent(c, t, {}, 0) <==> EntriesFit(s.mapInfo)
  {
    PrunedNew(c, s, t);
    PrunedCounted(c, s, t);
    if EntriesFit(s.mapInfo) {
      forall id | id in s.mapInfo && Stays(s.mapInfo[id])
        ensures AddressAlone(s.mapInfo, id)
      {
        assert EntryFit(s.mapInfo, id);
      }
      PrunedTried(c, s, t);
      PrunedAddresses(c, s, t);
    } else if Consistent(c, t, {}, 0) {
      PrunedSane(c, s, t);
      forall id | id in s.mapInfo && Stays(s.mapInfo[id])
        ensures AddressAlone(s.mapInfo, id)
      {
        ConsistentAlone(c, s, t, id);
      }
      assert false;
    }
  }

  lemma {:induction false} LoadNewUntouched(c: Config, s: State, rs: seq<Record>, usable: bool)
    requires ValidConfig(c)
    ensures LoadNew(c, s, rs, usable).nNew == s.nNew && LoadNew(c, s, rs, usable).collisions == s.collisions
  {
    if rs != [] {
      LoadNewUntouched(c, s, rs[..|rs| - 1], usable);
    }
  }

  lemma {:induction false} LoadTriedUntouched(c: Config, s: State, rs: seq<Record>)
    requires ValidConfig(c)
    ensures LoadTried(c, s, rs).nNew == s.nNew && LoadTried(c, s, rs).collisions == s.collisions
  {
    if rs != [] {
      LoadTriedUntouched(c, s, rs[..|rs| - 1]);
    }
  }

  lemma {:induction false} PlaceBucketUntouched(c: Config, s: State, limit: int, b: int, xs: seq<int>)
    requires ValidConfig(c)
    ensures PlaceBucket(c, s, limit, b, xs).nNew == s.nNew && PlaceBucket(c, s, limit, b, xs).collisions == s.collisions
  {
    if xs != [] {
      PlaceBucketUntouched(c, s, limit, b, xs[..|xs| - 1]);
    }
  }

  lemma {:induction false} PlaceBucketsUntouched(c: Config, s: State, limit: int, bs: seq<seq<int>>)
    requires ValidConfig(c)
    ensures PlaceBuckets(c, s, limit, bs).nNew == s.nNew && PlaceBuckets(c, s, limit, bs).collisions == s.collisions
  {
    if bs != [] {
      var k := |bs| - 1;
      PlaceBucketsUntouched(c, s, limit, bs[..k]);
      PlaceBucketUntouched(c, PlaceBuckets(c, s, limit, bs[..k]), limit, k, bs[k]);
    }
  }

  lemma {:induction false} LoadAllUntouched(c: Config, d: Dump, collisions: set<int>)
    requires ValidConfig(c)
    ensures LoadAll(c, d, collisions).nNew == d.nNew && LoadAll(c, d, collisions).collisions == collisions
  {
    var s := LoadNew(c, Emptied(d, collisions), d.news, Usable(c, d)).(nIdCount := d.nNew);
    LoadNewUntouched(c, Emptied(d, collisions), d.news, Usable(c, d));
    LoadTriedUntouched(c, s, d.tried);
    PlaceBucketsUntouched(c, LoadTried(c, s, d.tried), d.nNew, Lists(d.positions));
  }

  /** What a stream must say for the manager read from it to be consistent: no negative count, and of every entry that
      is not lost or pruned a sane history and an address that no other entry read has. */
  ghost predicate Fits(c: Config, d: Dump, collisions: set<int>)
    requires ValidConfig(c)
  {
    0 <= d.nNew && 0 <= d.nTried && EntriesFit(LoadAll(c, d, collisions).mapInfo)
  }

  lemma {:induction false} RestoreExact(c: Config, d: Dump, collisions: set<int>)
    requires ValidConfig(c) && WellFormed(c, d)
    ensures Sound(c, Restore(c, d, collisions)) <==> Fits(c, d, collisions)
    ensures Consistent(c, Restore(c, d, collisions), {}, 0) <==> Fits(c, d, collisions)
    ensures Restore(c, d, collisions).collisions == collisions
  {
    var s, t := LoadAll(c, d, collisions), Restore(c, d, collisions);
    LoadAllForm(c, d, collisions);
    PruneIsPruned(s, Doomed(s.mapInfo));
    LoadAllUntouched(c, d, collisions);
    if 0 <= d.nNew {
      LoadAllRead(c, d, collisions);
      PrunedIds(s, t);
      if 0 <= d.nTried {
        PrunedExact(c, s, t);
      }
    }
  }

  /** Whatever the stream: where it can be read, the manager is consistent if and only if the stream fits. */
  lemma {:induction false} LoadExact(c: Config, s: seq<Item>, collisions: set<int>)
    requires ValidConfig(c) && Read(c, s).Some?
    ensures var r := Unserialize(c, s, collisions);
      r.Some? && (Consistent(c, r.value, {}, 0) <==> Fits(c, Read(c, s).value, collisions))
  {
    ReadForm(c, s);
    RestoreExact(c, Read(c, s).value, collisions);
  }

  // ----- a condition on the records alone -----

  /** Every entry of `m` comes from a record of its own, the first `n` of which are those of new entries. */
  ghost predicate Origin(m: map<int, Info>, all: seq<Record>, n: nat, f: map<int, nat>) {
    && f.Keys == m.Keys && (forall id {:trigger OriginAt(m, all, n, f, id)} :: id in m ==> OriginAt(m, all, n, f, id))
    && forall i, j {:trigger f[i], f[j]} :: i in m && j in m && i != j ==> f[i] != f[j]
  }

  ghost predicate OriginAt(m: map<int, Info>, all: seq<Record>, n: nat, f: map<int, nat>, id: int)
    requires id in m && f.Keys == m.Keys
  {
    && f[id] < |all| && m[id].svc == all[f[id]].svc && m[id].lastSuccess == all[f[id]].lastSuccess
    && (m[id].inTried <==> f[id] >= n)
  }

  /** The entries are the same but for their references. */
  ghost predicate SameRecords(m: map<int, Info>, m': map<int, Info>) {
    m'.Keys == m.Keys && forall id {:trigger m'[id]} :: id in m ==>
      m'[id].svc == m[id].svc && m'[id].lastSuccess == m[id].lastSuccess && m'[id].inTried == m[id].inTried
  }

  lemma {:induction false} OriginKept(m: map<int, Info>, m': map<int, Info>, all: seq<Record>, n: nat, f: map<int, nat>)
    requires Origin(m, all, n, f) && SameRecords(m, m')
    ensures Origin(m', all, n, f)
  {
    forall id | id in m'
      ensures OriginAt(m', all, n, f, id)
    {
      assert OriginAt(m, all, n, f, id);
    }
  }

  /** A further entry comes from a further record. */
  lemma {:induction false} OriginGrows(
    m: map<int, Info>, all: seq<Record>, n: nat, f: map<int, nat>, id: int, info: Info, r: Record)
    requires Origin(m, all, n, f) && id !in m && info.svc == r.svc && info.lastSuccess == r.lastSuccess
    requires info.inTried <==> |all| >= n
    ensures Origin(m[id := info], all + [r], n, f[id := |all|])
  {
    var m', f', all' := m[id := info], f[id := |all|], all + [r];
    forall x | x in m'
      ensures OriginAt(m', all', n, f', x)
    {
      assert x in m ==> OriginAt(m, all, n, f, x);
    }
    forall i, j | i in m' && j in m' && i != j
      ensures f'[i] != f'[j]
    {
      assert i in m ==> OriginAt(m, all, n, f, i);
      assert j in m ==> OriginAt(m, all, n, f, j);
    }
  }

  /** A record that gives no entry. */
  lemma {:induction false} OriginSkips(m: map<int, Info>, all: seq<Record>, n: nat, f: map<int, nat>, r: Record)
    requires Origin(m, all, n, f)
    ensures Origin(m, all + [r], n, f)
  {
    forall x | x in m
      ensures OriginAt(m, all + [r], n, f, x)
    {
      assert OriginAt(m, all, n, f, x);
    }
  }

  lemma {:induction false} LoadNewOrigin(
    c: Config, d: Dump, collisions: set<int>, rs: seq<Record>, n: nat, usable: bool) returns (f: map<int, nat>)
    requires ValidConfig(c) && |rs| <= n
    ensures Origin(LoadNew(c, Emptied(d, collisions), rs, usable).mapInfo, rs, n, f)
  {
    f := map[];
    if rs != [] {
      var k := |rs| - 1;
      var s := LoadNew(c, Emptied(d, collisions), rs[..k], usable);
      f := LoadNewOrigin(c, d, collisions, rs[..k], n, usable);
      LoadNewForm(c, d, collisions, rs[..k], usable);
      var info := Loaded(rs[k], |s.vRandom|, false);
      OriginGrows(s.mapInfo, rs[..k], n, f, k, info, rs[k]);
      assert rs == rs[..k] + [rs[k]];
      OriginKept(s.mapInfo[k := info], LoadNewOne(c, s, k, rs[k], usable).mapInfo, rs, n, f[k := k]);
      f := f[k := k];
    }
  }

  lemma {:induction false} LoadTriedOrigin(
    c: Config, s: State, news: seq<Record>, rs: seq<Record>, f0: map<int, nat>) returns (f: map<int, nat>)
    requires ValidConfig(c) && RandomConsistent(s) && Origin(s.mapInfo, news, |news|, f0)
    requires forall id :: id in s.mapInfo ==> id < s.nIdCount
    ensures Origin(LoadTried(c, s, rs).mapInfo, news + rs, |news|, f)
  {
    f := f0;
    if rs == [] {
      EmptyAppend(news);
    } else {
      var k := |rs| - 1;
      var u := LoadTried(c, s, rs[..k]);
      f := LoadTriedOrigin(c, s, news, rs[..k], f0);
      LoadTriedForm(c, s, rs[..k]);
      AppendTake(news, rs, k);
      assert rs[..k + 1] == rs;
      if TriedSlot(c, u.key, rs[k].svc) in u.vvTried {
        OriginSkips(u.mapInfo, news + rs[..k], |news|, f, rs[k]);
      } else {
        var id := u.nIdCount;
        OriginGrows(u.mapInfo, news + rs[..k], |news|, f, id, Loaded(rs[k], |u.vRandom|, true), rs[k]);
        f := f[id := |news| + k];
      }
    }
  }

  lemma {:induction false} PlaceBucketRecords(c: Config, s: State, limit: int, b: int, xs: seq<int>)
    requires ValidConfig(c)
    ensures SameRecords(s.mapInfo, PlaceBucket(c, s, limit, b, xs).mapInfo)
  {
    if xs != [] {
      PlaceBucketRecords(c, s, limit, b, xs[..|xs| - 1]);
    }
  }

  lemma {:induction false} PlaceBucketsRecords(c: Config, s: State, limit: int, bs: seq<seq<int>>)
    requires ValidConfig(c)
    ensures SameRecords(s.mapInfo, PlaceBuckets(c, s, limit, bs).mapInfo)
  {
    if bs != [] {
      var k := |bs| - 1;
      PlaceBucketsRecords(c, s, limit, bs[..k]);
      PlaceBucketRecords(c, PlaceBuckets(c, s, limit, bs[..k]), limit, k, bs[k]);
    }
  }

  lemma {:induction false} LoadAllOrigin(c: Config, d: Dump, collisions: set<int>) returns (f: map<int, nat>)
    requires ValidConfig(c) && WellFormed(c, d)
    ensures Origin(LoadAll(c, d, collisions).mapInfo, d.news + d.tried, |d.news|, f)
  {
    var u := LoadNew(c, Emptied(d, collisions), d.news, Usable(c, d));
    var s := u.(nIdCount := d.nNew);
    f := LoadNewOrigin(c, d, collisions, d.news, |d.news|, Usable(c, d));
    LoadNewForm(c, d, collisions, d.news, Usable(c, d));
    SameRandom(u, s);
    f := LoadTriedOrigin(c, s, d.news, d.tried, f);
    var t := LoadTried(c, s, d.tried);
    PlaceBucketsRecords(c, t, d.nNew, Lists(d.positions));
    OriginKept(t.mapInfo, LoadAll(c, d, collisions).mapInfo, d.news + d.tried, |d.news|, f);
  }

  predicate RecordSane(all: seq<Record>, n: nat, i: nat)
    requires i < |all|
  {
    all[i].lastSuccess >= 0 && (i >= n ==> all[i].lastSuccess > 0)
  }

  /** Addresses that do not repeat, and histories that are sane. */
  predicate RecordsFit(all: seq<Record>, n: nat) {
    && (forall i {:trigger RecordSane(all, n, i)} :: 0 <= i < |all| ==> RecordSane(all, n, i))
    && forall i, j {:trigger all[i], all[j]} :: 0 <= i < j < |all| ==> all[i].svc.addr != all[j].svc.addr
  }

  /** Such records always fit, whatever is lost or pruned of them. */
  lemma {:induction false} GoodRecordsFit(c: Config, d: Dump, collisions: set<int>)
    requires ValidConfig(c) && WellFormed(c, d) && 0 <= d.nNew && 0 <= d.nTried
    requires RecordsFit(d.news + d.tried, |d.news|)
    ensures Fits(c, d, collisions)
  {
    var all, m := d.news + d.tried, LoadAll(c, d, collisions).mapInfo;
    var f := LoadAllOrigin(c, d, collisions);
    forall id | id in m
      ensures EntryFit(m, id)
    {
      assert OriginAt(m, all, |d.news|, f, id) && RecordSane(all, |d.news|, f[id]);
      forall other | other in m && other != id
        ensures m[other].svc.addr != m[id].svc.addr
      {
        assert OriginAt(m, all, |d.news|, f, other) && f[id] != f[other];
        var i, j := if f[id] < f[other] then f[id] else f[other], if f[id] < f[other] then f[other] else f[id];
        assert all[i].svc.addr != all[j].svc.addr;
      }
    }
  }

  /** A stream of two new entries in the layout of version 0. */
  function TwoEntries(key: nat, first: Record, second: Record): seq<Item> {
    [Num(0), Num(KEY_SIZE), Key(key), Num(2), Num(0), Num(0), Item.Entry(first), Item.Entry(second)]
  }

  /** A repeated address: the stream is read without complaint, but its manager is not consistent. */
  lemma {:induction false} RepeatedAddressLoads(
    c: Config, key: nat, first: Record, second: Record, collisions: set<int>)
    requires ValidConfig(c) && 2 <= c.newBuckets * c.bucketSize && first.svc.addr == second.svc.addr
    ensures var r := Unserialize(c, TwoEntries(key, first, second), collisions);
      r.Some? && !Consistent(c, r.value, {}, 0)
  {
    var s := TwoEntries(key, first, second);
    assert HeaderAt(c, s) && RecordsAt(s, 6, 2) == [first, second] && RecordsAt(s, 8, 0) == [];
    var d := Dump(0, key, 2, 0, 0, [first, second], [], []);
    assert Read(c, s) == Some(d);
    var m := LoadAll(c, d, collisions).mapInfo;
    var one := LoadNew(c, Emptied(d, collisions), [first], false);
    assert [first, second][..1] == [first] && [first][..0] == [];
    assert LoadNew(c, Emptied(d, collisions), [], false) == Emptied(d, collisions);
    assert one.mapInfo.Keys == {0} && one.mapInfo[0].refCount == 1;
    assert 0 in m && 1 in m && m[0].refCount == 1 && m[0].svc == first.svc && m[1].svc == second.svc;
    assert !EntryFit(m, 0);
    LoadExact(c, s, collisions);
  }

  // ----- and stays so -----

  /** A manager read from any stream that fits, with no collision recorded before, is healthy over every later run. */
  lemma {:induction false} LoadedRunHealthy(
    c: Config, s: seq<Item>, states: seq<State>, ops: seq<Op>, n: nat)
    requires ValidConfig(c) && Read(c, s).Some? && Fits(c, Read(c, s).value, {})
    requires IsRun(c, states, ops) && n <= |ops| && Unserialize(c, s, {}) == Some(states[0])
    ensures Healthy(c, states[n])
  {
    ReadForm(c, s);
    RestoreExact(c, Read(c, s).value, {});
    EveryRunHealthy(c, states, ops, n);
  }

  /** A manager saved and read back is healthy over every later run. */
  lemma {:induction false} SavedRunHealthy(c: Config, a: State, states: seq<State>, ops: seq<Op>, n: nat)
    requires Consistent(c, a, {}, 0)
    requires IsRun(c, states, ops) && n <= |ops| && Unserialize(c, Serialize(c, a), {}) == Some(states[0])
    ensures Healthy(c, states[n])
  {
    RoundTrip(c, a, {});
    EveryRunHealthy(c, states, ops, n);
  }
}
