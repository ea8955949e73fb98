/** What Unserialize rebuilds from the contents of a dump, and that it rebuilds the manager that was dumped. */
module AddrManRestore {
  import opened Collections
  import opened AddrManModel
  import opened AddrManOps
  import opened AddrManCheck

  /** The part of a CAddrInfo that is written. */
  datatype Record = Record(svc: Service, services: Services, time: int, source: NetAddr, lastSuccess: int,
    attempts: int)

  function Saved(i: Info): Record {
    Record(i.svc, i.services, i.time, i.source, i.lastSuccess, i.attempts)
  }

  function Loaded(r: Record, pos: int, tried: bool): Info {
    Info(r.svc, r.services, r.time, 0, 0, r.source, r.lastSuccess, r.attempts, 0, tried, pos)
  }

  /** One new entry read; where the new table cannot be used it is referenced from its primary bucket. */
  function LoadNewOne(c: Config, s: State, n: nat, r: Record, usable: bool): State
    requires ValidConfig(c)
  {
    var t := s.(mapInfo := s.mapInfo[n := Loaded(r, |s.vRandom|, false)], mapAddr := s.mapAddr[r.svc.addr := n],
      vRandom := s.vRandom + [n]);
    var slot := NewSlot(c, s.key, r.svc, NewBucket(c, s.key, r.svc, r.source));
    if usable || slot in t.vvNew then t else AddRef(t, n, slot)
  }

  function LoadNew(c: Config, s: State, rs: seq<Record>, usable: bool): State
    requires ValidConfig(c)
  {
    if rs == [] then s else
      var k := |rs| - 1;
      LoadNewOne(c, LoadNew(c, s, rs[..k], usable), k, rs[k], usable)
  }

  /** One tried entry read; it is lost where its slot is taken. */
  function LoadTriedOne(c: Config, s: State, r: Record): State
    requires ValidConfig(c)
  {
    var id, slot := s.nIdCount, TriedSlot(c, s.key, r.svc);
    if slot in s.vvTried then s.(nTried := s.nTried - 1)
    else s.(nIdCount := id + 1, mapInfo := s.mapInfo[id := Loaded(r, |s.vRandom|, true)],
      mapAddr := s.mapAddr[r.svc.addr := id],
            vRandom := s.vRandom + [id], vvTried := s.vvTried[slot := id])
  }

  function LoadTried(c: Config, s: State, rs: seq<Record>): State
    requires ValidConfig(c)
  {
    if rs == [] then s else
      var k := |rs| - 1;
      LoadTriedOne(c, LoadTried(c, s, rs[..k]), rs[k])
  }

  /** One index read from a bucket: a reference, where the index is one of the new entries and the slot is free. */
  function PlaceIndex(c: Config, s: State, limit: int, bucket: int, index: int): State
    requires ValidConfig(c)
  {
    if 0 <= index < limit && index in s.mapInfo then
      var slot := NewSlot(c, s.key, s.mapInfo[index].svc, bucket);
      if slot !in s.vvNew && s.mapInfo[index].refCount < NEW_BUCKETS_PER_ADDRESS then AddRef(s, index, slot) else s
    else s
  }

  function PlaceBucket(c: Config, s: State, limit: int, bucket: int, indexes: seq<int>): State
    requires ValidConfig(c)
  {
    if indexes == [] then s else
      var k := |indexes| - 1;
      PlaceIndex(c, PlaceBucket(c, s, limit, bucket, indexes[..k]), limit, bucket, indexes[k])
  }

  function PlaceBuckets(c: Config, s: State, limit: int, buckets: seq<seq<int>>): State
    requires ValidConfig(c)
  {
    if buckets == [] then s else
      var k := |buckets| - 1;
      PlaceBucket(c, PlaceBuckets(c, s, limit, buckets[..k]), limit, k, buckets[k])
  }

  // ----- ids in the order they are written -----

  /** A set in ascending order, as std::map iterates. */
  ghost function Ascending(ids: set<int>): seq<int>
    decreases |ids|
  {
    if ids == {} then [] else [Least(ids)] + Ascending(ids - {Least(ids)})
  }

  ghost predicate Differ(ids: seq<int>, i: int, j: int)
    requires 0 <= i < j < |ids|
  {
    ids[i] != ids[j]
  }

  ghost predicate Distinct(ids: seq<int>) {
    forall i, j {:trigger Differ(ids, i, j)} :: 0 <= i < j < |ids| ==> Differ(ids, i, j)
  }

  lemma {:induction false} AscendingExact(ids: set<int>)
    ensures |Ascending(ids)| == |ids| && Distinct(Ascending(ids)) && forall x :: x in Ascending(ids) <==> x in ids
    decreases |ids|
  {
    if ids != {} {
      var x, rest := Least(ids), Ascending(ids - {Least(ids)});
      AscendingExact(ids - {x});
      var all := [x] + rest;
      forall i, j | 0 <= i < j < |all|
        ensures Differ(all, i, j)
      {
        if i == 0 {
          assert rest[j - 1] in rest;
        } else {
          assert Differ(rest, i - 1, j - 1);
        }
      }
    }
  }

  lemma {:induction false} AscendingAt(ids: set<int>, n: nat)
    requires n < |Ascending(ids)|
    ensures Ascending(ids)[n] in ids
    decreases |ids|
  {
    if n > 0 {
      AscendingAt(ids - {Least(ids)}, n - 1);
    }
  }

  /** The position of an id in a list, and -1 for an id that is not listed. */
  ghost function Rank(ids: seq<int>, x: int): (r: int)
    ensures -1 <= r < |ids| && (r >= 0 ==> ids[r] == x)
  {
    if x in ids then
      var i :| 0 <= i < |ids| && ids[i] == x;
      i
    else -1
  }

  lemma {:induction false} Injective(ids: seq<int>, i: nat, j: nat)
    requires Distinct(ids) && i < |ids| && j < |ids|
    ensures ids[i] == ids[j] ==> i == j
  {
    if i < j {
      assert Differ(ids, i, j);
    } else if j < i {
      assert Differ(ids, j, i);
    }
  }

  lemma {:induction false} RankOf(ids: seq<int>, n: nat)
    requires Distinct(ids) && n < |ids|
    ensures Rank(ids, ids[n]) == n
  {
    RankListed(ids, n);
    Injective(ids, Rank(ids, ids[n]), n);
  }

  /** The ids as they are written: first the new ones, then the tried ones. */
  ghost function Order(s: State): seq<int> {
    Ascending(NewIds(s.mapInfo)) + Ascending(TriedIds(s.mapInfo))
  }

  lemma {:induction false} OrderExact(c: Config, s: State)
    requires Consistent(c, s, {}, 0)
    ensures |Order(s)| == s.nNew + s.nTried && s.nNew == |Ascending(NewIds(s.mapInfo))|
    ensures Distinct(Order(s)) && forall x :: x in Order(s) <==> x in s.mapInfo
    ensures forall n :: 0 <= n < |Order(s)| ==>
      Order(s)[n] in s.mapInfo && (s.mapInfo[Order(s)[n]].inTried <==> n >= s.nNew)
  {
    var news, tried := Ascending(NewIds(s.mapInfo)), Ascending(TriedIds(s.mapInfo));
    AscendingExact(NewIds(s.mapInfo));
    AscendingExact(TriedIds(s.mapInfo));
    assert NewIds(s.mapInfo) - {} == NewIds(s.mapInfo);
    forall n | 0 <= n < |Order(s)|
      ensures Order(s)[n] in s.mapInfo && (s.mapInfo[Order(s)[n]].inTried <==> n >= s.nNew)
    {
      if n < |news| {
        assert Order(s)[n] == news[n] && news[n] in news;
      } else {
        assert Order(s)[n] == tried[n - |news|] && tried[n - |news|] in tried;
      }
    }
    var ids := Order(s);
    forall i, j | 0 <= i < j < |ids|
      ensures Differ(ids, i, j)
    {
      if j < |news| {
        assert Differ(news, i, j);
      } else if i >= |news| {
        assert Differ(tried, i - |news|, j - |news|);
      }
    }
  }

  // ----- the rebuilt manager, entry by entry -----

  /** The entry of `id` as it is rebuilt at position `n`, with the references found before slot (b, i). */
  ghost function Rebuilt(c: Config, a: State, id: int, n: int, b: nat, i: nat): Info
    requires ValidConfig(c) && id in a.mapInfo
  {
    a.mapInfo[id].(lastTry := 0, lastCountAttempt := 0, randomPos := n, refCount := |Found(c, a, id, b, i)|)
  }

  ghost function Iota(k: nat): seq<int> {
    seq(k, i => i)
  }

  ghost predicate Within(a: State, ids: seq<int>) {
    forall n {:trigger ids[n]} :: 0 <= n < |ids| ==> ids[n] in a.mapInfo
  }

  ghost function Infos(c: Config, a: State, ids: seq<int>, k: nat, b: nat, i: nat): map<int, Info>
    requires ValidConfig(c) && k <= |ids| && Within(a, ids)
  {
    map n | 0 <= n < k :: Rebuilt(c, a, ids[n], n, b, i)
  }

  ghost function Addrs(a: State, ids: seq<int>, k: nat): map<NetAddr, int> {
    map x | x in a.mapAddr && 0 <= Rank(ids, a.mapAddr[x]) < k :: Rank(ids, a.mapAddr[x])
  }

  ghost function TriedTable(a: State, ids: seq<int>, k: nat): Table {
    map slot | slot in a.vvTried && 0 <= Rank(ids, a.vvTried[slot]) < k :: Rank(ids, a.vvTried[slot])
  }

  ghost function NewTable(a: State, ids: seq<int>, b: nat, i: nat): Table {
    map slot | slot in a.vvNew && Before(slot, b, i) :: Rank(ids, a.vvNew[slot])
  }

  /** `a` rebuilt from its first `k` entries and its new slots before (b, i). */
  ghost function Partial(
    c: Config, a: State, ids: seq<int>, k: nat, b: nat, i: nat, count: int, collisions: set<int>): State
    requires ValidConfig(c) && k <= |ids| && Within(a, ids)
  {
    State(a.key, count, Infos(c, a, ids, k, b, i), Addrs(a, ids, k), Iota(k), a.nTried, TriedTable(a, ids, k), a.nNew,
      NewTable(a, ids, b, i), 1, collisions)
  }

  ghost predicate Dumped(c: Config, a: State, ids: seq<int>) {
    && Consistent(c, a, {}, 0) && 0 <= a.nNew && 0 <= a.nTried && |ids| == a.nNew + a.nTried
    && Distinct(ids) && Within(a, ids)
    && (forall n {:trigger ids[n]} :: 0 <= n < |ids| ==> (a.mapInfo[ids[n]].inTried <==> n >= a.nNew))
    && (forall id {:trigger Rank(ids, id)} :: id in a.mapInfo ==> 0 <= Rank(ids, id))
  }

  lemma {:induction false} NoneFound(c: Config, a: State, id: int)
    requires Consistent(c, a, {}, 0) && id in a.mapInfo
    ensures Found(c, a, id, 0, 0) == {}
  {
    var svc := a.mapInfo[id].svc;
    forall b | b in Refs(c, a.key, a.vvNew, svc, id)
      ensures !Before(NewSlot(c, a.key, svc, b), 0, 0)
    {
    }
  }

  lemma {:induction false} LoadedIsRebuilt(c: Config, a: State, ids: seq<int>, k: nat)
    requires Dumped(c, a, ids) && k < |ids|
    ensures Loaded(Saved(a.mapInfo[ids[k]]), k, k >= a.nNew) == Rebuilt(c, a, ids[k], k, 0, 0)
  {
    NoneFound(c, a, ids[k]);
  }

  lemma {:induction false} InfosGrow(c: Config, a: State, ids: seq<int>, k: nat)
    requires ValidConfig(c) && Within(a, ids) && k < |ids|
    ensures Infos(c, a, ids, k + 1, 0, 0) == Infos(c, a, ids, k, 0, 0)[k := Rebuilt(c, a, ids[k], k, 0, 0)]
  {
  }

  lemma {:induction false} AddrsGrow(c: Config, a: State, ids: seq<int>, k: nat)
    requires Dumped(c, a, ids) && k < |ids|
    ensures Addrs(a, ids, k + 1) == Addrs(a, ids, k)[a.mapInfo[ids[k]].svc.addr := k]
  {
    RankOf(ids, k);
    assert AddrOf(a, ids[k]);
    forall x | x in a.mapAddr && Rank(ids, a.mapAddr[x]) == k
      ensures x == a.mapInfo[ids[k]].svc.addr
    {
      assert AddrAt(a, x);
    }
  }

  lemma {:induction false} IotaGrows(k: nat)
    ensures |Iota(k)| == k && Iota(k + 1) == Iota(k) + [k]
  {
  }

  lemma {:induction false} TriedGrows(c: Config, a: State, ids: seq<int>, k: nat)
    requires Dumped(c, a, ids) && k < |ids|
    ensures if k < a.nNew then TriedTable(a, ids, k + 1) == TriedTable(a, ids, k)
      else
        var slot := TriedSlot(c, a.key, a.mapInfo[ids[k]].svc);
        slot !in TriedTable(a, ids, k) && TriedTable(a, ids, k + 1) == TriedTable(a, ids, k)[slot := k]
  {
    RankOf(ids, k);
    assert TriedOf(c, a, ids[k]);
    forall slot | slot in a.vvTried && Rank(ids, a.vvTried[slot]) == k
      ensures k >= a.nNew && slot == TriedSlot(c, a.key, a.mapInfo[ids[k]].svc)
    {
      assert TriedAt(c, a, slot);
    }
  }

  lemma {:induction false} NewEntryLoads(c: Config, a: State, ids: seq<int>, k: nat, collisions: set<int>)
    requires Dumped(c, a, ids) && k < a.nNew
    ensures LoadNewOne(c, Partial(c, a, ids, k, 0, 0, 0, collisions), k, Saved(a.mapInfo[ids[k]]), true)
      == Partial(c, a, ids, k + 1, 0, 0, 0, collisions)
  {
    InfosGrow(c, a, ids, k);
    LoadedIsRebuilt(c, a, ids, k);
    AddrsGrow(c, a, ids, k);
    IotaGrows(k);
    TriedGrows(c, a, ids, k);
  }

  lemma {:induction false} TriedEntryLoads(c: Config, a: State, ids: seq<int>, k: nat, collisions: set<int>)
    requires Dumped(c, a, ids) && a.nNew <= k < |ids|
    ensures LoadTriedOne(c, Partial(c, a, ids, k, 0, 0, k, collisions), Saved(a.mapInfo[ids[k]]))
      == Partial(c, a, ids, k + 1, 0, 0, k + 1, collisions)
  {
    InfosGrow(c, a, ids, k);
    LoadedIsRebuilt(c, a, ids, k);
    AddrsGrow(c, a, ids, k);
    IotaGrows(k);
    TriedGrows(c, a, ids, k);
  }

  /** The records of the entries listed from `from` on. */
  ghost predicate IsRecords(a: State, ids: seq<int>, from: nat, rs: seq<Record>)
    requires Within(a, ids)
  {
    from + |rs| <= |ids| && forall n {:trigger rs[n]} :: 0 <= n < |rs| ==> rs[n] == Saved(a.mapInfo[ids[from + n]])
  }

  lemma {:induction false} RecordsPrefix(a: State, ids: seq<int>, from: nat, rs: seq<Record>, k: nat, n: nat)
    requires Within(a, ids) && IsRecords(a, ids, from, rs) && k + 1 == |rs| && n == from + k
    ensures IsRecords(a, ids, from, rs[..k]) && n < |ids| && rs[k] == Saved(a.mapInfo[ids[n]])
  {
  }

  lemma {:induction false} NewEntriesLoad(c: Config, a: State, ids: seq<int>, rs: seq<Record>, collisions: set<int>)
    requires Dumped(c, a, ids) && IsRecords(a, ids, 0, rs) && |rs| <= a.nNew
    ensures LoadNew(c, Partial(c, a, ids, 0, 0, 0, 0, collisions), rs, true) ==
      Partial(c, a, ids, |rs|, 0, 0, 0, collisions)
  {
    if rs != [] {
      var k := |rs| - 1;
      RecordsPrefix(a, ids, 0, rs, k, k);
      NewEntriesLoad(c, a, ids, rs[..k], collisions);
      NewEntryLoads(c, a, ids, k, collisions);
    }
  }

  ghost predicate LoadsAt(c: Config, rs: seq<Record>, states: seq<State>, k: int)
    requires ValidConfig(c) && 0 <= k < |rs| && |states| == |rs| + 1
  {
    LoadTriedOne(c, states[k], rs[k]) == states[k + 1]
  }

  lemma {:induction false} LoadTriedThrough(c: Config, rs: seq<Record>, states: seq<State>)
    requires ValidConfig(c) && |states| == |rs| + 1
    requires forall k {:trigger LoadsAt(c, rs, states, k)} :: 0 <= k < |rs| ==> LoadsAt(c, rs, states, k)
    ensures LoadTried(c, states[0], rs) == states[|rs|]
  {
    if rs != [] {
      var n := |rs| - 1;
      var front, through := rs[..n], states[..n + 1];
      forall k | 0 <= k < n
        ensures LoadsAt(c, front, through, k)
      {
        assert LoadsAt(c, rs, states, k);
      }
      LoadTriedThrough(c, front, through);
      assert LoadsAt(c, rs, states, n);
    }
  }

  ghost function Stages(c: Config, a: State, ids: seq<int>, from: nat, n: nat, collisions: set<int>): (r: seq<State>)
    requires ValidConfig(c) && from + n <= |ids| && Within(a, ids)
    ensures |r| == n + 1
  {
    seq(n + 1, k requires 0 <= k <= n => Partial(c, a, ids, from + k, 0, 0, from + k, collisions))
  }

  lemma {:induction false} TriedLoadsAt(
    c: Config, a: State, ids: seq<int>, rs: seq<Record>, k: nat, collisions: set<int>)
    requires Dumped(c, a, ids) && IsRecords(a, ids, a.nNew, rs) && k < |rs|
    ensures LoadsAt(c, rs, Stages(c, a, ids, a.nNew, |rs|, collisions), k)
  {
    TriedEntryLoads(c, a, ids, a.nNew + k, collisions);
  }

  lemma {:induction false} TriedEntriesLoad(c: Config, a: State, ids: seq<int>, rs: seq<Record>, collisions: set<int>)
    requires Dumped(c, a, ids) && IsRecords(a, ids, a.nNew, rs) && a.nNew + |rs| == |ids|
    ensures LoadTried(c, Partial(c, a, ids, a.nNew, 0, 0, a.nNew, collisions), rs) ==
      Partial(c, a, ids, |ids|, 0, 0, |ids|, collisions)
  {
    var states := Stages(c, a, ids, a.nNew, |rs|, collisions);
    forall k | 0 <= k < |rs|
      ensures LoadsAt(c, rs, states, k)
    {
      TriedLoadsAt(c, a, ids, rs, k, collisions);
    }
    LoadTriedThrough(c, rs, states);
    assert states[0] == Partial(c, a, ids, a.nNew, 0, 0, a.nNew, collisions);
    assert states[|rs|] == Partial(c, a, ids, |ids|, 0, 0, |ids|, collisions);
  }

  lemma {:induction false} RankListed(ids: seq<int>, n: nat)
    requires n < |ids|
    ensures Rank(ids, ids[n]) >= 0
  {
  }

  lemma {:induction false} OrderDumped(c: Config, a: State)
    requires Consistent(c, a, {}, 0)
    ensures Dumped(c, a, Order(a))
  {
    OrderExact(c, a);
    var ids := Order(a);
    forall id | id in a.mapInfo
      ensures 0 <= Rank(ids, id)
    {
      assert id in ids;
      var n :| 0 <= n < |ids| && ids[n] == id;
      RankListed(ids, n);
    }
  }

  // ----- the new table, slot by slot -----

  /** What is known of an occupied slot of the new table. */
  lemma {:induction false} SlotHolds(c: Config, a: State, ids: seq<int>, slot: Slot)
    requires Dumped(c, a, ids) && slot in a.vvNew
    ensures var n := Rank(ids, a.vvNew[slot]);
      && 0 <= n < a.nNew && ids[n] == a.vvNew[slot] && 0 <= slot.bucket < c.newBuckets
      && slot == NewSlot(c, a.key, a.mapInfo[ids[n]].svc, slot.bucket)
  {
    assert NewAt(c, a, slot);
  }

  lemma {:induction false} InfosFind(c: Config, a: State, ids: seq<int>, b: nat, i: nat)
    requires Dumped(c, a, ids)
    ensures var m, next := Infos(c, a, ids, |ids|, b, i), Infos(c, a, ids, |ids|, b, i + 1);
      if Slot(b, i) !in a.vvNew then next == m
      else var r := Rank(ids, a.vvNew[Slot(b, i)]); r in m && next == m[r := m[r].(refCount := m[r].refCount + 1)]
  {
    var m, next := Infos(c, a, ids, |ids|, b, i), Infos(c, a, ids, |ids|, b, i + 1);
    var slot := Slot(b, i);
    if slot in a.vvNew {
      SlotHolds(c, a, ids, slot);
    }
    forall n | 0 <= n < |ids|
      ensures next[n] == if slot in a.vvNew && n == Rank(ids, a.vvNew[slot]) then m[n].(refCount := m[n].refCount + 1)
        else m[n]
    {
      RankOf(ids, n);
      FoundStep(c, a, ids[n], b, i);
    }
  }

  lemma {:induction false} NewTableGrows(a: State, ids: seq<int>, b: nat, i: nat)
    ensures var t, next := NewTable(a, ids, b, i), NewTable(a, ids, b, i + 1);
      if Slot(b, i) !in a.vvNew then next == t
        else Slot(b, i) !in t && next == t[Slot(b, i) := Rank(ids, a.vvNew[Slot(b, i)])]
  {
    BeforeNext(b, i, i + 1);
  }

  lemma {:induction false} RoomForReference(c: Config, a: State, ids: seq<int>, b: nat, i: nat)
    requires Dumped(c, a, ids) && Slot(b, i) in a.vvNew
    ensures var id := a.vvNew[Slot(b, i)]; id in a.mapInfo && |Found(c, a, id, b, i)| < NEW_BUCKETS_PER_ADDRESS
  {
    var id := a.vvNew[Slot(b, i)];
    SlotHolds(c, a, ids, Slot(b, i));
    assert NewOf(c, a, {}, id);
    FoundStep(c, a, id, b, i);
    SubsetSize(Found(c, a, id, b, i + 1), Refs(c, a.key, a.vvNew, a.mapInfo[id].svc, id));
  }

  /** Reading back the index of an occupied slot puts it there again; an empty slot changes nothing. */
  lemma {:induction false} SlotRestored(c: Config, a: State, ids: seq<int>, b: nat, i: nat, collisions: set<int>)
    requires Dumped(c, a, ids)
    ensures var s, next := Partial(c, a, ids, |ids|, b, i, |ids|, collisions),
      Partial(c, a, ids, |ids|, b, i + 1, |ids|, collisions);
      next == if Slot(b, i) in a.vvNew then PlaceIndex(c, s, a.nNew, b, Rank(ids, a.vvNew[Slot(b, i)])) else s
  {
    InfosFind(c, a, ids, b, i);
    NewTableGrows(a, ids, b, i);
    if Slot(b, i) in a.vvNew {
      SlotHolds(c, a, ids, Slot(b, i));
      RoomForReference(c, a, ids, b, i);
    }
  }

  /** The indexes written for bucket `b`: of its slots below position `i`, in order. */
  ghost function Indexes(a: State, ids: seq<int>, b: nat, i: nat): seq<int> {
    if i == 0 then [] else
      Indexes(a, ids, b, i - 1) + if Slot(b, i - 1) in a.vvNew then [Rank(ids, a.vvNew[Slot(b, i - 1)])] else []
  }

  lemma {:induction false} PlaceOneMore(c: Config, s: State, limit: int, b: nat, xs: seq<int>, x: int)
    requires ValidConfig(c)
    ensures PlaceBucket(c, s, limit, b, xs + [x]) == PlaceIndex(c, PlaceBucket(c, s, limit, b, xs), limit, b, x)
  {
    assert (xs + [x])[..|xs|] == xs;
  }

  lemma {:induction false} BucketRestored(c: Config, a: State, ids: seq<int>, b: nat, i: nat, collisions: set<int>)
    requires Dumped(c, a, ids)
    ensures PlaceBucket(c, Partial(c, a, ids, |ids|, b, 0, |ids|, collisions), a.nNew, b, Indexes(a, ids, b, i))
      == Partial(c, a, ids, |ids|, b, i, |ids|, collisions)
  {
    if i > 0 {
      BucketRestored(c, a, ids, b, i - 1, collisions);
      SlotRestored(c, a, ids, b, i - 1, collisions);
      var xs := Indexes(a, ids, b, i - 1);
      if Slot(b, i - 1) in a.vvNew {
        PlaceOneMore(c, Partial(c, a, ids, |ids|, b, 0, |ids|, collisions), a.nNew, b, xs,
          Rank(ids, a.vvNew[Slot(b, i - 1)]));
      } else {
        EmptyAppend(xs);
      }
    }
  }

  lemma {:induction false} NextBucket(c: Config, a: State, ids: seq<int>, b: nat, collisions: set<int>)
    requires Dumped(c, a, ids)
    ensures Partial(c, a, ids, |ids|, b + 1, 0, |ids|, collisions) ==
      Partial(c, a, ids, |ids|, b, c.bucketSize, |ids|, collisions)
  {
    forall slot | slot in a.vvNew
      ensures Before(slot, b + 1, 0) <==> Before(slot, b, c.bucketSize)
    {
      SlotHolds(c, a, ids, slot);
    }
    assert NewTable(a, ids, b + 1, 0) == NewTable(a, ids, b, c.bucketSize);
    forall n | 0 <= n < |ids|
      ensures Found(c, a, ids[n], b + 1, 0) == Found(c, a, ids[n], b, c.bucketSize)
    {
    }
    assert Infos(c, a, ids, |ids|, b + 1, 0) == Infos(c, a, ids, |ids|, b, c.bucketSize);
  }

  ghost function Positions(c: Config, a: State, ids: seq<int>, n: nat): seq<seq<int>> {
    if n == 0 then [] else Positions(c, a, ids, n - 1) + [Indexes(a, ids, n - 1, c.bucketSize)]
  }

  lemma {:induction false} PositionsCount(c: Config, a: State, ids: seq<int>, n: nat)
    ensures |Positions(c, a, ids, n)| == n
  {
    if n > 0 {
      PositionsCount(c, a, ids, n - 1);
    }
  }

  lemma {:induction false} BucketsRestored(c: Config, a: State, ids: seq<int>, n: nat, collisions: set<int>)
    requires Dumped(c, a, ids)
    ensures PlaceBuckets(c, Partial(c, a, ids, |ids|, 0, 0, |ids|, collisions), a.nNew, Positions(c, a, ids, n))
      == Partial(c, a, ids, |ids|, n, 0, |ids|, collisions)
  {
    if n > 0 {
      var bs := Positions(c, a, ids, n);
      PositionsCount(c, a, ids, n);
      PositionsCount(c, a, ids, n - 1);
      assert bs[..n - 1] == Positions(c, a, ids, n - 1);
      BucketsRestored(c, a, ids, n - 1, collisions);
      BucketRestored(c, a, ids, n - 1, c.bucketSize, collisions);
      NextBucket(c, a, ids, n - 1, collisions);
    }
  }

  // ----- the whole manager -----

  ghost function Renumbered(c: Config, a: State, collisions: set<int>): State
    requires Consistent(c, a, {}, 0)
  {
    OrderDumped(c, a);
    Partial(c, a, Order(a), |Order(a)|, c.newBuckets, 0, |Order(a)|, collisions)
  }

  ghost predicate SameTable(t: Table, u: Table, ids: seq<int>) {
    u.Keys == t.Keys && forall slot {:trigger u[slot]} :: slot in u ==> 0 <= u[slot] < |ids| && ids[u[slot]] == t[slot]
  }

  ghost predicate EntryKept(a: State, b: State, ids: seq<int>, n: int)
    requires 0 <= n < |ids| && ids[n] in a.mapInfo && n in b.mapInfo
  {
    b.mapInfo[n] == a.mapInfo[ids[n]].(lastTry := 0, lastCountAttempt := 0, randomPos := n)
  }

  /** `b` is `a` with its ids replaced by their positions in `ids`: same entries but for the fields kept in memory only,
      same addresses, same slots of both tables, same counters. */
  ghost predicate IsRenumbering(a: State, b: State, ids: seq<int>) {
    && Distinct(ids) && Within(a, ids) && (forall id {:trigger Rank(ids, id)} :: id in a.mapInfo ==> Rank(ids, id) >= 0)
    && (forall n {:trigger n in b.mapInfo} :: n in b.mapInfo <==> 0 <= n < |ids|)
    && (forall n {:trigger EntryKept(a, b, ids, n)} :: 0 <= n < |ids| ==> EntryKept(a, b, ids, n))
    && b.mapAddr.Keys == a.mapAddr.Keys && (forall x {:trigger b.mapAddr[x]} :: x in b.mapAddr ==>
        0 <= b.mapAddr[x] < |ids| && ids[b.mapAddr[x]] == a.mapAddr[x])
    && SameTable(a.vvTried, b.vvTried, ids) && SameTable(a.vvNew, b.vvNew, ids)
    && b.vRandom == Iota(|ids|) && b.key == a.key && b.nNew == a.nNew && b.nTried == a.nTried && b.nIdCount == |ids|
  }

  lemma {:induction false} AllFound(c: Config, a: State, id: int)
    requires Consistent(c, a, {}, 0) && id in a.mapInfo
    ensures |Found(c, a, id, c.newBuckets, 0)| == a.mapInfo[id].refCount
  {
    assert NewOf(c, a, {}, id);
    assert Found(c, a, id, c.newBuckets, 0) == Refs(c, a.key, a.vvNew, a.mapInfo[id].svc, id);
  }

  lemma {:induction false} RenumberedExact(c: Config, a: State, collisions: set<int>)
    requires Consistent(c, a, {}, 0)
    ensures IsRenumbering(a, Renumbered(c, a, collisions), Order(a))
  {
    OrderDumped(c, a);
    var ids, b := Order(a), Renumbered(c, a, collisions);
    forall n | 0 <= n < |ids|
      ensures EntryKept(a, b, ids, n)
    {
      AllFound(c, a, ids[n]);
    }
    AddrsSame(c, a, ids);
    TriedSame(c, a, ids);
    NewSame(c, a, ids);
  }

  lemma {:induction false} AddrsSame(c: Config, a: State, ids: seq<int>)
    requires Dumped(c, a, ids)
    ensures var m := Addrs(a, ids, |ids|); m.Keys == a.mapAddr.Keys && forall x :: x in m ==> ids[m[x]] == a.mapAddr[x]
  {
    forall x | x in a.mapAddr
      ensures 0 <= Rank(ids, a.mapAddr[x])
    {
      assert AddrAt(a, x);
    }
  }

  lemma {:induction false} TriedSame(c: Config, a: State, ids: seq<int>)
    requires Dumped(c, a, ids)
    ensures SameTable(a.vvTried, TriedTable(a, ids, |ids|), ids)
  {
    forall slot | slot in a.vvTried
      ensures 0 <= Rank(ids, a.vvTried[slot])
    {
      assert TriedAt(c, a, slot);
    }
  }

  lemma {:induction false} NewSame(c: Config, a: State, ids: seq<int>)
    requires Dumped(c, a, ids)
    ensures SameTable(a.vvNew, NewTable(a, ids, c.newBuckets, 0), ids)
  {
    var t := NewTable(a, ids, c.newBuckets, 0);
    forall slot | slot in a.vvNew
      ensures slot in t && 0 <= t[slot] < |ids| && ids[t[slot]] == a.vvNew[slot]
    {
      SlotHolds(c, a, ids, slot);
    }
  }

  lemma {:induction false} RenumberedLists(c: Config, a: State, b: State, ids: seq<int>)
    requires Consistent(c, a, {}, 0) && IsRenumbering(a, b, ids)
    ensures RandomConsistent(b) && AddrConsistent(b) && InfosSane(b)
  {
    forall n | n in b.mapInfo
      ensures RandomOf(b, n) && AddrOf(b, n) && InfoSane(b, n)
    {
      assert EntryKept(a, b, ids, n);
      assert AddrOf(a, ids[n]) && InfoSane(a, ids[n]);
      Injective(ids, b.mapAddr[a.mapInfo[ids[n]].svc.addr], n);
    }
    forall i | 0 <= i < |b.vRandom|
      ensures RandomAt(b, i)
    {
      assert EntryKept(a, b, ids, i);
    }
    forall x | x in b.mapAddr
      ensures AddrAt(b, x)
    {
      assert AddrAt(a, x) && EntryKept(a, b, ids, b.mapAddr[x]);
    }
  }

  lemma {:induction false} RenumberedRefs(c: Config, a: State, b: State, ids: seq<int>, n: int)
    requires ValidConfig(c) && IsRenumbering(a, b, ids) && 0 <= n < |ids|
    ensures EntryKept(a, b, ids, n)
    ensures var svc := a.mapInfo[ids[n]].svc; Refs(c, b.key, b.vvNew, svc, n) == Refs(c, a.key, a.vvNew, svc, ids[n])
  {
    var svc := a.mapInfo[ids[n]].svc;
    assert EntryKept(a, b, ids, n);
    forall k | 0 <= k < c.newBuckets
      ensures k in Refs(c, b.key, b.vvNew, svc, n) <==> k in Refs(c, a.key, a.vvNew, svc, ids[n])
    {
      var slot := NewSlot(c, a.key, svc, k);
      if slot in b.vvNew {
        Injective(ids, b.vvNew[slot], n);
      }
    }
  }

  lemma {:induction false} RenumberedTables(c: Config, a: State, b: State, ids: seq<int>)
    requires Consistent(c, a, {}, 0) && IsRenumbering(a, b, ids)
    ensures TriedConsistent(c, b) && NewConsistent(c, b, {})
  {
    forall slot | slot in b.vvTried
      ensures TriedAt(c, b, slot)
    {
      assert TriedAt(c, a, slot) && EntryKept(a, b, ids, b.vvTried[slot]);
    }
    forall slot | slot in b.vvNew
      ensures NewAt(c, b, slot)
    {
      assert NewAt(c, a, slot) && EntryKept(a, b, ids, b.vvNew[slot]);
    }
    forall n | n in b.mapInfo
      ensures TriedOf(c, b, n) && NewOf(c, b, {}, n)
    {
      RenumberedRefs(c, a, b, ids, n);
      assert TriedOf(c, a, ids[n]) && NewOf(c, a, {}, ids[n]);
      var slot := TriedSlot(c, a.key, a.mapInfo[ids[n]].svc);
      if slot in b.vvTried {
        Injective(ids, b.vvTried[slot], n);
      }
    }
  }

  /** A bijection between the ids keeps the number of entries of each kind. */
  lemma {:induction false} ImageSize(ids: seq<int>, from: set<int>, to: set<int>)
    requires Distinct(ids) && (forall n :: n in from ==> 0 <= n < |ids| && ids[n] in to)
    requires forall x :: x in to ==> Rank(ids, x) in from
    ensures |from| == |to|
    decreases |from|
  {
    if from == {} {
      forall x: int
        ensures x !in to
      {
        var n := Rank(ids, x);
      }
    } else {
      var n := AnyMember(from);
      var x := ids[n];
      forall k | k in from - {n}
        ensures 0 <= k < |ids| && ids[k] in to - {x}
      {
        Injective(ids, k, n);
      }
      forall y | y in to - {x}
        ensures Rank(ids, y) in from - {n}
      {
        assert Rank(ids, y) in from;
      }
      ImageSize(ids, from - {n}, to - {x});
    }
  }

  lemma {:induction false} RenumberedCounts(c: Config, a: State, b: State, ids: seq<int>)
    requires Consistent(c, a, {}, 0) && IsRenumbering(a, b, ids)
    ensures Counted(b, {}, 0)
  {
    forall n | 0 <= n < |ids|
      ensures b.mapInfo[n].inTried == a.mapInfo[ids[n]].inTried
    {
      assert EntryKept(a, b, ids, n);
    }
    ImageSize(ids, TriedIds(b.mapInfo), TriedIds(a.mapInfo));
    ImageSize(ids, NewIds(b.mapInfo), NewIds(a.mapInfo));
    assert NewIds(a.mapInfo) - {} == NewIds(a.mapInfo);
    assert NewIds(b.mapInfo) - {} == NewIds(b.mapInfo);
  }

  /** A renumbering of a consistent manager is consistent. */
  lemma {:induction false} RenumberingConsistent(c: Config, a: State, b: State, ids: seq<int>)
    requires Consistent(c, a, {}, 0) && IsRenumbering(a, b, ids)
    ensures Consistent(c, b, {}, 0)
  {
    RenumberedLists(c, a, b, ids);
    RenumberedTables(c, a, b, ids);
    RenumberedCounts(c, a, b, ids);
  }
}
