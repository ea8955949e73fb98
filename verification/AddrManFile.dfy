/** Serialize and Unserialize: the loops that write the address manager to a stream and rebuild it in place. */
module AddrManFile {
  import opened Collections
  import opened AddrManModel
  import opened AddrManSteps
  import opened AddrManOps
  import opened AddrManager
  import opened AddrManRestore
  import opened AddrManStream
  import S = AddrManStream

  // ----- Unserialize: the new entries -----

  /** `now` is what loading the first `n` new entries makes of `start`. */
  ghost predicate NewLoading(c: Config, start: State, s: seq<Item>, pos: nat, n: nat, usable: bool, now: State)
    requires ValidConfig(c)
  {
    && EntriesAt(s, pos, n) && now == LoadNew(c, start, RecordsAt(s, pos, n), usable) && now.nNew == start.nNew
    && forall i :: 0 <= i < n ==> i in now.mapInfo
  }

  lemma {:induction false} NewLoadingStep(
    c: Config, start: State, s: seq<Item>, pos: nat, n: nat, usable: bool, now: State)
    requires ValidConfig(c) && NewLoading(c, start, s, pos, n, usable, now) && pos + n < |s| && s[pos + n].Entry?
    ensures NewLoading(c, start, s, pos, n + 1, usable, LoadNewOne(c, now, n, s[pos + n].record, usable))
  {
    var rs := RecordsAt(s, pos, n + 1);
    assert rs[..n] == RecordsAt(s, pos, n);
  }

  method LoadNewEntries(m: CAddrMan, s: seq<Item>, pos: nat, usable: bool) returns (ok: bool)
    requires ValidConfig(m.c) && pos <= |s|
    modifies m
    ensures ok == EntriesAt(s, pos, Times(old(m.nNew)))
    ensures ok ==> NewLoading(m.c, old(m.Value()), s, pos, Times(old(m.nNew)), usable, m.Value())
  {
    ghost var start := m.Value();
    var n := 0;
    while n < m.nNew
      invariant 0 <= n <= Times(start.nNew) && NewLoading(m.c, start, s, pos, n, usable, m.Value())
    {
      if !(pos + n < |s| && s[pos + n].Entry?) {
        return false;
      }
      NewLoadingStep(m.c, start, s, pos, n, usable, m.Value());
      LoadNewEntry(m, n, s[pos + n].record, usable);
      n := n + 1;
    }
    ok := true;
  }

  method LoadNewEntry(m: CAddrMan, n: nat, r: Record, usable: bool)
    requires ValidConfig(m.c)
    modifies m
    ensures m.Value() == LoadNewOne(m.c, old(m.Value()), n, r, usable)
  {
    var info := Loaded(r, -1, false);
    m.mapAddr := m.mapAddr[info.svc.addr := n];
    info := info.(randomPos := |m.vRandom|);
    m.vRandom := m.vRandom + [n];
    if !usable {
      var nUBucket := NewBucket(m.c, m.nKey, info.svc, info.source);
      var slot := NewSlot(m.c, m.nKey, info.svc, nUBucket);
      if slot !in m.vvNew {
        m.vvNew := m.vvNew[slot := n];
        info := info.(refCount := info.refCount + 1);
      }
    }
    m.mapInfo := m.mapInfo[n := info];
    ghost var t := LoadNewOne(m.c, old(m.Value()), n, r, usable);
    assert m.mapInfo == t.mapInfo;
  }

  // ----- the tried entries -----

  /** `now` is what loading the first `n` tried entries makes of `start`, except that `lost` entries are not yet
      taken off the count. */
  ghost predicate TriedLoading(c: Config, start: State, s: seq<Item>, pos: nat, n: nat, lost: int, now: State)
    requires ValidConfig(c)
  {
    && EntriesAt(s, pos, n) && now.(nTried := now.nTried - lost) == LoadTried(c, start, RecordsAt(s, pos, n))
    && now.nTried == start.nTried && now.nNew == start.nNew && start.mapInfo.Keys <= now.mapInfo.Keys
  }

  lemma {:induction false} TriedLoadingStep(
    c: Config, start: State, s: seq<Item>, pos: nat, n: nat, lost: int, now: State)
    requires ValidConfig(c) && TriedLoading(c, start, s, pos, n, lost, now) && pos + n < |s| && s[pos + n].Entry?
    ensures var r := s[pos + n].record;
      if TriedSlot(c, now.key, r.svc) in now.vvTried then TriedLoading(c, start, s, pos, n + 1, lost + 1, now)
      else TriedLoading(c, start, s, pos, n + 1, lost, LoadTriedOne(c, now, r))
  {
    var rs := RecordsAt(s, pos, n + 1);
    assert rs[..n] == RecordsAt(s, pos, n);
  }

  method LoadTriedEntries(m: CAddrMan, s: seq<Item>, pos: nat) returns (ok: bool)
    requires ValidConfig(m.c) && pos <= |s|
    modifies m
    ensures ok == EntriesAt(s, pos, Times(old(m.nTried)))
    ensures ok ==> m.Value() == LoadTried(m.c, old(m.Value()), RecordsAt(s, pos, Times(old(m.nTried))))
    ensures ok ==> m.nNew == old(m.nNew) && old(m.mapInfo.Keys) <= m.mapInfo.Keys
  {
    ghost var start := m.Value();
    var nLost := 0;
    var n := 0;
    while n < m.nTried
      invariant 0 <= n <= Times(start.nTried) && TriedLoading(m.c, start, s, pos, n, nLost, m.Value())
    {
      if !(pos + n < |s| && s[pos + n].Entry?) {
        return false;
      }
      TriedLoadingStep(m.c, start, s, pos, n, nLost, m.Value());
      var lost := LoadTriedEntry(m, s[pos + n].record);
      nLost := nLost + if lost then 1 else 0;
      n := n + 1;
    }
    m.nTried := m.nTried - nLost;
    ok := true;
  }

  method LoadTriedEntry(m: CAddrMan, r: Record) returns (lost: bool)
    requires ValidConfig(m.c)
    modifies m
    ensures lost == (TriedSlot(m.c, old(m.nKey), r.svc) in old(m.vvTried))
    ensures m.Value() == if lost then old(m.Value()) else LoadTriedOne(m.c, old(m.Value()), r)
  {
    var info := Loaded(r, -1, false);
    var slot := TriedSlot(m.c, m.nKey, info.svc);
    lost := slot in m.vvTried;
    if !lost {
      info := info.(randomPos := |m.vRandom|, inTried := true);
      m.vRandom := m.vRandom + [m.nIdCount];
      m.mapInfo := m.mapInfo[m.nIdCount := info];
      m.mapAddr := m.mapAddr[info.svc.addr := m.nIdCount];
      m.vvTried := m.vvTried[slot := m.nIdCount];
      m.nIdCount := m.nIdCount + 1;
    }
  }

  // ----- the positions in the new table -----

  ghost predicate NewPresent(s: State) {
    forall i :: 0 <= i < s.nNew ==> i in s.mapInfo
  }

  method PlaceIndex(m: CAddrMan, bucket: int, nIndex: int, usable: bool)
    requires ValidConfig(m.c) && NewPresent(m.Value())
    modifies m
    ensures m.Value() == if usable then AddrManRestore.PlaceIndex(m.c, old(m.Value()), old(m.nNew), bucket, nIndex)
      else old(m.Value())
    ensures NewPresent(m.Value()) && m.nNew == old(m.nNew)
  {
    if nIndex >= 0 && nIndex < m.nNew {
      var slot := NewSlot(m.c, m.nKey, m.mapInfo[nIndex].svc, bucket);
      if usable && slot !in m.vvNew && m.mapInfo[nIndex].refCount < NEW_BUCKETS_PER_ADDRESS {
        m.AddRef(nIndex, slot);
      }
    }
  }

  /** `now` is what the first `n` indexes at `pos` make of `start`. */
  ghost predicate Placing(
    c: Config, start: State, s: seq<Item>, pos: nat, n: nat, bucket: int, usable: bool, now: State)
    requires ValidConfig(c)
  {
    && NumsAt(s, pos, n) && NewPresent(now) && now.nNew == start.nNew
    && now == if usable then PlaceBucket(c, start, start.nNew, bucket, IndexesAt(s, pos, n)) else start
  }

  lemma {:induction false} PlacingStep(
    c: Config, start: State, s: seq<Item>, pos: nat, n: nat, bucket: int, usable: bool, now: State, next: State)
    requires ValidConfig(c) && Placing(c, start, s, pos, n, bucket, usable, now) && pos + n < |s| && s[pos + n].Num?
    requires next == if usable then AddrManRestore.PlaceIndex(c, now, now.nNew, bucket, s[pos + n].value) else now
    requires NewPresent(next) && next.nNew == now.nNew
    ensures Placing(c, start, s, pos, n + 1, bucket, usable, next)
  {
    var xs := IndexesAt(s, pos, n + 1);
    assert xs[..n] == IndexesAt(s, pos, n);
  }

  method LoadBucket(m: CAddrMan, s: seq<Item>, pos: nat, bucket: int, usable: bool) returns (ok: bool, next: nat)
    requires ValidConfig(m.c) && NewPresent(m.Value())
    modifies m
    ensures ok == ReadBucket(s, pos).Some?
    ensures ok ==> var b := ReadBucket(s, pos).value;
      && next == pos + 1 + |b.indexes| && NewPresent(m.Value()) && m.nNew == old(m.nNew)
      && m.Value() == if usable then PlaceBucket(m.c, old(m.Value()), old(m.nNew), bucket, b.indexes)
          else old(m.Value())
  {
    next := pos;
    if !(pos < |s| && s[pos].Num?) {
      return false, next;
    }
    ghost var start := m.Value();
    var nSize := s[pos].value;
    var n := 0;
    while n < nSize
      invariant 0 <= n <= Times(nSize) && Placing(m.c, start, s, pos + 1, n, bucket, usable, m.Value())
    {
      if !(pos + 1 + n < |s| && s[pos + 1 + n].Num?) {
        return false, next;
      }
      ghost var now := m.Value();
      PlaceIndex(m, bucket, s[pos + 1 + n].value, usable);
      PlacingStep(m.c, start, s, pos + 1, n, bucket, usable, now, m.Value());
      n := n + 1;
    }
    ok, next := true, pos + 1 + n;
  }

  function Prepend(done: seq<Bucket>, r: Option<seq<Bucket>>): Option<seq<Bucket>> {
    match r
    case None => None
    case Some(bs) => Some(done + bs)
  }

  /** `now` is what the buckets `done` make of `start`; the rest are read from `pos` on. */
  ghost predicate Scanning(
    c: Config, start: State, all: Option<seq<Bucket>>, s: seq<Item>, pos: nat, left: nat, done: seq<Bucket>,
    usable: bool, now: State)
    requires ValidConfig(c)
  {
    && all == Prepend(done, ReadBuckets(s, pos, left)) && NewPresent(now) && now.nNew == start.nNew
    && now == if usable then PlaceBuckets(c, start, start.nNew, Lists(done)) else start
  }

  lemma {:induction false} ScanningStart(c: Config, start: State, s: seq<Item>, pos: nat, count: nat, usable: bool)
    requires ValidConfig(c) && NewPresent(start)
    ensures Scanning(c, start, ReadBuckets(s, pos, count), s, pos, count, [], usable, start)
  {
    assert forall bs: seq<Bucket> :: [] + bs == bs;
  }

  lemma {:induction false} ScanningStep(
    c: Config, start: State, all: Option<seq<Bucket>>, s: seq<Item>, pos: nat, left: nat, done: seq<Bucket>,
    usable: bool, now: State, next: State)
    requires ValidConfig(c) && left > 0 && Scanning(c, start, all, s, pos, left, done, usable, now)
    requires ReadBucket(s, pos).Some?
    requires next == if usable then PlaceBucket(c, now, start.nNew, |done|, ReadBucket(s, pos).value.indexes) else now
    requires NewPresent(next) && next.nNew == start.nNew
    ensures var b := ReadBucket(s, pos).value;
      Scanning(c, start, all, s, pos + 1 + |b.indexes|, left - 1, done + [b], usable, next)
  {
    var b := ReadBucket(s, pos).value;
    var rest := ReadBuckets(s, pos + 1 + |b.indexes|, left - 1);
    if rest.Some? {
      Assoc(done, [b], rest.value);
    }
    assert Lists(done + [b])[..|done|] == Lists(done);
  }

  method LoadPositions(m: CAddrMan, s: seq<Item>, pos: nat, nUBuckets: int, usable: bool) returns (ok: bool)
    requires ValidConfig(m.c) && NewPresent(m.Value())
    modifies m
    ensures ok == ReadBuckets(s, pos, Times(nUBuckets)).Some?
    ensures ok ==> m.Value() == if usable
      then PlaceBuckets(m.c, old(m.Value()), old(m.nNew), Lists(ReadBuckets(s, pos, Times(nUBuckets)).value))
        else old(m.Value())
  {
    ghost var start, all := m.Value(), ReadBuckets(s, pos, Times(nUBuckets));
    ghost var done: seq<Bucket> := [];
    var p, bucket := pos, 0;
    ScanningStart(m.c, start, s, pos, Times(nUBuckets), usable);
    while bucket < nUBuckets
      invariant 0 <= bucket == |done| <= Times(nUBuckets)
      invariant Scanning(m.c, start, all, s, p, Times(nUBuckets) - bucket, done, usable, m.Value())
    {
      ghost var now, at := m.Value(), p;
      ok, p := LoadBucket(m, s, p, bucket, usable);
      if !ok {
        return;
      }
      ScanningStep(m.c, start, all, s, at, Times(nUBuckets) - bucket, done, usable, now, m.Value());
      done := done + [ReadBucket(s, at).value];
      bucket := bucket + 1;
    }
    EmptyAppend(done);
    ok := true;
  }

  // ----- pruning -----

  /** Entries in `todo` that are doomed are still to be deleted; doing so yields `target`. */
  ghost predicate Pruning(target: State, doomed: set<int>, todo: set<int>, now: State) {
    && RandomConsistent(now) && todo <= now.mapInfo.Keys && target == Prune(now, doomed * todo)
    && forall id {:trigger id in todo} :: id in todo ==>
        (id in doomed <==> !now.mapInfo[id].inTried && now.mapInfo[id].refCount == 0)
  }

  lemma {:induction false} PruningStep(target: State, doomed: set<int>, todo: set<int>, now: State, id: int)
    requires Pruning(target, doomed, todo, now) && todo != {} && id == Least(todo)
    ensures Pruning(target, doomed, todo - {id}, if id in doomed then Delete(now, id) else now)
  {
    if id in doomed {
      LeastAmong(doomed, todo, id);
      DeleteKeepsRandom(now, id);
      DeleteEffect(now, id);
      assert (doomed * todo) - {id} == doomed * (todo - {id});
    } else {
      assert doomed * todo == doomed * (todo - {id});
    }
  }

  lemma {:induction false} LeastAmong(ids: set<int>, todo: set<int>, id: int)
    requires id in ids && todo != {} && id == Least(todo)
    ensures ids * todo != {} && Least(ids * todo) == id
  {
    assert id in ids * todo;
    var x := Least(ids * todo);
    assert x in todo;
  }

  /** Delete the new entries no slot refers to, in ascending order. */
  method PruneEntries(m: CAddrMan)
    requires RandomConsistent(m.Value())
    modifies m
    ensures m.Value() == Prune(old(m.Value()), Doomed(old(m.mapInfo)))
  {
    ghost var doomed := Doomed(m.mapInfo);
    ghost var target := Prune(m.Value(), doomed);
    var todo := m.mapInfo.Keys;
    assert doomed * todo == doomed;
    while todo != {}
      invariant Pruning(target, doomed, todo, m.Value())
      decreases |todo|
    {
      var id := LeastOf(todo);
      PruningStep(target, doomed, todo, m.Value(), id);
      assert id in todo;
      if !m.mapInfo[id].inTried && m.mapInfo[id].refCount == 0 {
        m.Delete(id);
      }
      todo := todo - {id};
    }
    assert doomed * todo == {};
  }

  // ----- the whole of Unserialize -----

  method ReadHeader(m: CAddrMan, s: seq<Item>) returns (ok: bool, nVersion: int, nUBuckets: int)
    modifies m
    ensures ok == HeaderAt(m.c, s)
    ensures ok ==> nVersion == s[0].value && nUBuckets == BucketCount(s[0].value, s[5].value)
    ensures ok ==> m.Value() == old(m.Value()).(key := s[2].key, nNew := s[3].value, nTried := s[4].value)
  {
    nVersion, nUBuckets := 0, 0;
    if |s| < 6 || !s[0].Num? || !s[1].Num? || s[1].value != KEY_SIZE {
      return false, nVersion, nUBuckets;
    }
    if !s[2].Key? || !s[3].Num? || !s[4].Num? || !s[5].Num? {
      return false, nVersion, nUBuckets;
    }
    nVersion := s[0].value;
    m.nKey, m.nNew, m.nTried, nUBuckets := s[2].key, s[3].value, s[4].value, s[5].value;
    if nVersion != 0 {
      nUBuckets := Flip(nUBuckets);
    }
    ok := m.nNew <= m.c.newBuckets * m.c.bucketSize && m.nTried <= m.c.triedBuckets * m.c.bucketSize;
  }

  /** The new and then the tried entries. */
  method LoadEntries(m: CAddrMan, s: seq<Item>, usable: bool) returns (ok: bool)
    requires ValidConfig(m.c) && |s| >= 6
    modifies m
    ensures var n, k := Times(old(m.nNew)), Times(old(m.nTried));
      && ok == (EntriesAt(s, 6, n) && EntriesAt(s, 6 + n, k))
      && (ok ==> m.Value() == LoadTried(m.c,
           LoadNew(m.c, old(m.Value()), RecordsAt(s, 6, n), usable).(nIdCount := old(m.nNew)), RecordsAt(s, 6 + n, k)))
    ensures ok ==> NewPresent(m.Value()) && m.nNew == old(m.nNew)
  {
    var n := Times(m.nNew);
    ok := LoadNewEntries(m, s, 6, usable);
    if !ok {
      return;
    }
    LoadNewCounts(m.c, old(m.Value()), RecordsAt(s, 6, n), usable);
    m.nIdCount := m.nNew;
    ok := LoadTriedEntries(m, s, 6 + n);
  }

  /** All entries and positions, before pruning. */
  method LoadEverything(m: CAddrMan, s: seq<Item>, key: nat) returns (ok: bool)
    requires ValidConfig(m.c)
    modifies m
    ensures ok == Read(m.c, s).Some?
    ensures ok ==> m.Value() == LoadAll(m.c, Read(m.c, s).value, old(m.collisions))
  {
    m.Clear(key);
    var nVersion, nUBuckets;
    ok, nVersion, nUBuckets := ReadHeader(m, s);
    if !ok {
      return;
    }
    var usable := nVersion == 1 && nUBuckets == m.c.newBuckets;
    var pos := 6 + Times(m.nNew) + Times(m.nTried);
    ok := LoadEntries(m, s, usable);
    if !ok {
      return;
    }
    ok := LoadPositions(m, s, pos, nUBuckets, usable);
  }

  lemma {:induction false} LoadNewCounts(c: Config, s: State, rs: seq<Record>, usable: bool)
    requires ValidConfig(c)
    ensures LoadNew(c, s, rs, usable).nTried == s.nTried
  {
    if rs != [] {
      LoadNewCounts(c, s, rs[..|rs| - 1], usable);
    }
  }

  /** Rebuild the manager from a stream; on failure the stream was not a dump this version can read. */
  method Unserialize(m: CAddrMan, s: seq<Item>, key: nat) returns (ok: bool)
    requires ValidConfig(m.c)
    modifies m
    ensures ok == S.Unserialize(m.c, s, old(m.collisions)).Some?
    ensures ok ==> m.Value() == S.Unserialize(m.c, s, old(m.collisions)).value
  {
    ok := LoadEverything(m, s, key);
    if ok {
      ReadForm(m.c, s);
      LoadAllForm(m.c, Read(m.c, s).value, old(m.collisions));
      PruneEntries(m);
    }
  }

  // ----- Serialize -----

  /** `list` holds, in ascending order, the members of `ids` that are no longer in `todo`. */
  ghost predicate Listing(ids: set<int>, todo: set<int>, list: seq<int>) {
    Ascending(ids) == list + Ascending(ids * todo)
  }

  lemma {:induction false} ListingStep(ids: set<int>, todo: set<int>, list: seq<int>, id: int)
    requires Listing(ids, todo, list) && todo != {} && id == Least(todo)
    ensures Listing(ids, todo - {id}, if id in ids then list + [id] else list)
    ensures id in ids ==> |list| < |Ascending(ids)|
  {
    if id in ids {
      LeastAmong(ids, todo, id);
      assert (ids * todo) - {id} == ids * (todo - {id});
      Assoc(list, [id], Ascending(ids * (todo - {id})));
    } else {
      assert ids * todo == ids * (todo - {id});
    }
  }

  lemma {:induction false} ListingStart(ids: set<int>, todo: set<int>)
    requires ids <= todo
    ensures Listing(ids, todo, [])
  {
    assert ids * todo == ids;
  }

  lemma {:induction false} ListingEnd(ids: set<int>, list: seq<int>)
    requires Listing(ids, {}, list)
    ensures list == Ascending(ids)
  {
    assert ids * {} == {};
    EmptyAppend(list);
  }

  /** `out` is `s` followed by the records of the entries in `list`. */
  ghost predicate Written(a: State, s: seq<Item>, list: seq<int>, out: seq<Item>) {
    Within(a, list) && |out| == |s| + |list| && out[..|s|] == s
    && forall n {:trigger list[n]} :: 0 <= n < |list| ==> out[|s| + n] == Item.Entry(Saved(a.mapInfo[list[n]]))
  }

  lemma {:induction false} WrittenAll(a: State, s: seq<Item>, ids: set<int>, out: seq<Item>)
    requires ids <= a.mapInfo.Keys && Written(a, s, Ascending(ids), out)
    ensures out == s + Entries(RecordsOf(a, ids))
  {
    var list, es := Ascending(ids), Entries(RecordsOf(a, ids));
    forall n | 0 <= n < |list|
      ensures out[|s| + n] == es[n]
    {
      assert es[n] == Item.Entry(Saved(a.mapInfo[list[n]]));
    }
    forall i | 0 <= i < |out|
      ensures out[i] == (s + es)[i]
    {
      if i < |s| {
        assert out[i] == out[..|s|][i];
      } else {
        assert out[|s| + (i - |s|)] == es[i - |s|];
      }
    }
  }

  /** The numbers given to the ids in `list` are their positions. */
  ghost predicate Numbered(list: seq<int>, numbers: map<int, int>) {
    forall n {:trigger list[n]} :: 0 <= n < |list| ==> list[n] in numbers && numbers[list[n]] == n
  }

  /** All entries with references, and the number each gets. */
  method WriteNew(m: CAddrMan, s: seq<Item>) returns (out: seq<Item>, mapUnkIds: map<int, int>)
    requires Consistent(m.c, m.Value(), {}, 0)
    ensures out == s + Entries(RecordsOf(m.Value(), Referenced(m.mapInfo)))
    ensures Numbered(Ascending(Referenced(m.mapInfo)), mapUnkIds)
  {
    ghost var a, ids := m.Value(), Referenced(m.mapInfo);
    ghost var list: seq<int> := [];
    out, mapUnkIds := s, map[];
    var nIds, todo := 0, m.mapInfo.Keys;
    ListingStart(ids, todo);
    NewCount(m.c, a);
    while todo != {}
      invariant todo <= m.mapInfo.Keys && Listing(ids, todo, list) && Written(a, s, list, out)
      invariant Numbered(list, mapUnkIds)
      invariant nIds == |list| && forall n :: 0 <= n < |list| ==> list[n] !in todo
      decreases |todo|
    {
      var id := LeastOf(todo);
      ListingStep(ids, todo, list, id);
      mapUnkIds := mapUnkIds[id := nIds];
      if m.mapInfo[id].refCount != 0 {
        assert nIds != m.nNew;
        out := out + [Item.Entry(Saved(m.mapInfo[id]))];
        list := list + [id];
        nIds := nIds + 1;
      }
      todo := todo - {id};
    }
    ListingEnd(ids, list);
    WrittenAll(a, s, ids, out);
  }

  lemma {:induction false} NewCount(c: Config, a: State)
    requires Consistent(c, a, {}, 0)
    ensures |Ascending(Referenced(a.mapInfo))| == a.nNew && |Ascending(TriedIds(a.mapInfo))| == a.nTried
  {
    ReferencedAreNew(c, a);
    AscendingExact(NewIds(a.mapInfo));
    AscendingExact(TriedIds(a.mapInfo));
    assert NewIds(a.mapInfo) - {} == NewIds(a.mapInfo);
  }

  method WriteTried(m: CAddrMan, s: seq<Item>) returns (out: seq<Item>)
    requires Consistent(m.c, m.Value(), {}, 0)
    ensures out == s + Entries(RecordsOf(m.Value(), TriedIds(m.mapInfo)))
  {
    ghost var a, ids := m.Value(), TriedIds(m.mapInfo);
    ghost var list: seq<int> := [];
    out := s;
    var nIds, todo := 0, m.mapInfo.Keys;
    ListingStart(ids, todo);
    NewCount(m.c, a);
    while todo != {}
      invariant todo <= m.mapInfo.Keys && Listing(ids, todo, list) && Written(a, s, list, out) && nIds == |list|
      decreases |todo|
    {
      var id := LeastOf(todo);
      ListingStep(ids, todo, list, id);
      if m.mapInfo[id].inTried {
        assert nIds != m.nTried;
        out := out + [Item.Entry(Saved(m.mapInfo[id]))];
        list := list + [id];
        nIds := nIds + 1;
      }
      todo := todo - {id};
    }
    ListingEnd(ids, list);
    WrittenAll(a, s, ids, out);
  }

  /** The number of the entry at an occupied slot. */
  lemma {:induction false} NumberAt(c: Config, a: State, mapUnkIds: map<int, int>, slot: Slot)
    requires Consistent(c, a, {}, 0) && slot in a.vvNew && Numbered(Ascending(Referenced(a.mapInfo)), mapUnkIds)
    ensures var id := a.vvNew[slot]; id in mapUnkIds && mapUnkIds[id] == Rank(Ascending(Referenced(a.mapInfo)), id)
  {
    var list, id := Ascending(Referenced(a.mapInfo)), a.vvNew[slot];
    AscendingExact(Referenced(a.mapInfo));
    ReferencedAreNew(c, a);
    assert NewAt(c, a, slot);
    assert id in list;
    var n :| 0 <= n < |list| && list[n] == id;
    RankOf(list, n);
  }

  /** One bucket: how many slots are taken, then the numbers of the entries in them. */
  method WriteOneBucket(m: CAddrMan, s: seq<Item>, bucket: nat, mapUnkIds: map<int, int>) returns (out: seq<Item>)
    requires Consistent(m.c, m.Value(), {}, 0) && Numbered(Ascending(Referenced(m.mapInfo)), mapUnkIds)
    ensures var xs := Indexes(m.Value(), Ascending(Referenced(m.mapInfo)), bucket, m.c.bucketSize);
      out == s + WriteBucket(Bucket(|xs|, xs))
  {
    ghost var a, ids := m.Value(), Ascending(Referenced(m.mapInfo));
    var nSize := 0;
    var i := 0;
    while i < m.c.bucketSize
      invariant 0 <= i <= m.c.bucketSize && nSize == |Indexes(a, ids, bucket, i)|
    {
      if Slot(bucket, i) in m.vvNew {
        nSize := nSize + 1;
      }
      i := i + 1;
    }
    var indexes := WriteIndexes(m, bucket, mapUnkIds);
    out := s + ([Num(nSize)] + indexes);
  }

  method WriteIndexes(m: CAddrMan, bucket: nat, mapUnkIds: map<int, int>) returns (out: seq<Item>)
    requires Consistent(m.c, m.Value(), {}, 0) && Numbered(Ascending(Referenced(m.mapInfo)), mapUnkIds)
    ensures out == Nums(Indexes(m.Value(), Ascending(Referenced(m.mapInfo)), bucket, m.c.bucketSize))
  {
    ghost var a, ids := m.Value(), Ascending(Referenced(m.mapInfo));
    out := [];
    var i := 0;
    while i < m.c.bucketSize
      invariant 0 <= i <= m.c.bucketSize && out == Nums(Indexes(a, ids, bucket, i))
    {
      IndexesStep(a, ids, bucket, i);
      if Slot(bucket, i) in m.vvNew {
        NumberAt(m.c, a, mapUnkIds, Slot(bucket, i));
        var nIndex := mapUnkIds[m.vvNew[Slot(bucket, i)]];
        out := out + [Num(nIndex)];
      }
      i := i + 1;
    }
  }

  lemma {:induction false} IndexesStep(a: State, ids: seq<int>, b: nat, i: nat)
    ensures Nums(Indexes(a, ids, b, i + 1)) == Nums(Indexes(a, ids, b, i))
      + if Slot(b, i) in a.vvNew then [Num(Rank(ids, a.vvNew[Slot(b, i)]))] else []
  {
  }

  lemma {:induction false} WriteBucketsMore(bs: seq<Bucket>, b: Bucket)
    ensures WriteBuckets(bs + [b]) == WriteBuckets(bs) + WriteBucket(b)
  {
    if bs == [] {
      assert bs + [b] == [b];
      assert WriteBuckets([b][1..]) == [];
    } else {
      WriteBucketsMore(bs[1..], b);
      assert (bs + [b])[1..] == bs[1..] + [b];
      Assoc(WriteBucket(bs[0]), WriteBuckets(bs[1..]), WriteBucket(b));
    }
  }

  method WritePositions(m: CAddrMan, s: seq<Item>, mapUnkIds: map<int, int>) returns (out: seq<Item>)
    requires Consistent(m.c, m.Value(), {}, 0) && Numbered(Ascending(Referenced(m.mapInfo)), mapUnkIds)
    ensures out == s + WriteBuckets(PositionsOf(m.c, m.Value()))
  {
    ghost var bs := PositionsOf(m.c, m.Value());
    out := s;
    EmptyAppend(s);
    var bucket := 0;
    while bucket < m.c.newBuckets
      invariant 0 <= bucket <= m.c.newBuckets && out == s + WriteBuckets(bs[..bucket])
    {
      TakeNext(bs, bucket);
      WriteBucketsMore(bs[..bucket], bs[bucket]);
      Assoc(s, WriteBuckets(bs[..bucket]), WriteBucket(bs[bucket]));
      out := WriteOneBucket(m, out, bucket, mapUnkIds);
      bucket := bucket + 1;
    }
    TakeAll(bs);
  }

  method Serialize(m: CAddrMan) returns (s: seq<Item>)
    requires Consistent(m.c, m.Value(), {}, 0)
    ensures s == S.Serialize(m.c, m.Value())
  {
    s := [Num(1), Num(KEY_SIZE), Key(m.nKey), Num(m.nNew), Num(m.nTried), Num(Flip(m.c.newBuckets))];
    assert s == Header(DumpOf(m.c, m.Value()));
    var mapUnkIds;
    s, mapUnkIds := WriteNew(m, s);
    s := WriteTried(m, s);
    s := WritePositions(m, s, mapUnkIds);
  }
}
