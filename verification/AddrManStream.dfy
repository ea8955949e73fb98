/** The serialized form of the address manager: what is written, how it is read, and that reading undoes writing. */
module AddrManStream {
  import opened Collections
  import opened AddrManModel
  import opened AddrManSteps
  import opened AddrManOps
  import opened AddrManCheck
  import opened AddrManRestore

  /** What one stream operation reads or writes. */
  datatype Item = Num(value: int) | Key(key: nat) | Entry(record: Record)

  datatype Bucket = Bucket(size: int, indexes: seq<int>)

  /** The contents of a stream; `buckets` is the number of new buckets as written. */
  datatype Dump = Dump(
    version: int, key: nat, nNew: int, nTried: int, buckets: int, news: seq<Record>, tried: seq<Record>,
      positions: seq<Bucket>)

  const KEY_SIZE := 32
  const BIT30 := 0x4000_0000

  /** x ^ (1 << 30) in two's complement. */
  function Flip(x: int): int {
    if x / BIT30 % 2 == 1 then x - BIT30 else x + BIT30
  }

  function BucketCount(version: int, buckets: int): int {
    if version != 0 then Flip(buckets) else buckets
  }

  /** How often a loop up to `n` runs. */
  function Times(n: int): nat {
    if n > 0 then n else 0
  }

  predicate WellFormed(c: Config, d: Dump) {
    && d.nNew <= c.newBuckets * c.bucketSize && d.nTried <= c.triedBuckets * c.bucketSize
    && |d.news| == Times(d.nNew) && |d.tried| == Times(d.nTried)
    && |d.positions| == Times(BucketCount(d.version, d.buckets))
    && forall i :: 0 <= i < |d.positions| ==> |d.positions[i].indexes| == Times(d.positions[i].size)
  }

  // ----- writing -----

  function Entries(rs: seq<Record>): seq<Item> {
    seq(|rs|, i requires 0 <= i < |rs| => Item.Entry(rs[i]))
  }

  function Nums(xs: seq<int>): seq<Item> {
    seq(|xs|, i requires 0 <= i < |xs| => Num(xs[i]))
  }

  function WriteBucket(b: Bucket): seq<Item> {
    [Num(b.size)] + Nums(b.indexes)
  }

  function WriteBuckets(bs: seq<Bucket>): seq<Item> {
    if bs == [] then [] else WriteBucket(bs[0]) + WriteBuckets(bs[1..])
  }

  function Header(d: Dump): seq<Item> {
    [Num(d.version), Num(KEY_SIZE), Key(d.key), Num(d.nNew), Num(d.nTried), Num(d.buckets)]
  }

  function Write(d: Dump): seq<Item> {
    Header(d) + Entries(d.news) + Entries(d.tried) + WriteBuckets(d.positions)
  }

  // ----- reading -----

  predicate EntriesAt(s: seq<Item>, p: nat, n: nat) {
    p + n <= |s| && forall i :: p <= i < p + n ==> s[i].Entry?
  }

  function RecordsAt(s: seq<Item>, p: nat, n: nat): (rs: seq<Record>)
    requires EntriesAt(s, p, n)
    ensures |rs| == n
  {
    seq(n, i requires 0 <= i < n => s[p + i].record)
  }

  predicate NumsAt(s: seq<Item>, p: nat, n: nat) {
    p + n <= |s| && forall i :: p <= i < p + n ==> s[i].Num?
  }

  function IndexesAt(s: seq<Item>, p: nat, n: nat): (xs: seq<int>)
    requires NumsAt(s, p, n)
    ensures |xs| == n
  {
    seq(n, i requires 0 <= i < n => s[p + i].value)
  }

  function ReadBucket(s: seq<Item>, p: nat): Option<Bucket> {
    if p < |s| && s[p].Num? && NumsAt(s, p + 1, Times(s[p].value))
    then Some(Bucket(s[p].value, IndexesAt(s, p + 1, Times(s[p].value))))
    else None
  }

  function ReadBuckets(s: seq<Item>, p: nat, n: nat): Option<seq<Bucket>>
    decreases n
  {
    if n == 0 then Some([]) else
      match ReadBucket(s, p)
      case None => None
      case Some(b) =>
        match ReadBuckets(s, p + 1 + |b.indexes|, n - 1)
        case None => None
        case Some(bs) => Some([b] + bs)
  }

  predicate HeaderAt(c: Config, s: seq<Item>) {
    && |s| >= 6 && s[0].Num? && s[1] == Num(KEY_SIZE) && s[2].Key? && s[3].Num? && s[4].Num? && s[5].Num?
    && s[3].value <= c.newBuckets * c.bucketSize && s[4].value <= c.triedBuckets * c.bucketSize
  }

  /** The contents of a stream; none where a read fails or a limit is exceeded. Anything that follows is ignored. */
  function Read(c: Config, s: seq<Item>): Option<Dump> {
    if !HeaderAt(c, s) then None else
      var version, nNew, nTried, buckets := s[0].value, s[3].value, s[4].value, s[5].value;
      var n, m := Times(nNew), Times(nTried);
      if !(EntriesAt(s, 6, n) && EntriesAt(s, 6 + n, m)) then None else
        match ReadBuckets(s, 6 + n + m, Times(BucketCount(version, buckets)))
        case None => None
        case Some(bs) => Some(Dump(version, s[2].key, nNew, nTried, buckets, RecordsAt(s, 6, n), RecordsAt(s, 6 + n, m),
          bs))
  }

  // ----- reading undoes writing -----

  lemma {:induction false} FlipTwice(x: int)
    ensures Flip(Flip(x)) == x
  {
  }

  lemma {:induction false} BucketReadBack(pre: seq<Item>, b: Bucket, post: seq<Item>)
    requires |b.indexes| == Times(b.size)
    ensures ReadBucket(pre + WriteBucket(b) + post, |pre|) == Some(b)
  {
    var s, p, n := pre + WriteBucket(b) + post, |pre|, |b.indexes|;
    assert s[p] == WriteBucket(b)[0];
    assert forall i :: 0 <= i < n ==> s[p + 1 + i] == WriteBucket(b)[1 + i] == Num(b.indexes[i]);
    forall i | p + 1 <= i < p + 1 + n
      ensures s[i] == Num(b.indexes[i - p - 1])
    {
      assert s[p + 1 + (i - p - 1)] == Num(b.indexes[i - p - 1]);
    }
    assert IndexesAt(s, p + 1, n) == b.indexes;
  }

  lemma {:induction false} BucketsReadBack(pre: seq<Item>, bs: seq<Bucket>)
    requires forall i :: 0 <= i < |bs| ==> |bs[i].indexes| == Times(bs[i].size)
    ensures ReadBuckets(pre + WriteBuckets(bs), |pre|, |bs|) == Some(bs)
    decreases |bs|
  {
    if bs != [] {
      var w, rest := WriteBucket(bs[0]), WriteBuckets(bs[1..]);
      BucketReadBack(pre, bs[0], rest);
      Assoc(pre, w, rest);
      BucketsReadBack(pre + w, bs[1..]);
      assert [bs[0]] + bs[1..] == bs;
    }
  }

  lemma {:induction false} EntriesReadBack(pre: seq<Item>, rs: seq<Record>, post: seq<Item>)
    ensures var s := pre + Entries(rs) + post; EntriesAt(s, |pre|, |rs|) && RecordsAt(s, |pre|, |rs|) == rs
  {
    var s, p := pre + Entries(rs) + post, |pre|;
    forall i | p <= i < p + |rs|
      ensures s[i] == Item.Entry(rs[i - p])
    {
      assert s[i] == Entries(rs)[i - p];
    }
  }

  /** Every well-formed dump is read back from what is written of it. */
  lemma {:induction false} ReadWritten(c: Config, d: Dump)
    requires WellFormed(c, d)
    ensures Read(c, Write(d)) == Some(d)
  {
    var h, news, tried, bs := Header(d), Entries(d.news), Entries(d.tried), WriteBuckets(d.positions);
    var s := Write(d);
    assert s == h + news + (tried + bs) && s == (h + news) + tried + bs;
    assert forall i :: 0 <= i < 6 ==> s[i] == h[i];
    EntriesReadBack(h, d.news, tried + bs);
    EntriesReadBack(h + news, d.tried, bs);
    BucketsReadBack(h + news + tried, d.positions);
  }

  lemma {:induction false} ReadBucketsForm(s: seq<Item>, p: nat, n: nat)
    ensures var r := ReadBuckets(s, p, n);
      r.Some? ==> |r.value| == n && forall i :: 0 <= i < n ==> |r.value[i].indexes| == Times(r.value[i].size)
    decreases n
  {
    if n > 0 && ReadBucket(s, p).Some? {
      ReadBucketsForm(s, p + 1 + |ReadBucket(s, p).value.indexes|, n - 1);
    }
  }

  lemma {:induction false} ReadForm(c: Config, s: seq<Item>)
    ensures Read(c, s).Some? ==> WellFormed(c, Read(c, s).value)
  {
    if HeaderAt(c, s) {
      var n, m := Times(s[3].value), Times(s[4].value);
      ReadBucketsForm(s, 6 + n + m, Times(BucketCount(s[0].value, s[5].value)));
    }
  }

  // ----- rebuilding from any dump -----

  /** Deleting needs nothing but a right vRandom. */
  lemma {:induction false} DeleteKeepsRandom(s: State, id: int)
    requires RandomConsistent(s) && id in s.mapInfo
    ensures RandomConsistent(Delete(s, id)) && Delete(s, id).mapInfo.Keys == s.mapInfo.Keys - {id}
  {
    var t := Delete(s, id);
    DeleteEffect(s, id);
    assert RandomOf(s, id) && RandomAt(s, |s.vRandom| - 1);
    forall i | 0 <= i < |t.vRandom|
      ensures RandomAt(t, i)
    {
      assert RandomAt(s, i) && t.vRandom[i] != id;
    }
    forall x | x in t.mapInfo
      ensures RandomOf(t, x)
    {
      assert RandomOf(s, x);
    }
  }

  /** The new entries that no slot refers to. */
  ghost function Doomed(m: map<int, Info>): set<int> {
    set id | id in m && !m[id].inTried && m[id].refCount == 0
  }

  ghost function Prune(s: State, todo: set<int>): State
    requires RandomConsistent(s) && todo <= s.mapInfo.Keys
    decreases |todo|
  {
    if todo == {} then s else
      var id := Least(todo);
      DeleteKeepsRandom(s, id);
      Prune(Delete(s, id), todo - {id})
  }

  lemma {:induction false} AppendedRandom(s: State, id: int, info: Info, t: State)
    requires RandomConsistent(s) && id !in s.mapInfo && info.randomPos == |s.vRandom|
    requires t.vRandom == s.vRandom + [id] && t.mapInfo == s.mapInfo[id := info]
    ensures RandomConsistent(t)
  {
    forall i | 0 <= i < |t.vRandom|
      ensures RandomAt(t, i)
    {
      assert i < |s.vRandom| ==> RandomAt(s, i);
    }
    forall x | x in t.mapInfo
      ensures RandomOf(t, x)
    {
      assert x in s.mapInfo ==> RandomOf(s, x);
    }
  }

  lemma {:induction false} AddRefKeepsRandom(s: State, id: int, slot: Slot)
    requires RandomConsistent(s) && id in s.mapInfo
    ensures RandomConsistent(AddRef(s, id, slot)) && AddRef(s, id, slot).mapInfo.Keys == s.mapInfo.Keys
  {
    SameRandom(s, AddRef(s, id, slot));
  }

  /** The manager before anything is loaded. */
  function Emptied(d: Dump, collisions: set<int>): State {
    Cleared(d.key, collisions).(nNew := d.nNew, nTried := d.nTried)
  }

  lemma {:induction false} LoadNewForm(c: Config, d: Dump, collisions: set<int>, rs: seq<Record>, usable: bool)
    requires ValidConfig(c)
    ensures var t := LoadNew(c, Emptied(d, collisions), rs, usable);
      RandomConsistent(t) && (forall id :: id in t.mapInfo ==> 0 <= id < |rs|) && t.key == d.key
  {
    if rs != [] {
      var k := |rs| - 1;
      LoadNewForm(c, d, collisions, rs[..k], usable);
      var s := LoadNew(c, Emptied(d, collisions), rs[..k], usable);
      var r := rs[k];
      var t := s.(mapInfo := s.mapInfo[k := Loaded(r, |s.vRandom|, false)], mapAddr := s.mapAddr[r.svc.addr := k],
        vRandom := s.vRandom + [k]);
      AppendedRandom(s, k, Loaded(r, |s.vRandom|, false), t);
      AddRefKeepsRandom(t, k, NewSlot(c, s.key, r.svc, NewBucket(c, s.key, r.svc, r.source)));
    }
  }

  lemma {:induction false} LoadTriedForm(c: Config, s: State, rs: seq<Record>)
    requires ValidConfig(c) && RandomConsistent(s) && forall id :: id in s.mapInfo ==> id < s.nIdCount
    ensures var t := LoadTried(c, s, rs); RandomConsistent(t) && forall id :: id in t.mapInfo ==> id < t.nIdCount
  {
    if rs != [] {
      var k := |rs| - 1;
      LoadTriedForm(c, s, rs[..k]);
      var u, t := LoadTried(c, s, rs[..k]), LoadTried(c, s, rs);
      if TriedSlot(c, u.key, rs[k].svc) in u.vvTried {
        SameRandom(u, t);
      } else {
        AppendedRandom(u, u.nIdCount, Loaded(rs[k], |u.vRandom|, true), t);
      }
    }
  }

  lemma {:induction false} PlaceBucketForm(c: Config, s: State, limit: int, b: int, xs: seq<int>)
    requires ValidConfig(c) && RandomConsistent(s)
    ensures RandomConsistent(PlaceBucket(c, s, limit, b, xs))
  {
    if xs != [] {
      var k := |xs| - 1;
      PlaceBucketForm(c, s, limit, b, xs[..k]);
      var t := PlaceBucket(c, s, limit, b, xs[..k]);
      if xs[k] in t.mapInfo {
        AddRefKeepsRandom(t, xs[k], NewSlot(c, t.key, t.mapInfo[xs[k]].svc, b));
      }
    }
  }

  lemma {:induction false} PlaceBucketsForm(c: Config, s: State, limit: int, bs: seq<seq<int>>)
    requires ValidConfig(c) && RandomConsistent(s)
    ensures RandomConsistent(PlaceBuckets(c, s, limit, bs))
  {
    if bs != [] {
      var k := |bs| - 1;
      PlaceBucketsForm(c, s, limit, bs[..k]);
      PlaceBucketForm(c, PlaceBuckets(c, s, limit, bs[..k]), limit, k, bs[k]);
    }
  }

  function Lists(bs: seq<Bucket>): seq<seq<int>> {
    seq(|bs|, i requires 0 <= i < |bs| => bs[i].indexes)
  }

  /** The written new table is used only if it has the reader's version and number of buckets. */
  predicate Usable(c: Config, d: Dump) {
    d.version == 1 && BucketCount(d.version, d.buckets) == c.newBuckets
  }

  /** All entries loaded and all positions taken over, before pruning. */
  function LoadAll(c: Config, d: Dump, collisions: set<int>): State
    requires ValidConfig(c)
  {
    var s := LoadNew(c, Emptied(d, collisions), d.news, Usable(c, d)).(nIdCount := d.nNew);
    var t := LoadTried(c, s, d.tried);
    if Usable(c, d) then PlaceBuckets(c, t, d.nNew, Lists(d.positions)) else t
  }

  lemma {:induction false} LoadAllForm(c: Config, d: Dump, collisions: set<int>)
    requires ValidConfig(c) && WellFormed(c, d)
    ensures RandomConsistent(LoadAll(c, d, collisions))
  {
    LoadNewForm(c, d, collisions, d.news, Usable(c, d));
    var u := LoadNew(c, Emptied(d, collisions), d.news, Usable(c, d));
    var s := u.(nIdCount := d.nNew);
    SameRandom(u, s);
    LoadTriedForm(c, s, d.tried);
    PlaceBucketsForm(c, LoadTried(c, s, d.tried), d.nNew, Lists(d.positions));
  }

  ghost function Restore(c: Config, d: Dump, collisions: set<int>): State
    requires ValidConfig(c) && WellFormed(c, d)
  {
    LoadAllForm(c, d, collisions);
    var s := LoadAll(c, d, collisions);
    Prune(s, Doomed(s.mapInfo))
  }

  ghost function Unserialize(c: Config, s: seq<Item>, collisions: set<int>): Option<State>
    requires ValidConfig(c)
  {
    ReadForm(c, s);
    match Read(c, s)
    case None => None
    case Some(d) => Some(Restore(c, d, collisions))
  }

  // ----- what is written of a manager -----

  /** The entries written first: those with references. */
  ghost function Referenced(m: map<int, Info>): set<int> {
    set id | id in m && m[id].refCount != 0
  }

  lemma {:induction false} ReferencedAreNew(c: Config, a: State)
    requires Consistent(c, a, {}, 0)
    ensures Referenced(a.mapInfo) == NewIds(a.mapInfo)
  {
    forall id | id in a.mapInfo
      ensures a.mapInfo[id].refCount != 0 <==> !a.mapInfo[id].inTried
    {
      assert NewOf(c, a, {}, id) && TriedOf(c, a, id);
    }
  }

  lemma {:induction false} AscendingWithin(a: State, ids: set<int>)
    requires ids <= a.mapInfo.Keys
    ensures Within(a, Ascending(ids))
  {
    var list := Ascending(ids);
    forall n | 0 <= n < |list|
      ensures list[n] in a.mapInfo
    {
      AscendingAt(ids, n);
    }
  }

  ghost function RecordsOf(a: State, ids: set<int>): (rs: seq<Record>)
    requires ids <= a.mapInfo.Keys
    ensures |rs| == |Ascending(ids)|
  {
    AscendingWithin(a, ids);
    seq(|Ascending(ids)|, n requires 0 <= n < |Ascending(ids)| => Saved(a.mapInfo[Ascending(ids)[n]]))
  }

  ghost function PositionsOf(c: Config, a: State): (bs: seq<Bucket>)
    ensures |bs| == c.newBuckets
  {
    seq(c.newBuckets, b requires 0 <= b < c.newBuckets =>
      var xs := Indexes(a, Ascending(Referenced(a.mapInfo)), b, c.bucketSize); Bucket(|xs|, xs))
  }

  ghost function DumpOf(c: Config, a: State): Dump {
    Dump(1, a.key, a.nNew, a.nTried, Flip(c.newBuckets),
      RecordsOf(a, Referenced(a.mapInfo)), RecordsOf(a, TriedIds(a.mapInfo)), PositionsOf(c, a))
  }

  ghost function Serialize(c: Config, a: State): seq<Item> {
    Write(DumpOf(c, a))
  }

  // ----- the limits are never exceeded -----

  ghost function Grid(buckets: nat, size: nat): set<Slot> {
    set b, i | 0 <= b < buckets && 0 <= i < size :: Slot(b, i)
  }

  ghost function Row(b: nat, size: nat): set<Slot> {
    set i | 0 <= i < size :: Slot(b, i)
  }

  lemma {:induction false} RowSize(b: nat, size: nat)
    ensures |Row(b, size)| == size
  {
    if size > 0 {
      RowSize(b, size - 1);
      assert Row(b, size) == Row(b, size - 1) + {Slot(b, size - 1)};
    }
  }

  lemma {:induction false} GridRows(b: nat, size: nat)
    ensures Grid(b + 1, size) == Grid(b, size) + Row(b, size) && Grid(b, size) !! Row(b, size)
  {
  }

  lemma {:induction false} OneRowMore(b: nat, size: nat)
    ensures (b + 1) * size == b * size + size
  {
  }

  lemma {:induction false} GridSize(buckets: nat, size: nat)
    ensures |Grid(buckets, size)| == buckets * size
  {
    if buckets > 0 {
      var b := buckets - 1;
      GridSize(b, size);
      RowSize(b, size);
      GridRows(b, size);
      OneRowMore(b, size);
    }
  }

  /** Ids that each have a slot of a table are no more than the table has slots. */
  lemma {:induction false} TableHolds(t: Table, ids: set<int>, slots: set<Slot>)
    requires forall id {:trigger id in ids} :: id in ids ==> exists slot :: slot in slots && slot in t && t[slot] == id
    ensures |ids| <= |slots|
    decreases |slots|
  {
    if slots == {} {
      forall id: int
        ensures id !in ids
      {
      }
    } else {
      var slot := AnyMember(slots);
      var rest := if slot in t then ids - {t[slot]} else ids;
      TableHolds(t, rest, slots - {slot});
    }
  }

  lemma {:induction false} NewFits(c: Config, a: State)
    requires Consistent(c, a, {}, 0)
    ensures a.nNew <= c.newBuckets * c.bucketSize
  {
    var slots := Grid(c.newBuckets, c.bucketSize);
    forall id | id in NewIds(a.mapInfo)
      ensures exists slot :: slot in slots && slot in a.vvNew && a.vvNew[slot] == id
    {
      assert NewOf(c, a, {}, id);
      var svc := a.mapInfo[id].svc;
      var b := AnyMember(Refs(c, a.key, a.vvNew, svc, id));
      assert NewSlot(c, a.key, svc, b) in slots;
    }
    TableHolds(a.vvNew, NewIds(a.mapInfo), slots);
    GridSize(c.newBuckets, c.bucketSize);
    assert NewIds(a.mapInfo) - {} == NewIds(a.mapInfo);
  }

  lemma {:induction false} TriedFits(c: Config, a: State)
    requires Consistent(c, a, {}, 0)
    ensures a.nTried <= c.triedBuckets * c.bucketSize
  {
    var slots := Grid(c.triedBuckets, c.bucketSize);
    forall id | id in TriedIds(a.mapInfo)
      ensures exists slot :: slot in slots && slot in a.vvTried && a.vvTried[slot] == id
    {
      assert TriedOf(c, a, id);
      assert TriedSlot(c, a.key, a.mapInfo[id].svc) in slots;
    }
    TableHolds(a.vvTried, TriedIds(a.mapInfo), slots);
    GridSize(c.triedBuckets, c.bucketSize);
  }

  lemma {:induction false} DumpForm(c: Config, a: State)
    requires Consistent(c, a, {}, 0)
    ensures WellFormed(c, DumpOf(c, a)) && Usable(c, DumpOf(c, a))
  {
    NewFits(c, a);
    TriedFits(c, a);
    ReferencedAreNew(c, a);
    AscendingExact(NewIds(a.mapInfo));
    AscendingExact(TriedIds(a.mapInfo));
    assert NewIds(a.mapInfo) - {} == NewIds(a.mapInfo);
    FlipTwice(c.newBuckets);
  }

  // ----- the round trip -----

  lemma {:induction false} DumpRecords(c: Config, a: State)
    requires Consistent(c, a, {}, 0)
    ensures Dumped(c, a, Order(a))
    ensures IsRecords(a, Order(a), 0, DumpOf(c, a).news) && |DumpOf(c, a).news| == a.nNew
    ensures IsRecords(a, Order(a), a.nNew, DumpOf(c, a).tried) && a.nNew + |DumpOf(c, a).tried| == |Order(a)|
  {
    OrderDumped(c, a);
    OrderExact(c, a);
    ReferencedAreNew(c, a);
    AscendingExact(TriedIds(a.mapInfo));
  }

  /** A new entry has the same index among the new entries and among all. */
  lemma {:induction false} SameRank(c: Config, a: State, slot: Slot)
    requires Consistent(c, a, {}, 0) && slot in a.vvNew
    ensures Rank(Ascending(NewIds(a.mapInfo)), a.vvNew[slot]) == Rank(Order(a), a.vvNew[slot])
  {
    var news, id := Ascending(NewIds(a.mapInfo)), a.vvNew[slot];
    AscendingExact(NewIds(a.mapInfo));
    OrderExact(c, a);
    assert NewAt(c, a, slot);
    assert id in news;
    var n :| 0 <= n < |news| && news[n] == id;
    RankOf(news, n);
    assert Order(a)[n] == id;
    RankOf(Order(a), n);
  }

  lemma {:induction false} SameIndexes(c: Config, a: State, b: nat, i: nat)
    requires Consistent(c, a, {}, 0)
    ensures Indexes(a, Ascending(NewIds(a.mapInfo)), b, i) == Indexes(a, Order(a), b, i)
  {
    if i > 0 {
      SameIndexes(c, a, b, i - 1);
      if Slot(b, i - 1) in a.vvNew {
        SameRank(c, a, Slot(b, i - 1));
      }
    }
  }

  lemma {:induction false} PositionsAt(c: Config, a: State, ids: seq<int>, n: nat, b: nat)
    requires b < n
    ensures |Positions(c, a, ids, n)| == n && Positions(c, a, ids, n)[b] == Indexes(a, ids, b, c.bucketSize)
  {
    PositionsCount(c, a, ids, n);
    PositionsCount(c, a, ids, n - 1);
    if b < n - 1 {
      PositionsAt(c, a, ids, n - 1, b);
    }
  }

  lemma {:induction false} DumpPositions(c: Config, a: State)
    requires Consistent(c, a, {}, 0)
    ensures Lists(PositionsOf(c, a)) == Positions(c, a, Order(a), c.newBuckets)
  {
    ReferencedAreNew(c, a);
    PositionsCount(c, a, Order(a), c.newBuckets);
    forall b | 0 <= b < c.newBuckets
      ensures Lists(PositionsOf(c, a))[b] == Positions(c, a, Order(a), c.newBuckets)[b]
    {
      SameIndexes(c, a, b, c.bucketSize);
      PositionsAt(c, a, Order(a), c.newBuckets, b);
    }
  }

  lemma {:induction false} NothingLoaded(c: Config, a: State, ids: seq<int>, collisions: set<int>)
    requires Dumped(c, a, ids)
    ensures Emptied(DumpOf(c, a), collisions) == Partial(c, a, ids, 0, 0, 0, 0, collisions)
  {
    var s := Partial(c, a, ids, 0, 0, 0, 0, collisions);
    assert s.mapInfo == map[] && s.mapAddr == map[] && s.vvTried == map[];
    forall slot | slot in a.vvNew
      ensures !Before(slot, 0, 0)
    {
      SlotHolds(c, a, ids, slot);
    }
    assert s.vvNew == map[];
  }

  lemma {:induction false} LoadsRenumbered(c: Config, a: State, collisions: set<int>)
    requires Consistent(c, a, {}, 0)
    ensures LoadAll(c, DumpOf(c, a), collisions) == Renumbered(c, a, collisions)
  {
    var d, ids := DumpOf(c, a), Order(a);
    DumpForm(c, a);
    DumpRecords(c, a);
    NothingLoaded(c, a, ids, collisions);
    NewEntriesLoad(c, a, ids, d.news, collisions);
    TriedEntriesLoad(c, a, ids, d.tried, collisions);
    DumpPositions(c, a);
    BucketsRestored(c, a, ids, c.newBuckets, collisions);
  }

  lemma {:induction false} NothingDoomed(c: Config, b: State)
    requires Consistent(c, b, {}, 0)
    ensures Doomed(b.mapInfo) == {}
  {
    forall id | id in b.mapInfo
      ensures b.mapInfo[id].inTried || b.mapInfo[id].refCount != 0
    {
      assert NewOf(c, b, {}, id);
    }
  }

  /** Writing a consistent manager and reading it back loses nothing: the result is the same manager up to the
      numbering of its entries, and is consistent again. */
  lemma {:induction false} RoundTrip(c: Config, a: State, collisions: set<int>)
    requires Consistent(c, a, {}, 0)
    ensures Unserialize(c, Serialize(c, a), collisions) == Some(Renumbered(c, a, collisions))
    ensures IsRenumbering(a, Renumbered(c, a, collisions), Order(a))
    ensures Consistent(c, Renumbered(c, a, collisions), {}, 0)
  {
    var d, b := DumpOf(c, a), Renumbered(c, a, collisions);
    DumpForm(c, a);
    ReadWritten(c, d);
    LoadsRenumbered(c, a, collisions);
    RenumberedExact(c, a, collisions);
    RenumberingConsistent(c, a, b, Order(a));
    NothingDoomed(c, b);
  }
}
