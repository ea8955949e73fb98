/** The address manager's tables and operations as values (src/addrman.h, src/addrman.cpp). */
module AddrManModel {

  type NetAddr = nat

  /** ServiceFlags, as the set of bits that are set. */
  type Services = set<nat>

  datatype Service = Service(addr: NetAddr, port: nat)

  /** CAddress */
  datatype Address = Address(svc: Service, services: Services, time: int)

  /** CAddrInfo */
  datatype Info = Info(
    svc: Service, services: Services, time: int, lastTry: int, lastCountAttempt: int, source: NetAddr,
    lastSuccess: int, attempts: int, refCount: int, inTried: bool, randomPos: int)

  /** A position in one of the bucket tables. */
  datatype Slot = Slot(bucket: int, pos: int)

  /** A bucket table; a slot that holds -1 in the source is absent here. */
  type Table = map<Slot, int>

  /** Bucket counts, the keyed hashes behind bucket choice, and the address classification. */
  datatype Config = Config(
    newBuckets: nat, triedBuckets: nat, bucketSize: nat,
    triedHash: (nat, Service) -> nat, newHash: (nat, Service, NetAddr) -> nat,
      positionHash: (nat, Service, bool, int) -> nat,
    routable: NetAddr -> bool, valid: Service -> bool)

  datatype State = State(
    key: nat, nIdCount: int, mapInfo: map<int, Info>, mapAddr: map<NetAddr, int>, vRandom: seq<int>,
    nTried: int, vvTried: Table, nNew: int, vvNew: Table, nLastGood: int, collisions: set<int>)

  const NEW_BUCKETS_PER_ADDRESS := 8
  const HORIZON_DAYS := 30
  const RETRIES := 3
  const MAX_FAILURES := 10
  const MIN_FAIL_DAYS := 7
  const REPLACEMENT_HOURS := 4
  const TEST_WINDOW := 40 * 60
  const GETADDR_MAX_PCT := 23
  const GETADDR_MAX := 2500
  const COLLISION_SIZE := 10

  predicate ValidConfig(c: Config) {
    0 < c.newBuckets && 0 < c.triedBuckets && 0 < c.bucketSize
  }

  function TriedSlot(c: Config, key: nat, svc: Service): Slot
    requires ValidConfig(c)
  {
    var bucket := c.triedHash(key, svc) % c.triedBuckets;
    Slot(bucket, c.positionHash(key, svc, false, bucket) % c.bucketSize)
  }

  function NewBucket(c: Config, key: nat, svc: Service, source: NetAddr): int
    requires ValidConfig(c)
  {
    c.newHash(key, svc, source) % c.newBuckets
  }

  function NewSlot(c: Config, key: nat, svc: Service, bucket: int): Slot
    requires ValidConfig(c)
  {
    Slot(bucket, c.positionHash(key, svc, true, bucket) % c.bucketSize)
  }

  predicate IsTerrible(i: Info, now: int) {
    if i.lastTry != 0 && i.lastTry >= now - 60 then false
    else
      || i.time > now + 10 * 60
      || i.time == 0
      || now - i.time > HORIZON_DAYS * 24 * 60 * 60
      || (i.lastSuccess == 0 && i.attempts >= RETRIES)
      || (now - i.lastSuccess > MIN_FAIL_DAYS * 24 * 60 * 60 && i.attempts >= MAX_FAILURES)
  }

  // ----- consistency -----

  ghost predicate RandomAt(s: State, i: int)
    requires 0 <= i < |s.vRandom|
  {
    s.vRandom[i] in s.mapInfo && s.mapInfo[s.vRandom[i]].randomPos == i
  }

  ghost predicate RandomOf(s: State, id: int)
    requires id in s.mapInfo
  {
    0 <= s.mapInfo[id].randomPos < |s.vRandom| && s.vRandom[s.mapInfo[id].randomPos] == id
  }

  /** vRandom lists every id once, each at its recorded position. */
  ghost predicate RandomConsistent(s: State) {
    && (forall i {:trigger RandomAt(s, i)} :: 0 <= i < |s.vRandom| ==> RandomAt(s, i))
    && (forall id {:trigger RandomOf(s, id)} :: id in s.mapInfo ==> RandomOf(s, id))
  }

  ghost predicate AddrOf(s: State, id: int)
    requires id in s.mapInfo
  {
    s.mapInfo[id].svc.addr in s.mapAddr && s.mapAddr[s.mapInfo[id].svc.addr] == id
  }

  ghost predicate AddrAt(s: State, a: NetAddr)
    requires a in s.mapAddr
  {
    s.mapAddr[a] in s.mapInfo && s.mapInfo[s.mapAddr[a]].svc.addr == a
  }

  /** mapAddr and mapInfo are inverse to each other. */
  ghost predicate AddrConsistent(s: State) {
    && (forall id {:trigger AddrOf(s, id)} :: id in s.mapInfo ==> AddrOf(s, id))
    && (forall a {:trigger AddrAt(s, a)} :: a in s.mapAddr ==> AddrAt(s, a))
  }

  ghost predicate InfoSane(s: State, id: int)
    requires id in s.mapInfo
  {
    0 <= id < s.nIdCount && s.mapInfo[id].lastTry >= 0 && s.mapInfo[id].lastSuccess >= 0
  }

  ghost predicate InfosSane(s: State) {
    forall id {:trigger InfoSane(s, id)} :: id in s.mapInfo ==> InfoSane(s, id)
  }

  ghost predicate TriedAt(c: Config, s: State, slot: Slot)
    requires ValidConfig(c) && slot in s.vvTried
  {
    var id := s.vvTried[slot];
    id in s.mapInfo && s.mapInfo[id].inTried && slot == TriedSlot(c, s.key, s.mapInfo[id].svc)
  }

  ghost predicate TriedOf(c: Config, s: State, id: int)
    requires ValidConfig(c) && id in s.mapInfo
  {
    var info := s.mapInfo[id];
    var slot := TriedSlot(c, s.key, info.svc);
    info.inTried ==> info.lastSuccess > 0 && info.refCount == 0 && slot in s.vvTried && s.vvTried[slot] == id
  }

  /** The tried table holds exactly the tried entries, each at its own slot. */
  ghost predicate TriedConsistent(c: Config, s: State)
    requires ValidConfig(c)
  {
    && (forall slot {:trigger TriedAt(c, s, slot)} :: slot in s.vvTried ==> TriedAt(c, s, slot))
    && (forall id {:trigger TriedOf(c, s, id)} :: id in s.mapInfo ==> TriedOf(c, s, id))
  }

  /** The new buckets in which `id`, the entry for `svc`, has a reference. */
  ghost function Refs(c: Config, key: nat, vvNew: Table, svc: Service, id: int): set<int>
    requires ValidConfig(c)
  {
    set b | 0 <= b < c.newBuckets && NewSlot(c, key, svc, b) in vvNew && vvNew[NewSlot(c, key, svc, b)] == id
  }

  ghost predicate NewAt(c: Config, s: State, slot: Slot)
    requires ValidConfig(c) && slot in s.vvNew
  {
    var id := s.vvNew[slot];
    && id in s.mapInfo && !s.mapInfo[id].inTried
    && 0 <= slot.bucket < c.newBuckets && slot == NewSlot(c, s.key, s.mapInfo[id].svc, slot.bucket)
  }

  ghost predicate NewOf(c: Config, s: State, limbo: set<int>, id: int)
    requires ValidConfig(c) && id in s.mapInfo
  {
    var info := s.mapInfo[id];
    && info.refCount == |Refs(c, s.key, s.vvNew, info.svc, id)| <= NEW_BUCKETS_PER_ADDRESS
    && (id in limbo ==> !info.inTried && info.refCount == 0)
    && (id !in limbo && !info.inTried ==> info.refCount > 0)
  }

  /** The new table's references match the reference counts; entries in limbo belong to neither table. */
  ghost predicate NewConsistent(c: Config, s: State, limbo: set<int>)
    requires ValidConfig(c)
  {
    && (forall slot {:trigger NewAt(c, s, slot)} :: slot in s.vvNew ==> NewAt(c, s, slot))
    && (forall id {:trigger NewOf(c, s, limbo, id)} :: id in s.mapInfo ==> NewOf(c, s, limbo, id))
  }

  ghost function TriedIds(mapInfo: map<int, Info>): set<int> {
    set id | id in mapInfo && mapInfo[id].inTried
  }

  ghost function NewIds(mapInfo: map<int, Info>): set<int> {
    set id | id in mapInfo && !mapInfo[id].inTried
  }

  ghost predicate Counted(s: State, limbo: set<int>, counted: int) {
    && limbo <= NewIds(s.mapInfo)
    && s.nTried == |TriedIds(s.mapInfo)|
    && s.nNew == |NewIds(s.mapInfo) - limbo| + counted
  }

  /** The invariant, for a state in which the entries in `limbo` are between tables and `counted` of them
      are included in nNew. Between operations `limbo` is empty. */
  ghost predicate Consistent(c: Config, s: State, limbo: set<int>, counted: int) {
    && ValidConfig(c)
    && RandomConsistent(s) && AddrConsistent(s) && InfosSane(s)
    && TriedConsistent(c, s) && NewConsistent(c, s, limbo) && Counted(s, limbo, counted)
  }

  ghost predicate CollisionOk(c: Config, s: State, id: int)
    requires ValidConfig(c)
  {
    id < s.nIdCount && (id in s.mapInfo ==> TriedSlot(c, s.key, s.mapInfo[id].svc) in s.vvTried)
  }

  /** Every recorded collision still collides: the slot it competes for is occupied. */
  ghost predicate CollisionsOk(c: Config, s: State)
    requires ValidConfig(c)
  {
    && |s.collisions| <= COLLISION_SIZE
    && forall id {:trigger CollisionOk(c, s, id)} :: id in s.collisions ==> CollisionOk(c, s, id)
  }

  // ----- operations -----

  function Cleared(key: nat, collisions: set<int>): State {
    State(key, 0, map[], map[], [], 0, map[], 0, map[], 1, collisions)
  }

  function WithInfo(s: State, id: int, info: Info): State {
    s.(mapInfo := s.mapInfo[id := info])
  }

  /** Find: the id recorded for a network address, port ignored. */
  predicate Known(s: State, a: NetAddr) {
    a in s.mapAddr && s.mapAddr[a] in s.mapInfo
  }

  function FreshInfo(addr: Address, source: NetAddr, pos: int): Info {
    Info(addr.svc, addr.services, addr.time, 0, 0, source, 0, 0, 0, false, pos)
  }

  function Create(s: State, addr: Address, source: NetAddr): State {
    s.(nIdCount := s.nIdCount + 1,
       mapInfo := s.mapInfo[s.nIdCount := FreshInfo(addr, source, |s.vRandom|)],
       mapAddr := s.mapAddr[addr.svc.addr := s.nIdCount],
       vRandom := s.vRandom + [s.nIdCount])
  }

  function SwapRandom(s: State, i: int, j: int): State
    requires 0 <= i < |s.vRandom| && 0 <= j < |s.vRandom| && s.vRandom[i] in s.mapInfo && s.vRandom[j] in s.mapInfo
  {
    if i == j then s else
      var a, b := s.vRandom[i], s.vRandom[j];
      var m := s.mapInfo[a := s.mapInfo[a].(randomPos := j)];
      s.(mapInfo := m[b := m[b].(randomPos := i)], vRandom := s.vRandom[i := b][j := a])
  }

  function Delete(s: State, id: int): State
    requires RandomConsistent(s) && id in s.mapInfo
  {
    assert RandomOf(s, id);
    var last := |s.vRandom| - 1;
    assert RandomAt(s, last);
    var t := SwapRandom(s, s.mapInfo[id].randomPos, last);
    t.(vRandom := t.vRandom[..last], mapAddr := t.mapAddr - {s.mapInfo[id].svc.addr}, mapInfo := t.mapInfo - {id},
      nNew := t.nNew - 1)
  }

  /** Take one reference out of the new table. */
  function DropRef(s: State, slot: Slot): State
    requires slot in s.vvNew && s.vvNew[slot] in s.mapInfo
  {
    var id := s.vvNew[slot];
    s.(mapInfo := s.mapInfo[id := s.mapInfo[id].(refCount := s.mapInfo[id].refCount - 1)], vvNew := s.vvNew - {slot})
  }

  function ClearNew(s: State, slot: Slot): State
    requires slot in s.vvNew ==> s.vvNew[slot] in s.mapInfo && RandomConsistent(s)
  {
    if slot !in s.vvNew then s else
      var id := s.vvNew[slot];
      var t := DropRef(s, slot);
      if t.mapInfo[id].refCount == 0 then DropRefKeepsRandom(s, slot); Delete(t, id) else t
  }

  lemma {:induction false} DropRefKeepsRandom(s: State, slot: Slot)
    requires slot in s.vvNew && s.vvNew[slot] in s.mapInfo && RandomConsistent(s)
    ensures RandomConsistent(DropRef(s, slot))
  {
    SameRandom(s, DropRef(s, slot));
  }

  /** RandomConsistent depends only on vRandom and the recorded positions. */
  lemma {:induction false} SameRandom(s: State, t: State)
    requires RandomConsistent(s) && t.vRandom == s.vRandom && t.mapInfo.Keys == s.mapInfo.Keys
    requires forall id :: id in s.mapInfo ==> t.mapInfo[id].randomPos == s.mapInfo[id].randomPos
    ensures RandomConsistent(t)
  {
    forall i | 0 <= i < |t.vRandom|
      ensures RandomAt(t, i)
    {
      assert RandomAt(s, i);
      var id := t.vRandom[i];
      assert id == s.vRandom[i] && t.mapInfo[id].randomPos == s.mapInfo[id].randomPos;
    }
    forall id | id in t.mapInfo
      ensures RandomOf(t, id)
    {
      assert RandomOf(s, id);
    }
  }

  /** The new table without any reference to `id`. */
  function Unreferenced(vvNew: Table, id: int): Table {
    map slot | slot in vvNew && vvNew[slot] != id :: vvNew[slot]
  }

  /** The first half of MakeTried: take `id` out of all new buckets. */
  function Unlist(s: State, id: int): State
    requires id in s.mapInfo
  {
    s.(mapInfo := s.mapInfo[id := s.mapInfo[id].(refCount := 0)], vvNew := Unreferenced(s.vvNew, id),
      nNew := s.nNew - 1)
  }

  /** Take the entry at a tried slot out of the tried table. */
  function Untry(s: State, slot: Slot): State
    requires slot in s.vvTried && s.vvTried[slot] in s.mapInfo
  {
    var id := s.vvTried[slot];
    s.(mapInfo := s.mapInfo[id := s.mapInfo[id].(inTried := false)], vvTried := s.vvTried - {slot},
      nTried := s.nTried - 1)
  }

  /** Give `id` one more reference, at a free slot. */
  function AddRef(s: State, id: int, slot: Slot): State
    requires id in s.mapInfo
  {
    s.(mapInfo := s.mapInfo[id := s.mapInfo[id].(refCount := s.mapInfo[id].refCount + 1)], vvNew := s.vvNew[slot := id])
  }

  /** Put `id` at its slot of the tried table. */
  function PutTried(c: Config, s: State, id: int): State
    requires ValidConfig(c) && id in s.mapInfo
  {
    var info := s.mapInfo[id];
    s.(mapInfo := s.mapInfo[id := info.(inTried := true)],
       vvTried := s.vvTried[TriedSlot(c, s.key, info.svc) := id], nTried := s.nTried + 1)
  }
}
