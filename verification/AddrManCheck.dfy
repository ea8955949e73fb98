/** Check_: the consistency test the manager runs on itself, and what passing it means. */
module AddrManCheck {
  import opened Collections
  import opened AddrManModel
  import opened AddrManOps
  import opened AddrManager

  /** What Check_ asks of one entry. Looking up an unmapped address yields 0, so entry 0 need not be mapped. */
  ghost predicate EntryPasses(s: State, id: int)
    requires id in s.mapInfo
  {
    var info := s.mapInfo[id];
    && (if info.inTried then info.lastSuccess != 0 && info.refCount == 0
         else 0 < info.refCount <= NEW_BUCKETS_PER_ADDRESS)
    && (if info.svc.addr in s.mapAddr then s.mapAddr[info.svc.addr] == id else id == 0)
    && RandomOf(s, id) && info.lastTry >= 0 && info.lastSuccess >= 0
  }

  ghost predicate TriedPasses(c: Config, s: State)
    requires ValidConfig(c)
  {
    && (forall slot {:trigger TriedAt(c, s, slot)} :: slot in s.vvTried ==> TriedAt(c, s, slot))
    && (forall id {:trigger InOwnSlot(c, s, id)} :: id in TriedIds(s.mapInfo) ==> InOwnSlot(c, s, id))
  }

  ghost predicate InOwnSlot(c: Config, s: State, id: int)
    requires ValidConfig(c) && id in s.mapInfo
  {
    var slot := TriedSlot(c, s.key, s.mapInfo[id].svc);
    slot in s.vvTried && s.vvTried[slot] == id
  }

  ghost predicate NewPasses(c: Config, s: State)
    requires ValidConfig(c)
  {
    && (forall slot {:trigger NewAt(c, s, slot)} :: slot in s.vvNew ==> NewAt(c, s, slot))
    && (forall id {:trigger RefsCounted(c, s, id)} :: id in NewIds(s.mapInfo) ==> RefsCounted(c, s, id))
  }

  ghost predicate RefsCounted(c: Config, s: State, id: int)
    requires ValidConfig(c) && id in s.mapInfo
  {
    s.mapInfo[id].refCount == |Refs(c, s.key, s.vvNew, s.mapInfo[id].svc, id)|
  }

  /** Everything Check_ tests. */
  ghost predicate Passes(c: Config, s: State)
    requires ValidConfig(c)
  {
    && |s.vRandom| == s.nTried + s.nNew
    && (forall id {:trigger EntryPasses(s, id)} :: id in s.mapInfo ==> EntryPasses(s, id))
    && |TriedIds(s.mapInfo)| == s.nTried && |NewIds(s.mapInfo)| == s.nNew
    && TriedPasses(c, s) && NewPasses(c, s) && s.key != 0
  }

  // ----- what passing means -----

  /** What Check_ does not test: ids below the counter, and mapAddr mapping exactly the addresses of entries. */
  ghost predicate Unchecked(s: State) {
    && (forall id :: id in s.mapInfo ==> 0 <= id < s.nIdCount && s.mapInfo[id].svc.addr in s.mapAddr)
    && (forall a {:trigger AddrAt(s, a)} :: a in s.mapAddr ==> AddrAt(s, a))
  }

  lemma {:induction false} IdsSplit(m: map<int, Info>)
    ensures m.Keys == TriedIds(m) + NewIds(m) && |m.Keys| == |TriedIds(m)| + |NewIds(m)|
  {
    assert m.Keys == TriedIds(m) + NewIds(m);
  }

  /** The ids at the positions of vRandom below `k`. */
  ghost function Listed(s: State, k: nat): set<int>
    requires k <= |s.vRandom|
  {
    set i | 0 <= i < k :: s.vRandom[i]
  }

  /** A list as long as there are ids, in which every id finds itself, holds nothing else. */
  lemma {:induction false} NothingElseListed(s: State, i: nat)
    requires i < |s.vRandom| == |s.mapInfo.Keys| && forall id {:trigger RandomOf(s, id)} :: id in s.mapInfo ==>
      RandomOf(s, id)
    ensures RandomAt(s, i)
  {
    var others := set j | 0 <= j < |s.vRandom| && j != i :: s.vRandom[j];
    OthersSize(s, i, |s.vRandom|);
    if !RandomAt(s, i) {
      forall id | id in s.mapInfo.Keys
        ensures id in others
      {
        assert RandomOf(s, id);
      }
      SubsetSize(s.mapInfo.Keys, others);
      assert false;
    }
  }

  lemma {:induction false} OthersSize(s: State, i: nat, k: nat)
    requires i < |s.vRandom| && k <= |s.vRandom|
    ensures |set j | 0 <= j < k && j != i :: s.vRandom[j]| <= if i < k then k - 1 else k
  {
    if k > 0 {
      OthersSize(s, i, k - 1);
      var a, b := set j | 0 <= j < k && j != i :: s.vRandom[j], set j | 0 <= j < k - 1 && j != i :: s.vRandom[j];
      if k - 1 == i {
        assert a == b;
      } else {
        assert a == b + {s.vRandom[k - 1]};
      }
    }
  }

  /** Check_ decides the invariant, up to what it does not test. */
  lemma {:induction false} PassesExact(c: Config, s: State)
    requires ValidConfig(c) && s.key != 0
    ensures Passes(c, s) && Unchecked(s) <==> Consistent(c, s, {}, 0)
  {
    IdsSplit(s.mapInfo);
    assert NewIds(s.mapInfo) - {} == NewIds(s.mapInfo);
    if Consistent(c, s, {}, 0) {
      ConsistentEntriesPass(c, s);
      ListedAll(s);
      assert Passes(c, s);
    }
    if Passes(c, s) && Unchecked(s) {
      PassingLists(c, s);
      PassingTables(c, s);
    }
  }

  lemma {:induction false} ConsistentEntriesPass(c: Config, s: State)
    requires Consistent(c, s, {}, 0)
    ensures Unchecked(s) && TriedPasses(c, s) && NewPasses(c, s)
    ensures forall id {:trigger EntryPasses(s, id)} :: id in s.mapInfo ==> EntryPasses(s, id)
  {
    forall id | id in s.mapInfo
      ensures EntryPasses(s, id) && RefsCounted(c, s, id) && 0 <= id < s.nIdCount && s.mapInfo[id].svc.addr in s.mapAddr
      ensures id in TriedIds(s.mapInfo) ==> InOwnSlot(c, s, id)
    {
      assert AddrOf(s, id) && RandomOf(s, id) && InfoSane(s, id) && TriedOf(c, s, id) && NewOf(c, s, {}, id);
    }
  }

  /** vRandom is as long as there are entries. */
  lemma {:induction false} ListedAll(s: State)
    requires RandomConsistent(s)
    ensures |s.vRandom| == |s.mapInfo.Keys|
  {
    ListedDistinct(s, |s.vRandom|);
    forall id | id in s.mapInfo.Keys
      ensures id in Listed(s, |s.vRandom|)
    {
      assert RandomOf(s, id);
    }
    forall i | 0 <= i < |s.vRandom|
      ensures s.vRandom[i] in s.mapInfo.Keys
    {
      assert RandomAt(s, i);
    }
    assert Listed(s, |s.vRandom|) == s.mapInfo.Keys;
  }

  lemma {:induction false} ListedDistinct(s: State, k: nat)
    requires RandomConsistent(s) && k <= |s.vRandom|
    ensures |Listed(s, k)| == k
  {
    if k > 0 {
      ListedDistinct(s, k - 1);
      assert RandomAt(s, k - 1);
      forall i | 0 <= i < k - 1
        ensures s.vRandom[i] != s.vRandom[k - 1]
      {
        assert RandomAt(s, i);
      }
      assert Listed(s, k) == Listed(s, k - 1) + {s.vRandom[k - 1]};
    }
  }

  lemma {:induction false} PassingLists(c: Config, s: State)
    requires ValidConfig(c) && Passes(c, s) && Unchecked(s)
    ensures RandomConsistent(s) && AddrConsistent(s) && InfosSane(s)
  {
    IdsSplit(s.mapInfo);
    forall id | id in s.mapInfo
      ensures RandomOf(s, id) && AddrOf(s, id) && InfoSane(s, id)
    {
      assert EntryPasses(s, id);
    }
    forall i | 0 <= i < |s.vRandom|
      ensures RandomAt(s, i)
    {
      NothingElseListed(s, i);
    }
  }

  lemma {:induction false} PassingTables(c: Config, s: State)
    requires ValidConfig(c) && Passes(c, s)
    ensures TriedConsistent(c, s) && NewConsistent(c, s, {})
  {
    forall id | id in s.mapInfo
      ensures TriedOf(c, s, id) && NewOf(c, s, {}, id)
    {
      assert EntryPasses(s, id);
      if s.mapInfo[id].inTried {
        assert InOwnSlot(c, s, id);
        TriedUnreferenced(c, s, id);
      } else {
        assert RefsCounted(c, s, id);
      }
    }
  }

  lemma {:induction false} TriedUnreferenced(c: Config, s: State, id: int)
    requires ValidConfig(c) && NewPasses(c, s) && id in s.mapInfo && s.mapInfo[id].inTried
    ensures Refs(c, s.key, s.vvNew, s.mapInfo[id].svc, id) == {}
  {
    var svc := s.mapInfo[id].svc;
    forall b | 0 <= b < c.newBuckets
      ensures b !in Refs(c, s.key, s.vvNew, svc, id)
    {
      var slot := NewSlot(c, s.key, svc, b);
      if slot in s.vvNew {
        assert NewAt(c, s, slot);
      }
    }
  }

  /** Entry 0 may be missing from mapAddr without Check_ noticing. */
  lemma {:induction false} MissesUnmappedZero(c: Config, s: State)
    requires Consistent(c, s, {}, 0) && s.key != 0 && 0 in s.mapInfo
    ensures var t := s.(mapAddr := s.mapAddr - {s.mapInfo[0].svc.addr});
      Passes(c, t) && !Consistent(c, t, {}, 0)
  {
    var a := s.mapInfo[0].svc.addr;
    var t := s.(mapAddr := s.mapAddr - {a});
    PassesExact(c, s);
    assert AddrOf(s, 0);
    forall id | id in t.mapInfo
      ensures EntryPasses(t, id)
    {
      assert EntryPasses(s, id) && AddrOf(s, id) && RandomOf(t, id);
    }
    SameTablesPass(c, s, t);
    assert !AddrOf(t, 0);
  }

  lemma {:induction false} SameTablesPass(c: Config, s: State, t: State)
    requires ValidConfig(c) && s.key == t.key && s.mapInfo == t.mapInfo && s.vvTried == t.vvTried && s.vvNew == t.vvNew
    requires TriedPasses(c, s) && NewPasses(c, s)
    ensures TriedPasses(c, t) && NewPasses(c, t)
  {
    assert forall slot :: slot in s.vvTried ==> TriedAt(c, s, slot) == TriedAt(c, t, slot);
    assert forall id :: id in s.mapInfo ==> InOwnSlot(c, s, id) == InOwnSlot(c, t, id);
    assert forall slot :: slot in s.vvNew ==> NewAt(c, s, slot) == NewAt(c, t, slot);
    assert forall id :: id in s.mapInfo ==> RefsCounted(c, s, id) == RefsCounted(c, t, id);
  }

  /** So the manager passes its own test between any two operations. */
  lemma {:induction false} HealthyPasses(c: Config, s: State)
    requires Healthy(c, s) && s.key != 0
    ensures Passes(c, s) && Mapped(s)
    ensures InTable(s.vvTried, c.triedBuckets, c.bucketSize) && InTable(s.vvNew, c.newBuckets, c.bucketSize)
  {
    PassesExact(c, s);
    forall slot | slot in s.vvTried
      ensures 0 <= slot.bucket < c.triedBuckets && 0 <= slot.pos < c.bucketSize
    {
      assert TriedAt(c, s, slot);
    }
    forall slot | slot in s.vvNew
      ensures 0 <= slot.bucket < c.newBuckets && 0 <= slot.pos < c.bucketSize
    {
      assert NewAt(c, s, slot);
    }
  }

  // ----- the table scans -----

  /** The table's slots lie within its dimensions. */
  ghost predicate InTable(t: Table, buckets: nat, size: nat) {
    forall slot :: slot in t ==> 0 <= slot.bucket < buckets && 0 <= slot.pos < size
  }

  /** Scanned before position `i` of bucket `n`. */
  predicate Before(slot: Slot, n: nat, i: nat) {
    slot.bucket < n || (slot.bucket == n && slot.pos < i)
  }

  lemma {:induction false} BeforeNext(n: nat, i: nat, k: nat)
    requires k == i + 1
    ensures forall slot {:trigger Before(slot, n, k)} :: Before(slot, n, k) <==>
      Before(slot, n, i) || slot == Slot(n, i)
  {
    forall slot: Slot
      ensures Before(slot, n, k) <==> Before(slot, n, i) || slot == Slot(n, i)
    {
      assert slot == Slot(slot.bucket, slot.pos);
    }
  }

  /** The tried ids not yet found where they belong. */
  ghost function Missing(c: Config, s: State, n: nat, i: nat): set<int>
    requires ValidConfig(c)
  {
    set id | id in TriedIds(s.mapInfo) && !(InOwnSlot(c, s, id) && Before(TriedSlot(c, s.key, s.mapInfo[id].svc), n, i))
  }

  ghost predicate TriedScanned(c: Config, s: State, n: nat, i: nat)
    requires ValidConfig(c)
  {
    forall slot {:trigger TriedAt(c, s, slot)} :: slot in s.vvTried && Before(slot, n, i) ==> TriedAt(c, s, slot)
  }

  lemma {:induction false} TriedStep(c: Config, s: State, n: nat, i: nat)
    requires ValidConfig(c) && TriedScanned(c, s, n, i)
    ensures var slot := Slot(n, i);
      if slot !in s.vvTried then TriedScanned(c, s, n, i + 1) && Missing(c, s, n, i + 1) == Missing(c, s, n, i)
      else
        var id := s.vvTried[slot];
        && (id in Missing(c, s, n, i) && TriedSlot(c, s.key, s.mapInfo[id].svc) == slot <==> TriedAt(c, s, slot))
        && (TriedAt(c, s, slot) ==>
             TriedScanned(c, s, n, i + 1) && Missing(c, s, n, i + 1) == Missing(c, s, n, i) - {id})
  {
    BeforeNext(n, i, i + 1);
    var slot := Slot(n, i);
    if slot in s.vvTried && TriedAt(c, s, slot) {
      var id := s.vvTried[slot];
      assert InOwnSlot(c, s, id);
      assert Missing(c, s, n, i + 1) == Missing(c, s, n, i) - {id};
    } else if slot !in s.vvTried {
      assert Missing(c, s, n, i + 1) == Missing(c, s, n, i);
    }
  }

  lemma {:induction false} TriedRow(c: Config, s: State, n: nat)
    requires ValidConfig(c) && InTable(s.vvTried, c.triedBuckets, c.bucketSize) && TriedScanned(c, s, n, c.bucketSize)
    ensures TriedScanned(c, s, n + 1, 0) && Missing(c, s, n + 1, 0) == Missing(c, s, n, c.bucketSize)
  {
  }

  lemma {:induction false} TriedEnd(c: Config, s: State)
    requires ValidConfig(c) && InTable(s.vvTried, c.triedBuckets, c.bucketSize) && TriedScanned(c, s, c.triedBuckets, 0)
    ensures TriedPasses(c, s) <==> Missing(c, s, c.triedBuckets, 0) == {}
  {
    var missing := Missing(c, s, c.triedBuckets, 0);
    forall id | id in TriedIds(s.mapInfo)
      ensures id in missing <==> !InOwnSlot(c, s, id)
    {
    }
    if missing != {} {
      var id := AnyMember(missing);
      assert !InOwnSlot(c, s, id);
    }
  }

  /** Every tried slot holds a tried entry that belongs there; `missing` is what was not found. */
  method CheckTried(m: CAddrMan, setTried: set<int>) returns (code: int, missing: set<int>)
    requires ValidConfig(m.c) && InTable(m.vvTried, m.c.triedBuckets, m.c.bucketSize) && setTried == TriedIds(m.mapInfo)
    ensures code == 0 && missing == {} <==> TriedPasses(m.c, m.Value())
  {
    missing := setTried;
    assert missing == Missing(m.c, m.Value(), 0, 0);
    var n := 0;
    while n < m.c.triedBuckets
      invariant n <= m.c.triedBuckets && TriedScanned(m.c, m.Value(), n, 0) && missing == Missing(m.c, m.Value(), n, 0)
    {
      var i := 0;
      while i < m.c.bucketSize
        invariant i <= m.c.bucketSize && TriedScanned(m.c, m.Value(), n, i) && missing == Missing(m.c, m.Value(), n, i)
      {
        TriedStep(m.c, m.Value(), n, i);
        if Slot(n, i) in m.vvTried {
          var id := m.vvTried[Slot(n, i)];
          if id !in missing {
            return -11, missing;
          }
          var home := TriedSlot(m.c, m.nKey, m.mapInfo[id].svc);
          if home.bucket != n {
            return -17, missing;
          }
          if home.pos != i {
            return -18, missing;
          }
          missing := missing - {id};
        }
        i := i + 1;
      }
      TriedRow(m.c, m.Value(), n);
      n := n + 1;
    }
    TriedEnd(m.c, m.Value());
    code := 0;
  }

  /** The buckets in which `id` was found so far. */
  ghost function Found(c: Config, s: State, id: int, n: nat, i: nat): set<int>
    requires ValidConfig(c) && id in s.mapInfo
  {
    set b | b in Refs(c, s.key, s.vvNew, s.mapInfo[id].svc, id) && Before(NewSlot(c, s.key, s.mapInfo[id].svc, b), n, i)
  }

  ghost function Owed(c: Config, s: State, id: int, n: nat, i: nat): int
    requires ValidConfig(c) && id in s.mapInfo
  {
    s.mapInfo[id].refCount - |Found(c, s, id, n, i)|
  }

  /** All slots scanned are right, and mapNew holds for each new entry how many references are still owed. */
  ghost predicate NewScanned(c: Config, s: State, n: nat, i: nat, mapNew: map<int, int>)
    requires ValidConfig(c)
  {
    && (forall slot {:trigger NewAt(c, s, slot)} :: slot in s.vvNew && Before(slot, n, i) ==> NewAt(c, s, slot))
    && (forall id {:trigger id in mapNew} :: id in mapNew ==> id in NewIds(s.mapInfo))
    && (forall id {:trigger Owing(c, s, id, n, i, mapNew)} :: id in NewIds(s.mapInfo) ==> Owing(c, s, id, n, i, mapNew))
  }

  ghost predicate Owing(c: Config, s: State, id: int, n: nat, i: nat, mapNew: map<int, int>)
    requires ValidConfig(c) && id in s.mapInfo
  {
    if id in mapNew then mapNew[id] == Owed(c, s, id, n, i) > 0 else Owed(c, s, id, n, i) == 0
  }

  lemma {:induction false} FoundStep(c: Config, s: State, id: int, n: nat, i: nat)
    requires ValidConfig(c) && id in s.mapInfo
    ensures var slot, svc := Slot(n, i), s.mapInfo[id].svc;
      if n < c.newBuckets && slot in s.vvNew && s.vvNew[slot] == id && slot == NewSlot(c, s.key, svc, n)
      then n !in Found(c, s, id, n, i) && Found(c, s, id, n, i + 1) == Found(c, s, id, n, i) + {n}
      else Found(c, s, id, n, i + 1) == Found(c, s, id, n, i)
  {
    BeforeNext(n, i, i + 1);
  }

  /** A slot in which no new entry is owed a reference, or not there. */
  lemma {:induction false} NewRefused(c: Config, s: State, n: nat, i: nat, mapNew: map<int, int>)
    requires ValidConfig(c) && NewScanned(c, s, n, i, mapNew) && Slot(n, i) in s.vvNew && n < c.newBuckets
    requires var id := s.vvNew[Slot(n, i)]; id !in mapNew || NewSlot(c, s.key, s.mapInfo[id].svc, n) != Slot(n, i)
    ensures !NewPasses(c, s)
  {
    var id := s.vvNew[Slot(n, i)];
    if NewAt(c, s, Slot(n, i)) {
      assert Owing(c, s, id, n, i, mapNew);
      FoundStep(c, s, id, n, i);
      SubsetSize(Found(c, s, id, n, i + 1), Refs(c, s.key, s.vvNew, s.mapInfo[id].svc, id));
      assert !RefsCounted(c, s, id);
    }
  }

  lemma {:induction false} NewStep(c: Config, s: State, n: nat, i: nat, mapNew: map<int, int>, next: map<int, int>)
    requires ValidConfig(c) && NewScanned(c, s, n, i, mapNew) && n < c.newBuckets
    requires if Slot(n, i) !in s.vvNew then next == mapNew
      else
        var id := s.vvNew[Slot(n, i)];
        && id in mapNew && NewSlot(c, s.key, s.mapInfo[id].svc, n) == Slot(n, i)
        && next == if mapNew[id] == 1 then mapNew - {id} else mapNew[id := mapNew[id] - 1]
    ensures NewScanned(c, s, n, i + 1, next)
  {
    var here := Slot(n, i);
    BeforeNext(n, i, i + 1);
    if here in s.vvNew {
      assert NewAt(c, s, here);
    }
    forall id | id in NewIds(s.mapInfo)
      ensures Owing(c, s, id, n, i + 1, next)
    {
      assert Owing(c, s, id, n, i, mapNew);
      FoundStep(c, s, id, n, i);
    }
  }

  lemma {:induction false} NewRow(c: Config, s: State, n: nat, mapNew: map<int, int>)
    requires ValidConfig(c) && InTable(s.vvNew, c.newBuckets, c.bucketSize) && NewScanned(c, s, n, c.bucketSize, mapNew)
    ensures NewScanned(c, s, n + 1, 0, mapNew)
  {
    forall id | id in NewIds(s.mapInfo)
      ensures Owing(c, s, id, n + 1, 0, mapNew)
    {
      assert Owing(c, s, id, n, c.bucketSize, mapNew);
      assert Found(c, s, id, n + 1, 0) == Found(c, s, id, n, c.bucketSize);
    }
  }

  lemma {:induction false} NewStart(c: Config, s: State, mapNew: map<int, int>)
    requires ValidConfig(c) && mapNew.Keys == NewIds(s.mapInfo)
    requires forall id :: id in mapNew ==> mapNew[id] == s.mapInfo[id].refCount > 0
    requires forall slot :: slot in s.vvNew ==> 0 <= slot.bucket && 0 <= slot.pos
    ensures NewScanned(c, s, 0, 0, mapNew)
  {
    forall id | id in NewIds(s.mapInfo)
      ensures Owing(c, s, id, 0, 0, mapNew)
    {
      assert Found(c, s, id, 0, 0) == {};
    }
  }

  lemma {:induction false} NewEnd(c: Config, s: State, mapNew: map<int, int>)
    requires ValidConfig(c) && InTable(s.vvNew, c.newBuckets, c.bucketSize) && NewScanned(c, s, c.newBuckets, 0, mapNew)
    ensures NewPasses(c, s) <==> mapNew == map[]
  {
    forall id | id in NewIds(s.mapInfo)
      ensures RefsCounted(c, s, id) <==> id !in mapNew
    {
      assert Owing(c, s, id, c.newBuckets, 0, mapNew);
      assert Found(c, s, id, c.newBuckets, 0) == Refs(c, s.key, s.vvNew, s.mapInfo[id].svc, id);
    }
    if mapNew != map[] {
      assert mapNew.Keys != {};
      var id := AnyMember(mapNew.Keys);
      assert id in mapNew;
    }
  }

  /** Every new slot holds a new entry that may be there; `owed` is what was not found. */
  method CheckNew(m: CAddrMan, mapNew: map<int, int>) returns (code: int, owed: map<int, int>)
    requires ValidConfig(m.c) && InTable(m.vvNew, m.c.newBuckets, m.c.bucketSize) && mapNew.Keys == NewIds(m.mapInfo)
    requires forall id :: id in mapNew ==> mapNew[id] == m.mapInfo[id].refCount > 0
    ensures code == 0 && owed == map[] <==> NewPasses(m.c, m.Value())
  {
    owed := mapNew;
    NewStart(m.c, m.Value(), mapNew);
    var n := 0;
    while n < m.c.newBuckets
      invariant n <= m.c.newBuckets && NewScanned(m.c, m.Value(), n, 0, owed)
    {
      var i := 0;
      while i < m.c.bucketSize
        invariant i <= m.c.bucketSize && NewScanned(m.c, m.Value(), n, i, owed)
      {
        code, owed := CheckNewSlot(m, n, i, owed);
        if code != 0 {
          return;
        }
        i := i + 1;
      }
      NewRow(m.c, m.Value(), n, owed);
      n := n + 1;
    }
    NewEnd(m.c, m.Value(), owed);
    code := 0;
  }

  method CheckNewSlot(m: CAddrMan, n: nat, i: nat, mapNew: map<int, int>) returns (code: int, owed: map<int, int>)
    requires ValidConfig(m.c) && n < m.c.newBuckets && NewScanned(m.c, m.Value(), n, i, mapNew)
    ensures if code == 0 then NewScanned(m.c, m.Value(), n, i + 1, owed) else !NewPasses(m.c, m.Value())
  {
    owed := mapNew;
    if Slot(n, i) in m.vvNew {
      var id := m.vvNew[Slot(n, i)];
      if id !in mapNew {
        NewRefused(m.c, m.Value(), n, i, mapNew);
        return -12, owed;
      }
      if NewSlot(m.c, m.nKey, m.mapInfo[id].svc, n).pos != i {
        NewRefused(m.c, m.Value(), n, i, mapNew);
        return -19, owed;
      }
      owed := if mapNew[id] == 1 then mapNew - {id} else mapNew[id := mapNew[id] - 1];
    }
    NewStep(m.c, m.Value(), n, i, mapNew, owed);
    code := 0;
  }

  // ----- the entries -----

  /** What the lookups of Check_ leave in mapAddr while every entry so far passes. */
  ghost predicate LookedUp(s: State, mapAddr: map<NetAddr, int>) {
    mapAddr == s.mapAddr ||
      (0 in s.mapInfo && s.mapInfo[0].svc.addr !in s.mapAddr && mapAddr == s.mapAddr[s.mapInfo[0].svc.addr := 0])
  }

  method CheckEntry(m: CAddrMan, n: int, ghost s: State) returns (code: int)
    requires n in m.mapInfo && m.Value() == s.(mapAddr := m.mapAddr) && LookedUp(s, m.mapAddr)
    modifies m`mapAddr
    ensures m.Value() == s.(mapAddr := m.mapAddr)
    ensures if code == 0 then EntryPasses(s, n) && LookedUp(s, m.mapAddr) else !EntryPasses(s, n)
    ensures m.mapInfo[n].svc.addr in old(m.mapAddr) ==> m.mapAddr == old(m.mapAddr)
  {
    var info := m.mapInfo[n];
    if info.inTried {
      if info.lastSuccess == 0 {
        return -1;
      }
      if info.refCount != 0 {
        return -2;
      }
    } else {
      if info.refCount < 0 || info.refCount > NEW_BUCKETS_PER_ADDRESS {
        return -3;
      }
      if info.refCount == 0 {
        return -4;
      }
    }
    if info.svc.addr !in m.mapAddr {
      m.mapAddr := m.mapAddr[info.svc.addr := 0];
    }
    if m.mapAddr[info.svc.addr] != n {
      return -5;
    }
    if info.randomPos < 0 || info.randomPos >= |m.vRandom| || m.vRandom[info.randomPos] != n {
      return -14;
    }
    if info.lastTry < 0 {
      return -6;
    }
    if info.lastSuccess < 0 {
      return -8;
    }
    code := 0;
  }

  ghost predicate Mapped(s: State) {
    forall id :: id in s.mapInfo ==> s.mapInfo[id].svc.addr in s.mapAddr
  }

  method CheckEntries(m: CAddrMan) returns (code: int, setTried: set<int>, mapNew: map<int, int>)
    modifies m`mapAddr
    ensures Mapped(old(m.Value())) ==> m.mapAddr == old(m.mapAddr)
    ensures code == 0 <==> forall id {:trigger EntryPasses(old(m.Value()), id)} :: id in m.mapInfo ==>
      EntryPasses(old(m.Value()), id)
    ensures code == 0 ==> setTried == TriedIds(m.mapInfo) && mapNew.Keys == NewIds(m.mapInfo)
    ensures code == 0 ==> forall id :: id in mapNew ==> mapNew[id] == m.mapInfo[id].refCount > 0
  {
    ghost var s := m.Value();
    setTried, mapNew := {}, map[];
    var todo := m.mapInfo.Keys;
    while todo != {}
      invariant todo <= m.mapInfo.Keys && m.Value() == s.(mapAddr := m.mapAddr) && LookedUp(s, m.mapAddr)
      invariant Mapped(s) ==> m.mapAddr == s.mapAddr
      invariant forall id {:trigger EntryPasses(s, id)} :: id in m.mapInfo && id !in todo ==> EntryPasses(s, id)
      invariant setTried == TriedIds(m.mapInfo) - todo && mapNew.Keys == NewIds(m.mapInfo) - todo
      invariant forall id :: id in mapNew ==> mapNew[id] == m.mapInfo[id].refCount > 0
      decreases |todo|
    {
      var n := LeastOf(todo);
      code := CheckEntry(m, n, s);
      if code != 0 {
        return;
      }
      assert EntryPasses(s, n);
      if m.mapInfo[n].inTried {
        setTried := setTried + {n};
      } else {
        mapNew := mapNew[n := m.mapInfo[n].refCount];
      }
      todo := todo - {n};
    }
    code := 0;
  }

  /** Zero for a manager that passes every test, and an error code for any other. */
  method Check(m: CAddrMan) returns (code: int)
    requires ValidConfig(m.c)
    requires InTable(m.vvTried, m.c.triedBuckets, m.c.bucketSize) && InTable(m.vvNew, m.c.newBuckets, m.c.bucketSize)
    modifies m`mapAddr
    ensures code == 0 <==> Passes(m.c, old(m.Value()))
    ensures Mapped(old(m.Value())) ==> m.Value() == old(m.Value())
  {
    ghost var s := m.Value();
    if |m.vRandom| != m.nTried + m.nNew {
      return -7;
    }
    var setTried, mapNew;
    code, setTried, mapNew := CheckEntries(m);
    if code != 0 {
      return;
    }
    if |setTried| != m.nTried {
      return -9;
    }
    if |mapNew| != m.nNew {
      return -10;
    }
    code := CheckTables(m, setTried, mapNew);
    SameTables(m.c, s, m.Value());
  }

  method CheckTables(m: CAddrMan, setTried: set<int>, mapNew: map<int, int>) returns (code: int)
    requires ValidConfig(m.c)
    requires InTable(m.vvTried, m.c.triedBuckets, m.c.bucketSize) && InTable(m.vvNew, m.c.newBuckets, m.c.bucketSize)
    requires setTried == TriedIds(m.mapInfo) && mapNew.Keys == NewIds(m.mapInfo)
    requires forall id :: id in mapNew ==> mapNew[id] == m.mapInfo[id].refCount > 0
    ensures code == 0 <==> TriedPasses(m.c, m.Value()) && NewPasses(m.c, m.Value()) && m.nKey != 0
  {
    var missing;
    code, missing := CheckTried(m, setTried);
    if code != 0 {
      return;
    }
    var owed;
    code, owed := CheckNew(m, mapNew);
    if code != 0 {
      return;
    }
    if missing != {} {
      return -13;
    }
    if owed != map[] {
      return -15;
    }
    if m.nKey == 0 {
      return -16;
    }
    code := 0;
  }

  lemma {:induction false} SameTables(c: Config, s: State, t: State)
    requires ValidConfig(c) && t == s.(mapAddr := t.mapAddr)
    ensures TriedPasses(c, s) && NewPasses(c, s) <==> TriedPasses(c, t) && NewPasses(c, t)
  {
    if TriedPasses(c, s) && NewPasses(c, s) {
      SameTablesPass(c, s, t);
    }
    if TriedPasses(c, t) && NewPasses(c, t) {
      SameTablesPass(c, t, s);
    }
  }
}
