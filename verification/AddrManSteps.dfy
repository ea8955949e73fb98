/** What each elementary table change does to the address manager's invariant. */
module AddrManSteps {
  import opened AddrManModel

  /** `t` has the same entries as `s` for the same services, with the same positions in the same vRandom. */
  ghost predicate SameEntries(s: State, t: State) {
    && t.key == s.key && t.vRandom == s.vRandom && t.mapAddr == s.mapAddr && t.nIdCount == s.nIdCount
    && t.mapInfo.Keys == s.mapInfo.Keys
    && forall id :: id in s.mapInfo ==> SameEntry(s.mapInfo[id], t.mapInfo[id])
  }

  predicate SameEntry(a: Info, b: Info) {
    b.svc == a.svc && b.randomPos == a.randomPos && b.source == a.source
  }

  lemma {:induction false} EntriesKept(s: State, t: State)
    requires RandomConsistent(s) && AddrConsistent(s) && SameEntries(s, t)
    ensures RandomConsistent(t) && AddrConsistent(t)
  {
    SameRandom(s, t);
    forall id | id in t.mapInfo
      ensures AddrOf(t, id)
    {
      assert AddrOf(s, id);
    }
    forall a | a in t.mapAddr
      ensures AddrAt(t, a)
    {
      assert AddrAt(s, a);
      var id := s.mapAddr[a];
      assert SameEntry(s.mapInfo[id], t.mapInfo[id]);
    }
  }

  /** Changing one entry's details keeps the other entries. */
  lemma {:induction false} OneEntryChanged(s: State, t: State, id: int)
    requires RandomConsistent(s) && AddrConsistent(s) && id in s.mapInfo
    requires t.key == s.key && t.vRandom == s.vRandom && t.mapAddr == s.mapAddr && t.nIdCount == s.nIdCount
    requires id in t.mapInfo && t.mapInfo == s.mapInfo[id := t.mapInfo[id]] && SameEntry(s.mapInfo[id], t.mapInfo[id])
    ensures SameEntries(s, t) && RandomConsistent(t) && AddrConsistent(t)
  {
    EntriesKept(s, t);
  }

  lemma {:induction false} SanityKept(s: State, t: State, id: int)
    requires InfosSane(s) && id in s.mapInfo && id in t.mapInfo && t.nIdCount == s.nIdCount
    requires t.mapInfo == s.mapInfo[id := t.mapInfo[id]]
    requires t.mapInfo[id].lastTry >= 0 && t.mapInfo[id].lastSuccess >= 0
    ensures InfosSane(t)
  {
    assert InfoSane(s, id);
    forall x | x in t.mapInfo
      ensures InfoSane(t, x)
    {
      assert InfoSane(s, x);
    }
  }

  /** The tried table is untouched by changing one entry that keeps its table membership. */
  lemma {:induction false} TriedKept(c: Config, s: State, t: State, id: int)
    requires ValidConfig(c) && TriedConsistent(c, s) && id in s.mapInfo && id in t.mapInfo
    requires t.mapInfo == s.mapInfo[id := t.mapInfo[id]] && t.vvTried == s.vvTried && t.key == s.key
    requires t.mapInfo[id].svc == s.mapInfo[id].svc && t.mapInfo[id].inTried == s.mapInfo[id].inTried
    requires t.mapInfo[id].inTried ==> t.mapInfo[id].lastSuccess > 0 && t.mapInfo[id].refCount == 0
    ensures TriedConsistent(c, t)
  {
    forall slot | slot in t.vvTried
      ensures TriedAt(c, t, slot)
    {
      assert TriedAt(c, s, slot);
    }
    forall x | x in t.mapInfo
      ensures TriedOf(c, t, x)
    {
      assert TriedOf(c, s, x);
    }
  }

  lemma {:induction false} NewKept(c: Config, s: State, t: State, limbo: set<int>, id: int)
    requires ValidConfig(c) && NewConsistent(c, s, limbo) && id in s.mapInfo && id in t.mapInfo
    requires t.mapInfo == s.mapInfo[id := t.mapInfo[id]] && t.vvNew == s.vvNew && t.key == s.key
    requires t.mapInfo[id].svc == s.mapInfo[id].svc && t.mapInfo[id].inTried == s.mapInfo[id].inTried
    requires t.mapInfo[id].refCount == s.mapInfo[id].refCount
    ensures NewConsistent(c, t, limbo)
  {
    forall slot | slot in t.vvNew
      ensures NewAt(c, t, slot)
    {
      assert NewAt(c, s, slot);
    }
    forall x | x in t.mapInfo
      ensures NewOf(c, t, limbo, x)
    {
      assert NewOf(c, s, limbo, x);
    }
  }

  lemma {:induction false} IdsKept(m: map<int, Info>, id: int, info: Info)
    requires id in m && info.inTried == m[id].inTried
    ensures TriedIds(m[id := info]) == TriedIds(m) && NewIds(m[id := info]) == NewIds(m)
  {
  }

  /** Updating statistics that neither table depends on. */
  lemma {:induction false} TouchKeeps(c: Config, s: State, limbo: set<int>, counted: int, id: int, info: Info)
    requires Consistent(c, s, limbo, counted) && id in s.mapInfo
    requires SameEntry(s.mapInfo[id], info) && info.inTried == s.mapInfo[id].inTried
    requires info.refCount == s.mapInfo[id].refCount
    requires info.lastTry >= 0 && info.lastSuccess >= 0 && (info.inTried ==> info.lastSuccess > 0)
    ensures Consistent(c, WithInfo(s, id, info), limbo, counted)
  {
    var t := WithInfo(s, id, info);
    assert TriedOf(c, s, id);
    OneEntryChanged(s, t, id);
    SanityKept(s, t, id);
    TriedKept(c, s, t, id);
    NewKept(c, s, t, limbo, id);
    IdsKept(s.mapInfo, id, info);
  }

  lemma {:induction false} SwapEntries(s: State, i: int, j: int)
    requires RandomConsistent(s) && 0 <= i < |s.vRandom| && 0 <= j < |s.vRandom| && i != j
    requires s.vRandom[i] in s.mapInfo && s.vRandom[j] in s.mapInfo
    ensures s.vRandom[i] != s.vRandom[j]
    ensures var t := SwapRandom(s, i, j);
      && t.mapInfo.Keys == s.mapInfo.Keys
      && forall id :: id in s.mapInfo ==> t.mapInfo[id] == Repositioned(s, i, j, id)
  {
    assert RandomAt(s, i) && RandomAt(s, j);
  }

  function Repositioned(s: State, i: int, j: int, id: int): Info
    requires 0 <= i < |s.vRandom| && 0 <= j < |s.vRandom| && id in s.mapInfo
  {
    if id == s.vRandom[i] then s.mapInfo[id].(randomPos := j)
    else if id == s.vRandom[j] then s.mapInfo[id].(randomPos := i)
    else s.mapInfo[id]
  }

  lemma {:induction false} SwapRandomConsistent(s: State, i: int, j: int)
    requires RandomConsistent(s) && 0 <= i < |s.vRandom| && 0 <= j < |s.vRandom|
    requires s.vRandom[i] in s.mapInfo && s.vRandom[j] in s.mapInfo
    ensures RandomConsistent(SwapRandom(s, i, j))
  {
    if i != j {
      var t := SwapRandom(s, i, j);
      SwapEntries(s, i, j);
      forall k | 0 <= k < |t.vRandom|
        ensures RandomAt(t, k)
      {
        assert RandomAt(s, k) && RandomAt(s, i) && RandomAt(s, j);
        var id := t.vRandom[k];
        assert id in s.mapInfo;
      }
      forall id | id in t.mapInfo
        ensures RandomOf(t, id)
      {
        assert RandomOf(s, id);
      }
    }
  }

  /** Two states that differ only in the recorded positions and the order of vRandom. */
  ghost predicate SameButOrder(s: State, t: State) {
    && t == s.(mapInfo := t.mapInfo, vRandom := t.vRandom)
    && t.mapInfo.Keys == s.mapInfo.Keys
    && forall id {:trigger MovedOnly(s, t, id)} :: id in s.mapInfo ==> MovedOnly(s, t, id)
  }

  predicate MovedOnly(s: State, t: State, id: int)
    requires id in s.mapInfo && id in t.mapInfo
  {
    t.mapInfo[id] == s.mapInfo[id].(randomPos := t.mapInfo[id].randomPos)
  }

  lemma {:induction false} SameIds(m: map<int, Info>, n: map<int, Info>)
    requires m.Keys == n.Keys && forall id :: id in m ==> n[id].inTried == m[id].inTried
    ensures TriedIds(n) == TriedIds(m) && NewIds(n) == NewIds(m)
  {
    forall id
      ensures id in TriedIds(n) <==> id in TriedIds(m)
      ensures id in NewIds(n) <==> id in NewIds(m)
    {
      assert id in m <==> id in n;
      assert id in m ==> n[id].inTried == m[id].inTried;
    }
  }

  lemma {:induction false} SameButOrderKeeps(c: Config, s: State, limbo: set<int>, counted: int, t: State)
    requires Consistent(c, s, limbo, counted) && SameButOrder(s, t) && RandomConsistent(t)
    ensures Consistent(c, t, limbo, counted)
  {
    forall id | id in t.mapInfo
      ensures AddrOf(t, id) && InfoSane(t, id) && TriedOf(c, t, id) && NewOf(c, t, limbo, id)
      ensures t.mapInfo[id].inTried == s.mapInfo[id].inTried
    {
      assert MovedOnly(s, t, id);
      assert AddrOf(s, id) && InfoSane(s, id) && TriedOf(c, s, id) && NewOf(c, s, limbo, id);
    }
    forall a | a in t.mapAddr
      ensures AddrAt(t, a)
    {
      assert AddrAt(s, a) && MovedOnly(s, t, s.mapAddr[a]);
    }
    forall slot | slot in t.vvTried
      ensures TriedAt(c, t, slot)
    {
      assert TriedAt(c, s, slot) && MovedOnly(s, t, s.vvTried[slot]);
    }
    forall slot | slot in t.vvNew
      ensures NewAt(c, t, slot)
    {
      assert NewAt(c, s, slot) && MovedOnly(s, t, s.vvNew[slot]);
    }
    SameIds(s.mapInfo, t.mapInfo);
  }

  lemma {:induction false} SwapKeeps(c: Config, s: State, limbo: set<int>, counted: int, i: int, j: int)
    requires Consistent(c, s, limbo, counted) && 0 <= i < |s.vRandom| && 0 <= j < |s.vRandom|
    requires s.vRandom[i] in s.mapInfo && s.vRandom[j] in s.mapInfo
    ensures SameButOrder(s, SwapRandom(s, i, j)) && Consistent(c, SwapRandom(s, i, j), limbo, counted)
  {
    var t := SwapRandom(s, i, j);
    if i != j {
      SwapEntries(s, i, j);
      forall id | id in s.mapInfo
        ensures MovedOnly(s, t, id)
      {
        assert t.mapInfo[id] == Repositioned(s, i, j, id);
      }
    }
    SwapRandomConsistent(s, i, j);
    SameButOrderKeeps(c, s, limbo, counted, SwapRandom(s, i, j));
  }

  // ----- creating -----

  lemma {:induction false} CreateKeeps(c: Config, s: State, addr: Address, source: NetAddr)
    requires Consistent(c, s, {}, 0) && addr.svc.addr !in s.mapAddr
    requires 0 <= s.nIdCount
    ensures Consistent(c, Create(s, addr, source), {s.nIdCount}, 0)
  {
    var t := Create(s, addr, source);
    var id := s.nIdCount;
    assert id !in s.mapInfo by {
      assert id in s.mapInfo ==> InfoSane(s, id);
    }
    CreateKeepsLists(c, s, addr, source);
    CreateKeepsTables(c, s, addr, source);
    FreshId(s.mapInfo, id, t.mapInfo[id]);
  }

  lemma {:induction false} FreshId(m: map<int, Info>, id: int, info: Info)
    requires id !in m && !info.inTried
    ensures TriedIds(m[id := info]) == TriedIds(m)
    ensures NewIds(m[id := info]) - {id} == NewIds(m) - {} && id in NewIds(m[id := info])
  {
  }

  lemma {:induction false} CreateKeepsLists(c: Config, s: State, addr: Address, source: NetAddr)
    requires RandomConsistent(s) && AddrConsistent(s) && InfosSane(s)
    requires addr.svc.addr !in s.mapAddr && s.nIdCount !in s.mapInfo && 0 <= s.nIdCount
    ensures RandomConsistent(Create(s, addr, source)) && AddrConsistent(Create(s, addr, source))
    ensures InfosSane(Create(s, addr, source))
  {
    var t := Create(s, addr, source);
    forall i | 0 <= i < |t.vRandom|
      ensures RandomAt(t, i)
    {
      assert i < |s.vRandom| ==> RandomAt(s, i);
    }
    forall id | id in t.mapInfo
      ensures RandomOf(t, id) && AddrOf(t, id) && InfoSane(t, id)
    {
      assert id in s.mapInfo ==> RandomOf(s, id) && AddrOf(s, id) && InfoSane(s, id);
    }
    forall a | a in t.mapAddr
      ensures AddrAt(t, a)
    {
      assert a in s.mapAddr ==> AddrAt(s, a);
    }
  }

  lemma {:induction false} CreateKeepsTables(c: Config, s: State, addr: Address, source: NetAddr)
    requires ValidConfig(c) && TriedConsistent(c, s) && NewConsistent(c, s, {}) && s.nIdCount !in s.mapInfo
    ensures TriedConsistent(c, Create(s, addr, source)) && NewConsistent(c, Create(s, addr, source), {s.nIdCount})
  {
    var t := Create(s, addr, source);
    forall slot | slot in t.vvTried
      ensures TriedAt(c, t, slot)
    {
      assert TriedAt(c, s, slot);
    }
    forall slot | slot in t.vvNew
      ensures NewAt(c, t, slot)
    {
      assert NewAt(c, s, slot);
    }
    forall id | id in t.mapInfo
      ensures TriedOf(c, t, id) && NewOf(c, t, {s.nIdCount}, id)
    {
      if id == s.nIdCount {
        NoRefs(c, s, addr.svc, id);
      } else {
        assert TriedOf(c, s, id) && NewOf(c, s, {}, id);
      }
    }
  }

  /** Ids without an entry have no references. */
  lemma {:induction false} NoRefs(c: Config, s: State, svc: Service, id: int)
    requires ValidConfig(c) && id !in s.mapInfo
    requires forall slot {:trigger NewAt(c, s, slot)} :: slot in s.vvNew ==> NewAt(c, s, slot)
    ensures Refs(c, s.key, s.vvNew, svc, id) == {}
  {
    forall b | 0 <= b < c.newBuckets
      ensures b !in Refs(c, s.key, s.vvNew, svc, id)
    {
      var slot := NewSlot(c, s.key, svc, b);
      assert slot in s.vvNew ==> NewAt(c, s, slot);
    }
  }

  // ----- deleting -----

  /** Delete as a change of the entry tables: the last id of vRandom takes the freed position. */
  lemma {:induction false} DeleteEffect(s: State, id: int)
    requires RandomConsistent(s) && id in s.mapInfo
    ensures |s.vRandom| > 0
    ensures var t := Delete(s, id); var pos := s.mapInfo[id].randomPos; var last := s.vRandom[|s.vRandom| - 1];
      && last in s.mapInfo
      && t.mapInfo.Keys == s.mapInfo.Keys - {id}
      && (forall x :: x in t.mapInfo ==>
           t.mapInfo[x] == if x == last then s.mapInfo[x].(randomPos := pos) else s.mapInfo[x])
      && |t.vRandom| == |s.vRandom| - 1
      && (forall i :: 0 <= i < |t.vRandom| ==> t.vRandom[i] == if i == pos then last else s.vRandom[i])
  {
    assert RandomOf(s, id);
    var n := |s.vRandom| - 1;
    assert RandomAt(s, n);
    if s.mapInfo[id].randomPos != n {
      SwapEntries(s, s.mapInfo[id].randomPos, n);
    }
  }

  lemma {:induction false} DeleteKeepsLists(s: State, id: int)
    requires RandomConsistent(s) && AddrConsistent(s) && InfosSane(s) && id in s.mapInfo
    ensures RandomConsistent(Delete(s, id)) && AddrConsistent(Delete(s, id)) && InfosSane(Delete(s, id))
  {
    var t := Delete(s, id);
    DeleteEffect(s, id);
    var last := s.vRandom[|s.vRandom| - 1];
    assert RandomOf(s, id) && AddrOf(s, id) && RandomAt(s, |s.vRandom| - 1);
    forall i | 0 <= i < |t.vRandom|
      ensures RandomAt(t, i)
    {
      assert RandomAt(s, i) && t.vRandom[i] != id;
    }
    forall x | x in t.mapInfo
      ensures RandomOf(t, x) && AddrOf(t, x) && InfoSane(t, x)
    {
      assert RandomOf(s, x) && AddrOf(s, x) && InfoSane(s, x);
    }
    forall a | a in t.mapAddr
      ensures AddrAt(t, a)
    {
      assert AddrAt(s, a) && s.mapAddr[a] != id;
    }
  }

  lemma {:induction false} DeleteKeepsTables(c: Config, s: State, limbo: set<int>, id: int)
    requires ValidConfig(c) && RandomConsistent(s) && TriedConsistent(c, s) && NewConsistent(c, s, limbo)
    requires id in limbo && id in s.mapInfo
    ensures TriedConsistent(c, Delete(s, id)) && NewConsistent(c, Delete(s, id), limbo - {id})
  {
    var t := Delete(s, id);
    DeleteEffect(s, id);
    assert NewOf(c, s, limbo, id);
    forall slot | slot in t.vvTried
      ensures TriedAt(c, t, slot)
    {
      assert TriedAt(c, s, slot);
    }
    forall slot | slot in t.vvNew
      ensures NewAt(c, t, slot)
    {
      assert NewAt(c, s, slot);
      assert slot.bucket !in Refs(c, s.key, s.vvNew, s.mapInfo[id].svc, id);
    }
    forall x | x in t.mapInfo
      ensures TriedOf(c, t, x) && NewOf(c, t, limbo - {id}, x)
    {
      assert TriedOf(c, s, x) && NewOf(c, s, limbo, x);
    }
  }

  lemma {:induction false} RemovedId(m: map<int, Info>, n: map<int, Info>, limbo: set<int>, id: int)
    requires id in m && !m[id].inTried && n.Keys == m.Keys - {id} && id in limbo && limbo <= NewIds(m)
    requires forall x :: x in n ==> n[x].inTried == m[x].inTried
    ensures TriedIds(n) == TriedIds(m)
    ensures NewIds(n) - (limbo - {id}) == NewIds(m) - limbo && limbo - {id} <= NewIds(n)
  {
    assert forall x :: x in n <==> x in m && x != id;
  }

  /** Delete on an entry that is in neither table and is counted in nNew. */
  lemma {:induction false} DeleteKeeps(c: Config, s: State, limbo: set<int>, counted: int, id: int)
    requires Consistent(c, s, limbo, counted) && id in limbo && id in s.mapInfo
    ensures Consistent(c, Delete(s, id), limbo - {id}, counted - 1)
  {
    DeleteKeepsLists(s, id);
    DeleteKeepsTables(c, s, limbo, id);
    DeleteEffect(s, id);
    assert NewOf(c, s, limbo, id);
    RemovedId(s.mapInfo, Delete(s, id).mapInfo, limbo, id);
  }

  // ----- references -----

  lemma {:induction false} RefsDropped(c: Config, key: nat, vvNew: Table, slot: Slot, svc: Service, id: int)
    requires ValidConfig(c) && slot in vvNew
    requires 0 <= slot.bucket < c.newBuckets
    ensures id == vvNew[slot] && slot == NewSlot(c, key, svc, slot.bucket) ==>
              slot.bucket in Refs(c, key, vvNew, svc, id) &&
              Refs(c, key, vvNew - {slot}, svc, id) == Refs(c, key, vvNew, svc, id) - {slot.bucket}
    ensures id != vvNew[slot] ==> Refs(c, key, vvNew - {slot}, svc, id) == Refs(c, key, vvNew, svc, id)
  {
  }

  lemma {:induction false} DropRefTables(c: Config, s: State, limbo: set<int>, slot: Slot, limbo': set<int>)
    requires ValidConfig(c) && TriedConsistent(c, s) && NewConsistent(c, s, limbo) && slot in s.vvNew
    requires s.vvNew[slot] in s.mapInfo
    requires limbo' == if s.mapInfo[s.vvNew[slot]].refCount == 1 then limbo + {s.vvNew[slot]} else limbo
    ensures s.mapInfo[s.vvNew[slot]].refCount > 0 && s.vvNew[slot] !in limbo
    ensures TriedConsistent(c, DropRef(s, slot)) && NewConsistent(c, DropRef(s, slot), limbo')
  {
    var t := DropRef(s, slot);
    var id := s.vvNew[slot];
    assert NewAt(c, s, slot) && NewOf(c, s, limbo, id);
    RefsDropped(c, s.key, s.vvNew, slot, s.mapInfo[id].svc, id);
    TriedKept(c, s, t, id);
    forall x | x in t.vvNew
      ensures NewAt(c, t, x)
    {
      assert NewAt(c, s, x);
    }
    forall x | x in t.mapInfo
      ensures NewOf(c, t, limbo', x)
    {
      assert NewOf(c, s, limbo, x);
      RefsDropped(c, s.key, s.vvNew, slot, s.mapInfo[x].svc, x);
    }
  }

  lemma {:induction false} OneMore(a: set<int>, b: set<int>, x: int)
    requires x in a && x !in b
    ensures |a - b| == |a - (b + {x})| + 1
  {
    assert a - b == (a - (b + {x})) + {x};
  }

  /** Dropping a reference; an entry whose last one goes falls into limbo, still counted. */
  lemma {:induction false} DropRefKeeps(c: Config, s: State, limbo: set<int>, counted: int, slot: Slot)
    requires Consistent(c, s, limbo, counted) && slot in s.vvNew && s.vvNew[slot] in s.mapInfo
    ensures var id := s.vvNew[slot]; var t := DropRef(s, slot);
      && s.mapInfo[id].refCount > 0 && id !in limbo
      && if t.mapInfo[id].refCount == 0 then Consistent(c, t, limbo + {id}, counted + 1)
          else Consistent(c, t, limbo, counted)
  {
    var id := s.vvNew[slot];
    var t := DropRef(s, slot);
    assert NewAt(c, s, slot) && InfoSane(s, id);
    DropRefTables(c, s, limbo, slot, if s.mapInfo[id].refCount == 1 then limbo + {id} else limbo);
    OneEntryChanged(s, t, id);
    SanityKept(s, t, id);
    IdsKept(s.mapInfo, id, t.mapInfo[id]);
    OneMore(NewIds(s.mapInfo), limbo, id);
  }

  /** ClearNew frees the slot and keeps the invariant, deleting the entry if that was its last reference. */
  lemma {:induction false} ClearNewKeeps(c: Config, s: State, limbo: set<int>, counted: int, slot: Slot)
    requires Consistent(c, s, limbo, counted)
    ensures slot in s.vvNew ==> s.vvNew[slot] in s.mapInfo && s.vvNew[slot] !in limbo
    ensures Consistent(c, ClearNew(s, slot), limbo, counted) && slot !in ClearNew(s, slot).vvNew
  {
    if slot in s.vvNew {
      assert NewAt(c, s, slot);
      var id := s.vvNew[slot];
      DropRefKeeps(c, s, limbo, counted, slot);
      var t := DropRef(s, slot);
      if t.mapInfo[id].refCount == 0 {
        DeleteKeeps(c, t, limbo + {id}, counted + 1, id);
        assert limbo + {id} - {id} == limbo;
      }
    }
  }

  // ----- moving between the tables -----

  lemma {:induction false} RefsUnlisted(c: Config, key: nat, vvNew: Table, id: int, svc: Service, x: int)
    requires ValidConfig(c)
    ensures Refs(c, key, Unreferenced(vvNew, id), svc, x) == if x == id then {} else Refs(c, key, vvNew, svc, x)
  {
  }

  /** Taking an entry out of all its new buckets puts it in limbo, no longer counted. */
  lemma {:induction false} UnlistKeeps(c: Config, s: State, limbo: set<int>, counted: int, id: int)
    requires Consistent(c, s, limbo, counted) && id in s.mapInfo && id !in limbo && !s.mapInfo[id].inTried
    ensures Consistent(c, Unlist(s, id), limbo + {id}, counted)
  {
    var t := Unlist(s, id);
    assert NewOf(c, s, limbo, id) && InfoSane(s, id);
    OneEntryChanged(s, t, id);
    SanityKept(s, t, id);
    TriedKept(c, s, t, id);
    forall slot | slot in t.vvNew
      ensures NewAt(c, t, slot)
    {
      assert NewAt(c, s, slot);
    }
    forall x | x in t.mapInfo
      ensures NewOf(c, t, limbo + {id}, x)
    {
      assert NewOf(c, s, limbo, x);
      RefsUnlisted(c, s.key, s.vvNew, id, s.mapInfo[x].svc, x);
    }
    IdsKept(s.mapInfo, id, t.mapInfo[id]);
    OneMore(NewIds(s.mapInfo), limbo, id);
  }

  lemma {:induction false} IdDemoted(m: map<int, Info>, limbo: set<int>, id: int)
    requires id in m && m[id].inTried && limbo <= NewIds(m)
    ensures var n := m[id := m[id].(inTried := false)];
      && |TriedIds(n)| == |TriedIds(m)| - 1
      && NewIds(n) - (limbo + {id}) == NewIds(m) - limbo && limbo + {id} <= NewIds(n)
  {
    var n := m[id := m[id].(inTried := false)];
    assert TriedIds(n) == TriedIds(m) - {id};
  }

  /** Taking an entry out of the tried table puts it in limbo, not counted as new. */
  lemma {:induction false} UntryKeeps(c: Config, s: State, limbo: set<int>, counted: int, slot: Slot)
    requires Consistent(c, s, limbo, counted) && slot in s.vvTried && s.vvTried[slot] in s.mapInfo
    ensures Consistent(c, Untry(s, slot), limbo + {s.vvTried[slot]}, counted)
  {
    var id := s.vvTried[slot];
    var t := Untry(s, slot);
    assert TriedAt(c, s, slot) && TriedOf(c, s, id) && NewOf(c, s, limbo, id) && InfoSane(s, id);
    OneEntryChanged(s, t, id);
    SanityKept(s, t, id);
    IdDemoted(s.mapInfo, limbo, id);
    UntryTables(c, s, limbo, slot);
  }

  lemma {:induction false} UntryTables(c: Config, s: State, limbo: set<int>, slot: Slot)
    requires ValidConfig(c) && TriedConsistent(c, s) && NewConsistent(c, s, limbo) && slot in s.vvTried
    requires s.vvTried[slot] in s.mapInfo
    ensures TriedConsistent(c, Untry(s, slot)) && NewConsistent(c, Untry(s, slot), limbo + {s.vvTried[slot]})
  {
    var id := s.vvTried[slot];
    var t := Untry(s, slot);
    assert TriedAt(c, s, slot) && TriedOf(c, s, id) && NewOf(c, s, limbo, id);
    forall x | x in t.vvTried
      ensures TriedAt(c, t, x)
    {
      assert TriedAt(c, s, x);
    }
    forall x | x in t.vvNew
      ensures NewAt(c, t, x)
    {
      assert NewAt(c, s, x);
    }
    forall x | x in t.mapInfo
      ensures TriedOf(c, t, x) && NewOf(c, t, limbo + {id}, x)
    {
      assert TriedOf(c, s, x) && NewOf(c, s, limbo, x);
    }
  }

  lemma {:induction false} IdPromoted(m: map<int, Info>, limbo: set<int>, id: int)
    requires id in m && !m[id].inTried && id in limbo && limbo <= NewIds(m)
    ensures var n := m[id := m[id].(inTried := true)];
      && |TriedIds(n)| == |TriedIds(m)| + 1
      && NewIds(n) - (limbo - {id}) == NewIds(m) - limbo && limbo - {id} <= NewIds(n)
  {
    var n := m[id := m[id].(inTried := true)];
    assert TriedIds(n) == TriedIds(m) + {id};
  }

  lemma {:induction false} PutTriedTables(c: Config, s: State, limbo: set<int>, id: int)
    requires ValidConfig(c) && TriedConsistent(c, s) && NewConsistent(c, s, limbo)
    requires id in limbo && id in s.mapInfo && s.mapInfo[id].lastSuccess > 0
    requires TriedSlot(c, s.key, s.mapInfo[id].svc) !in s.vvTried
    ensures TriedConsistent(c, PutTried(c, s, id)) && NewConsistent(c, PutTried(c, s, id), limbo - {id})
  {
    var t := PutTried(c, s, id);
    assert NewOf(c, s, limbo, id) && TriedOf(c, s, id);
    forall x | x in t.vvTried
      ensures TriedAt(c, t, x)
    {
      assert x in s.vvTried ==> TriedAt(c, s, x);
    }
    forall x | x in t.vvNew
      ensures NewAt(c, t, x)
    {
      assert NewAt(c, s, x);
      assert x.bucket !in Refs(c, s.key, s.vvNew, s.mapInfo[id].svc, id);
    }
    forall x | x in t.mapInfo
      ensures TriedOf(c, t, x) && NewOf(c, t, limbo - {id}, x)
    {
      assert TriedOf(c, s, x) && NewOf(c, s, limbo, x);
    }
  }

  /** An entry in limbo enters the tried table at its free slot. */
  lemma {:induction false} PutTriedKeeps(c: Config, s: State, limbo: set<int>, counted: int, id: int)
    requires Consistent(c, s, limbo, counted)
    requires id in limbo && id in s.mapInfo && s.mapInfo[id].lastSuccess > 0
    requires TriedSlot(c, s.key, s.mapInfo[id].svc) !in s.vvTried
    ensures Consistent(c, PutTried(c, s, id), limbo - {id}, counted)
  {
    var t := PutTried(c, s, id);
    assert NewOf(c, s, limbo, id) && InfoSane(s, id);
    OneEntryChanged(s, t, id);
    SanityKept(s, t, id);
    IdPromoted(s.mapInfo, limbo, id);
    PutTriedTables(c, s, limbo, id);
  }

  lemma {:induction false} RefsAdded(
    c: Config, key: nat, vvNew: Table, slot: Slot, id: int, svc: Service, x: int, xsvc: Service)
    requires ValidConfig(c) && slot !in vvNew && 0 <= slot.bucket < c.newBuckets
    requires x == id ==> xsvc == svc
    requires slot == NewSlot(c, key, svc, slot.bucket)
    ensures Refs(c, key, vvNew[slot := id], xsvc, x) ==
            if x == id then Refs(c, key, vvNew, xsvc, x) + {slot.bucket} else Refs(c, key, vvNew, xsvc, x)
    ensures slot.bucket !in Refs(c, key, vvNew, svc, id)
  {
  }

  lemma {:induction false} AddRefTables(c: Config, s: State, limbo: set<int>, id: int, slot: Slot)
    requires ValidConfig(c) && TriedConsistent(c, s) && NewConsistent(c, s, limbo) && id in s.mapInfo
    requires !s.mapInfo[id].inTried
    requires slot !in s.vvNew && 0 <= slot.bucket < c.newBuckets
    requires slot == NewSlot(c, s.key, s.mapInfo[id].svc, slot.bucket)
    requires s.mapInfo[id].refCount < NEW_BUCKETS_PER_ADDRESS
    ensures TriedConsistent(c, AddRef(s, id, slot)) && NewConsistent(c, AddRef(s, id, slot), limbo - {id})
  {
    var t := AddRef(s, id, slot);
    TriedKept(c, s, t, id);
    forall x | x in t.vvNew
      ensures NewAt(c, t, x)
    {
      assert x in s.vvNew ==> NewAt(c, s, x);
    }
    forall x | x in t.mapInfo
      ensures NewOf(c, t, limbo - {id}, x)
    {
      assert NewOf(c, s, limbo, x);
      RefsAdded(c, s.key, s.vvNew, slot, id, s.mapInfo[id].svc, x, s.mapInfo[x].svc);
    }
  }

  /** A further reference at a free slot; an entry that was in limbo leaves it. */
  lemma {:induction false} AddRefKeeps(c: Config, s: State, limbo: set<int>, counted: int, id: int, slot: Slot)
    requires Consistent(c, s, limbo, counted) && id in s.mapInfo && !s.mapInfo[id].inTried
    requires slot !in s.vvNew && 0 <= slot.bucket < c.newBuckets
    requires slot == NewSlot(c, s.key, s.mapInfo[id].svc, slot.bucket)
    requires s.mapInfo[id].refCount < NEW_BUCKETS_PER_ADDRESS
    ensures Consistent(c, AddRef(s, id, slot), limbo - {id}, if id in limbo then counted - 1 else counted)
  {
    var t := AddRef(s, id, slot);
    assert InfoSane(s, id) && NewOf(c, s, limbo, id);
    OneEntryChanged(s, t, id);
    SanityKept(s, t, id);
    AddRefTables(c, s, limbo, id, slot);
    IdsKept(s.mapInfo, id, t.mapInfo[id]);
    if id in limbo {
      OneMore(NewIds(s.mapInfo), limbo - {id}, id);
      assert limbo - {id} + {id} == limbo;
    } else {
      assert limbo - {id} == limbo;
    }
  }

  /** nNew aside, the remaining counters and the recorded collisions are part of no table. */
  lemma {:induction false} ScalarsKeep(c: Config, s: State, t: State, limbo: set<int>, counted: int)
    requires Consistent(c, s, limbo, counted)
    requires t == s.(nNew := t.nNew, nLastGood := t.nLastGood, collisions := t.collisions)
    ensures Consistent(c, t, limbo, counted + t.nNew - s.nNew)
  {
    EntriesKept(s, t);
    forall id | id in t.mapInfo
      ensures InfoSane(t, id) && TriedOf(c, t, id) && NewOf(c, t, limbo, id)
    {
      assert InfoSane(s, id) && TriedOf(c, s, id) && NewOf(c, s, limbo, id);
    }
    forall slot | slot in t.vvTried
      ensures TriedAt(c, t, slot)
    {
      assert TriedAt(c, s, slot);
    }
    forall slot | slot in t.vvNew
      ensures NewAt(c, t, slot)
    {
      assert NewAt(c, s, slot);
    }
  }
}
