/** Where things stand in a saved address manager, and where entries go that are read without their positions. */
module AddrManLayout {
  import opened AddrManModel
  import opened AddrManRestore
  import opened AddrManStream

  /** The record is of an entry of that table. */
  ghost predicate IsSaved(a: State, r: Record, tried: bool) {
    exists id :: id in a.mapInfo && a.mapInfo[id].inTried == tried && r == Saved(a.mapInfo[id])
  }

  lemma {:induction false} WrittenLayout(d: Dump, i: nat)
    ensures var s := Write(d);
      && |s| >= 6 + |d.news| + |d.tried|
      && s[..6] == [Num(d.version), Num(32), Key(d.key), Num(d.nNew), Num(d.nTried), Num(d.buckets)]
      && (i < |d.news| ==> s[6 + i] == Item.Entry(d.news[i]))
      && (i < |d.tried| ==> s[6 + |d.news| + i] == Item.Entry(d.tried[i]))
  {
  }

  lemma {:induction false} NewSaved(c: Config, a: State, i: nat)
    requires Consistent(c, a, {}, 0) && i < |DumpOf(c, a).news|
    ensures IsSaved(a, DumpOf(c, a).news[i], false)
  {
    ReferencedAreNew(c, a);
    AscendingAt(Referenced(a.mapInfo), i);
    var id := Ascending(Referenced(a.mapInfo))[i];
    assert id in NewIds(a.mapInfo);
    assert DumpOf(c, a).news[i] == Saved(a.mapInfo[id]) && !a.mapInfo[id].inTried;
  }

  lemma {:induction false} TriedSaved(c: Config, a: State, i: nat)
    requires Consistent(c, a, {}, 0) && i < |DumpOf(c, a).tried|
    ensures IsSaved(a, DumpOf(c, a).tried[i], true)
  {
    AscendingAt(TriedIds(a.mapInfo), i);
    var id := Ascending(TriedIds(a.mapInfo))[i];
    assert DumpOf(c, a).tried[i] == Saved(a.mapInfo[id]) && a.mapInfo[id].inTried;
  }

  /** The start of what is saved: the version, the size of the key, the key, the counts, the number of new buckets with
      bit 30 flipped, then the new and the tried entries. */
  lemma {:induction false} SavedLayout(c: Config, a: State, i: nat)
    requires Consistent(c, a, {}, 0) && c.newBuckets < 0x4000_0000
    ensures var s := Serialize(c, a);
      && |s| >= 6 + a.nNew + a.nTried && a.nNew >= 0 && a.nTried >= 0
      && s[..6] == [Num(1), Num(32), Key(a.key), Num(a.nNew), Num(a.nTried), Num(c.newBuckets + 0x4000_0000)]
      && (i < a.nNew ==> s[6 + i].Entry? && IsSaved(a, s[6 + i].record, false))
      && (i < a.nTried ==> s[6 + a.nNew + i].Entry? && IsSaved(a, s[6 + a.nNew + i].record, true))
  {
    DumpForm(c, a);
    WrittenLayout(DumpOf(c, a), i);
    if i < a.nNew {
      NewSaved(c, a, i);
    }
    if i < a.nTried {
      TriedSaved(c, a, i);
    }
  }

  // ----- new entries without positions -----

  function PrimarySlot(c: Config, key: nat, r: Record): Slot
    requires ValidConfig(c)
  {
    NewSlot(c, key, r.svc, NewBucket(c, key, r.svc, r.source))
  }

  /** Record `k` is the first that its own source assigns to `slot`. */
  ghost predicate FirstAt(c: Config, key: nat, rs: seq<Record>, slot: Slot, k: int)
    requires ValidConfig(c)
  {
    0 <= k < |rs| && PrimarySlot(c, key, rs[k]) == slot && forall j :: 0 <= j < k ==> PrimarySlot(c, key, rs[j]) != slot
  }

  /** Where the positions cannot be used, every slot that some entry's source assigns to it holds the first such entry,
      and no other slot holds any; where they can, reading the entries fills no slot. */
  lemma {:induction false} NewPlaced(c: Config, s: State, rs: seq<Record>, usable: bool, slot: Slot)
    requires ValidConfig(c) && s.vvNew == map[]
    ensures var t := LoadNew(c, s, rs, usable);
      && t.key == s.key
      && (usable ==> t.vvNew == map[])
      && (!usable ==> (slot in t.vvNew <==> exists k :: FirstAt(c, s.key, rs, slot, k)))
      && (!usable && slot in t.vvNew ==> FirstAt(c, s.key, rs, slot, t.vvNew[slot]))
  {
    if rs != [] {
      var k := |rs| - 1;
      var init := rs[..k];
      NewPlaced(c, s, init, usable, slot);
      var u, t := LoadNew(c, s, init, usable), LoadNew(c, s, rs, usable);
      FirstExtends(c, s.key, init, rs, slot);
      if !usable && slot in u.vvNew {
        assert FirstAt(c, s.key, init, slot, u.vvNew[slot]);
      }
      if !usable && slot !in u.vvNew && PrimarySlot(c, s.key, rs[k]) == slot {
        assert FirstAt(c, s.key, rs, slot, k) by {
          NoneFirst(c, s.key, init, slot, k);
        }
      }
    }
  }

  lemma {:induction false} FirstExtends(c: Config, key: nat, init: seq<Record>, rs: seq<Record>, slot: Slot)
    requires ValidConfig(c) && rs != [] && init == rs[..|rs| - 1]
    ensures forall k :: FirstAt(c, key, init, slot, k) ==> FirstAt(c, key, rs, slot, k)
    ensures forall k :: FirstAt(c, key, rs, slot, k) && k < |rs| - 1 ==> FirstAt(c, key, init, slot, k)
  {
  }

  lemma {:induction false} NoneFirst(c: Config, key: nat, rs: seq<Record>, slot: Slot, n: nat)
    requires ValidConfig(c) && n <= |rs| && !exists k :: FirstAt(c, key, rs, slot, k)
    ensures forall j :: 0 <= j < n ==> PrimarySlot(c, key, rs[j]) != slot
  {
    if n > 0 {
      NoneFirst(c, key, rs, slot, n - 1);
      assert !FirstAt(c, key, rs, slot, n - 1);
    }
  }

  // ----- tried entries -----

  /** Lost entries are taken off the count, and ids are given to the others. */
  lemma {:induction false} TriedCounted(c: Config, s: State, rs: seq<Record>)
    requires ValidConfig(c) && s.vvTried == map[] && forall id :: id in s.mapInfo ==> id < s.nIdCount
    ensures var t := LoadTried(c, s, rs);
      && t.key == s.key && t.nTried == s.nTried - (|rs| - |t.vvTried|) && t.nIdCount == s.nIdCount + |t.vvTried|
      && (forall id :: id in t.mapInfo ==> id < t.nIdCount)
      && (forall slot :: slot in t.vvTried ==> t.vvTried[slot] in t.mapInfo)
  {
    if rs != [] {
      TriedCounted(c, s, rs[..|rs| - 1]);
    }
  }

  /** Every tried slot holds the first entry read that belongs there, as read, and is empty if there is none. */
  lemma {:induction false} TriedPlaced(c: Config, s: State, rs: seq<Record>, slot: Slot)
    requires ValidConfig(c) && s.vvTried == map[] && forall id :: id in s.mapInfo ==> id < s.nIdCount
    ensures var t := LoadTried(c, s, rs);
      && (slot in t.vvTried <==> exists k :: FirstTriedAt(c, s.key, rs, slot, k))
      && (slot in t.vvTried ==>
           t.vvTried[slot] in t.mapInfo && HoldsFirst(c, s.key, rs, slot, t.mapInfo[t.vvTried[slot]]))
  {
    if rs != [] {
      var k := |rs| - 1;
      TriedPlaced(c, s, rs[..k], slot);
      TriedCounted(c, s, rs[..k]);
      OneMoreTried(c, LoadTried(c, s, rs[..k]), rs[..k], rs, slot);
    }
  }

  lemma {:induction false} OneMoreTried(c: Config, u: State, init: seq<Record>, rs: seq<Record>, slot: Slot)
    requires ValidConfig(c) && rs != [] && init == rs[..|rs| - 1] && u.nIdCount !in u.mapInfo
    requires slot in u.vvTried <==> exists k :: FirstTriedAt(c, u.key, init, slot, k)
    requires slot in u.vvTried ==>
      u.vvTried[slot] in u.mapInfo && HoldsFirst(c, u.key, init, slot, u.mapInfo[u.vvTried[slot]])
    ensures var t := LoadTriedOne(c, u, rs[|rs| - 1]);
      && (slot in t.vvTried <==> exists k :: FirstTriedAt(c, u.key, rs, slot, k))
      && (slot in t.vvTried ==>
           t.vvTried[slot] in t.mapInfo && HoldsFirst(c, u.key, rs, slot, t.mapInfo[t.vvTried[slot]]))
  {
    var k := |rs| - 1;
    FirstTriedExtends(c, u.key, init, rs, slot);
    if slot in u.vvTried {
      var i := u.mapInfo[u.vvTried[slot]];
      var j :| FirstTriedAt(c, u.key, init, slot, j) && Saved(i) == init[j] && i.inTried;
      assert FirstTriedAt(c, u.key, rs, slot, j) && Saved(i) == rs[j];
    } else if TriedSlot(c, u.key, rs[k].svc) == slot {
      NoneFirstTried(c, u.key, init, slot, k);
      assert FirstTriedAt(c, u.key, rs, slot, k);
    }
  }

  ghost predicate FirstTriedAt(c: Config, key: nat, rs: seq<Record>, slot: Slot, k: int)
    requires ValidConfig(c)
  {
    && 0 <= k < |rs| && TriedSlot(c, key, rs[k].svc) == slot
    && forall j :: 0 <= j < k ==> TriedSlot(c, key, rs[j].svc) != slot
  }

  ghost predicate HoldsFirst(c: Config, key: nat, rs: seq<Record>, slot: Slot, i: Info)
    requires ValidConfig(c)
  {
    exists k :: FirstTriedAt(c, key, rs, slot, k) && Saved(i) == rs[k] && i.inTried
  }

  lemma {:induction false} FirstTriedExtends(c: Config, key: nat, init: seq<Record>, rs: seq<Record>, slot: Slot)
    requires ValidConfig(c) && rs != [] && init == rs[..|rs| - 1]
    ensures forall k :: FirstTriedAt(c, key, init, slot, k) ==> FirstTriedAt(c, key, rs, slot, k)
    ensures forall k :: FirstTriedAt(c, key, rs, slot, k) && k < |rs| - 1 ==> FirstTriedAt(c, key, init, slot, k)
  {
  }

  lemma {:induction false} NoneFirstTried(c: Config, key: nat, rs: seq<Record>, slot: Slot, n: nat)
    requires ValidConfig(c) && n <= |rs| && !exists k :: FirstTriedAt(c, key, rs, slot, k)
    ensures forall j :: 0 <= j < n ==> TriedSlot(c, key, rs[j].svc) != slot
  {
    if n > 0 {
      NoneFirstTried(c, key, rs, slot, n - 1);
      assert !FirstTriedAt(c, key, rs, slot, n - 1);
    }
  }
}
