/** The cache object of cuckoocache.h, its flags packed eight to a byte. */
module CuckooCache {
  import opened Collections
  import opened Numbers
  import opened Bits
  import opened Cuckoo
  import C = Cuckoo
  import opened CuckooAnswers

  predicate FlagAt(mem: seq<bv8>, s: nat)
    requires s < 8 * |mem|
  {
    Bit(mem[s / 8], s % 8)
  }

  lemma {:induction false} FlagSet(mem: seq<bv8>, s: nat, k: nat)
    requires s < 8 * |mem| && k < 8 * |mem|
    ensures FlagAt(mem[s / 8 := mem[s / 8] | Mask(s % 8)], k) == (k == s || FlagAt(mem, k))
  {
    SetBit(mem[s / 8], s % 8, k % 8);
  }

  lemma {:induction false} FlagUnset(mem: seq<bv8>, s: nat, k: nat)
    requires s < 8 * |mem| && k < 8 * |mem|
    ensures FlagAt(mem[s / 8 := mem[s / 8] & !Mask(s % 8)], k) == (k != s && FlagAt(mem, k))
  {
    UnsetBit(mem[s / 8], s % 8, k % 8);
  }

  class BitPackedFlags {
    var mem: seq<bv8>

    constructor (size: nat)
      ensures |mem| == (size + 7) / 8 && forall s {:trigger FlagAt(mem, s)} :: 0 <= s < 8 * |mem| ==> FlagAt(mem, s)
    {
      mem := seq((size + 7) / 8, _ => 0xFF);
      new;
      forall s | 0 <= s < 8 * |mem|
        ensures FlagAt(mem, s)
      {
        AllBitsSet(s % 8);
      }
    }

    predicate BitIsSet(s: nat)
      reads this
      requires s < 8 * |mem|
    {
      FlagAt(mem, s)
    }

    method BitSet(s: nat)
      requires s < 8 * |mem|
      modifies this
      ensures |mem| == |old(mem)|
      ensures forall k {:trigger FlagAt(mem, k)} :: 0 <= k < 8 * |mem| ==>
        FlagAt(mem, k) == (k == s || FlagAt(old(mem), k))
    {
      mem := mem[s / 8 := mem[s / 8] | Mask(s % 8)];
      forall k | 0 <= k < 8 * |mem|
        ensures FlagAt(mem, k) == (k == s || FlagAt(old(mem), k))
      {
        FlagSet(old(mem), s, k);
      }
    }

    method BitUnset(s: nat)
      requires s < 8 * |mem|
      modifies this
      ensures |mem| == |old(mem)|
      ensures forall k {:trigger FlagAt(mem, k)} :: 0 <= k < 8 * |mem| ==>
        FlagAt(mem, k) == (k != s && FlagAt(old(mem), k))
    {
      mem := mem[s / 8 := mem[s / 8] & !Mask(s % 8)];
      forall k | 0 <= k < 8 * |mem|
        ensures FlagAt(mem, k) == (k != s && FlagAt(old(mem), k))
      {
        FlagUnset(old(mem), s, k);
      }
    }
  }

  /** The slots stored in three parallel tables. */
  function Zip<E>(table: seq<E>, mem: seq<bv8>, epochs: seq<bool>): (s: seq<Slot<E>>)
    requires |table| == |epochs| <= 8 * |mem|
    ensures |s| == |table|
  {
    seq(|table|, i requires 0 <= i < |table| => Slot(table[i], FlagAt(mem, i), epochs[i]))
  }

  lemma {:induction false} ZipUpdate<E>(
    table: seq<E>, mem: seq<bv8>, epochs: seq<bool>, table': seq<E>, mem': seq<bv8>, epochs': seq<bool>, i: nat)
    requires |table| == |epochs| <= 8 * |mem| && |table'| == |epochs'| == |table| <= 8 * |mem'| && i < |table|
    requires forall k :: 0 <= k < |table| && k != i ==> table'[k] == table[k] && epochs'[k] == epochs[k]
    requires forall k {:trigger FlagAt(mem', k)} :: 0 <= k < |table| && k != i ==> FlagAt(mem', k) == FlagAt(mem, k)
    ensures Zip(table', mem', epochs') == Zip(table, mem, epochs)[i := Slot(table'[i], FlagAt(mem', i), epochs'[i])]
  {
  }

  lemma {:induction false} CurrentStep<E>(slots: seq<Slot<E>>, i: nat)
    requires i < |slots|
    ensures Current(slots[i..]) == CurrentOf(slots[i]) + Current(slots[i + 1..])
  {
    DropDrop(slots, i, 1);
  }

  /** The state of the displacement loop: the slots, and the element in hand with its epoch and last location. */
  datatype Hand<E> = Hand(slots: seq<Slot<E>>, e: E, epoch: bool, lastLoc: int)

  /** One round that finds no erasable location. */
  ghost predicate Moves<E(!new)>(hash: (nat, E) -> nat, a: Hand<E>, b: Hand<E>) {
    && |a.slots| > 0
    && var locs := Locs(hash, |a.slots|, a.e);
      && (forall k :: 0 <= k < 8 ==> locs[k] < |a.slots|)
      && FindFree(a.slots, locs, 0) == None
      && var loc := NextLoc(locs, a.lastLoc);
        b == Hand(a.slots[loc := Slot(a.e, a.slots[loc].erasable, a.epoch)], a.slots[loc].elem, a.slots[loc].epoch, loc)
  }

  /** One round that finds an erasable location. */
  ghost predicate Stores<E(!new)>(hash: (nat, E) -> nat, a: Hand<E>, slots: seq<Slot<E>>) {
    && |a.slots| > 0
    && var locs := Locs(hash, |a.slots|, a.e);
      && (forall k :: 0 <= k < 8 ==> locs[k] < |a.slots|)
      && var free := FindFree(a.slots, locs, 0);
        free.Some? && slots == a.slots[free.value := Slot(a.e, false, a.epoch)]
  }

  ghost predicate TraceAt<E(!new)>(hash: (nat, E) -> nat, trace: seq<Hand<E>>, k: nat)
    requires k + 1 < |trace|
  {
    Moves(hash, trace[k], trace[k + 1])
  }

  ghost predicate IsTrace<E(!new)>(hash: (nat, E) -> nat, trace: seq<Hand<E>>) {
    forall k {:trigger TraceAt(hash, trace, k)} :: 0 <= k < |trace| - 1 ==> TraceAt(hash, trace, k)
  }

  lemma {:induction false} TraceGrows<E(!new)>(hash: (nat, E) -> nat, trace: seq<Hand<E>>, next: Hand<E>)
    requires trace != [] && IsTrace(hash, trace) && Moves(hash, trace[|trace| - 1], next)
    ensures IsTrace(hash, trace + [next])
  {
    forall k | 0 <= k < |trace + [next]| - 1
      ensures TraceAt(hash, trace + [next], k)
    {
      assert k < |trace| - 1 ==> TraceAt(hash, trace, k);
    }
  }

  lemma {:induction false} TraceLast<E(!new)>(hash: (nat, E) -> nat, a: Hand<E>, rounds: nat, slots: seq<Slot<E>>)
    requires ValidHash(hash) && |a.slots| > 0
    requires if rounds == 0 then slots == a.slots else Stores(hash, a, slots)
    ensures Displace(hash, a.slots, a.e, a.epoch, a.lastLoc, rounds).0 == slots
  {
    if rounds > 0 {
      var loc := FindFree(a.slots, Locs(hash, |a.slots|, a.e), 0).value;
      DisplaceStores(hash, a.slots, a.e, a.epoch, a.lastLoc, rounds, loc);
    }
  }

  /** The displacement loop ends with what the trace ends with. */
  lemma {:induction false} TraceEnds<E(!new)>(
    hash: (nat, E) -> nat, trace: seq<Hand<E>>, k: nat, rounds: nat, slots: seq<Slot<E>>)
    requires ValidHash(hash) && k < |trace| <= rounds + 1 && IsTrace(hash, trace) && |trace[|trace| - 1].slots| > 0
    requires if |trace| == rounds + 1 then slots == trace[|trace| - 1].slots
      else Stores(hash, trace[|trace| - 1], slots)
    ensures |trace[k].slots| > 0
    ensures Displace(hash, trace[k].slots, trace[k].e, trace[k].epoch, trace[k].lastLoc, rounds - k).0 == slots
    decreases |trace| - k
  {
    if k + 1 < |trace| {
      assert TraceAt(hash, trace, k);
      TraceEnds(hash, trace, k + 1, rounds, slots);
      var a := trace[k];
      DisplaceMoves(hash, a.slots, a.e, a.epoch, a.lastLoc, rounds - k, trace[k + 1].lastLoc);
    } else {
      TraceLast(hash, trace[k], rounds - k, slots);
    }
  }

  class Cache<E(==, !new)> {
    const hash: (nat, E) -> nat
    const flags: BitPackedFlags   // collection_flags
    var table: seq<E>
    var size: nat
    var epochFlags: seq<bool>
    var counter: nat              // epoch_heuristic_counter
    var epochSize: nat
    var depthLimit: nat

    /** setup, on a new cache. */
    constructor (hash: (nat, E) -> nat, newSize: nat, empty: E, depthLimit: nat)
      requires newSize < TWO32
      ensures Valid() && this.hash == hash && fresh(flags) && Value() == Setup(newSize, empty, depthLimit)
    {
      this.hash, this.depthLimit := hash, depthLimit;
      var n := Max(2, newSize);
      size := n;
      table := seq(n, _ => empty);
      flags := new BitPackedFlags(n);
      epochFlags := seq(n, _ => false);
      var e := Max(1, 45 * n % TWO32 / 100);
      epochSize := e;
      counter := e;
      new;
      assert forall i {:trigger FlagAt(flags.mem, i)} :: 0 <= i < size ==> FlagAt(flags.mem, i);
    }

    ghost predicate Valid()
      reads this, flags
    {
      |table| == |epochFlags| == size && size <= 8 * |flags.mem| && size > 0
    }

    ghost function Slots(): (s: seq<Slot<E>>)
      requires Valid()
      reads this, flags
      ensures |s| == size
    {
      Zip(table, flags.mem, epochFlags)
    }

    ghost function Value(): State<E>
      requires Valid()
      reads this, flags
    {
      State(Slots(), counter, epochSize, depthLimit)
    }

    method AllowErase(n: nat)
      requires Valid() && n < size
      modifies flags
      ensures Valid() && Slots() == old(Slots())[n := old(Slots())[n].(erasable := true)]
    {
      flags.BitSet(n);
      ZipUpdate(table, old(flags.mem), epochFlags, table, flags.mem, epochFlags, n);
    }

    method PleaseKeep(n: nat)
      requires Valid() && n < size
      modifies flags
      ensures Valid() && Slots() == old(Slots())[n := old(Slots())[n].(erasable := false)]
    {
      flags.BitUnset(n);
      ZipUpdate(table, old(flags.mem), epochFlags, table, flags.mem, epochFlags, n);
    }

    /** Store an element, keep it, and set its epoch. */
    method Store(loc: nat, e: E, epoch: bool)
      requires Valid() && loc < size
      modifies this`table, this`epochFlags, flags
      ensures Valid() && Slots() == old(Slots())[loc := Slot(e, false, epoch)]
    {
      table := table[loc := e];
      ZipUpdate(old(table), flags.mem, epochFlags, table, flags.mem, epochFlags, loc);
      PleaseKeep(loc);
      assert !Slots()[loc].erasable;
      epochFlags := epochFlags[loc := epoch];
      ZipUpdate(table, flags.mem, old(epochFlags), table, flags.mem, epochFlags, loc);
    }

    method CountCurrent() returns (n: nat)
      requires Valid()
      ensures n == Current(Slots())
    {
      n := 0;
      var i := 0;
      ghost var s := Slots();
      EmptyAppend(s);
      while i < size
        invariant 0 <= i <= size && n + Current(s[i..]) == Current(s)
      {
        CurrentStep(s, i);
        if epochFlags[i] && !flags.BitIsSet(i) {
          n := n + 1;
        }
        i := i + 1;
      }
    }

    method AgeAll()
      requires Valid()
      modifies this`epochFlags, flags
      ensures Valid() && Slots() == AgedAll(old(Slots()))
    {
      var i := 0;
      ghost var s := Slots();
      while i < size
        invariant 0 <= i <= size && Valid()
        invariant forall k {:trigger Slots()[k]} :: 0 <= k < size ==> Slots()[k] == if k < i then Aged(s[k]) else s[k]
      {
        assert Slots()[i] == s[i];
        ghost var before := Slots();
        if epochFlags[i] {
          ZipUpdate(table, flags.mem, epochFlags, table, flags.mem, epochFlags[i := false], i);
          epochFlags := epochFlags[i := false];
        } else {
          AllowErase(i);
        }
        assert Slots() == before[i := Aged(s[i])];
        i := i + 1;
      }
    }

    method EpochCheck()
      requires Valid()
      modifies this`epochFlags, this`counter, flags
      ensures Valid() && Value() == C.EpochCheck(old(Value()))
    {
      if counter != 0 {
        counter := counter - 1;
        return;
      }
      var unused := CountCurrent();
      if unused >= epochSize {
        AgeAll();
        counter := epochSize;
      } else {
        counter := Max(1, Max(epochSize / 16, epochSize - unused));
      }
    }

    /** The first location that holds `e`. */
    method Find(locs: seq<nat>, e: E) returns (r: Option<nat>)
      requires Valid() && forall j :: 0 <= j < |locs| ==> locs[j] < size
      ensures r == FindElement(Slots(), locs, e, 0)
    {
      var k := 0;
      while k < |locs|
        invariant 0 <= k <= |locs| && FindElement(Slots(), locs, e, k) == FindElement(Slots(), locs, e, 0)
      {
        if table[locs[k]] == e {
          return Some(locs[k]);
        }
        k := k + 1;
      }
      return None;
    }

    /** The first location whose element may be overwritten. */
    method FindErasable(locs: seq<nat>) returns (r: Option<nat>)
      requires Valid() && forall j :: 0 <= j < |locs| ==> locs[j] < size
      ensures r == FindFree(Slots(), locs, 0)
    {
      var k := 0;
      while k < |locs|
        invariant 0 <= k <= |locs| && FindFree(Slots(), locs, k) == FindFree(Slots(), locs, 0)
      {
        if flags.BitIsSet(locs[k]) {
          return Some(locs[k]);
        }
        k := k + 1;
      }
      return None;
    }

    /** Swap the element in hand, and its epoch, with those at `loc`. */
    method Swap(loc: nat, e: E, epoch: bool) returns (e': E, epoch': bool)
      requires Valid() && loc < size
      modifies this`table, this`epochFlags
      ensures Valid() && Slots() == old(Slots())[loc := Slot(e, old(Slots())[loc].erasable, epoch)]
      ensures e' == old(Slots())[loc].elem && epoch' == old(Slots())[loc].epoch
    {
      e', epoch' := table[loc], epochFlags[loc];
      table := table[loc := e];
      epochFlags := epochFlags[loc := epoch];
      ZipUpdate(old(table), flags.mem, old(epochFlags), table, flags.mem, epochFlags, loc);
    }

    method Insert(elem: E)
      requires Valid() && ValidHash(hash)
      modifies this`table, this`epochFlags, this`counter, flags
      ensures Valid() && Value() == C.Insert(hash, old(Value()), elem)
    {
      EpochCheck();
      var locs := Locs(hash, size, elem);
      LocsInRange(hash, size, elem);
      var found := Find(locs, elem);
      if found.Some? {
        Store(found.value, table[found.value], true);
        return;
      }
      InsertNew(elem);
    }

    /** One round of the displacement loop: the element in hand is stored, or changes places. */
    method DisplaceOnce(e: E, epoch: bool, lastLoc: int) returns (done: bool, e': E, epoch': bool, lastLoc': int)
      requires Valid() && ValidHash(hash)
      modifies this`table, this`epochFlags, flags
      ensures Valid()
      ensures done ==> Stores(hash, Hand(old(Slots()), e, epoch, lastLoc), Slots())
      ensures !done ==> Moves(hash, Hand(old(Slots()), e, epoch, lastLoc), Hand(Slots(), e', epoch', lastLoc'))
    {
      var locs := Locs(hash, size, e);
      LocsInRange(hash, size, e);
      var free := FindErasable(locs);
      e', epoch', lastLoc' := e, epoch, lastLoc;
      done := free.Some?;
      if done {
        Store(free.value, e, epoch);
      } else {
        lastLoc' := NextLoc(locs, lastLoc);
        e', epoch' := Swap(lastLoc', e, epoch);
      }
    }

    /** The displacement loop, with the trace of what was in hand. */
    method DisplaceLoop(elem: E) returns (ghost trace: seq<Hand<E>>)
      requires Valid() && ValidHash(hash)
      modifies this`table, this`epochFlags, flags
      ensures Valid() && 0 < |trace| <= depthLimit + 1 && IsTrace(hash, trace)
      ensures trace[0] == Hand(old(Slots()), elem, true, INVALID) && |trace[|trace| - 1].slots| > 0
      ensures if |trace| == depthLimit + 1 then Slots() == trace[|trace| - 1].slots
        else Stores(hash, trace[|trace| - 1], Slots())
    {
      var e, lastLoc, lastEpoch := elem, INVALID, true;
      trace := [Hand(Slots(), e, lastEpoch, lastLoc)];
      var depth := 0;
      var done := false;
      while depth < depthLimit && !done
        invariant 0 <= depth <= depthLimit && Valid() && |trace| == depth + 1
        invariant trace[0] == Hand(old(Slots()), elem, true, INVALID) && IsTrace(hash, trace)
        invariant |trace[depth].slots| > 0
        invariant if done then depth < depthLimit && Stores(hash, trace[depth], Slots())
          else trace[depth] == Hand(Slots(), e, lastEpoch, lastLoc)
        decreases depthLimit - depth, !done
      {
        done, e, lastEpoch, lastLoc := DisplaceOnce(e, lastEpoch, lastLoc);
        if !done {
          TraceGrows(hash, trace, Hand(Slots(), e, lastEpoch, lastLoc));
          trace := trace + [Hand(Slots(), e, lastEpoch, lastLoc)];
          depth := depth + 1;
        }
      }
    }

    method InsertNew(elem: E)
      requires Valid() && ValidHash(hash)
      modifies this`table, this`epochFlags, flags
      ensures Valid() && Slots() == Displace(hash, old(Slots()), elem, true, INVALID, depthLimit).0
    {
      ghost var trace := DisplaceLoop(elem);
      TraceEnds(hash, trace, 0, depthLimit, Slots());
    }

    method Contains(e: E, erase: bool) returns (r: bool)
      requires Valid() && ValidHash(hash)
      modifies flags
      ensures Valid() && (Value(), r) == C.Contains(hash, old(Value()), e, erase)
      ensures r <==> exists i: nat :: Holds(hash, old(Slots()), e, i)
    {
      ContainsExactly(hash, Value(), e, erase);
      var locs := Locs(hash, size, e);
      LocsInRange(hash, size, e);
      var found := Find(locs, e);
      if found.Some? {
        if erase {
          AllowErase(found.value);
        }
        return true;
      }
      return false;
    }
  }
}
