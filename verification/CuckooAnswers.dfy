/** What the cuckoo cache answers, over every run: no element is reported that was never inserted. */
module CuckooAnswers {
  import opened Collections
  import opened Numbers
  import opened Cuckoo

  // ----- setup -----

  /** A new table holds the default element, discardable, in at least two slots; an epoch is 45 percent of them, and the
      first scan is due after a whole one. */
  lemma {:induction false} SetupExactly<E>(newSize: nat, empty: E, depthLimit: nat, i: nat)
    requires newSize < 0x1_0000_0000 && 45 * newSize < 0x1_0000_0000
    ensures var c := Setup(newSize, empty, depthLimit);
      && |c.slots| == Max(2, newSize) && (i < |c.slots| ==> c.slots[i] == Slot(empty, true, false))
      && c.epochSize == c.counter == Max(1, 45 * |c.slots| / 100)
  {
  }

  // ----- a lookup -----

  /** Location `i` is one of the eight of `e`, a 32-bit hash scaled to the size of the table. */
  ghost predicate IsLocation<E(!new)>(hash: (nat, E) -> nat, size: nat, e: E, i: nat) {
    exists k {:trigger hash(k, e)} :: 0 <= k < 8 && i == hash(k, e) * size / 0x1_0000_0000
  }

  ghost predicate Holds<E(!new)>(hash: (nat, E) -> nat, slots: seq<Slot<E>>, e: E, i: nat) {
    i < |slots| && slots[i].elem == e && IsLocation(hash, |slots|, e, i)
  }

  lemma {:induction false} LocsAre<E(!new)>(hash: (nat, E) -> nat, size: nat, e: E, i: nat)
    ensures i in Locs(hash, size, e) <==> IsLocation(hash, size, e, i)
  {
    var locs := Locs(hash, size, e);
    if i in locs {
      var k :| 0 <= k < |locs| && locs[k] == i;
      assert i == hash(k, e) * size / 0x1_0000_0000;
    }
    if IsLocation(hash, size, e, i) {
      var k :| 0 <= k < 8 && i == hash(k, e) * size / 0x1_0000_0000;
      assert locs[k] == i;
    }
  }

  /** An element is reported exactly if one of its eight locations holds it, discardable or not. Only an erasing lookup
      that finds it changes anything, and that makes one slot that holds it discardable. */
  lemma {:induction false} ContainsExactly<E(!new)>(hash: (nat, E) -> nat, c: State<E>, e: E, erase: bool)
    requires |c.slots| > 0 && ValidHash(hash)
    ensures Contains(hash, c, e, erase).1 <==> exists i: nat :: Holds(hash, c.slots, e, i)
    ensures var (c', found) := Contains(hash, c, e, erase);
      if erase && found
      then exists i: nat ::
        Holds(hash, c.slots, e, i) && c' == c.(slots := c.slots[i := Slot(e, true, c.slots[i].epoch)])
      else c' == c
  {
    var locs := Locs(hash, |c.slots|, e);
    LocsInRange(hash, |c.slots|, e);
    var found := FindElement(c.slots, locs, e, 0);
    match found {
      case Some(loc) =>
        LocsAre(hash, |c.slots|, e, loc);
        assert Holds(hash, c.slots, e, loc);
      case None =>
        forall i | Holds(hash, c.slots, e, i)
          ensures false
        {
          LocsAre(hash, |c.slots|, e, i);
        }
    }
  }

  /** Erasing only lets go: what an erasing lookup finds is found again, as often as it is looked up. */
  lemma {:induction false} ContainsAgain<E(!new)>(hash: (nat, E) -> nat, c: State<E>, e: E, erase: bool, again: bool)
    requires |c.slots| > 0 && ValidHash(hash) && Contains(hash, c, e, erase).1
    ensures |Contains(hash, c, e, erase).0.slots| > 0 && Contains(hash, Contains(hash, c, e, erase).0, e, again).1
  {
    ContainsExactly(hash, c, e, erase);
    var c' := Contains(hash, c, e, erase).0;
    ContainsExactly(hash, c', e, again);
    if erase {
      var i: nat :| Holds(hash, c.slots, e, i) && c' == c.(slots := c.slots[i := Slot(e, true, c.slots[i].epoch)]);
      assert Holds(hash, c'.slots, e, i);
    }
  }

  // ----- where elements come from -----

  ghost predicate DrawnFrom<E>(slots: seq<Slot<E>>, from: iset<E>) {
    forall i {:trigger slots[i]} :: 0 <= i < |slots| ==> slots[i].elem in from
  }

  lemma {:induction false} DisplaceDraws<E(!new)>(
    hash: (nat, E) -> nat, slots: seq<Slot<E>>, e: E, epoch: bool, lastLoc: int, rounds: nat, from: iset<E>)
    requires |slots| > 0 && ValidHash(hash) && DrawnFrom(slots, from) && e in from
    ensures DrawnFrom(Displace(hash, slots, e, epoch, lastLoc, rounds).0, from)
    decreases rounds
  {
    if rounds > 0 {
      LocsInRange(hash, |slots|, e);
      var locs := Locs(hash, |slots|, e);
      if FindFree(slots, locs, 0).None? {
        var loc := NextLoc(locs, lastLoc);
        var s := slots[loc];
        DisplaceDraws(hash, slots[loc := Slot(e, s.erasable, epoch)], s.elem, s.epoch, loc, rounds - 1, from);
      }
    }
  }

  lemma {:induction false} ApplyDraws<E(!new)>(hash: (nat, E) -> nat, c: State<E>, op: Op<E>, from: iset<E>)
    requires |c.slots| > 0 && ValidHash(hash) && DrawnFrom(c.slots, from) && (op.OpInsert? ==> op.e in from)
    ensures DrawnFrom(Apply(hash, c, op).slots, from)
  {
    if op.OpInsert? {
      var aged := EpochCheck(c);
      assert DrawnFrom(aged.slots, from);
      LocsInRange(hash, |aged.slots|, op.e);
      DisplaceDraws(hash, aged.slots, op.e, true, INVALID, aged.depthLimit, from);
    } else {
      ContainsExactly(hash, c, op.e, op.erase);
    }
  }

  /** The element that fills a new table, and those inserted by the first `n` operations. */
  ghost function Inserted<E(!new)>(empty: E, ops: seq<Op<E>>, n: nat): iset<E>
    requires n <= |ops|
  {
    iset e | e == empty || OpInsert(e) in ops[..n]
  }

  lemma {:induction false} EveryRunDraws<E(!new)>(hash: (nat, E) -> nat, ops: seq<Op<E>>, states: seq<State<E>>,
    newSize: nat, empty: E, depthLimit: nat, n: nat)
    requires ValidHash(hash) && IsRun(hash, ops, states) && newSize < TWO32 && n <= |ops|
    requires states[0] == Setup(newSize, empty, depthLimit)
    ensures |states[n].slots| > 0 && DrawnFrom(states[n].slots, Inserted(empty, ops, n))
  {
    EveryRunSound(hash, ops, states, newSize, empty, depthLimit, n);
    if n > 0 {
      EveryRunDraws(hash, ops, states, newSize, empty, depthLimit, n - 1);
      assert RunStep(hash, ops, states, n - 1) && ops[..n] == ops[..n - 1] + [ops[n - 1]];
      ApplyDraws(hash, states[n - 1], ops[n - 1], Inserted(empty, ops, n));
    }
  }

  /** No false answers: what a cache reports after a run was inserted in that run, or is the default element. */
  lemma {:induction false} EveryAnswerTrue<E(!new)>(hash: (nat, E) -> nat, ops: seq<Op<E>>, states: seq<State<E>>,
    newSize: nat, empty: E, depthLimit: nat, n: nat, e: E, erase: bool)
    requires ValidHash(hash) && IsRun(hash, ops, states) && newSize < TWO32 && n <= |ops|
    requires states[0] == Setup(newSize, empty, depthLimit)
    ensures |states[n].slots| > 0
    ensures Contains(hash, states[n], e, erase).1 ==> e == empty || exists j :: 0 <= j < n && ops[j] == OpInsert(e)
  {
    EveryRunDraws(hash, ops, states, newSize, empty, depthLimit, n);
    ContainsExactly(hash, states[n], e, erase);
  }

  // ----- epochs travel with their elements -----

  ghost function TagOf<E>(s: Slot<E>): multiset<(E, bool)> {
    if s.erasable then multiset{} else multiset{(s.elem, s.epoch)}
  }

  /** The live elements, each with its epoch. */
  ghost function Tagged<E>(slots: seq<Slot<E>>): multiset<(E, bool)> {
    if slots == [] then multiset{} else TagOf(slots[0]) + Tagged(slots[1..])
  }

  lemma {:induction false} TagUpdate<E>(slots: seq<Slot<E>>, i: nat, s: Slot<E>)
    requires i < |slots|
    ensures Tagged(slots[i := s]) + TagOf(slots[i]) == Tagged(slots) + TagOf(s)
  {
    if i == 0 {
      assert slots[0 := s][1..] == slots[1..];
      MultisetRotate(TagOf(s), Tagged(slots[1..]), TagOf(slots[0]));
    } else {
      var updated := slots[1..][i - 1 := s];
      assert slots[i := s][1..] == updated;
      TagUpdate(slots[1..], i - 1, s);
      MultisetShift(TagOf(slots[0]), Tagged(updated), TagOf(slots[i]), Tagged(slots[1..]), TagOf(s));
    }
  }

  lemma {:induction false} FillTags<E>(slots: seq<Slot<E>>, loc: nat, e: E, epoch: bool)
    requires loc < |slots| && slots[loc].erasable
    ensures Tagged(slots[loc := Slot(e, false, epoch)]) + multiset{} == Tagged(slots) + multiset{(e, epoch)}
  {
    TagUpdate(slots, loc, Slot(e, false, epoch));
  }

  lemma {:induction false} SwapTags<E>(slots: seq<Slot<E>>, loc: nat, e: E, epoch: bool)
    requires loc < |slots| && !slots[loc].erasable
    ensures Tagged(slots[loc := Slot(e, false, epoch)]) + multiset{(slots[loc].elem, slots[loc].epoch)} ==
      Tagged(slots) + multiset{(e, epoch)}
  {
    TagUpdate(slots, loc, Slot(e, false, epoch));
  }

  /** The outcome of a displacement, with the epoch of the element dropped. */
  ghost predicate Tallies<E(!new)>(hash: (nat, E) -> nat, slots: seq<Slot<E>>, e: E, epoch: bool, lastLoc: int,
    rounds: nat, lost: Option<(E, bool)>)
    requires |slots| > 0 && ValidHash(hash)
  {
    var (slots', dropped) := Displace(hash, slots, e, epoch, lastLoc, rounds);
    && Tagged(slots') + Dropped(lost) == Tagged(slots) + multiset{(e, epoch)}
    && dropped == if lost.Some? then Some(lost.value.0) else None
  }

  lemma {:induction false} TalliesKept<E(!new)>(hash: (nat, E) -> nat, slots: seq<Slot<E>>, e: E, epoch: bool,
    lastLoc: int)
    requires |slots| > 0 && ValidHash(hash)
    ensures Tallies(hash, slots, e, epoch, lastLoc, 0, Some((e, epoch)))
  {
  }

  /** One round: `e` is stored at `loc`, or takes the place of what is there. */
  ghost predicate RoundAt<E(!new)>(hash: (nat, E) -> nat, slots: seq<Slot<E>>, e: E, lastLoc: int, loc: nat)
    requires |slots| > 0 && ValidHash(hash)
  {
    var locs := Locs(hash, |slots|, e);
    && (forall k :: 0 <= k < 8 ==> locs[k] < |slots|)
    && loc < |slots|
    && (slots[loc].erasable ==> FindFree(slots, locs, 0) == Some(loc))
    && (!slots[loc].erasable ==> FindFree(slots, locs, 0) == None && loc == NextLoc(locs, lastLoc))
  }

  lemma {:induction false} NextRound<E(!new)>(hash: (nat, E) -> nat, slots: seq<Slot<E>>, e: E, lastLoc: int)
    returns (loc: nat)
    requires |slots| > 0 && ValidHash(hash)
    ensures RoundAt(hash, slots, e, lastLoc, loc)
  {
    LocsInRange(hash, |slots|, e);
    var locs := Locs(hash, |slots|, e);
    var free := FindFree(slots, locs, 0);
    loc := if free.Some? then free.value else NextLoc(locs, lastLoc);
  }

  lemma {:induction false} TalliesRound<E(!new)>(hash: (nat, E) -> nat, slots: seq<Slot<E>>, e: E, epoch: bool,
    lastLoc: int, rounds: nat, loc: nat, lost: Option<(E, bool)>)
    requires |slots| > 0 && ValidHash(hash) && rounds > 0 && RoundAt(hash, slots, e, lastLoc, loc)
    requires if slots[loc].erasable then lost == None else
      Tallies(hash, slots[loc := Slot(e, false, epoch)], slots[loc].elem, slots[loc].epoch, loc, rounds - 1, lost)
    ensures Tallies(hash, slots, e, epoch, lastLoc, rounds, lost)
  {
    if slots[loc].erasable {
      DisplaceStores(hash, slots, e, epoch, lastLoc, rounds, loc);
      FillTags(slots, loc, e, epoch);
    } else {
      DisplaceMoves(hash, slots, e, epoch, lastLoc, rounds, loc);
      SwapTags(slots, loc, e, epoch);
    }
  }

  /** Displacement keeps every live element with its epoch, and the new one with its own, but for one it may drop. */
  lemma {:induction false} DisplaceTags<E(!new)>(
    hash: (nat, E) -> nat, slots: seq<Slot<E>>, e: E, epoch: bool, lastLoc: int, rounds: nat)
    returns (lost: Option<(E, bool)>)
    requires |slots| > 0 && ValidHash(hash)
    ensures Tallies(hash, slots, e, epoch, lastLoc, rounds, lost)
    decreases rounds
  {
    if rounds == 0 {
      lost := Some((e, epoch));
      TalliesKept(hash, slots, e, epoch, lastLoc);
      return;
    }
    var loc := NextRound(hash, slots, e, lastLoc);
    lost := None;
    if !slots[loc].erasable {
      lost := DisplaceTags(
        hash, slots[loc := Slot(e, false, epoch)], slots[loc].elem, slots[loc].epoch, loc, rounds - 1);
    }
    TalliesRound(hash, slots, e, epoch, lastLoc, rounds, loc, lost);
  }

  /** An inserted element is in the table, in the current epoch, unless it is the one dropped. Every other live element
      keeps its epoch but for the one dropped; an element inserted again is only renewed. */
  lemma {:induction false} PlaceTags<E(!new)>(hash: (nat, E) -> nat, c: State<E>, e: E)
    returns (lost: Option<(E, bool)>, renewed: Option<(E, bool)>)
    requires |c.slots| > 0 && ValidHash(hash)
    ensures var (c', dropped) := Place(hash, c, e);
      && Tagged(c'.slots) + Dropped(lost) + Dropped(renewed) == Tagged(c.slots) + multiset{(e, true)}
      && (dropped.Some? <==> lost.Some?) && (dropped.Some? ==> dropped.value == lost.value.0)
      && (renewed.Some? ==> renewed.value.0 == e && lost.None?)
  {
    LocsInRange(hash, |c.slots|, e);
    var found := FindElement(c.slots, Locs(hash, |c.slots|, e), e, 0);
    lost, renewed := None, None;
    if found.Some? {
      var s := c.slots[found.value];
      TagUpdate(c.slots, found.value, s.(erasable := false, epoch := true));
      renewed := if s.erasable then None else Some((e, s.epoch));
    } else {
      lost := DisplaceTags(hash, c.slots, e, true, INVALID, c.depthLimit);
    }
  }

  /** None of the eight locations of `e` is discardable. */
  ghost predicate NoRoom<E(!new)>(hash: (nat, E) -> nat, slots: seq<Slot<E>>, e: E) {
    forall i: nat {:trigger IsLocation(hash, |slots|, e, i)} ::
      i < |slots| && IsLocation(hash, |slots|, e, i) ==> !slots[i].erasable
  }

  lemma {:induction false} RoomFound<E(!new)>(hash: (nat, E) -> nat, slots: seq<Slot<E>>, e: E)
    requires |slots| > 0 && ValidHash(hash)
    ensures forall k :: 0 <= k < 8 ==> Locs(hash, |slots|, e)[k] < |slots|
    ensures FindFree(slots, Locs(hash, |slots|, e), 0).None? <==> NoRoom(hash, slots, e)
  {
    var locs := Locs(hash, |slots|, e);
    LocsInRange(hash, |slots|, e);
    var free := FindFree(slots, locs, 0);
    if free.Some? {
      LocsAre(hash, |slots|, e, free.value);
      assert IsLocation(hash, |slots|, e, free.value);
    } else {
      forall i: nat | i < |slots| && IsLocation(hash, |slots|, e, i)
        ensures !slots[i].erasable
      {
        LocsAre(hash, |slots|, e, i);
      }
    }
  }

  /** `slots'` are `slots` with `e` stored at its discardable location `i`. */
  ghost predicate StoredAt<E(!new)>(
    hash: (nat, E) -> nat, slots: seq<Slot<E>>, slots': seq<Slot<E>>, e: E, epoch: bool, i: nat)
  {
    && i < |slots| && IsLocation(hash, |slots|, e, i) && slots[i].erasable
    && slots' == slots[i := Slot(e, false, epoch)]
  }

  /** The displacement goes on with the element that `e` replaced at its location `i`. */
  ghost predicate GoesOn<E(!new)>(hash: (nat, E) -> nat, slots: seq<Slot<E>>, e: E, epoch: bool, rounds: nat,
    result: (seq<Slot<E>>, Option<E>), i: nat)
    requires |slots| > 0 && ValidHash(hash) && rounds > 0
  {
    && i < |slots| && IsLocation(hash, |slots|, e, i)
    && result == Displace(hash, slots[i := Slot(e, false, epoch)], slots[i].elem, slots[i].epoch, i, rounds - 1)
  }

  /** An element with room is stored at a discardable location of its own, kept, with its epoch, and nothing is dropped;
      one without takes the place of another, which is displaced in turn, as often as there are rounds. */
  lemma {:induction false} StoredIfRoom<E(!new)>(hash: (nat, E) -> nat, slots: seq<Slot<E>>, e: E, epoch: bool,
    lastLoc: int, rounds: nat) returns (i: nat)
    requires |slots| > 0 && ValidHash(hash) && rounds > 0
    ensures var r := Displace(hash, slots, e, epoch, lastLoc, rounds);
      if NoRoom(hash, slots, e) then GoesOn(hash, slots, e, epoch, rounds, r, i)
      else StoredAt(hash, slots, r.0, e, epoch, i) && r.1 == None
  {
    var locs := Locs(hash, |slots|, e);
    RoomFound(hash, slots, e);
    var free := FindFree(slots, locs, 0);
    if free.Some? {
      i := free.value;
      DisplaceStores(hash, slots, e, epoch, lastLoc, rounds, i);
    } else {
      i := NextLoc(locs, lastLoc);
      DisplaceMoves(hash, slots, e, epoch, lastLoc, rounds, i);
    }
    LocsAre(hash, |slots|, e, i);
  }

  /** When the epoch check ages the table: the counter ran out and the current epoch is full. Then an element of the
      current epoch stays live as one of the old epoch, and any other becomes discardable. */
  lemma {:induction false} EpochCheckExactly<E>(c: State<E>, i: nat)
    requires i < |c.slots|
    ensures var c' := EpochCheck(c); var (s, aged) := (c.slots[i], c.counter == 0 && Current(c.slots) >= c.epochSize);
      && |c'.slots| == |c.slots|
      && c'.slots[i] == (if aged then Slot(s.elem, s.erasable || !s.epoch, false) else s)
      && (aged ==> c'.counter == c.epochSize)
      && (c.counter > 0 ==> c'.counter == c.counter - 1)
      && (c.counter == 0 && !aged ==>
           c'.counter > 0 && c'.counter >= c.epochSize - Current(c.slots) && c'.counter >= c.epochSize / 16)
  {
  }

  /** The displaced location is the one after the location displaced last, so a chain does not turn back at once. */
  lemma {:induction false} NextLocTurns(locs: seq<nat>, lastLoc: int, k: nat)
    requires |locs| == 8 && k <= 8 && (k < 8 ==> locs[k] == lastLoc) && forall j :: 0 <= j < k ==> locs[j] != lastLoc
    ensures NextLoc(locs, lastLoc) == locs[(k + 1) % 8]
  {
    FirstIndex(locs, lastLoc, k);
  }

  lemma {:induction false} FirstIndex(locs: seq<nat>, x: int, k: nat)
    requires k <= |locs| && (k < |locs| ==> locs[k] == x) && forall j :: 0 <= j < k ==> locs[j] != x
    ensures IndexOf(locs, x) == k
  {
    if k > 0 {
      FirstIndex(locs[1..], x, k - 1);
    }
  }
}
