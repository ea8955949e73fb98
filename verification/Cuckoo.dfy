/** The cuckoo cache of cuckoocache.h: displacement with garbage flags, and ageing by epochs. */
module Cuckoo {
  import opened Collections
  import opened Numbers

  /** A slot of the table with its collection flag and its epoch flag. */
  datatype Slot<E> = Slot(elem: E, erasable: bool, epoch: bool)

  datatype State<E> = State(slots: seq<Slot<E>>, counter: nat, epochSize: nat, depthLimit: nat)

  const TWO32 := 0x1_0000_0000

  ghost predicate ValidHash<E(!new)>(hash: (nat, E) -> nat) {
    forall k, e :: hash(k, e) < TWO32
  }

  /** compute_hashes: a 32-bit hash scaled to the size of the table. */
  function Locs<E>(hash: (nat, E) -> nat, size: nat, e: E): (r: seq<nat>)
    ensures |r| == 8
  {
    seq(8, (k: nat) => hash(k, e) * size / TWO32)
  }

  lemma {:induction false} ScaledInRange(h: nat, size: nat)
    requires h < TWO32 && size > 0
    ensures h * size / TWO32 < size
  {
    assert h * size < TWO32 * size;
  }

  lemma {:induction false} LocsInRange<E(!new)>(hash: (nat, E) -> nat, size: nat, e: E)
    requires ValidHash(hash) && size > 0
    ensures forall k :: 0 <= k < 8 ==> Locs(hash, size, e)[k] < size
  {
    forall k | 0 <= k < 8
      ensures Locs(hash, size, e)[k] < size
    {
      ScaledInRange(hash(k, e), size);
    }
  }

  // ----- what the slots hold -----

  function LiveOf<E>(s: Slot<E>): multiset<E> {
    if s.erasable then multiset{} else multiset{s.elem}
  }

  /** The live elements: those that may not be overwritten. */
  function Live<E>(slots: seq<Slot<E>>): multiset<E> {
    if slots == [] then multiset{} else LiveOf(slots[0]) + Live(slots[1..])
  }

  function CurrentOf<E>(s: Slot<E>): nat {
    if !s.erasable && s.epoch then 1 else 0
  }

  /** The number of live slots of the current epoch. */
  function Current<E>(slots: seq<Slot<E>>): nat {
    if slots == [] then 0 else CurrentOf(slots[0]) + Current(slots[1..])
  }

  lemma {:induction false} SlotUpdate<E>(slots: seq<Slot<E>>, i: nat, s: Slot<E>)
    requires i < |slots|
    ensures Live(slots[i := s]) + LiveOf(slots[i]) == Live(slots) + LiveOf(s)
    ensures Current(slots[i := s]) == Current(slots) - CurrentOf(slots[i]) + CurrentOf(s)
  {
    if i == 0 {
      assert slots[0 := s][1..] == slots[1..];
      MultisetRotate(LiveOf(s), Live(slots[1..]), LiveOf(slots[0]));
    } else {
      var updated := slots[1..][i - 1 := s];
      assert slots[i := s][1..] == updated;
      SlotUpdate(slots[1..], i - 1, s);
      MultisetShift(LiveOf(slots[0]), Live(updated), LiveOf(slots[i]), Live(slots[1..]), LiveOf(s));
    }
  }

  /** Every live element is at one of its eight locations. */
  ghost predicate AtHome<E>(hash: (nat, E) -> nat, slots: seq<Slot<E>>) {
    forall i {:trigger HomeAt(hash, slots, i)} :: 0 <= i < |slots| ==> HomeAt(hash, slots, i)
  }

  predicate HomeAt<E>(hash: (nat, E) -> nat, slots: seq<Slot<E>>, i: nat)
    requires i < |slots|
  {
    !slots[i].erasable ==> i in Locs(hash, |slots|, slots[i].elem)
  }

  lemma {:induction false} HomeUpdate<E>(hash: (nat, E) -> nat, slots: seq<Slot<E>>, i: nat, s: Slot<E>)
    requires i < |slots| && AtHome(hash, slots) && (!s.erasable ==> i in Locs(hash, |slots|, s.elem))
    ensures AtHome(hash, slots[i := s])
  {
    var slots' := slots[i := s];
    forall j | 0 <= j < |slots'|
      ensures HomeAt(hash, slots', j)
    {
      assert HomeAt(hash, slots, j);
    }
  }

  // ----- the operations -----

  /** The first location from the `k`th on that holds `e`. */
  function FindElement<E(==)>(slots: seq<Slot<E>>, locs: seq<nat>, e: E, k: nat): (r: Option<nat>)
    requires forall j :: 0 <= j < |locs| ==> locs[j] < |slots|
    ensures r.Some? ==> r.value in locs && r.value < |slots| && slots[r.value].elem == e
    ensures r.None? ==> forall j :: k <= j < |locs| ==> slots[locs[j]].elem != e
    decreases |locs| - k
  {
    if k >= |locs| then None else if slots[locs[k]].elem == e then Some(locs[k]) else FindElement(slots, locs, e, k + 1)
  }

  /** The first location from the `k`th on whose element may be overwritten. */
  function FindFree<E>(slots: seq<Slot<E>>, locs: seq<nat>, k: nat): (r: Option<nat>)
    requires forall j :: 0 <= j < |locs| ==> locs[j] < |slots|
    ensures r.Some? ==> r.value in locs && r.value < |slots| && slots[r.value].erasable
    ensures r.None? ==> forall j :: k <= j < |locs| ==> !slots[locs[j]].erasable
    decreases |locs| - k
  {
    if k >= |locs| then None else if slots[locs[k]].erasable then Some(locs[k]) else FindFree(slots, locs, k + 1)
  }

  /** std::find: the index of the first occurrence, or the length. */
  function IndexOf(locs: seq<nat>, x: int): (r: nat)
    ensures r <= |locs|
  {
    if locs == [] || locs[0] == x then 0 else 1 + IndexOf(locs[1..], x)
  }

  const INVALID := 0xFFFF_FFFF

  /** The location to displace: the one after the location displaced last. */
  function NextLoc(locs: seq<nat>, lastLoc: int): (r: nat)
    requires |locs| == 8
    ensures r in locs
  {
    locs[(1 + IndexOf(locs, lastLoc)) % 8]
  }

  /** The displacement loop with `e` in hand: the slots afterwards and the element dropped, if any. */
  ghost function Displace<E(!new)>(hash: (nat, E) -> nat, slots: seq<Slot<E>>, e: E, epoch: bool, lastLoc: int,
    rounds: nat): (seq<Slot<E>>, Option<E>)
    requires |slots| > 0 && ValidHash(hash)
    decreases rounds
  {
    if rounds == 0 then (slots, Some(e)) else
      LocsInRange(hash, |slots|, e);
      var locs := Locs(hash, |slots|, e);
      match FindFree(slots, locs, 0)
      case Some(loc) => (slots[loc := Slot(e, false, epoch)], None)
      case None =>
        var loc := NextLoc(locs, lastLoc);
        var s := slots[loc];
        Displace(hash, slots[loc := Slot(e, s.erasable, epoch)], s.elem, s.epoch, loc, rounds - 1)
  }

  lemma {:induction false} DisplaceStores<E(!new)>(hash: (nat, E) -> nat, slots: seq<Slot<E>>, e: E, epoch: bool,
    lastLoc: int, rounds: nat, loc: nat)
    requires |slots| > 0 && ValidHash(hash) && rounds > 0
    requires forall k :: 0 <= k < 8 ==> Locs(hash, |slots|, e)[k] < |slots|
    requires FindFree(slots, Locs(hash, |slots|, e), 0) == Some(loc)
    ensures Displace(hash, slots, e, epoch, lastLoc, rounds) == (slots[loc := Slot(e, false, epoch)], None)
  {
  }

  lemma {:induction false} DisplaceMoves<E(!new)>(hash: (nat, E) -> nat, slots: seq<Slot<E>>, e: E, epoch: bool,
    lastLoc: int, rounds: nat, loc: nat)
    requires |slots| > 0 && ValidHash(hash) && rounds > 0
    requires forall k :: 0 <= k < 8 ==> Locs(hash, |slots|, e)[k] < |slots|
    requires FindFree(slots, Locs(hash, |slots|, e), 0) == None && loc == NextLoc(Locs(hash, |slots|, e), lastLoc)
    ensures loc < |slots| && !slots[loc].erasable
    ensures Displace(hash, slots, e, epoch, lastLoc, rounds) ==
      Displace(hash, slots[loc := Slot(e, false, epoch)], slots[loc].elem, slots[loc].epoch, loc, rounds - 1)
  {
  }

  /** The current epoch becomes the old one, and the old one may be overwritten. */
  function Aged<E>(s: Slot<E>): Slot<E> {
    if s.epoch then s.(epoch := false) else s.(erasable := true)
  }

  function AgedAll<E>(slots: seq<Slot<E>>): seq<Slot<E>> {
    seq(|slots|, i requires 0 <= i < |slots| => Aged(slots[i]))
  }

  function EpochCheck<E>(c: State<E>): State<E> {
    if c.counter != 0 then c.(counter := c.counter - 1)
    else if Current(c.slots) >= c.epochSize then c.(slots := AgedAll(c.slots), counter := c.epochSize)
    else c.(counter := Max(1, Max(c.epochSize / 16, c.epochSize - Current(c.slots))))
  }

  /** insert after the epoch check: the new state and the element dropped, if any. */
  ghost function Place<E(!new)>(hash: (nat, E) -> nat, c: State<E>, e: E): (State<E>, Option<E>)
    requires |c.slots| > 0 && ValidHash(hash)
  {
    LocsInRange(hash, |c.slots|, e);
    match FindElement(c.slots, Locs(hash, |c.slots|, e), e, 0)
    case Some(loc) => (c.(slots := c.slots[loc := c.slots[loc].(erasable := false, epoch := true)]), None)
    case None =>
      var (slots, dropped) := Displace(hash, c.slots, e, true, INVALID, c.depthLimit);
      (c.(slots := slots), dropped)
  }

  ghost function Insert<E(!new)>(hash: (nat, E) -> nat, c: State<E>, e: E): State<E>
    requires |c.slots| > 0 && ValidHash(hash)
  {
    Place(hash, EpochCheck(c), e).0
  }

  ghost function Contains<E(!new)>(hash: (nat, E) -> nat, c: State<E>, e: E, erase: bool): (State<E>, bool)
    requires |c.slots| > 0 && ValidHash(hash)
  {
    LocsInRange(hash, |c.slots|, e);
    match FindElement(c.slots, Locs(hash, |c.slots|, e), e, 0)
    case Some(loc) => (if erase then c.(slots := c.slots[loc := c.slots[loc].(erasable := true)]) else c, true)
    case None => (c, false)
  }

  /** setup for at least two slots; 45 * size is computed in 32 bits. `depthLimit` is the logarithm. */
  function Setup<E>(newSize: nat, empty: E, depthLimit: nat): State<E>
    requires newSize < TWO32
  {
    var size := Max(2, newSize);
    var epochSize := Max(1, 45 * size % TWO32 / 100);
    State(seq(size, _ => Slot(empty, true, false)), epochSize, epochSize, depthLimit)
  }

  // ----- what they keep -----

  function Dropped<E>(d: Option<E>): multiset<E> {
    match d
    case None => multiset{}
    case Some(x) => multiset{x}
  }

  function One(b: bool): nat {
    if b then 1 else 0
  }

  /** One swap: the element in hand changes places with a live one. */
  lemma {:induction false} SwapKeeps<E>(hash: (nat, E) -> nat, slots: seq<Slot<E>>, loc: nat, e: E, epoch: bool)
    requires loc < |slots| && AtHome(hash, slots) && !slots[loc].erasable && loc in Locs(hash, |slots|, e)
    ensures var slots' := slots[loc := Slot(e, false, epoch)];
      && AtHome(hash, slots')
      && Live(slots') + multiset{slots[loc].elem} == Live(slots) + multiset{e}
      && Current(slots') + One(slots[loc].epoch) == Current(slots) + One(epoch)
  {
    SlotUpdate(slots, loc, Slot(e, false, epoch));
    HomeUpdate(hash, slots, loc, Slot(e, false, epoch));
  }

  lemma {:induction false} FillKeeps<E>(hash: (nat, E) -> nat, slots: seq<Slot<E>>, loc: nat, e: E, epoch: bool)
    requires loc < |slots| && AtHome(hash, slots) && slots[loc].erasable && loc in Locs(hash, |slots|, e)
    ensures var slots' := slots[loc := Slot(e, false, epoch)];
      && AtHome(hash, slots')
      && Live(slots') + multiset{} == Live(slots) + multiset{e}
      && Current(slots') == Current(slots) + One(epoch)
  {
    SlotUpdate(slots, loc, Slot(e, false, epoch));
    HomeUpdate(hash, slots, loc, Slot(e, false, epoch));
  }

  lemma {:induction false} MultisetEmpty<T>(a: multiset<T>)
    ensures a + multiset{} == a
  {
  }

  /** Displacement loses nothing but the element it ends up with in hand. */
  lemma {:induction false} DisplaceKeeps<E(!new)>(hash: (nat, E) -> nat, slots: seq<Slot<E>>, e: E, epoch: bool,
    lastLoc: int, rounds: nat)
    returns (slots': seq<Slot<E>>, dropped: Option<E>)
    requires |slots| > 0 && ValidHash(hash) && AtHome(hash, slots)
    ensures (slots', dropped) == Displace(hash, slots, e, epoch, lastLoc, rounds)
    ensures |slots'| == |slots| && AtHome(hash, slots')
    ensures Live(slots') + Dropped(dropped) == Live(slots) + multiset{e}
    ensures Current(slots') <= Current(slots) + One(epoch)
    decreases rounds
  {
    slots', dropped := slots, Some(e);
    if rounds > 0 {
      LocsInRange(hash, |slots|, e);
      var locs := Locs(hash, |slots|, e);
      var free := FindFree(slots, locs, 0);
      if free.Some? {
        DisplaceStores(hash, slots, e, epoch, lastLoc, rounds, free.value);
        FillKeeps(hash, slots, free.value, e, epoch);
        slots', dropped := slots[free.value := Slot(e, false, epoch)], None;
      } else {
        var loc := NextLoc(locs, lastLoc);
        var s := slots[loc];
        DisplaceMoves(hash, slots, e, epoch, lastLoc, rounds, loc);
        SwapKeeps(hash, slots, loc, e, epoch);
        slots', dropped := DisplaceKeeps(hash, slots[loc := Slot(e, false, epoch)], s.elem, s.epoch, loc, rounds - 1);
      }
    }
  }

  /**
   * insert, once the epoch has been checked, adds only the new element and drops at most one
   * from the live elements and the new one; it drops none if the element was found.
   */
  lemma {:induction false} PlaceKeeps<E(!new)>(hash: (nat, E) -> nat, c: State<E>, e: E)
    requires |c.slots| > 0 && ValidHash(hash) && AtHome(hash, c.slots)
    ensures var (c', dropped) := Place(hash, c, e);
      && c' == c.(slots := c'.slots) && |c'.slots| == |c.slots| && AtHome(hash, c'.slots)
      && Current(c'.slots) <= Current(c.slots) + 1
      && (Live(c'.slots) + Dropped(dropped) == Live(c.slots) + multiset{e} ||
           (Live(c'.slots) == Live(c.slots) && e in Live(c.slots)))
  {
    LocsInRange(hash, |c.slots|, e);
    var found := FindElement(c.slots, Locs(hash, |c.slots|, e), e, 0);
    if found.Some? {
      KeepFound(hash, c.slots, found.value, e);
    } else {
      var _, _ := DisplaceKeeps(hash, c.slots, e, true, INVALID, c.depthLimit);
    }
  }

  lemma {:induction false} KeepFound<E>(hash: (nat, E) -> nat, slots: seq<Slot<E>>, loc: nat, e: E)
    requires loc < |slots| && AtHome(hash, slots) && slots[loc].elem == e && loc in Locs(hash, |slots|, e)
    ensures var slots' := slots[loc := slots[loc].(erasable := false, epoch := true)];
      && AtHome(hash, slots')
      && Current(slots') <= Current(slots) + 1
      && (Live(slots') + multiset{} == Live(slots) + multiset{e} || (Live(slots') == Live(slots) && e in Live(slots)))
  {
    var s := slots[loc].(erasable := false, epoch := true);
    SlotUpdate(slots, loc, s);
    HomeUpdate(hash, slots, loc, s);
    if !slots[loc].erasable {
      MultisetCancel(Live(slots[loc := s]), Live(slots), multiset{e});
      LiveHas(slots, loc);
    }
  }

  lemma {:induction false} LiveHas<E>(slots: seq<Slot<E>>, i: nat)
    requires i < |slots| && !slots[i].erasable
    ensures slots[i].elem in Live(slots)
  {
    if i > 0 {
      LiveHas(slots[1..], i - 1);
    }
  }

  lemma {:induction false} LiveIs<E>(slots: seq<Slot<E>>, e: E) returns (i: nat)
    requires e in Live(slots)
    ensures i < |slots| && !slots[i].erasable && slots[i].elem == e
  {
    if e in LiveOf(slots[0]) {
      i := 0;
    } else {
      i := LiveIs(slots[1..], e);
      i := i + 1;
    }
  }

  /** A live element is always found. */
  lemma {:induction false} LiveFound<E(!new)>(hash: (nat, E) -> nat, c: State<E>, e: E, erase: bool)
    requires |c.slots| > 0 && ValidHash(hash) && AtHome(hash, c.slots) && e in Live(c.slots)
    ensures Contains(hash, c, e, erase).1
  {
    var i := LiveIs(c.slots, e);
    assert HomeAt(hash, c.slots, i);
    LocsInRange(hash, |c.slots|, e);
  }

  /** Erasing on lookup makes at most the element looked up discardable. */
  lemma {:induction false} ContainsKeeps<E(!new)>(hash: (nat, E) -> nat, c: State<E>, e: E, erase: bool)
    requires |c.slots| > 0 && ValidHash(hash) && AtHome(hash, c.slots)
    ensures var (c', _) := Contains(hash, c, e, erase);
      && c' == c.(slots := c'.slots) && |c'.slots| == |c.slots| && AtHome(hash, c'.slots)
      && Current(c'.slots) <= Current(c.slots)
      && (Live(c'.slots) == Live(c.slots) || (erase && Live(c'.slots) + multiset{e} == Live(c.slots)))
  {
    LocsInRange(hash, |c.slots|, e);
    var found := FindElement(c.slots, Locs(hash, |c.slots|, e), e, 0);
    if erase && found.Some? {
      var s := c.slots[found.value].(erasable := true);
      SlotUpdate(c.slots, found.value, s);
      HomeUpdate(hash, c.slots, found.value, s);
      MultisetEmpty(Live(c.slots));
      MultisetEmpty(Live(c.slots[found.value := s]));
    }
  }

  // ----- ageing -----

  lemma {:induction false} AgedStep<E>(slots: seq<Slot<E>>)
    requires slots != []
    ensures Current(AgedAll(slots)) == Current(AgedAll(slots[1..]))
    ensures Live(AgedAll(slots)) ==
      (if CurrentOf(slots[0]) == 1 then multiset{slots[0].elem} else multiset{}) + Live(AgedAll(slots[1..]))
  {
    assert AgedAll(slots)[1..] == AgedAll(slots[1..]);
  }

  lemma {:induction false} AgedCounts<E>(slots: seq<Slot<E>>)
    ensures Current(AgedAll(slots)) == 0 && Live(AgedAll(slots)) <= Live(slots)
    ensures |Live(AgedAll(slots))| == Current(slots)
  {
    if slots != [] {
      AgedStep(slots);
      AgedCounts(slots[1..]);
    }
  }

  lemma {:induction false} AgedHome<E>(hash: (nat, E) -> nat, slots: seq<Slot<E>>)
    requires AtHome(hash, slots)
    ensures AtHome(hash, AgedAll(slots))
  {
    forall i | 0 <= i < |slots|
      ensures HomeAt(hash, AgedAll(slots), i)
    {
      assert HomeAt(hash, slots, i);
    }
  }

  /** The bound on the live slots of the current epoch. */
  function EpochLimit(epochSize: nat): nat {
    epochSize + Max(1, epochSize / 16)
  }

  /** The live slots of the current epoch and the insertions until the next scan stay within the limit. */
  ghost predicate Sound<E>(hash: (nat, E) -> nat, c: State<E>) {
    && |c.slots| > 0 && c.epochSize > 0 && AtHome(hash, c.slots)
    && Current(c.slots) + c.counter <= EpochLimit(c.epochSize)
  }

  /** After the epoch check there is room for one more insertion, and only old elements were given up. */
  lemma {:induction false} EpochCheckKeeps<E>(hash: (nat, E) -> nat, c: State<E>)
    requires Sound(hash, c)
    ensures var c' := EpochCheck(c);
      && c' == c.(slots := c'.slots, counter := c'.counter) && |c'.slots| == |c.slots| && AtHome(hash, c'.slots)
      && Live(c'.slots) <= Live(c.slots)
      && Current(c'.slots) + c'.counter < EpochLimit(c.epochSize)
  {
    AgedCounts(c.slots);
    AgedHome(hash, c.slots);
    NextScan(c.epochSize, Current(c.slots));
  }

  lemma {:induction false} NextScan(epochSize: nat, current: nat)
    ensures current < epochSize ==> current + Max(1, Max(epochSize / 16, epochSize - current)) < EpochLimit(epochSize)
  {
  }

  /** insert keeps the limit; it gives up what ageing gives up and at most one element of the rest, and adds only e. */
  lemma {:induction false} InsertKeeps<E(!new)>(hash: (nat, E) -> nat, c: State<E>, e: E)
    requires Sound(hash, c) && ValidHash(hash)
    ensures var c' := Insert(hash, c, e); Sound(hash, c') && |c'.slots| == |c.slots| && c'.epochSize == c.epochSize
    ensures var (aged, c') := (EpochCheck(c), Insert(hash, c, e));
      && Live(aged.slots) <= Live(c.slots)
      && (Live(c'.slots) + Dropped(Place(hash, aged, e).1) == Live(aged.slots) + multiset{e} ||
           (Live(c'.slots) == Live(aged.slots) && e in Live(aged.slots)))
  {
    EpochCheckKeeps(hash, c);
    PlaceKeeps(hash, EpochCheck(c), e);
  }

  lemma {:induction false} SetupSound<E>(hash: (nat, E) -> nat, newSize: nat, empty: E, depthLimit: nat)
    requires newSize < TWO32
    ensures Sound(hash, Setup(newSize, empty, depthLimit))
  {
    var c := Setup(newSize, empty, depthLimit);
    forall i | 0 <= i < |c.slots|
      ensures HomeAt(hash, c.slots, i)
    {
    }
    NoneLive(c.slots);
  }

  lemma {:induction false} NoneLive<E>(slots: seq<Slot<E>>)
    requires forall i :: 0 <= i < |slots| ==> slots[i].erasable
    ensures Current(slots) == 0 && Live(slots) == multiset{}
  {
    if slots != [] {
      NoneLive(slots[1..]);
    }
  }

  // ----- runs -----

  datatype Op<E> =
    | OpInsert(e: E)
    | OpContains(e: E, erase: bool)

  ghost function Apply<E(!new)>(hash: (nat, E) -> nat, c: State<E>, op: Op<E>): State<E>
    requires |c.slots| > 0 && ValidHash(hash)
  {
    match op
    case OpInsert(e) => Insert(hash, c, e)
    case OpContains(e, erase) => Contains(hash, c, e, erase).0
  }

  ghost predicate RunStep<E(!new)>(hash: (nat, E) -> nat, ops: seq<Op<E>>, states: seq<State<E>>, i: nat)
    requires ValidHash(hash) && i < |ops| && |states| == |ops| + 1
  {
    |states[i].slots| > 0 ==> states[i + 1] == Apply(hash, states[i], ops[i])
  }

  ghost predicate IsRun<E(!new)>(hash: (nat, E) -> nat, ops: seq<Op<E>>, states: seq<State<E>>)
    requires ValidHash(hash)
  {
    && |states| == |ops| + 1
    && forall i {:trigger RunStep(hash, ops, states, i)} :: 0 <= i < |ops| ==> RunStep(hash, ops, states, i)
  }

  /** Over every run after a setup, live elements are at home and the current epoch stays within its limit. */
  lemma {:induction false} EveryRunSound<E(!new)>(hash: (nat, E) -> nat, ops: seq<Op<E>>, states: seq<State<E>>,
    newSize: nat, empty: E, depthLimit: nat, n: nat)
    requires ValidHash(hash) && IsRun(hash, ops, states) && newSize < TWO32 && n <= |ops|
    requires states[0] == Setup(newSize, empty, depthLimit)
    ensures Sound(hash, states[n]) && states[n].epochSize == states[0].epochSize
    ensures Current(states[n].slots) <= EpochLimit(states[0].epochSize)
  {
    if n == 0 {
      SetupSound(hash, newSize, empty, depthLimit);
    } else {
      EveryRunSound(hash, ops, states, newSize, empty, depthLimit, n - 1);
      assert RunStep(hash, ops, states, n - 1);
      match ops[n - 1]
      case OpInsert(e) => InsertKeeps(hash, states[n - 1], e);
      case OpContains(e, erase) => ContainsKeeps(hash, states[n - 1], e, erase);
    }
  }
}
