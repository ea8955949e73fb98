/** The heights that skip links jump to. */
module SkipHeights {
  import opened Shifts

  /** x & y */
  function And(x: nat, y: nat): nat {
    if x == 0 || y == 0 then 0 else (if x % 2 == 1 && y % 2 == 1 then 1 else 0) + 2 * And(x / 2, y / 2)
  }

  /** n & (n - 1); for zero the other operand is -1, all ones. */
  function InvertLowestOne(n: nat): nat {
    if n == 0 then 0 else And(n, n - 1)
  }

  function GetSkipHeight(height: nat): nat {
    if height < 2 then 0 else if height % 2 == 1 then InvertLowestOne(InvertLowestOne(height - 1)) + 1
      else InvertLowestOne(height)
  }

  lemma {:induction false} AndSelf(x: nat)
    ensures And(x, x) == x
  {
    if x > 0 {
      AndSelf(x / 2);
    }
  }

  /** Exactly the lowest one bit, bit `k`, is cleared. */
  lemma {:induction false} LowestOneCleared(m: nat, k: nat)
    ensures Shl(2 * m + 1, k) > 0 && InvertLowestOne(Shl(2 * m + 1, k)) == Shl(2 * m, k)
  {
    if k == 0 {
      AndSelf(m);
    } else {
      LowestOneCleared(m, k - 1);
    }
  }

  /** Every number but zero has a lowest one bit. */
  lemma {:induction false} LowestOne(n: nat) returns (m: nat, k: nat)
    requires n > 0
    ensures n == Shl(2 * m + 1, k)
  {
    if n % 2 == 1 {
      m, k := n / 2, 0;
    } else {
      m, k := LowestOne(n / 2);
      k := k + 1;
    }
  }

  lemma {:induction false} InvertBelow(n: nat)
    ensures InvertLowestOne(n) <= n && (n > 0 ==> InvertLowestOne(n) < n)
  {
    if n > 0 {
      var m, k := LowestOne(n);
      LowestOneCleared(m, k);
      ShlSum(2 * m, 1, k);
      ShlPositive(k);
    }
  }

  lemma {:induction false} ShlPositive(k: nat)
    ensures Shl(1, k) > 0
  {
    if k > 0 {
      ShlPositive(k - 1);
    }
  }

  /** A skip goes strictly down. */
  lemma {:induction false} SkipBelow(height: nat)
    requires height > 0
    ensures GetSkipHeight(height) < height
  {
    InvertBelow(height);
    InvertBelow(height - 1);
    InvertBelow(InvertLowestOne(height - 1));
  }

  /** An even height skips to where its lowest one bit is cleared. */
  lemma {:induction false} SkipEven(m: nat, k: nat)
    requires k > 0
    ensures GetSkipHeight(Shl(2 * m + 1, k)) == Shl(2 * m, k)
  {
    LowestOneCleared(m, k);
    assert Shl(2 * m + 1, k) == 2 * Shl(2 * m + 1, k - 1);
  }

  lemma {:induction false} SkipAboveEven(n: nat)
    requires n > 0 && n % 2 == 0
    ensures GetSkipHeight(n + 1) == InvertLowestOne(InvertLowestOne(n)) + 1
  {
  }

  lemma {:induction false} ShlEven(x: nat, k: nat)
    requires x > 0 && k > 0
    ensures Shl(x, k) > 0 && Shl(x, k) % 2 == 0
  {
    ShlLess(x, k);
  }

  /** An odd height skips to one above where the two lowest one bits of the height below it are cleared. */
  lemma {:induction false} SkipOdd(m: nat, j: nat, k: nat)
    requires k > 0
    ensures GetSkipHeight(Shl(Shl(2 * m + 1, j + 1) + 1, k) + 1) == Shl(Shl(2 * m, j + 1), k) + 1
  {
    var half := Shl(2 * m + 1, j);
    ShlEven(2 * half + 1, k);
    SkipAboveEven(Shl(2 * half + 1, k));
    LowestOneCleared(half, k);
    ShlPlus(2 * m + 1, j + 1, k);
    ShlPlus(2 * m, j + 1, k);
    LowestOneCleared(m, j + 1 + k);
  }

  /** With a single one bit there, it skips to height one. */
  lemma {:induction false} SkipOddLast(k: nat)
    requires k > 0
    ensures GetSkipHeight(Shl(1, k) + 1) == 1
  {
    ShlEven(1, k);
    SkipAboveEven(Shl(1, k));
    LowestOneCleared(0, k);
    ShlZero(k);
  }

  lemma {:induction false} ShlZero(k: nat)
    ensures Shl(0, k) == 0
  {
    if k > 0 {
      ShlZero(k - 1);
    }
  }

  /** Whether GetAncestor takes the skip link of a block at `walk` on its way down to `height`. */
  predicate TakesSkip(walk: nat, height: nat)
    requires walk > 0
  {
    var skip, skipPrev := GetSkipHeight(walk), GetSkipHeight(walk - 1);
    skip == height || (skip > height && !(skipPrev < skip - 2 && skipPrev >= height))
  }
}

/** The block tree, its skip links and the active chain. */
module Chain {
  import opened Numbers
  import opened Shifts
  import opened SkipHeights
  import opened SkipSteps

  /** The work of a chain is an arith_uint256. */
  const TWO256: nat := 0x1_0000_0000_0000_0000_0000_0000_0000_0000_0000_0000_0000_0000_0000_0000_0000_0000

  class CBlockIndex {
    const pprev: CBlockIndex?
    const nHeight: nat
    const nTime: nat
    const nTimeMax: nat
    /** GetBlockProof of the block */
    ghost const proof: nat
    const nChainWork: nat
    var pskip: CBlockIndex?
    /** The block and its predecessors. */
    ghost const path: set<CBlockIndex>

    constructor (prev: CBlockIndex?, time: nat, work: nat)
      requires prev != null ==> Linked(prev)
      ensures Linked(this) && pprev == prev && pskip == null && nTime == time && proof == work
    {
      pprev := prev;
      nHeight := if prev == null then 0 else prev.nHeight + 1;
      nTime := time;
      nTimeMax := if prev == null then time else Max(prev.nTimeMax, time);
      proof := work;
      nChainWork := ((if prev == null then 0 else prev.nChainWork) + work) % TWO256;
      pskip := null;
      path := (if prev == null then {} else prev.path) + {this};
    }

    /** The ancestor at a height, by skip links where they help, and the number of links followed. */
    method GetAncestor(height: int) returns (ancestor: CBlockIndex?, ghost links: nat)
      requires Linked(this) && Skips(this)
      ensures ancestor == if 0 <= height <= nHeight then Ancestor(this, height) else null
      ensures 0 <= height <= nHeight && Built(this) ==> links == Steps(nHeight, height)
    {
      links := 0;
      if height > nHeight || height < 0 {
        return null, links;
      }
      PathHolds(this);
      var pindexWalk: CBlockIndex := this;
      var heightWalk := nHeight;
      while heightWalk > height
        invariant height <= heightWalk == pindexWalk.nHeight && Linked(pindexWalk) && pindexWalk in this.path
        invariant Ancestor(pindexWalk, height) == Ancestor(this, height)
        invariant Built(this) ==> links + Steps(heightWalk, height) == Steps(nHeight, height)
      {
        StepBetween(heightWalk, height);
        PathDown(this, pindexWalk);
        var skip := pindexWalk.pskip;
        if skip != null && TakesSkip(heightWalk, height) {
          SkipDown(this, pindexWalk, height);
          pindexWalk := skip;
          heightWalk := GetSkipHeight(heightWalk);
        } else {
          assert pindexWalk.pprev != null;
          pindexWalk := pindexWalk.pprev;
          heightWalk := heightWalk - 1;
        }
        links := links + 1;
      }
      ancestor := pindexWalk;
    }

    method BuildSkip()
      requires Linked(this) && (pprev != null ==> Skips(pprev))
      modifies this`pskip
      ensures pskip == if pprev != null then SkipTarget(this) else old(pskip)
      ensures pprev != null || old(pskip) == null ==> Skips(this)
    {
      if pprev != null {
        SkipBelow(nHeight);
        NotOwnAncestor(this);
        var target, _ := pprev.GetAncestor(GetSkipHeight(nHeight));
        pskip := target;
        assert Skips(pprev);
      }
    }
  }

  /** The predecessors of `b` lead down to a block of height zero. */
  ghost predicate Linked(b: CBlockIndex)
    decreases b.nHeight
  {
    if b.pprev == null then b.nHeight == 0 && b.path == {b} && Rated(b)
    else b.nHeight == b.pprev.nHeight + 1 && b.path == b.pprev.path + {b} && Rated(b) && Linked(b.pprev)
  }

  /** The latest time and the work up to a block are those up to its predecessor and its own. */
  ghost predicate Rated(b: CBlockIndex) {
    && b.nTimeMax == (if b.pprev == null then b.nTime else Max(b.pprev.nTimeMax, b.nTime))
    && b.nChainWork == ((if b.pprev == null then 0 else b.pprev.nChainWork) + b.proof) % TWO256
  }

  /** The plain walk along predecessors. */
  ghost function Ancestor(b: CBlockIndex, height: nat): CBlockIndex
    requires Linked(b) && height <= b.nHeight
    decreases b.nHeight
  {
    if height == b.nHeight then b else Ancestor(b.pprev, height)
  }

  ghost function SkipTarget(b: CBlockIndex): CBlockIndex
    requires Linked(b) && b.pprev != null
  {
    SkipBelow(b.nHeight);
    Ancestor(b.pprev, GetSkipHeight(b.nHeight))
  }

  /** A skip link, where there is one, is the ancestor at the skip height. */
  ghost predicate SkipRight(b: CBlockIndex)
    requires Linked(b)
    reads b
  {
    b.pskip == null || (b.pprev != null && b.pskip == SkipTarget(b))
  }

  /** Every block but the first has its skip link. */
  ghost predicate Built(b: CBlockIndex)
    reads b.path
  {
    forall x :: x in b.path && x.pprev != null ==> x.pskip != null
  }

  ghost predicate Skips(b: CBlockIndex)
    requires Linked(b)
    reads b.path
  {
    forall x :: x in b.path ==> Linked(x) && SkipRight(x)
  }

  lemma {:induction false} PathHolds(b: CBlockIndex)
    requires Linked(b)
    ensures b in b.path
    ensures forall x :: x in b.path ==> Linked(x) && x.nHeight <= b.nHeight && x.path <= b.path
    decreases b.nHeight
  {
    if b.pprev != null {
      PathHolds(b.pprev);
    }
  }

  lemma {:induction false} NotOwnAncestor(b: CBlockIndex)
    requires Linked(b) && b.pprev != null
    ensures b !in b.pprev.path
  {
    PathHolds(b.pprev);
  }

  /** Walking on from an ancestor reaches the same blocks. */
  lemma {:induction false} AncestorKeeps(b: CBlockIndex, height: nat, lower: nat)
    requires Linked(b) && lower <= height <= b.nHeight
    ensures var a := Ancestor(b, height);
      Linked(a) && a.nHeight == height && a.path <= b.path && Ancestor(a, lower) == Ancestor(b, lower)
    decreases b.nHeight
  {
    if height < b.nHeight {
      AncestorKeeps(b.pprev, height, lower);
    }
  }

  /** The path of a block is the set of its ancestors. */
  lemma {:induction false} PathMember(b: CBlockIndex, x: CBlockIndex)
    requires Linked(b) && Linked(x)
    ensures x in b.path <==> x.nHeight <= b.nHeight && Ancestor(b, x.nHeight) == x
    decreases b.nHeight
  {
    if b.pprev != null {
      PathMember(b.pprev, x);
    }
  }

  lemma {:induction false} PathDown(b: CBlockIndex, x: CBlockIndex)
    requires Linked(b) && x in b.path
    ensures Linked(x) && x.nHeight <= b.nHeight && (x.pprev != null ==> x.pprev in b.path)
  {
    PathHolds(b);
    if x.pprev != null {
      PathHolds(x.pprev);
    }
  }

  /** Following a right skip link changes nothing about the ancestors below it. */
  lemma {:induction false} SkipDown(b: CBlockIndex, x: CBlockIndex, height: nat)
    requires Linked(b) && Skips(b) && x in b.path && Linked(x) && x.pskip != null && x.nHeight > 0
    requires height <= GetSkipHeight(x.nHeight) <= x.nHeight
    ensures var y: CBlockIndex := x.pskip;
      Linked(y) && y in b.path && y.nHeight == GetSkipHeight(x.nHeight) && Ancestor(y, height) == Ancestor(x, height)
  {
    var skip := GetSkipHeight(x.nHeight);
    SkipBelow(x.nHeight);
    AncestorKeeps(x, skip, height);
    assert SkipRight(x);
    PathHolds(b);
    PathHolds(x.pskip);
  }

  /** Every step of GetAncestor goes down and none goes below the height it looks for. */
  lemma {:induction false} StepBetween(walk: nat, height: nat)
    requires height < walk
    ensures TakesSkip(walk, height) ==> height <= GetSkipHeight(walk) < walk
  {
    SkipBelow(walk);
  }

  /** All blocks known, by hash. */
  class BlockMap<H(==)> {
    var blocks: map<H, CBlockIndex>
    var pindexBestHeader: CBlockIndex?

    ghost predicate Valid()
      reads this, set h, x | h in blocks && x in blocks[h].path :: x
    {
      (forall h :: h in blocks ==> Linked(blocks[h]) && Skips(blocks[h]) && Built(blocks[h])) && BestHeader()
    }

    /** The best header is a known block, and none has more work. */
    ghost predicate BestHeader()
      reads this
    {
      && (pindexBestHeader == null <==> blocks == map[])
      && (pindexBestHeader != null ==> exists h :: h in blocks && blocks[h] == pindexBestHeader)
      && forall h :: h in blocks ==> pindexBestHeader != null && blocks[h].nChainWork <= pindexBestHeader.nChainWork
    }

    constructor ()
      ensures Valid() && blocks == map[]
    {
      blocks, pindexBestHeader := map[], null;
    }

    /** A known hash gives its block; a new block is linked to its predecessor, gets its skip link and is rated. */
    method AddToBlockIndex(hash: H, hashPrevBlock: H, time: nat, proof: nat) returns (pindex: CBlockIndex)
      requires Valid() && hash != hashPrevBlock
      modifies this
      ensures Valid() && hash in blocks && blocks[hash] == pindex && Linked(pindex) && Skips(pindex) && Built(pindex)
      ensures hash in old(blocks) ==> blocks == old(blocks) && pindexBestHeader == old(pindexBestHeader)
      ensures hash !in old(blocks) ==> fresh(pindex) && blocks == old(blocks)[hash := pindex]
      ensures hash !in old(blocks) ==> pindex.nTime == time && pindex.proof == proof
      ensures pindexBestHeader == old(pindexBestHeader) || pindexBestHeader == pindex
      ensures hash !in old(blocks) ==>
        pindex.pprev == if hashPrevBlock in old(blocks) then old(blocks)[hashPrevBlock] else null
      ensures hash !in old(blocks) && hashPrevBlock in old(blocks) ==> pindex.pskip == SkipTarget(pindex)
    {
      if hash in blocks {
        return blocks[hash];
      }
      var prev: CBlockIndex? := if hashPrevBlock in blocks then blocks[hashPrevBlock] else null;
      pindex := NewBlock(prev, time, proof);
      RecordHeader(hash, pindex);
    }

    static method NewBlock(prev: CBlockIndex?, time: nat, proof: nat) returns (pindex: CBlockIndex)
      requires prev != null ==> Linked(prev) && Skips(prev) && Built(prev)
      ensures fresh(pindex) && Linked(pindex) && Skips(pindex) && Built(pindex)
      ensures pindex.pprev == prev && pindex.nTime == time && pindex.proof == proof
      ensures prev != null ==> pindex.pskip == SkipTarget(pindex)
    {
      pindex := new CBlockIndex(prev, time, proof);
      if prev != null {
        pindex.BuildSkip();
      }
    }

    method RecordHeader(hash: H, pindex: CBlockIndex)
      requires BestHeader() && hash !in blocks
      modifies this
      ensures BestHeader() && blocks == old(blocks)[hash := pindex]
      ensures pindexBestHeader == old(pindexBestHeader) || pindexBestHeader == pindex
    {
      if pindexBestHeader == null || pindexBestHeader.nChainWork < pindex.nChainWork {
        pindexBestHeader := pindex;
      }
      blocks := blocks[hash := pindex];
      assert blocks[hash] == pindex;
      assert forall h :: h in old(blocks) ==> h in blocks && blocks[h] == old(blocks)[h];
    }
  }

  /** `v` holds, by height, exactly the blocks on the path to `tip`. */
  ghost predicate IsPathTo(v: seq<CBlockIndex?>, tip: CBlockIndex)
    requires Linked(tip)
  {
    |v| == tip.nHeight + 1 && forall i :: 0 <= i < |v| ==> v[i] == Ancestor(tip, i)
  }

  class CChain {
    var vChain: seq<CBlockIndex?>

    ghost predicate Valid()
      reads this
    {
      vChain == [] || (var tip := vChain[|vChain| - 1]; tip != null && Linked(tip) && IsPathTo(vChain, tip))
    }

    constructor ()
      ensures Valid() && vChain == []
    {
      vChain := [];
    }

    function Height(): int
      reads this
    {
      |vChain| - 1
    }

    function At(height: int): CBlockIndex?
      reads this
    {
      if 0 <= height < |vChain| then vChain[height] else null
    }

    predicate Contains(pindex: CBlockIndex)
      reads this
    {
      At(pindex.nHeight) == pindex
    }

    function Next(pindex: CBlockIndex): CBlockIndex?
      reads this
    {
      if Contains(pindex) then At(pindex.nHeight + 1) else null
    }

    /** The highest ancestor of a block that is in the chain. */
    method FindFork(start: CBlockIndex?) returns (fork: CBlockIndex?)
      requires Valid() && (start != null ==> Linked(start) && Skips(start))
      ensures start == null ==> fork == null
      ensures start != null && fork != null ==>
        Linked(fork) && fork in start.path && Contains(fork) && NoneIn(this, start, fork.nHeight + 1, start.nHeight)
      ensures start != null && fork == null ==> NoneIn(this, start, 0, start.nHeight)
    {
      if start == null {
        return null;
      }
      var pindex: CBlockIndex? := start;
      PathHolds(start);
      if start.nHeight > Height() {
        if vChain != [] {
          AncestorKeeps(start, Height(), Height());
          PathMember(start, Ancestor(start, Height()));
        }
        NoneAbove(this, start);
        var top, _ := start.GetAncestor(Height());
        pindex := top;
      }
      while pindex != null && !Contains(pindex)
        invariant pindex != null ==>
          Linked(pindex) && pindex in start.path && NoneIn(this, start, pindex.nHeight + 1, start.nHeight)
        invariant pindex == null ==> NoneIn(this, start, 0, start.nHeight)
        decreases if pindex == null then 0 else pindex.nHeight + 1
      {
        PathMember(start, pindex);
        PathDown(start, pindex);
        pindex := pindex.pprev;
      }
      fork := pindex;
    }

    /** The first block of the chain whose time is at least `nTime`: lower_bound on the latest times up to each. */
    method FindEarliestAtLeast(nTime: int) returns (earliest: CBlockIndex?)
      requires Valid()
      ensures earliest == null ==> forall i :: 0 <= i < |vChain| ==> vChain[i] != null && vChain[i].nTime < nTime
      ensures earliest != null ==> Linked(earliest) && Contains(earliest) && earliest.nTime >= nTime
      ensures earliest != null ==>
        forall i :: 0 <= i < earliest.nHeight && i < |vChain| ==> vChain[i] != null && vChain[i].nTime < nTime
    {
      var low, high := 0, |vChain|;
      while low < high
        invariant 0 <= low <= high <= |vChain|
        invariant vChain != [] ==> low > 0 ==> Ancestor(Tip(), low - 1).nTimeMax < nTime
        invariant high < |vChain| ==> Ancestor(Tip(), high).nTimeMax >= nTime
      {
        var mid := (low + high) / 2;
        assert vChain[mid] == Ancestor(Tip(), mid);
        if vChain[mid].nTimeMax < nTime {
          low := mid + 1;
        } else {
          high := mid;
        }
      }
      if vChain != [] {
        TimesBelow(Tip(), low, nTime);
        if low < |vChain| {
          EarliestReaches(Tip(), low, nTime);
          AncestorKeeps(Tip(), low, low);
        }
      }
      earliest := At(low);
    }

    function Tip(): CBlockIndex?
      reads this
    {
      if vChain == [] then null else vChain[|vChain| - 1]
    }

    /** An ancestor, looked up in the chain where the block is in it. */
    method Below(pindex: CBlockIndex, height: nat) returns (ancestor: CBlockIndex)
      requires Valid() && Linked(pindex) && Skips(pindex) && height <= pindex.nHeight
      ensures ancestor == Ancestor(pindex, height)
    {
      if Contains(pindex) {
        AncestorKeeps(Tip(), pindex.nHeight, height);
        ancestor := At(height);
      } else {
        var found, _ := pindex.GetAncestor(height);
        ancestor := found;
      }
    }

    /** Ancestors at growing distances down to the first block. */
    method GetLocator(start: CBlockIndex?) returns (have: seq<CBlockIndex>)
      requires Valid() && (start != null ==> Linked(start) && Skips(start))
      requires (start == null && vChain != [] ==> Skips(Tip()))
      ensures var from := if start != null then start else Tip();
        if from == null then have == [] else IsLocator(have, from, LocatorHeights(from.nHeight, 1, 0))
    {
      var pindex := if start != null then start else Tip();
      if pindex == null {
        return [];
      }
      have := LocatorFrom(pindex);
    }

    method LocatorFrom(from: CBlockIndex) returns (have: seq<CBlockIndex>)
      requires Valid() && Linked(from) && Skips(from)
      ensures IsLocator(have, from, LocatorHeights(from.nHeight, 1, 0))
    {
      have := [];
      var pindex, nStep := from, 1;
      ghost var heights := LocatorHeights(from.nHeight, 1, 0);
      PathHolds(from);
      while true
        invariant nStep >= 1 && Collected(have, from, heights)
        invariant Linked(pindex) && pindex in from.path
        invariant heights[|have|..] == LocatorHeights(pindex.nHeight, nStep, |have|)
        decreases pindex.nHeight
      {
        CollectNext(have, from, heights, pindex, nStep);
        have := have + [pindex];
        if pindex.nHeight == 0 {
          CollectEnd(have, from, heights);
          break;
        }
        pindex := StepDown(from, pindex, nStep);
        if |have| > 10 {
          nStep := 2 * nStep;
        }
      }
    }

    /** The ancestor `nStep` below a block of the path, or the first block. */
    method StepDown(ghost from: CBlockIndex, pindex: CBlockIndex, nStep: nat) returns (next: CBlockIndex)
      requires Valid() && Linked(from) && Skips(from) && Linked(pindex) && pindex in from.path
      ensures Linked(next) && next in from.path
      ensures next.nHeight == if pindex.nHeight > nStep then pindex.nHeight - nStep else 0
    {
      var height := if pindex.nHeight > nStep then pindex.nHeight - nStep else 0;
      SkipsDown(from, pindex);
      StaysOnPath(from, pindex, height);
      next := Below(pindex, height);
    }

    /** Rewrite the chain from the new tip down to the first block that is already in place. */
    method SetTip(tip: CBlockIndex?)
      requires Valid() && (tip != null ==> Linked(tip))
      modifies this
      ensures Valid() && if tip == null then vChain == [] else IsPathTo(vChain, tip)
    {
      if tip == null {
        vChain := [];
        return;
      }
      ghost var was := vChain;
      var size := tip.nHeight + 1;
      vChain := if |vChain| >= size then vChain[..size] else vChain + seq(size - |vChain|, _ => null);
      var pindex: CBlockIndex? := tip;
      while pindex != null && vChain[pindex.nHeight] != pindex
        invariant |vChain| == size
        invariant (pindex != null ==>
          Linked(pindex) && pindex.nHeight < size && pindex == Ancestor(tip, pindex.nHeight))
        invariant Rewritten(vChain, was, tip, if pindex == null then 0 else pindex.nHeight + 1)
        decreases if pindex == null then 0 else pindex.nHeight + 1
      {
        if pindex.pprev != null {
          AncestorKeeps(tip, pindex.nHeight, pindex.nHeight - 1);
        }
        vChain := vChain[pindex.nHeight := pindex];
        pindex := pindex.pprev;
      }
      if pindex != null {
        AlreadyInPlace(vChain, was, tip, pindex);
      }
    }
  }

  /** The heights of a locator: the first steps go down by one, later ones by twice as much each time. */
  ghost function LocatorHeights(height: nat, step: nat, count: nat): seq<nat>
    requires step >= 1
  {
    [height] + if height == 0 then [] else
      LocatorHeights(if height > step then height - step else 0, if count + 1 > 10 then 2 * step else step, count + 1)
  }

  ghost predicate IsLocator(have: seq<CBlockIndex>, from: CBlockIndex, heights: seq<nat>)
    requires Linked(from)
  {
    |have| == |heights| && forall i :: 0 <= i < |have| ==>
      heights[i] <= from.nHeight && have[i] == Ancestor(from, heights[i])
  }

  ghost predicate Collected(have: seq<CBlockIndex>, from: CBlockIndex, heights: seq<nat>)
    requires Linked(from)
  {
    |have| <= |heights| && IsLocator(have, from, heights[..|have|])
  }

  lemma {:induction false} CollectNext(
    have: seq<CBlockIndex>, from: CBlockIndex, heights: seq<nat>, b: CBlockIndex, step: nat)
    requires step >= 1 && Linked(from) && Linked(b) && b in from.path && Collected(have, from, heights)
    requires heights[|have|..] == LocatorHeights(b.nHeight, step, |have|)
    ensures Collected(have + [b], from, heights)
    ensures heights[|have| + 1..] == if b.nHeight == 0 then [] else
      LocatorHeights(if b.nHeight > step then b.nHeight - step else 0, if |have| + 1 > 10 then 2 * step
        else step, |have| + 1)
  {
    var n := |have|;
    var rest := heights[n..];
    assert rest[0] == b.nHeight == heights[n];
    assert heights[n + 1..] == rest[1..];
    PathMember(from, b);
    var next := have + [b];
    forall i | 0 <= i < |next|
      ensures heights[i] <= from.nHeight && next[i] == Ancestor(from, heights[i])
    {
      assert i < n ==> heights[i] == heights[..n][i];
    }
  }

  lemma {:induction false} CollectEnd(have: seq<CBlockIndex>, from: CBlockIndex, heights: seq<nat>)
    requires Linked(from) && Collected(have, from, heights) && heights[|have|..] == []
    ensures IsLocator(have, from, heights)
  {
    assert heights[..|have|] == heights;
  }

  lemma {:induction false} StaysOnPath(from: CBlockIndex, b: CBlockIndex, height: nat)
    requires Linked(from) && Linked(b) && b in from.path && height <= b.nHeight
    ensures var a := Ancestor(b, height); Linked(a) && a.nHeight == height && a in from.path
  {
    AncestorKeeps(b, height, height);
    PathHolds(from);
    PathHolds(Ancestor(b, height));
  }

  /** A locator goes strictly down from its block to the first one. */
  lemma {:induction false} LocatorReachesGenesis(height: nat, step: nat, count: nat)
    requires step >= 1
    ensures var hs := LocatorHeights(height, step, count);
      hs[0] == height && hs[|hs| - 1] == 0 && forall i :: 0 < i < |hs| ==> hs[i] < hs[i - 1]
  {
    if height > 0 {
      LocatorReachesGenesis(if height > step then height - step else 0, if count + 1 > 10 then 2 * step
        else step, count + 1);
    }
  }

  /** Past the first entries its length is logarithmic in the height. */
  lemma {:induction false} LocatorShort(height: nat, step: nat, count: nat, k: nat)
    requires step >= 1 && count >= 10 && height + step <= Shl(step, k)
    ensures |LocatorHeights(height, step, count)| <= k + 1
  {
    if height > 0 {
      ShlTwice(step, k - 1);
      ShlLess(step, k - 1);
      LocatorShort(if height > step then height - step else 0, 2 * step, count + 1, k - 1);
    }
  }

  /** Before, the steps are single. */
  lemma {:induction false} LocatorLength(height: nat, count: nat, k: nat)
    requires count <= 10 && height + 1 <= Shl(1, k)
    ensures |LocatorHeights(height, 1, count)| <= 10 - count + k + 1
  {
    if count == 10 {
      LocatorShort(height, 1, 10, k);
    } else if height > 0 {
      LocatorLength(if height > 1 then height - 1 else 0, count + 1, k);
    }
  }

  lemma {:induction false} LocatorFar(height: nat, step: nat, count: nat, n: nat, i: nat)
    requires step == 1 && count == 0 && n == 11 < i < |LocatorHeights(height, step, count)|
    ensures LocatorHeights(height, step, count)[i] == Max(0, height - 9 - Pow2(i - 10))
  {
    var hs := LocatorHeights(height, step, count);
    LocatorDense(height, count, n);
    LocatorTail(height, count, n);
    assert hs[i] == hs[n..][i - n];
    LocatorSparse(height - n, 2, n, 1, i - n);
  }

  /** Where the entries of a locator stand: one by one down to the twelfth, then at doubling distances. */
  lemma {:induction false} LocatorAt(height: nat, i: nat)
    requires i < |LocatorHeights(height, 1, 0)|
    ensures LocatorHeights(height, 1, 0)[i] == if i <= 11 then height - i else Max(0, height - 9 - Pow2(i - 10))
  {
    if i <= 11 {
      LocatorDense(height, 0, i);
    } else {
      LocatorFar(height, 1, 0, 11, i);
    }
  }

  lemma {:induction false} LocatorDense(height: nat, count: nat, i: nat)
    requires count + i <= 11 && i < |LocatorHeights(height, 1, count)|
    ensures i <= height && LocatorHeights(height, 1, count)[i] == height - i
  {
    if i > 0 {
      var next := if height > 1 then height - 1 else 0;
      assert LocatorHeights(height, 1, count)[1..] == LocatorHeights(next, if count + 1 > 10 then 2 else 1, count + 1);
      if count + 1 <= 10 {
        LocatorDense(next, count + 1, i - 1);
      }
    }
  }

  lemma {:induction false} LocatorNext(height: nat, count: nat, step: nat)
    requires height > 0 && step == if count + 1 > 10 then 2 else 1
    ensures LocatorHeights(height, 1, count)[1..] == LocatorHeights(height - 1, step, count + 1)
  {
  }

  lemma {:induction false} LocatorTail(height: nat, count: nat, i: nat)
    requires count + i == 11 && 0 < i < |LocatorHeights(height, 1, count)| && i <= height
    ensures LocatorHeights(height, 1, count)[i..] == LocatorHeights(height - i, 2, 11)
    decreases i
  {
    if i == 1 {
      LocatorNext(height, count, 2);
    } else {
      var hs := LocatorHeights(height, 1, count);
      LocatorNext(height, count, 1);
      LocatorTail(height - 1, count + 1, i - 1);
      DropTwice(hs, i);
    }
  }

  lemma {:induction false} DropTwice<T>(s: seq<T>, i: nat)
    requires 0 < i <= |s|
    ensures s[i..] == s[1..][i - 1..]
  {
  }

  lemma {:induction false} LocatorSparse(height: nat, step: nat, count: nat, e: nat, i: nat)
    requires step == Pow2(e) && step >= 1 && count >= 10 && i < |LocatorHeights(height, step, count)|
    ensures LocatorHeights(height, step, count)[i] == Max(0, height + step - Pow2(e + i))
  {
    if i > 0 {
      var next := if height > step then height - step else 0;
      assert LocatorHeights(height, step, count)[1..] == LocatorHeights(next, 2 * step, count + 1);
      Pow2Grows(e + 1, e + i);
      LocatorSparse(next, 2 * step, count + 1, e + 1, i - 1);
    }
  }

  lemma {:induction false} SkipsDown(b: CBlockIndex, x: CBlockIndex)
    requires Linked(b) && Skips(b) && x in b.path
    ensures Linked(x) && Skips(x)
  {
    PathHolds(b);
  }

  /** A chain contains exactly the blocks on the path to its tip. */
  lemma {:induction false} ContainsExact(c: CChain, pindex: CBlockIndex)
    requires c.Valid() && Linked(pindex)
    ensures c.Contains(pindex) <==> c.vChain != [] && pindex in c.vChain[|c.vChain| - 1].path
  {
    if c.vChain != [] {
      PathMember(c.vChain[|c.vChain| - 1], pindex);
    }
  }

  /** The successor in the chain is the contained block that `pindex` precedes; there is one below the tip. */
  lemma {:induction false} NextExact(c: CChain, pindex: CBlockIndex, x: CBlockIndex)
    requires c.Valid() && Linked(pindex) && Linked(x)
    ensures c.Next(pindex) == x <==> c.Contains(x) && x.pprev == pindex
    ensures c.Next(pindex) != null <==> c.Contains(pindex) && pindex.nHeight < c.Height()
  {
    if c.vChain != [] {
      var tip := c.vChain[|c.vChain| - 1];
      if x.nHeight <= tip.nHeight && x.nHeight > 0 {
        AncestorKeeps(tip, x.nHeight, x.nHeight - 1);
      }
      if pindex.nHeight < tip.nHeight {
        AncestorKeeps(tip, pindex.nHeight + 1, pindex.nHeight);
      }
    }
  }

  /** No ancestor of `b` at heights `low` up to `high` is in the chain. */
  ghost predicate NoneIn(c: CChain, b: CBlockIndex, low: nat, high: int)
    requires Linked(b) && high <= b.nHeight
    reads c
  {
    forall h :: low <= h <= high ==> !c.Contains(Ancestor(b, h))
  }

  /** Nothing above the height of the chain is in it. */
  lemma {:induction false} NoneAbove(c: CChain, b: CBlockIndex)
    requires Linked(b) && b.nHeight > c.Height()
    ensures NoneIn(c, b, c.Height() + 1, b.nHeight)
  {
    forall h | c.Height() + 1 <= h <= b.nHeight
      ensures !c.Contains(Ancestor(b, h))
    {
      AncestorKeeps(b, h, h);
    }
  }

  /** The highest block on both paths, and none where the blocks have no common ancestor. */
  method LastCommonAncestor(a: CBlockIndex, b: CBlockIndex) returns (common: CBlockIndex?)
    requires Linked(a) && Skips(a) && Linked(b) && Skips(b)
    ensures common != null ==> Linked(common) && common in a.path && common in b.path
    ensures forall x :: x in a.path && x in b.path ==> common != null && x in common.path
  {
    var pa: CBlockIndex?, pb: CBlockIndex? := a, b;
    PathHolds(a);
    PathHolds(b);
    if a.nHeight > b.nHeight {
      AncestorKeeps(a, b.nHeight, 0);
      Meet(a, b, b.nHeight);
      var up, _ := a.GetAncestor(b.nHeight);
      pa := up;
      PathHolds(pa);
    } else if b.nHeight > a.nHeight {
      AncestorKeeps(b, a.nHeight, 0);
      Meet(b, a, a.nHeight);
      var up, _ := b.GetAncestor(a.nHeight);
      pb := up;
      PathHolds(pb);
    }
    while pa != pb && pa != null && pb != null
      invariant SameHeight(pa, pb)
      invariant (pa != null ==> pa.path <= a.path && pb.path <= b.path && pa in pa.path && pb in pb.path)
      invariant forall x :: x in a.path && x in b.path ==> pa != null && x in pa.path && x in pb.path
      decreases if pa == null then 0 else pa.nHeight + 1
    {
      Apart(pa, pb);
      pa := pa.pprev;
      pb := pb.pprev;
    }
    assert pa == pb;
    common := pa;
  }

  ghost predicate SameHeight(pa: CBlockIndex?, pb: CBlockIndex?) {
    if pa == null then pb == null else pb != null && Linked(pa) && Linked(pb) && pa.nHeight == pb.nHeight
  }

  /** What is on both paths is not above `height` where one block is at that height. */
  lemma {:induction false} Meet(a: CBlockIndex, b: CBlockIndex, height: nat)
    requires Linked(a) && Linked(b) && b.nHeight == height <= a.nHeight
    ensures forall x :: x in a.path && x in b.path ==> x in Ancestor(a, height).path
  {
    PathHolds(a);
    PathHolds(b);
    forall x | x in a.path && x in b.path
      ensures x in Ancestor(a, height).path
    {
      PathMember(a, x);
      AncestorKeeps(a, height, x.nHeight);
      PathMember(Ancestor(a, height), x);
    }
  }

  /** Different blocks at one height: the paths meet, if at all, at their predecessors. */
  lemma {:induction false} Apart(pa: CBlockIndex, pb: CBlockIndex)
    requires Linked(pa) && Linked(pb) && pa.nHeight == pb.nHeight && pa != pb
    ensures SameHeight(pa.pprev, pb.pprev)
    ensures pa.pprev != null ==>
      pa.pprev.path <= pa.path && pb.pprev.path <= pb.path && pa.pprev in pa.pprev.path && pb.pprev in pb.pprev.path
    ensures forall x :: x in pa.path && x in pb.path ==> pa.pprev != null && x in pa.pprev.path && x in pb.pprev.path
  {
    PathHolds(pa);
    PathHolds(pb);
    if pa.pprev != null {
      PathHolds(pa.pprev);
      PathHolds(pb.pprev);
    }
    forall x | x in pa.path && x in pb.path
      ensures pa.pprev != null && x in pa.pprev.path && x in pb.pprev.path
    {
      PathMember(pa, x);
      PathMember(pb, x);
    }
  }

  /** From height `n` on the chain is the path to `tip`; below it is what it was. */
  ghost predicate Rewritten(v: seq<CBlockIndex?>, was: seq<CBlockIndex?>, tip: CBlockIndex, n: nat)
    requires Linked(tip)
  {
    |v| == tip.nHeight + 1
    && (forall i :: n <= i < |v| ==> v[i] == Ancestor(tip, i))
    && (forall i :: 0 <= i < n && i < |v| ==> v[i] == if i < |was| then was[i] else null)
  }

  /** Two paths that share a block share everything below it. */
  lemma {:induction false} AlreadyInPlace(
    v: seq<CBlockIndex?>, was: seq<CBlockIndex?>, tip: CBlockIndex, pindex: CBlockIndex)
    requires Linked(tip) && Linked(pindex) && pindex.nHeight < |v| == tip.nHeight + 1
    requires pindex == Ancestor(tip, pindex.nHeight)
    requires was == [] || (var t := was[|was| - 1]; t != null && Linked(t) && IsPathTo(was, t))
    requires Rewritten(v, was, tip, pindex.nHeight + 1) && v[pindex.nHeight] == pindex
    ensures IsPathTo(v, tip)
  {
    var t := was[|was| - 1];
    forall i | 0 <= i <= pindex.nHeight
      ensures v[i] == Ancestor(tip, i)
    {
      AncestorKeeps(tip, pindex.nHeight, i);
      AncestorKeeps(t, pindex.nHeight, i);
    }
  }

  // ----- time and work along a chain -----

  /** The proofs of a block and its predecessors, added up. */
  ghost function TotalWork(b: CBlockIndex): nat
    requires Linked(b)
    decreases b.nHeight
  {
    b.proof + if b.pprev == null then 0 else TotalWork(b.pprev)
  }

  lemma {:induction false} ModSum(a: nat, b: nat, m: nat)
    requires m > 0
    ensures (a % m + b) % m == (a + b) % m
  {
    Division(a, m);
    Division(a % m + b, m);
    var q, r := (a % m + b) / m, (a % m + b) % m;
    assert (a / m + q) * m == a / m * m + q * m;
    DivModUnique(a + b, a / m + q, m, r);
  }

  /** nChainWork is the work of the whole chain. */
  lemma {:induction false} ChainWorkExact(b: CBlockIndex)
    requires Linked(b)
    ensures b.nChainWork == TotalWork(b) % TWO256
    decreases b.nHeight
  {
    if b.pprev != null {
      ChainWorkExact(b.pprev);
      ModSum(TotalWork(b.pprev), b.proof, TWO256);
    }
  }

  /** As long as the work fits, a block has more than any of its ancestors if every block adds some. */
  lemma {:induction false} WorkGrows(b: CBlockIndex, height: nat)
    requires Linked(b) && height < b.nHeight && TotalWork(b) < TWO256 && forall x :: x in b.path ==> x.proof > 0
    ensures Linked(Ancestor(b, height)) && Ancestor(b, height).nChainWork < b.nChainWork
    decreases b.nHeight
  {
    ChainWorkExact(b);
    ChainWorkExact(b.pprev);
    PathHolds(b);
    if height < b.nHeight - 1 {
      WorkGrows(b.pprev, height);
    }
  }

  /** nTimeMax reaches a time exactly where a block up to there does. */
  lemma {:induction false} TimeMaxExact(b: CBlockIndex, time: int)
    requires Linked(b)
    ensures b.nTimeMax >= time <==> exists x :: x in b.path && x.nTime >= time
    decreases b.nHeight
  {
    if b.pprev != null {
      TimeMaxExact(b.pprev, time);
    }
    if b.nTime >= time {
      assert b in b.path;
    }
  }

  lemma {:induction false} TimeMaxGrows(b: CBlockIndex, low: nat, high: nat)
    requires Linked(b) && low <= high <= b.nHeight
    ensures Ancestor(b, low).nTimeMax <= Ancestor(b, high).nTimeMax
    decreases b.nHeight
  {
    if high < b.nHeight {
      TimeMaxGrows(b.pprev, low, high);
    } else if low < high {
      TimeMaxGrows(b.pprev, low, high - 1);
    }
  }

  lemma {:induction false} TimesBelow(tip: CBlockIndex, n: nat, time: int)
    requires Linked(tip) && n <= tip.nHeight + 1 && (n > 0 ==> Ancestor(tip, n - 1).nTimeMax < time)
    ensures forall i :: 0 <= i < n ==> Ancestor(tip, i).nTime < time
  {
    forall i | 0 <= i < n
      ensures Ancestor(tip, i).nTime < time
    {
      TimeMaxGrows(tip, i, n - 1);
      AncestorKeeps(tip, i, i);
    }
  }

  /** The first block up to which the latest time reaches `time` is of that time itself. */
  lemma {:induction false} EarliestReaches(tip: CBlockIndex, n: nat, time: int)
    requires Linked(tip) && n <= tip.nHeight && Ancestor(tip, n).nTimeMax >= time
    requires n > 0 ==> Ancestor(tip, n - 1).nTimeMax < time
    ensures Ancestor(tip, n).nTime >= time
  {
    var b := Ancestor(tip, n);
    AncestorKeeps(tip, n, n);
    if n > 0 {
      AncestorKeeps(tip, n, n - 1);
      assert Ancestor(b, n - 1) == b.pprev;
    }
  }
}
