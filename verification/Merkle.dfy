/** Partial Merkle trees (merkleblock.h, merkleblock.cpp): encoding, extraction and authentication. */
module Merkle {
  import opened Collections
  import opened Numbers
  import opened Bits

  const MAX_BLOCK_WEIGHT := 4000000
  const MIN_TRANSACTION_WEIGHT := 4 * 60

  // ----- the shape of the tree -----

  /** CalcTreeWidth: the number of nodes at height `h` over `n` leaves. */
  function Width(n: nat, h: nat): nat {
    (n + Pow2(h) - 1) / Pow2(h)
  }

  /** The first leaf under node `pos` at height `h`. */
  function First(h: nat, pos: nat): nat {
    if h == 0 then pos else First(h - 1, 2 * pos)
  }

  /** The end of the leaves under a node of a tree of `n` leaves. */
  function End(n: nat, h: nat, pos: nat): nat {
    if First(h, pos + 1) < n then First(h, pos + 1) else n
  }

  lemma {:induction false} FirstIs(h: nat, pos: nat)
    ensures First(h, pos) == pos * Pow2(h)
  {
    if h > 0 {
      FirstIs(h - 1, 2 * pos);
      assert 2 * pos * Pow2(h - 1) == pos * (2 * Pow2(h - 1));
    }
  }

  lemma {:induction false} FirstGrows(h: nat, pos: nat)
    ensures First(h, pos) < First(h, pos + 1)
  {
    FirstIs(h, pos);
    FirstIs(h, pos + 1);
    assert (pos + 1) * Pow2(h) == pos * Pow2(h) + Pow2(h);
  }

  /** A node's leaves are those of its left child and then those of its right child. */
  lemma {:induction false} Halves(h: nat, pos: nat)
    requires h > 0
    ensures First(h, pos) == First(h - 1, 2 * pos) < First(h - 1, 2 * pos + 1) < First(h, pos + 1)
    ensures First(h, pos + 1) == First(h - 1, 2 * pos + 1 + 1)
  {
    FirstGrows(h - 1, 2 * pos);
    FirstGrows(h - 1, 2 * pos + 1);
  }

  /** Node `pos` at height `h` exists exactly if its first leaf does. */
  lemma {:induction false} WidthIff(n: nat, h: nat, pos: nat)
    ensures pos < Width(n, h) <==> First(h, pos) < n
  {
    FirstIs(h, pos);
    var p := Pow2(h);
    var w := Width(n, h);
    assert n + p - 1 == w * p + (n + p - 1) % p;
    if pos < w {
      assert (pos + 1) * p <= w * p by { MulAway(w - pos, p); }
    } else {
      assert w * p <= pos * p by { MulAway(pos - w, p); }
    }
  }

  /** The loop that finds the height of the tree ends, since a tree of height `n` has one root. */
  lemma {:induction false} Shrinks(n: nat, h: nat)
    ensures h >= n ==> Width(n, h) <= 1
  {
    FirstIs(h, 1);
    Pow2Big(h);
    WidthIff(n, h, 1);
  }

  lemma {:induction false} Pow2Big(h: nat)
    ensures Pow2(h) > h
  {
    if h > 0 {
      Pow2Big(h - 1);
    }
  }

  /** The least height at or above `h` with a single node. */
  function HeightFrom(n: nat, h: nat): (r: nat)
    ensures Width(n, r) <= 1
    decreases if h < n then n - h else 0
  {
    Shrinks(n, h);
    if Width(n, h) <= 1 then h else HeightFrom(n, h + 1)
  }

  lemma {:induction false} RootCoversAll(n: nat, h: nat)
    requires Width(n, h) <= 1
    ensures First(h, 0) == 0 && End(n, h, 0) == n
  {
    FirstIs(h, 0);
    WidthIff(n, h, 1);
  }

  function CalcHash<H>(hash: (H, H) -> H, txids: seq<H>, h: nat, pos: nat): H
    requires First(h, pos) < |txids|
    decreases h
  {
    if h == 0 then
      txids[pos]
    else
      Halves(h, pos);
      var left := CalcHash(hash, txids, h - 1, 2 * pos);
      hash(left, if First(h - 1, 2 * pos + 1) < |txids| then CalcHash(hash, txids, h - 1, 2 * pos + 1) else left)
  }

  /** The hash of the right child, or the left one again where the tree ends. */
  function RightHash<H>(hash: (H, H) -> H, txids: seq<H>, h: nat, pos: nat, left: H): H
    requires h > 0
  {
    if First(h - 1, 2 * pos + 1) < |txids| then CalcHash(hash, txids, h - 1, 2 * pos + 1) else left
  }

  function Root<H>(hash: (H, H) -> H, txids: seq<H>): H
    requires txids != []
  {
    RootCoversAll(|txids|, HeightFrom(|txids|, 0));
    CalcHash(hash, txids, HeightFrom(|txids|, 0), 0)
  }

  // ----- encoding -----

  predicate ParentOfMatch(vMatch: seq<bool>, h: nat, pos: nat) {
    AnyIn(vMatch, First(h, pos), End(|vMatch|, h, pos))
  }

  predicate AnyIn(vMatch: seq<bool>, lo: nat, hi: nat) {
    exists p | lo <= p < hi && p < |vMatch| :: vMatch[p]
  }

  /** The flag bits and hashes TraverseAndBuild appends for a node. */
  function Build<H>(hash: (H, H) -> H, txids: seq<H>, vMatch: seq<bool>, h: nat, pos: nat): (seq<bool>, seq<H>)
    requires First(h, pos) < |txids|
    decreases h
  {
    var parent := ParentOfMatch(vMatch, h, pos);
    if h == 0 || !parent then ([parent], [CalcHash(hash, txids, h, pos)]) else
      Halves(h, pos);
      var (bits, hashes) := Build(hash, txids, vMatch, h - 1, 2 * pos);
      if First(h - 1, 2 * pos + 1) < |txids| then
        var (bits', hashes') := Build(hash, txids, vMatch, h - 1, 2 * pos + 1);
        ([parent] + bits + bits', hashes + hashes')
      else
        ([parent] + bits, hashes)
  }

  function BuildAll<H>(hash: (H, H) -> H, txids: seq<H>, vMatch: seq<bool>): (seq<bool>, seq<H>)
    requires txids != []
  {
    RootCoversAll(|txids|, HeightFrom(|txids|, 0));
    Build(hash, txids, vMatch, HeightFrom(|txids|, 0), 0)
  }

  // ----- extraction -----

  /** What a CPartialMerkleTree holds: the number of transactions, the flag bits and the hashes. */
  datatype Partial<H> = Partial(n: nat, bits: seq<bool>, hashes: seq<H>)

  /** The outcome of a traversal: the node's hash, the new cursors, whether it was bad, and the matches. */
  datatype Walk<H> = Walk(root: H, bitsUsed: nat, hashUsed: nat, bad: bool, found: seq<(nat, H)>)

  /** A node's outcome from those of its two children. */
  function Join<H(==)>(hash: (H, H) -> H, left: Walk<H>, right: Walk<H>): Walk<H> {
    Walk(hash(left.root, right.root), right.bitsUsed, right.hashUsed,
         left.bad || right.bad || right.root == left.root, left.found + right.found)
  }

  /** TraverseAndExtract from bit `i` and hash `j` on. */
  function Extract<H(==)>(hash: (H, H) -> H, zero: H, p: Partial<H>, h: nat, pos: nat, i: nat, j: nat): Walk<H>
    decreases h
  {
    if i >= |p.bits| then Walk(zero, i, j, true, [])
    else if h == 0 || !p.bits[i] then
      if j >= |p.hashes| then Walk(zero, i + 1, j, true, [])
      else Walk(p.hashes[j], i + 1, j + 1, false, if h == 0 && p.bits[i] then [(pos, p.hashes[j])] else [])
    else
      var left := Extract(hash, zero, p, h - 1, 2 * pos, i + 1, j);
      if First(h - 1, 2 * pos + 1) < p.n then
        var right := Extract(hash, zero, p, h - 1, 2 * pos + 1, left.bitsUsed, left.hashUsed);
        Join(hash, left, right)
      else
        left.(root := hash(left.root, left.root))
  }

  /** ExtractMatches: the root and the matches, unless the tree is rejected. */
  function ExtractMatches<H(==)>(hash: (H, H) -> H, zero: H, p: Partial<H>): Option<Walk<H>> {
    if p.n == 0 || p.n > MAX_BLOCK_WEIGHT / MIN_TRANSACTION_WEIGHT || |p.hashes| > p.n || |p.bits| < |p.hashes|
    then None else
      var w := Extract(hash, zero, p, HeightFrom(p.n, 0), 0, 0, 0);
      if w.bad || (w.bitsUsed + 7) / 8 != (|p.bits| + 7) / 8 || w.hashUsed != |p.hashes| then None else Some(w)
  }

  // ----- authentication -----

  /** No other pair hashes to the value of an inner node of the tree over `txids`. */
  ghost predicate UniqueNodes<H(!new)>(hash: (H, H) -> H, txids: seq<H>) {
    forall h: nat, pos: nat {:trigger UniqueNode(hash, txids, h, pos)} ::
      h > 0 && First(h, pos) < |txids| ==> UniqueNode(hash, txids, h, pos)
  }

  ghost predicate UniqueNode<H(!new)>(hash: (H, H) -> H, txids: seq<H>, h: nat, pos: nat)
    requires h > 0 && First(h, pos) < |txids|
  {
    Halves(h, pos);
    var left := CalcHash(hash, txids, h - 1, 2 * pos);
    forall a, b :: hash(a, b) == CalcHash(hash, txids, h, pos) ==>
      a == left && b == RightHash(hash, txids, h, pos, left)
  }

  /** A pairwise-injective hash satisfies it for every list. */
  lemma {:induction false} InjectiveIsUnique<H(!new)>(hash: (H, H) -> H, txids: seq<H>)
    requires forall a, b, c, d :: hash(a, b) == hash(c, d) ==> a == c && b == d
    ensures UniqueNodes(hash, txids)
  {
    forall h: nat, pos: nat | h > 0 && First(h, pos) < |txids|
      ensures UniqueNode(hash, txids, h, pos)
    {
      Halves(h, pos);
    }
  }

  /** `found` lists, by increasing index from `lo` to below `hi`, transactions of `txids` at their own indices. */
  ghost predicate Genuine<H>(found: seq<(nat, H)>, txids: seq<H>, lo: nat, hi: nat) {
    && (forall k {:trigger found[k]} :: 0 <= k < |found| ==>
         lo <= found[k].0 < hi && found[k].0 < |txids| && found[k].1 == txids[found[k].0])
    && (forall k, l :: 0 <= k < l < |found| ==> found[k].0 < found[l].0)
  }

  lemma {:induction false} GenuineConcat<H>(
    a: seq<(nat, H)>, b: seq<(nat, H)>, txids: seq<H>, lo: nat, mid: nat, hi: nat)
    requires Genuine(a, txids, lo, mid) && Genuine(b, txids, mid, hi) && lo <= mid <= hi
    ensures Genuine(a + b, txids, lo, hi)
  {
  }

  lemma {:induction false} GenuineWider<H>(found: seq<(nat, H)>, txids: seq<H>, lo: nat, mid: nat, hi: nat)
    requires Genuine(found, txids, lo, mid) && mid <= hi
    ensures Genuine(found, txids, lo, hi)
  {
  }

  /** Only the true hashes of its children hash to the true hash of a node. */
  lemma {:induction false} ChildrenTrue<H(!new)>(hash: (H, H) -> H, txids: seq<H>, h: nat, pos: nat, a: H, b: H)
    requires h > 0 && First(h, pos) < |txids| && UniqueNodes(hash, txids) && hash(a, b) == CalcHash(hash, txids, h, pos)
    ensures First(h - 1, 2 * pos) < |txids| && a == CalcHash(hash, txids, h - 1, 2 * pos)
    ensures b == if First(h - 1, 2 * pos + 1) < |txids| then CalcHash(hash, txids, h - 1, 2 * pos + 1) else a
  {
    Halves(h, pos);
    assert UniqueNode(hash, txids, h, pos);
  }

  /** A traversal of an inner node in terms of those of its children. */
  lemma {:induction false} ExtractInner<H>(
    hash: (H, H) -> H, zero: H, p: Partial<H>, h: nat, pos: nat, i: nat, j: nat, left: Walk<H>, right: Walk<H>)
    requires h > 0 && i < |p.bits| && p.bits[i] && left == Extract(hash, zero, p, h - 1, 2 * pos, i + 1, j)
    requires First(h - 1, 2 * pos + 1) < p.n ==>
      right == Extract(hash, zero, p, h - 1, 2 * pos + 1, left.bitsUsed, left.hashUsed)
    ensures Extract(hash, zero, p, h, pos, i, j) ==
      if First(h - 1, 2 * pos + 1) < p.n then Join(hash, left, right) else left.(root := hash(left.root, left.root))
  {
  }

  lemma {:induction false} ExtractStop<H>(
    hash: (H, H) -> H, zero: H, p: Partial<H>, h: nat, pos: nat, i: nat, j: nat)
    requires i < |p.bits| && (h == 0 || !p.bits[i]) && j < |p.hashes|
    ensures Extract(hash, zero, p, h, pos, i, j) ==
      Walk(p.hashes[j], i + 1, j + 1, false, if p.bits[i] then [(pos, p.hashes[j])] else [])
  {
  }

  /** A traversal that ends at a node takes its hash as given. */
  lemma {:induction false} LeafAuthentic<H(!new)>(
    hash: (H, H) -> H, zero: H, p: Partial<H>, txids: seq<H>, h: nat, pos: nat, i: nat, j: nat)
    requires First(h, pos) < |txids| && i < |p.bits| && (h == 0 || !p.bits[i])
    requires var w := Extract(hash, zero, p, h, pos, i, j); !w.bad && w.root == CalcHash(hash, txids, h, pos)
    ensures Genuine(Extract(hash, zero, p, h, pos, i, j).found, txids, First(h, pos), First(h, pos + 1))
  {
    FirstGrows(h, pos);
  }

  /** If an arbitrary traversal arrives at the true hash of a node, its matches are genuine, even where the number of
      transactions it was told is wrong. */
  lemma {:induction false} ExtractAuthentic<H(!new)>(
    hash: (H, H) -> H, zero: H, p: Partial<H>, txids: seq<H>, h: nat, pos: nat, i: nat, j: nat, w: Walk<H>)
    requires First(h, pos) < |txids| && UniqueNodes(hash, txids)
    requires w == Extract(hash, zero, p, h, pos, i, j) && !w.bad && w.root == CalcHash(hash, txids, h, pos)
    ensures Genuine(w.found, txids, First(h, pos), First(h, pos + 1))
    decreases h
  {
    if i < |p.bits| && h > 0 && p.bits[i] {
      Halves(h, pos);
      var left := Extract(hash, zero, p, h - 1, 2 * pos, i + 1, j);
      var right := Extract(hash, zero, p, h - 1, 2 * pos + 1, left.bitsUsed, left.hashUsed);
      ExtractInner(hash, zero, p, h, pos, i, j, left, right);
      BothAuthentic(hash, zero, p, txids, h, pos, i, j, w, left, right);
    } else if i < |p.bits| {
      LeafAuthentic(hash, zero, p, txids, h, pos, i, j);
    }
  }

  lemma {:induction false} BothAuthentic<H(!new)>(
    hash: (H, H) -> H, zero: H, p: Partial<H>, txids: seq<H>, h: nat, pos: nat, i: nat, j: nat,
    w: Walk<H>, left: Walk<H>, right: Walk<H>)
    requires h > 0 && First(h, pos) < |txids| && UniqueNodes(hash, txids)
    requires left == Extract(hash, zero, p, h - 1, 2 * pos, i + 1, j)
    requires right == Extract(hash, zero, p, h - 1, 2 * pos + 1, left.bitsUsed, left.hashUsed)
    requires !w.bad && w.root == CalcHash(hash, txids, h, pos)
    requires w == if First(h - 1, 2 * pos + 1) < p.n then Join(hash, left, right)
      else left.(root := hash(left.root, left.root))
    ensures Genuine(w.found, txids, First(h, pos), First(h, pos + 1))
    decreases h, 0
  {
    Halves(h, pos);
    var mid := First(h - 1, 2 * pos + 1);
    if mid < p.n {
      ChildrenTrue(hash, txids, h, pos, left.root, right.root);
      ExtractAuthentic(hash, zero, p, txids, h - 1, 2 * pos, i + 1, j, left);
      if mid < |txids| {
        ExtractAuthentic(hash, zero, p, txids, h - 1, 2 * pos + 1, left.bitsUsed, left.hashUsed, right);
        GenuineConcat(left.found, right.found, txids, First(h, pos), mid, First(h, pos + 1));
      }
    } else {
      ChildrenTrue(hash, txids, h, pos, left.root, left.root);
      ExtractAuthentic(hash, zero, p, txids, h - 1, 2 * pos, i + 1, j, left);
      GenuineWider(left.found, txids, First(h, pos), mid, First(h, pos + 1));
    }
  }

  /** Whatever the bits and hashes, an accepted tree with the true root shows only genuine matches. The number of
      transactions it announces need not be right, as long as it gives a tree of the right height. */
  lemma {:induction false} MatchesAuthentic<H(!new)>(hash: (H, H) -> H, zero: H, p: Partial<H>, txids: seq<H>)
    requires txids != [] && UniqueNodes(hash, txids) && HeightFrom(p.n, 0) == HeightFrom(|txids|, 0)
    requires var r := ExtractMatches(hash, zero, p); r.Some? && r.value.root == Root(hash, txids)
    ensures Genuine(ExtractMatches(hash, zero, p).value.found, txids, 0, |txids|)
  {
    var h := HeightFrom(|txids|, 0);
    RootCoversAll(|txids|, h);
    ExtractAuthentic(hash, zero, p, txids, h, 0, 0, 0, Extract(hash, zero, p, h, 0, 0, 0));
  }

  // ----- round trip -----

  /** The matched transactions among the leaves from `lo` to below `hi`, in order. */
  function Selected<H>(txids: seq<H>, vMatch: seq<bool>, lo: nat, hi: nat): seq<(nat, H)>
    requires hi <= |txids| == |vMatch|
    decreases hi - lo
  {
    if lo >= hi then [] else (if vMatch[lo] then [(lo, txids[lo])] else []) + Selected(txids, vMatch, lo + 1, hi)
  }

  lemma {:induction false} SelectedConcat<H>(txids: seq<H>, vMatch: seq<bool>, lo: nat, mid: nat, hi: nat)
    requires lo <= mid <= hi <= |txids| == |vMatch|
    ensures Selected(txids, vMatch, lo, hi) == Selected(txids, vMatch, lo, mid) + Selected(txids, vMatch, mid, hi)
    decreases mid - lo
  {
    if lo < mid {
      SelectedConcat(txids, vMatch, lo + 1, mid, hi);
    }
  }

  lemma {:induction false} SelectedNone<H>(txids: seq<H>, vMatch: seq<bool>, lo: nat, hi: nat)
    requires hi <= |txids| == |vMatch| && !AnyIn(vMatch, lo, hi)
    ensures Selected(txids, vMatch, lo, hi) == []
    decreases hi - lo
  {
    if lo < hi {
      SelectedNone(txids, vMatch, lo + 1, hi);
    }
  }

  /** Where the encoding descends into two children, their hashes differ. */
  predicate DistinctSiblings<H(==)>(hash: (H, H) -> H, txids: seq<H>, vMatch: seq<bool>, h: nat, pos: nat)
    requires First(h, pos) < |txids|
    decreases h
  {
    if h == 0 || !ParentOfMatch(vMatch, h, pos) then true else
      Halves(h, pos);
      && DistinctSiblings(hash, txids, vMatch, h - 1, 2 * pos)
      && (First(h - 1, 2 * pos + 1) < |txids| ==>
            && DistinctSiblings(hash, txids, vMatch, h - 1, 2 * pos + 1)
            && CalcHash(hash, txids, h - 1, 2 * pos) != CalcHash(hash, txids, h - 1, 2 * pos + 1))
  }

  predicate NoEqualSiblings<H(==)>(hash: (H, H) -> H, txids: seq<H>, vMatch: seq<bool>)
    requires txids != []
  {
    RootCoversAll(|txids|, HeightFrom(|txids|, 0));
    DistinctSiblings(hash, txids, vMatch, HeightFrom(|txids|, 0), 0)
  }

  /** A node yields at most one hash for each leaf under it, and at least one bit for each hash. */
  lemma {:induction false} BuildSize<H>(hash: (H, H) -> H, txids: seq<H>, vMatch: seq<bool>, h: nat, pos: nat)
    requires First(h, pos) < |txids|
    ensures var (bits, hashes) := Build(hash, txids, vMatch, h, pos);
      0 < |hashes| <= |bits| && |hashes| <= End(|txids|, h, pos) - First(h, pos)
    decreases h
  {
    FirstGrows(h, pos);
    if h > 0 && ParentOfMatch(vMatch, h, pos) {
      Halves(h, pos);
      BuildSize(hash, txids, vMatch, h - 1, 2 * pos);
      if First(h - 1, 2 * pos + 1) < |txids| {
        BuildSize(hash, txids, vMatch, h - 1, 2 * pos + 1);
      }
    }
  }

  /** What extraction has to make of the part Build wrote for a node. */
  function Recovered<H(==)>(hash: (H, H) -> H, txids: seq<H>, vMatch: seq<bool>, h: nat, pos: nat, i: nat,
    j: nat): Walk<H>
    requires |txids| == |vMatch| && First(h, pos) < |txids|
  {
    var (bits, hashes) := Build(hash, txids, vMatch, h, pos);
    Walk(CalcHash(hash, txids, h, pos), i + |bits|, j + |hashes|, !DistinctSiblings(hash, txids, vMatch, h, pos),
         Selected(txids, vMatch, First(h, pos), End(|txids|, h, pos)))
  }

  ghost predicate Holds<H>(
    hash: (H, H) -> H, p: Partial<H>, txids: seq<H>, vMatch: seq<bool>, h: nat, pos: nat, i: nat, j: nat) {
    && p.n == |txids| == |vMatch| && First(h, pos) < |txids|
    && var (bits, hashes) := Build(hash, txids, vMatch, h, pos);
      Reads(p.bits, i, bits) && Reads(p.hashes, j, hashes)
  }

  lemma {:induction false} ExtractStored<H>(
    hash: (H, H) -> H, zero: H, p: Partial<H>, txids: seq<H>, vMatch: seq<bool>, h: nat, pos: nat, i: nat, j: nat)
    requires Holds(hash, p, txids, vMatch, h, pos, i, j) && (h == 0 || !ParentOfMatch(vMatch, h, pos))
    ensures Extract(hash, zero, p, h, pos, i, j) == Recovered(hash, txids, vMatch, h, pos, i, j)
  {
    ReadsFirst(p.bits, i, ParentOfMatch(vMatch, h, pos), []);
    ReadsFirst(p.hashes, j, CalcHash(hash, txids, h, pos), []);
    if h == 0 {
      SelectedLeaf(txids, vMatch, pos);
    } else {
      SelectedNone(txids, vMatch, First(h, pos), End(|txids|, h, pos));
    }
  }

  /** Where the encoding descends, its parts are those of the children. */
  lemma {:induction false} HoldsChildren<H>(
    hash: (H, H) -> H, p: Partial<H>, txids: seq<H>, vMatch: seq<bool>, h: nat, pos: nat, i: nat, j: nat)
    requires Holds(hash, p, txids, vMatch, h, pos, i, j) && h > 0 && ParentOfMatch(vMatch, h, pos)
    ensures p.bits[i] && Holds(hash, p, txids, vMatch, h - 1, 2 * pos, i + 1, j)
    ensures var (bits, hashes) := Build(hash, txids, vMatch, h - 1, 2 * pos);
      First(h - 1, 2 * pos + 1) < |txids| ==>
        Holds(hash, p, txids, vMatch, h - 1, 2 * pos + 1, i + 1 + |bits|, j + |hashes|)
  {
    Halves(h, pos);
    var (bits0, hashes0) := Build(hash, txids, vMatch, h - 1, 2 * pos);
    if First(h - 1, 2 * pos + 1) < |txids| {
      var (bits1, hashes1) := Build(hash, txids, vMatch, h - 1, 2 * pos + 1);
      assert [true] + bits0 + bits1 == [true] + (bits0 + bits1);
      ReadsFirst(p.bits, i, true, bits0 + bits1);
      ReadsParts(p.bits, i + 1, bits0, bits1);
      ReadsParts(p.hashes, j, hashes0, hashes1);
    } else {
      ReadsFirst(p.bits, i, true, bits0);
    }
  }

  lemma {:induction false} RecoveredJoin<H>(
    hash: (H, H) -> H, txids: seq<H>, vMatch: seq<bool>, h: nat, pos: nat, i: nat, j: nat, left: Walk<H>)
    requires |txids| == |vMatch| && h > 0 && ParentOfMatch(vMatch, h, pos) && First(h - 1, 2 * pos + 1) < |txids|
    requires First(h - 1, 2 * pos) < |txids| && left == Recovered(hash, txids, vMatch, h - 1, 2 * pos, i + 1, j)
    ensures First(h, pos) < |txids|
    ensures Recovered(hash, txids, vMatch, h, pos, i, j) ==
      Join(hash, left, Recovered(hash, txids, vMatch, h - 1, 2 * pos + 1, left.bitsUsed, left.hashUsed))
  {
    Halves(h, pos);
    SelectedConcat(txids, vMatch, First(h, pos), First(h - 1, 2 * pos + 1), End(|txids|, h, pos));
    var right := Recovered(hash, txids, vMatch, h - 1, 2 * pos + 1, left.bitsUsed, left.hashUsed);
    var r := Recovered(hash, txids, vMatch, h, pos, i, j);
    assert r.found == left.found + right.found;
  }

  lemma {:induction false} RecoveredSingle<H>(
    hash: (H, H) -> H, txids: seq<H>, vMatch: seq<bool>, h: nat, pos: nat, i: nat, j: nat, left: Walk<H>)
    requires |txids| == |vMatch| && h > 0 && ParentOfMatch(vMatch, h, pos) && First(h - 1, 2 * pos + 1) >= |txids|
    requires First(h - 1, 2 * pos) < |txids| && left == Recovered(hash, txids, vMatch, h - 1, 2 * pos, i + 1, j)
    ensures First(h, pos) < |txids|
    ensures Recovered(hash, txids, vMatch, h, pos, i, j) == left.(root := hash(left.root, left.root))
  {
    Halves(h, pos);
  }

  /** The traversal of what Build wrote recomputes the hash, finds the matches and consumes exactly its part. */
  lemma {:induction false} ExtractBuilt<H>(
    hash: (H, H) -> H, zero: H, p: Partial<H>, txids: seq<H>, vMatch: seq<bool>, h: nat, pos: nat, i: nat, j: nat)
    requires Holds(hash, p, txids, vMatch, h, pos, i, j)
    ensures Extract(hash, zero, p, h, pos, i, j) == Recovered(hash, txids, vMatch, h, pos, i, j)
    decreases h
  {
    if h == 0 || !ParentOfMatch(vMatch, h, pos) {
      ExtractStored(hash, zero, p, txids, vMatch, h, pos, i, j);
    } else {
      HoldsChildren(hash, p, txids, vMatch, h, pos, i, j);
      ExtractBuilt(hash, zero, p, txids, vMatch, h - 1, 2 * pos, i + 1, j);
      var left := Recovered(hash, txids, vMatch, h - 1, 2 * pos, i + 1, j);
      if First(h - 1, 2 * pos + 1) < |txids| {
        ExtractBuilt(hash, zero, p, txids, vMatch, h - 1, 2 * pos + 1, left.bitsUsed, left.hashUsed);
        RecoveredJoin(hash, txids, vMatch, h, pos, i, j, left);
      } else {
        RecoveredSingle(hash, txids, vMatch, h, pos, i, j, left);
      }
    }
  }

  /** `part` stands in `s` from index `i` on. */
  ghost predicate Reads<T>(s: seq<T>, i: nat, part: seq<T>) {
    i + |part| <= |s| && s[i..i + |part|] == part
  }

  lemma {:induction false} ReadsParts<T>(s: seq<T>, i: nat, a: seq<T>, b: seq<T>)
    requires Reads(s, i, a + b)
    ensures Reads(s, i, a) && Reads(s, i + |a|, b)
  {
    var whole := s[i..i + |a + b|];
    assert whole[..|a|] == a && whole[|a|..] == b;
    assert s[i..i + |a|] == whole[..|a|];
    assert s[i + |a|..i + |a| + |b|] == whole[|a|..];
  }

  lemma {:induction false} ReadsFirst<T>(s: seq<T>, i: nat, x: T, rest: seq<T>)
    requires Reads(s, i, [x] + rest)
    ensures s[i] == x && Reads(s, i + 1, rest)
  {
    ReadsParts(s, i, [x], rest);
    assert s[i..i + 1][0] == s[i];
  }

  lemma {:induction false} SelectedLeaf<H>(txids: seq<H>, vMatch: seq<bool>, pos: nat)
    requires pos < |txids| == |vMatch|
    ensures Selected(txids, vMatch, pos, pos + 1) == if vMatch[pos] then [(pos, txids[pos])] else []
    ensures AnyIn(vMatch, pos, pos + 1) == vMatch[pos]
  {
    assert Selected(txids, vMatch, pos + 1, pos + 1) == [];
  }

  // ----- flag bits in bytes -----

  function Unpacked(bytes: seq<bv8>): (bits: seq<bool>)
    ensures |bits| == 8 * |bytes|
  {
    seq(8 * |bytes|, p requires 0 <= p < 8 * |bytes| => Bit(bytes[p / 8], p % 8))
  }

  /** Byte by byte, least significant bit first, `bytes` hold `bits` and then zeros. */
  ghost predicate IsPacked(bits: seq<bool>, bytes: seq<bv8>) {
    && |bytes| == (|bits| + 7) / 8
    && Unpacked(bytes) == bits + seq(8 * |bytes| - |bits|, _ => false)
  }

  /**
   * Building, packing, unpacking and extracting returns the Merkle root and exactly the matched transactions,
   * if and only if the list is within the limit and no two siblings on a descended path are equal;
   * otherwise the tree is rejected.
   */
  lemma {:induction false} RoundTrip<H>(hash: (H, H) -> H, zero: H, txids: seq<H>, vMatch: seq<bool>, bytes: seq<bv8>)
    requires |txids| == |vMatch| > 0
    requires var (bits, _) := BuildAll(hash, txids, vMatch); IsPacked(bits, bytes)
    ensures var (bits, hashes) := BuildAll(hash, txids, vMatch);
      ExtractMatches(hash, zero, Partial(|txids|, Unpacked(bytes), hashes)) ==
      if |txids| <= MAX_BLOCK_WEIGHT / MIN_TRANSACTION_WEIGHT && NoEqualSiblings(hash, txids, vMatch)
      then Some(Walk(Root(hash, txids), |bits|, |hashes|, false, Selected(txids, vMatch, 0, |txids|)))
      else None
  {
    var h := HeightFrom(|txids|, 0);
    RootCoversAll(|txids|, h);
    var (bits, hashes) := BuildAll(hash, txids, vMatch);
    BuildSize(hash, txids, vMatch, h, 0);
    assert Unpacked(bytes)[..|bits|] == bits;
    ExtractBuilt(hash, zero, Partial(|txids|, Unpacked(bytes), hashes), txids, vMatch, h, 0, 0, 0);
  }
}
