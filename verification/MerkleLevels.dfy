/** ComputeMerkleRoot (consensus/merkle.cpp), level by level, and the trees of merkleblock.cpp. */
module MerkleLevels {
  import opened Numbers
  import opened Merkle

  // ----- levels -----

  /** The hashes of neighbours in pairs, the last hash paired with itself if their number is odd. */
  function NextLevel<H>(hash: (H, H) -> H, s: seq<H>): (r: seq<H>)
    ensures |r| == (|s| + 1) / 2
  {
    seq((|s| + 1) / 2, i requires 0 <= i < (|s| + 1) / 2 =>
      hash(s[2 * i], if 2 * i + 1 < |s| then s[2 * i + 1] else s[2 * i]))
  }

  function Levels<H>(hash: (H, H) -> H, s: seq<H>): H
    requires s != []
    decreases |s|
  {
    if |s| == 1 then s[0] else Levels(hash, NextLevel(hash, s))
  }

  /** The hashes at `2 * i` and after it are equal. */
  predicate EqualPair<H(==)>(s: seq<H>, i: nat) {
    2 * i + 1 < |s| && s[2 * i] == s[2 * i + 1]
  }

  predicate SomePairEqual<H(==)>(s: seq<H>) {
    exists i {:trigger EqualPair(s, i)} :: 0 <= i < |s| && EqualPair(s, i)
  }

  /** Two neighbours that form a pair are equal, at some level. */
  predicate Mutated<H(==)>(hash: (H, H) -> H, s: seq<H>)
    decreases |s|
  {
    |s| > 1 && (SomePairEqual(s) || Mutated(hash, NextLevel(hash, s)))
  }

  // ----- the loop -----

  /** Whether two hashes that form a pair are equal. */
  method FindEqualPair<H(==)>(hashes: seq<H>) returns (mutation: bool)
    ensures mutation == SomePairEqual(hashes)
  {
    mutation := false;
    var pos := 0;
    ghost var n := 0;
    while pos + 1 < |hashes|
      invariant pos == 2 * n && 0 <= n <= |hashes|
      invariant mutation <==> exists i {:trigger EqualPair(hashes, i)} :: 0 <= i < n && EqualPair(hashes, i)
    {
      assert EqualPair(hashes, n) <==> hashes[pos] == hashes[pos + 1];
      if hashes[pos] == hashes[pos + 1] {
        mutation := true;
      }
      pos, n := pos + 2, n + 1;
    }
  }

  /** SHA256D64 over a list of even length. */
  method HashPairs<H>(hash: (H, H) -> H, hashes: seq<H>) returns (r: seq<H>)
    requires |hashes| % 2 == 0
    ensures r == NextLevel(hash, hashes)
  {
    r := [];
    var i := 0;
    while i < |hashes| / 2
      invariant 0 <= i <= |hashes| / 2 && |r| == i
      invariant forall k :: 0 <= k < i ==> r[k] == hash(hashes[2 * k], hashes[2 * k + 1])
    {
      r := r + [hash(hashes[2 * i], hashes[2 * i + 1])];
      i := i + 1;
    }
  }

  lemma {:induction false} LastTwice<H>(hash: (H, H) -> H, s: seq<H>)
    requires |s| % 2 == 1
    ensures NextLevel(hash, s + [s[|s| - 1]]) == NextLevel(hash, s)
  {
    var t := s + [s[|s| - 1]];
    forall i | 0 <= i < (|s| + 1) / 2
      ensures NextLevel(hash, t)[i] == NextLevel(hash, s)[i]
    {
    }
  }

  method ComputeMerkleRoot<H(==)>(hash: (H, H) -> H, zero: H, leaves: seq<H>) returns (root: H, mutated: bool)
    ensures leaves == [] ==> root == zero && !mutated
    ensures leaves != [] ==> root == Levels(hash, leaves) && mutated == Mutated(hash, leaves)
  {
    var hashes, mutation := leaves, false;
    while |hashes| > 1
      invariant hashes == [] <==> leaves == []
      invariant leaves != [] ==> Levels(hash, hashes) == Levels(hash, leaves)
      invariant mutation || Mutated(hash, hashes) <==> Mutated(hash, leaves)
      decreases |hashes|
    {
      ghost var level := hashes;
      var equal := FindEqualPair(hashes);
      mutation := mutation || equal;
      if |hashes| % 2 == 1 {
        LastTwice(hash, hashes);
        hashes := hashes + [hashes[|hashes| - 1]];
      }
      hashes := HashPairs(hash, hashes);
      assert hashes == NextLevel(hash, level);
    }
    mutated := mutation;
    root := if hashes == [] then zero else hashes[0];
  }

  // ----- the same tree, from above -----

  lemma {:induction false} FirstDouble(h: nat, pos: nat)
    ensures First(h + 1, pos) == 2 * First(h, pos)
  {
    FirstIs(h + 1, pos);
    FirstIs(h, pos);
    assert pos * (2 * Pow2(h)) == 2 * (pos * Pow2(h));
  }

  /** A node is over a list exactly if it is over the next level, one height lower. */
  lemma {:induction false} FirstNext(n: nat, h: nat, pos: nat)
    ensures First(h + 1, pos) < n <==> First(h, pos) < (n + 1) / 2
  {
    FirstDouble(h, pos);
  }

  lemma {:induction false} CalcHashUnfold<H>(hash: (H, H) -> H, txids: seq<H>, h: nat, pos: nat)
    requires First(h + 1, pos) < |txids|
    ensures First(h, 2 * pos) < |txids|
    ensures var left := CalcHash(hash, txids, h, 2 * pos);
      CalcHash(hash, txids, h + 1, pos) ==
        hash(left, if First(h, 2 * pos + 1) < |txids| then CalcHash(hash, txids, h, 2 * pos + 1) else left)
  {
    Halves(h + 1, pos);
  }

  /** A node has the hash of the node one height lower over the next level. */
  lemma {:induction false} CalcHashNext<H>(hash: (H, H) -> H, txids: seq<H>, h: nat, pos: nat)
    requires First(h + 1, pos) < |txids|
    ensures First(h, pos) < |NextLevel(hash, txids)|
    ensures CalcHash(hash, txids, h + 1, pos) == CalcHash(hash, NextLevel(hash, txids), h, pos)
  {
    var next := NextLevel(hash, txids);
    FirstNext(|txids|, h, pos);
    CalcHashUnfold(hash, txids, h, pos);
    if h > 0 {
      CalcHashNext(hash, txids, h - 1, 2 * pos);
      FirstNext(|txids|, h - 1, 2 * pos + 1);
      if First(h, 2 * pos + 1) < |txids| {
        CalcHashNext(hash, txids, h - 1, 2 * pos + 1);
      }
      CalcHashUnfold(hash, next, h - 1, pos);
    }
  }

  lemma {:induction false} WidthNext(n: nat, h: nat)
    ensures Width(n, h + 1) <= 1 <==> Width((n + 1) / 2, h) <= 1
  {
    WidthIff(n, h + 1, 1);
    WidthIff((n + 1) / 2, h, 1);
    FirstNext(n, h, 1);
  }

  lemma {:induction false} HeightNext(n: nat, h: nat)
    ensures HeightFrom(n, h + 1) == HeightFrom((n + 1) / 2, h) + 1
    decreases if h < n then n - h else 0
  {
    WidthNext(n, h);
    Shrinks(n, h + 1);
    if Width(n, h + 1) > 1 {
      HeightNext(n, h + 1);
    }
  }

  lemma {:induction false} HeightOfMany(n: nat)
    requires n > 1
    ensures HeightFrom(n, 0) == HeightFrom((n + 1) / 2, 0) + 1
  {
    HeightNext(n, 0);
    assert Width(n, 0) == n;
  }

  lemma {:induction false} RootNext<H>(hash: (H, H) -> H, txids: seq<H>)
    requires |txids| > 1
    ensures Root(hash, txids) == Root(hash, NextLevel(hash, txids))
  {
    HeightOfMany(|txids|);
    var h := HeightFrom(|txids|, 0) - 1;
    RootCoversAll(|txids|, h + 1);
    CalcHashNext(hash, txids, h, 0);
  }

  lemma {:induction false} RootOfOne<H>(hash: (H, H) -> H, txids: seq<H>, n: nat)
    requires |txids| == n == 1
    ensures Root(hash, txids) == txids[0]
  {
    assert Width(n, 0) == n;
  }

  /** The root that a partial tree is built for is the root of the block. */
  lemma {:induction false} RootIsLevels<H>(hash: (H, H) -> H, txids: seq<H>)
    requires txids != []
    ensures Root(hash, txids) == Levels(hash, txids)
    decreases |txids|
  {
    if |txids| == 1 {
      RootOfOne(hash, txids, |txids|);
    } else {
      RootNext(hash, txids);
      RootIsLevels(hash, NextLevel(hash, txids));
    }
  }

  // ----- equal siblings -----

  function All(n: nat): seq<bool> {
    seq(n, _ => true)
  }

  /** No pair of neighbours among the first level from `lo` to below `hi` is equal. */
  ghost predicate PairsDiffer<H>(s: seq<H>, lo: nat, hi: nat) {
    forall i {:trigger EqualPair(s, i)} :: lo <= 2 * i < hi ==> !EqualPair(s, i)
  }

  lemma {:induction false} AllMatch(n: nat, h: nat, pos: nat)
    requires First(h, pos) < n
    ensures ParentOfMatch(All(n), h, pos)
  {
    FirstGrows(h, pos);
    assert All(n)[First(h, pos)];
  }

  lemma {:induction false} SiblingsUnfold<H>(hash: (H, H) -> H, s: seq<H>, h: nat, pos: nat)
    requires First(h + 1, pos) < |s|
    ensures First(h, 2 * pos) < |s|
    ensures DistinctSiblings(hash, s, All(|s|), h + 1, pos) <==>
      && DistinctSiblings(hash, s, All(|s|), h, 2 * pos)
      && (First(h, 2 * pos + 1) < |s| ==>
           && DistinctSiblings(hash, s, All(|s|), h, 2 * pos + 1)
           && CalcHash(hash, s, h, 2 * pos) != CalcHash(hash, s, h, 2 * pos + 1))
  {
    Halves(h + 1, pos);
    AllMatch(|s|, h + 1, pos);
  }

  lemma {:induction false} PairsJoin<H>(s: seq<H>, lo: nat, mid: nat, hi: nat)
    requires lo <= mid <= hi
    ensures PairsDiffer(s, lo, hi) <==> PairsDiffer(s, lo, mid) && PairsDiffer(s, mid, hi)
  {
  }

  lemma {:induction false} PairsBeyond<H>(s: seq<H>, lo: nat, hi: nat)
    requires |s| <= lo
    ensures PairsDiffer(s, lo, hi)
  {
  }

  /** Siblings differ below a node exactly if they do over the next level, and the pairs of leaves do. */
  ghost predicate SiblingsAgree<H>(hash: (H, H) -> H, s: seq<H>, next: seq<H>, h: nat, pos: nat)
    requires First(h + 1, pos) < |s| && First(h, pos) < |next|
  {
    DistinctSiblings(hash, s, All(|s|), h + 1, pos) <==>
      DistinctSiblings(hash, next, All(|next|), h, pos) && PairsDiffer(s, First(h + 1, pos), First(h + 1, pos + 1))
  }

  lemma {:induction false} SiblingsOfLeaves<H>(hash: (H, H) -> H, s: seq<H>, next: seq<H>, pos: nat)
    requires First(1, pos) < |s| && First(0, pos) < |next|
    ensures SiblingsAgree(hash, s, next, 0, pos)
  {
    SiblingsUnfold(hash, s, 0, pos);
    Halves(1, pos);
    assert EqualPair(s, pos) <==> 2 * pos + 1 < |s| && s[2 * pos] == s[2 * pos + 1];
    forall i | First(1, pos) <= 2 * i < First(1, pos + 1)
      ensures i == pos
    {
    }
  }

  lemma {:induction false} SiblingsTwo<H>(hash: (H, H) -> H, s: seq<H>, next: seq<H>, h: nat, pos: nat)
    requires next == NextLevel(hash, s) && First(h + 1, 2 * pos + 1) < |s| && First(h, 2 * pos + 1) < |next|
    requires First(h + 1, 2 * pos) < |s| && First(h, 2 * pos) < |next|
    requires First(h + 2, pos) < |s| && First(h + 1, pos) < |next|
    requires SiblingsAgree(hash, s, next, h, 2 * pos) && SiblingsAgree(hash, s, next, h, 2 * pos + 1)
    ensures SiblingsAgree(hash, s, next, h + 1, pos)
  {
    Halves(h + 2, pos);
    SiblingsUnfold(hash, s, h + 1, pos);
    SiblingsUnfold(hash, next, h, pos);
    CalcHashNext(hash, s, h, 2 * pos);
    CalcHashNext(hash, s, h, 2 * pos + 1);
    PairsJoin(s, First(h + 2, pos), First(h + 1, 2 * pos + 1), First(h + 2, pos + 1));
  }

  lemma {:induction false} SiblingsOne<H>(hash: (H, H) -> H, s: seq<H>, next: seq<H>, h: nat, pos: nat)
    requires next == NextLevel(hash, s) && First(h + 1, 2 * pos + 1) >= |s| && First(h, 2 * pos + 1) >= |next|
    requires First(h + 1, 2 * pos) < |s| && First(h, 2 * pos) < |next|
    requires First(h + 2, pos) < |s| && First(h + 1, pos) < |next| && SiblingsAgree(hash, s, next, h, 2 * pos)
    ensures SiblingsAgree(hash, s, next, h + 1, pos)
  {
    Halves(h + 2, pos);
    SiblingsUnfold(hash, s, h + 1, pos);
    SiblingsUnfold(hash, next, h, pos);
    PairsJoin(s, First(h + 2, pos), First(h + 1, 2 * pos + 1), First(h + 2, pos + 1));
    PairsBeyond(s, First(h + 1, 2 * pos + 1), First(h + 2, pos + 1));
  }

  lemma {:induction false} SiblingsNext<H>(hash: (H, H) -> H, s: seq<H>, next: seq<H>, h: nat, pos: nat)
    requires First(h + 1, pos) < |s| && next == NextLevel(hash, s)
    ensures First(h, pos) < |next| && SiblingsAgree(hash, s, next, h, pos)
  {
    FirstNext(|s|, h, pos);
    if h == 0 {
      SiblingsOfLeaves(hash, s, next, pos);
    } else {
      Halves(h + 1, pos);
      FirstNext(|s|, h - 1, 2 * pos + 1);
      SiblingsNext(hash, s, next, h - 1, 2 * pos);
      if First(h, 2 * pos + 1) < |s| {
        SiblingsNext(hash, s, next, h - 1, 2 * pos + 1);
        SiblingsTwo(hash, s, next, h - 1, pos);
      } else {
        SiblingsOne(hash, s, next, h - 1, pos);
      }
    }
  }

  lemma {:induction false} PairsOfAll<H>(s: seq<H>, hi: nat)
    requires |s| <= hi
    ensures PairsDiffer(s, 0, hi) <==> !SomePairEqual(s)
  {
    if !PairsDiffer(s, 0, hi) {
      var i :| 0 <= 2 * i < hi && EqualPair(s, i);
      assert 0 <= i < |s|;
    }
  }

  lemma {:induction false} NoEqualNext<H>(hash: (H, H) -> H, txids: seq<H>, next: seq<H>)
    requires |txids| > 1 && next == NextLevel(hash, txids)
    ensures NoEqualSiblings(hash, txids, All(|txids|)) <==>
      !SomePairEqual(txids) && NoEqualSiblings(hash, next, All(|next|))
  {
    HeightOfMany(|txids|);
    var h := HeightFrom(|txids|, 0) - 1;
    RootCoversAll(|txids|, h + 1);
    SiblingsNext(hash, txids, next, h, 0);
    WidthIff(|txids|, h + 1, 1);
    PairsOfAll(txids, First(h + 1, 1));
  }

  lemma {:induction false} NoEqualOfOne<H>(hash: (H, H) -> H, txids: seq<H>, n: nat)
    requires |txids| == n == 1
    ensures NoEqualSiblings(hash, txids, All(n))
  {
    assert Width(n, 0) == n;
  }

  /** ComputeMerkleRoot reports a mutation exactly of those lists that, matched in full, are refused as partial
      trees. */
  lemma {:induction false} MutatedIsEqualSiblings<H>(hash: (H, H) -> H, txids: seq<H>)
    requires txids != []
    ensures Mutated(hash, txids) <==> !NoEqualSiblings(hash, txids, All(|txids|))
    decreases |txids|
  {
    if |txids| == 1 {
      NoEqualOfOne(hash, txids, |txids|);
    } else {
      NoEqualNext(hash, txids, NextLevel(hash, txids));
      MutatedIsEqualSiblings(hash, NextLevel(hash, txids));
    }
  }
}
