/** For which announced numbers of transactions the matches of a partial Merkle tree are genuine. */
module MerkleCounts {
  import opened Collections
  import opened Merkle

  /** No txid is the hash of a pair. */
  ghost predicate TxidsAreLeaves<H(!new)>(hash: (H, H) -> H, txids: seq<H>) {
    forall a, b, k :: 0 <= k < |txids| ==> hash(a, b) != txids[k]
  }

  // ----- a tree that is too high -----

  /** A traversal that is `d` levels too high arrives at a txid before it reaches a leaf, and matches nothing. */
  lemma {:induction false} TooHighFindsNothing<H(!new)>(
    hash: (H, H) -> H, zero: H, p: Partial<H>, txids: seq<H>, d: nat, h: nat, pos: nat, i: nat, j: nat, w: Walk<H>)
    requires d > 0 && First(h, pos) < |txids| && UniqueNodes(hash, txids) && TxidsAreLeaves(hash, txids)
    requires w == Extract(hash, zero, p, h + d, pos, i, j) && !w.bad && w.root == CalcHash(hash, txids, h, pos)
    ensures w.found == []
    decreases h
  {
    if i < |p.bits| && p.bits[i] {
      var left := Extract(hash, zero, p, h + d - 1, 2 * pos, i + 1, j);
      var right := Extract(hash, zero, p, h + d - 1, 2 * pos + 1, left.bitsUsed, left.hashUsed);
      ExtractInner(hash, zero, p, h + d, pos, i, j, left, right);
      var other := if First(h + d - 1, 2 * pos + 1) < p.n then right.root else left.root;
      assert w.root == hash(left.root, other);
      if h > 0 {
        ChildrenTrue(hash, txids, h, pos, left.root, other);
        TooHighFindsNothing(hash, zero, p, txids, d, h - 1, 2 * pos, i + 1, j, left);
        if First(h + d - 1, 2 * pos + 1) < p.n && First(h - 1, 2 * pos + 1) < |txids| {
          TooHighFindsNothing(hash, zero, p, txids, d, h - 1, 2 * pos + 1, left.bitsUsed, left.hashUsed, right);
        }
      }
    }
  }

  // ----- a tree that is too low -----

  /** The path to the first node of level `d`, from the node `h` levels above it. */
  function SpineBits(h: nat): (bits: seq<bool>)
    ensures |bits| == 2 * h + 1
  {
    if h == 0 then [true] else [true] + (SpineBits(h - 1) + [false])
  }

  function SpineHashes<H>(hash: (H, H) -> H, txids: seq<H>, d: nat, h: nat): (hashes: seq<H>)
    requires Spine(txids, d, h)
    ensures |hashes| == h + 1
  {
    if h == 0 then [CalcHash(hash, txids, d, 0)]
    else SpineHashes(hash, txids, d, h - 1) + [CalcHash(hash, txids, d + h - 1, 1)]
  }

  /** Above level `d`, up to `h` levels, the first node has a sibling. */
  predicate Spine<H>(txids: seq<H>, d: nat, h: nat) {
    First(d, 0) < |txids| && forall k :: d <= k < d + h ==> First(k, 1) < |txids| && First(k, 0) < |txids|
  }

  predicate SpineDistinct<H(==)>(hash: (H, H) -> H, txids: seq<H>, d: nat, h: nat)
    requires Spine(txids, d, h)
  {
    forall k :: d <= k < d + h ==> CalcHash(hash, txids, k, 0) != CalcHash(hash, txids, k, 1)
  }

  lemma {:induction false} FirstOfFirst(h: nat)
    ensures First(h, 0) == 0
  {
    FirstIs(h, 0);
  }

  lemma {:induction false} FirstHash<H>(hash: (H, H) -> H, txids: seq<H>, h: nat)
    requires h > 0 && First(h - 1, 1) < |txids|
    ensures First(h, 0) < |txids| && First(h - 1, 0) < |txids|
    ensures CalcHash(hash, txids, h, 0) == hash(CalcHash(hash, txids, h - 1, 0), CalcHash(hash, txids, h - 1, 1))
  {
    FirstOfFirst(h);
    FirstOfFirst(h - 1);
  }

  /** `p` holds, from bit `i` and hash `j` on, the path of `h` levels. */
  ghost predicate HoldsSpine<H>(hash: (H, H) -> H, p: Partial<H>, txids: seq<H>, d: nat, h: nat, i: nat, j: nat)
    requires Spine(txids, d, h)
  {
    Reads(p.bits, i, SpineBits(h)) && Reads(p.hashes, j, SpineHashes(hash, txids, d, h))
  }

  lemma {:induction false} SpineParts<H>(
    hash: (H, H) -> H, p: Partial<H>, txids: seq<H>, d: nat, h: nat, i: nat, j: nat)
    requires h > 0 && Spine(txids, d, h) && HoldsSpine(hash, p, txids, d, h, i, j)
    ensures HoldsSpine(hash, p, txids, d, h - 1, i + 1, j) && i + 2 * h < |p.bits| && j + h < |p.hashes|
    ensures p.bits[i] && !p.bits[i + 2 * h] && p.hashes[j + h] == CalcHash(hash, txids, d + h - 1, 1)
  {
    ReadsFirst(p.bits, i, true, SpineBits(h - 1) + [false]);
    ReadsParts(p.bits, i + 1, SpineBits(h - 1), [false]);
    ReadsFirst(p.bits, i + 2 * h, false, []);
    ReadsParts(p.hashes, j, SpineHashes(hash, txids, d, h - 1), [CalcHash(hash, txids, d + h - 1, 1)]);
    ReadsFirst(p.hashes, j + h, CalcHash(hash, txids, d + h - 1, 1), []);
  }

  function SpineWalk<H>(hash: (H, H) -> H, txids: seq<H>, d: nat, h: nat, i: nat, j: nat): Walk<H>
    requires First(d, 0) < |txids| && First(d + h, 0) < |txids|
  {
    Walk(CalcHash(hash, txids, d + h, 0), i + 2 * h + 1, j + h + 1, false, [(0, CalcHash(hash, txids, d, 0))])
  }

  /** The path is accepted, and its end is reported as the first transaction. */
  lemma {:induction false} SpineExtracts<H>(
    hash: (H, H) -> H, zero: H, p: Partial<H>, txids: seq<H>, d: nat, h: nat, i: nat, j: nat)
    requires Spine(txids, d, h) && SpineDistinct(hash, txids, d, h) && forall k :: 0 <= k < h ==> First(k, 1) < p.n
    requires HoldsSpine(hash, p, txids, d, h, i, j)
    ensures First(d + h, 0) < |txids| && Extract(hash, zero, p, h, 0, i, j) == SpineWalk(hash, txids, d, h, i, j)
    decreases h
  {
    FirstOfFirst(d + h);
    if h == 0 {
      ReadsFirst(p.bits, i, true, []);
      ReadsFirst(p.hashes, j, CalcHash(hash, txids, d, 0), []);
      ExtractStop(hash, zero, p, h, 0, i, j);
    } else {
      SpineParts(hash, p, txids, d, h, i, j);
      SpineExtracts(hash, zero, p, txids, d, h - 1, i + 1, j);
      SpineJoins(hash, zero, p, txids, d, h, i, j, SpineWalk(hash, txids, d, h - 1, i + 1, j));
    }
  }

  lemma {:induction false} SpineJoins<H>(
    hash: (H, H) -> H, zero: H, p: Partial<H>, txids: seq<H>, d: nat, h: nat, i: nat, j: nat, left: Walk<H>)
    requires h > 0 && Spine(txids, d, h) && SpineDistinct(hash, txids, d, h) && First(h - 1, 1) < p.n
    requires HoldsSpine(hash, p, txids, d, h, i, j) && First(d + h, 0) < |txids| && First(d + h - 1, 0) < |txids|
    requires left == Extract(hash, zero, p, h - 1, 0, i + 1, j) == SpineWalk(hash, txids, d, h - 1, i + 1, j)
    ensures Extract(hash, zero, p, h, 0, i, j) == SpineWalk(hash, txids, d, h, i, j)
  {
    SpineParts(hash, p, txids, d, h, i, j);
    var k := d + h - 1;
    var right := Walk(CalcHash(hash, txids, k, 1), i + 2 * h + 1, j + h + 1, false, []);
    ExtractStop(hash, zero, p, h - 1, 1, i + 2 * h, j + h);
    ExtractInner(hash, zero, p, h, 0, i, j, left, right);
    FirstHash(hash, txids, k + 1);
    EmptyAppend(left.found);
  }

  // ----- the counts -----

  ghost predicate Shown<H(!new)>(hash: (H, H) -> H, zero: H, txids: seq<H>, p: Partial<H>)
    requires txids != []
  {
    var r := ExtractMatches(hash, zero, p);
    r.Some? && r.value.root == Root(hash, txids) ==> Genuine(r.value.found, txids, 0, |txids|)
  }

  /** No accepted tree that announces `n` transactions and has the true root shows a match that is not genuine. */
  ghost predicate Authentic<H(!new)>(hash: (H, H) -> H, zero: H, txids: seq<H>, n: nat)
    requires txids != []
  {
    forall p: Partial<H> {:trigger Shown(hash, zero, txids, p)} :: p.n == n ==> Shown(hash, zero, txids, p)
  }

  /** Every level below the height has a second node. */
  lemma {:induction false} HeightLeast(n: nat, h: nat, k: nat)
    requires h <= k < HeightFrom(n, h)
    ensures First(k, 1) < n
    decreases k - h
  {
    if h < k {
      HeightLeast(n, h + 1, k);
    } else {
      WidthIff(n, h, 1);
    }
  }

  lemma {:induction false} LevelsHaveSiblings<H>(txids: seq<H>, d: nat, h: nat)
    requires txids != [] && d + h == HeightFrom(|txids|, 0)
    ensures Spine(txids, d, h)
  {
    FirstOfFirst(d);
    forall k | d <= k < d + h
      ensures First(k, 1) < |txids| && First(k, 0) < |txids|
    {
      HeightLeast(|txids|, 0, k);
      FirstOfFirst(k);
    }
  }

  lemma {:induction false} EnoughLeaves(n: nat, h: nat)
    requires n > 0 && h == HeightFrom(n, 0)
    ensures h + 1 <= n
  {
    if h > 0 {
      HeightLeast(n, 0, h - 1);
      FirstIs(h - 1, 1);
      Pow2Big(h - 1);
    }
  }

  predicate AllDiffer<H(==)>(txids: seq<H>) {
    forall i, j :: 0 <= i < j < |txids| ==> txids[i] != txids[j]
  }

  /** Over pairwise distinct txids the nodes of a level are pairwise distinct. */
  lemma {:induction false} NodesDiffer<H(!new)>(hash: (H, H) -> H, txids: seq<H>, h: nat, p: nat, q: nat)
    requires UniqueNodes(hash, txids) && AllDiffer(txids) && First(h, p) < |txids| && First(h, q) < |txids|
    requires CalcHash(hash, txids, h, p) == CalcHash(hash, txids, h, q)
    ensures p == q
    decreases h
  {
    if h > 0 {
      Halves(h, p);
      var left := CalcHash(hash, txids, h - 1, 2 * p);
      ChildrenTrue(hash, txids, h, q, left, RightHash(hash, txids, h, p, left));
      NodesDiffer(hash, txids, h - 1, 2 * p, 2 * q);
    }
  }

  lemma {:induction false} SpinesDiffer<H(!new)>(hash: (H, H) -> H, txids: seq<H>, d: nat, h: nat)
    requires UniqueNodes(hash, txids) && AllDiffer(txids) && Spine(txids, d, h)
    ensures SpineDistinct(hash, txids, d, h)
  {
    forall k | d <= k < d + h
      ensures CalcHash(hash, txids, k, 0) != CalcHash(hash, txids, k, 1)
    {
      if CalcHash(hash, txids, k, 0) == CalcHash(hash, txids, k, 1) {
        NodesDiffer(hash, txids, k, 0, 1);
        assert false;
      }
    }
  }

  /** The path to the first node `d` levels up is accepted if siblings differ on its way. */
  lemma {:induction false} SpineAccepted<H(!new)>(
    hash: (H, H) -> H, zero: H, txids: seq<H>, n: nat, d: nat, h: nat, p: Partial<H>)
    requires txids != [] && 0 < n <= MAX_BLOCK_WEIGHT / MIN_TRANSACTION_WEIGHT
    requires h == HeightFrom(n, 0) && d + h == HeightFrom(|txids|, 0)
    requires Spine(txids, d, h) && SpineDistinct(hash, txids, d, h)
    requires p == Partial(n, SpineBits(h), SpineHashes(hash, txids, d, h))
    ensures First(d + h, 0) < |txids| && ExtractMatches(hash, zero, p) == Some(SpineWalk(hash, txids, d, h, 0, 0))
  {
    EnoughLeaves(n, h);
    forall k | 0 <= k < h
      ensures First(k, 1) < n
    {
      HeightLeast(n, 0, k);
    }
    SpineExtracts(hash, zero, p, txids, d, h, 0, 0);
  }

  /** A count that gives too low a tree: the path to an inner node passes for a transaction. */
  lemma {:induction false} TooLowAccepted<H(!new)>(hash: (H, H) -> H, zero: H, txids: seq<H>, n: nat)
    requires txids != [] && UniqueNodes(hash, txids) && TxidsAreLeaves(hash, txids) && AllDiffer(txids)
    requires 0 < n <= MAX_BLOCK_WEIGHT / MIN_TRANSACTION_WEIGHT && HeightFrom(n, 0) < HeightFrom(|txids|, 0)
    ensures !Authentic(hash, zero, txids, n)
  {
    var h := HeightFrom(n, 0);
    var d := HeightFrom(|txids|, 0) - h;
    LevelsHaveSiblings(txids, d, h);
    SpinesDiffer(hash, txids, d, h);
    var p := Partial(n, SpineBits(h), SpineHashes(hash, txids, d, h));
    SpineAccepted(hash, zero, txids, n, d, h, p);
    InnerIsNoTxid(hash, txids, d);
    FalseMatch(txids, CalcHash(hash, txids, d, 0));
    assert !Shown(hash, zero, txids, p);
  }

  lemma {:induction false} FalseMatch<H>(txids: seq<H>, x: H)
    requires txids != [] && x != txids[0]
    ensures !Genuine([(0, x)], txids, 0, |txids|)
  {
    var found: seq<(nat, H)> := [(0, x)];
    assert found[0] == (0, x);
  }

  lemma {:induction false} InnerIsNoTxid<H(!new)>(hash: (H, H) -> H, txids: seq<H>, d: nat)
    requires txids != [] && d > 0 && First(d, 0) < |txids| && TxidsAreLeaves(hash, txids)
    ensures CalcHash(hash, txids, d, 0) != txids[0]
  {
    FirstOfFirst(d - 1);
    var left := CalcHash(hash, txids, d - 1, 0);
    var right := if First(d - 1, 1) < |txids| then CalcHash(hash, txids, d - 1, 1) else left;
    assert CalcHash(hash, txids, d, 0) == hash(left, right);
  }

  lemma {:induction false} TooHighShown<H(!new)>(hash: (H, H) -> H, zero: H, txids: seq<H>, p: Partial<H>)
    requires txids != [] && UniqueNodes(hash, txids) && TxidsAreLeaves(hash, txids)
    requires HeightFrom(p.n, 0) > HeightFrom(|txids|, 0)
    ensures Shown(hash, zero, txids, p)
  {
    var h := HeightFrom(|txids|, 0);
    var d := HeightFrom(p.n, 0) - h;
    RootCoversAll(|txids|, h);
    var w := Extract(hash, zero, p, h + d, 0, 0, 0);
    if !w.bad && w.root == Root(hash, txids) {
      TooHighFindsNothing(hash, zero, p, txids, d, h, 0, 0, 0, w);
    }
  }

  /**
   * The number of transactions is read from the peer. Where the txids differ and none is the hash of a pair, the
   * announced numbers for which every accepted tree shows only genuine matches are exactly those whose tree is not
   * lower than the true one.
   */
  lemma {:induction false} CountExact<H(!new)>(hash: (H, H) -> H, zero: H, txids: seq<H>, n: nat)
    requires txids != [] && UniqueNodes(hash, txids) && TxidsAreLeaves(hash, txids) && AllDiffer(txids)
    requires 0 < n <= MAX_BLOCK_WEIGHT / MIN_TRANSACTION_WEIGHT
    ensures Authentic(hash, zero, txids, n) <==> HeightFrom(n, 0) >= HeightFrom(|txids|, 0)
  {
    if HeightFrom(n, 0) < HeightFrom(|txids|, 0) {
      TooLowAccepted(hash, zero, txids, n);
    } else {
      forall p: Partial<H> | p.n == n
        ensures Shown(hash, zero, txids, p)
      {
        if HeightFrom(n, 0) > HeightFrom(|txids|, 0) {
          TooHighShown(hash, zero, txids, p);
        } else {
          var r := ExtractMatches(hash, zero, p);
          if r.Some? && r.value.root == Root(hash, txids) {
            MatchesAuthentic(hash, zero, p, txids);
          }
        }
      }
    }
  }
}
