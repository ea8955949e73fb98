/** When an accepted partial Merkle tree is the one the encoder makes (merkleblock.cpp). */
module MerkleCanonical {
  import opened Collections
  import opened Numbers
  import opened Merkle

  /** Wherever the traversal descends, it finds a match. */
  predicate Purposeful<H(==)>(hash: (H, H) -> H, zero: H, p: Partial<H>, h: nat, pos: nat, i: nat, j: nat)
    decreases h
  {
    if i >= |p.bits| || h == 0 || !p.bits[i] then true else
      var left := Extract(hash, zero, p, h - 1, 2 * pos, i + 1, j);
      && Extract(hash, zero, p, h, pos, i, j).found != []
      && Purposeful(hash, zero, p, h - 1, 2 * pos, i + 1, j)
      && (First(h - 1, 2 * pos + 1) < p.n ==>
           Purposeful(hash, zero, p, h - 1, 2 * pos + 1, left.bitsUsed, left.hashUsed))
  }

  /** The match at index `k` is listed. */
  predicate Lists<H>(found: seq<(nat, H)>, k: nat) {
    exists m :: 0 <= m < |found| && found[m].0 == k
  }

  /** From `lo` to below `hi`, `vMatch` marks the listed indices. */
  ghost predicate Marks<H>(vMatch: seq<bool>, found: seq<(nat, H)>, lo: nat, hi: nat) {
    forall k {:trigger Lists(found, k)} :: lo <= k < hi && k < |vMatch| ==> (vMatch[k] <==> Lists(found, k))
  }

  lemma {:induction false} MarksLeft<H>(
    vMatch: seq<bool>, a: seq<(nat, H)>, b: seq<(nat, H)>, txids: seq<H>, lo: nat, mid: nat, hi: nat)
    requires Marks(vMatch, a + b, lo, hi) && lo <= mid <= hi
    requires Genuine(a, txids, lo, mid) && Genuine(b, txids, mid, hi)
    ensures Marks(vMatch, a, lo, mid) && Marks(vMatch, b, mid, hi)
  {
    var c := a + b;
    forall k | lo <= k < hi
      ensures Lists(c, k) <==> Lists(a, k) || Lists(b, k)
    {
      if Lists(a, k) {
        var m :| 0 <= m < |a| && a[m].0 == k;
        assert c[m].0 == k;
      }
      if Lists(b, k) {
        var m :| 0 <= m < |b| && b[m].0 == k;
        assert c[|a| + m].0 == k;
      }
    }
    assert forall k :: lo <= k < mid ==> !Lists(b, k);
    assert forall k :: mid <= k < hi ==> !Lists(a, k);
  }

  /** `p` stands from bit `i` and hash `j` on as the encoder writes a node, to the cursors of `w`. */
  ghost predicate Written<H>(hash: (H, H) -> H, p: Partial<H>, txids: seq<H>, vMatch: seq<bool>, h: nat, pos: nat,
    i: nat, j: nat, w: Walk<H>)
    requires First(h, pos) < |txids|
  {
    && i <= w.bitsUsed <= |p.bits| && j <= w.hashUsed <= |p.hashes|
    && Build(hash, txids, vMatch, h, pos) == (p.bits[i..w.bitsUsed], p.hashes[j..w.hashUsed])
  }

  lemma {:induction false} StopWritten<H(!new)>(hash: (H, H) -> H, zero: H, p: Partial<H>, txids: seq<H>,
    vMatch: seq<bool>, h: nat, pos: nat, i: nat, j: nat, w: Walk<H>)
    requires First(h, pos) < |txids| == |vMatch| && i < |p.bits| && (h == 0 || !p.bits[i])
    requires w == Extract(hash, zero, p, h, pos, i, j) && !w.bad && w.root == CalcHash(hash, txids, h, pos)
    requires Marks(vMatch, w.found, First(h, pos), First(h, pos + 1))
    ensures Written(hash, p, txids, vMatch, h, pos, i, j, w)
  {
    FirstGrows(h, pos);
    if p.bits[i] {
      assert w.found[0].0 == pos;
      assert Lists(w.found, pos) && vMatch[pos];
      assert ParentOfMatch(vMatch, h, pos);
    } else {
      forall k | First(h, pos) <= k < First(h, pos + 1) && k < |vMatch|
        ensures !vMatch[k]
      {
        assert !Lists(w.found, k);
      }
    }
    assert p.bits[i..i + 1] == [p.bits[i]] && p.hashes[j..j + 1] == [p.hashes[j]];
  }

  lemma {:induction false} BuildInner<H>(hash: (H, H) -> H, txids: seq<H>, vMatch: seq<bool>, h: nat, pos: nat)
    requires h > 0 && First(h, pos) < |txids| && ParentOfMatch(vMatch, h, pos)
    ensures First(h - 1, 2 * pos) < |txids|
    ensures var (bits, hashes) := Build(hash, txids, vMatch, h - 1, 2 * pos);
      Build(hash, txids, vMatch, h, pos) ==
        if First(h - 1, 2 * pos + 1) < |txids| then
          var (bits', hashes') := Build(hash, txids, vMatch, h - 1, 2 * pos + 1);
          ([true] + bits + bits', hashes + hashes')
        else ([true] + bits, hashes)
  {
    Halves(h, pos);
  }

  lemma {:induction false} Glue<T>(s: seq<T>, i: nat, k: nat, l: nat)
    requires i <= k <= l <= |s|
    ensures s[i..k] + s[k..l] == s[i..l]
  {
  }

  lemma {:induction false} GlueFirst<T>(s: seq<T>, i: nat, k: nat)
    requires i < k <= |s|
    ensures [s[i]] + s[i + 1..k] == s[i..k]
  {
  }

  lemma {:induction false} ListedMatches<H>(
    vMatch: seq<bool>, found: seq<(nat, H)>, txids: seq<H>, h: nat, pos: nat)
    requires found != [] && |txids| == |vMatch| && Genuine(found, txids, First(h, pos), First(h, pos + 1))
    requires Marks(vMatch, found, First(h, pos), First(h, pos + 1))
    ensures ParentOfMatch(vMatch, h, pos)
  {
    var k := found[0].0;
    assert Lists(found, k) && vMatch[k];
  }

  lemma {:induction false} JoinWritten<H(!new)>(hash: (H, H) -> H, p: Partial<H>, txids: seq<H>,
    vMatch: seq<bool>, h: nat, pos: nat, i: nat, j: nat, w: Walk<H>, left: Walk<H>)
    requires h > 0 && First(h, pos) < |txids| && i < |p.bits| && p.bits[i] && ParentOfMatch(vMatch, h, pos)
    requires First(h - 1, 2 * pos) < |txids| && Written(hash, p, txids, vMatch, h - 1, 2 * pos, i + 1, j, left)
    requires First(h - 1, 2 * pos + 1) < |txids| ==>
      Written(hash, p, txids, vMatch, h - 1, 2 * pos + 1, left.bitsUsed, left.hashUsed, w)
    requires First(h - 1, 2 * pos + 1) >= |txids| ==> w.bitsUsed == left.bitsUsed && w.hashUsed == left.hashUsed
    ensures Written(hash, p, txids, vMatch, h, pos, i, j, w)
  {
    BuildInner(hash, txids, vMatch, h, pos);
    GlueFirst(p.bits, i, left.bitsUsed);
    if First(h - 1, 2 * pos + 1) < |txids| {
      Glue(p.bits, i, left.bitsUsed, w.bitsUsed);
      Glue(p.hashes, j, left.hashUsed, w.hashUsed);
    }
  }

  /** A traversal that arrives at the true hash of a node, and descends only to matches, reads what the encoder writes
      for those matches. */
  lemma {:induction false} PurposefulWritten<H(!new)>(hash: (H, H) -> H, zero: H, p: Partial<H>, txids: seq<H>,
    vMatch: seq<bool>, h: nat, pos: nat, i: nat, j: nat, w: Walk<H>)
    requires First(h, pos) < |txids| == |vMatch| == p.n && UniqueNodes(hash, txids)
    requires w == Extract(hash, zero, p, h, pos, i, j) && !w.bad && w.root == CalcHash(hash, txids, h, pos)
    requires Marks(vMatch, w.found, First(h, pos), First(h, pos + 1)) && Purposeful(hash, zero, p, h, pos, i, j)
    ensures Written(hash, p, txids, vMatch, h, pos, i, j, w)
    decreases h
  {
    if h == 0 || !p.bits[i] {
      StopWritten(hash, zero, p, txids, vMatch, h, pos, i, j, w);
    } else {
      Halves(h, pos);
      ExtractAuthentic(hash, zero, p, txids, h, pos, i, j, w);
      ListedMatches(vMatch, w.found, txids, h, pos);
      var left := Extract(hash, zero, p, h - 1, 2 * pos, i + 1, j);
      var right := Extract(hash, zero, p, h - 1, 2 * pos + 1, left.bitsUsed, left.hashUsed);
      ExtractInner(hash, zero, p, h, pos, i, j, left, right);
      ChildrenWritten(hash, zero, p, txids, vMatch, h, pos, i, j, w, left, right);
    }
  }

  lemma {:induction false} ChildrenWritten<H(!new)>(hash: (H, H) -> H, zero: H, p: Partial<H>, txids: seq<H>,
    vMatch: seq<bool>, h: nat, pos: nat, i: nat, j: nat, w: Walk<H>, left: Walk<H>, right: Walk<H>)
    requires h > 0 && First(h, pos) < |txids| == |vMatch| == p.n && UniqueNodes(hash, txids)
    requires i < |p.bits| && p.bits[i] && ParentOfMatch(vMatch, h, pos)
    requires left == Extract(hash, zero, p, h - 1, 2 * pos, i + 1, j)
    requires right == Extract(hash, zero, p, h - 1, 2 * pos + 1, left.bitsUsed, left.hashUsed)
    requires !w.bad && w.root == CalcHash(hash, txids, h, pos)
    requires w == if First(h - 1, 2 * pos + 1) < p.n then Join(hash, left, right)
      else left.(root := hash(left.root, left.root))
    requires Marks(vMatch, w.found, First(h, pos), First(h, pos + 1))
    requires Purposeful(hash, zero, p, h - 1, 2 * pos, i + 1, j)
    requires First(h - 1, 2 * pos + 1) < p.n ==>
      Purposeful(hash, zero, p, h - 1, 2 * pos + 1, left.bitsUsed, left.hashUsed)
    ensures Written(hash, p, txids, vMatch, h, pos, i, j, w)
    decreases h, 0
  {
    Halves(h, pos);
    var mid := First(h - 1, 2 * pos + 1);
    if mid < p.n {
      ChildrenTrue(hash, txids, h, pos, left.root, right.root);
      ExtractAuthentic(hash, zero, p, txids, h - 1, 2 * pos, i + 1, j, left);
      ExtractAuthentic(hash, zero, p, txids, h - 1, 2 * pos + 1, left.bitsUsed, left.hashUsed, right);
      MarksLeft(vMatch, left.found, right.found, txids, First(h, pos), mid, First(h, pos + 1));
      PurposefulWritten(hash, zero, p, txids, vMatch, h - 1, 2 * pos, i + 1, j, left);
      PurposefulWritten(hash, zero, p, txids, vMatch, h - 1, 2 * pos + 1, left.bitsUsed, left.hashUsed, right);
    } else {
      ChildrenTrue(hash, txids, h, pos, left.root, left.root);
      PurposefulWritten(hash, zero, p, txids, vMatch, h - 1, 2 * pos, i + 1, j, left);
    }
    JoinWritten(hash, p, txids, vMatch, h, pos, i, j, w, left);
  }

  lemma {:induction false} SelectedSome<H>(txids: seq<H>, vMatch: seq<bool>, lo: nat, hi: nat)
    requires hi <= |txids| == |vMatch| && AnyIn(vMatch, lo, hi)
    ensures Selected(txids, vMatch, lo, hi) != []
    decreases hi - lo
  {
    if lo < hi && !vMatch[lo] {
      SelectedSome(txids, vMatch, lo + 1, hi);
    }
  }

  lemma {:induction false} DescentFinds<H>(
    hash: (H, H) -> H, zero: H, p: Partial<H>, txids: seq<H>, vMatch: seq<bool>, h: nat, pos: nat, i: nat, j: nat)
    requires Holds(hash, p, txids, vMatch, h, pos, i, j) && i < |p.bits| && p.bits[i]
    ensures ParentOfMatch(vMatch, h, pos) && Extract(hash, zero, p, h, pos, i, j).found != []
  {
    var bits := Build(hash, txids, vMatch, h, pos).0;
    assert bits[0] == p.bits[i..i + |bits|][0];
    ExtractBuilt(hash, zero, p, txids, vMatch, h, pos, i, j);
    SelectedSome(txids, vMatch, First(h, pos), End(|txids|, h, pos));
  }

  lemma {:induction false} PurposefulInner<H>(
    hash: (H, H) -> H, zero: H, p: Partial<H>, h: nat, pos: nat, i: nat, j: nat, left: Walk<H>)
    requires h > 0 && left == Extract(hash, zero, p, h - 1, 2 * pos, i + 1, j)
    requires Extract(hash, zero, p, h, pos, i, j).found != []
    requires Purposeful(hash, zero, p, h - 1, 2 * pos, i + 1, j)
    requires First(h - 1, 2 * pos + 1) < p.n ==>
      Purposeful(hash, zero, p, h - 1, 2 * pos + 1, left.bitsUsed, left.hashUsed)
    ensures Purposeful(hash, zero, p, h, pos, i, j)
  {
  }

  /** The cursors after the left child are where the right child stands. */
  lemma {:induction false} RightHeld<H>(hash: (H, H) -> H, zero: H, p: Partial<H>, txids: seq<H>, vMatch: seq<bool>,
    h: nat, pos: nat, i: nat, j: nat, left: Walk<H>)
    requires Holds(hash, p, txids, vMatch, h, pos, i, j) && h > 0 && ParentOfMatch(vMatch, h, pos)
    requires left == Extract(hash, zero, p, h - 1, 2 * pos, i + 1, j)
    ensures Holds(hash, p, txids, vMatch, h - 1, 2 * pos, i + 1, j)
    ensures First(h - 1, 2 * pos + 1) < p.n ==>
      Holds(hash, p, txids, vMatch, h - 1, 2 * pos + 1, left.bitsUsed, left.hashUsed)
  {
    HoldsChildren(hash, p, txids, vMatch, h, pos, i, j);
    ExtractBuilt(hash, zero, p, txids, vMatch, h - 1, 2 * pos, i + 1, j);
  }

  /** What the encoder writes descends only to matches. */
  lemma {:induction false} WrittenPurposeful<H>(
    hash: (H, H) -> H, zero: H, p: Partial<H>, txids: seq<H>, vMatch: seq<bool>, h: nat, pos: nat, i: nat, j: nat)
    requires Holds(hash, p, txids, vMatch, h, pos, i, j)
    ensures Purposeful(hash, zero, p, h, pos, i, j)
    decreases h
  {
    if i < |p.bits| && h > 0 && p.bits[i] {
      DescentFinds(hash, zero, p, txids, vMatch, h, pos, i, j);
      var left := Extract(hash, zero, p, h - 1, 2 * pos, i + 1, j);
      RightHeld(hash, zero, p, txids, vMatch, h, pos, i, j, left);
      WrittenPurposeful(hash, zero, p, txids, vMatch, h - 1, 2 * pos, i + 1, j);
      if First(h - 1, 2 * pos + 1) < p.n {
        WrittenPurposeful(hash, zero, p, txids, vMatch, h - 1, 2 * pos + 1, left.bitsUsed, left.hashUsed);
      }
      PurposefulInner(hash, zero, p, h, pos, i, j, left);
    }
  }

  lemma {:induction false} CursorsBelow<H>(hash: (H, H) -> H, zero: H, p: Partial<H>, h: nat, pos: nat, i: nat, j: nat)
    requires i <= |p.bits| && j <= |p.hashes|
    ensures var w := Extract(hash, zero, p, h, pos, i, j);
      i <= w.bitsUsed <= |p.bits| && j <= w.hashUsed <= |p.hashes|
    decreases h
  {
    if i < |p.bits| && h > 0 && p.bits[i] {
      CursorsBelow(hash, zero, p, h - 1, 2 * pos, i + 1, j);
      var left := Extract(hash, zero, p, h - 1, 2 * pos, i + 1, j);
      CursorsBelow(hash, zero, p, h - 1, 2 * pos + 1, left.bitsUsed, left.hashUsed);
    }
  }

  /** An accepted tree with the true root and count carries exactly the hashes and, up to padding, the bits that the
      encoder writes for its matches, if and only if no bit sends the traversal below a node without a match. */
  lemma {:induction false} AcceptedCanonical<H(!new)>(
    hash: (H, H) -> H, zero: H, p: Partial<H>, txids: seq<H>, vMatch: seq<bool>, w: Walk<H>)
    requires |txids| == |vMatch| == p.n > 0 && UniqueNodes(hash, txids)
    requires ExtractMatches(hash, zero, p) == Some(w) && w.root == Root(hash, txids)
    requires Marks(vMatch, w.found, 0, |txids|)
    ensures w.bitsUsed <= |p.bits| < w.bitsUsed + 8 && w.hashUsed == |p.hashes|
    ensures BuildAll(hash, txids, vMatch) == (p.bits[..w.bitsUsed], p.hashes) <==>
      Purposeful(hash, zero, p, HeightFrom(p.n, 0), 0, 0, 0)
  {
    var h := HeightFrom(|txids|, 0);
    RootCoversAll(|txids|, h);
    CursorsBelow(hash, zero, p, h, 0, 0, 0);
    WholeParts(p.bits, w.bitsUsed);
    WholeParts(p.hashes, |p.hashes|);
    if Purposeful(hash, zero, p, h, 0, 0, 0) {
      PurposefulWritten(hash, zero, p, txids, vMatch, h, 0, 0, 0, w);
    }
    if BuildAll(hash, txids, vMatch) == (p.bits[..w.bitsUsed], p.hashes) {
      WrittenPurposeful(hash, zero, p, txids, vMatch, h, 0, 0, 0);
    }
  }

  lemma {:induction false} WholeParts<T>(s: seq<T>, n: nat)
    requires n <= |s|
    ensures s[0..n] == s[..n] && |s[..n]| == n && Reads(s, 0, s[..n]) && (n == |s| ==> s[..n] == s)
  {
  }

  /** Not every accepted tree is of that form: this one descends to two leaves, matches neither and is accepted, where
      the encoder writes a single bit and the root. */
  lemma {:induction false} IdleDescentAccepted<H>(hash: (H, H) -> H, zero: H, a: H, b: H, p: Partial<H>)
    requires a != b && p == Partial(2, [true, false, false], [a, b])
    ensures ExtractMatches(hash, zero, p) == Some(Walk(Root(hash, [a, b]), 3, 2, false, []))
    ensures BuildAll(hash, [a, b], [false, false]) == ([false], [Root(hash, [a, b])])
  {
    OneHigh(p.n);
    var left, right := Walk(a, 2, 1, false, []), Walk(b, 3, 2, false, []);
    ExtractStop(hash, zero, p, 0, 0, 1, 0);
    ExtractStop(hash, zero, p, 0, 1, 2, 1);
    ExtractInner(hash, zero, p, 1, 0, 0, 0, left, right);
    assert Extract(hash, zero, p, 1, 0, 0, 0) == Walk(hash(a, b), 3, 2, false, []);
    assert |[a, b]| == p.n && CalcHash(hash, [a, b], 1, 0) == hash(a, b);
  }

  lemma {:induction false} OneHigh(n: nat)
    requires n == 2
    ensures HeightFrom(n, 0) == 1
  {
    assert Pow2(0) == 1 && Pow2(1) == 2;
    assert Width(n, 0) == 2 && Width(n, 1) == 1;
  }

  // ----- limits and packing -----

  /** No transactions, more than fit a block of 4000000 weight, more hashes than transactions, or more hashes than bits:
      such trees are refused unread. */
  lemma {:induction false} OutOfBounds<H>(hash: (H, H) -> H, zero: H, p: Partial<H>)
    requires p.n == 0 || p.n > 16666 || |p.hashes| > p.n || |p.bits| < |p.hashes|
    ensures ExtractMatches(hash, zero, p) == None
  {
  }

  /** Bits are packed from the least significant bit of each byte on. */
  lemma {:induction false} UnpackedAt(bytes: seq<bv8>, i: nat)
    requires i < |bytes|
    ensures var (bits, b, n) := (Unpacked(bytes), bytes[i], 8 * i);
      && bits[n] == (b & 0x01 != 0) && bits[n + 1] == (b & 0x02 != 0)
      && bits[n + 2] == (b & 0x04 != 0) && bits[n + 3] == (b & 0x08 != 0)
      && bits[n + 4] == (b & 0x10 != 0) && bits[n + 5] == (b & 0x20 != 0)
      && bits[n + 6] == (b & 0x40 != 0) && bits[n + 7] == (b & 0x80 != 0)
  {
  }
}
