/** CPartialMerkleTree itself: bits, hashes and the failure flag updated in place. */
module MerkleBlock {
  import opened Numbers
  import opened Bits
  import opened Merkle
  import M = Merkle

  function Txids<H>(found: seq<(nat, H)>): seq<H> {
    seq(|found|, k requires 0 <= k < |found| => found[k].1)
  }

  function Indices<H>(found: seq<(nat, H)>): seq<nat> {
    seq(|found|, k requires 0 <= k < |found| => found[k].0)
  }

  lemma {:induction false} FoundConcat<H>(vMatch: seq<H>, vnIndex: seq<nat>, a: seq<(nat, H)>, b: seq<(nat, H)>)
    ensures vMatch + Txids(a) + Txids(b) == vMatch + Txids(a + b)
    ensures vnIndex + Indices(a) + Indices(b) == vnIndex + Indices(a + b)
  {
  }

  lemma {:induction false} FoundFew<H>(vMatch: seq<H>, vnIndex: seq<nat>, pos: nat, txid: H)
    ensures vMatch + Txids([]) == vMatch && vnIndex + Indices<H>([]) == vnIndex
    ensures vMatch + Txids([(pos, txid)]) == vMatch + [txid] && vnIndex + Indices([(pos, txid)]) == vnIndex + [pos]
  {
  }

  lemma {:induction false} BuiltConcat<T>(a: seq<T>, b: seq<T>, c: seq<T>, d: seq<T>)
    ensures a + b + c + d == a + (b + c + d) && a + [] == a && c + [] == c && [] + c == c && b + c + [] == b + c
  {
  }

  class CPartialMerkleTree<H(==)> {
    const hash: (H, H) -> H
    const zero: H   // uint256()
    var nTransactions: nat
    var vBits: seq<bool>
    var vHash: seq<H>
    var fBad: bool

    function CalcTreeWidth(height: nat): nat
      reads this
    {
      Width(nTransactions, height)
    }

    constructor (hash: (H, H) -> H, zero: H, vTxid: seq<H>, vMatch: seq<bool>)
      requires |vTxid| == |vMatch| > 0
      ensures this.hash == hash && this.zero == zero && nTransactions == |vTxid| && !fBad
      ensures (vBits, vHash) == BuildAll(hash, vTxid, vMatch)
    {
      this.hash, this.zero, nTransactions, fBad := hash, zero, |vTxid|, false;
      vBits, vHash := [], [];
      new;
      var nHeight := TreeHeight();
      RootCoversAll(|vTxid|, nHeight);
      TraverseAndBuild(nHeight, 0, vTxid, vMatch);
      ghost var built := BuildAll(hash, vTxid, vMatch);
      assert [] + built.0 == built.0 && [] + built.1 == built.1;
    }

    method TreeHeight() returns (nHeight: nat)
      ensures nHeight == HeightFrom(nTransactions, 0)
    {
      nHeight := 0;
      while CalcTreeWidth(nHeight) > 1
        invariant HeightFrom(nTransactions, nHeight) == HeightFrom(nTransactions, 0)
        decreases if nHeight < nTransactions then nTransactions - nHeight else 0
      {
        Shrinks(nTransactions, nHeight);
        nHeight := nHeight + 1;
      }
    }

    /** The test against CalcTreeWidth: whether the node exists. */
    method InTree(height: nat, pos: nat) returns (b: bool)
      ensures b == (First(height, pos) < nTransactions)
    {
      WidthIff(nTransactions, height, pos);
      b := pos < CalcTreeWidth(height);
    }

    /** Whether a matched transaction lies under the node. */
    method AnyMatchBelow(height: nat, pos: nat, vMatch: seq<bool>) returns (fParentOfMatch: bool)
      requires |vMatch| == nTransactions
      ensures fParentOfMatch == ParentOfMatch(vMatch, height, pos)
    {
      FirstIs(height, pos);
      FirstIs(height, pos + 1);
      fParentOfMatch := false;
      var p := pos * Pow2(height);
      while p < (pos + 1) * Pow2(height) && p < nTransactions
        invariant First(height, pos) <= p
        invariant fParentOfMatch == AnyIn(vMatch, First(height, pos), p)
        invariant p <= First(height, pos) || p <= End(nTransactions, height, pos)
      {
        fParentOfMatch := fParentOfMatch || vMatch[p];
        p := p + 1;
      }
    }

    method TraverseAndBuild(height: nat, pos: nat, vTxid: seq<H>, vMatch: seq<bool>)
      requires |vTxid| == |vMatch| == nTransactions && First(height, pos) < |vTxid|
      modifies this`vBits, this`vHash
      ensures var (bits, hashes) := Build(hash, vTxid, vMatch, height, pos);
        vBits == old(vBits) + bits && vHash == old(vHash) + hashes
      decreases height
    {
      var fParentOfMatch := AnyMatchBelow(height, pos, vMatch);
      vBits := vBits + [fParentOfMatch];
      if height == 0 || !fParentOfMatch {
        vHash := vHash + [CalcHash(hash, vTxid, height, pos)];
      } else {
        Halves(height, pos);
        var hasRight := InTree(height - 1, pos * 2 + 1);
        ghost var left := Build(hash, vTxid, vMatch, height - 1, 2 * pos);
        TraverseAndBuild(height - 1, pos * 2, vTxid, vMatch);
        if hasRight {
          ghost var right := Build(hash, vTxid, vMatch, height - 1, 2 * pos + 1);
          TraverseAndBuild(height - 1, pos * 2 + 1, vTxid, vMatch);
          BuiltConcat(old(vBits), [true], left.0, right.0);
          BuiltConcat(old(vHash), [], left.1, right.1);
        } else {
          BuiltConcat(old(vBits), [true], left.0, []);
        }
      }
    }

    method TraverseAndExtract(
      height: nat, pos: nat, nBitsUsed0: nat, nHashUsed0: nat, vMatch0: seq<H>, vnIndex0: seq<nat>)
      returns (root: H, nBitsUsed: nat, nHashUsed: nat, vMatch: seq<H>, vnIndex: seq<nat>, ghost w: Walk<H>)
      modifies this`fBad
      ensures w == Extract(hash, zero, Partial(nTransactions, vBits, vHash), height, pos, nBitsUsed0, nHashUsed0)
      ensures root == w.root && nBitsUsed == w.bitsUsed && nHashUsed == w.hashUsed && fBad == (old(fBad) || w.bad)
      ensures vMatch == vMatch0 + Txids(w.found) && vnIndex == vnIndex0 + Indices(w.found)
      decreases height
    {
      nBitsUsed, nHashUsed, vMatch, vnIndex := nBitsUsed0, nHashUsed0, vMatch0, vnIndex0;
      ghost var p := Partial(nTransactions, vBits, vHash);
      FoundFew(vMatch, vnIndex, pos, zero);
      if nBitsUsed >= |vBits| {
        w := Walk(zero, nBitsUsed, nHashUsed, true, []);
        fBad := true;
        root := zero;
        return;
      }
      var fParentOfMatch := vBits[nBitsUsed];
      nBitsUsed := nBitsUsed + 1;
      if height == 0 || !fParentOfMatch {
        if nHashUsed >= |vHash| {
          w := Walk(zero, nBitsUsed, nHashUsed, true, []);
          fBad := true;
          root := zero;
          return;
        }
        ExtractStop(hash, zero, p, height, pos, nBitsUsed0, nHashUsed0);
        root := vHash[nHashUsed];
        nHashUsed := nHashUsed + 1;
        FoundFew(vMatch, vnIndex, pos, root);
        w := Walk(root, nBitsUsed, nHashUsed, false, if fParentOfMatch then [(pos, root)] else []);
        if height == 0 && fParentOfMatch {
          vMatch := vMatch + [root];
          vnIndex := vnIndex + [pos];
        }
      } else {
        root, nBitsUsed, nHashUsed, vMatch, vnIndex, w :=
          ExtractChildren(height, pos, nBitsUsed0, nHashUsed, vMatch, vnIndex);
      }
    }

    /** The children of the node whose own flag is bit `nBit`. */
    method ExtractChildren(height: nat, pos: nat, nBit: nat, nHashUsed0: nat, vMatch0: seq<H>, vnIndex0: seq<nat>)
      returns (root: H, nBitsUsed: nat, nHashUsed: nat, vMatch: seq<H>, vnIndex: seq<nat>, ghost w: Walk<H>)
      requires height > 0 && nBit < |vBits| && vBits[nBit]
      modifies this`fBad
      ensures w == Extract(hash, zero, Partial(nTransactions, vBits, vHash), height, pos, nBit, nHashUsed0)
      ensures root == w.root && nBitsUsed == w.bitsUsed && nHashUsed == w.hashUsed && fBad == (old(fBad) || w.bad)
      ensures vMatch == vMatch0 + Txids(w.found) && vnIndex == vnIndex0 + Indices(w.found)
      decreases height, 0
    {
      ghost var p := Partial(nTransactions, vBits, vHash);
      var left, right;
      ghost var w0, w1;
      left, nBitsUsed, nHashUsed, vMatch, vnIndex, w0 :=
        TraverseAndExtract(height - 1, 2 * pos, nBit + 1, nHashUsed0, vMatch0, vnIndex0);
      var hasRight := InTree(height - 1, 2 * pos + 1);
      if hasRight {
        right, nBitsUsed, nHashUsed, vMatch, vnIndex, w1 :=
          TraverseAndExtract(height - 1, 2 * pos + 1, nBitsUsed, nHashUsed, vMatch, vnIndex);
        ExtractInner(hash, zero, p, height, pos, nBit, nHashUsed0, w0, w1);
        FoundConcat(vMatch0, vnIndex0, w0.found, w1.found);
        w := Join(hash, w0, w1);
        if right == left {
          fBad := true;
        }
      } else {
        right := left;
        ExtractInner(hash, zero, p, height, pos, nBit, nHashUsed0, w0, w0);
        w := w0.(root := hash(w0.root, w0.root));
      }
      root := hash(left, right);
    }

    /** Returns `zero` where the tree is rejected; the matched txids are fresh, the indices are appended. */
    method ExtractMatches(vnIndex0: seq<nat>) returns (root: H, vMatch: seq<H>, vnIndex: seq<nat>)
      modifies this`fBad
      ensures var r := M.ExtractMatches(hash, zero, Partial(nTransactions, vBits, vHash));
        if old(fBad) || r.None? then root == zero
        else root == r.value.root && vMatch == Txids(r.value.found) && vnIndex == vnIndex0 + Indices(r.value.found)
    {
      vMatch, vnIndex, root := [], vnIndex0, zero;
      if nTransactions == 0 {
        return;
      }
      if nTransactions > MAX_BLOCK_WEIGHT / MIN_TRANSACTION_WEIGHT {
        return;
      }
      if |vHash| > nTransactions {
        return;
      }
      if |vBits| < |vHash| {
        return;
      }
      var nHeight := TreeHeight();
      var nBitsUsed, nHashUsed := 0, 0;
      var hashMerkleRoot;
      ghost var w;
      hashMerkleRoot, nBitsUsed, nHashUsed, vMatch, vnIndex, w :=
        TraverseAndExtract(nHeight, 0, nBitsUsed, nHashUsed, vMatch, vnIndex);
      if fBad {
        return;
      }
      if (nBitsUsed + 7) / 8 != (|vBits| + 7) / 8 {
        return;
      }
      if nHashUsed != |vHash| {
        return;
      }
      root := hashMerkleRoot;
    }

    /** Writing: the flag bits, eight to a byte. */
    method PackBits() returns (vBytes: seq<bv8>)
      ensures IsPacked(vBits, vBytes)
    {
      vBytes := seq((|vBits| + 7) / 8, _ => 0);
      var p := 0;
      while p < |vBits|
        invariant 0 <= p <= |vBits| && |vBytes| == (|vBits| + 7) / 8
        invariant forall q {:trigger BitAt(vBytes, q)} :: 0 <= q < 8 * |vBytes| ==>
          BitAt(vBytes, q) == (q < p && vBits[q])
      {
        var before := vBytes;
        if vBits[p] {
          vBytes := vBytes[p / 8 := vBytes[p / 8] | Mask(p % 8)];
        }
        forall q | 0 <= q < 8 * |vBytes|
          ensures BitAt(vBytes, q) == (q < p + 1 && vBits[q])
        {
          assert BitAt(before, q) == (q < p && vBits[q]);
          if vBits[p] && q / 8 == p / 8 {
            SetBit(before[p / 8], p % 8, q % 8);
            assert q % 8 == p % 8 ==> q == p;
          }
        }
        p := p + 1;
      }
      forall q | 0 <= q < 8 * |vBytes|
        ensures Unpacked(vBytes)[q] == (vBits + seq(8 * |vBytes| - |vBits|, _ => false))[q]
      {
        assert BitAt(vBytes, q) == (q < |vBits| && vBits[q]);
      }
    }

    /** Reading them back. */
    method UnpackBits(vBytes: seq<bv8>)
      modifies this`vBits, this`fBad
      ensures vBits == Unpacked(vBytes) && !fBad
    {
      vBits := seq(8 * |vBytes|, _ => false);
      var p := 0;
      while p < |vBits|
        invariant 0 <= p <= |vBits| == 8 * |vBytes|
        invariant forall q :: 0 <= q < p ==> vBits[q] == Bit(vBytes[q / 8], q % 8)
      {
        vBits := vBits[p := vBytes[p / 8] & Mask(p % 8) != 0];
        p := p + 1;
      }
      fBad := false;
    }
  }

  predicate BitAt(bytes: seq<bv8>, q: int)
    requires 0 <= q < 8 * |bytes|
  {
    Bit(bytes[q / 8], q % 8)
  }
}
