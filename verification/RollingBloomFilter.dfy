/** CRollingBloomFilter itself, its words changed in place (bloom.cpp). */
module RollingBloomFilter {
  import opened Collections
  import opened RollingBloom
  import R = RollingBloom

  /** RollingBloomHash with a given tweak. */
  function HashWith<K>(murmur: (nat, K) -> nat, tweak: nat): Hash<K> {
    (n: nat, key: K) => murmur((n * 0xFBA4C795 + tweak) % 0x1_0000_0000, key)
  }

  /** The words before `p` are wiped, the others are not yet. */
  ghost predicate HalfWiped(now: seq<Word>, d: seq<Word>, gen: nat, p: nat) {
    |d| % 2 == 0 && p <= |d| && now == Wiped(d, gen)[..p] + d[p..]
  }

  lemma {:induction false} WipeStart(d: seq<Word>, gen: nat)
    requires |d| % 2 == 0
    ensures HalfWiped(d, d, gen, 0)
  {
  }

  lemma {:induction false} WipeEnd(now: seq<Word>, d: seq<Word>, gen: nat)
    requires HalfWiped(now, d, gen, |d|)
    ensures now == Wiped(d, gen)
  {
    TakeAll(Wiped(d, gen));
    EmptyAppend(Wiped(d, gen));
    assert d[|d|..] == [];
  }

  /** Wiping one more pair of words. */
  lemma {:induction false} WipeStep(d: seq<Word>, gen: nat, p: nat)
    requires |d| % 2 == 0 && p % 2 == 0 && p < |d|
    ensures p + 1 < |d|
    ensures var now := Wiped(d, gen)[..p] + d[p..];
      now[p] == d[p] && now[p + 1] == d[p + 1] &&
      var (q1, q2) := WipedPair(d[p], d[p + 1], gen); now[p := q1][p + 1 := q2] == Wiped(d, gen)[..p + 2] + d[p + 2..]
  {
    assert (p + 1) % 2 == 1;
  }

  class CRollingBloomFilter<K(!new)> {
    const murmur: (nat, K) -> nat
    const nEntriesPerGeneration: nat
    const nHashFuncs: nat
    const data: array<Word>
    var nEntriesThisGeneration: nat
    var nGeneration: nat
    var nTweak: nat

    /** `nHashFuncs` and the number of pairs of words come from the false positive rate. */
    constructor (murmur: (nat, K) -> nat, nElements: nat, hashFuncs: nat, pairs: nat, tweak: nat)
      requires pairs > 0
      ensures Valid() && fresh(data) && this.murmur == murmur && nTweak == tweak
      ensures Value() == R.Reset(nElements, hashFuncs, pairs)
    {
      this.murmur, nHashFuncs := murmur, hashFuncs;
      nEntriesPerGeneration := (nElements + 1) / 2;
      data := new Word[2 * pairs](_ => Fill(false));
      nTweak, nEntriesThisGeneration, nGeneration := tweak, 0, 1;
      new;
      assert data[..] == seq(2 * pairs, _ => Fill(false));
    }

    ghost predicate Valid()
      reads this, data
    {
      ValidData(data[..])
    }

    ghost function Value(): Filter
      reads this, data
    {
      Filter(nEntriesPerGeneration, nEntriesThisGeneration, nGeneration, nHashFuncs, data[..])
    }

    /** reset, with a new random tweak. */
    method Reset(tweak: nat)
      requires Valid()
      modifies this, data
      ensures Valid() && nTweak == tweak
      ensures Value() == Filter(nEntriesPerGeneration, 0, 1, nHashFuncs, seq(data.Length, _ => Fill(false)))
    {
      nTweak := tweak;
      nEntriesThisGeneration := 0;
      nGeneration := 1;
      var it := 0;
      while it < data.Length
        invariant 0 <= it <= data.Length
        invariant forall k :: 0 <= k < it ==> data[k] == Fill(false)
        modifies data
      {
        data[it] := Fill(false);
        it := it + 1;
      }
    }

    /** Clears exactly the cells labelled nGeneration. */
    method Wipe()
      requires Valid()
      modifies data
      ensures data[..] == Wiped(old(data[..]), nGeneration)
    {
      ghost var d := data[..];
      WipeStart(d, nGeneration);
      var p := 0;
      while p < data.Length
        invariant 0 <= p <= data.Length && p % 2 == 0 && HalfWiped(data[..], d, nGeneration, p)
      {
        WipeWords(p, d);
        p := p + 2;
      }
      WipeEnd(data[..], d, nGeneration);
    }

    method WipeWords(p: nat, ghost d: seq<Word>)
      requires p % 2 == 0 && p < data.Length && |d| % 2 == 0 && HalfWiped(data[..], d, nGeneration, p)
      modifies data
      ensures p + 2 <= data.Length && HalfWiped(data[..], d, nGeneration, p + 2)
    {
      WipeStep(d, nGeneration, p);
      var mask1, mask2 := Fill(nGeneration % 2 == 1), Fill(nGeneration / 2 % 2 == 1);
      var p1, p2 := data[p], data[p + 1];
      var mask := Or(Xor(p1, mask1), Xor(p2, mask2));
      ghost var now: seq<Word> := data[..];
      ghost var q1: Word, q2: Word := And(p1, mask), And(p2, mask);
      data[p] := And(p1, mask);
      data[p + 1] := And(p2, mask);
      assert data[..] == now[p := q1][p + 1 := q2];
    }

    /** Set a cell to the current generation. */
    method Mark(h: nat)
      requires Valid() && h < 0x1_0000_0000
      modifies data
      ensures InData(old(data[..]), CellOf(h, data.Length))
      ensures data[..] == Marked(old(data[..]), CellOf(h, data.Length), nGeneration)
    {
      CellInData(h, data[..]);
      var bit := h % 64;
      var pos := FastMod(h, data.Length);
      var even, odd := pos / 2 * 2, pos / 2 * 2 + 1;
      data[even] := Or(And(data[even], Not(Shifted(true, bit))), Shifted(nGeneration % 2 == 1, bit));
      data[odd] := Or(And(data[odd], Not(Shifted(true, bit))), Shifted(nGeneration / 2 % 2 == 1, bit));
    }

    method Insert(vKey: K)
      requires Valid() && ValidHash(HashWith(murmur, nTweak))
      modifies this`nEntriesThisGeneration, this`nGeneration, data
      ensures Valid() && Value() == R.Insert(HashWith(murmur, nTweak), old(Value()), vKey)
    {
      Roll();
      nEntriesThisGeneration := nEntriesThisGeneration + 1;
      MarkKey(vKey, HashWith(murmur, nTweak));
    }

    /** Start the next generation when the current one is full. */
    method Roll()
      requires Valid()
      modifies this`nEntriesThisGeneration, this`nGeneration, data
      ensures Valid() && Value() == Rolled(old(Value()))
    {
      if nEntriesThisGeneration == nEntriesPerGeneration {
        nEntriesThisGeneration := 0;
        nGeneration := nGeneration + 1;
        if nGeneration == 4 {
          nGeneration := 1;
        }
        Wipe();
      }
    }

    method MarkKey(vKey: K, hash: Hash<K>)
      requires Valid() && ValidHash(hash)
      modifies data
      ensures Valid() && data[..] == MarkFrom(hash, old(data[..]), vKey, 0, nHashFuncs, nGeneration)
    {
      var n := 0;
      ghost var goal := MarkFrom(hash, data[..], vKey, 0, nHashFuncs, nGeneration);
      while n < nHashFuncs
        invariant 0 <= n <= nHashFuncs && Valid()
        invariant MarkFrom(hash, data[..], vKey, n, nHashFuncs, nGeneration) == goal
      {
        var h := hash(n, vKey);
        Mark(h);
        n := n + 1;
      }
    }

    method Contains(vKey: K) returns (r: bool)
      requires Valid() && ValidHash(HashWith(murmur, nTweak))
      ensures r == R.Contains(HashWith(murmur, nTweak), Value(), vKey)
    {
      var hash := HashWith(murmur, nTweak);
      var n := 0;
      while n < nHashFuncs
        invariant 0 <= n <= nHashFuncs
        invariant forall k {:trigger CellSet(hash, data[..], k, vKey)} :: 0 <= k < n ==>
          CellSet(hash, data[..], k, vKey)
      {
        var h := hash(n, vKey);
        var bit := h % 64;
        CellInData(h, data[..]);
        var pos := FastMod(h, data.Length);
        if !Or(data[pos / 2 * 2], data[pos / 2 * 2 + 1])[bit] {
          assert !CellSet(hash, data[..], n, vKey);
          return false;
        }
        assert CellSet(hash, data[..], n, vKey);
        n := n + 1;
      }
      return true;
    }
  }
}
