/** What a rolling bloom filter does not contain (bloom.cpp): every set cell comes from a recent key. */
module BloomSources {
  import opened Numbers
  import opened RollingBloom

  /** A hash value picks the pair of words by its high bits and the bit by its low six. */
  lemma {:induction false} CellPlace(h: nat, size: nat)
    ensures CellOf(h, size).pair == h * size / 0x1_0000_0000 / 2 && CellOf(h, size).bit == h % 64
  {
  }

  /** A filter with a hash function contains nothing after a reset. */
  lemma {:induction false} ResetEmpty<K(!new)>(hash: Hash<K>, nElements: nat, hashFuncs: nat, pairs: nat, key: K)
    requires ValidHash(hash) && hashFuncs > 0 && pairs > 0
    ensures ValidData(Reset(nElements, hashFuncs, pairs).data)
    ensures !Contains(hash, Reset(nElements, hashFuncs, pairs), key)
  {
    var f := Reset(nElements, hashFuncs, pairs);
    assert ValidData(f.data);
    CellInData(hash(0, key), f.data);
    assert !CellSet(hash, f.data, 0, key);
  }

  /** Cell `c` carries the label of the generation of key `j`, one of the last three, and is one of its cells. */
  ghost predicate MarkedBy<K(!new)>(hash: Hash<K>, f: Filter, keys: seq<K>, g: nat, c: Cell, j: nat, m: nat)
    requires InData(f.data, c) && f.perGen > 0
  {
    && j < |keys| && m < f.hashFuncs && KeyCell(hash, |f.data|, m, keys[j]) == c
    && Born(j, f.perGen) <= g <= Born(j, f.perGen) + 2 && Label(f.data, c) == GenLabel(Born(j, f.perGen))
  }

  ghost predicate Sourced<K(!new)>(hash: Hash<K>, f: Filter, keys: seq<K>, g: nat, c: Cell)
    requires f.perGen > 0
  {
    InData(f.data, c) && Label(f.data, c) != 0 ==> exists j, m :: MarkedBy(hash, f, keys, g, c, j, m)
  }

  /** A label that marking changes is that of a cell of the key. */
  lemma {:induction false} MarkFromSource<K(!new)>(
    hash: Hash<K>, data: seq<Word>, key: K, n: nat, count: nat, gen: nat, c: Cell) returns (k: nat)
    requires ValidHash(hash) && ValidData(data) && 1 <= gen <= 3 && InData(data, c)
    ensures var r := MarkFrom(hash, data, key, n, count, gen);
      || Label(r, c) == Label(data, c)
      || (k < count && KeyCell(hash, |data|, k, key) == c && Label(r, c) == gen)
    decreases count - n
  {
    k := n;
    if n < count {
      CellInData(hash(n, key), data);
      var d := KeyCell(hash, |data|, n, key);
      var marked := Marked(data, d, gen);
      MarkExact(data, d, gen, c);
      if c == d {
        MarkFromExact(hash, marked, key, n + 1, count, gen, c);
      } else {
        k := MarkFromSource(hash, marked, key, n + 1, count, gen, c);
      }
    }
  }

  lemma {:induction false} LabelReused(lo: nat, g: nat)
    requires lo <= g <= lo + 2 && GenLabel(lo) != GenLabel(g + 1)
    ensures g + 1 <= lo + 2
  {
  }

  lemma {:induction false} StillMarked<K(!new)>(
    hash: Hash<K>, f: Filter, r: Filter, keys: seq<K>, g: nat, c: Cell, j: nat, m: nat)
    requires InData(f.data, c) && f.perGen > 0 && MarkedBy(hash, f, keys, g, c, j, m)
    requires |r.data| == |f.data| && r.perGen == f.perGen && r.hashFuncs == f.hashFuncs
    requires Label(f.data, c) != GenLabel(g + 1) && Label(r.data, c) == Label(f.data, c)
    ensures MarkedBy(hash, r, keys, g + 1, c, j, m)
  {
    LabelReused(Born(j, f.perGen), g);
  }

  /** Rolling forgets the generation that gives its label to the next. */
  lemma {:induction false} RollSources<K(!new)>(hash: Hash<K>, f: Filter, keys: seq<K>, g: nat, c: Cell)
    requires ValidData(f.data) && f.perGen > 0 && f.gen == GenLabel(g) && Sourced(hash, f, keys, g, c)
    ensures Sourced(hash, Rolled(f), keys, NextGen(f, g), c)
  {
    var r := Rolled(f);
    if f.inGen == f.perGen && InData(r.data, c) && Label(r.data, c) != 0 {
      NextLabel(g);
      WipeExact(f.data, GenLabel(g + 1), c);
      var j, m :| MarkedBy(hash, f, keys, g, c, j, m);
      StillMarked(hash, f, r, keys, g, c, j, m);
    }
  }

  /** Marking adds only cells of the new key. */
  lemma {:induction false} MarkSources<K(!new)>(
    hash: Hash<K>, r: Filter, f': Filter, keys: seq<K>, g: nat, key: K, c: Cell)
    requires ValidHash(hash) && ValidData(r.data) && r.perGen > 0 && r.gen == GenLabel(g)
    requires Sourced(hash, r, keys, g, c) && Born(|keys|, r.perGen) == g
    requires f'.perGen == r.perGen && f'.hashFuncs == r.hashFuncs
    requires f'.data == MarkFrom(hash, r.data, key, 0, r.hashFuncs, r.gen)
    ensures Sourced(hash, f', keys + [key], g, c)
  {
    if InData(f'.data, c) && Label(f'.data, c) != 0 {
      var k := MarkFromSource(hash, r.data, key, 0, r.hashFuncs, r.gen, c);
      if Label(f'.data, c) == Label(r.data, c) {
        var j, m :| MarkedBy(hash, r, keys, g, c, j, m);
        assert MarkedBy(hash, f', keys + [key], g, c, j, m);
      } else {
        assert MarkedBy(hash, f', keys + [key], g, c, |keys|, k);
      }
    }
  }

  lemma {:induction false} InsertSources<K(!new)>(hash: Hash<K>, f: Filter, keys: seq<K>, g: nat, key: K, c: Cell)
    requires Rolling(hash, f, keys, g) && Sourced(hash, f, keys, g, c)
    ensures Sourced(hash, Insert(hash, f, key), keys + [key], NextGen(f, g), c)
  {
    var r, g' := Rolled(f), NextGen(f, g);
    RollSources(hash, f, keys, g, c);
    NextLabel(g);
    OneGenMore(g, f.perGen);
    BornNow(g', f.perGen, r.inGen);
    MarkSources(hash, r, Insert(hash, f, key), keys, g', key, c);
  }

  lemma {:induction false} RunSources<K(!new)>(
    hash: Hash<K>, nElements: nat, hashFuncs: nat, pairs: nat, keys: seq<K>, c: Cell) returns (g: nat)
    requires ValidHash(hash) && nElements > 0 && pairs > 0
    ensures ValidData(Reset(nElements, hashFuncs, pairs).data)
    ensures var f := Run(hash, Reset(nElements, hashFuncs, pairs), keys);
      Rolling(hash, f, keys, g) && Sourced(hash, f, keys, g, c)
  {
    var f := Reset(nElements, hashFuncs, pairs);
    g := 0;
    if keys == [] {
      g := RunRolls(hash, nElements, hashFuncs, pairs, keys);
    } else {
      var init, last := keys[..|keys| - 1], keys[|keys| - 1];
      g := RunSources(hash, nElements, hashFuncs, pairs, init, c);
      assert keys == init + [last];
      InsertKeeps(hash, Run(hash, f, init), init, g, last);
      InsertSources(hash, Run(hash, f, init), init, g, last, c);
      g := NextGen(Run(hash, f, init), g);
    }
  }

  /** A key of the last three generations is among the last three times as many as a generation has. */
  lemma {:induction false} RecentWindow(j: nat, g: nat, perGen: nat, inGen: nat)
    requires perGen > 0 && inGen <= perGen && g <= Born(j, perGen) + 2
    ensures g * perGen + inGen <= j + 3 * perGen
  {
    var lo := Born(j, perGen);
    Division(j, perGen);
    MulAway(lo + 2 - g, perGen);
    assert (lo + 2 - g) * perGen == lo * perGen + 2 * perGen - g * perGen;
  }

  /** A cell of `key` is also one of the key inserted as number `j`. */
  ghost predicate SharesCell<K(!new)>(
    hash: Hash<K>, size: nat, hashFuncs: nat, key: K, n: nat, other: K, m: nat)
  {
    m < hashFuncs && CellOf(hash(n, key), size) == CellOf(hash(m, other), size)
  }

  /** Over every run, a contained key shares each of its cells with one of the last three generations of keys. */
  lemma {:induction false} ContainedHasSources<K(!new)>(
    hash: Hash<K>, nElements: nat, hashFuncs: nat, pairs: nat, keys: seq<K>, key: K, n: nat) returns (j: nat, m: nat)
    requires ValidHash(hash) && nElements > 0 && pairs > 0 && n < hashFuncs
    requires ValidData(Reset(nElements, hashFuncs, pairs).data)
    requires Contains(hash, Run(hash, Reset(nElements, hashFuncs, pairs), keys), key)
    ensures j < |keys| <= j + 3 * ((nElements + 1) / 2)
    ensures SharesCell(hash, 2 * pairs, hashFuncs, key, n, keys[j], m)
  {
    var f := Run(hash, Reset(nElements, hashFuncs, pairs), keys);
    RunSize(hash, Reset(nElements, hashFuncs, pairs), keys);
    CellInData(hash(n, key), f.data);
    var c := KeyCell(hash, |f.data|, n, key);
    assert CellSet(hash, f.data, n, key);
    var g := RunSources(hash, nElements, hashFuncs, pairs, keys, c);
    j, m :| MarkedBy(hash, f, keys, g, c, j, m);
    RecentWindow(j, g, f.perGen, f.inGen);
  }

  lemma {:induction false} RunSize<K(!new)>(hash: Hash<K>, f: Filter, keys: seq<K>)
    requires ValidHash(hash) && ValidData(f.data)
    ensures |Run(hash, f, keys).data| == |f.data|
  {
    if keys != [] {
      RunSize(hash, f, keys[..|keys| - 1]);
    }
  }
}
