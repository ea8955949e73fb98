/** The rolling bloom filter of bloom.cpp: cells labelled with one of three generations. */
module RollingBloom {
  import opened Numbers

  // ----- 64-bit words, bit by bit -----

  type Word = w: seq<bool> | |w| == 64 witness seq(64, _ => false)

  function Fill(b: bool): Word {
    seq(64, _ => b)
  }

  function And(a: Word, b: Word): Word {
    seq(64, i requires 0 <= i < 64 => a[i] && b[i])
  }

  function Or(a: Word, b: Word): Word {
    seq(64, i requires 0 <= i < 64 => a[i] || b[i])
  }

  function Xor(a: Word, b: Word): Word {
    seq(64, i requires 0 <= i < 64 => a[i] != b[i])
  }

  function Not(a: Word): Word {
    seq(64, i requires 0 <= i < 64 => !a[i])
  }

  /** b << bit */
  function Shifted(b: bool, bit: nat): Word
    requires bit < 64
  {
    Fill(false)[bit := b]
  }

  // ----- cells -----

  /** A cell is bit `bit` of the words `2 * pair` and `2 * pair + 1`. */
  datatype Cell = Cell(pair: nat, bit: nat)

  predicate InData(data: seq<Word>, c: Cell) {
    2 * c.pair + 1 < |data| && c.bit < 64
  }

  /** The generation of a cell, 0 if it is not set. */
  function Label(data: seq<Word>, c: Cell): nat
    requires InData(data, c)
  {
    (if data[2 * c.pair][c.bit] then 1 else 0) + (if data[2 * c.pair + 1][c.bit] then 2 else 0)
  }

  /** FastMod */
  function FastMod(x: nat, n: nat): nat {
    x * n / 0x1_0000_0000
  }

  lemma {:induction false} FastModBelow(x: nat, n: nat)
    requires x < 0x1_0000_0000 && n > 0
    ensures FastMod(x, n) < n
  {
    MulLess(x, 0x1_0000_0000, n);
  }

  /** The cell of a hash value in `size` words; the lowest bit of the position is ignored. */
  function CellOf(h: nat, size: nat): Cell {
    Cell(FastMod(h, size) / 2, h % 64)
  }

  lemma {:induction false} CellInData(h: nat, data: seq<Word>)
    requires h < 0x1_0000_0000 && |data| > 0 && |data| % 2 == 0
    ensures InData(data, CellOf(h, |data|))
  {
    FastModBelow(h, |data|);
  }

  // ----- wiping and marking -----

  /** Clear the cells of generation `gen` in a pair of words. */
  function WipedPair(p1: Word, p2: Word, gen: nat): (Word, Word) {
    var mask := Or(Xor(p1, Fill(gen % 2 == 1)), Xor(p2, Fill(gen / 2 % 2 == 1)));
    (And(p1, mask), And(p2, mask))
  }

  function Wiped(data: seq<Word>, gen: nat): (r: seq<Word>)
    requires |data| % 2 == 0
    ensures |r| == |data|
  {
    seq(|data|, i requires 0 <= i < |data| =>
      if i % 2 == 0 then WipedPair(data[i], data[i + 1], gen).0 else WipedPair(data[i - 1], data[i], gen).1)
  }

  lemma {:induction false} WipedBits(p1: Word, p2: Word, gen: nat, k: nat)
    requires 1 <= gen <= 3 && k < 64
    ensures var hit := p1[k] == (gen % 2 == 1) && p2[k] == (gen / 2 % 2 == 1); var (q1, q2) := WipedPair(p1, p2, gen);
      q1[k] == (p1[k] && !hit) && q2[k] == (p2[k] && !hit)
  {
  }

  /** Wiping clears exactly the cells of that generation. */
  lemma {:induction false} WipeExact(data: seq<Word>, gen: nat, c: Cell)
    requires |data| % 2 == 0 && 1 <= gen <= 3 && InData(data, c)
    ensures Label(Wiped(data, gen), c) == if Label(data, c) == gen then 0 else Label(data, c)
  {
    var i := 2 * c.pair;
    assert i % 2 == 0 && (i + 1) % 2 == 1;
    WipedBits(data[i], data[i + 1], gen, c.bit);
  }

  function MarkedWord(w: Word, bit: nat, b: bool): Word
    requires bit < 64
  {
    Or(And(w, Not(Shifted(true, bit))), Shifted(b, bit))
  }

  function Marked(data: seq<Word>, c: Cell, gen: nat): (r: seq<Word>)
    requires InData(data, c)
    ensures |r| == |data|
  {
    data[2 * c.pair := MarkedWord(data[2 * c.pair], c.bit, gen % 2 == 1)]
        [2 * c.pair + 1 := MarkedWord(data[2 * c.pair + 1], c.bit, gen / 2 % 2 == 1)]
  }

  lemma {:induction false} MarkExact(data: seq<Word>, c: Cell, gen: nat, d: Cell)
    requires 1 <= gen <= 3 && InData(data, c) && InData(data, d)
    ensures Label(Marked(data, c, gen), d) == if c == d then gen else Label(data, d)
  {
  }

  // ----- the filter -----

  datatype Filter = Filter(perGen: nat, inGen: nat, gen: nat, hashFuncs: nat, data: seq<Word>)

  type Hash<!K> = (nat, K) -> nat

  ghost predicate ValidHash<K(!new)>(hash: Hash<K>) {
    forall n, key :: hash(n, key) < 0x1_0000_0000
  }

  predicate ValidData(data: seq<Word>) {
    |data| > 0 && |data| % 2 == 0
  }

  function KeyCell<K>(hash: Hash<K>, size: nat, n: nat, key: K): Cell {
    CellOf(hash(n, key), size)
  }

  /** Mark the cells of `key` for the hash functions from `n` on. */
  ghost function MarkFrom<K(!new)>(hash: Hash<K>, data: seq<Word>, key: K, n: nat, count: nat, gen: nat): (r: seq<Word>)
    requires ValidHash(hash) && ValidData(data)
    ensures |r| == |data|
    decreases count - n
  {
    if n >= count then data else
      CellInData(hash(n, key), data);
      MarkFrom(hash, Marked(data, KeyCell(hash, |data|, n, key), gen), key, n + 1, count, gen)
  }

  /** Start the next generation when the current one is full. */
  function Rolled(f: Filter): Filter
    requires ValidData(f.data)
  {
    if f.inGen == f.perGen then
      var gen := if f.gen + 1 == 4 then 1 else f.gen + 1;
      f.(inGen := 0, gen := gen, data := Wiped(f.data, gen))
    else f
  }

  ghost function Insert<K(!new)>(hash: Hash<K>, f: Filter, key: K): Filter
    requires ValidHash(hash) && ValidData(f.data)
  {
    var g := Rolled(f);
    g.(inGen := g.inGen + 1, data := MarkFrom(hash, g.data, key, 0, f.hashFuncs, g.gen))
  }

  ghost predicate Contains<K(!new)>(hash: Hash<K>, f: Filter, key: K)
    requires ValidHash(hash) && ValidData(f.data)
  {
    forall n {:trigger CellSet(hash, f.data, n, key)} :: 0 <= n < f.hashFuncs ==> CellSet(hash, f.data, n, key)
  }

  ghost predicate CellSet<K(!new)>(hash: Hash<K>, data: seq<Word>, n: nat, key: K)
    requires ValidHash(hash) && ValidData(data)
  {
    CellInData(hash(n, key), data);
    Label(data, KeyCell(hash, |data|, n, key)) != 0
  }

  /** An empty filter for windows of `nElements`, with `size` pairs of words. */
  function Reset(nElements: nat, hashFuncs: nat, pairs: nat): Filter {
    Filter((nElements + 1) / 2, 0, 1, hashFuncs, seq(2 * pairs, _ => Fill(false)))
  }

  ghost function Run<K(!new)>(hash: Hash<K>, f: Filter, keys: seq<K>): (g: Filter)
    requires ValidHash(hash) && ValidData(f.data)
    ensures ValidData(g.data) && g.perGen == f.perGen && g.hashFuncs == f.hashFuncs
  {
    if keys == [] then f else Insert(hash, Run(hash, f, keys[..|keys| - 1]), keys[|keys| - 1])
  }

  // ----- generations -----

  /** The label of the generation with the number `g`, counted from the start. */
  function GenLabel(g: nat): nat {
    g % 3 + 1
  }

  /** A label of a generation from `lo` to `g`, where at most the last three count. */
  predicate Recent(mark: nat, lo: nat, g: nat) {
    || mark == GenLabel(g)
    || (g >= 1 && lo <= g - 1 && mark == GenLabel(g - 1))
    || (g >= 2 && lo <= g - 2 && mark == GenLabel(g - 2))
  }

  lemma {:induction false} MarkFromExact<K(!new)>(hash: Hash<K>, data: seq<Word>, key: K, n: nat, count: nat, gen: nat,
    c: Cell)
    requires ValidHash(hash) && ValidData(data) && 1 <= gen <= 3 && InData(data, c)
    ensures var r := MarkFrom(hash, data, key, n, count, gen);
      && Label(r, c) in {gen, Label(data, c)}
      && (forall k {:trigger KeyCell(hash, |data|, k, key)} :: n <= k < count && KeyCell(hash, |data|, k, key) == c ==>
           Label(r, c) == gen)
      && (Label(data, c) == gen ==> Label(r, c) == gen)
    decreases count - n
  {
    if n < count {
      CellInData(hash(n, key), data);
      var d := KeyCell(hash, |data|, n, key);
      MarkExact(data, d, gen, c);
      MarkFromExact(hash, Marked(data, d, gen), key, n + 1, count, gen, c);
    }
  }

  /** The cells of the key inserted as number `j`, in generation `lo`, are recent in generation `g`. */
  ghost predicate KeyRecent<K(!new)>(hash: Hash<K>, f: Filter, key: K, lo: nat, g: nat)
    requires ValidHash(hash) && ValidData(f.data)
  {
    forall n {:trigger CellRecent(hash, f.data, n, key, lo, g)} :: 0 <= n < f.hashFuncs ==>
      CellRecent(hash, f.data, n, key, lo, g)
  }

  ghost predicate CellRecent<K(!new)>(hash: Hash<K>, data: seq<Word>, n: nat, key: K, lo: nat, g: nat)
    requires ValidHash(hash) && ValidData(data)
  {
    CellInData(hash(n, key), data);
    Recent(Label(data, KeyCell(hash, |data|, n, key)), lo, g)
  }

  /** A label of one of the last two generations is not the next one, and stays recent. */
  lemma {:induction false} RecentStep(mark: nat, lo: nat, g: nat)
    requires Recent(mark, lo, g) && lo <= g <= lo + 1
    ensures mark != GenLabel(g + 1) && Recent(mark, lo, g + 1)
  {
  }

  lemma {:induction false} NextLabel(g: nat)
    ensures (if GenLabel(g) + 1 == 4 then 1 else GenLabel(g) + 1) == GenLabel(g + 1)
  {
  }

  /** Rolling into generation `g + 1` keeps the cells of the last two generations. */
  lemma {:induction false} RollKeeps<K(!new)>(hash: Hash<K>, f: Filter, key: K, lo: nat, g: nat)
    requires ValidHash(hash) && ValidData(f.data) && f.inGen == f.perGen && f.gen == GenLabel(g)
    requires KeyRecent(hash, f, key, lo, g) && lo <= g <= lo + 1
    ensures Rolled(f).gen == GenLabel(g + 1) && KeyRecent(hash, Rolled(f), key, lo, g + 1)
  {
    NextLabel(g);
    var g' := g + 1;
    var data := Wiped(f.data, GenLabel(g'));
    forall n | 0 <= n < f.hashFuncs
      ensures CellRecent(hash, data, n, key, lo, g')
    {
      assert CellRecent(hash, f.data, n, key, lo, g);
      CellInData(hash(n, key), f.data);
      var c := KeyCell(hash, |f.data|, n, key);
      WipeExact(f.data, GenLabel(g'), c);
      RecentStep(Label(f.data, c), lo, g);
    }
  }

  /** Marking in generation `g` keeps cells recent, and makes those of the new key so. */
  lemma {:induction false} MarkKeeps<K(!new)>(hash: Hash<K>, f: Filter, key: K, g: nat, data: seq<Word>, other: K,
    lo: nat)
    requires ValidHash(hash) && ValidData(f.data) && f.gen == GenLabel(g)
    requires data == MarkFrom(hash, f.data, key, 0, f.hashFuncs, f.gen)
    requires KeyRecent(hash, f, other, lo, g) || (other == key && lo == g)
    ensures KeyRecent(hash, f.(data := data), other, lo, g)
  {
    forall n | 0 <= n < f.hashFuncs
      ensures CellRecent(hash, data, n, other, lo, g)
    {
      CellInData(hash(n, other), f.data);
      MarkFromExact(hash, f.data, key, 0, f.hashFuncs, f.gen, KeyCell(hash, |f.data|, n, other));
      if !(other == key && lo == g) {
        assert CellRecent(hash, f.data, n, other, lo, g);
      }
    }
  }

  // ----- runs -----

  /** The generation in which the key number `j` is inserted. */
  function Born(j: nat, perGen: nat): nat
    requires perGen > 0
  {
    j / perGen
  }

  /** After `total` insertions: the count and the label, and the cells of every key of the last three generations. */
  ghost predicate Rolling<K(!new)>(hash: Hash<K>, f: Filter, keys: seq<K>, g: nat) {
    && ValidHash(hash) && ValidData(f.data) && f.perGen > 0 && f.inGen <= f.perGen && f.gen == GenLabel(g)
    && |keys| == g * f.perGen + f.inGen && (keys != [] ==> f.inGen > 0)
    && forall j {:trigger Kept(hash, f, keys, g, j)} :: 0 <= j < |keys| ==> Kept(hash, f, keys, g, j)
  }

  ghost predicate Kept<K(!new)>(hash: Hash<K>, f: Filter, keys: seq<K>, g: nat, j: nat)
    requires ValidHash(hash) && ValidData(f.data) && f.perGen > 0 && j < |keys|
  {
    var lo := Born(j, f.perGen);
    lo <= g && (g <= lo + 2 ==> KeyRecent(hash, f, keys[j], lo, g))
  }

  /** The generation after the next insertion. */
  function NextGen(f: Filter, g: nat): nat {
    if f.inGen == f.perGen then g + 1 else g
  }

  lemma {:induction false} BornNow(g: nat, perGen: nat, k: nat)
    requires k < perGen
    ensures Born(g * perGen + k, perGen) == g
  {
    DivModUnique(g * perGen + k, g, perGen, k);
  }

  /** The keys already inserted stay recent. */
  lemma {:induction false} RolledKept<K(!new)>(hash: Hash<K>, f: Filter, keys: seq<K>, g: nat, j: nat)
    requires Rolling(hash, f, keys, g) && j < |keys|
    ensures ValidData(Rolled(f).data) && Rolled(f).gen == GenLabel(NextGen(f, g))
    ensures Kept(hash, Rolled(f), keys, NextGen(f, g), j)
  {
    assert Kept(hash, f, keys, g, j);
    NextLabel(g);
    var lo := Born(j, f.perGen);
    if f.inGen == f.perGen && g + 1 <= lo + 2 {
      RollKeeps(hash, f, keys[j], lo, g);
    }
  }

  /** The slots of the filter after an insertion. */
  lemma {:induction false} InsertIs<K(!new)>(hash: Hash<K>, f: Filter, key: K)
    requires ValidHash(hash) && ValidData(f.data)
    ensures var r := Rolled(f);
      Insert(hash, f, key) == r.(data := MarkFrom(hash, r.data, key, 0, r.hashFuncs, r.gen)).(inGen := r.inGen + 1)
  {
  }

  lemma {:induction false} OldKept<K(!new)>(hash: Hash<K>, f: Filter, keys: seq<K>, g: nat, key: K, j: nat)
    requires Rolling(hash, f, keys, g) && j < |keys|
    ensures Kept(hash, Insert(hash, f, key), keys + [key], NextGen(f, g), j)
  {
    RolledKept(hash, f, keys, g, j);
    var r, lo := Rolled(f), Born(j, f.perGen);
    InsertIs(hash, f, key);
    if NextGen(f, g) <= lo + 2 {
      MarkKeeps(hash, r, key, NextGen(f, g), MarkFrom(hash, r.data, key, 0, r.hashFuncs, r.gen), keys[j], lo);
      SameCells(hash, r.(data := MarkFrom(hash, r.data, key, 0, r.hashFuncs, r.gen)), Insert(hash, f, key), keys[j], lo,
        NextGen(f, g));
    }
  }

  lemma {:induction false} SameCells<K(!new)>(hash: Hash<K>, f: Filter, f': Filter, key: K, lo: nat, g: nat)
    requires ValidHash(hash) && ValidData(f.data) && f'.data == f.data && f'.hashFuncs == f.hashFuncs
    requires KeyRecent(hash, f, key, lo, g)
    ensures KeyRecent(hash, f', key, lo, g)
  {
    forall n | 0 <= n < f'.hashFuncs
      ensures CellRecent(hash, f'.data, n, key, lo, g)
    {
      assert CellRecent(hash, f.data, n, key, lo, g);
    }
  }

  lemma {:induction false} OneGenMore(g: nat, perGen: nat)
    ensures (g + 1) * perGen == g * perGen + perGen
  {
  }

  lemma {:induction false} NewKept<K(!new)>(hash: Hash<K>, f: Filter, keys: seq<K>, g: nat, key: K)
    requires Rolling(hash, f, keys, g)
    ensures Kept(hash, Insert(hash, f, key), keys + [key], NextGen(f, g), |keys|)
  {
    NextLabel(g);
    var r, g' := Rolled(f), NextGen(f, g);
    OneGenMore(g, f.perGen);
    BornNow(g', f.perGen, r.inGen);
    InsertIs(hash, f, key);
    MarkKeeps(hash, r, key, g', MarkFrom(hash, r.data, key, 0, r.hashFuncs, r.gen), key, g');
    SameCells(hash, r.(data := MarkFrom(hash, r.data, key, 0, r.hashFuncs, r.gen)), Insert(hash, f, key), key, g', g');
  }

  lemma {:induction false} InsertKeeps<K(!new)>(hash: Hash<K>, f: Filter, keys: seq<K>, g: nat, key: K)
    requires Rolling(hash, f, keys, g)
    ensures Rolling(hash, Insert(hash, f, key), keys + [key], NextGen(f, g))
  {
    NextLabel(g);
    OneGenMore(g, f.perGen);
    forall j | 0 <= j < |keys + [key]|
      ensures Kept(hash, Insert(hash, f, key), keys + [key], NextGen(f, g), j)
    {
      if j < |keys| {
        OldKept(hash, f, keys, g, key, j);
      } else {
        NewKept(hash, f, keys, g, key);
      }
    }
  }

  lemma {:induction false} RunRolls<K(!new)>(hash: Hash<K>, nElements: nat, hashFuncs: nat, pairs: nat,
    keys: seq<K>) returns (g: nat)
    requires ValidHash(hash) && nElements > 0 && pairs > 0
    ensures ValidData(Reset(nElements, hashFuncs, pairs).data)
    ensures Rolling(hash, Run(hash, Reset(nElements, hashFuncs, pairs), keys), keys, g)
  {
    var f := Reset(nElements, hashFuncs, pairs);
    g := 0;
    if keys != [] {
      var init := keys[..|keys| - 1];
      g := RunRolls(hash, nElements, hashFuncs, pairs, init);
      assert keys == init + [keys[|keys| - 1]];
      InsertKeeps(hash, Run(hash, f, init), init, g, keys[|keys| - 1]);
      g := NextGen(Run(hash, f, init), g);
    }
  }

  /** A key of the last `2 * perGen` belongs to one of the last three generations. */
  lemma {:induction false} WindowRecent(j: nat, g: nat, perGen: nat, inGen: nat)
    requires perGen > 0 && 0 < inGen <= perGen && j < g * perGen + inGen <= j + 2 * perGen
    ensures g <= Born(j, perGen) + 2
  {
    var lo := Born(j, perGen);
    Division(j, perGen);
    MulAway(g - lo - 2, perGen);
    assert (g - lo - 2) * perGen == g * perGen - lo * perGen - 2 * perGen;
  }

  /** Over every run of insertions, the filter contains each of the last `nElements` keys. */
  lemma {:induction false} WindowContained<K(!new)>(hash: Hash<K>, nElements: nat, hashFuncs: nat, pairs: nat,
    keys: seq<K>, j: nat)
    requires ValidHash(hash) && nElements > 0 && pairs > 0 && j < |keys| <= j + nElements
    ensures ValidData(Reset(nElements, hashFuncs, pairs).data)
    ensures Contains(hash, Run(hash, Reset(nElements, hashFuncs, pairs), keys), keys[j])
  {
    var g := RunRolls(hash, nElements, hashFuncs, pairs, keys);
    var f := Run(hash, Reset(nElements, hashFuncs, pairs), keys);
    assert Kept(hash, f, keys, g, j);
    WindowRecent(j, g, f.perGen, f.inGen);
    forall n | 0 <= n < f.hashFuncs
      ensures CellSet(hash, f.data, n, keys[j])
    {
      assert CellRecent(hash, f.data, n, keys[j], Born(j, f.perGen), g);
    }
  }
}
