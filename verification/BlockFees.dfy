/** When the fee totals of the table of modified entries are exact (src/miner.cpp, src/miner.h). */
module BlockFees {
  import opened BlockAssembly
  import opened Collections
  import opened Mempool

  /** The fee total left by charging `charged`, `t` first, is exact if and only if the prioritisations of the others
      cancel out. */
  lemma {:induction false} FirstChargeExact(p: Pool, d: TxId, charged: set<TxId>, t: TxId)
    requires Acyclic(p) && TotalsExact(p) && d in p.mapTx && t in charged && charged <= p.ancestors[d]
    ensures FirstCharge(p, FreshEntry(p, d), charged, t) == Sum(p, ModFee, Family(p, d) - charged) <==>
            Sum(p, ModFee, charged - {t}) == Sum(p, Fee, charged - {t})
  {
    assert TotalsExactAt(p, d);
    SumRemove(p, Fee, charged, t);
    SumRemove(p, ModFee, charged, t);
    SplitOff(Family(p, d), charged);
    SumDisjoint(p, ModFee, charged, Family(p, d) - charged);
  }

  ghost predicate FeesExact(p: Pool, inBlock: set<TxId>, d: TxId, e: ModEntry)
    requires Acyclic(p) && d in p.mapTx
  {
    e.modFees == Sum(p, ModFee, Missing(p, inBlock, d))
  }

  /** The ancestors charged after `t` have prioritisations that cancel out. */
  ghost predicate RestCancels(p: Pool, charged: set<TxId>, t: TxId)
    requires charged <= p.mapTx.Keys
  {
    Sum(p, ModFee, charged - {t}) == Sum(p, Fee, charged - {t})
  }

  lemma {:induction false} MissingIsUncharged(p: Pool, inBlock: set<TxId>, d: TxId)
    requires d in p.ancestors && d !in inBlock
    ensures Missing(p, inBlock, d) == Family(p, d) - p.ancestors[d] * inBlock
  {
  }

  lemma {:induction false} TrackedExact(p: Pool, inBlock: set<TxId>, d: TxId, e: ModEntry) returns (t: TxId)
    requires Acyclic(p) && TotalsExact(p) && d in p.mapTx && d !in inBlock && FeesTracked(p, inBlock, d, e)
    ensures t in p.ancestors[d] * inBlock
    ensures FeesExact(p, inBlock, d, e) <==> RestCancels(p, p.ancestors[d] * inBlock, t)
  {
    var c := p.ancestors[d] * inBlock;
    t :| t in c && e.modFees == FirstCharge(p, FreshEntry(p, d), c, t);
    MissingIsUncharged(p, inBlock, d);
    FirstChargeExact(p, d, c, t);
  }

  lemma {:induction false} UnchargedExact(p: Pool, inBlock: set<TxId>, d: TxId)
    requires Acyclic(p) && TotalsExact(p) && d in p.mapTx && d !in inBlock && p.ancestors[d] !! inBlock
    ensures FeesExact(p, inBlock, d, FreshEntry(p, d))
  {
    assert Missing(p, inBlock, d) == Family(p, d);
    assert TotalsExactAt(p, d);
  }

  /** At every point of every run: the fees of a candidate that never failed are exact if and only if it has not been
      charged, or the prioritisations of the ancestors charged after the first, `t`, cancel out. */
  lemma {:induction false} FeeTotalExactness(
    p: Pool, inBlock: set<TxId>, failed: set<TxId>, m: ModTable, d: TxId) returns (t: TxId)
    requires WellFormed(p) && TableSound(p, inBlock, failed, m) && Candidate(p, inBlock, failed, m, d) && d !in failed
    ensures d in m ==> t in p.ancestors[d] * inBlock
    ensures FeesExact(p, inBlock, d, BaseEntry(p, m, d)) <==> d !in m || RestCancels(p, p.ancestors[d] * inBlock, t)
  {
    if d in m {
      t := TrackedExact(p, inBlock, d, m[d]);
    } else {
      t := d;
      UnchargedExact(p, inBlock, d);
    }
  }

  // ----- which pools keep all fee totals exact -----

  /** A transaction with two or more ancestors has none that is prioritised. */
  predicate PlainAncestors(p: Pool, d: TxId)
    requires d in p.ancestors && p.ancestors[d] <= p.mapTx.Keys
  {
    |p.ancestors[d]| >= 2 ==> forall a :: a in p.ancestors[d] ==> p.mapTx[a].modifiedFee == p.mapTx[a].fee
  }

  ghost predicate Plain(p: Pool)
    requires Acyclic(p)
  {
    forall d :: d in p.mapTx ==> PlainAncestors(p, d)
  }

  lemma {:induction false} PlainSums(p: Pool, s: set<TxId>)
    requires s <= p.mapTx.Keys && forall a :: a in s ==> p.mapTx[a].modifiedFee == p.mapTx[a].fee
    ensures Sum(p, ModFee, s) == Sum(p, Fee, s)
    decreases |s|
  {
    if s != {} {
      PlainSums(p, s - {Pick(s)});
    }
  }

  /** If leaving out any member makes two sums over the rest agree, all members have the same difference. */
  lemma {:induction false} EqualShares(p: Pool, s: set<TxId>, part: set<TxId>, share: int)
    requires part <= s <= p.mapTx.Keys && forall a :: a in s ==> p.mapTx[a].modifiedFee - p.mapTx[a].fee == share
    ensures Sum(p, ModFee, part) - Sum(p, Fee, part) == |part| * share
    decreases |part|
  {
    if part != {} {
      var rest := part - {Pick(part)};
      EqualShares(p, s, rest, share);
      assert |part| == |rest| + 1;
    }
  }

  /** If a set of two or more holds a prioritised member, one choice of the first charge makes the fees drift. */
  lemma {:induction false} DriftingChoice(p: Pool, s: set<TxId>, a: TxId) returns (t: TxId)
    requires s <= p.mapTx.Keys && |s| >= 2 && a in s && p.mapTx[a].modifiedFee != p.mapTx[a].fee
    ensures t in s && !RestCancels(p, s, t)
  {
    var total := Sum(p, ModFee, s) - Sum(p, Fee, s);
    if forall t :: t in s ==> p.mapTx[t].modifiedFee - p.mapTx[t].fee == total {
      EqualShares(p, s, s, total);
      assert |s| * total == total;
      assert total == 0 by {
        OnlyZeroScales(|s|, total);
      }
      t := a;
      assert false;
    } else {
      t :| t in s && p.mapTx[t].modifiedFee - p.mapTx[t].fee != total;
      SumRemove(p, ModFee, s, t);
      SumRemove(p, Fee, s, t);
    }
  }

  lemma {:induction false} OnlyZeroScales(n: nat, x: int)
    requires n >= 2 && n * x == x
    ensures x == 0
  {
    assert (n - 1) * x == 0;
  }

  ghost predicate ExactTable(p: Pool, inBlock: set<TxId>, failed: set<TxId>, m: ModTable)
    requires Acyclic(p) && m.Keys <= p.mapTx.Keys
  {
    forall d :: d in m && d !in failed ==> FeesExact(p, inBlock, d, m[d])
  }

  /** Whatever the selection loop has added, all fee totals of entries that never failed are exact. */
  ghost predicate AlwaysExact(p: Pool)
    requires Acyclic(p)
  {
    forall inBlock, failed, m {:trigger TableSound(p, inBlock, failed, m)} ::
      AncestorClosed(p, inBlock) && TableSound(p, inBlock, failed, m) ==> ExactTable(p, inBlock, failed, m)
  }

  lemma {:induction false} AtMostOne(c: set<TxId>, a: set<TxId>, t: TxId)
    requires c <= a && |a| <= 1 && t in c
    ensures c - {t} == {}
  {
    SubsetSize(c, a);
    SubsetSize(c - {t}, c);
    assert c == c - {t} + {t};
  }

  lemma {:induction false} PlainIsExact(p: Pool, inBlock: set<TxId>, failed: set<TxId>, m: ModTable, d: TxId)
    requires WellFormed(p) && TableSound(p, inBlock, failed, m) && d in m && d !in failed && PlainAncestors(p, d)
    ensures FeesExact(p, inBlock, d, m[d])
  {
    var t := FeeTotalExactness(p, inBlock, failed, m, d);
    var c := p.ancestors[d] * inBlock;
    if |p.ancestors[d]| >= 2 {
      PlainSums(p, c - {t});
    } else {
      AtMostOne(c, p.ancestors[d], t);
    }
  }

  /** The entry of `x` after the members of `inBlock` have been charged to it, `t` first. */
  ghost function ChargedEntry(p: Pool, inBlock: set<TxId>, x: TxId, t: TxId): ModEntry
    requires Acyclic(p) && x in p.mapTx && t in p.ancestors[x] * inBlock
  {
    var c := p.ancestors[x] * inBlock;
    var e := FreshEntry(p, x);
    ModEntry(e.size - Sum(p, Size, c), FirstCharge(p, e, c, t), e.sigOps - Sum(p, SigOps, c))
  }

  /** A table that the first call of UpdatePackagesForAdded may leave, where `t` is charged first to `d`. */
  ghost function ChargedTable(p: Pool, inBlock: set<TxId>, d: TxId, t: TxId): ModTable
    requires Acyclic(p) && d in p.mapTx && t in p.ancestors[d] * inBlock
  {
    map x | x in p.mapTx && x !in inBlock && p.ancestors[x] * inBlock != {} ::
      ChargedEntry(p, inBlock, x, if x == d then t else Pick(p.ancestors[x] * inBlock))
  }

  lemma {:induction false} ChargedTableUpdated(p: Pool, inBlock: set<TxId>, d: TxId, t: TxId)
    requires Acyclic(p) && d in p.mapTx && t in p.ancestors[d] * inBlock
    ensures UpdatedFor(p, inBlock, inBlock, map[], ChargedTable(p, inBlock, d, t))
  {
    var m := ChargedTable(p, inBlock, d, t);
    forall x | x in p.mapTx
      ensures UpdatedEntry(p, map[], m, x, Charged(p, inBlock, inBlock, x))
    {
      assert x !in inBlock ==> Charged(p, inBlock, inBlock, x) == p.ancestors[x] * inBlock;
    }
  }

  /** Wherever a transaction with two or more ancestors has a prioritised one, some order of charging them drifts. */
  lemma {:induction false} PrioritisedDrifts(p: Pool, d: TxId) returns (m: ModTable)
    requires WellFormed(p) && d in p.mapTx && !PlainAncestors(p, d)
    ensures AncestorClosed(p, p.ancestors[d]) && UpdatedFor(p, p.ancestors[d], p.ancestors[d], map[], m)
    ensures d in m && !FeesExact(p, p.ancestors[d], d, m[d])
  {
    var inBlock := p.ancestors[d];
    var a :| a in inBlock && p.mapTx[a].modifiedFee != p.mapTx[a].fee;
    var t := DriftingChoice(p, inBlock, a);
    assert p.ancestors[d] * inBlock == inBlock;
    m := ChargedTable(p, inBlock, d, t);
    ChargedTableUpdated(p, inBlock, d, t);
    MissingIsUncharged(p, inBlock, d);
    FirstChargeExact(p, d, inBlock, t);
  }

  /** All fee totals stay exact if and only if no transaction with two or more ancestors has a prioritised one. */
  lemma {:induction false} PoolFeesExact(p: Pool)
    requires WellFormed(p)
    ensures AlwaysExact(p) <==> Plain(p)
  {
    if Plain(p) {
      forall inBlock, failed, m | AncestorClosed(p, inBlock) && TableSound(p, inBlock, failed, m)
        ensures ExactTable(p, inBlock, failed, m)
      {
        forall d | d in m && d !in failed
          ensures FeesExact(p, inBlock, d, m[d])
        {
          PlainIsExact(p, inBlock, failed, m, d);
        }
      }
    } else {
      var d :| d in p.mapTx && !PlainAncestors(p, d);
      var m := PrioritisedDrifts(p, d);
      StartSound(p, p.ancestors[d], m);
      assert !ExactTable(p, p.ancestors[d], {}, m);
    }
  }

  /** With two prioritised ancestors in the block, however they got there, a fee total is wrong. */
  lemma {:induction false} TwoAncestorsDrift(
    p: Pool, inBlock: set<TxId>, failed: set<TxId>, m: ModTable, d: TxId, a: TxId, b: TxId)
    requires WellFormed(p) && TableSound(p, inBlock, failed, m) && d in m && d !in failed
    requires p.ancestors[d] * inBlock == {a, b} && a != b
    requires p.mapTx[a].modifiedFee != p.mapTx[a].fee && p.mapTx[b].modifiedFee != p.mapTx[b].fee
    ensures !FeesExact(p, inBlock, d, m[d])
  {
    var t := FeeTotalExactness(p, inBlock, failed, m, d);
    var other := OneOfTwo(a, b, t);
    SumOne(p, ModFee, other);
    SumOne(p, Fee, other);
  }

  lemma {:induction false} OneOfTwo(a: TxId, b: TxId, t: TxId) returns (other: TxId)
    requires a != b && t in {a, b}
    ensures {a, b} - {t} == {other} && other in {a, b}
  {
    other := if t == a then b else a;
  }

  lemma {:induction false} SumOne(p: Pool, m: Measure, a: TxId)
    requires a in p.mapTx
    ensures Sum(p, m, {a}) == Val(p, m, a)
  {
    SumAdd(p, m, {}, a);
    assert {} + {a} == {a};
  }

  // ----- a pool whose totals drift -----

  function ChainEntry(n: nat, modifiedFee: int, modFeesWithAncestors: int): TxEntry {
    TxEntry(100, 400, 1, 1000, modifiedFee, n + 1, 100 * (n + 1), n + 1, modFeesWithAncestors, true, false, 0)
  }

  /** Three transactions, each spending the one before; the first two are prioritised by 10. */
  const CHAIN_POOL := Pool(
    map[0 := ChainEntry(0, 1010, 1010), 1 := ChainEntry(1, 1010, 2020), 2 := ChainEntry(2, 1000, 3020)],
    map[0 := {}, 1 := {0}, 2 := {0, 1}], [0, 1, 2])

  lemma {:induction false} ChainSums(m: Measure)
    ensures var p := CHAIN_POOL;
      && Sum(p, m, {0}) == Val(p, m, 0) && Sum(p, m, {0, 1}) == Val(p, m, 0) + Val(p, m, 1)
      && Sum(p, m, {0, 1, 2}) == Val(p, m, 0) + Val(p, m, 1) + Val(p, m, 2)
  {
    var p := CHAIN_POOL;
    SumOne(p, m, 0);
    SumAdd(p, m, {0}, 1);
    SumAdd(p, m, {0, 1}, 2);
    assert {0} + {1} == {0, 1} && {0, 1} + {2} == {0, 1, 2};
  }

  lemma {:induction false} ChainIndexed()
    ensures Indexed(CHAIN_POOL)
  {
    var p := CHAIN_POOL;
    assert Listed(p, 0, 1) && Listed(p, 0, 2) && Listed(p, 1, 2);
  }

  lemma {:induction false} ChainAcyclic()
    ensures Acyclic(CHAIN_POOL) && CountsExact(CHAIN_POOL)
    ensures forall t :: t in CHAIN_POOL.mapTx ==> CHAIN_POOL.mapTx[t].weight <= 4 * CHAIN_POOL.mapTx[t].size
  {
    var p := CHAIN_POOL;
    assert Inherits(p, 0) && Inherits(p, 1) && Inherits(p, 2);
    assert |{0}| == 1 && |{0, 1}| == 2;
  }

  lemma {:induction false} ChainTotals(t: TxId)
    requires Acyclic(CHAIN_POOL) && t in CHAIN_POOL.mapTx
    ensures TotalsExactAt(CHAIN_POOL, t)
  {
    var p := CHAIN_POOL;
    ChainSums(Size);
    ChainSums(SigOps);
    ChainSums(ModFee);
    assert Family(p, t) == if t == 0 then {0} else if t == 1 then {0, 1} else {0, 1, 2};
  }

  lemma {:induction false} ChainWellFormed()
    ensures WellFormed(CHAIN_POOL) && Indexed(CHAIN_POOL)
  {
    ChainAcyclic();
    ChainIndexed();
    forall t | t in CHAIN_POOL.mapTx
      ensures TotalsExactAt(CHAIN_POOL, t)
    {
      ChainTotals(t);
    }
  }

  /** The package of the first two, added to an empty block, leaves a wrong fee total in every order of charging. */
  lemma {:induction false} FeeTotalsDrift(m: ModTable)
    requires UpdatedFor(CHAIN_POOL, {0, 1}, {0, 1}, map[], m)
    ensures WellFormed(CHAIN_POOL) && Missing(CHAIN_POOL, {}, 1) == {0, 1}
    ensures 2 in m && !FeesExact(CHAIN_POOL, {0, 1}, 2, m[2])
  {
    ChainWellFormed();
    StartSound(CHAIN_POOL, {0, 1}, m);
    assert UpdatedEntry(CHAIN_POOL, map[], m, 2, Charged(CHAIN_POOL, {0, 1}, {0, 1}, 2));
    assert 0 in Charged(CHAIN_POOL, {0, 1}, {0, 1}, 2);
    TwoAncestorsDrift(CHAIN_POOL, {0, 1}, {}, m, 2, 0, 1);
  }
}
