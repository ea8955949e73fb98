/** The memory pool as block assembly sees it: a finite DAG of transactions with cached ancestor totals. */
module Mempool {
  import opened Collections

  /** A transaction, identified by its hash; hashes are compared as numbers. */
  type TxId = nat

  datatype TxEntry = TxEntry(
    size: nat, weight: nat, sigOps: nat, fee: int, modifiedFee: int,
    countWithAncestors: nat, sizeWithAncestors: nat, sigOpsWithAncestors: nat, modFeesWithAncestors: int,
    isFinal: bool, hasWitness: bool, time: int)

  /** `ancestors` holds the proper in-pool ancestors, `byScore` the ancestor_score index of mapTx. */
  datatype Pool = Pool(mapTx: map<TxId, TxEntry>, ancestors: map<TxId, set<TxId>>, byScore: seq<TxId>)

  datatype Measure = Size | Weight | SigOps | Fee | ModFee

  function Val(p: Pool, m: Measure, t: TxId): int
    requires t in p.mapTx
  {
    match m
    case Size => p.mapTx[t].size
    case Weight => p.mapTx[t].weight
    case SigOps => p.mapTx[t].sigOps
    case Fee => p.mapTx[t].fee
    case ModFee => p.mapTx[t].modifiedFee
  }

  /** The total of a measure over a set of transactions. */
  ghost function Sum(p: Pool, m: Measure, s: set<TxId>): int
    requires s <= p.mapTx.Keys
  {
    if s == {} then 0 else Val(p, m, Pick(s)) + Sum(p, m, s - {Pick(s)})
  }

  ghost function Pick(s: set<TxId>): (t: TxId)
    requires s != {}
    ensures t in s
  {
    var t :| t in s;
    t
  }

  /** A transaction together with its in-pool ancestors. */
  ghost function Family(p: Pool, t: TxId): set<TxId>
    requires t in p.ancestors
  {
    p.ancestors[t] + {t}
  }

  ghost predicate Acyclic(p: Pool) {
    && p.ancestors.Keys == p.mapTx.Keys
    && (forall t :: t in p.ancestors ==> p.ancestors[t] <= p.mapTx.Keys && t !in p.ancestors[t])
    && (forall t :: t in p.ancestors ==> Inherits(p, t))
  }

  /** The ancestors of an ancestor are ancestors. */
  ghost predicate Inherits(p: Pool, t: TxId)
    requires t in p.ancestors && p.ancestors[t] <= p.ancestors.Keys
  {
    forall a {:trigger a in p.ancestors[t]} :: a in p.ancestors[t] ==> p.ancestors[a] <= p.ancestors[t]
  }

  ghost predicate CountsExact(p: Pool)
    requires Acyclic(p)
  {
    forall t :: t in p.mapTx ==> p.mapTx[t].countWithAncestors == |p.ancestors[t]| + 1
  }

  /** The cached totals of every entry are those of its family. */
  ghost predicate TotalsExact(p: Pool)
    requires Acyclic(p)
  {
    forall t {:trigger TotalsExactAt(p, t)} :: t in p.mapTx ==> TotalsExactAt(p, t)
  }

  ghost predicate TotalsExactAt(p: Pool, t: TxId)
    requires Acyclic(p) && t in p.mapTx
  {
    && p.mapTx[t].sizeWithAncestors == Sum(p, Size, Family(p, t))
    && p.mapTx[t].sigOpsWithAncestors == Sum(p, SigOps, Family(p, t))
    && p.mapTx[t].modFeesWithAncestors == Sum(p, ModFee, Family(p, t))
  }

  ghost predicate WellFormed(p: Pool) {
    && Acyclic(p)
    && CountsExact(p)
    && TotalsExact(p)
    && (forall t :: t in p.mapTx ==> p.mapTx[t].weight <= 4 * p.mapTx[t].size)
  }

  lemma {:induction false} SumRemove(p: Pool, m: Measure, s: set<TxId>, t: TxId)
    requires s <= p.mapTx.Keys && t in s
    ensures Sum(p, m, s) == Val(p, m, t) + Sum(p, m, s - {t})
    decreases |s|
  {
    var u := Pick(s);
    if u != t {
      SumRemove(p, m, s - {u}, t);
      SumRemove(p, m, s - {t}, u);
      RemoveTwo(s, t, u);
    }
  }

  lemma {:induction false} SumDisjoint(p: Pool, m: Measure, a: set<TxId>, b: set<TxId>)
    requires a <= p.mapTx.Keys && b <= p.mapTx.Keys && a !! b
    ensures Sum(p, m, a + b) == Sum(p, m, a) + Sum(p, m, b)
    decreases |a|
  {
    if a == {} {
      assert a + b == b;
    } else {
      var t :| t in a;
      SumRemove(p, m, a, t);
      SumRemove(p, m, a + b, t);
      UnionRemove(a, b, t);
      SumDisjoint(p, m, a - {t}, b);
    }
  }

  lemma {:induction false} SumAdd(p: Pool, m: Measure, s: set<TxId>, t: TxId)
    requires s <= p.mapTx.Keys && t in p.mapTx && t !in s
    ensures Sum(p, m, s + {t}) == Sum(p, m, s) + Val(p, m, t)
  {
    SumRemove(p, m, s + {t}, t);
    assert s + {t} - {t} == s;
  }

  lemma {:induction false} SumNonNegative(p: Pool, m: Measure, s: set<TxId>)
    requires s <= p.mapTx.Keys && (m.Size? || m.Weight? || m.SigOps?)
    ensures 0 <= Sum(p, m, s)
    decreases |s|
  {
    if s != {} {
      var t :| t in s;
      SumRemove(p, m, s, t);
      SumNonNegative(p, m, s - {t});
    }
  }

  /** Four times the virtual size bounds the weight of any set of transactions. */
  lemma {:induction false} WeightWithinSize(p: Pool, s: set<TxId>)
    requires WellFormed(p) && s <= p.mapTx.Keys
    ensures Sum(p, Weight, s) <= 4 * Sum(p, Size, s)
    decreases |s|
  {
    if s != {} {
      var t :| t in s;
      SumRemove(p, Weight, s, t);
      SumRemove(p, Size, s, t);
      WeightWithinSize(p, s - {t});
    }
  }

  /** Ancestors have strictly smaller ancestor counts. */
  lemma {:induction false} AncestorCountsGrow(p: Pool, a: TxId, t: TxId)
    requires Acyclic(p) && CountsExact(p) && t in p.mapTx && a in p.ancestors[t]
    ensures p.mapTx[a].countWithAncestors < p.mapTx[t].countWithAncestors
  {
    var rest := p.ancestors[t] - {a};
    assert p.ancestors[a] <= rest;
    SubsetSize(p.ancestors[a], rest);
    assert p.ancestors[t] == rest + {a};
  }
}

/** Ancestor-package block assembly (src/miner.cpp, src/miner.h). */
module BlockAssembly {
  import opened Collections
  import opened Mempool

  const MAX_BLOCK_WEIGHT: nat := 4000000
  const MAX_BLOCK_SIGOPS_COST: nat := 80000
  const WITNESS_SCALE_FACTOR: nat := 4
  const MAX_CONSECUTIVE_FAILURES: nat := 1000

  /** CTxMemPoolModifiedEntry without its iterator, which is the key of the table. */
  datatype ModEntry = ModEntry(size: int, modFees: int, sigOps: int)

  type ModTable = map<TxId, ModEntry>

  function FreshEntry(p: Pool, t: TxId): ModEntry
    requires t in p.mapTx
  {
    ModEntry(p.mapTx[t].sizeWithAncestors, p.mapTx[t].modFeesWithAncestors, p.mapTx[t].sigOpsWithAncestors)
  }

  // ----- the score order -----

  /** The fee and the size by which an entry is ranked: those of the transaction or of its package, whichever has the
      lower rate. */
  datatype Score = Score(fee: int, size: int)

  function ScoreOf(p: Pool, t: TxId, e: ModEntry): Score
    requires t in p.mapTx
  {
    if p.mapTx[t].modifiedFee * e.size > e.modFees * p.mapTx[t].size then Score(e.modFees, e.size)
    else Score(p.mapTx[t].modifiedFee, p.mapTx[t].size)
  }

  /** CompareTxMemPoolEntryByAncestorFee, in exact arithmetic: the higher rate first, then the lower hash. */
  predicate Ahead(p: Pool, a: TxId, ea: ModEntry, b: TxId, eb: ModEntry)
    requires a in p.mapTx && b in p.mapTx
  {
    var (x, y) := (ScoreOf(p, a, ea), ScoreOf(p, b, eb));
    if x.fee * y.size == x.size * y.fee then a < b else x.fee * y.size > x.size * y.fee
  }

  function Rate(fee: int, size: int): real
    requires size > 0
  {
    fee as real / size as real
  }

  lemma {:induction false} RatesCompare(f: int, n: int, g: int, k: int)
    requires n > 0 && k > 0
    ensures f * k > n * g <==> Rate(f, n) > Rate(g, k)
    ensures f * k == n * g <==> Rate(f, n) == Rate(g, k)
  {
    var (x, y) := (Rate(f, n), Rate(g, k));
    var (a, b) := (n as real, k as real);
    assert f as real == x * a && g as real == y * b;
    assert (f * k) as real == x * a * b && (n * g) as real == y * (a * b);
    assert x * a * b == x * (a * b) && a * b > 0.0;
  }

  function Lower(x: real, y: real): real {
    if x < y then x else y
  }

  /** A transaction is ranked by the lower of its own rate and that of its package, the highest first. */
  lemma {:induction false} AheadMeans(p: Pool, a: TxId, ea: ModEntry, b: TxId, eb: ModEntry)
    requires a in p.mapTx && b in p.mapTx && Sized(p, a, ea) && Sized(p, b, eb)
    ensures var ra := Lower(Rate(p.mapTx[a].modifiedFee, p.mapTx[a].size), Rate(ea.modFees, ea.size));
      var rb := Lower(Rate(p.mapTx[b].modifiedFee, p.mapTx[b].size), Rate(eb.modFees, eb.size));
      Ahead(p, a, ea, b, eb) <==> ra > rb || (ra == rb && a < b)
  {
    ScoreMeans(p, a, ea);
    ScoreMeans(p, b, eb);
    var (x, y) := (ScoreOf(p, a, ea), ScoreOf(p, b, eb));
    RatesCompare(x.fee, x.size, y.fee, y.size);
  }

  lemma {:induction false} ScoreMeans(p: Pool, t: TxId, e: ModEntry)
    requires t in p.mapTx && Sized(p, t, e)
    ensures ScoreOf(p, t, e).size > 0
    ensures Rate(ScoreOf(p, t, e).fee, ScoreOf(p, t, e).size) ==
      Lower(Rate(p.mapTx[t].modifiedFee, p.mapTx[t].size), Rate(e.modFees, e.size))
  {
    var (f, n) := (p.mapTx[t].modifiedFee, p.mapTx[t].size);
    RatesCompare(f, n, e.modFees, e.size);
    assert e.modFees * n == n * e.modFees;
  }

  /** Sizes are positive, so that rates can be compared. */
  predicate Sized(p: Pool, t: TxId, e: ModEntry)
    requires t in p.mapTx
  {
    p.mapTx[t].size > 0 && e.size > 0
  }

  lemma {:induction false} RateTransitive(x: Score, y: Score, z: Score)
    requires x.size > 0 && y.size > 0 && z.size > 0
    requires x.fee * y.size >= x.size * y.fee && y.fee * z.size >= y.size * z.fee
    ensures x.fee * z.size >= x.size * z.fee
    ensures x.fee * z.size == x.size * z.fee ==> x.fee * y.size == x.size * y.fee && y.fee * z.size == y.size * z.fee
  {
    var a, b := x.fee * y.size - x.size * y.fee, y.fee * z.size - y.size * z.fee;
    var c := x.fee * z.size - x.size * z.fee;
    RateIdentity(x, y, z);
    assert a * z.size >= 0 && b * x.size >= 0;
    assert c * y.size >= 0;
    if c == 0 {
      assert a * z.size == 0 && b * x.size == 0;
    }
  }

  lemma {:induction false} RateIdentity(x: Score, y: Score, z: Score)
    ensures (x.fee * z.size - x.size * z.fee) * y.size ==
      (x.fee * y.size - x.size * y.fee) * z.size + (y.fee * z.size - y.size * z.fee) * x.size
  {
    var p, q, r := x.fee * z.size * y.size, x.size * z.fee * y.size, x.size * y.fee * z.size;
    assert (x.fee * z.size - x.size * z.fee) * y.size == p - q;
    assert (x.fee * y.size - x.size * y.fee) * z.size == x.fee * y.size * z.size - r;
    assert (y.fee * z.size - y.size * z.fee) * x.size == y.fee * z.size * x.size - y.size * z.fee * x.size;
    assert p == x.fee * y.size * z.size && r == y.fee * z.size * x.size && q == y.size * z.fee * x.size;
  }

  /** Not being behind is transitive. */
  lemma {:induction false} AheadTransitive(
    p: Pool, a: TxId, ea: ModEntry, b: TxId, eb: ModEntry, c: TxId, ec: ModEntry)
    requires a in p.mapTx && b in p.mapTx && c in p.mapTx && Sized(p, a, ea) && Sized(p, b, eb) && Sized(p, c, ec)
    requires !Ahead(p, b, eb, a, ea) && !Ahead(p, c, ec, b, eb)
    ensures !Ahead(p, c, ec, a, ea)
  {
    var (x, y) := (ScoreOf(p, a, ea), ScoreOf(p, b, eb));
    var z := ScoreOf(p, c, ec);
    assert x.fee * y.size == y.size * x.fee && x.size * y.fee == y.fee * x.size;
    assert y.fee * z.size == z.size * y.fee && y.size * z.fee == z.fee * y.size;
    assert x.fee * z.size == z.size * x.fee && x.size * z.fee == z.fee * x.size;
    RateTransitive(x, y, z);
  }

  /** The score index lists exactly the pool's transactions, by their score. */
  ghost predicate Indexed(p: Pool) {
    && p.mapTx.Keys == (set t | t in p.byScore)
    && (forall t :: t in p.mapTx ==> p.mapTx[t].size > 0 && p.mapTx[t].sizeWithAncestors > 0)
    && forall i, j {:trigger Listed(p, i, j)} :: 0 <= i < j < |p.byScore| ==> Listed(p, i, j)
  }

  ghost predicate Listed(p: Pool, i: int, j: int)
    requires 0 <= i < j < |p.byScore|
  {
    var (a, b) := (p.byScore[i], p.byScore[j]);
    a in p.mapTx && b in p.mapTx && !Ahead(p, b, FreshEntry(p, b), a, FreshEntry(p, a))
  }

  /** What an entry's accounting starts from when ancestors are about to be charged to it. */
  function BaseEntry(p: Pool, m0: ModTable, d: TxId): ModEntry
    requires d in p.mapTx
  {
    if d in m0 then m0[d] else FreshEntry(p, d)
  }

  /** `e` is `d`'s base entry with the totals of `charged` taken off; the first charge against an entry
      absent from the table uses the modified fee, every other one the plain fee. */
  ghost predicate Accounted(p: Pool, m0: ModTable, d: TxId, charged: set<TxId>, e: ModEntry)
    requires d in p.mapTx && charged <= p.mapTx.Keys
  {
    var base := BaseEntry(p, m0, d);
    && e.size == base.size - Sum(p, Size, charged)
    && e.sigOps == base.sigOps - Sum(p, SigOps, charged)
    && (d in m0 ==> e.modFees == base.modFees - Sum(p, Fee, charged))
    && (d !in m0 ==> exists t :: t in charged && e.modFees == FirstCharge(p, base, charged, t))
  }

  /** The fee total left when `t` was the first of `charged` to be taken off a fresh entry. */
  ghost function FirstCharge(p: Pool, base: ModEntry, charged: set<TxId>, t: TxId): int
    requires charged <= p.mapTx.Keys && t in charged
  {
    base.modFees - Sum(p, Fee, charged) - (Val(p, ModFee, t) - Val(p, Fee, t))
  }

  /** The ancestors of `d` for which `d` is charged when `added` enters the block, up to those in `seen`. */
  ghost function Charged(p: Pool, added: set<TxId>, seen: set<TxId>, d: TxId): set<TxId>
    requires d in p.ancestors
  {
    if d in added then {} else p.ancestors[d] * added * seen
  }

  /** `m` is `m0` after the members of `added` in `seen` have been charged to their descendants. */
  ghost predicate UpdatedFor(p: Pool, added: set<TxId>, seen: set<TxId>, m0: ModTable, m: ModTable)
    requires Acyclic(p)
  {
    && m.Keys <= p.mapTx.Keys
    && forall d :: d in p.mapTx ==> UpdatedEntry(p, m0, m, d, Charged(p, added, seen, d))
  }

  ghost predicate UpdatedEntry(p: Pool, m0: ModTable, m: ModTable, d: TxId, charged: set<TxId>)
    requires Acyclic(p) && d in p.mapTx && charged <= p.mapTx.Keys
  {
    && (d in m <==> d in m0 || charged != {})
    && (d in m && charged == {} ==> m[d] == m0[d])
    && (d in m && charged != {} ==> Accounted(p, m0, d, charged, m[d]))
  }

  /** One table entry after being charged for one more ancestor. */
  function ChargeOne(p: Pool, m: ModTable, d: TxId, it: TxId): ModEntry
    requires d in p.mapTx && it in p.mapTx
  {
    if d !in m then
      var e := FreshEntry(p, d);
      ModEntry(e.size - p.mapTx[it].size, e.modFees - p.mapTx[it].modifiedFee, e.sigOps - p.mapTx[it].sigOps)
    else
      ModEntry(m[d].size - p.mapTx[it].size, m[d].modFees - p.mapTx[it].fee, m[d].sigOps - p.mapTx[it].sigOps)
  }

  lemma {:induction false} ChargeOneAccounts(
    p: Pool, m0: ModTable, m: ModTable, d: TxId, it: TxId, before: set<TxId>, m': ModTable)
    requires Acyclic(p) && d in p.mapTx && it in p.mapTx && before <= p.mapTx.Keys && it !in before
    requires UpdatedEntry(p, m0, m, d, before)
    requires d in m' && m'[d] == ChargeOne(p, m, d, it)
    ensures UpdatedEntry(p, m0, m', d, before + {it})
  {
    SumAdd(p, Size, before, it);
    SumAdd(p, SigOps, before, it);
    SumAdd(p, Fee, before, it);
    var after := before + {it};
    assert it in after;
    if before == {} {
      assert Sum(p, Size, before) == Sum(p, SigOps, before) == Sum(p, Fee, before) == 0;
      assert Accounted(p, m0, d, after, m'[d]);
    } else {
      assert Accounted(p, m0, d, before, m[d]);
      if d !in m0 {
        var t :| t in before && m[d].modFees == FirstCharge(p, FreshEntry(p, d), before, t);
        assert t in after && m'[d].modFees == FirstCharge(p, FreshEntry(p, d), after, t);
      }
      assert Accounted(p, m0, d, after, m'[d]);
    }
  }

  /** Charging `it` to its descendants outside the package takes the table one step further. */
  lemma {:induction false} ChargeStep(
    p: Pool, added: set<TxId>, seen: set<TxId>, it: TxId, m0: ModTable, m1: ModTable, m: ModTable, d: TxId)
    requires Acyclic(p) && added <= p.mapTx.Keys && it in added && it !in seen && d in p.mapTx
    requires UpdatedEntry(p, m0, m1, d, Charged(p, added, seen, d))
    requires d !in added && it in p.ancestors[d] ==> d in m && m[d] == ChargeOne(p, m1, d, it)
    requires d in added || it !in p.ancestors[d] ==> (d in m <==> d in m1) && (d in m ==> m[d] == m1[d])
    ensures UpdatedEntry(p, m0, m, d, Charged(p, added, seen + {it}, d))
  {
    var before := Charged(p, added, seen, d);
    if d !in added && it in p.ancestors[d] {
      assert Charged(p, added, seen + {it}, d) == before + {it};
      ChargeOneAccounts(p, m0, m1, d, it, before, m);
    } else {
      assert Charged(p, added, seen + {it}, d) == before;
    }
  }

  lemma {:induction false} ChargeAll(
    p: Pool, added: set<TxId>, seen: set<TxId>, it: TxId, m0: ModTable, m1: ModTable, m: ModTable)
    requires Acyclic(p) && added <= p.mapTx.Keys && it in added && it !in seen
    requires UpdatedFor(p, added, seen, m0, m1)
    requires DescendantsCharged(p, added, it, m1, m)
    ensures UpdatedFor(p, added, seen + {it}, m0, m)
  {
    forall d | d in p.mapTx
      ensures UpdatedEntry(p, m0, m, d, Charged(p, added, seen + {it}, d))
    {
      assert UpdatedEntry(p, m0, m1, d, Charged(p, added, seen, d));
      ChargeStep(p, added, seen, it, m0, m1, m, d);
    }
  }

  /** `m` is `m1` with `it` charged to each of its descendants outside `added`. */
  ghost predicate DescendantsCharged(p: Pool, added: set<TxId>, it: TxId, m1: ModTable, m: ModTable)
    requires p.ancestors.Keys == p.mapTx.Keys && it in p.mapTx
  {
    && m.Keys <= p.mapTx.Keys
    && forall d :: d in p.mapTx ==>
        if d !in added && it in p.ancestors[d] then d in m && m[d] == ChargeOne(p, m1, d, it)
        else (d in m <==> d in m1) && (d in m ==> m[d] == m1[d])
  }

  lemma {:induction false} NothingCharged(p: Pool, added: set<TxId>, m0: ModTable)
    requires Acyclic(p) && m0.Keys <= p.mapTx.Keys
    ensures UpdatedFor(p, added, {}, m0, m0)
  {
    forall d | d in p.mapTx
      ensures UpdatedEntry(p, m0, m0, d, Charged(p, added, {}, d))
    {
      assert Charged(p, added, {}, d) == {};
    }
  }

  /** UpdatePackagesForAdded: charge every transaction just added to all its descendants outside the package. */
  method UpdatePackagesForAdded(p: Pool, alreadyAdded: set<TxId>, m0: ModTable) returns (m: ModTable)
    requires Acyclic(p) && alreadyAdded <= p.mapTx.Keys && m0.Keys <= p.mapTx.Keys
    ensures UpdatedFor(p, alreadyAdded, alreadyAdded, m0, m)
  {
    m := m0;
    var todo := alreadyAdded;
    ghost var seen := {};
    NothingCharged(p, alreadyAdded, m0);
    while todo != {}
      invariant todo <= alreadyAdded && seen == alreadyAdded - todo
      invariant UpdatedFor(p, alreadyAdded, seen, m0, m)
      decreases todo
    {
      var it :| it in todo;
      var m' := ChargeDescendants(p, alreadyAdded, it, m);
      ChargeAll(p, alreadyAdded, seen, it, m0, m, m');
      m := m';
      todo := todo - {it};
      seen := seen + {it};
    }
    assert seen == alreadyAdded;
  }

  /** The inner loop over CalculateDescendants(it). */
  method ChargeDescendants(p: Pool, alreadyAdded: set<TxId>, it: TxId, m1: ModTable) returns (m: ModTable)
    requires p.ancestors.Keys == p.mapTx.Keys && it in alreadyAdded && it in p.mapTx && m1.Keys <= p.mapTx.Keys
    ensures DescendantsCharged(p, alreadyAdded, it, m1, m)
  {
    m := m1;
    var descendants := set d | d in p.mapTx.Keys && (d == it || it in p.ancestors[d]);
    var todo := descendants;
    while todo != {}
      invariant todo <= descendants
      invariant DescendantsCharged(p, alreadyAdded + todo, it, m1, m)
      decreases todo
    {
      var desc :| desc in todo;
      todo := todo - {desc};
      if desc !in alreadyAdded {
        m := m[desc := ChargeOne(p, m, desc, it)];
      }
    }
    assert alreadyAdded + todo == alreadyAdded;
  }

  /** CompareTxIterByAncestorCount: by ancestor count, then by hash. */
  predicate Before(p: Pool, a: TxId, b: TxId)
    requires a in p.mapTx && b in p.mapTx
  {
    if p.mapTx[a].countWithAncestors != p.mapTx[b].countWithAncestors
    then p.mapTx[a].countWithAncestors < p.mapTx[b].countWithAncestors
    else a < b
  }

  ghost predicate SortedByAncestorCount(p: Pool, s: seq<TxId>) {
    && (forall i :: 0 <= i < |s| ==> s[i] in p.mapTx)
    && (forall i, j {:trigger InOrder(p, s, i, j)} :: 0 <= i < j < |s| ==> InOrder(p, s, i, j))
  }

  predicate InOrder(p: Pool, s: seq<TxId>, i: int, j: int)
    requires 0 <= i < j < |s| && s[i] in p.mapTx && s[j] in p.mapTx
  {
    Before(p, s[i], s[j])
  }

  /** What the order means: ancestor counts do not decrease, and among equal ones the hashes grow. */
  lemma {:induction false} BlockOrder(p: Pool, s: seq<TxId>, i: int, j: int)
    requires SortedByAncestorCount(p, s) && 0 <= i < j < |s|
    ensures p.mapTx[s[i]].countWithAncestors <= p.mapTx[s[j]].countWithAncestors
    ensures p.mapTx[s[i]].countWithAncestors == p.mapTx[s[j]].countWithAncestors ==> s[i] < s[j]
  {
    assert InOrder(p, s, i, j);
  }

  ghost function Elements(s: seq<TxId>): set<TxId> {
    set t | t in s
  }

  /** The least member of a non-empty package in block order. */
  method FirstInOrder(p: Pool, package: set<TxId>) returns (first: TxId)
    requires package <= p.mapTx.Keys && package != {}
    ensures first in package && forall t :: t in package && t != first ==> Before(p, first, t)
  {
    first :| first in package;
    var todo := package - {first};
    while todo != {}
      invariant todo <= package && first in package && first !in todo
      invariant forall t :: t in package && t !in todo && t != first ==> Before(p, first, t)
      decreases todo
    {
      var t :| t in todo;
      todo := todo - {t};
      if Before(p, t, first) {
        first := t;
      }
    }
  }

  /** SortForBlock: the package in increasing order of ancestor count. */
  method SortForBlock(p: Pool, package: set<TxId>) returns (sorted: seq<TxId>)
    requires package <= p.mapTx.Keys
    ensures SortedByAncestorCount(p, sorted) && Elements(sorted) == package
  {
    sorted := [];
    var todo := package;
    while todo != {}
      invariant todo <= package && Elements(sorted) == package - todo
      invariant SortedByAncestorCount(p, sorted)
      invariant forall i, t :: 0 <= i < |sorted| && t in todo ==> Before(p, sorted[i], t)
      decreases todo
    {
      var t := FirstInOrder(p, todo);
      ElementsAppend(sorted, t);
      SortedAppend(p, sorted, t);
      sorted := sorted + [t];
      todo := todo - {t};
    }
  }

  lemma {:induction false} SortedAppend(p: Pool, s: seq<TxId>, t: TxId)
    requires SortedByAncestorCount(p, s) && t in p.mapTx
    requires forall i :: 0 <= i < |s| ==> Before(p, s[i], t)
    ensures SortedByAncestorCount(p, s + [t])
  {
    forall i, j | 0 <= i < j < |s + [t]|
      ensures InOrder(p, s + [t], i, j)
    {
      assert j < |s| ==> InOrder(p, s, i, j);
    }
  }

  lemma {:induction false} ElementsAppend(s: seq<TxId>, t: TxId)
    ensures Elements(s + [t]) == Elements(s) + {t}
  {
  }

  lemma {:induction false} ElementsTakeNext(s: seq<TxId>, k: int)
    requires 0 <= k < |s|
    ensures Elements(s[..k + 1]) == Elements(s[..k]) + {s[k]}
  {
    TakeNext(s, k);
  }

  lemma {:induction false} AncestorSortsFirst(p: Pool, sorted: seq<TxId>, i: int, k: int)
    requires Acyclic(p) && CountsExact(p) && SortedByAncestorCount(p, sorted)
    requires 0 <= i < |sorted| && 0 <= k < |sorted| && sorted[i] in p.ancestors[sorted[k]]
    ensures i < k && sorted[i] in sorted[..k]
  {
    AncestorCountsGrow(p, sorted[i], sorted[k]);
    assert k < i ==> InOrder(p, sorted, k, i);
    TakeMember(sorted, i, k);
  }

  /** In a sorted package every package member's ancestors inside the package precede it. */
  lemma {:induction false} AncestorsSortFirst(p: Pool, sorted: seq<TxId>, k: int)
    requires Acyclic(p) && CountsExact(p) && SortedByAncestorCount(p, sorted) && 0 <= k < |sorted|
    ensures p.ancestors[sorted[k]] * Elements(sorted) <= Elements(sorted[..k])
  {
    forall a | a in p.ancestors[sorted[k]] && a in sorted
      ensures a in sorted[..k]
    {
      var i :| 0 <= i < |sorted| && sorted[i] == a;
      AncestorSortsFirst(p, sorted, i, k);
    }
  }

  function SumSeq(s: seq<int>): int {
    if s == [] then 0 else SumSeq(s[..|s| - 1]) + s[|s| - 1]
  }

  /** The part of the family of `t` that is still missing from the block. */
  ghost function Missing(p: Pool, inBlock: set<TxId>, t: TxId): set<TxId>
    requires t in p.ancestors
  {
    Family(p, t) - inBlock
  }

  /** A block is ordered when it lists no transaction twice and each one after all its in-pool ancestors. */
  ghost predicate Ordered(p: Pool, vtx: seq<TxId>)
    requires Acyclic(p)
  {
    forall i :: 0 <= i < |vtx| ==> ProperlyPlaced(p, vtx, i)
  }

  ghost predicate ProperlyPlaced(p: Pool, vtx: seq<TxId>, i: int)
    requires Acyclic(p) && 0 <= i < |vtx|
  {
    vtx[i] in p.mapTx && vtx[i] !in vtx[..i] && p.ancestors[vtx[i]] <= Elements(vtx[..i])
  }

  ghost predicate AncestorClosed(p: Pool, s: set<TxId>)
    requires Acyclic(p)
  {
    && s <= p.mapTx.Keys
    && forall t :: t in s ==> p.ancestors[t] <= s
  }

  /** An ordered block never misses an ancestor. */
  lemma {:induction false} OrderedIsClosed(p: Pool, vtx: seq<TxId>)
    requires Acyclic(p) && Ordered(p, vtx)
    ensures AncestorClosed(p, Elements(vtx))
  {
    forall t | t in vtx
      ensures t in p.mapTx && p.ancestors[t] <= Elements(vtx)
    {
      var i :| 0 <= i < |vtx| && vtx[i] == t;
      assert ProperlyPlaced(p, vtx, i);
      assert Elements(vtx[..i]) <= Elements(vtx);
    }
  }

  lemma {:induction false} OrderedAppend(p: Pool, vtx: seq<TxId>, t: TxId)
    requires Acyclic(p) && Ordered(p, vtx) && t in p.mapTx
    requires t !in vtx && p.ancestors[t] <= Elements(vtx)
    ensures Ordered(p, vtx + [t])
  {
    var r := vtx + [t];
    forall i | 0 <= i < |r|
      ensures ProperlyPlaced(p, r, i)
    {
      assert r[..i] == vtx[..i];
      if i == |vtx| {
        assert vtx[..i] == vtx;
      } else {
        assert ProperlyPlaced(p, vtx, i);
      }
    }
  }

  /** What the table of modified entries promises while the block holds `inBlock`:
      its totals never fall short of what is missing, and are exact for entries that never failed, but for the
      fees, which are what the first charge and the later ones leave; an entry outside the table, the block and the
      failed set has no ancestor in the block. */
  ghost predicate TableSound(p: Pool, inBlock: set<TxId>, failed: set<TxId>, m: ModTable)
    requires Acyclic(p)
  {
    && m.Keys <= p.mapTx.Keys && m.Keys !! inBlock
    && (forall d :: d in m ==> EntrySound(p, inBlock, failed, d, m[d]))
    && (forall d :: d in m && d !in failed ==> FeesTracked(p, inBlock, d, m[d]))
    && (forall d :: d in p.mapTx && d !in inBlock && d !in m && d !in failed ==> p.ancestors[d] !! inBlock)
  }

  /** The fee total is what is left once all ancestors in the block have been taken off, the first of them with its
      modified fee and the others with their plain fees. */
  ghost predicate FeesTracked(p: Pool, inBlock: set<TxId>, d: TxId, e: ModEntry)
    requires Acyclic(p) && d in p.mapTx
  {
    var c := p.ancestors[d] * inBlock;
    exists t :: t in c && e.modFees == FirstCharge(p, FreshEntry(p, d), c, t)
  }

  ghost predicate EntrySound(p: Pool, inBlock: set<TxId>, failed: set<TxId>, d: TxId, e: ModEntry)
    requires Acyclic(p) && d in p.mapTx
  {
    && e.size >= Sum(p, Size, Missing(p, inBlock, d))
    && e.sigOps >= Sum(p, SigOps, Missing(p, inBlock, d))
    && (d !in failed ==>
          e.size == Sum(p, Size, Missing(p, inBlock, d)) && e.sigOps == Sum(p, SigOps, Missing(p, inBlock, d)))
  }

  /** Taking the newly added ancestors out of what was missing. */
  lemma {:induction false} MissingShrinks(p: Pool, m: Measure, inBlock: set<TxId>, added: set<TxId>, d: TxId)
    requires Acyclic(p) && d in p.mapTx && d !in added && added <= p.mapTx.Keys && added !! inBlock
    ensures Sum(p, m, Missing(p, inBlock, d)) ==
            Sum(p, m, Missing(p, inBlock + added, d)) + Sum(p, m, p.ancestors[d] * added)
  {
    assert Missing(p, inBlock, d) == Missing(p, inBlock + added, d) + p.ancestors[d] * added;
    SumDisjoint(p, m, Missing(p, inBlock + added, d), p.ancestors[d] * added);
  }

  lemma {:induction false} FamilySplit(p: Pool, m: Measure, inBlock: set<TxId>, d: TxId)
    requires Acyclic(p) && d in p.mapTx
    ensures Sum(p, m, Family(p, d)) == Sum(p, m, Missing(p, inBlock, d)) + Sum(p, m, Family(p, d) * inBlock)
  {
    assert Family(p, d) == Missing(p, inBlock, d) + Family(p, d) * inBlock;
    SumDisjoint(p, m, Missing(p, inBlock, d), Family(p, d) * inBlock);
  }

  /** A fresh entry never undercounts, and is exact when no family member is in the block. */
  lemma {:induction false} FreshEntrySound(p: Pool, inBlock: set<TxId>, failed: set<TxId>, d: TxId)
    requires WellFormed(p) && d in p.mapTx
    requires d in failed || Family(p, d) !! inBlock
    ensures EntrySound(p, inBlock, failed, d, FreshEntry(p, d))
  {
    assert TotalsExactAt(p, d);
    FamilySplit(p, Size, inBlock, d);
    FamilySplit(p, SigOps, inBlock, d);
    if d in failed {
      SumNonNegative(p, Size, Family(p, d) * inBlock);
      SumNonNegative(p, SigOps, Family(p, d) * inBlock);
    } else {
      assert Family(p, d) * inBlock == {};
    }
  }

  /** Charging the added ancestors of `d` carries a sound entry from `inBlock` to `inBlock + added`. */
  lemma {:induction false} ChargedEntrySound(
    p: Pool, inBlock: set<TxId>, failed: set<TxId>, added: set<TxId>, d: TxId, base: ModEntry, e: ModEntry)
    requires Acyclic(p) && d in p.mapTx && d !in added && added <= p.mapTx.Keys && added !! inBlock
    requires EntrySound(p, inBlock, failed, d, base)
    requires e.size == base.size - Sum(p, Size, p.ancestors[d] * added)
    requires e.sigOps == base.sigOps - Sum(p, SigOps, p.ancestors[d] * added)
    ensures EntrySound(p, inBlock + added, failed, d, e)
  {
    MissingShrinks(p, Size, inBlock, added, d);
    MissingShrinks(p, SigOps, inBlock, added, d);
  }

  lemma {:induction false} DescendantOutside(p: Pool, inBlock: set<TxId>, added: set<TxId>, d: TxId)
    requires Acyclic(p) && AncestorClosed(p, inBlock) && d in p.mapTx && added !! inBlock
    requires p.ancestors[d] * added != {}
    ensures d !in inBlock
  {
    var a :| a in p.ancestors[d] * added;
    assert a !in inBlock;
  }

  /** The entry a package is charged to was sound, or is a fresh one that does not undercount. */
  lemma {:induction false} BaseEntrySound(
    p: Pool, inBlock: set<TxId>, failed: set<TxId>, m0: ModTable, added: set<TxId>, d: TxId)
    requires WellFormed(p) && AncestorClosed(p, inBlock) && TableSound(p, inBlock, failed, m0)
    requires d in p.mapTx && d !in added && added !! inBlock
    requires d in m0 || p.ancestors[d] * added != {}
    ensures d !in inBlock && EntrySound(p, inBlock, failed, d, BaseEntry(p, m0 - added, d))
  {
    if d in m0 {
      assert EntrySound(p, inBlock, failed, d, m0[d]);
      assert BaseEntry(p, m0 - added, d) == m0[d];
    } else {
      DescendantOutside(p, inBlock, added, d);
      assert d in failed || Family(p, d) !! inBlock;
      FreshEntrySound(p, inBlock, failed, d);
      assert BaseEntry(p, m0 - added, d) == FreshEntry(p, d);
    }
  }

  /** Adding a package and charging it keeps the table sound: one entry. */
  lemma {:induction false} UpdateKeepsEntry(
    p: Pool, inBlock: set<TxId>, failed: set<TxId>, m0: ModTable, added: set<TxId>, m: ModTable, d: TxId)
    requires WellFormed(p) && AncestorClosed(p, inBlock) && TableSound(p, inBlock, failed, m0)
    requires added <= p.mapTx.Keys && added !! inBlock && d in p.mapTx
    requires UpdatedEntry(p, m0 - added, m, d, Charged(p, added, added, d))
    ensures d in m ==> d !in inBlock + added && EntrySound(p, inBlock + added, failed, d, m[d])
    ensures d !in inBlock + added && d !in m && d !in failed ==> p.ancestors[d] !! inBlock + added
  {
    var charged := p.ancestors[d] * added;
    if d !in added {
      assert Charged(p, added, added, d) == charged;
      if d in m {
        BaseEntrySound(p, inBlock, failed, m0, added, d);
        assert charged == {} ==>
          m[d] == BaseEntry(p, m0 - added, d) && Sum(p, Size, charged) == Sum(p, SigOps, charged) == 0;
        ChargedEntrySound(p, inBlock, failed, added, d, BaseEntry(p, m0 - added, d), m[d]);
      } else {
        assert d !in m0 - added && d !in m0;
        DisjointFromBoth(p.ancestors[d], inBlock, added);
      }
    }
  }

  /** An entry in the table is charged the plain fees of a further package. */
  lemma {:induction false} LaterChargesTracked(
    p: Pool, inBlock: set<TxId>, added: set<TxId>, d: TxId, e0: ModEntry, e: ModEntry)
    requires Acyclic(p) && d in p.mapTx && added !! inBlock && FeesTracked(p, inBlock, d, e0)
    requires e.modFees == e0.modFees - Sum(p, Fee, p.ancestors[d] * added)
    ensures FeesTracked(p, inBlock + added, d, e)
  {
    var before, charged := p.ancestors[d] * inBlock, p.ancestors[d] * added;
    var t :| t in before && e0.modFees == FirstCharge(p, FreshEntry(p, d), before, t);
    SumDisjoint(p, Fee, before, charged);
    assert p.ancestors[d] * (inBlock + added) == before + charged;
    assert t in before + charged;
  }

  lemma {:induction false} UpdateKeepsFees(
    p: Pool, inBlock: set<TxId>, failed: set<TxId>, m0: ModTable, added: set<TxId>, m: ModTable, d: TxId)
    requires WellFormed(p) && AncestorClosed(p, inBlock) && TableSound(p, inBlock, failed, m0)
    requires added <= p.mapTx.Keys && added !! inBlock && d in p.mapTx && d in m && d !in failed
    requires UpdatedEntry(p, m0 - added, m, d, Charged(p, added, added, d))
    ensures FeesTracked(p, inBlock + added, d, m[d])
  {
    var charged := p.ancestors[d] * added;
    assert d !in added && Charged(p, added, added, d) == charged;
    if d in m0 {
      assert FeesTracked(p, inBlock, d, m0[d]);
      assert charged == {} ==> Sum(p, Fee, charged) == 0;
      LaterChargesTracked(p, inBlock, added, d, m0[d], m[d]);
    } else {
      DescendantOutside(p, inBlock, added, d);
      assert p.ancestors[d] * (inBlock + added) == charged;
    }
  }

  /** The step invariant of the selection loop: erasing and charging a package keeps the table sound. */
  lemma {:induction false} PackageKeepsTableSound(
    p: Pool, inBlock: set<TxId>, failed: set<TxId>, m0: ModTable, added: set<TxId>, m: ModTable)
    requires WellFormed(p) && AncestorClosed(p, inBlock) && TableSound(p, inBlock, failed, m0)
    requires added <= p.mapTx.Keys && added !! inBlock
    requires UpdatedFor(p, added, added, m0 - added, m)
    ensures TableSound(p, inBlock + added, failed, m)
  {
    forall d | d in p.mapTx
      ensures d in m ==> d !in inBlock + added && EntrySound(p, inBlock + added, failed, d, m[d])
      ensures d in m && d !in failed ==> FeesTracked(p, inBlock + added, d, m[d])
      ensures d !in inBlock + added && d !in m && d !in failed ==> p.ancestors[d] !! inBlock + added
    {
      UpdateKeepsEntry(p, inBlock, failed, m0, added, m, d);
      if d in m && d !in failed {
        UpdateKeepsFees(p, inBlock, failed, m0, added, m, d);
      }
    }
  }

  /** The part of the assembler's state that describes the block under construction. */
  datatype Template = Template(
    vtx: seq<TxId>,             // the transactions after the coinbase placeholder
    vTxFees: seq<int>,          // recorded fees and sigop costs, likewise
    vTxSigOpsCost: seq<int>,
    nBlockWeight: int, nBlockTx: int, nBlockSigOpsCost: int, nFees: int,
    inBlock: set<TxId>)

  const EMPTY_TEMPLATE := Template([], [], [], 4000, 0, 400, 0, {})

  function Append(p: Pool, b: Template, t: TxId): Template
    requires t in p.mapTx
  {
    var e := p.mapTx[t];
    Template(b.vtx + [t], b.vTxFees + [e.fee], b.vTxSigOpsCost + [e.sigOps],
             b.nBlockWeight + e.weight, b.nBlockTx + 1, b.nBlockSigOpsCost + e.sigOps, b.nFees + e.fee, b.inBlock + {t})
  }

  /** The selection is ordered, and the counters are its totals. */
  ghost predicate Tallied(p: Pool, b: Template)
    requires Acyclic(p)
  {
    && Ordered(p, b.vtx)
    && b.inBlock == Elements(b.vtx) && b.inBlock <= p.mapTx.Keys
    && b.nBlockWeight == 4000 + Sum(p, Weight, b.inBlock)
    && b.nBlockSigOpsCost == 400 + Sum(p, SigOps, b.inBlock)
    && b.nFees == Sum(p, Fee, b.inBlock)
    && Recorded(p, b)
  }

  /** The per-transaction records match the listed transactions, and the fees add up to nFees. */
  ghost predicate Recorded(p: Pool, b: Template) {
    && |b.vTxFees| == |b.vTxSigOpsCost| == |b.vtx| == b.nBlockTx
    && (forall i :: 0 <= i < |b.vtx| ==> RecordedAt(p, b, i))
    && b.nFees == SumSeq(b.vTxFees)
  }

  ghost predicate RecordedAt(p: Pool, b: Template, i: int)
    requires 0 <= i < |b.vtx| == |b.vTxFees| == |b.vTxSigOpsCost|
  {
    b.vtx[i] in p.mapTx && b.vTxFees[i] == p.mapTx[b.vtx[i]].fee && b.vTxSigOpsCost[i] == p.mapTx[b.vtx[i]].sigOps
  }

  lemma {:induction false} AppendKeepsRecords(p: Pool, b: Template, t: TxId)
    requires Recorded(p, b) && t in p.mapTx
    ensures Recorded(p, Append(p, b, t))
  {
    var r := Append(p, b, t);
    assert r.vTxFees[..|r.vTxFees| - 1] == b.vTxFees;
    forall i | 0 <= i < |r.vtx|
      ensures RecordedAt(p, r, i)
    {
      if i < |b.vtx| {
        assert RecordedAt(p, b, i);
      }
    }
  }

  /** AddToBlock keeps the tally, provided the transaction is new and its ancestors are already in. */
  lemma {:induction false} AppendKeepsTally(p: Pool, b: Template, t: TxId)
    requires Acyclic(p) && Tallied(p, b) && t in p.mapTx && t !in b.inBlock && p.ancestors[t] <= b.inBlock
    ensures Tallied(p, Append(p, b, t))
  {
    ElementsAppend(b.vtx, t);
    OrderedAppend(p, b.vtx, t);
    SumAdd(p, Weight, b.inBlock, t);
    SumAdd(p, SigOps, b.inBlock, t);
    SumAdd(p, Fee, b.inBlock, t);
    AppendKeepsRecords(p, b, t);
  }

  /** The block once the members of `s` from index `k` on have been added in order. */
  function AppendFrom(p: Pool, b: Template, s: seq<TxId>, k: nat): Template
    requires k <= |s| && forall i :: 0 <= i < |s| ==> s[i] in p.mapTx
    decreases |s| - k
  {
    if k == |s| then b else AppendFrom(p, Append(p, b, s[k]), s, k + 1)
  }

  /** Adding the next member of a sorted package keeps the tally. */
  lemma {:induction false} SortedStep(p: Pool, inBlock: set<TxId>, t: TxId, sorted: seq<TxId>, k: int, b: Template)
    requires Acyclic(p) && CountsExact(p) && t in p.mapTx && SortedByAncestorCount(p, sorted) && 0 <= k < |sorted|
    requires Elements(sorted) == Missing(p, inBlock, t)
    requires Tallied(p, b) && b.inBlock == inBlock + Elements(sorted[..k])
    ensures Tallied(p, Append(p, b, sorted[k]))
  {
    PackageMemberAncestors(p, inBlock, t, sorted, k);
    AppendKeepsTally(p, b, sorted[k]);
  }

  /** Adding the missing part of a family in ancestor-count order keeps the tally throughout. */
  lemma {:induction false} SortedPackageKeepsTally(
    p: Pool, inBlock: set<TxId>, t: TxId, sorted: seq<TxId>, k: nat, b: Template)
    requires Acyclic(p) && CountsExact(p) && t in p.mapTx && SortedByAncestorCount(p, sorted) && k <= |sorted|
    requires Elements(sorted) == Missing(p, inBlock, t)
    requires Tallied(p, b) && b.inBlock == inBlock + Elements(sorted[..k])
    ensures Tallied(p, AppendFrom(p, b, sorted, k)) && AppendFrom(p, b, sorted, k).inBlock == inBlock + Elements(sorted)
    decreases |sorted| - k
  {
    if k < |sorted| {
      SortedStep(p, inBlock, t, sorted, k, b);
      ElementsTakeNext(sorted, k);
      SortedPackageKeepsTally(p, inBlock, t, sorted, k + 1, Append(p, b, sorted[k]));
    } else {
      TakeAll(sorted);
    }
  }

  /** A package that passed TestPackage leaves the block within its limits. */
  lemma {:induction false} PackageFits(
    p: Pool, b: Template, r: Template, t: TxId, size: int, sigOps: int, maxWeight: int)
    requires WellFormed(p) && Tallied(p, b) && Tallied(p, r) && t in p.mapTx && t !in b.inBlock
    requires r.inBlock == b.inBlock + Missing(p, b.inBlock, t)
    requires size >= Sum(p, Size, Missing(p, b.inBlock, t)) && sigOps >= Sum(p, SigOps, Missing(p, b.inBlock, t))
    requires b.nBlockWeight + WITNESS_SCALE_FACTOR * size < maxWeight
    requires b.nBlockSigOpsCost + sigOps < MAX_BLOCK_SIGOPS_COST
    ensures r.nBlockWeight < maxWeight && r.nBlockSigOpsCost < MAX_BLOCK_SIGOPS_COST
  {
    var package := Missing(p, b.inBlock, t);
    SumDisjoint(p, Weight, b.inBlock, package);
    SumDisjoint(p, SigOps, b.inBlock, package);
    WeightWithinSize(p, package);
  }

  /** Adding a tested package, sorted, leaves a tallied block within its limits. */
  lemma {:induction false} PackageAdded(
    p: Pool, b: Template, t: TxId, sorted: seq<TxId>, size: int, sigOps: int, maxWeight: int)
    returns (r: Template)
    requires WellFormed(p) && Tallied(p, b) && t in p.mapTx && t !in b.inBlock
    requires SortedByAncestorCount(p, sorted) && Elements(sorted) == Missing(p, b.inBlock, t)
    requires size >= Sum(p, Size, Missing(p, b.inBlock, t)) && sigOps >= Sum(p, SigOps, Missing(p, b.inBlock, t))
    requires b.nBlockWeight + WITNESS_SCALE_FACTOR * size < maxWeight
    requires b.nBlockSigOpsCost + sigOps < MAX_BLOCK_SIGOPS_COST
    ensures r == AppendFrom(p, b, sorted, 0) && Tallied(p, r) && r.inBlock == b.inBlock + Elements(sorted)
    ensures r.nBlockWeight < maxWeight && r.nBlockSigOpsCost < MAX_BLOCK_SIGOPS_COST
  {
    r := AppendFrom(p, b, sorted, 0);
    assert Elements(sorted[..0]) == {};
    SortedPackageKeepsTally(p, b.inBlock, t, sorted, 0, b);
    PackageFits(p, b, r, t, size, sigOps, maxWeight);
  }

  /** Selected ancestors of a package member are in the package or already in the block. */
  lemma {:induction false} PackageMemberAncestors(p: Pool, inBlock: set<TxId>, t: TxId, sorted: seq<TxId>, k: int)
    requires Acyclic(p) && CountsExact(p) && t in p.mapTx && SortedByAncestorCount(p, sorted) && 0 <= k < |sorted|
    requires Elements(sorted) == Missing(p, inBlock, t)
    ensures p.ancestors[sorted[k]] <= inBlock + Elements(sorted[..k])
    ensures sorted[k] !in inBlock + Elements(sorted[..k])
  {
    assert sorted[k] in Elements(sorted);
    assert p.ancestors[sorted[k]] <= Family(p, t);
    AncestorsSortFirst(p, sorted, k);
    forall i | 0 <= i < k
      ensures sorted[..k][i] != sorted[k]
    {
      assert InOrder(p, sorted, i, k);
    }
  }

  /** Why a transaction was passed over: its package did not fit, or held an unacceptable transaction. */
  datatype Rejection =
    | Unfit(weight: int, sigOpsCost: int, packageSize: int, packageSigOps: int)
    | Unacceptable(package: set<TxId>, tx: TxId, now: int)

  /** How a transaction got in: with the package of `lead`, whose totals `entry` passed at this weight and sigop cost,
      when the clock read `now`. */
  datatype Acceptance = Acceptance(lead: TxId, entry: ModEntry, weight: int, sigOpsCost: int, now: int)

  /** What TestPackageTransactions asks of one transaction, when the clock reads `now`. */
  predicate TxAcceptable(e: TxEntry, includeWitness: bool, now: int) {
    e.isFinal && (includeWitness || !e.hasWitness) && e.time <= now
  }

  /** The transactions added since the block held `start` passed all tests, and their packages reach the fee floor. */
  ghost predicate AllAccepted(
    p: Pool, maxWeight: int, includeWitness: bool, minFee: int -> int, start: set<TxId>, inBlock: set<TxId>,
    accepted: map<TxId, Acceptance>)
    requires Acyclic(p)
  {
    && accepted.Keys <= p.mapTx.Keys && inBlock == start + accepted.Keys
    && forall t {:trigger accepted[t]} :: t in accepted ==>
         Accepted(p, maxWeight, includeWitness, minFee, t, accepted[t])
  }

  ghost predicate Accepted(
    p: Pool, maxWeight: int, includeWitness: bool, minFee: int -> int, t: TxId, a: Acceptance)
    requires Acyclic(p) && t in p.mapTx
  {
    && p.mapTx[t].isFinal && (includeWitness || !p.mapTx[t].hasWitness) && p.mapTx[t].time <= a.now
    && a.lead in p.mapTx && t in Family(p, a.lead) && a.entry.modFees >= minFee(a.entry.size)
    && a.weight + 4 * a.entry.size < maxWeight && a.sigOpsCost + a.entry.sigOps < MAX_BLOCK_SIGOPS_COST
  }

  /** A rejection is justified when the test it records did fail. */
  predicate Justified(p: Pool, maxWeight: int, includeWitness: bool, r: Rejection) {
    match r
    case Unfit(weight, sigOpsCost, size, sigOps) =>
      weight + WITNESS_SCALE_FACTOR * size >= maxWeight || sigOpsCost + sigOps >= MAX_BLOCK_SIGOPS_COST
    case Unacceptable(package, tx, now) =>
      tx in package && tx in p.mapTx && !TxAcceptable(p.mapTx[tx], includeWitness, now)
  }

  ghost predicate AllJustified(p: Pool, maxWeight: int, includeWitness: bool, rejected: map<TxId, Rejection>) {
    forall t :: t in rejected ==> Justified(p, maxWeight, includeWitness, rejected[t])
  }

  /** The members of a package that passed its tests. */
  lemma {:induction false} PackageAccepted(
    p: Pool, maxWeight: int, includeWitness: bool, minFee: int -> int, inBlock: set<TxId>, t: TxId, entry: ModEntry,
    weight: int, sigOpsCost: int, readings: map<TxId, int>, accepted: map<TxId, Acceptance>)
    requires Acyclic(p) && t in p.mapTx && readings.Keys == Missing(p, inBlock, t) && readings.Keys <= p.mapTx.Keys
    requires forall x :: x in readings ==> TxAcceptable(p.mapTx[x], includeWitness, readings[x])
    requires entry.modFees >= minFee(entry.size)
    requires weight + 4 * entry.size < maxWeight && sigOpsCost + entry.sigOps < MAX_BLOCK_SIGOPS_COST
    requires accepted.Keys == readings.Keys
    requires forall x :: x in accepted ==> accepted[x] == Acceptance(t, entry, weight, sigOpsCost, readings[x])
    ensures AllAccepted(p, maxWeight, includeWitness, minFee, inBlock, inBlock + Missing(p, inBlock, t), accepted)
  {
  }

  /** Two rounds of additions. */
  lemma {:induction false} AcceptedTwice(
    p: Pool, maxWeight: int, includeWitness: bool, minFee: int -> int, start: set<TxId>, mid: set<TxId>,
    inBlock: set<TxId>, a: map<TxId, Acceptance>, b: map<TxId, Acceptance>)
    requires Acyclic(p) && AllAccepted(p, maxWeight, includeWitness, minFee, start, mid, a)
    requires AllAccepted(p, maxWeight, includeWitness, minFee, mid, inBlock, b)
    ensures AllAccepted(p, maxWeight, includeWitness, minFee, start, inBlock, a + b)
  {
  }

  lemma {:induction false} JustifiedAdd(
    p: Pool, maxWeight: int, includeWitness: bool, rejected: map<TxId, Rejection>, t: TxId, r: Rejection)
    requires AllJustified(p, maxWeight, includeWitness, rejected) && Justified(p, maxWeight, includeWitness, r)
    ensures AllJustified(p, maxWeight, includeWitness, rejected[t := r])
  {
  }

  /** Why transactions were passed over, one after the other, for lack of room in a block of this weight. */
  ghost predicate Failing(p: Pool, maxWeight: int, includeWitness: bool, unfit: seq<Rejection>, weight: int) {
    forall i {:trigger unfit[i]} :: 0 <= i < |unfit| ==>
      unfit[i].Unfit? && unfit[i].weight == weight && Justified(p, maxWeight, includeWitness, unfit[i])
  }

  lemma {:induction false} FailingAdd(
    p: Pool, maxWeight: int, includeWitness: bool, unfit: seq<Rejection>, weight: int, r: Rejection)
    requires Failing(p, maxWeight, includeWitness, unfit, weight)
    requires r.Unfit? && r.weight == weight && Justified(p, maxWeight, includeWitness, r)
    ensures Failing(p, maxWeight, includeWitness, unfit + [r], weight)
  {
  }

  /** How many entries there are to evaluate. */
  ghost function Waiting(p: Pool, g: Progress): int {
    |p.byScore| - g.mi + |g.mapModifiedTx|
  }

  lemma {:induction false} FewerWaiting(p: Pool, g: Progress, t: TxId, why: Rejection, usingModified: bool)
    requires usingModified ==> t in g.mapModifiedTx
    ensures Waiting(p, Rejected(g, t, why, usingModified)) < Waiting(p, g)
  {
    if usingModified {
      MapMinusOne(g.mapModifiedTx, t);
    }
  }

  lemma {:induction false} MapMinusOne(m: ModTable, t: TxId)
    requires t in m
    ensures |m - {t}| == |m| - 1
  {
    assert (m - {t}).Keys == m.Keys - {t};
  }

  lemma {:induction false} SmallerOutside(all: set<TxId>, before: set<TxId>, after: set<TxId>, t: TxId)
    requires before <= after && t in all && t !in before && t in after
    ensures |all - after| < |all - before|
  {
    SubsetSize(all - after, all - before - {t});
  }

  /** How the selection ended. */
  datatype Stop = Exhausted | BelowMinFee(tx: TxId, entry: ModEntry) | NearlyFull

  /** The local state of addPackageTxs: cursor into the score index, table, failed set, and what was rejected and
      accepted. */
  datatype Progress = Progress(mi: nat, mapModifiedTx: ModTable, failedTx: set<TxId>, rejected: map<TxId, Rejection>,
    accepted: map<TxId, Acceptance>)

  /** The loop invariant: the table is sound, and every transaction read so far is in the block,
      in the table or on record as rejected. */
  ghost predicate OnTrack(p: Pool, inBlock: set<TxId>, g: Progress)
    requires Acyclic(p)
  {
    && g.mi <= |p.byScore|
    && TableSound(p, inBlock, g.failedTx, g.mapModifiedTx)
    && g.failedTx <= g.rejected.Keys
    && forall i :: 0 <= i < g.mi ==> Handled(inBlock, g, p.byScore[i])
  }

  predicate Handled(inBlock: set<TxId>, g: Progress, t: TxId) {
    t in inBlock || t in g.mapModifiedTx || t in g.rejected
  }

  predicate SkipMapTxEntry(inBlock: set<TxId>, g: Progress, t: TxId) {
    t in g.mapModifiedTx || t in inBlock || t in g.failedTx
  }

  lemma {:induction false} SkipKeepsTrack(p: Pool, inBlock: set<TxId>, g: Progress)
    requires Acyclic(p) && OnTrack(p, inBlock, g) && g.mi < |p.byScore| && SkipMapTxEntry(inBlock, g, p.byScore[g.mi])
    ensures OnTrack(p, inBlock, g.(mi := g.mi + 1))
  {
  }

  /** Turning down the entry at the cursor, or erasing one from the table as failed. */
  lemma {:induction false} RejectKeepsTrack(
    p: Pool, inBlock: set<TxId>, g: Progress, t: TxId, why: Rejection, usingModified: bool)
    returns (r: Progress)
    requires Acyclic(p) && OnTrack(p, inBlock, g)
    requires usingModified ==> t in g.mapModifiedTx
    requires !usingModified ==> g.mi < |p.byScore| && t == p.byScore[g.mi]
    ensures r == Rejected(g, t, why, usingModified) && OnTrack(p, inBlock, r)
  {
    r := Rejected(g, t, why, usingModified);
    if usingModified {
      SmallerTableSound(p, inBlock, g.failedTx, g.mapModifiedTx, t);
    }
  }

  function Rejected(g: Progress, t: TxId, why: Rejection, usingModified: bool): Progress {
    var rejected := g.rejected[t := why];
    if usingModified then g.(mapModifiedTx := g.mapModifiedTx - {t}, failedTx := g.failedTx + {t}, rejected := rejected)
    else g.(mi := g.mi + 1, rejected := rejected)
  }

  /** Adding a package: the cursor moves on only if the entry came from the score index. */
  lemma {:induction false} AddKeepsTrack(
    p: Pool, inBlock: set<TxId>, g: Progress, t: TxId, after: set<TxId>, m: ModTable, usingModified: bool,
    accepted: map<TxId, Acceptance>)
    requires Acyclic(p) && OnTrack(p, inBlock, g)
    requires inBlock <= after && t in after && g.mapModifiedTx.Keys <= m.Keys + after
    requires TableSound(p, after, g.failedTx, m)
    requires !usingModified ==> g.mi < |p.byScore| && t == p.byScore[g.mi]
    ensures OnTrack(p, after,
      g.(mi := if usingModified then g.mi else g.mi + 1, mapModifiedTx := m, accepted := accepted))
  {
    var r := g.(mi := if usingModified then g.mi else g.mi + 1, mapModifiedTx := m, accepted := accepted);
    forall i | 0 <= i < r.mi
      ensures Handled(after, r, p.byScore[i])
    {
      if i < g.mi {
        assert Handled(inBlock, g, p.byScore[i]);
      }
    }
  }

  lemma {:induction false} AllHandled(p: Pool, inBlock: set<TxId>, g: Progress)
    requires Acyclic(p) && Indexed(p) && OnTrack(p, inBlock, g) && g.mi == |p.byScore| && g.mapModifiedTx == map[]
    ensures p.mapTx.Keys <= inBlock + g.rejected.Keys
  {
    forall t | t in p.mapTx
      ensures t in inBlock + g.rejected.Keys
    {
      var i :| 0 <= i < |p.byScore| && p.byScore[i] == t;
      assert Handled(inBlock, g, p.byScore[i]);
    }
  }

  /** What the selection loop evaluates: an entry of the table, or one of mapTx that is not skipped. */
  predicate Candidate(p: Pool, inBlock: set<TxId>, failed: set<TxId>, m: ModTable, t: TxId) {
    t in p.mapTx && (t in m || (t !in inBlock && t !in failed))
  }

  /** A mapTx entry that is not skipped has exact cached totals; a table entry never undercounts. */
  lemma {:induction false} CandidateSound(p: Pool, inBlock: set<TxId>, failed: set<TxId>, m: ModTable, t: TxId)
    requires WellFormed(p) && TableSound(p, inBlock, failed, m)
    requires Candidate(p, inBlock, failed, m, t)
    ensures t !in inBlock && EntrySound(p, inBlock, failed, t, BaseEntry(p, m, t))
  {
    if t !in m {
      FreshEntrySound(p, inBlock, failed, t);
    }
  }

  lemma {:induction false} SmallerTableSound(p: Pool, inBlock: set<TxId>, failed: set<TxId>, m: ModTable, t: TxId)
    requires Acyclic(p) && TableSound(p, inBlock, failed, m)
    ensures TableSound(p, inBlock, failed + {t}, m - {t})
  {
  }

  lemma {:induction false} EmptyBlockSound(p: Pool)
    requires Acyclic(p)
    ensures TableSound(p, {}, {}, map[]) && AncestorClosed(p, {})
  {
  }

  lemma {:induction false} StartSound(p: Pool, inBlock: set<TxId>, m: ModTable)
    requires WellFormed(p) && inBlock <= p.mapTx.Keys && UpdatedFor(p, inBlock, inBlock, map[], m)
    ensures TableSound(p, inBlock, {}, m)
  {
    var none: ModTable := map[];
    assert none - inBlock == none && {} + inBlock == inBlock;
    EmptyBlockSound(p);
    PackageKeepsTableSound(p, {}, {}, none, inBlock, m);
  }

  /** Building a block template from the pool. */
  class BlockAssembler {
    const pool: Pool
    const nBlockMaxWeight: nat
    /** blockMinFeeRate.GetFee */
    const minFee: int -> int
    const fIncludeWitness: bool

    var vtx: seq<TxId>
    var vTxFees: seq<int>
    var vTxSigOpsCost: seq<int>
    var nBlockWeight: int
    var nBlockTx: int
    var nBlockSigOpsCost: int
    var nFees: int
    var inBlock: set<TxId>

    ghost function Block(): Template
      reads this
    {
      Template(vtx, vTxFees, vTxSigOpsCost, nBlockWeight, nBlockTx, nBlockSigOpsCost, nFees, inBlock)
    }

    /** The constructor clamps the configured weight; resetBlock reserves room for the coinbase. */
    constructor (p: Pool, maxWeight: nat, fee: int -> int)
      requires WellFormed(p)
      ensures pool == p && minFee == fee && Block() == EMPTY_TEMPLATE && Tallied(pool, Block()) && WithinLimits()
      ensures 4000 <= nBlockMaxWeight <= MAX_BLOCK_WEIGHT - 4000
      ensures 4000 <= maxWeight <= MAX_BLOCK_WEIGHT - 4000 ==> nBlockMaxWeight == maxWeight
    {
      pool, minFee := p, fee;
      var capped := if maxWeight < MAX_BLOCK_WEIGHT - 4000 then maxWeight else MAX_BLOCK_WEIGHT - 4000;
      nBlockMaxWeight := if 4000 < capped then capped else 4000;
      inBlock, vtx, vTxFees, vTxSigOpsCost := {}, [], [], [];
      nBlockWeight, nBlockSigOpsCost, fIncludeWitness := 4000, 400, false;
      nBlockTx, nFees := 0, 0;
    }

    ghost predicate WithinLimits()
      reads this
    {
      && nBlockWeight <= nBlockMaxWeight
      && nBlockSigOpsCost < MAX_BLOCK_SIGOPS_COST
    }

    predicate TestPackage(packageSize: int, packageSigOpsCost: int)
      reads this
    {
      && nBlockWeight + WITNESS_SCALE_FACTOR * packageSize < nBlockMaxWeight
      && nBlockSigOpsCost + packageSigOpsCost < MAX_BLOCK_SIGOPS_COST
    }

    /** Remove transactions already in the block from a set. */
    method OnlyUnconfirmed(testSet: set<TxId>) returns (rest: set<TxId>)
      ensures rest == testSet - inBlock
    {
      rest := testSet;
      var todo := testSet;
      while todo != {}
        invariant todo <= testSet && rest == testSet - (inBlock * (testSet - todo))
        decreases todo
      {
        var t :| t in todo;
        todo := todo - {t};
        if t in inBlock {
          rest := rest - {t};
        }
      }
    }

    method AddToBlock(t: TxId)
      requires t in pool.mapTx
      modifies this
      ensures Block() == Append(pool, old(Block()), t)
    {
      vtx := vtx + [t];
      vTxFees := vTxFees + [pool.mapTx[t].fee];
      vTxSigOpsCost := vTxSigOpsCost + [pool.mapTx[t].sigOps];
      nBlockWeight := nBlockWeight + pool.mapTx[t].weight;
      nBlockTx := nBlockTx + 1;
      nBlockSigOpsCost := nBlockSigOpsCost + pool.mapTx[t].sigOps;
      nFees := nFees + pool.mapTx[t].fee;
      inBlock := inBlock + {t};
    }

    /** Add a sorted package to the block, erasing its members from the table of modified entries. */
    method AddSorted(sorted: seq<TxId>, m0: ModTable) returns (m: ModTable)
      requires forall i :: 0 <= i < |sorted| ==> sorted[i] in pool.mapTx
      modifies this
      ensures Block() == AppendFrom(pool, old(Block()), sorted, 0)
      ensures m == m0 - Elements(sorted)
    {
      m := m0;
      var i := 0;
      while i < |sorted|
        invariant 0 <= i <= |sorted|
        invariant AppendFrom(pool, Block(), sorted, i) == AppendFrom(pool, old(Block()), sorted, 0)
        invariant m == m0 - Elements(sorted[..i])
      {
        AddToBlock(sorted[i]);
        ElementsTakeNext(sorted, i);
        MapMinusTwice(m0, Elements(sorted[..i]), sorted[i]);
        m := m - {sorted[i]};
        i := i + 1;
      }
      TakeAll(sorted);
    }

    /** Sort and add the missing part of `t`'s family, then charge it to its descendants. */
    method AddPackage(t: TxId, ghost entry: ModEntry, package: set<TxId>, m0: ModTable, ghost failed: set<TxId>)
      returns (m: ModTable)
      requires WellFormed(pool) && Tallied(pool, Block()) && TableSound(pool, inBlock, failed, m0)
      requires t in pool.mapTx && t !in inBlock && package == Missing(pool, inBlock, t)
      requires EntrySound(pool, inBlock, failed, t, entry) && TestPackage(entry.size, entry.sigOps)
      modifies this
      ensures Tallied(pool, Block()) && WithinLimits() && nBlockWeight < nBlockMaxWeight
      ensures inBlock == old(inBlock) + package
      ensures TableSound(pool, inBlock, failed, m) && m0.Keys <= m.Keys + inBlock
    {
      var sorted := SortForBlock(pool, package);
      var erased := AddSorted(sorted, m0);
      ghost var _ := PackageAdded(pool, old(Block()), t, sorted, entry.size, entry.sigOps, nBlockMaxWeight);
      m := UpdatePackagesForAdded(pool, package, erased);
      OrderedIsClosed(pool, old(vtx));
      PackageKeepsTableSound(pool, old(inBlock), failed, m0, package, m);
      KeysKept(pool, package, erased, m);
    }

    /** The ancestors of `t` that are not yet in the block, and `t` itself. */
    method GatherPackage(t: TxId) returns (package: set<TxId>)
      requires Acyclic(pool) && t in pool.mapTx && t !in inBlock
      ensures package == Missing(pool, inBlock, t)
    {
      package := OnlyUnconfirmed(pool.ancestors[t]);
      package := package + {t};
    }

    /** Every transaction is tested against the clock as it is read for that transaction. */
    method TestPackageTransactions(package: set<TxId>) returns (ok: bool, culprit: TxId, readings: map<TxId, int>)
      requires package <= pool.mapTx.Keys
      ensures ok ==> readings.Keys == package
      ensures ok ==> forall t :: t in package ==> TxAcceptable(pool.mapTx[t], fIncludeWitness, readings[t])
      ensures !ok ==> culprit in package && culprit in readings
      ensures !ok ==> !TxAcceptable(pool.mapTx[culprit], fIncludeWitness, readings[culprit])
    {
      ok, culprit, readings := true, 0, map[];
      var todo := package;
      while todo != {}
        invariant todo <= package && readings.Keys == package - todo
        invariant forall t :: t in readings ==> TxAcceptable(pool.mapTx[t], fIncludeWitness, readings[t])
        decreases |todo|
      {
        ghost var w := AnyMember(todo);
        var t :| t in todo;
        var now: int := *;
        readings := readings[t := now];
        if !pool.mapTx[t].isFinal {
          return false, t, readings;
        }
        if !fIncludeWitness && pool.mapTx[t].hasWitness {
          return false, t, readings;
        }
        if pool.mapTx[t].time > now {
          return false, t, readings;
        }
        todo := todo - {t};
      }
    }

    /** Test one candidate package and, if it passes, add it. */
    method TryPackage(t: TxId, entry: ModEntry, m0: ModTable, ghost failed: set<TxId>)
      returns (added: bool, m: ModTable, reason: Rejection, accepted: map<TxId, Acceptance>)
      requires WellFormed(pool) && Tallied(pool, Block()) && TableSound(pool, inBlock, failed, m0)
      requires t in pool.mapTx && t !in inBlock && EntrySound(pool, inBlock, failed, t, entry)
      requires entry.modFees >= minFee(entry.size)
      modifies this
      ensures added ==> Tallied(pool, Block()) && WithinLimits() && TableSound(pool, inBlock, failed, m)
      ensures added ==> nBlockWeight < nBlockMaxWeight
      ensures added ==> inBlock == old(inBlock) + Missing(pool, old(inBlock), t) && m0.Keys <= m.Keys + inBlock
      ensures added ==> AllAccepted(pool, nBlockMaxWeight, fIncludeWitness, minFee, old(inBlock), inBlock, accepted)
      ensures !added ==> Block() == old(Block()) && m == m0 && Justified(pool, nBlockMaxWeight, fIncludeWitness, reason)
      ensures !added && reason.Unfit? ==> reason == Unfit(nBlockWeight, nBlockSigOpsCost, entry.size, entry.sigOps)
      ensures !added && reason.Unacceptable? ==> reason.package == Missing(pool, inBlock, t)
    {
      added, m, reason := false, m0, Unfit(nBlockWeight, nBlockSigOpsCost, entry.size, entry.sigOps);
      accepted := map[];
      if TestPackage(entry.size, entry.sigOps) {
        var ancestors := GatherPackage(t);
        var ok, culprit, readings := TestPackageTransactions(ancestors);
        if ok {
          added := true;
          accepted := map x | x in readings :: Acceptance(t, entry, nBlockWeight, nBlockSigOpsCost, readings[x]);
          PackageAccepted(pool, nBlockMaxWeight, fIncludeWitness, minFee, inBlock, t, entry, nBlockWeight,
            nBlockSigOpsCost, readings, accepted);
          m := AddPackage(t, entry, ancestors, m0, failed);
        } else {
          reason := Unacceptable(ancestors, culprit, readings[culprit]);
        }
      }
    }

    /** What the selection keeps, counted from a block that held `start`. */
    ghost predicate Selecting(start: set<TxId>, g: Progress)
      reads this
    {
      && WellFormed(pool) && Indexed(pool) && Tallied(pool, Block()) && WithinLimits() && OnTrack(pool, inBlock, g)
      && (inBlock != start ==> nBlockWeight < nBlockMaxWeight)
      && AllJustified(pool, nBlockMaxWeight, fIncludeWitness, g.rejected)
      && AllAccepted(pool, nBlockMaxWeight, fIncludeWitness, minFee, start, inBlock, g.accepted)
    }

    /** Evaluate one candidate and record the outcome. */
    method Evaluate(t: TxId, usingModified: bool, entry: ModEntry, g0: Progress, ghost start: set<TxId>)
      returns (added: bool, g: Progress)
      requires Selecting(start, g0)
      requires t in pool.mapTx && t !in inBlock && EntrySound(pool, inBlock, g0.failedTx, t, entry)
      requires entry.modFees >= minFee(entry.size)
      requires usingModified ==> t in g0.mapModifiedTx
      requires !usingModified ==> g0.mi < |pool.byScore| && t == pool.byScore[g0.mi]
      modifies this
      ensures Selecting(start, g)
      ensures added ==> old(inBlock) < inBlock && t in inBlock
      ensures !added ==>
        Block() == old(Block()) && t in g.rejected && g == Rejected(g0, t, g.rejected[t], usingModified)
      ensures !added && g.rejected[t].Unfit? ==> g.rejected[t].weight == nBlockWeight
    {
      var m, reason, accepted;
      added, m, reason, accepted := TryPackage(t, entry, g0.mapModifiedTx, g0.failedTx);
      if added {
        AddKeepsTrack(pool, old(inBlock), g0, t, inBlock, m, usingModified, g0.accepted + accepted);
        AcceptedTwice(pool, nBlockMaxWeight, fIncludeWitness, minFee, start, old(inBlock), inBlock, g0.accepted,
          accepted);
        g := g0.(mi := if usingModified then g0.mi else g0.mi + 1, mapModifiedTx := m,
          accepted := g0.accepted + accepted);
      } else {
        ghost var _ := RejectKeepsTrack(pool, inBlock, g0, t, reason, usingModified);
        JustifiedAdd(pool, nBlockMaxWeight, fIncludeWitness, g0.rejected, t, reason);
        g := Rejected(g0, t, reason, usingModified);
      }
    }

    /** How many transactions are not in the block. */
    ghost function Outside(): nat
      reads this
    {
      |pool.mapTx.Keys - inBlock|
    }

    /** Select the foremost candidate and evaluate it, unless its fees are below the floor. */
    method Consider(g0: Progress, ghost start: set<TxId>)
      returns (t: TxId, entry: ModEntry, below: bool, added: bool, g: Progress)
      requires Selecting(start, g0) && (g0.mi < |pool.byScore| || g0.mapModifiedTx != map[])
      requires g0.mi < |pool.byScore| ==> !SkipMapTxEntry(inBlock, g0, pool.byScore[g0.mi])
      modifies this
      ensures Selecting(start, g)
      ensures below || Outside() < old(Outside()) ||
        (Outside() == old(Outside()) && Waiting(pool, g) < Waiting(pool, g0))
      ensures below ==>
        && g == g0 && Block() == old(Block()) && Foremost(pool, inBlock, g, t)
        && entry == BaseEntry(pool, g.mapModifiedTx, t) && entry.modFees < minFee(entry.size)
      ensures !below && !added ==>
        && Block() == old(Block()) && t in g.rejected
        && (g.rejected[t].Unfit? ==> g.rejected[t].weight == nBlockWeight)
    {
      var usingModified;
      t, usingModified := SelectCandidate(g0);
      CandidateSound(pool, inBlock, g0.failedTx, g0.mapModifiedTx, t);
      entry := BaseEntry(pool, g0.mapModifiedTx, t);
      below, added, g := entry.modFees < minFee(entry.size), false, g0;
      if !below {
        added, g := Evaluate(t, usingModified, entry, g0, start);
        if added {
          SmallerOutside(pool.mapTx.Keys, old(inBlock), inBlock, t);
        } else {
          FewerWaiting(pool, g0, t, g.rejected[t], usingModified);
        }
      }
    }

    /** Why the selection may end early: the foremost candidate is below the fee floor, or the block is nearly full and
        too many candidates in a row did not fit. */
    ghost predicate EndsEarly(stop: Stop, g: Progress, unfit: seq<Rejection>)
      requires Acyclic(pool)
      reads this
    {
      match stop
      case Exhausted => false
      case BelowMinFee(t, entry) =>
        && Foremost(pool, inBlock, g, t)
        && entry == BaseEntry(pool, g.mapModifiedTx, t) && entry.modFees < minFee(entry.size)
      case NearlyFull =>
        && nBlockWeight > nBlockMaxWeight - 4000 && |unfit| > MAX_CONSECUTIVE_FAILURES
        && Failing(pool, nBlockMaxWeight, fIncludeWitness, unfit, nBlockWeight)
    }

    /** One round of the selection: an entry is skipped, or the foremost candidate considered. */
    method Round(g0: Progress, failed0: nat, ghost start: set<TxId>, ghost unfit0: seq<Rejection>)
      returns (stop: Option<Stop>, g: Progress, failed: nat, ghost unfit: seq<Rejection>)
      requires Selecting(start, g0) && (g0.mi < |pool.byScore| || g0.mapModifiedTx != map[])
      requires |unfit0| == failed0 && Failing(pool, nBlockMaxWeight, fIncludeWitness, unfit0, nBlockWeight)
      modifies this
      ensures Selecting(start, g)
      ensures stop.Some? ==> EndsEarly(stop.value, g, unfit)
      ensures stop.None? ==> |unfit| == failed && Failing(pool, nBlockMaxWeight, fIncludeWitness, unfit, nBlockWeight)
      ensures stop.None? ==>
        Outside() < old(Outside()) || (Outside() == old(Outside()) && Waiting(pool, g) < Waiting(pool, g0))
    {
      stop, g, failed, unfit := None, g0, failed0, unfit0;
      if g.mi < |pool.byScore| && SkipMapTxEntry(inBlock, g, pool.byScore[g.mi]) {
        SkipKeepsTrack(pool, inBlock, g);
        g := g.(mi := g.mi + 1);
        return;
      }
      var t, entry, below, added;
      t, entry, below, added, g := Consider(g, start);
      if below {
        stop := Some(BelowMinFee(t, entry));
      } else if added {
        failed, unfit := 0, [];
      } else if g.rejected[t].Unfit? {
        FailingAdd(pool, nBlockMaxWeight, fIncludeWitness, unfit, nBlockWeight, g.rejected[t]);
        failed, unfit := failed + 1, unfit + [g.rejected[t]];
        if failed > MAX_CONSECUTIVE_FAILURES && nBlockWeight > nBlockMaxWeight - 4000 {
          stop := Some(NearlyFull);
        }
      }
    }

    /** The descendants of what is in the block already are charged for it. */
    method Begin() returns (g: Progress)
      requires WellFormed(pool) && Indexed(pool) && Tallied(pool, Block()) && WithinLimits()
      ensures Selecting(inBlock, g)
    {
      var m := UpdatePackagesForAdded(pool, inBlock, map[]);
      StartSound(pool, inBlock, m);
      g := Progress(0, m, {}, map[], map[]);
      assert inBlock + g.accepted.Keys == inBlock;
    }

    /** addPackageTxs */
    method AddPackageTxs() returns (stop: Stop, ghost last: Progress, ghost unfit: seq<Rejection>)
      requires WellFormed(pool) && Indexed(pool) && Tallied(pool, Block()) && WithinLimits()
      modifies this
      ensures Selecting(old(inBlock), last)
      ensures stop.Exhausted? ==> pool.mapTx.Keys <= inBlock + last.rejected.Keys
      ensures !stop.Exhausted? ==> EndsEarly(stop, last, unfit)
    {
      var g := Begin();
      var nConsecutiveFailed := 0;
      unfit := [];
      while g.mi < |pool.byScore| || g.mapModifiedTx != map[]
        invariant Selecting(old(inBlock), g)
        invariant |unfit| == nConsecutiveFailed
        invariant Failing(pool, nBlockMaxWeight, fIncludeWitness, unfit, nBlockWeight)
        decreases Outside(), Waiting(pool, g)
      {
        var ended;
        ended, g, nConsecutiveFailed, unfit := Round(g, nConsecutiveFailed, old(inBlock), unfit);
        if ended.Some? {
          return ended.value, g, unfit;
        }
      }
      AllHandled(pool, inBlock, g);
      return Exhausted, g, unfit;
    }

    /** The next entry to evaluate: the foremost of the score index and the table of modified entries. */
    method SelectCandidate(g: Progress) returns (t: TxId, usingModified: bool)
      requires WellFormed(pool) && Indexed(pool) && OnTrack(pool, inBlock, g)
      requires g.mi < |pool.byScore| || g.mapModifiedTx != map[]
      requires g.mi < |pool.byScore| ==> !SkipMapTxEntry(inBlock, g, pool.byScore[g.mi])
      ensures Foremost(pool, inBlock, g, t)
      ensures usingModified ==> t in g.mapModifiedTx
      ensures !usingModified ==> g.mi < |pool.byScore| && t == pool.byScore[g.mi]
    {
      TableSized(pool, inBlock, g.failedTx, g.mapModifiedTx);
      CursorListed(pool);
      ghost var best;
      t, usingModified, best := Compare(pool, g);
      if usingModified {
        ForemostModified(pool, inBlock, g, t);
      } else {
        ForemostListed(pool, inBlock, g, best);
      }
    }

    /** The entry at the cursor against the first of the table. */
    static method Compare(p: Pool, g: Progress) returns (t: TxId, usingModified: bool, ghost best: Option<TxId>)
      requires g.mapModifiedTx.Keys <= p.mapTx.Keys && forall i :: 0 <= i < |p.byScore| ==> p.byScore[i] in p.mapTx
      requires forall d :: d in g.mapModifiedTx ==> Sized(p, d, g.mapModifiedTx[d])
      requires g.mi < |p.byScore| || (g.mi == |p.byScore| && g.mapModifiedTx != map[])
      ensures usingModified ==>
        && t in g.mapModifiedTx && NoneModifiedAhead(p, g.mapModifiedTx, t, g.mapModifiedTx[t])
        && (g.mi < |p.byScore| ==> AheadOfCursor(p, g, t))
      ensures !usingModified ==>
        && g.mi < |p.byScore| && t == p.byScore[g.mi] && (best.None? ==> g.mapModifiedTx == map[])
        && (best.Some? ==>
             && best.value in g.mapModifiedTx && !AheadOfCursor(p, g, best.value)
             && NoneModifiedAhead(p, g.mapModifiedTx, best.value, g.mapModifiedTx[best.value]))
    {
      if g.mapModifiedTx == map[] {
        return p.byScore[g.mi], false, None;
      }
      t := BestModified(p, g.mapModifiedTx);
      best := Some(t);
      usingModified := g.mi == |p.byScore| || AheadOfCursor(p, g, t);
      if !usingModified {
        t := p.byScore[g.mi];
      }
    }

    /** The first entry of a table in score order. */
    static method BestModified(p: Pool, m: ModTable) returns (t: TxId)
      requires m.Keys <= p.mapTx.Keys && m != map[] && forall d :: d in m ==> Sized(p, d, m[d])
      ensures t in m && NoneModifiedAhead(p, m, t, m[t])
    {
      TableOrdered(p, m);
      t := FirstBy(m.Keys, TableOrder(p, m));
    }
  }

  // ----- the foremost candidate -----

  /** No entry of the table comes before an entry of `t` with totals `e`. */
  ghost predicate NoneModifiedAhead(p: Pool, m: ModTable, t: TxId, e: ModEntry)
    requires m.Keys <= p.mapTx.Keys && t in p.mapTx
  {
    forall d :: d in m ==> !Ahead(p, d, m[d], t, e)
  }

  /** No transaction that could still be evaluated comes before `t`. */
  ghost predicate Foremost(p: Pool, inBlock: set<TxId>, g: Progress, t: TxId)
    requires Acyclic(p)
  {
    && g.mapModifiedTx.Keys <= p.mapTx.Keys && Candidate(p, inBlock, g.failedTx, g.mapModifiedTx, t)
    && NoneModifiedAhead(p, g.mapModifiedTx, t, BaseEntry(p, g.mapModifiedTx, t))
    && NoneListedAhead(p, g.mi, t, BaseEntry(p, g.mapModifiedTx, t))
  }

  lemma {:induction false} SumHas(p: Pool, m: Measure, s: set<TxId>, t: TxId)
    requires s <= p.mapTx.Keys && t in s && (m.Size? || m.Weight? || m.SigOps?)
    ensures Sum(p, m, s) >= Val(p, m, t)
  {
    SumRemove(p, m, s, t);
    SumNonNegative(p, m, s - {t});
  }

  /** The totals of an entry of the table include the transaction itself. */
  lemma {:induction false} EntrySized(p: Pool, inBlock: set<TxId>, failed: set<TxId>, m: ModTable, d: TxId)
    requires WellFormed(p) && Indexed(p) && TableSound(p, inBlock, failed, m) && d in m
    ensures d in p.mapTx && Sized(p, d, m[d])
  {
    assert EntrySound(p, inBlock, failed, d, m[d]);
    SumHas(p, Size, Missing(p, inBlock, d), d);
  }

  lemma {:induction false} TableSized(p: Pool, inBlock: set<TxId>, failed: set<TxId>, m: ModTable)
    requires WellFormed(p) && Indexed(p) && TableSound(p, inBlock, failed, m)
    ensures forall d :: d in m ==> Sized(p, d, m[d])
  {
    forall d | d in m
      ensures Sized(p, d, m[d])
    {
      EntrySized(p, inBlock, failed, m, d);
    }
  }

  /** The score order on a table. */
  function TableOrder(p: Pool, m: ModTable): (TxId, TxId) -> bool
    requires m.Keys <= p.mapTx.Keys
  {
    (a, b) => a in m && b in m && Ahead(p, a, m[a], b, m[b])
  }

  lemma {:induction false} TableOrdered(p: Pool, m: ModTable)
    requires m.Keys <= p.mapTx.Keys && forall d :: d in m ==> Sized(p, d, m[d])
    ensures OrderOn(m.Keys, TableOrder(p, m))
  {
    forall a, b, c | a in m && b in m && c in m && !Ahead(p, b, m[b], a, m[a]) && !Ahead(p, c, m[c], b, m[b])
      ensures !Ahead(p, c, m[c], a, m[a])
    {
      AheadTransitive(p, a, m[a], b, m[b], c, m[c]);
    }
    forall a, b | a in m && b in m && Ahead(p, a, m[a], b, m[b])
      ensures !Ahead(p, b, m[b], a, m[a])
    {
      AheadAsymmetric(p, a, m[a], b, m[b]);
    }
  }

  lemma {:induction false} AheadAsymmetric(p: Pool, a: TxId, ea: ModEntry, b: TxId, eb: ModEntry)
    requires a in p.mapTx && b in p.mapTx && Ahead(p, a, ea, b, eb)
    ensures !Ahead(p, b, eb, a, ea)
  {
    var (x, y) := (ScoreOf(p, a, ea), ScoreOf(p, b, eb));
    assert x.fee * y.size == y.size * x.fee && x.size * y.fee == y.fee * x.size;
  }

  lemma {:induction false} CursorListed(p: Pool)
    requires Indexed(p)
    ensures forall i :: 0 <= i < |p.byScore| ==> p.byScore[i] in p.mapTx
  {
    forall i | 0 <= i < |p.byScore|
      ensures p.byScore[i] in p.mapTx
    {
      assert p.byScore[i] in p.mapTx.Keys;
    }
  }

  /** The entry at the cursor comes before all that follow it. */
  lemma {:induction false} CursorFirst(p: Pool, mi: nat, i: nat)
    requires Indexed(p) && mi <= i < |p.byScore|
    ensures var (a, b) := (p.byScore[mi], p.byScore[i]);
      a in p.mapTx && b in p.mapTx && !Ahead(p, b, FreshEntry(p, b), a, FreshEntry(p, a))
  {
    assert p.byScore[mi] in p.mapTx.Keys;
    if mi < i {
      assert Listed(p, mi, i);
    }
  }

  lemma {:induction false} CursorBehind(p: Pool, mi: nat, t: TxId, e: ModEntry, i: nat)
    requires Indexed(p) && mi <= i < |p.byScore| && t in p.mapTx && Sized(p, t, e)
    requires p.byScore[mi] in p.mapTx && !Ahead(p, p.byScore[mi], FreshEntry(p, p.byScore[mi]), t, e)
    ensures p.byScore[i] in p.mapTx && !Ahead(p, p.byScore[i], FreshEntry(p, p.byScore[i]), t, e)
  {
    CursorFirst(p, mi, i);
    var (a, b) := (p.byScore[mi], p.byScore[i]);
    AheadTransitive(p, t, e, a, FreshEntry(p, a), b, FreshEntry(p, b));
  }

  predicate AheadOfCursor(p: Pool, g: Progress, t: TxId)
    requires g.mi < |p.byScore| && p.byScore[g.mi] in p.mapTx && t in g.mapModifiedTx && t in p.mapTx
  {
    Ahead(p, t, g.mapModifiedTx[t], p.byScore[g.mi], FreshEntry(p, p.byScore[g.mi]))
  }

  /** No entry from the cursor on comes before an entry with total `e`. */
  ghost predicate NoneListedAhead(p: Pool, mi: nat, t: TxId, e: ModEntry)
    requires t in p.mapTx
  {
    forall i :: mi <= i < |p.byScore| && p.byScore[i] in p.mapTx ==>
      !Ahead(p, p.byScore[i], FreshEntry(p, p.byScore[i]), t, e)
  }

  lemma {:induction false} NoneAheadOf(p: Pool, mi: nat, t: TxId, e: ModEntry)
    requires Indexed(p) && t in p.mapTx && Sized(p, t, e)
    requires mi < |p.byScore| ==>
      p.byScore[mi] in p.mapTx && !Ahead(p, p.byScore[mi], FreshEntry(p, p.byScore[mi]), t, e)
    ensures NoneListedAhead(p, mi, t, e)
  {
    forall i | mi <= i < |p.byScore|
      ensures p.byScore[i] in p.mapTx && !Ahead(p, p.byScore[i], FreshEntry(p, p.byScore[i]), t, e)
    {
      CursorBehind(p, mi, t, e, i);
    }
  }

  lemma {:induction false} ForemostModified(p: Pool, inBlock: set<TxId>, g: Progress, t: TxId)
    requires WellFormed(p) && Indexed(p) && OnTrack(p, inBlock, g)
    requires t in g.mapModifiedTx && NoneModifiedAhead(p, g.mapModifiedTx, t, g.mapModifiedTx[t])
    requires g.mi < |p.byScore| ==> p.byScore[g.mi] in p.mapTx && AheadOfCursor(p, g, t)
    ensures Foremost(p, inBlock, g, t)
  {
    EntrySized(p, inBlock, g.failedTx, g.mapModifiedTx, t);
    if g.mi < |p.byScore| {
      AheadAsymmetric(p, t, g.mapModifiedTx[t], p.byScore[g.mi], FreshEntry(p, p.byScore[g.mi]));
    }
    NoneAheadOf(p, g.mi, t, g.mapModifiedTx[t]);
  }

  /** The entry at the cursor, where the first of the table, if there is one, does not come before it. */
  lemma {:induction false} ForemostListed(p: Pool, inBlock: set<TxId>, g: Progress, best: Option<TxId>)
    requires WellFormed(p) && Indexed(p) && OnTrack(p, inBlock, g) && g.mi < |p.byScore|
    requires !SkipMapTxEntry(inBlock, g, p.byScore[g.mi])
    requires p.byScore[g.mi] in p.mapTx && (best.None? ==> g.mapModifiedTx == map[])
    requires best.Some? ==>
      && best.value in g.mapModifiedTx
      && NoneModifiedAhead(p, g.mapModifiedTx, best.value, g.mapModifiedTx[best.value])
    requires best.Some? ==> !AheadOfCursor(p, g, best.value)
    ensures Foremost(p, inBlock, g, p.byScore[g.mi])
  {
    var t := p.byScore[g.mi];
    CursorFirst(p, g.mi, g.mi);
    NoneAheadOf(p, g.mi, t, FreshEntry(p, t));
    if best.Some? {
      TableSized(p, inBlock, g.failedTx, g.mapModifiedTx);
      TableBehind(p, g.mapModifiedTx, best.value, t, FreshEntry(p, t));
    }
  }

  lemma {:induction false} TableBehind(p: Pool, m: ModTable, best: TxId, t: TxId, e: ModEntry)
    requires m.Keys <= p.mapTx.Keys && t in p.mapTx && best in m && Sized(p, t, e)
    requires forall d :: d in m ==> Sized(p, d, m[d])
    requires NoneModifiedAhead(p, m, best, m[best]) && !Ahead(p, best, m[best], t, e)
    ensures NoneModifiedAhead(p, m, t, e)
  {
    forall d | d in m
      ensures !Ahead(p, d, m[d], t, e)
    {
      AheadTransitive(p, t, e, best, m[best], d, m[d]);
    }
  }

  lemma {:induction false} KeysKept(p: Pool, added: set<TxId>, m0: ModTable, m: ModTable)
    requires Acyclic(p) && m0.Keys <= p.mapTx.Keys && UpdatedFor(p, added, added, m0, m)
    ensures m0.Keys <= m.Keys
  {
    forall d | d in m0
      ensures d in m
    {
      assert UpdatedEntry(p, m0, m, d, Charged(p, added, added, d));
    }
  }

  /** CreateNewBlock up to the coinbase: every run from a reset block ends tallied and within its limits, with nothing
      in it that was not tested. */
  method AssembleBlock(p: Pool, maxWeight: nat, fee: int -> int)
    returns (a: BlockAssembler, stop: Stop, ghost last: Progress)
    requires WellFormed(p) && Indexed(p)
    ensures fresh(a) && a.pool == p && Tallied(p, a.Block()) && OnTrack(p, a.inBlock, last)
    ensures a.nBlockWeight <= a.nBlockMaxWeight <= MAX_BLOCK_WEIGHT - 4000 && a.nBlockSigOpsCost < MAX_BLOCK_SIGOPS_COST
    ensures stop.Exhausted? ==> p.mapTx.Keys <= a.inBlock + last.rejected.Keys
    ensures AllJustified(p, a.nBlockMaxWeight, a.fIncludeWitness, last.rejected)
    ensures a.inBlock == last.accepted.Keys
    ensures forall t :: t in a.inBlock ==>
      && p.mapTx[t].isFinal && (a.fIncludeWitness || !p.mapTx[t].hasWitness)
      && p.mapTx[t].time <= last.accepted[t].now
      && last.accepted[t].entry.modFees >= fee(last.accepted[t].entry.size)
  {
    ghost var unfit;
    a := new BlockAssembler(p, maxWeight, fee);
    stop, last, unfit := a.AddPackageTxs();
    AllTested(p, a.nBlockMaxWeight, a.fIncludeWitness, fee, a.inBlock, last.accepted);
  }

  lemma {:induction false} AllTested(
    p: Pool, maxWeight: int, includeWitness: bool, minFee: int -> int, inBlock: set<TxId>,
    accepted: map<TxId, Acceptance>)
    requires Acyclic(p) && AllAccepted(p, maxWeight, includeWitness, minFee, {}, inBlock, accepted)
    ensures inBlock == accepted.Keys <= p.mapTx.Keys
    ensures forall t :: t in inBlock ==>
      && p.mapTx[t].isFinal && (includeWitness || !p.mapTx[t].hasWitness) && p.mapTx[t].time <= accepted[t].now
      && accepted[t].entry.modFees >= minFee(accepted[t].entry.size)
  {
    assert {} + accepted.Keys == accepted.Keys;
  }
}
