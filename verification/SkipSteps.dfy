/** How many steps GetAncestor takes down the skip list (chain.cpp). */
module SkipSteps {
  import opened Numbers
  import opened SkipHeights

  /** The height after one round of the loop. */
  function NextHeight(walk: nat, height: nat): (next: nat)
    requires height < walk
    ensures height <= next < walk
  {
    SkipBelow(walk);
    if TakesSkip(walk, height) then GetSkipHeight(walk) else walk - 1
  }

  /** The rounds of the loop from `walk` down to `height`. */
  function Steps(walk: nat, height: nat): nat {
    if walk <= height then 0 else 1 + Steps(NextHeight(walk, height), height)
  }

  // ----- single steps -----

  lemma {:induction false} SkipOfEven(w: nat)
    requires w > 0 && w % 2 == 0
    ensures GetSkipHeight(w) == InvertLowestOne(w) < w
  {
    InvertBelow(w);
  }

  lemma {:induction false} SkipOfOdd(u: nat)
    requires u > 0 && u % 2 == 0
    ensures GetSkipHeight(u + 1) == InvertLowestOne(InvertLowestOne(u)) + 1
  {
    SkipAboveEven(u);
  }

  /** At an odd height the skip is taken unless it goes too far. */
  lemma {:induction false} TakenAtOdd(u: nat, h: nat)
    requires u > 0 && u % 2 == 0 && h <= GetSkipHeight(u + 1)
    ensures GetSkipHeight(u + 1) <= u && Steps(u + 1, h) == 1 + Steps(GetSkipHeight(u + 1), h)
  {
    SkipOfOdd(u);
    SkipOfEven(u);
    InvertBelow(InvertLowestOne(u));
    SkipBelow(u + 1);
  }

  lemma {:induction false} TooFar(w: nat, h: nat)
    requires h < w && GetSkipHeight(w) < h
    ensures Steps(w, h) == 1 + Steps(w - 1, h)
  {
  }

  lemma {:induction false} RightThere(w: nat, h: nat)
    requires 0 < w && GetSkipHeight(w) == h
    ensures Steps(w, h) == 1
  {
    SkipBelow(w);
  }

  lemma {:induction false} TakenAtEven(w: nat, h: nat)
    requires w > 0 && h < GetSkipHeight(w)
    requires GetSkipHeight(w - 1) >= GetSkipHeight(w) - 2 || GetSkipHeight(w - 1) < h
    ensures Steps(w, h) == 1 + Steps(GetSkipHeight(w), h)
  {
    SkipBelow(w);
  }

  lemma {:induction false} BetterNext(w: nat, h: nat)
    requires w > 0 && h <= GetSkipHeight(w - 1) < GetSkipHeight(w) - 2
    ensures Steps(w, h) == 1 + Steps(w - 1, h)
  {
    SkipBelow(w);
  }

  // ----- clearing bits -----

  /** The low `k` bits are zero. */
  predicate Aligned(a: nat, k: nat) {
    k == 0 || (a % 2 == 0 && Aligned(a / 2, k - 1))
  }

  lemma {:induction false} AlignedZero(k: nat)
    ensures Aligned(0, k)
  {
    if k > 0 {
      AlignedZero(k - 1);
    }
  }

  lemma {:induction false} AlignedLess(a: nat, k: nat, j: nat)
    requires j <= k && Aligned(a, k)
    ensures Aligned(a, j)
  {
    if j > 0 {
      AlignedLess(a / 2, k - 1, j - 1);
    }
  }

  /** Adding or taking away a multiple of 2^j that is a power of two. */
  lemma {:induction false} AlignedPlus(a: nat, k: nat, j: nat)
    requires j <= k && Aligned(a, j)
    ensures Aligned(a + Pow2(k), j) && (a >= Pow2(k) ==> Aligned(a - Pow2(k), j))
  {
    if j > 0 {
      assert (a + Pow2(k)) / 2 == a / 2 + Pow2(k - 1);
      assert a >= Pow2(k) ==> (a - Pow2(k)) / 2 == a / 2 - Pow2(k - 1);
      AlignedPlus(a / 2, k - 1, j - 1);
    }
  }

  lemma {:induction false} InvertDouble(n: nat)
    requires n > 0
    ensures InvertLowestOne(2 * n) == 2 * InvertLowestOne(n)
  {
    assert (2 * n - 1) / 2 == n - 1;
  }

  /** The lowest one bit of a + 2^k is bit `k`. */
  lemma {:induction false} InvertTop(a: nat, k: nat)
    requires Aligned(a, k + 1)
    ensures InvertLowestOne(a + Pow2(k)) == a
  {
    if k == 0 {
      AndSelf(a / 2);
    } else {
      InvertTop(a / 2, k - 1);
      InvertDouble(a / 2 + Pow2(k - 1));
    }
  }

  lemma {:induction false} InvertOdd(n: nat)
    requires n % 2 == 1
    ensures InvertLowestOne(n) == n - 1
  {
    AndSelf(n / 2);
    assert (n - 1) / 2 == n / 2;
  }

  /** Bits above those of `r` do not matter. */
  lemma {:induction false} InvertLow(b: nat, p: nat, r: nat)
    requires Aligned(b, p) && 0 < r < Pow2(p)
    ensures InvertLowestOne(b + r) == b + InvertLowestOne(r) && InvertLowestOne(r) < r
  {
    InvertBelow(r);
    if r % 2 == 1 {
      InvertOdd(r);
      InvertOdd(b + r);
    } else {
      var b', r' := b / 2, r / 2;
      InvertLow(b', p - 1, r');
      InvertDouble(r');
      InvertDouble(b' + r');
      assert r == 2 * r' && b + r == 2 * (b' + r');
    }
  }

  // ----- runs of one bits -----

  /** a and the one bits from `j` to below `k`. */
  function Ones(a: nat, k: nat, j: nat): nat
    requires j <= k
  {
    Pow2Grows(j, k);
    a + Pow2(k) - Pow2(j)
  }

  lemma {:induction false} OnesAligned(a: nat, k: nat, j: nat)
    requires j <= k && Aligned(a, k)
    ensures Aligned(Ones(a, k, j), j)
  {
    AlignedLess(a, k, j);
    AlignedPlus(a, k, j);
    Pow2Grows(j, k);
    AlignedPlus(a + Pow2(k), j, j);
  }

  lemma {:induction false} OnesInvert(a: nat, k: nat, j: nat)
    requires j < k && Aligned(a, k)
    ensures InvertLowestOne(Ones(a, k, j)) == Ones(a, k, j + 1) && Ones(a, k, j) == Ones(a, k, j + 1) + Pow2(j)
  {
    OnesAligned(a, k, j + 1);
    InvertTop(Ones(a, k, j + 1), j);
  }

  lemma {:induction false} OnesEven(a: nat, k: nat, j: nat)
    requires 1 <= j < k && Aligned(a, k)
    ensures Ones(a, k, j) % 2 == 0 && Ones(a, k, j) >= a + 2
  {
    OnesAligned(a, k, j);
    Pow2Grows(j + 1, k);
    Pow2Grows(1, j);
  }

  lemma {:induction false} SkipOnes(a: nat, k: nat, j: nat)
    requires 1 <= j < k && Aligned(a, k)
    ensures GetSkipHeight(Ones(a, k, j)) == Ones(a, k, j + 1)
  {
    OnesEven(a, k, j);
    SkipOfEven(Ones(a, k, j));
    OnesInvert(a, k, j);
  }

  /** Above a run of ones, the skip clears two; above a single one it also clears one of `a`. */
  lemma {:induction false} SkipAboveOnes(a: nat, k: nat, j: nat)
    requires 1 <= j < k && Aligned(a, k)
    ensures GetSkipHeight(Ones(a, k, j) + 1) == (if j + 2 <= k then Ones(a, k, j + 2) else InvertLowestOne(a)) + 1
  {
    OnesEven(a, k, j);
    SkipOfOdd(Ones(a, k, j));
    OnesInvert(a, k, j);
    if j + 2 <= k {
      OnesInvert(a, k, j + 1);
    }
  }

  // ----- the limit -----

  /** The most steps into the 2^k heights above a multiple of 2^(k + 1). */
  function Limit(k: nat): nat {
    if k <= 1 then 1 else Limit(k - 1) + (k + 3) / 2
  }

  lemma {:induction false} LimitIs(k: nat)
    requires k >= 1
    ensures Limit(k) == (k + 3) * (k + 3) / 4 - 3
  {
    if k > 1 {
      LimitIs(k - 1);
      Square(k + 2);
      NextSquare((k + 2) * (k + 2), k + 2);
    }
  }

  lemma {:induction false} NextSquare(x: nat, n: nat)
    requires x == n * n && x % 4 == n % 2
    ensures (n + 1) * (n + 1) / 4 == x / 4 + (n + 1) / 2
  {
    assert (n + 1) * (n + 1) == x + 2 * n + 1;
    QuarterOf(x, n);
  }

  lemma {:induction false} QuarterOf(x: nat, n: nat)
    requires x % 4 == n % 2
    ensures (x + 2 * n + 1) / 4 == x / 4 + (n + 1) / 2
  {
  }

  lemma {:induction false} Square(n: nat)
    ensures n * n % 4 == n % 2
  {
    var m := n / 2;
    TwiceSquared(m);
    if n == 2 * m {
      FourTimes(m * m, 0);
    } else {
      FourTimes(m * m + m, 1);
    }
  }

  lemma {:induction false} TwiceSquared(m: nat)
    ensures 2 * m * (2 * m) == 4 * (m * m) && (2 * m + 1) * (2 * m + 1) == 4 * (m * m + m) + 1
  {
  }

  lemma {:induction false} FourTimes(x: nat, r: nat)
    requires r < 4
    ensures (4 * x + r) % 4 == r
  {
  }

  lemma {:induction false} LimitGrows(j: nat, k: nat)
    requires j <= k
    ensures Limit(j) <= Limit(k)
  {
    if j < k {
      LimitGrows(j, k - 1);
    }
  }

  /** One less above height zero, where the skip over a single one bit still goes to height one. */
  function LimitAbove(a: nat, k: nat): int {
    Limit(k) - if a == 0 && k >= 2 then 1 else 0
  }

  lemma {:induction false} LimitSlack(j: nat, k: nat)
    requires 1 <= j && j + 2 <= k
    ensures Limit(k) >= Limit(j) + j + 4
  {
    LimitGrows(j + 2, k);
    assert Limit(j + 2) == Limit(j + 1) + (j + 5) / 2 && Limit(j + 1) == Limit(j) + (j + 4) / 2;
  }

  // ----- down into a block -----

  lemma {:induction false} SkipsRun(a: nat, k: nat, j: nat, h: nat)
    requires 1 <= j < k && j % 2 == 1 && Aligned(a, k + 1) && a < h < Ones(a, k, j + 1)
    requires GetSkipHeight(Ones(a, k, j) + 1) < h
    ensures j + 2 <= k && Ones(a, k, j + 2) < h
    ensures Steps(Ones(a, k, j), h) == 1 + Steps(Ones(a, k, j + 1), h)
  {
    AlignedLess(a, k + 1, k);
    SkipOnes(a, k, j);
    SkipAboveOnes(a, k, j);
    var u := Ones(a, k, j);
    OnesEven(a, k, j);
    OnesInvert(a, k, j);
    if j == 1 {
      assert u - 2 == Ones(a, k, j + 1);
      OnesInvert(a, k, j + 1);
      InvertBelow(Ones(a, k, j + 2));
      SkipOfOdd(u - 2);
    } else {
      var b := Ones(a, k, j + 1);
      OnesAligned(a, k, j + 1);
      AlignedLess(b, j + 1, j);
      assert u - 2 == Ones(b, j, 1);
      SkipAboveOnes(b, j, 1);
      Pow2Grows(3, j);
    }
    TakenAtEven(u, h);
  }

  lemma {:induction false} EnoughLeft(a: nat, k: nat, j: nat, b: nat, i: nat)
    requires 1 <= j < k && j % 2 == 1 && Aligned(a, k)
    requires (i == j && b == Ones(a, k, j + 1)) || (i == j + 1 < k && b == Ones(a, k, j + 2))
    ensures b == 0 ==> a == 0 && i == k - 1
    ensures i >= 2 || b > 0 || a > 0 ==> LimitAbove(b, i) + 2 + (i - j) + (j - 1) / 2 <= LimitAbove(a, k)
  {
    if i == j {
      OnesAbove(a, k, j + 1);
      if j + 2 <= k {
        LimitSlack(j, k);
      }
    } else {
      OnesAbove(a, k, j + 2);
      if j + 3 <= k {
        LimitSlack(j + 1, k);
      }
    }
  }

  lemma {:induction false} OnesAbove(a: nat, k: nat, j: nat)
    requires j <= k
    ensures Ones(a, k, j) >= a && (Ones(a, k, j) == a <==> j == k)
  {
    Pow2Grows(j, k);
    if j < k {
      Pow2Grows(j + 1, k);
    }
  }

  lemma {:induction false} BelowFirst(a: nat, k: nat, j: nat, h: nat, b: nat)
    requires 1 <= j < k && j % 2 == 1 && Aligned(a, k + 1) && b == Ones(a, k, j + 1) < h < Ones(a, k, j)
    requires GetSkipHeight(Ones(a, k, j) + 1) < h && a < h
    ensures Steps(b + Pow2(j), h) + 2 + (j - 1) / 2 <= LimitAbove(a, k)
    decreases k, 0
  {
    AlignedLess(a, k + 1, k);
    OnesAligned(a, k, j + 1);
    EnoughLeft(a, k, j, b, j);
    SingleBelow(a, k, j, h);
    OnesInvert(a, k, j);
    DownBound(b, j, h);
  }

  lemma {:induction false} BelowSecond(a: nat, k: nat, j: nat, h: nat, b: nat)
    requires 1 <= j && j + 2 <= k && j % 2 == 1 && Aligned(a, k + 1) && b == Ones(a, k, j + 2) < h < b + Pow2(j + 1)
    ensures Steps(b + Pow2(j + 1), h) + 3 + (j - 1) / 2 <= LimitAbove(a, k)
    decreases k, 0
  {
    AlignedLess(a, k + 1, k);
    OnesAligned(a, k, j + 2);
    EnoughLeft(a, k, j, b, j + 1);
    DownBound(b, j + 1, h);
  }

  /** At the end of a run of ones, where the target lies below it. */
  lemma {:induction false} BelowRun(a: nat, k: nat, j: nat, h: nat, u: nat)
    requires 1 <= j < k && j % 2 == 1 && Aligned(a, k + 1) && a < h < u == Ones(a, k, j)
    requires GetSkipHeight(u + 1) < h
    ensures Steps(u, h) + 2 + (j - 1) / 2 <= LimitAbove(a, k)
    decreases k, 1
  {
    AlignedLess(a, k + 1, k);
    SkipOnes(a, k, j);
    OnesInvert(a, k, j);
    if Ones(a, k, j + 1) < h {
      BelowFirst(a, k, j, h, Ones(a, k, j + 1));
    } else if Ones(a, k, j + 1) == h {
      RightThere(u, h);
      LimitGrows(j, k - 1);
    } else {
      SkipsRun(a, k, j, h);
      OnesInvert(a, k, j + 1);
      BelowSecond(a, k, j, h, Ones(a, k, j + 2));
    }
  }

  /** Below a single one bit above height zero, that bit is not bit 1. */
  lemma {:induction false} SingleBelow(a: nat, k: nat, j: nat, h: nat)
    requires 1 <= j < k && Aligned(a, k) && a < h < Ones(a, k, j) && GetSkipHeight(Ones(a, k, j) + 1) < h
    ensures j >= 2 || Ones(a, k, j + 1) > 0 || a > 0
  {
    SkipAboveOnes(a, k, j);
    OnesAbove(a, k, j + 1);
  }

  /** Down a run of ones, two at a time. */
  lemma {:induction false} RunBound(a: nat, k: nat, j: nat, h: nat)
    requires 1 <= j < k && j % 2 == 1 && Aligned(a, k + 1) && a < h <= Ones(a, k, j) + 1
    ensures Steps(Ones(a, k, j) + 1, h) + 1 + (j - 1) / 2 <= LimitAbove(a, k)
    decreases k, k - j + 2
  {
    AlignedLess(a, k + 1, k);
    var v := Ones(a, k, j) + 1;
    OnesEven(a, k, j);
    SkipAboveOnes(a, k, j);
    if h <= GetSkipHeight(v) {
      TakenAtOdd(v - 1, h);
      if j + 2 < k {
        RunBound(a, k, j + 2, h);
      } else {
        EndOfRun(a, k, j, h);
      }
    } else if h < v {
      TooFar(v, h);
      if h < v - 1 {
        BelowRun(a, k, j, h, v - 1);
      } else {
        LimitGrows(j, k - 1);
      }
    } else {
      LimitGrows(j, k - 1);
    }
  }

  lemma {:induction false} EndOfRun(a: nat, k: nat, j: nat, h: nat)
    requires 1 <= j < k <= j + 2 && j % 2 == 1 && Aligned(a, k + 1) && a < h <= GetSkipHeight(Ones(a, k, j) + 1)
    ensures h == GetSkipHeight(Ones(a, k, j) + 1) && 2 + (j - 1) / 2 <= LimitAbove(a, k)
  {
    AlignedLess(a, k + 1, k);
    SkipAboveOnes(a, k, j);
    InvertBelow(a);
    LimitGrows(j, k - 1);
  }

  /** The heights above `a`, a multiple of 2^(k + 1), are reached from a + 2^k within the limit. */
  lemma {:induction false} DownBound(a: nat, k: nat, h: nat)
    requires k >= 1 && Aligned(a, k + 1) && a < h < a + Pow2(k)
    ensures Steps(a + Pow2(k), h) <= LimitAbove(a, k)
    decreases k, k + 3
  {
    var w := a + Pow2(k);
    AlignedLess(a, k + 1, 1);
    AlignedPlus(a, k, 1);
    SkipOfEven(w);
    InvertTop(a, k);
    TooFar(w, h);
    if k > 1 {
      assert Ones(a, k, 1) + 1 == w - 1;
      RunBound(a, k, 1, h);
    }
  }

  // ----- down to a block -----

  /** The number of one bits. */
  function Count(x: nat): nat {
    if x == 0 then 0 else x % 2 + Count(x / 2)
  }

  lemma {:induction false} CountInvert(x: nat)
    requires x > 0
    ensures Count(InvertLowestOne(x)) + 1 == Count(x)
  {
    if x % 2 == 1 {
      InvertOdd(x);
    } else {
      InvertDouble(x / 2);
      CountInvert(x / 2);
    }
  }

  lemma {:induction false} CountBelow(x: nat, p: nat, j: nat)
    requires x < Pow2(p) && j <= p && Aligned(x, j)
    ensures Count(x) <= p - j
  {
    if p > 0 {
      if j == 0 {
        CountBelow(x / 2, p - 1, 0);
      } else {
        CountBelow(x / 2, p - 1, j - 1);
      }
    }
  }

  lemma {:induction false} LowestBit(x: nat) returns (q: nat)
    requires x > 0
    ensures x == InvertLowestOne(x) + Pow2(q) && Aligned(InvertLowestOne(x), q + 1)
    ensures forall j: nat :: Aligned(x, j) ==> j <= q
  {
    if x % 2 == 1 {
      q := 0;
      InvertOdd(x);
    } else {
      q := LowestBit(x / 2);
      InvertDouble(x / 2);
      forall j: nat | Aligned(x, j)
        ensures j <= q + 1
      {
        assert j > 0 ==> Aligned(x / 2, j - 1);
      }
      q := q + 1;
    }
  }

  /** From a height whose lowest one bit is bit 3 or higher, the skip is taken unless it goes too far. */
  lemma {:induction false} TakenHigh(b: nat, q: nat, h: nat)
    requires q >= 3 && Aligned(b, q + 1) && h < b
    ensures Steps(b + Pow2(q), h) == 1 + Steps(b, h)
  {
    var w := b + Pow2(q);
    AlignedLess(b, q + 1, q);
    AlignedLess(b, q + 1, 1);
    AlignedPlus(b, q, 1);
    SkipOfEven(w);
    InvertTop(b, q);
    Pow2Grows(3, q);
    assert w - 2 == Ones(b, q, 1);
    SkipAboveOnes(b, q, 1);
    TakenAtEven(w, h);
  }

  /** b = c + 2^p is the first height at or above which `h` is not, for the highest bit in which they differ. */
  ghost predicate Parts(c: nat, p: nat, b: nat, h: nat, m: nat) {
    p >= 1 && Aligned(c, p + 1) && b == c + Pow2(p) && c <= h < b && m >= 2 && Steps(b, h) <= m
  }

  lemma {:induction false} PartsAligned(c: nat, p: nat, b: nat, h: nat, m: nat)
    requires Parts(c, p, b, h, m)
    ensures Aligned(b, p) && b % 2 == 0 && b > 0 && InvertLowestOne(b) == c && InvertLowestOne(c) <= c
    ensures c > 0 ==> InvertLowestOne(c) < c
  {
    AlignedLess(c, p + 1, p);
    AlignedPlus(c, p, p);
    AlignedLess(b, p, 1);
    InvertTop(c, p);
    InvertBelow(c);
  }

  lemma {:induction false} NearlyThere(x: nat, c: nat, h: nat)
    requires c <= h <= x <= c + 1
    ensures Steps(x, h) <= 1
  {
  }

  lemma {:induction false} AboveBlock(c: nat, p: nat, b: nat, h: nat, m: nat)
    requires Parts(c, p, b, h, m)
    ensures Steps(b + 1, h) <= 1 + m
  {
    PartsAligned(c, p, b, h, m);
    SkipOfOdd(b);
    if h <= GetSkipHeight(b + 1) {
      TakenAtOdd(b, h);
      NearlyThere(GetSkipHeight(b + 1), c, h);
    } else {
      TooFar(b + 1, h);
    }
  }

  /** From one bit above the block. */
  lemma {:induction false} OneBitAbove(c: nat, p: nat, b: nat, h: nat, m: nat, q: nat)
    requires Parts(c, p, b, h, m) && 1 <= q < p
    ensures Steps(b + Pow2(q), h) <= 1 + m
  {
    PartsAligned(c, p, b, h, m);
    AlignedLess(b, p, q + 1);
    if q >= 3 {
      TakenHigh(b, q, h);
    } else {
      OneLowBit(c, p, b, h, m, q, b + Pow2(q));
    }
  }

  lemma {:induction false} BitOneSkips(b: nat, p: nat)
    requires 1 < p && Aligned(b, p) && b % 2 == 0 && b > 0
    ensures GetSkipHeight(b + 2) == b
    ensures GetSkipHeight(b + 1) == 1 + InvertLowestOne(InvertLowestOne(b))
  {
    AlignedLess(b, p, 2);
    assert Pow2(1) == 2;
    InvertTop(b, 1);
    SkipOfEven(b + 2);
    SkipOfOdd(b);
  }

  lemma {:induction false} BitTwoSkips(b: nat, p: nat)
    requires 2 < p && Aligned(b, p) && b % 2 == 0 && b > 0
    ensures GetSkipHeight(b + 4) == b
    ensures GetSkipHeight(b + 3) == 1 + InvertLowestOne(b)
  {
    AlignedLess(b, p, 3);
    SecondBitInverts(b);
    SkipOfEven(b + 4);
    SkipOfOdd(b + 2);
  }

  /** Where the skips from one low bit above the block, and from the height below it, go. */
  lemma {:induction false} LowBitSkips(c: nat, p: nat, b: nat, q: nat, w: nat)
    requires 1 <= q < p && q <= 2 && Aligned(b, p) && b % 2 == 0 && b > 0 && InvertLowestOne(b) == c && w == b + Pow2(q)
    ensures w % 2 == 0 && GetSkipHeight(w) == b
    ensures GetSkipHeight(w - 1) == 1 + if q == 1 then InvertLowestOne(c) else c
  {
    assert Pow2(1) == 2 && Pow2(2) == 4;
    if q == 1 {
      BitOneSkips(b, p);
    } else {
      BitTwoSkips(b, p);
    }
  }

  lemma {:induction false} OneLowBit(c: nat, p: nat, b: nat, h: nat, m: nat, q: nat, w: nat)
    requires Parts(c, p, b, h, m) && 1 <= q < p && q <= 2 && w == b + Pow2(q)
    ensures Steps(w, h) <= 1 + m
  {
    PartsAligned(c, p, b, h, m);
    LowBitSkips(c, p, b, q, w);
    if GetSkipHeight(w - 1) >= b - 2 || GetSkipHeight(w - 1) < h {
      TakenAtEven(w, h);
    } else {
      BetterNext(w, h);
      TakenAtOdd(w - 2, h);
      NearlyThere(GetSkipHeight(w - 1), c, h);
    }
  }

  /** From an odd height above the block: two bits at a step. */
  lemma {:induction false} OddAbove(c: nat, p: nat, b: nat, h: nat, m: nat, r: nat)
    requires Parts(c, p, b, h, m) && r < Pow2(p) && r % 2 == 0
    ensures Steps(b + r + 1, h) <= Count(r) / 2 + 2 + m
    decreases r
  {
    if r == 0 {
      AboveBlock(c, p, b, h, m);
    } else {
      PartsAligned(c, p, b, h, m);
      SkipOfOdd(b + r);
      InvertLow(b, p, r);
      CountInvert(r);
      InvertEven(r);
      var r1 := InvertLowestOne(r);
      if r1 == 0 {
        OddAboveOne(c, p, b, h, m, r);
      } else {
        InvertLow(b, p, r1);
        CountInvert(r1);
        InvertEven(r1);
        TakenAtOdd(b + r, h);
        OddAbove(c, p, b, h, m, InvertLowestOne(r1));
      }
    }
  }

  lemma {:induction false} InvertEven(x: nat)
    requires x > 0 && x % 2 == 0
    ensures InvertLowestOne(x) % 2 == 0
  {
    InvertDouble(x / 2);
  }

  lemma {:induction false} OddAboveOne(c: nat, p: nat, b: nat, h: nat, m: nat, r: nat)
    requires Parts(c, p, b, h, m) && 0 < r < Pow2(p) && r % 2 == 0 && InvertLowestOne(r) == 0
    ensures Steps(b + r + 1, h) <= 2 + m
  {
    PartsAligned(c, p, b, h, m);
    SkipOfOdd(b + r);
    InvertLow(b, p, r);
    if h <= GetSkipHeight(b + r + 1) {
      TakenAtOdd(b + r, h);
      NearlyThere(GetSkipHeight(b + r + 1), c, h);
    } else {
      TooFar(b + r + 1, h);
      var q := BitBelow(r, p);
      OneBitAbove(c, p, b, h, m, q);
    }
  }

  lemma {:induction false} BitBelow(r: nat, p: nat) returns (q: nat)
    requires 0 < r < Pow2(p) && r % 2 == 0 && InvertLowestOne(r) == 0
    ensures r == Pow2(q) && 1 <= q < p
  {
    q := LowestBit(r);
    assert Aligned(r, 1) by {
      assert Aligned(r / 2, 0);
    }
    if q >= p {
      Pow2Grows(p, q);
    }
  }

  /** From an even height whose low bits are clear: one bit at a step. */
  lemma {:induction false} HighAbove(c: nat, p: nat, b: nat, h: nat, m: nat, r: nat)
    requires Parts(c, p, b, h, m) && 0 < r < Pow2(p) && Aligned(r, 3)
    ensures Steps(b + r, h) <= Count(r) + m
    decreases r
  {
    PartsAligned(c, p, b, h, m);
    InvertLow(b, p, r);
    CountInvert(r);
    var r1 := InvertLowestOne(r);
    var q := LowestBit(r);
    assert q >= 3;
    SumAligned(b, p, r1, r, q);
    TakenHigh(b + r1, q, h);
    if r1 > 0 {
      AlignedLess(r1, q + 1, 3);
      HighAbove(c, p, b, h, m, r1);
    }
  }

  /** b + r1 has no bits up to the lowest bit of r. */
  lemma {:induction false} SumAligned(b: nat, p: nat, r1: nat, r: nat, q: nat)
    requires Aligned(b, p) && r < Pow2(p) && r == r1 + Pow2(q) && Aligned(r1, q + 1)
    ensures Aligned(b + r1, q + 1)
  {
    if q >= p {
      Pow2Grows(p, q);
    }
    AlignedLess(b, p, q + 1);
    AlignedSum(b, r1, q + 1);
  }

  lemma {:induction false} AlignedSum(a: nat, b: nat, k: nat)
    requires Aligned(a, k) && Aligned(b, k)
    ensures Aligned(a + b, k)
  {
    if k > 0 {
      AlignedSum(a / 2, b / 2, k - 1);
      assert (a + b) / 2 == a / 2 + b / 2;
    }
  }

  lemma {:induction false} SecondBitSkips(b: nat, p: nat, r1: nat)
    requires Aligned(b, p) && b % 2 == 0 && r1 + 4 < Pow2(p) && r1 > 0 && Aligned(r1, 3)
    ensures GetSkipHeight(b + r1 + 4) == b + r1 && GetSkipHeight(b + r1 + 3) == b + InvertLowestOne(r1) + 1
  {
    SecondBitInverts(r1);
    EightLess(r1);
    InvertLow(b, p, r1 + 4);
    InvertLow(b, p, r1 + 2);
    InvertLow(b, p, r1);
    SkipOfEven(b + r1 + 4);
    SkipOfOdd(b + r1 + 2);
  }

  lemma {:induction false} SecondBitInverts(r1: nat)
    requires Aligned(r1, 3)
    ensures InvertLowestOne(r1 + 4) == r1 == InvertLowestOne(r1 + 2)
    ensures Count(r1 + 4) == Count(r1 + 2) == Count(r1) + 1
  {
    AlignedLess(r1, 3, 2);
    assert Pow2(2) == 4 && Pow2(1) == 2;
    InvertTop(r1, 2);
    InvertTop(r1, 1);
    CountInvert(r1 + 4);
    CountInvert(r1 + 2);
  }

  /** With bit 2 the lowest, and another: a side step, and on from an odd height. */
  lemma {:induction false} SecondBitAbove(c: nat, p: nat, b: nat, h: nat, m: nat, r: nat, r1: nat)
    requires Parts(c, p, b, h, m) && r < Pow2(p) && r == r1 + 4 && r1 > 0 && Aligned(r1, 3)
    ensures Steps(b + r, h) <= Count(r) / 2 + 3 + m
  {
    PartsAligned(c, p, b, h, m);
    SecondBitSkips(b, p, r1);
    SecondBitInverts(r1);
    EightLess(r1);
    BetterNext(b + r, h);
    OddAbove(c, p, b, h, m, r1 + 2);
  }

  lemma {:induction false} EightLess(x: nat)
    requires x > 0 && Aligned(x, 3)
    ensures InvertLowestOne(x) + 8 <= x && x % 2 == 0
  {
    var q := LowestBit(x);
    assert q >= 3;
    Pow2Grows(3, q);
    assert Pow2(3) == 8;
  }

  lemma {:induction false} FourLess(x: nat)
    requires x > 0 && Aligned(x, 2)
    ensures InvertLowestOne(x) + 4 <= x && x % 2 == 0 && Aligned(InvertLowestOne(x), 2)
  {
    var q := LowestBit(x);
    assert q >= 2;
    Pow2Grows(2, q);
    assert Pow2(2) == 4;
    AlignedLess(InvertLowestOne(x), q + 1, 2);
  }

  /** Where the skips from b + r1 + 2 and from the height below it go. */
  lemma {:induction false} FirstBitSkips(b: nat, p: nat, r1: nat, r2: nat)
    requires Aligned(b, p) && b % 2 == 0 && r1 + 2 < Pow2(p) && r1 > 0 && Aligned(r1, 2) && r2 == InvertLowestOne(r1)
    ensures GetSkipHeight(b + r1 + 2) == b + r1 && r2 + 4 <= r1 && r1 % 2 == 0
    ensures GetSkipHeight(b + r1 + 1) == 1 + if r2 > 0 then b + InvertLowestOne(r2) else InvertLowestOne(b)
    ensures Count(r1 + 2) == Count(r1) + 1 && Count(r1) == Count(r2) + 1 && InvertLowestOne(r2) <= r2
  {
    assert Pow2(1) == 2;
    InvertTop(r1, 1);
    InvertLow(b, p, r1 + 2);
    InvertLow(b, p, r1);
    FourLess(r1);
    CountInvert(r1 + 2);
    CountInvert(r1);
    SkipOfEven(b + r1 + 2);
    SkipOfOdd(b + r1);
    InvertBelow(r2);
    if r2 > 0 {
      InvertLow(b, p, r2);
    }
  }

  /** With bit 1 the lowest, and others. */
  lemma {:induction false} FirstBitAbove(c: nat, p: nat, b: nat, h: nat, m: nat, r: nat, r1: nat)
    requires Parts(c, p, b, h, m) && r < Pow2(p) && r == r1 + 2 && r1 > 0 && Aligned(r1, 2)
    ensures Steps(b + r, h) <= Count(r) / 2 + 3 + m
  {
    PartsAligned(c, p, b, h, m);
    FirstBitSkips(b, p, r1, InvertLowestOne(r1));
    if h <= GetSkipHeight(b + r1 + 1) < b + r1 - 2 {
      BetterNext(b + r, h);
      OddAbove(c, p, b, h, m, r1);
    } else {
      TakenAtEven(b + r, h);
      var q := BitBelow(r1, p);
      OneBitAbove(c, p, b, h, m, q);
    }
  }

  /** From any height above the block. */
  lemma {:induction false} EvenAbove(c: nat, p: nat, b: nat, h: nat, m: nat, r: nat)
    requires Parts(c, p, b, h, m) && 0 < r < Pow2(p) && r % 2 == 0
    ensures Steps(b + r, h) <= (if Aligned(r, 3) then Count(r) else Count(r) / 2 + 3) + m
  {
    if Aligned(r, 3) {
      HighAbove(c, p, b, h, m, r);
    } else {
      var r1 := InvertLowestOne(r);
    var q := LowestBit(r);
      assert Pow2(0) == 1 && Pow2(1) == 2 && Pow2(2) == 4;
      LowBitIs(r, r1, q);
      if r1 == 0 {
        var q := BitBelow(r, p);
        OneBitAbove(c, p, b, h, m, q);
      } else if q == 1 {
        FirstBitAbove(c, p, b, h, m, r, r1);
      } else {
        SecondBitAbove(c, p, b, h, m, r, r1);
      }
    }
  }

  lemma {:induction false} LowBitIs(r: nat, r1: nat, q: nat)
    requires r == r1 + Pow2(q) && Aligned(r1, q + 1) && r % 2 == 0 && !Aligned(r, 3)
    ensures 1 <= q <= 2
  {
    if q >= 3 {
      AlignedLess(r1, q + 1, 3);
      AlignedPlus(r1, q, 3);
    }
  }

  // ----- every walk -----

  /** The highest bit in which two heights differ. */
  lemma {:induction false} HighestDifference(w: nat, h: nat, k: nat) returns (c: nat, p: nat)
    requires h < w < Pow2(k)
    ensures p < k && Aligned(c, p + 1) && c <= h < c + Pow2(p) <= w < c + 2 * Pow2(p) && (p == k - 1 ==> c == 0)
  {
    var half := Pow2(k - 1);
    if h < half <= w {
      c, p := 0, k - 1;
      AlignedZero(k);
    } else if w < half {
      c, p := HighestDifference(w, h, k - 1);
    } else {
      c, p := HighestDifference(w - half, h - half, k - 1);
      AlignedPlus(c, k - 1, p + 1);
      c := c + half;
    }
  }

  /** The most steps from a height of at most 2^k. */
  function StepLimit(k: nat): int
    requires k >= 1
  {
    Limit(k - 1) - 1 + Max(k - 4, k / 2 + 2)
  }

  lemma {:induction false} FromBlock(c: nat, p: nat, h: nat, m: nat)
    requires p >= 1 && Aligned(c, p + 1) && c <= h < c + Pow2(p) && m >= LimitAbove(c, p) && m >= 2
    ensures Parts(c, p, c + Pow2(p), h, m)
  {
    if h == c {
      AlignedLess(c, p + 1, 1);
      AlignedPlus(c, p, 1);
      SkipOfEven(c + Pow2(p));
      InvertTop(c, p);
      RightThere(c + Pow2(p), h);
    } else {
      DownBound(c, p, h);
    }
  }

  lemma {:induction false} FromAbove(c: nat, p: nat, b: nat, h: nat, m: nat, r: nat)
    requires Parts(c, p, b, h, m) && r < Pow2(p)
    ensures Steps(b + r, h) <= Max(p - 3, (p - 1) / 2 + 3) + m
  {
    if r % 2 == 1 {
      assert Aligned(r - 1, 1) by {
        assert Aligned((r - 1) / 2, 0);
      }
      CountBelow(r - 1, p, 1);
      OddAbove(c, p, b, h, m, r - 1);
    } else if r > 0 {
      assert Aligned(r, 1) by {
        assert Aligned(r / 2, 0);
      }
      CountBelow(r, p, 1);
      EvenAbove(c, p, b, h, m, r);
      if Aligned(r, 3) {
        HighCount(r, p);
      }
    }
  }

  lemma {:induction false} HighCount(r: nat, p: nat)
    requires 0 < r < Pow2(p) && Aligned(r, 3)
    ensures p >= 3 && Count(r) <= p - 3
  {
    EightLess(r);
    assert Pow2(3) == 8;
    if p < 3 {
      Pow2Grows(p, 3);
      assert false;
    }
    CountBelow(r, p, 3);
  }

  lemma {:induction false} Within(c: nat, p: nat, k: nat)
    requires k >= 3 && 1 <= p < k && (p == k - 1 ==> c == 0)
    ensures Max(2, LimitAbove(c, p)) + Max(p - 3, (p - 1) / 2 + 3) <= StepLimit(k)
  {
    assert Limit(2) == 3;
    LimitGrows(2, k - 1);
    if p < k - 1 {
      LimitGrows(p, k - 2);
    }
  }

  /** From any height of at most 2^k, GetAncestor takes at most (k + 2)^2 / 4 - 4 + max(k - 4, k / 2 + 2) steps. */
  lemma {:induction false} EveryWalkShort(w: nat, h: nat, k: nat)
    requires k >= 3 && h <= w <= Pow2(k)
    ensures Steps(w, h) <= StepLimit(k)
  {
    if w == Pow2(k) && h < w {
      AlignedZero(k + 1);
      FromBlock(0, k, h, LimitAbove(0, k));
    } else if h < w {
      var c, p := HighestDifference(w, h, k);
      if p == 0 {
        NearlyThere(w, c, h);
      } else {
        var m, b := Max(2, LimitAbove(c, p)), c + Pow2(p);
        FromBlock(c, p, h, m);
        FromAbove(c, p, b, h, m, w - b);
        Within(c, p, k);
      }
    }
  }

  // ----- the longest walks -----

  ghost predicate Takes(walk: nat, height: nat, n: nat) {
    Steps(walk, height) == n
  }

  lemma {:induction false} TwoLess(a: nat, k: nat, j: nat, h: nat, n: nat)
    requires 1 <= j && j + 2 <= k && Aligned(a, k) && h <= Ones(a, k, j + 2) + 1 && Takes(Ones(a, k, j + 2) + 1, h, n)
    ensures Takes(Ones(a, k, j) + 1, h, n + 1)
  {
    OnesEven(a, k, j);
    SkipAboveOnes(a, k, j);
    TakenAtOdd(Ones(a, k, j), h);
  }

  lemma {:induction false} TwoLessToTwo(k: nat, j: nat, two: nat, n: nat)
    requires two == 2 && 1 <= j && j + 2 < k && Takes(Ones(0, k, j + 2) + 1, two, n)
    ensures Takes(Ones(0, k, j) + 1, two, n + 1)
  {
    AlignedZero(k);
    OnesEven(0, k, j + 2);
    TwoLess(0, k, j, two, n);
  }

  /** Down the run of ones below 2^k to height two. */
  lemma {:induction false} RunToTwo(k: nat, j: nat, t: nat, e: nat, two: nat, n: nat)
    requires two == 2 && 1 <= j && j % 2 == 1 && k >= 3 && k == j + 2 * t + e && 1 <= e <= 2
    requires Takes(Pow2(k - 1), two, n)
    ensures Takes(Ones(0, k, j) + 1, two, t + e + n)
    decreases t
  {
    if t > 0 {
      RunToTwo(k, j + 2, t - 1, e, two, n);
      TwoLessToTwo(k, j, two, t - 1 + e + n);
    } else {
      LastRunToTwo(k, j, two, Ones(0, k, j), n);
    }
  }

  lemma {:induction false} SkipToOne(k: nat, j: nat)
    requires 1 <= j < k <= j + 2
    ensures GetSkipHeight(Ones(0, k, j) + 1) == 1
  {
    AlignedZero(k);
    SkipAboveOnes(0, k, j);
  }

  lemma {:induction false} LastRunToTwo(k: nat, j: nat, two: nat, u: nat, n: nat)
    requires two == 2 && 1 <= j < k <= j + 2 && j % 2 == 1 && k >= 3 && u == Ones(0, k, j)
    requires Takes(Pow2(k - 1), two, n)
    ensures Takes(u + 1, two, 1 + (k - 1 - j) + n)
  {
    AlignedZero(k);
    OnesEven(0, k, j);
    SkipToOne(k, j);
    TooFar(u + 1, two);
    LastOnes(k, j, two);
  }

  lemma {:induction false} LastOnes(k: nat, j: nat, two: nat)
    requires two == 2 && 1 <= j < k <= j + 2 && j % 2 == 1 && k >= 3 && GetSkipHeight(Ones(0, k, j) + 1) == 1
    ensures Steps(Ones(0, k, j), two) == k - 1 - j + Steps(Pow2(k - 1), two)
  {
    AlignedZero(k);
    AlignedZero(k + 1);
    OnesInvert(0, k, j);
    FourAtLeast(k - 1);
    if j + 2 == k {
      OnesInvert(0, k, j + 1);
      SkipsRun(0, k, j, two);
    }
  }

  lemma {:induction false} FourAtLeast(k: nat)
    requires k >= 2
    ensures Pow2(k) >= 4
  {
    assert Pow2(2) == 4;
    Pow2Grows(2, k);
  }

  lemma {:induction false} FourToTwo(four: nat, two: nat)
    requires four == 4 && two == 2
    ensures Steps(four - 1, two) == 1
  {
    SkipOfOdd(two);
    AlignedZero(2);
    InvertTop(0, 1);
    TooFar(four - 1, two);
  }

  lemma {:induction false} FromPowerToTwo(k: nat, two: nat, n: nat)
    requires k >= 3 && two == 2 && Takes(Pow2(k - 1), two, n)
    ensures Takes(Pow2(k) - 1, two, (k + 3) / 2 - 1 + n)
  {
    assert Ones(0, k, 1) + 1 == Pow2(k) - 1;
    if k % 2 == 0 {
      RunToTwo(k, 1, (k - 2) / 2, 1, two, n);
    } else {
      RunToTwo(k, 1, (k - 3) / 2, 2, two, n);
    }
  }

  /** From 2^k the way to height two takes as many steps as any. */
  lemma {:induction false} PowerToTwo(k: nat, two: nat)
    requires k >= 2 == two
    ensures Takes(Pow2(k), two, Limit(k) - 1)
  {
    AlignedZero(k + 1);
    FourAtLeast(k);
    SkipOfEven(Pow2(k));
    InvertTop(0, k);
    TooFar(Pow2(k), two);
    if k == two {
      FourToTwo(Pow2(k), two);
    } else {
      PowerToTwo(k - 1, two);
      FromPowerToTwo(k, two, Limit(k - 1) - 1);
    }
  }

  lemma {:induction false} ManyToTwo(k: nat, j: nat, two: nat)
    requires 3 <= j < k && two == 2
    ensures Takes(Ones(0, k, j), two, k - 1 - j + Limit(k - 1) - 1)
    decreases k - j
  {
    AlignedZero(k);
    OnesInvert(0, k, j);
    if j + 1 == k {
      PowerToTwo(k - 1, two);
    } else {
      OnesAligned(0, k, j + 1);
      OnesEven(0, k, j + 1);
      TakenHigh(Ones(0, k, j + 1), j, two);
      ManyToTwo(k, j + 1, two);
    }
  }

  /** The limit is attained for every k from 12 on, on the way from 2^k - 8 to height two. */
  lemma {:induction false} LimitAttained(k: nat, two: nat)
    requires k >= 12 && two == 2
    ensures Pow2(k) >= 8 && Steps(Pow2(k) - 8, two) == StepLimit(k)
  {
    AtThree(k, 3);
    ManyToTwo(k, 3, two);
  }

  lemma {:induction false} AtThree(k: nat, j: nat)
    requires j == 3 < k
    ensures Pow2(k) >= 8 && Ones(0, k, j) == Pow2(k) - 8
  {
    Pow2Grows(j, k);
    assert Pow2(3) == 8;
  }

  lemma {:induction false} StepLimitIs(k: nat)
    requires k >= 2
    ensures StepLimit(k) == (k + 2) * (k + 2) / 4 - 4 + Max(k - 4, k / 2 + 2)
  {
    LimitIs(k - 1);
  }

  /** Up to height 2^18 there are at most 110 steps, and from 2^18 - 8 to height 2 there are 110. */
  lemma {:induction false} OneHundredAndTen(w: nat, h: nat, k: nat, two: nat)
    requires k == 18 && h <= w <= Pow2(k) && two == 2
    ensures Steps(w, h) <= 110 && Pow2(k) >= 8 && Steps(Pow2(k) - 8, two) == 110
  {
    StepLimitIs(k);
    EveryWalkShort(w, h, k);
    LimitAttained(k, two);
  }

  /** No multiple of the logarithm bounds the steps. */
  lemma {:induction false} NotLogarithmic(factor: nat) returns (k: nat, h: nat)
    ensures k >= 1 && h <= Pow2(k) && Steps(Pow2(k), h) > factor * k
  {
    k, h := 4 * factor + 4, 2;
    PowerToTwo(k, h);
    LimitIs(k);
    FourAtLeast(k);
    Quadratic(factor, k);
  }

  lemma {:induction false} Quadratic(factor: nat, k: nat)
    requires k == 4 * factor + 4
    ensures (k + 3) * (k + 3) / 4 - 4 > factor * k
  {
    assert (k + 3) * (k + 3) == k * k + 6 * k + 9;
    assert k * k == 4 * (factor * k) + 4 * k;
  }
}
