/** The checksum of bech32 as a remainder of polynomials over GF(32) (the comments in PolyMod, bech32.cpp). */
module Bech32Field {
  import opened Numbers
  import opened Shifts
  import opened Collections
  import opened Bech32

  // ----- the field -----

  /** {2} * y in GF(32), whose elements are polynomials in a of degree below five, modulo a^5 + a^3 + 1. */
  function Double(y: nat): nat {
    if 2 * y < 32 then 2 * y else Xor(2 * y, 41)
  }

  /** {x} * {y} */
  function Times(x: nat, y: nat): nat {
    if x == 0 then 0 else Xor(if x % 2 == 1 then y else 0, Times(x / 2, Double(y)))
  }

  /** The coefficients of k(x), which is x^6 modulo the generator. */
  const GENERATOR: seq<nat> := [29, 22, 20, 21, 29, 18]

  /** c(x) * x + v modulo the generator, from the coefficient of x^5 on. */
  function TimesX(c: seq<nat>, v: nat): (r: seq<nat>)
    requires |c| == 6
    ensures |r| == 6
  {
    seq(6, i requires 0 <= i < 6 => Xor((c + [v])[i + 1], Times(c[0], GENERATOR[i])))
  }

  /** The remainder of the polynomial with the coefficients `v` after those of `c`. */
  function Remainder(c: seq<nat>, v: seq<nat>): (r: seq<nat>)
    requires |c| == 6
    ensures |r| == 6
    decreases |v|
  {
    if v == [] then c else Remainder(TimesX(c, v[0]), v[1..])
  }

  // ----- multiples of the generator -----

  lemma {:induction false} TermHalf(x: nat, k: nat, g: nat)
    ensures Term(x, k + 1, g) == Term(x / 2, k, g)
  {
  }

  lemma {:induction false} TimesUnfold(x: nat, y: nat)
    ensures Times(x, y) == Xor(Term(x, 0, y), Times(x / 2, Double(y)))
  {
    if x == 0 {
      XorZero(0);
    }
  }

  lemma {:induction false} Times2(x: nat, y: nat, y1: nat)
    requires x < 4 && y1 == Double(y)
    ensures Times(x, y) == Xor(Term(x, 0, y), Term(x, 1, y1))
  {
    TimesUnfold(x, y);
    TimesUnfold(x / 2, y1);
    assert Times(0, Double(y1)) == 0;
    XorZero(Term(x / 2, 0, y1));
    TermHalf(x, 0, y1);
  }

  lemma {:induction false} Times3(x: nat, y: nat, y1: nat, y2: nat)
    requires x < 8 && y1 == Double(y) && y2 == Double(y1)
    ensures Times(x, y) == Xor(Term(x, 0, y), Xor(Term(x, 1, y1), Term(x, 2, y2)))
  {
    TimesUnfold(x, y);
    Times2(x / 2, y1, y2);
    TermHalf(x, 0, y1);
    TermHalf(x, 1, y2);
  }

  lemma {:induction false} Times4(x: nat, y: nat, y1: nat, y2: nat, y3: nat)
    requires x < 16 && y1 == Double(y) && y2 == Double(y1) && y3 == Double(y2)
    ensures Times(x, y) == Xor(Term(x, 0, y), Xor(Term(x, 1, y1), Xor(Term(x, 2, y2), Term(x, 3, y3))))
  {
    TimesUnfold(x, y);
    Times3(x / 2, y1, y2, y3);
    TermHalf(x, 0, y1);
    TermHalf(x, 1, y2);
    TermHalf(x, 2, y3);
  }

  /** A product by the five bits of its first factor. */
  lemma {:induction false} Times5(x: nat, y: nat, y1: nat, y2: nat, y3: nat, y4: nat)
    requires x < 32 && y1 == Double(y) && y2 == Double(y1) && y3 == Double(y2) && y4 == Double(y3)
    ensures Times(x, y) ==
      Xor(Term(x, 0, y), Xor(Term(x, 1, y1), Xor(Term(x, 2, y2), Xor(Term(x, 3, y3), Term(x, 4, y4)))))
  {
    TimesUnfold(x, y);
    Times4(x / 2, y1, y2, y3, y4);
    TermHalf(x, 0, y1);
    TermHalf(x, 1, y2);
    TermHalf(x, 2, y3);
    TermHalf(x, 3, y4);
  }

  lemma {:induction false} GroupsXor(a: nat, b: nat, n: nat, i: nat)
    requires i < n
    ensures Groups(Xor(a, b), n)[i] == Xor(Groups(a, n)[i], Groups(b, n)[i])
    decreases n
  {
    XorParts(a, b, 5);
    if i < n - 1 {
      GroupsXor(Shr(a, 5), Shr(b, 5), n - 1, i);
    }
  }

  lemma {:induction false} GroupsZero(n: nat, i: nat)
    requires i < n
    ensures Groups(0, n)[i] == 0
    decreases n
  {
    ShrZero(5);
    if i < n - 1 {
      GroupsZero(n - 1, i);
    }
  }

  lemma {:induction false} TermGroup(c0: nat, k: nat, g: nat, n: nat, i: nat)
    requires i < n
    ensures Groups(Term(c0, k, g), n)[i] == Term(c0, k, Groups(g, n)[i])
  {
    GroupsZero(n, i);
  }

  lemma {:induction false} Shl5(x: nat, k: nat)
    requires k == 5
    ensures Shl(x, k) == 32 * x
  {
    assert Shl(x, 4) == 2 * Shl(x, 3) && Shl(x, 2) == 2 * Shl(x, 1);
  }

  lemma {:induction false} PackedNext(r: seq<nat>, k: nat)
    requires k < |r|
    ensures Packed(r[..k + 1]) == 32 * Packed(r[..k]) + r[k]
  {
    TakeTake(r, k, k + 1);
    Shl5(Packed(r[..k]), 5);
  }

  lemma {:induction false} PackedSix(r: seq<nat>)
    requires |r| == 6
    ensures Packed(r) == 32 * (32 * (32 * (32 * (32 * r[0] + r[1]) + r[2]) + r[3]) + r[4]) + r[5]
  {
    PackedNext(r, 0);
    PackedNext(r, 1);
    PackedNext(r, 2);
    PackedNext(r, 3);
    PackedNext(r, 4);
    PackedNext(r, 5);
    assert r[..6] == r;
  }

  lemma {:induction false} GroupsAre(m: nat, n: nat, a: nat, b: nat, c: nat, d: nat, e: nat, f: nat)
    requires n == 6 && a < 32 && b < 32 && c < 32 && d < 32 && e < 32 && f < 32
    requires m == 32 * (32 * (32 * (32 * (32 * a + b) + c) + d) + e) + f
    ensures Groups(m, n) == [a, b, c, d, e, f]
  {
    PackedSix([a, b, c, d, e, f]);
    GroupsPacked([a, b, c, d, e, f]);
  }

  const TWICE: seq<nat> := [19, 5, 1, 3, 19, 13]
  const FOURFOLD: seq<nat> := [15, 10, 2, 6, 15, 26]
  const EIGHTFOLD: seq<nat> := [30, 20, 4, 12, 30, 29]
  const SIXTEENFOLD: seq<nat> := [21, 1, 8, 24, 21, 19]

  lemma {:induction false} DoubledLow(i: nat)
    requires i < 6
    ensures Double(GENERATOR[i]) == TWICE[i] && Double(TWICE[i]) == FOURFOLD[i]
  {
    assert Double(29) == 19 && Double(22) == 5 && Double(20) == 1 && Double(21) == 3 && Double(18) == 13;
    assert Double(19) == 15;
  }

  lemma {:induction false} DoubledHigh(i: nat)
    requires i < 6
    ensures Double(FOURFOLD[i]) == EIGHTFOLD[i] && Double(EIGHTFOLD[i]) == SIXTEENFOLD[i]
  {
    assert Double(26) == 29 && Double(30) == 21 && Double(20) == 1 && Double(29) == 19;
  }

  lemma {:induction false} TermMultiple(
    c0: nat, k: nat, g: nat, n: nat, i: nat, a: nat, b: nat, c: nat, d: nat, e: nat, f: nat)
    requires i < n == 6 && a < 32 && b < 32 && c < 32 && d < 32 && e < 32 && f < 32
    requires g == 32 * (32 * (32 * (32 * (32 * a + b) + c) + d) + e) + f
    ensures Groups(Term(c0, k, g), n)[i] == Term(c0, k, [a, b, c, d, e, f][i])
  {
    TermGroup(c0, k, g, n, i);
    GroupsAre(g, n, a, b, c, d, e, f);
  }

  lemma {:induction false} SumGroups(t0: nat, t1: nat, t2: nat, t3: nat, t4: nat, n: nat, i: nat)
    requires i < n
    ensures Groups(Xor(t0, Xor(t1, Xor(t2, Xor(t3, t4)))), n)[i] ==
      Xor(Groups(t0, n)[i], Xor(Groups(t1, n)[i], Xor(Groups(t2, n)[i], Xor(Groups(t3, n)[i], Groups(t4, n)[i]))))
  {
    GroupsXor(t3, t4, n, i);
    GroupsXor(t2, Xor(t3, t4), n, i);
    GroupsXor(t1, Xor(t2, Xor(t3, t4)), n, i);
    GroupsXor(t0, Xor(t1, Xor(t2, Xor(t3, t4))), n, i);
  }

  /** The constants are k(x), {2}k(x), {4}k(x), {8}k(x) and {16}k(x), so what the top bits add is the multiple of k(x)
      by the top coefficient. */
  lemma {:induction false} ReductionIs(
    c0: nat, g0: nat, g1: nat, g2: nat, g3: nat, g4: nat, n: nat, i: nat)
    requires g0 == 0x3b6a57b2 && g1 == 0x26508e6d && g2 == 0x1ea119fa && g3 == 0x3d4233dd && g4 == 0x2a1462b3
    requires c0 < 32 && i < n == 6
    ensures Groups(Reduction(c0), n)[i] == Times(c0, GENERATOR[i])
  {
    SumGroups(Term(c0, 0, g0), Term(c0, 1, g1), Term(c0, 2, g2), Term(c0, 3, g3), Term(c0, 4, g4), n, i);
    TermMultiple(c0, 0, g0, n, i, 29, 22, 20, 21, 29, 18);
    TermMultiple(c0, 1, g1, n, i, 19, 5, 1, 3, 19, 13);
    TermMultiple(c0, 2, g2, n, i, 15, 10, 2, 6, 15, 26);
    TermMultiple(c0, 3, g3, n, i, 30, 20, 4, 12, 30, 29);
    TermMultiple(c0, 4, g4, n, i, 21, 1, 8, 24, 21, 19);
    DoubledLow(i);
    DoubledHigh(i);
    Times5(c0, GENERATOR[i], TWICE[i], FOURFOLD[i], EIGHTFOLD[i], SIXTEENFOLD[i]);
  }

  // ----- rounds and residues -----

  lemma {:induction false} GroupsTop(c: nat, n: nat, k: nat)
    requires c < Pow2(5 * (n + 1)) && k == 5 * n
    ensures Groups(c, n + 1) == [Shr(c, k)] + Groups(Low(c, k), n)
    decreases n
  {
    if n == 0 {
      LowAll(c, 5);
    } else {
      GroupBelow(c, n + 1, k);
      GroupsTop(Shr(c, 5), n - 1, k - 5);
      ShrPlus(c, 5, k - 5);
      LowShr(c, 5, k - 5);
      LowLow(c, 5, k - 5);
    }
  }

  lemma {:induction false} LowLow(x: nat, i: nat, j: nat)
    ensures Low(Low(x, i + j), i) == Low(x, i)
  {
    if i > 0 {
      LowLow(x / 2, i - 1, j);
    }
  }

  lemma {:induction false} GroupsShifted(low: nat, v: nat, n: nat)
    requires v < 32
    ensures Groups(Shl(low, 5) + v, n + 1) == Groups(low, n) + [v]
  {
    Pow2Of5();
    PartsUnique(low, v, 5);
  }

  lemma {:induction false} StepParts(c: nat, v: nat, k: nat, n: nat, i: nat)
    requires v < 32 && k == 25 && i < n
    ensures Groups(Step(c, v), n)[i] == Xor(Groups(Shl(Low(c, k), 5) + v, n)[i], Groups(Reduction(Shr(c, k)), n)[i])
  {
    Pow2Of5();
    XorDisjoint(Low(c, k), v, 5);
    GroupsXor(Shl(Low(c, k), 5) + v, Reduction(Shr(c, k)), n, i);
  }

  lemma {:induction false} NextCoefficient(c: nat, v: nat, n: nat, k: nat, i: nat)
    requires n == 5 && k == 25 && c < Pow2(30) && v < 32 && i < 6
    ensures Groups(c, n + 1)[0] == Shr(c, k) < 32
    ensures Groups(Shl(Low(c, k), 5) + v, n + 1)[i] == (Groups(c, n + 1) + [v])[i + 1]
  {
    Pow2Of5();
    SplitBelow(c, 5, k);
    GroupsTop(c, n, k);
    GroupsShifted(Low(c, k), v, n);
  }

  lemma {:induction false} StepGroup(c: nat, v: nat, n: nat, k: nat, i: nat)
    requires n == 6 && k == 25 && c < Pow2(30) && v < 32 && i < 6
    ensures Groups(Step(c, v), n)[i] == Xor((Groups(c, n) + [v])[i + 1], Times(Groups(c, n)[0], GENERATOR[i]))
  {
    NextCoefficient(c, v, n - 1, k, i);
    StepParts(c, v, k, n, i);
    ReductionIs(Shr(c, k), 0x3b6a57b2, 0x26508e6d, 0x1ea119fa, 0x3d4233dd, 0x2a1462b3, n, i);
  }

  lemma {:induction false} StepGroups(c: nat, v: nat, n: nat)
    requires n == 6 && c < Pow2(30) && v < 32
    ensures Groups(Step(c, v), n) == TimesX(Groups(c, n), v)
  {
    var r, t := Groups(Step(c, v), n), TimesX(Groups(c, n), v);
    forall i | 0 <= i < 6
      ensures r[i] == t[i]
    {
      StepGroup(c, v, n, 25, i);
    }
  }

  /** A round multiplies the polynomial by x, adds the value, and reduces modulo the generator. */
  lemma {:induction false} StepIsTimesX(c: nat, v: nat)
    requires c < Pow2(30) && v < 32
    ensures Groups(Step(c, v), 6) == TimesX(Groups(c, 6), v)
  {
    StepGroups(c, v, 6);
  }

  lemma {:induction false} FoldIsRemainder(c: nat, v: seq<nat>)
    requires c < Pow2(30) && FiveBit(v)
    ensures Groups(Fold(c, v), 6) == Remainder(Groups(c, 6), v)
    decreases |v|
  {
    if v != [] {
      StepIsTimesX(c, v[0]);
      Pow2Of30();
      StepBelow(c, v[0]);
      FoldIsRemainder(Step(c, v[0]), v[1..]);
    }
  }

  /** PolyMod packs the remainder of the polynomial with a leading one and the coefficients `v`. */
  lemma {:induction false} PolyModIsRemainder(v: seq<nat>)
    requires FiveBit(v)
    ensures Groups(PolyMod(v), 6) == Remainder([0, 0, 0, 0, 0, 1], v)
  {
    GroupsAre(1, 6, 0, 0, 0, 0, 0, 1);
    Pow2Of30();
    FoldIsRemainder(1, v);
  }

  // ----- characters -----

  /** The character set for encoding; the one for decoding inverts it, for both cases. */
  lemma {:induction false} CharsetIs(v: nat)
    requires v < 32
    ensures Charset(v) == "qpzry9x8gf2tvdw0s3jn54khce6mua7l"[v]
  {
  }
}
