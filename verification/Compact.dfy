/** The compact form of targets (SetCompact, GetCompact) and the proof of work of a block, as numbers. */
module Compact {
  import opened Numbers
  import opened Shifts
  import opened Limbs

  const WIDTH := 8

  /** GetCompact: the mantissa and the exponent before they are packed. */
  function Mantissa(x: nat): nat {
    var size := (Bits(x) + 7) / 8;
    if size <= 3 then Shl(x, 8 * (3 - size)) else Shr(x, 8 * (size - 3))
  }

  /** If the sign bit is set, the mantissa loses a byte and the exponent grows. */
  function Exponent(x: nat): nat {
    (Bits(x) + 7) / 8 + if Mantissa(x) >= 0x80_0000 then 1 else 0
  }

  function Kept(x: nat): nat {
    if Mantissa(x) >= 0x80_0000 then Mantissa(x) / 0x100 else Mantissa(x)
  }

  function GetCompact(x: nat, negative: bool): nat {
    Kept(x) + Exponent(x) * 0x100_0000 + if negative && Kept(x) % 0x80_0000 != 0 then 0x80_0000 else 0
  }

  datatype Target = Target(value: nat, negative: bool, overflow: bool)

  /** The mantissa that SetCompact reads, shifted down for small exponents. */
  function Word(compact: nat): nat {
    var size := compact / 0x100_0000;
    if size <= 3 then Shr(compact % 0x80_0000, 8 * (3 - size)) else compact % 0x80_0000
  }

  function SetCompact(compact: nat): Target {
    var size, word := compact / 0x100_0000, Word(compact);
    Target(
      (if size <= 3 then word else Shl(word, 8 * (size - 3))) % P(WIDTH),
      word != 0 && compact / 0x80_0000 % 2 == 1,
      word != 0 && (size > 34 || (word > 0xff && size > 33) || (word > 0xffff && size > 32)))
  }

  /** The bytes of `x` below the mantissa cleared. */
  function Truncated(x: nat): nat {
    var k := if Exponent(x) <= 3 then 0 else 8 * (Exponent(x) - 3);
    Shl(Shr(x, k), k)
  }

  lemma {:induction false} Pow2Of24()
    ensures Pow2(16) == 0x1_0000 && Pow2(23) == 0x80_0000 && Pow2(24) == 0x100_0000
  {
    Pow2Of8();
    Pow2Add(8, 8);
    Pow2Add(16, 8);
    assert 2 * Pow2(23) == Pow2(24);
  }

  /** The mantissa has at most three bytes. */
  lemma {:induction false} MantissaBelow(x: nat)
    ensures Mantissa(x) < 0x100_0000 && Kept(x) < 0x80_0000
  {
    var size := (Bits(x) + 7) / 8;
    BitsRange(x);
    Pow2Grows(Bits(x), 8 * size);
    Pow2Of24();
    if size <= 3 {
      ShlBelow(x, 8 * size, 8 * (3 - size));
    } else {
      ShrBelow(x, 24, 8 * (size - 3));
    }
  }

  /** Eight single shifts divide by 256. */
  lemma {:induction false} ByteShift(x: nat, k: nat)
    requires k == 8
    ensures Shr(x, k) == x / 0x100
  {
    Pow2Of8();
    Parts(x, k);
    LowBelow(x, k);
    ShlIsMul(Shr(x, k), k);
  }

  /** The mantissa is `x` shifted so that three bytes remain. */
  lemma {:induction false} KeptExact(x: nat)
    ensures var e := Exponent(x); Kept(x) == if e <= 3 then Shl(x, 8 * (3 - e)) else Shr(x, 8 * (e - 3))
  {
    var size, k := (Bits(x) + 7) / 8, 8;
    if Mantissa(x) >= 0x80_0000 {
      ByteShift(Mantissa(x), k);
      if size <= 3 {
        ShrShl(x, k * (3 - size), k);
      } else {
        ShrPlus(x, k * (size - 3), k);
      }
    }
  }

  lemma {:induction false} ExponentBelow(x: nat)
    requires x < P(WIDTH)
    ensures Exponent(x) <= 33 && (Exponent(x) == 33 ==> Kept(x) <= 0xffff)
  {
    PIsPow2(WIDTH);
    BitsBelow(x, 32 * WIDTH);
    MantissaBelow(x);
    Pow2Of24();
  }

  /** The packed fields are read back. */
  lemma {:induction false} Unpacked(m: nat, e: nat)
    requires m < 0x80_0000
    ensures var c := m + e * 0x100_0000; c / 0x100_0000 == e && c % 0x80_0000 == m && c / 0x80_0000 % 2 == 0
  {
  }

  lemma {:induction false} Restored(x: nat)
    requires x < P(WIDTH)
    ensures var e, m := Exponent(x), Kept(x);
      (if e <= 3 then Shr(m, 8 * (3 - e)) else Shl(m, 8 * (e - 3))) == Truncated(x) <= x
  {
    var e := Exponent(x);
    KeptExact(x);
    if e <= 3 {
      ShrShl(x, 8 * (3 - e), 8 * (3 - e));
    } else {
      Parts(x, 8 * (e - 3));
    }
  }

  /** Reading back the compact form of `x` gives `x` truncated to its mantissa, with neither flag set. */
  lemma {:induction false} CompactRoundTrip(x: nat)
    requires x < P(WIDTH)
    ensures GetCompact(x, false) < 0x1_0000_0000
    ensures SetCompact(GetCompact(x, false)) == Target(Truncated(x), false, false)
  {
    MantissaBelow(x);
    ExponentBelow(x);
    Unpacked(Kept(x), Exponent(x));
    Restored(x);
    KeptWord(x);
    Small(Truncated(x), P(WIDTH));
  }

  lemma {:induction false} Small(v: nat, m: nat)
    requires v < m
    ensures v % m == v
  {
    DivModUnique(v, 0, m, v);
  }

  lemma {:induction false} KeptWord(x: nat)
    requires x < P(WIDTH)
    ensures Exponent(x) > 3 ==> Word(GetCompact(x, false)) == Kept(x)
    ensures Exponent(x) <= 3 ==> Word(GetCompact(x, false)) == Truncated(x)
  {
    MantissaBelow(x);
    Unpacked(Kept(x), Exponent(x));
    Restored(x);
  }

  /** Truncation keeps the two highest bytes of `x`, and three where the sign bit is free. */
  lemma {:induction false} TruncationBound(x: nat)
    ensures var k := if Exponent(x) <= 3 then 0 else 8 * (Exponent(x) - 3); Truncated(x) <= x < Truncated(x) + Pow2(k)
  {
    var k := if Exponent(x) <= 3 then 0 else 8 * (Exponent(x) - 3);
    Parts(x, k);
    LowBelow(x, k);
  }

  /** The round trip gives back `x` if and only if the bits below its mantissa are zero. */
  lemma {:induction false} CompactLossless(x: nat)
    requires x < P(WIDTH)
    ensures var k := if Exponent(x) <= 3 then 0 else 8 * (Exponent(x) - 3);
      SetCompact(GetCompact(x, false)).value == x <==> Low(x, k) == 0
  {
    CompactRoundTrip(x);
    Parts(x, if Exponent(x) <= 3 then 0 else 8 * (Exponent(x) - 3));
  }

  // ----- reading any compact number -----

  /** The length in bits that the overflow test assigns to a mantissa. */
  function WordBits(word: nat): nat {
    if word > 0xffff then 24 else if word > 0xff then 16 else if word > 0 then 8 else 0
  }

  /** A shifted mantissa fits if its length does. */
  lemma {:induction false} ShiftedFits(word: nat, k: nat)
    requires word < 0x80_0000 && (word == 0 || WordBits(word) + k <= 256)
    ensures Shl(word, k) < P(WIDTH)
  {
    PIsPow2(WIDTH);
    Pow2Of24();
    Pow2Of8();
    ShlBelow(word, WordBits(word), k);
    if word == 0 {
      ShlIsMul(0, k);
    } else {
      Pow2Grows(WordBits(word) + k, 256);
    }
  }

  /** It does not fit if all bits but the lowest eight of its length are shifted too far. */
  lemma {:induction false} ShiftedOverflows(word: nat, k: nat)
    requires word > 0 && WordBits(word) - 8 + k >= 256
    ensures Shl(word, k) >= P(WIDTH)
  {
    var b := WordBits(word) - 8;
    PIsPow2(WIDTH);
    Pow2Of24();
    Pow2Of8();
    ShlIsMul(word, k);
    Pow2Add(b, k);
    Pow2Grows(256, b + k);
    MulGrows(Pow2(b), word, Pow2(k));
  }

  lemma {:induction false} MulGrows(a: nat, b: nat, c: nat)
    requires a <= b
    ensures a * c <= b * c
  {
  }

  /** The overflow flag is set if and only if the shifted mantissa does not fit. */
  lemma {:induction false} OverflowExact(compact: nat)
    requires compact < 0x1_0000_0000
    ensures var size, word := compact / 0x100_0000, Word(compact);
      SetCompact(compact).overflow <==> size > 3 && Shl(word, 8 * (size - 3)) >= P(WIDTH)
  {
    var size, word := compact / 0x100_0000, Word(compact);
    WordSmall(compact);
    if size > 3 {
      if SetCompact(compact).overflow {
        ShiftedOverflows(word, 8 * (size - 3));
      } else {
        ShiftedFits(word, 8 * (size - 3));
      }
    }
  }

  /** The value is exact, nothing being shifted out, if and only if the overflow flag is not set. */
  lemma {:induction false} SetCompactFits(compact: nat)
    requires compact < 0x1_0000_0000
    ensures var size, word := compact / 0x100_0000, Word(compact);
      SetCompact(compact).value == (if size <= 3 then word else Shl(word, 8 * (size - 3))) <==>
        !SetCompact(compact).overflow
  {
    var size, word := compact / 0x100_0000, Word(compact);
    OverflowExact(compact);
    var v := if size <= 3 then word else Shl(word, 8 * (size - 3));
    if size <= 3 {
      WordSmall(compact);
      ShlIsMul(word, 0);
      ShiftedFits(word, 0);
    }
    if v < P(WIDTH) {
      Small(v, P(WIDTH));
    }
  }

  lemma {:induction false} WordSmall(compact: nat)
    ensures Word(compact) < 0x80_0000
  {
    var size := compact / 0x100_0000;
    if size <= 3 {
      ShrLess(compact % 0x80_0000, 8 * (3 - size));
    }
  }

  // ----- what a compact number denotes -----

  /** The magnitude that a compact number stands for: its low 23 bits times 256^(size - 3), rounded down. */
  ghost function Magnitude(compact: nat): int {
    Scaled(compact % 0x80_0000, 8 * (compact / 0x100_0000 - 3))
  }

  /** m * 2^k, rounded down for a negative `k`. */
  ghost function Scaled(m: nat, k: int): int {
    if k <= 0 then m / Pow2(-k) else m * Pow2(k)
  }

  lemma {:induction false} MagnitudeIs(compact: nat)
    ensures var (size, word) := (compact / 0x100_0000, Word(compact));
      && Magnitude(compact) == (if size <= 3 then word else Shl(word, 8 * (size - 3)))
      && Magnitude(compact) >= 0 && (Magnitude(compact) == 0 <==> word == 0)
  {
    var size, m := compact / 0x100_0000, compact % 0x80_0000;
    if size <= 3 {
      ShrIsDiv(m, 8 * (3 - size));
    } else {
      ShlIsMul(m, 8 * (size - 3));
      ProductZero(m, Pow2(8 * (size - 3)));
    }
  }

  lemma {:induction false} SmallMagnitude(compact: nat, bits: nat)
    requires compact / 0x100_0000 <= 3 && bits >= 24
    ensures Word(compact) < Pow2(bits)
  {
    WordSmall(compact);
    Pow2Of24();
    Pow2Grows(24, bits);
  }

  /** SetCompact reads a compact number as its magnitude modulo 2^256; the number is negative exactly if bit 23 is set
      and the magnitude is not zero, and it overflows exactly if the magnitude needs more than 256 bits. */
  lemma {:induction false} CompactMeaning(compact: nat, bits: nat)
    requires compact < 0x1_0000_0000 && bits == 256
    ensures var (v, t, limit) := (Magnitude(compact), SetCompact(compact), Pow2(bits));
      && v >= 0 && t.value == v % limit
      && (t.negative <==> compact % 0x100_0000 >= 0x80_0000 && v != 0)
      && (t.overflow <==> v >= limit)
  {
    PIsPow2(WIDTH);
    OverflowExact(compact);
    MagnitudeIs(compact);
    if compact / 0x100_0000 <= 3 {
      SmallMagnitude(compact, bits);
    }
    SignIs(compact);
  }

  lemma {:induction false} SignIs(compact: nat)
    ensures compact / 0x80_0000 % 2 == 1 <==> compact % 0x100_0000 >= 0x80_0000
  {
  }

  lemma {:induction false} UnpackedSigned(m: nat, e: nat)
    requires m < 0x80_0000
    ensures var c := m + e * 0x100_0000 + 0x80_0000;
      c / 0x100_0000 == e && c % 0x80_0000 == m && c % 0x100_0000 >= 0x80_0000
  {
  }

  lemma {:induction false} ProductZero(a: nat, b: nat)
    requires b > 0
    ensures a * b == 0 <==> a == 0
  {
  }

  lemma {:induction false} SignedWord(x: nat)
    requires Kept(x) != 0
    ensures var (c, c') := (GetCompact(x, false), GetCompact(x, true));
      && c' == c + 0x80_0000 && c' / 0x100_0000 == c / 0x100_0000 && Word(c') == Word(c)
      && c' / 0x80_0000 % 2 == 1 && c / 0x100_0000 == Exponent(x)
  {
    MantissaBelow(x);
    Unpacked(Kept(x), Exponent(x));
    UnpackedSigned(Kept(x), Exponent(x));
    SignIs(GetCompact(x, true));
  }

  lemma {:induction false} KeptZero(x: nat)
    requires x < P(WIDTH)
    ensures Kept(x) == 0 <==> Truncated(x) == 0
    ensures Truncated(x) == 0 <==> Word(GetCompact(x, false)) == 0
  {
    var (e, m) := (Exponent(x), Kept(x));
    KeptExact(x);
    KeptWord(x);
    if e <= 3 {
      ShlIsMul(x, 8 * (3 - e));
      ProductZero(x, Pow2(8 * (3 - e)));
    } else {
      ShlIsMul(m, 8 * (e - 3));
      ProductZero(m, Pow2(8 * (e - 3)));
    }
  }

  /** Reading back the compact form of a negated number gives the truncated number and its sign; zero has none. */
  lemma {:induction false} SignedRoundTrip(x: nat)
    requires x < P(WIDTH)
    ensures GetCompact(x, true) < 0x1_0000_0000
    ensures SetCompact(GetCompact(x, true)) == Target(Truncated(x), Truncated(x) != 0, false)
  {
    CompactRoundTrip(x);
    KeptZero(x);
    MantissaBelow(x);
    ExponentBelow(x);
    if Kept(x) != 0 {
      SignedWord(x);
    }
  }

  // ----- precision -----

  /** A number other than zero keeps sixteen significant bits or more. */
  lemma {:induction false} KeptLong(x: nat)
    requires x > 0
    ensures Kept(x) >= 0x8000
  {
    var size := (Bits(x) + 7) / 8;
    BitsRange(x);
    Pow2Grows(8 * (size - 1), Bits(x) - 1);
    Pow2Of24();
    if size <= 3 {
      ShlIsMul(x, 8 * (3 - size));
      Pow2Add(8 * (size - 1), 8 * (3 - size));
      MulGrows(Pow2(8 * (size - 1)), x, Pow2(8 * (3 - size)));
    } else if Mantissa(x) < 0x1_0000 {
      var k := 8 * (size - 3);
      Parts(x, k);
      LowBelow(x, k);
      JoinBelow(Shr(x, k), 16, Low(x, k), k);
    }
  }

  /** The compact form loses less than one part in 2^15. */
  lemma {:induction false} TruncationSmall(x: nat)
    requires 0 < x < P(WIDTH)
    ensures Truncated(x) <= x && 0x8000 * (x - Truncated(x)) < x
  {
    var k := if Exponent(x) <= 3 then 0 else 8 * (Exponent(x) - 3);
    TruncationBound(x);
    KeptLong(x);
    KeptExact(x);
    if Exponent(x) > 3 {
      ShlIsMul(Kept(x), k);
      MulGrows(0x8000, Kept(x), Pow2(k));
    }
  }

  // ----- the proof of work -----

  /** No target is the largest number, so that one can be added. */
  lemma {:induction false} TargetBelow(compact: nat)
    requires compact < 0x1_0000_0000
    ensures SetCompact(compact).value + 1 < P(WIDTH)
  {
    var size, word := compact / 0x100_0000, Word(compact);
    PIsPow2(WIDTH);
    Pow2Of24();
    if size <= 3 {
      WordSmall(compact);
      Pow2Grows(24, 255);
      Small(word, P(WIDTH));
    } else {
      var v := Shl(word, 8 * (size - 3));
      assert v == 2 * Shl(word, 8 * (size - 3) - 1);
      EvenMod(v, P(WIDTH), Pow2(255));
    }
  }

  lemma {:induction false} EvenMod(v: nat, n: nat, h: nat)
    requires v % 2 == 0 && h > 0 && n == 2 * h
    ensures v % n + 1 < n
  {
    var q: int, r := v / n, v % n;
    Division(v, n);
    TwoHalves(q, n, h);
    EvenRemainder(v, q * h, r, h);
  }

  lemma {:induction false} TwoHalves(q: int, n: nat, h: nat)
    requires n == 2 * h
    ensures q * n == 2 * (q * h)
  {
  }

  lemma {:induction false} EvenRemainder(v: nat, half: int, r: nat, h: nat)
    requires v % 2 == 0 && v == 2 * half + r && r < 2 * h
    ensures r + 1 < 2 * h
  {
  }

  /** GetBlockProof, in arithmetic modulo 2^256 on `n` limbs, for a weight of 32 bits. */
  function BlockProof(nBits: nat, weight: nat, n: nat): nat
    requires nBits < 0x1_0000_0000 && n == WIDTH
  {
    var t := SetCompact(nBits);
    if t.negative || t.overflow || t.value == 0 then 0 else
      TargetBelow(nBits);
      ProofOf(t.value, weight, P(n))
  }

  /** The proof of a target below `m`, in arithmetic modulo `m`. */
  function ProofOf(t: nat, weight: nat, m: nat): nat
    requires t + 1 < m
  {
    Small(t + 1, m);
    (weight * ((m - 1 - t) / ((t + 1) % m)) % m + 1) % m
  }

  /** Division by the complement: 2^256 / (t + 1) without representing 2^256. */
  lemma {:induction false} ComplementDivision(m: nat, t: nat)
    requires t + 1 < m
    ensures (m - 1 - t) / (t + 1) == m / (t + 1) - 1
  {
    var d := t + 1;
    Division(m, d);
    var q, r := m / d, m % d;
    assert m - d == (q - 1) * d + r;
    DivModUnique(m - d, q - 1, d, r);
  }

  lemma {:induction false} AddInMod(x: nat, m: nat)
    requires m > 0
    ensures (x % m + 1) % m == (x + 1) % m
  {
    Division(x, m);
    Division(x % m + 1, m);
    var q := x / m;
    var q', r := (x % m + 1) / m, (x % m + 1) % m;
    assert (q + q') * m == q * m + q' * m;
    DivModUnique(x + 1, q + q', m, r);
  }

  lemma {:induction false} WeightedQuotient(m: nat, t: nat, weight: nat)
    requires t + 1 < m
    ensures ProofOf(t, weight, m) == ((m / (t + 1) - 1) * weight + 1) % m
  {
    Small(t + 1, m);
    ComplementDivision(m, t);
    var q := (m - 1 - t) / (t + 1);
    MulComm(weight, q);
    AddInMod(weight * q, m);
  }

  /** For every accepted target there is no division by zero, and the proof is (floor(2^256 / (t + 1)) - 1) * weight +
      1. */
  lemma {:induction false} BlockProofExact(nBits: nat, weight: nat, n: nat, t: Target, m: nat)
    requires nBits < 0x1_0000_0000 && n == WIDTH && t == SetCompact(nBits) && m == P(n)
    ensures t.negative || t.overflow || t.value == 0 ==> BlockProof(nBits, weight, n) == 0
    ensures !(t.negative || t.overflow || t.value == 0) ==>
      t.value + 1 < m && BlockProof(nBits, weight, n) == ((m / (t.value + 1) - 1) * weight + 1) % m
  {
    if !(t.negative || t.overflow || t.value == 0) {
      TargetBelow(nBits);
      WeightedQuotient(m, t.value, weight);
    }
  }

  /** A target whose sign bit is set, whatever its mantissa and size, has no proof of work. */
  lemma {:induction false} NoProofIfSigned(nBits: nat, weight: nat, n: nat)
    requires nBits < 0x1_0000_0000 && nBits % 0x100_0000 >= 0x80_0000 && n == WIDTH
    ensures BlockProof(nBits, weight, n) == 0
  {
    SignedTarget(nBits, 256);
  }

  lemma {:induction false} SignedTarget(nBits: nat, bits: nat)
    requires nBits < 0x1_0000_0000 && nBits % 0x100_0000 >= 0x80_0000 && bits == 256
    ensures SetCompact(nBits).negative || SetCompact(nBits).value == 0
  {
    CompactMeaning(nBits, bits);
    Small(0, Pow2(bits));
  }

  lemma {:induction false} TargetIs(nBits: nat, v: nat, bits: nat)
    requires nBits < 0x1_0000_0000 && nBits % 0x100_0000 < 0x80_0000 && v == Magnitude(nBits) && bits == 256
    ensures v < Pow2(bits) ==> SetCompact(nBits) == Target(v, false, false)
    ensures v >= Pow2(bits) ==> SetCompact(nBits).overflow
  {
    CompactMeaning(nBits, bits);
    if v < Pow2(bits) {
      Small(v, Pow2(bits));
    }
  }

  /** Otherwise it has none exactly if its magnitude is zero or needs more than 256 bits, and else the proof is
      (floor(2^256 / (magnitude + 1)) - 1) * weight + 1 modulo 2^256. */
  lemma {:induction false} BlockProofMeaning(nBits: nat, weight: nat, n: nat, v: nat, limit: nat)
    requires nBits < 0x1_0000_0000 && nBits % 0x100_0000 < 0x80_0000 && n == WIDTH
    requires v == Magnitude(nBits) && limit == Pow2(32 * n)
    ensures v == 0 || v >= limit ==> BlockProof(nBits, weight, n) == 0
    ensures 0 < v < limit ==> BlockProof(nBits, weight, n) == ((limit / (v + 1) - 1) * weight + 1) % limit
  {
    TargetIs(nBits, v, 32 * n);
    PIsPow2(n);
    BlockProofExact(nBits, weight, n, SetCompact(nBits), limit);
  }
}
