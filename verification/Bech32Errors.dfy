/** Which errors the checksum of bech32 detects (bech32.cpp; section "Checksum" of BIP 173). */
module Bech32Errors {
  import opened Numbers
  import opened Shifts
  import opened Collections
  import opened Bech32

  // ----- a round loses nothing -----

  lemma {:induction false} BitXor(x: nat, y: nat, k: nat)
    ensures Bit(Xor(x, y), k) <==> Bit(x, k) != Bit(y, k)
  {
    XorParts(x, y, k);
    XorParity(Shr(x, k), Shr(y, k));
  }

  lemma {:induction false} BitZero(k: nat)
    ensures !Bit(0, k)
  {
    ShrZero(k);
  }

  /** A bit of what the five top bits add, given that bit of the five constants. */
  lemma {:induction false} ReductionBit(c0: nat, k: nat, g0: bool, g1: bool, g2: bool, g3: bool, g4: bool)
    requires g0 == Bit(0x3b6a57b2, k) && g1 == Bit(0x26508e6d, k) && g2 == Bit(0x1ea119fa, k)
    requires g3 == Bit(0x3d4233dd, k) && g4 == Bit(0x2a1462b3, k)
    ensures Bit(Reduction(c0), k) <==>
      ((Bit(c0, 0) && g0) != ((Bit(c0, 1) && g1) != ((Bit(c0, 2) && g2) != ((Bit(c0, 3) && g3) != (Bit(c0, 4) && g4)))))
  {
    BitZero(k);
    var t3, t4 := Term(c0, 3, 0x3d4233dd), Term(c0, 4, 0x2a1462b3);
    var t0, t1, t2 := Term(c0, 0, 0x3b6a57b2), Term(c0, 1, 0x26508e6d), Term(c0, 2, 0x1ea119fa);
    BitXor(t3, t4, k);
    BitXor(t2, Xor(t3, t4), k);
    BitXor(t1, Xor(t2, Xor(t3, t4)), k);
    BitXor(t0, Xor(t1, Xor(t2, Xor(t3, t4))), k);
  }

  function Digit(b: bool): nat {
    if b then 1 else 0
  }

  lemma {:induction false} BitNext(b: bool, x: nat, k: nat)
    ensures Bit(Digit(b) + 2 * x, 0) == b && Bit(Digit(b) + 2 * x, k + 1) == Bit(x, k)
  {
    assert (Digit(b) + 2 * x) / 2 == x;
  }

  /** Five bits in front of `q`. */
  function Five(b0: bool, b1: bool, b2: bool, b3: bool, b4: bool, q: nat): nat {
    Digit(b0) + 2 * (Digit(b1) + 2 * (Digit(b2) + 2 * (Digit(b3) + 2 * (Digit(b4) + 2 * q))))
  }

  lemma {:induction false} LowBits(g: nat, b0: bool, b1: bool, b2: bool, b3: bool, b4: bool, q: nat)
    requires g == Five(b0, b1, b2, b3, b4, q)
    ensures Bit(g, 0) == b0 && Bit(g, 1) == b1 && Bit(g, 2) == b2 && Bit(g, 3) == b3 && Bit(g, 4) == b4
  {
    var x4 := Digit(b4) + 2 * q;
    var x3 := Digit(b3) + 2 * x4;
    var x2 := Digit(b2) + 2 * x3;
    var x1 := Digit(b1) + 2 * x2;
    BitNext(b4, q, 0);
    BitNext(b3, x4, 0);
    BitNext(b2, x3, 0);
    BitNext(b2, x3, 1);
    BitNext(b1, x2, 0);
    BitNext(b1, x2, 1);
    BitNext(b1, x2, 2);
    BitNext(b0, x1, 0);
    BitNext(b0, x1, 1);
    BitNext(b0, x1, 2);
    BitNext(b0, x1, 3);
  }

  /** Column `k` of the low five bits of the five constants. */
  lemma {:induction false} Columns(c0: nat)
    ensures Bit(Reduction(c0), 0) <==> (Bit(c0, 1) != (Bit(c0, 3) != Bit(c0, 4)))
    ensures Bit(Reduction(c0), 1) <==> (Bit(c0, 0) != (Bit(c0, 2) != Bit(c0, 4)))
    ensures Bit(Reduction(c0), 2) <==> (Bit(c0, 1) != Bit(c0, 3))
    ensures Bit(Reduction(c0), 3) <==> (Bit(c0, 1) != (Bit(c0, 2) != Bit(c0, 3)))
    ensures Bit(Reduction(c0), 4) <==> (Bit(c0, 0) != (Bit(c0, 2) != (Bit(c0, 3) != Bit(c0, 4))))
  {
    LowBits(0x3b6a57b2, false, true, false, false, true, 0x3b6a57b2 / 32);
    LowBits(0x26508e6d, true, false, true, true, false, 0x26508e6d / 32);
    LowBits(0x1ea119fa, false, true, false, true, true, 0x1ea119fa / 32);
    LowBits(0x3d4233dd, true, false, true, true, true, 0x3d4233dd / 32);
    LowBits(0x2a1462b3, true, true, false, false, true, 0x2a1462b3 / 32);
    ReductionBit(c0, 0, false, true, false, true, true);
    ReductionBit(c0, 1, true, false, true, false, true);
    ReductionBit(c0, 2, false, true, false, true, false);
    ReductionBit(c0, 3, false, true, true, true, false);
    ReductionBit(c0, 4, true, false, true, true, true);
  }

  /** The low five bits of the five constants are independent. */
  lemma {:induction false} Independent(c0: nat)
    requires !Bit(Reduction(c0), 0) && !Bit(Reduction(c0), 1) && !Bit(Reduction(c0), 2)
    requires !Bit(Reduction(c0), 3) && !Bit(Reduction(c0), 4)
    ensures !Bit(c0, 0) && !Bit(c0, 1) && !Bit(c0, 2) && !Bit(c0, 3) && !Bit(c0, 4)
  {
    Columns(c0);
  }

  lemma {:induction false} NoBits(h: nat, n: nat)
    requires h < Pow2(n) && forall k {:trigger Bit(h, k)} :: 0 <= k < n ==> !Bit(h, k)
    ensures h == 0
  {
    if n > 0 {
      assert !Bit(h, 0);
      forall k | 0 <= k < n - 1
        ensures !Bit(h / 2, k)
      {
        assert !Bit(h, k + 1);
      }
      NoBits(h / 2, n - 1);
    }
  }

  lemma {:induction false} LowBitsClear(x: nat, k: nat, m: nat)
    requires k < m
    ensures !Bit(Shl(x, m), k)
  {
    ShrShl(x, m, k);
    assert Shl(x, m - k) == 2 * Shl(x, m - k - 1);
  }

  lemma {:induction false} ShlOfZero(k: nat)
    ensures Shl(0, k) == 0
  {
    if k > 0 {
      ShlOfZero(k - 1);
    }
  }

  /** A round on zero leaves only the zero state at zero. */
  lemma {:induction false} OnlyZeroStepsToZero(e: nat)
    requires e < Pow2(30) && Step(e, 0) == 0
    ensures e == 0
  {
    var low, h := Shl(Low(e, 25), 5), Shr(e, 25);
    SplitBelow(e, 5, 25);
    Pow2Of5();
    XorZero(low);
    XorZero(0);
    XorSolve(low, Reduction(h), 0);
    LowBitsClear(Low(e, 25), 0, 5);
    LowBitsClear(Low(e, 25), 1, 5);
    LowBitsClear(Low(e, 25), 2, 5);
    LowBitsClear(Low(e, 25), 3, 5);
    LowBitsClear(Low(e, 25), 4, 5);
    Independent(h);
    NoBits(h, 5);
    NoReduction();
    ShlLess(Low(e, 25), 5);
    ShlOfZero(25);
  }

  lemma {:induction false} StepInjective(c: nat, d: nat, v: nat)
    requires c < Pow2(30) && d < Pow2(30) && Step(c, v) == Step(d, v)
    ensures c == d
  {
    StepLinear(c, d, v, v);
    XorZero(v);
    XorZero(Step(c, v));
    XorBelow(c, d, 30);
    OnlyZeroStepsToZero(Xor(c, d));
    XorZero(c);
    XorSolve(c, d, 0);
  }

  predicate ThirtyBit(v: seq<nat>) {
    forall i :: 0 <= i < |v| ==> v[i] < 0x4000_0000
  }

  lemma {:induction false} FoldBelow(c: nat, v: seq<nat>)
    requires c < Pow2(30) && ThirtyBit(v)
    ensures Fold(c, v) < Pow2(30)
    decreases |v|
  {
    if v != [] {
      Pow2Of30();
      StepBelow(c, v[0]);
      FoldBelow(Step(c, v[0]), v[1..]);
    }
  }

  lemma {:induction false} FoldInjective(c: nat, d: nat, v: seq<nat>)
    requires c < Pow2(30) && d < Pow2(30) && ThirtyBit(v) && Fold(c, v) == Fold(d, v)
    ensures c == d
    decreases |v|
  {
    if v != [] {
      Pow2Of30();
      StepBelow(c, v[0]);
      StepBelow(d, v[0]);
      FoldInjective(Step(c, v[0]), Step(d, v[0]), v[1..]);
      StepInjective(c, d, v[0]);
    }
  }

  // ----- errors in the values -----

  /** Six neighbouring values are determined by the state before and after them. */
  lemma {:induction false} BlockDetermined(s: nat, a: seq<nat>, b: seq<nat>)
    requires |a| == |b| <= 6 && FiveBit(a) && FiveBit(b) && Fold(s, a) == Fold(s, b)
    ensures a == b
  {
    var z := Fold(s, Zeros(|a|));
    XorZero(s);
    FoldLinear(s, 0, a);
    FoldLinear(s, 0, b);
    FoldPacks(a);
    FoldPacks(b);
    XorSolve(z, Packed(a), Xor(z, Packed(b)));
    XorSolve(z, Packed(b), Xor(z, Packed(b)));
    GroupsPacked(a);
    GroupsPacked(b);
  }

  lemma {:induction false} ExpandedBelow(hrp: string)
    ensures ThirtyBit(ExpandHRP(hrp))
  {
  }

  lemma {:induction false} FoldThree(c: nat, pre: seq<nat>, a: seq<nat>, post: seq<nat>)
    ensures Fold(c, pre + a + post) == Fold(Fold(Fold(c, pre), a), post)
  {
    FoldAppend(c, pre + a, post);
    FoldAppend(c, pre, a);
  }

  /** Lists with the same residue that differ only in one block of at most six values are equal. */
  lemma {:induction false} BlockErrorDetected(pre: seq<nat>, a: seq<nat>, b: seq<nat>, post: seq<nat>)
    requires ThirtyBit(pre) && FiveBit(a) && FiveBit(b) && FiveBit(post) && |a| == |b| <= 6
    requires PolyMod(pre + a + post) == PolyMod(pre + b + post)
    ensures a == b
  {
    var s := Fold(1, pre);
    FoldThree(1, pre, a, post);
    FoldThree(1, pre, b, post);
    Pow2Of30();
    FoldBelow(1, pre);
    FoldBelow(s, a);
    FoldBelow(s, b);
    FoldInjective(Fold(s, a), Fold(s, b), post);
    BlockDetermined(s, a, b);
  }

  /** `v` and `w` agree outside the `n` places from `i` on. */
  predicate AgreeOutside<T(==)>(v: seq<T>, w: seq<T>, i: nat, n: nat) {
    |v| == |w| && forall k :: 0 <= k < |v| && !(i <= k < i + n) ==> v[k] == w[k]
  }

  lemma {:induction false} CutAt<T>(v: seq<T>, w: seq<T>, lo: nat, hi: nat, i: nat)
    requires AgreeOutside(v, w, i, 6) && lo <= hi <= |v| && lo == Min(i, |v|) && hi == Min(i + 6, |v|)
    ensures v == v[..lo] + v[lo..hi] + v[hi..] && w == v[..lo] + w[lo..hi] + v[hi..]
  {
  }

  /** Burst errors: no two accepted lists of one hrp and one length differ only within six neighbouring places. */
  lemma {:induction false} BurstDetected(hrp: string, v: seq<nat>, w: seq<nat>, i: nat)
    requires FiveBit(v) && FiveBit(w) && AgreeOutside(v, w, i, 6)
    requires VerifyChecksum(hrp, v) && VerifyChecksum(hrp, w)
    ensures v == w
  {
    var lo, hi := Min(i, |v|), Min(i + 6, |v|);
    CutAt(v, w, lo, hi, i);
    var e, pre, a, b, post := ExpandHRP(hrp), v[..lo], v[lo..hi], w[lo..hi], v[hi..];
    ExpandedBelow(hrp);
    Assoc(e, pre + a, post);
    Assoc(e, pre, a);
    Assoc(e, pre + b, post);
    Assoc(e, pre, b);
    BlockErrorDetected(e + pre, a, b, post);
  }

  /** Single errors: changing one value of an accepted list makes it fail. */
  lemma {:induction false} SingleErrorDetected(hrp: string, v: seq<nat>, i: nat, x: nat)
    requires FiveBit(v) && VerifyChecksum(hrp, v) && i < |v| && x < 32 && x != v[i]
    ensures !VerifyChecksum(hrp, v[i := x])
  {
    assert v[i := x] != v by {
      assert v[i := x][i] != v[i];
    }
    if VerifyChecksum(hrp, v[i := x]) {
      BurstDetected(hrp, v, v[i := x], i);
      assert false;
    }
  }

  // ----- errors in the string -----

  /** `s` has its last separator at `pos`, and what follows it are values. */
  ghost predicate Splits(s: string, pos: nat) {
    pos < |s| && s[pos] == '1' && InCharset(s[pos + 1..])
  }

  /** What Decode has found of an accepted string. */
  lemma {:induction false} AcceptedParts(s: string, pos: int)
    requires Decode(s).Some? && pos == RFind(s, '1')
    ensures 0 <= pos && Splits(s, pos) && VerifyChecksum(Lower(s[..pos]), Values(s[pos + 1..]))
  {
    assert DecodeAt(s, pos).Some?;
  }

  lemma {:induction false} SameValue(s: string, t: string, k: nat)
    requires InCharset(s) && InCharset(t) && k < |s| == |t| && LowerCase(s[k]) == LowerCase(t[k])
    ensures Values(s)[k] == Values(t)[k]
  {
    CharsetRevRoundTrip(s[k]);
    CharsetRevRoundTrip(t[k]);
    CharsetRoundTrip(Values(s)[k]);
    CharsetRoundTrip(Values(t)[k]);
  }

  /** Strings that agree, but for case, outside six characters of the data part have hrps and values that do. */
  lemma {:induction false} PartsAgree(s: string, t: string, pos: nat, i: nat)
    requires Splits(s, pos) && Splits(t, pos) && pos < i && AgreeOutside(Lower(s), Lower(t), i, 6)
    ensures Lower(s[..pos]) == Lower(t[..pos])
    ensures AgreeOutside(Values(s[pos + 1..]), Values(t[pos + 1..]), i - pos - 1, 6)
  {
    forall k | 0 <= k < pos
      ensures Lower(s[..pos])[k] == Lower(t[..pos])[k]
    {
      assert Lower(s)[k] == Lower(t)[k];
    }
    var a, b, j := s[pos + 1..], t[pos + 1..], i - pos - 1;
    forall k | 0 <= k < |a| && !(j <= k < j + 6)
      ensures Values(a)[k] == Values(b)[k]
    {
      assert Lower(s)[pos + 1 + k] == Lower(t)[pos + 1 + k];
      SameValue(a, b, k);
    }
  }

  lemma {:induction false} PartsDetermine(s: string, t: string, pos: nat)
    requires Splits(s, pos) && Splits(t, pos) && Lower(s[..pos]) == Lower(t[..pos])
    requires Values(s[pos + 1..]) == Values(t[pos + 1..])
    ensures Lower(s) == Lower(t)
  {
    CharsOfValues(s[pos + 1..]);
    CharsOfValues(t[pos + 1..]);
    LowerParts(s, pos);
    LowerParts(t, pos);
  }

  /** Typing errors within six neighbouring characters of the data part are refused, whatever is typed there but the
      separator. */
  lemma {:induction false} MistypedRefused(s: string, t: string, i: nat)
    requires Decode(s).Some? && RFind(t, '1') == RFind(s, '1') < i
    requires AgreeOutside(Lower(s), Lower(t), i, 6) && Lower(s) != Lower(t)
    ensures Decode(t) == None
  {
    if Decode(t).Some? {
      var pos := RFind(s, '1');
      AcceptedParts(s, pos);
      AcceptedParts(t, pos);
      PartsAgree(s, t, pos, i);
      CharsOfValues(s[pos + 1..]);
      CharsOfValues(t[pos + 1..]);
      BurstDetected(Lower(s[..pos]), Values(s[pos + 1..]), Values(t[pos + 1..]), i - pos - 1);
      PartsDetermine(s, t, pos);
      assert false;
    }
  }

  // ----- errors in the human-readable part -----

  /** Character `i` is 32 times value `i` of the expansion, plus value `i` after the separator. */
  predicate ComposedOf(hrp: string, e: seq<nat>, i: nat)
    requires i < |hrp| && |e| == 2 * |hrp| + 1
  {
    hrp[i] as nat == 32 * e[i] + e[|hrp| + 1 + i] && e[|hrp| + 1 + i] < 32
  }

  /** ExpandHRP loses nothing: each character is composed of two values, one in front of a zero and one behind it. */
  lemma {:induction false} ExpandedBack(hrp: string)
    ensures |ExpandHRP(hrp)| == 2 * |hrp| + 1 && ExpandHRP(hrp)[|hrp|] == 0
    ensures forall i {:trigger ComposedOf(hrp, ExpandHRP(hrp), i)} :: 0 <= i < |hrp| ==>
      ComposedOf(hrp, ExpandHRP(hrp), i)
  {
  }

  /** Different human-readable parts are expanded differently. */
  lemma {:induction false} ExpandInjective(a: string, b: string)
    requires ExpandHRP(a) == ExpandHRP(b)
    ensures a == b
  {
    ExpandedBack(a);
    ExpandedBack(b);
    forall i | 0 <= i < |a|
      ensures a[i] == b[i]
    {
      assert ComposedOf(a, ExpandHRP(a), i) && ComposedOf(b, ExpandHRP(b), i);
    }
  }

  lemma {:induction false} ExpandedFiveBit(hrp: string)
    requires AllPrintable(hrp)
    ensures FiveBit(ExpandHRP(hrp))
  {
    var e := ExpandHRP(hrp);
    forall i | 0 <= i < |e|
      ensures e[i] < 32
    {
      assert i < |hrp| ==> Printable(hrp[i]);
    }
  }

  /** Lists with the same residue that differ only within six neighbouring places are equal. */
  lemma {:induction false} ListBurstDetected(x: seq<nat>, y: seq<nat>, i: nat)
    requires FiveBit(x) && FiveBit(y) && AgreeOutside(x, y, i, 6) && PolyMod(x) == PolyMod(y)
    ensures x == y
  {
    var lo, hi := Min(i, |x|), Min(i + 6, |x|);
    CutAt(x, y, lo, hi, i);
    BlockErrorDetected(x[..lo], x[lo..hi], y[lo..hi], x[hi..]);
  }

  /** Errors anywhere in what the checksum covers: of human-readable parts of one length with values, at most one
      verifies of those that differ only within six neighbouring places of the expanded list. */
  lemma {:induction false} CoveredBurstDetected(a: string, v: seq<nat>, b: string, w: seq<nat>, i: nat)
    requires AllPrintable(a) && AllPrintable(b) && |a| == |b| && FiveBit(v) && FiveBit(w)
    requires AgreeOutside(ExpandHRP(a) + v, ExpandHRP(b) + w, i, 6) && VerifyChecksum(a, v) && VerifyChecksum(b, w)
    ensures a == b && v == w
  {
    ExpandedFiveBit(a);
    ExpandedFiveBit(b);
    ListBurstDetected(ExpandHRP(a) + v, ExpandHRP(b) + w, i);
    SplitEqual(ExpandHRP(a), v, ExpandHRP(b), w);
    ExpandInjective(a, b);
  }

  lemma {:induction false} SplitEqual<T>(a: seq<T>, v: seq<T>, b: seq<T>, w: seq<T>)
    requires |a| == |b| && a + v == b + w
    ensures a == b && v == w
  {
    assert a == (a + v)[..|a|] && b == (b + w)[..|a|];
    assert v == (a + v)[|a|..] && w == (b + w)[|a|..];
  }

  /** Where the lists expanded from `a` and `b` may differ. */
  lemma {:induction false} ExpandedAgree(a: string, b: string, v: seq<nat>, k: nat)
    requires |a| == |b| && k < 2 * |a| + 1 + |v|
    requires k < |a| ==> SameColumn(a[k], b[k])
    requires |a| < k < 2 * |a| + 1 ==> a[k - |a| - 1] == b[k - |a| - 1]
    ensures (ExpandHRP(a) + v)[k] == (ExpandHRP(b) + v)[k]
  {
  }

  /** `c` and `d` differ at most in their low five bits. */
  predicate SameColumn(c: char, d: char) {
    c as nat / 32 == d as nat / 32
  }

  /** Two human-readable parts of one length that differ within six neighbouring characters, and there only in the low
      five bits, never verify with the same values. */
  lemma {:induction false} HrpErrorDetected(a: string, b: string, values: seq<nat>, i: nat)
    requires AllPrintable(a) && AllPrintable(b) && FiveBit(values) && AgreeOutside(a, b, i, 6)
    requires forall k :: 0 <= k < |a| ==> SameColumn(a[k], b[k])
    requires VerifyChecksum(a, values) && VerifyChecksum(b, values)
    ensures a == b
  {
    var n, x, y := |a|, ExpandHRP(a) + values, ExpandHRP(b) + values;
    forall k | 0 <= k < |x| && !(n + 1 + i <= k < n + 1 + i + 6)
      ensures x[k] == y[k]
    {
      ExpandedAgree(a, b, values, k);
    }
    CoveredBurstDetected(a, values, b, values, n + 1 + i);
  }

  /** With at most four characters, as vg, vt and vgrt have, any change of one character is detected. */
  lemma {:induction false} ShortHrpErrorDetected(a: string, b: string, values: seq<nat>, i: nat)
    requires AllPrintable(a) && AllPrintable(b) && FiveBit(values) && AgreeOutside(a, b, i, 1) && |a| <= 4
    requires VerifyChecksum(a, values) && VerifyChecksum(b, values)
    ensures a == b
  {
    var x, y := ExpandHRP(a) + values, ExpandHRP(b) + values;
    forall k | 0 <= k < |x| && !(i <= k < i + 6)
      ensures x[k] == y[k]
    {
      ExpandedAgree(a, b, values, k);
    }
    CoveredBurstDetected(a, values, b, values, i);
  }

  lemma {:induction false} HrpPartsAgree(s: string, t: string, pos: nat, i: nat, n: nat)
    requires Splits(s, pos) && Splits(t, pos) && i + n <= pos && AgreeOutside(Lower(s), Lower(t), i, n)
    ensures Values(s[pos + 1..]) == Values(t[pos + 1..])
    ensures AgreeOutside(Lower(s[..pos]), Lower(t[..pos]), i, n)
  {
    var a, b := s[pos + 1..], t[pos + 1..];
    forall k | 0 <= k < |a|
      ensures Values(a)[k] == Values(b)[k]
    {
      assert Lower(s)[pos + 1 + k] == Lower(t)[pos + 1 + k];
      SameValue(a, b, k);
    }
    forall k | 0 <= k < pos && !(i <= k < i + n)
      ensures Lower(s[..pos])[k] == Lower(t[..pos])[k]
    {
      assert Lower(s)[k] == Lower(t)[k];
    }
  }

  /** Typing errors before the separator are refused: within six neighbouring characters that keep their columns, and
      any one character if there are at most four. */
  lemma {:induction false} MistypedHrpRefused(s: string, t: string, i: nat, n: nat)
    requires Decode(s).Some? && RFind(t, '1') == RFind(s, '1') && i + n <= RFind(s, '1')
    requires AgreeOutside(Lower(s), Lower(t), i, n) && Lower(s) != Lower(t)
    requires (n == 1 && RFind(s, '1') <= 4) ||
      (n <= 6 && forall k :: 0 <= k < |s| ==> SameColumn(Lower(s)[k], Lower(t)[k]))
    ensures Decode(t) == None
  {
    if Decode(t).Some? {
      var pos := RFind(s, '1');
      AcceptedParts(s, pos);
      AcceptedParts(t, pos);
      HrpPartsAgree(s, t, pos, i, n);
      CharsOfValues(s[pos + 1..]);
      LowerPrintable(s[..pos]);
      LowerPrintable(t[..pos]);
      var a, b, values := Lower(s[..pos]), Lower(t[..pos]), Values(s[pos + 1..]);
      if n == 1 && pos <= 4 {
        ShortHrpErrorDetected(a, b, values, i);
      } else {
        forall k | 0 <= k < |a|
          ensures SameColumn(a[k], b[k])
        {
          assert SameColumn(Lower(s)[k], Lower(t)[k]);
        }
        HrpErrorDetected(a, b, values, i);
      }
      PartsDetermine(s, t, pos);
      assert false;
    }
  }

  // ----- all that is accepted -----

  lemma {:induction false} RevOfLower(c: char)
    ensures CharsetRev(LowerCase(c)) == CharsetRev(c)
  {
    CharsetRevRoundTrip(c);
    CharsetRevRoundTrip(LowerCase(c));
  }

  lemma {:induction false} RFindLower(s: string)
    ensures RFind(Lower(s), '1') == RFind(s, '1')
  {
    if s != [] {
      var n := |s| - 1;
      LowerCasePlain(s[n]);
      assert Lower(s)[..n] == Lower(s[..n]);
      RFindLower(s[..n]);
    }
  }

  lemma {:induction false} ValuesOfLower(s: string)
    ensures InCharset(Lower(s)) <==> InCharset(s)
    ensures InCharset(s) ==> Values(Lower(s)) == Values(s)
  {
    forall i | 0 <= i < |s|
      ensures CharsetRev(Lower(s)[i]) == CharsetRev(s[i])
    {
      RevOfLower(s[i]);
    }
  }

  lemma {:induction false} PrintableLower(s: string)
    ensures AllPrintable(Lower(s)) <==> AllPrintable(s)
  {
    forall i | 0 <= i < |s|
      ensures Printable(Lower(s)[i]) <==> Printable(s[i])
    {
    }
  }

  lemma {:induction false} LowerTwice(s: string)
    ensures Lower(Lower(s)) == Lower(s)
  {
    LowerKeeps(s);
    LowerKeeps(Lower(s));
  }

  /** A string of one case is read as its lower-case form is. */
  lemma {:induction false} DecodeOneCase(s: string)
    requires !(HasLower(s) && HasUpper(s))
    ensures Decode(s) == Decode(Lower(s))
  {
    PrintableLower(s);
    LowerKeeps(s);
    RFindLower(s);
    var pos := RFind(s, '1');
    if AllPrintable(s) && 0 < pos {
      assert Lower(s)[..pos] == Lower(s[..pos]) && Lower(s)[pos + 1..] == Lower(s[pos + 1..]);
      LowerTwice(s[..pos]);
      ValuesOfLower(s[pos + 1..]);
    }
  }

  /** What is accepted, and as what: strings of at most 90 characters, all of one case, whose lower-case form is the
      encoding of a valid human-readable part with 5-bit values. */
  lemma {:induction false} DecodeExactly(s: string, hrp: string, values: seq<nat>)
    ensures Decode(s) == Some((hrp, values)) <==>
      && |s| <= 90 && !(HasLower(s) && HasUpper(s))
      && ValidHRP(hrp) && FiveBit(values) && Lower(s) == Encode(hrp, values)
  {
    if Decode(s) == Some((hrp, values)) {
      AcceptedIsEncoded(s);
    }
    if && |s| <= 90 && !(HasLower(s) && HasUpper(s))
      && ValidHRP(hrp) && FiveBit(values) && Lower(s) == Encode(hrp, values) {
      DecodeOneCase(s);
      EncodedParts(hrp, values);
      RoundTrip(hrp, values);
    }
  }
}
