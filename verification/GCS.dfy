/** Golomb-coded sets (blockfilter.cpp; section "Golomb-Coded Sets" of BIP 158). */
module GCS {
  import opened Collections
  import opened Numbers
  import opened Shifts
  import opened BitStreams

  const TWO32 := 0x1_0000_0000
  const TWO64 := 0x1_0000_0000_0000_0000
  const MAX_SIZE := 0x02000000

  // ----- mapping a hash into a range -----

  /** The portable branch: 64-bit multiplications of 32-bit halves, and 64-bit sums of their halves. */
  function MapIntoRange(x: nat, n: nat): nat {
    var xHi, xLo := x / TWO32, x % TWO32;
    var nHi, nLo := n / TWO32, n % TWO32;
    Upper64(xHi * nHi % TWO64, xHi * nLo % TWO64, xLo * nHi % TWO64, xLo * nLo % TWO64)
  }

  function Upper64(ac: nat, ad: nat, bc: nat, bd: nat): nat {
    var mid34 := (bd / TWO32 + bc % TWO32 + ad % TWO32) % TWO64;
    (ac + bc / TWO32 + ad / TWO32 + mid34 / TWO32) % TWO64
  }

  lemma {:induction false} HalvesBelow(a: nat, b: nat)
    requires a < TWO32 && b < TWO32
    ensures a * b <= MAX_PRODUCT < TWO64
  {
    MulAway(TWO32 - 1 - a, b);
    assert (TWO32 - 1 - a) * b == (TWO32 - 1) * b - a * b;
  }

  lemma {:induction false} ProductOfHalves(a: nat, b: nat, c: nat, d: nat)
    ensures (a * TWO32 + b) * (c * TWO32 + d) == a * c * TWO64 + (a * d + b * c) * TWO32 + b * d
  {
    var n := c * TWO32 + d;
    assert (a * TWO32 + b) * n == a * n * TWO32 + b * n;
    assert a * n == a * c * TWO32 + a * d;
    assert b * n == b * c * TWO32 + b * d;
  }

  const MAX_PRODUCT := 0xFFFF_FFFE_0000_0001   // (2^32 - 1)^2

  /** The sums of halves of products stay below 2^64. */
  lemma {:induction false} SumsFit(ac: nat, ad: nat, bc: nat, bd: nat)
    requires ac <= MAX_PRODUCT && ad <= MAX_PRODUCT && bc <= MAX_PRODUCT && bd <= MAX_PRODUCT
    ensures bd / TWO32 + bc % TWO32 + ad % TWO32 < TWO64
    ensures ac + bc / TWO32 + ad / TWO32 + (bd / TWO32 + bc % TWO32 + ad % TWO32) / TWO32 < TWO64
  {
    assert bd / TWO32 < TWO32 && bc / TWO32 < TWO32 && ad / TWO32 < TWO32;
  }

  lemma {:induction false} UpperOfSum(ac: nat, ad: nat, bc: nat, bd: nat)
    ensures (ac * TWO64 + (ad + bc) * TWO32 + bd) / TWO64 ==
      ac + bc / TWO32 + ad / TWO32 + (bd / TWO32 + bc % TWO32 + ad % TWO32) / TWO32
  {
    var mid := bd / TWO32 + bc % TWO32 + ad % TWO32;
    assert (ad + bc) * TWO32 + bd == (ad / TWO32 + bc / TWO32) * TWO64 + mid * TWO32 + bd % TWO32;
  }

  lemma {:induction false} NoWrap(x: nat)
    requires x < TWO64
    ensures x % TWO64 == x
  {
  }

  lemma {:induction false} Upper64Fits(ac: nat, ad: nat, bc: nat, bd: nat)
    requires ac <= MAX_PRODUCT && ad <= MAX_PRODUCT && bc <= MAX_PRODUCT && bd <= MAX_PRODUCT
    ensures Upper64(ac, ad, bc, bd) == ac + bc / TWO32 + ad / TWO32 + (bd / TWO32 + bc % TWO32 + ad % TWO32) / TWO32
  {
    SumsFit(ac, ad, bc, bd);
    var mid := bd / TWO32 + bc % TWO32 + ad % TWO32;
    NoWrap(mid);
    NoWrap(ac + bc / TWO32 + ad / TWO32 + mid / TWO32);
  }

  lemma {:induction false} Upper64Is(ac: nat, ad: nat, bc: nat, bd: nat)
    requires ac <= MAX_PRODUCT && ad <= MAX_PRODUCT && bc <= MAX_PRODUCT && bd <= MAX_PRODUCT
    ensures Upper64(ac % TWO64, ad % TWO64, bc % TWO64, bd % TWO64) == (ac * TWO64 + (ad + bc) * TWO32 + bd) / TWO64
  {
    NoWrap(ac);
    NoWrap(ad);
    NoWrap(bc);
    NoWrap(bd);
    Upper64Fits(ac, ad, bc, bd);
    UpperOfSum(ac, ad, bc, bd);
  }

  lemma {:induction false} MapIntoRangeOf(a: nat, b: nat, c: nat, d: nat)
    requires a < TWO32 && b < TWO32 && c < TWO32 && d < TWO32
    ensures Upper64(a * c % TWO64, a * d % TWO64, b * c % TWO64, b * d % TWO64) ==
      (a * TWO32 + b) * (c * TWO32 + d) / TWO64
  {
    HalvesBelow(a, c);
    HalvesBelow(a, d);
    HalvesBelow(b, c);
    HalvesBelow(b, d);
    ProductOfHalves(a, b, c, d);
    var ac, ad, bc, bd := a * c, a * d, b * c, b * d;
    Upper64Is(ac, ad, bc, bd);
  }

  /** The result is floor(x * n / 2^64), which lies below n; no product of halves and no sum overflows. */
  lemma {:induction false} MapIntoRangeExact(x: nat, n: nat)
    requires x < TWO64 && n < TWO64
    ensures MapIntoRange(x, n) == x * n / TWO64 && (n > 0 ==> MapIntoRange(x, n) < n)
  {
    MapIntoRangeOf(x / TWO32, x % TWO32, n / TWO32, n % TWO32);
    RangeBelow(x, n);
  }

  lemma {:induction false} RangeBelow(x: nat, n: nat)
    requires x < TWO64
    ensures x * n / TWO64 <= n && (n > 0 ==> x * n / TWO64 < n)
  {
    if n > 0 {
      MulLess(x, TWO64, n);
    }
  }

  // ----- Golomb-Rice coding -----

  function Ones(q: nat): (r: seq<bool>)
    ensures |r| == q
  {
    seq(q, _ => true)
  }

  /** The quotient in unary and the low P bits. */
  function Golomb(P: nat, x: nat): seq<bool> {
    Ones(Shr(x, P)) + ([false] + BitsOf(x, P))
  }

  function LeadingOnes(bits: seq<bool>): (q: nat)
    ensures q <= |bits|
  {
    if bits == [] || !bits[0] then 0 else 1 + LeadingOnes(bits[1..])
  }

  /** GolombRiceDecode, in 64-bit arithmetic: the value and the bits that follow; None at the end of the data. */
  function Ungolomb(P: nat, bits: seq<bool>): Option<(nat, seq<bool>)> {
    var q := LeadingOnes(bits);
    if |bits| < q + 1 + P then None else
      Some((Low(Low(Shl(q, P), 64) + ValueOf(bits[q + 1..][..P]), 64), bits[q + 1..][P..]))
  }

  lemma {:induction false} OnesLead(q: nat, tail: seq<bool>)
    ensures LeadingOnes(Ones(q) + ([false] + tail)) == q
  {
    var bits := Ones(q) + ([false] + tail);
    if q > 0 {
      assert bits[1..] == Ones(q - 1) + ([false] + tail);
      OnesLead(q - 1, tail);
    } else {
      EmptyAppend([false] + tail);
    }
  }

  lemma {:induction false} AfterOnes(q: nat, a: seq<bool>, b: seq<bool>)
    ensures var bits := Ones(q) + ([false] + a) + b; |bits| >= q + 1 && bits[q + 1..] == a + b
  {
  }

  lemma {:induction false} Low64(x: nat)
    requires x < TWO64
    ensures Low(x, 64) == x
  {
    Pow2Of64();
    LowAll(x, 64);
  }

  /** Decoding undoes encoding, whatever follows. */
  lemma {:induction false} GolombRoundTrip(P: nat, x: nat, rest: seq<bool>)
    requires x < TWO64
    ensures Ungolomb(P, Golomb(P, x) + rest) == Some((x, rest))
  {
    var q := Shr(x, P);
    var low := BitsOf(x, P);
    Assoc(Ones(q), [false] + low, rest);
    Assoc([false], low, rest);
    OnesLead(q, low + rest);
    AfterOnes(q, low, rest);
    var tail := low + rest;
    assert tail[..P] == low && tail[P..] == rest;
    Rejoined(P, x);
  }

  lemma {:induction false} Rejoined(P: nat, x: nat)
    requires x < TWO64
    ensures Low(Low(Shl(Shr(x, P), P), 64) + ValueOf(BitsOf(x, P)), 64) == x
  {
    ValueOfBits(x, P);
    Parts(x, P);
    Low64(Shl(Shr(x, P), P));
    Low64(x);
  }

  // ----- the encoded set -----

  /** The deltas of `values`, which do not decrease from `last` on. */
  function Deltas(P: nat, values: seq<nat>, last: nat): seq<bool>
    requires Ascending(values, last)
  {
    if values == [] then [] else Golomb(P, values[0] - last) + Deltas(P, values[1..], values[0])
  }

  predicate Ascending(values: seq<nat>, last: nat) {
    values == [] || (last <= values[0] && Ascending(values[1..], values[0]))
  }

  lemma {:induction false} AscendingAt(values: seq<nat>, last: nat, i: nat)
    requires Ascending(values, last) && i < |values|
    ensures last <= values[i]
  {
    if i > 0 {
      AscendingAt(values[1..], values[0], i - 1);
    }
  }

  /** The queries that are not below `value`. */
  function NotBelow(queries: seq<nat>, value: nat): (r: seq<nat>)
    ensures |r| <= |queries|
  {
    if queries == [] || queries[0] >= value then queries else NotBelow(queries[1..], value)
  }

  /** A decoder of one value: the value and the bits that follow, None at the end of the data. */
  type Decoder = seq<bool> -> Option<(nat, seq<bool>)>

  function GolombDecoder(P: nat): Decoder {
    bits => Ungolomb(P, bits)
  }

  /** MatchInternal from a bit position on, with `n` values to go. */
  function Match(d: Decoder, bits: seq<bool>, n: nat, value: nat, queries: seq<nat>): Option<bool>
    decreases n
  {
    if n == 0 then Some(false) else
      match d(bits)
      case None => None
      case Some((delta, rest)) =>
        var value' := Low(value + delta, 64);
        var left := NotBelow(queries, value');
        if left == [] then Some(false)
        else if left[0] == value' then Some(true)
        else Match(d, rest, n - 1, value', left)
  }

  ghost predicate Common(a: seq<nat>, b: seq<nat>) {
    exists v :: v in a && v in b
  }

  /** Queries below every value have no match. */
  lemma {:induction false} SkipBelow(values: seq<nat>, last: nat, queries: seq<nat>)
    requires Ascending(values, last)
    ensures Common(values, queries) <==> Common(values, NotBelow(queries, last))
  {
    if queries != [] && queries[0] < last {
      SkipBelow(values, last, queries[1..]);
      if queries[0] in values {
        var i :| 0 <= i < |values| && values[i] == queries[0];
        AscendingAt(values, last, i);
      }
      assert queries == [queries[0]] + queries[1..];
    }
  }

  lemma {:induction false} NotBelowAscending(queries: seq<nat>, low: nat, value: nat)
    requires Ascending(queries, low)
    ensures Ascending(NotBelow(queries, value), value)
  {
    if queries != [] && queries[0] < value {
      NotBelowAscending(queries[1..], queries[0], value);
    }
  }

  lemma {:induction false} FirstCommon(values: seq<nat>, queries: seq<nat>)
    requires values != []
    ensures values[0] in queries ==> Common(values, queries)
    ensures values[0] !in queries ==> (Common(values, queries) <==> Common(values[1..], queries))
  {
    assert values == [values[0]] + values[1..];
  }

  lemma {:induction false} AboveAbsent(queries: seq<nat>, value: nat)
    requires Ascending(queries, value) && (queries == [] || queries[0] != value)
    ensures value !in queries
  {
    if value in queries {
      var i :| 0 <= i < |queries| && queries[i] == value;
      AscendingAt(queries[1..], queries[0], i - 1);
    }
  }

  /** Whether there is a common value, decided at the first value. */
  lemma {:induction false} CommonStep(values: seq<nat>, last: nat, queries: seq<nat>, low: nat)
    requires values != [] && Ascending(values, last) && Ascending(queries, low)
    ensures var left := NotBelow(queries, values[0]);
      && Ascending(left, values[0])
      && (Common(values, queries) <==> left != [] && (left[0] == values[0] || Common(values[1..], left)))
  {
    var left := NotBelow(queries, values[0]);
    SkipBelow(values, values[0], queries);
    NotBelowAscending(queries, low, values[0]);
    FirstCommon(values, left);
    if left == [] || left[0] != values[0] {
      AboveAbsent(left, values[0]);
    }
  }

  lemma {:induction false} MatchUnfolds(
    d: Decoder, bits: seq<bool>, n: nat, value: nat, queries: seq<nat>, delta: nat, rest: seq<bool>)
    requires n > 0 && d(bits) == Some((delta, rest)) && value + delta < TWO64
    ensures var left := NotBelow(queries, value + delta);
      Match(d, bits, n, value, queries) ==
      if left == [] then Some(false) else if left[0] == value + delta then Some(true)
        else Match(d, rest, n - 1, value + delta, left)
  {
    Low64(value + delta);
  }

  lemma {:induction false} DeltasStep(P: nat, values: seq<nat>, last: nat, pad: seq<bool>)
    requires values != [] && Ascending(values, last) && values[0] < TWO64
    ensures Ungolomb(P, Deltas(P, values, last) + pad) ==
      Some((values[0] - last, Deltas(P, values[1..], values[0]) + pad))
  {
    var tail := Deltas(P, values[1..], values[0]);
    Assoc(Golomb(P, values[0] - last), tail, pad);
    GolombRoundTrip(P, values[0] - last, tail + pad);
  }

  /** On an encoded set, matching ascending queries finds exactly the common values. */
  lemma {:induction false} MatchExact(
    P: nat, values: seq<nat>, last: nat, pad: seq<bool>, queries: seq<nat>, low: nat) returns (r: bool)
    requires Ascending(values, last) && Ascending(queries, low) && forall i :: 0 <= i < |values| ==> values[i] < TWO64
    ensures Match(GolombDecoder(P), Deltas(P, values, last) + pad, |values|, last, queries) == Some(r)
    ensures r <==> Common(values, queries)
  {
    r := false;
    if values != [] {
      var v, tail := values[0], Deltas(P, values[1..], values[0]);
      DeltasStep(P, values, last, pad);
      MatchUnfolds(GolombDecoder(P), Deltas(P, values, last) + pad, |values|, last, queries, v - last, tail + pad);
      CommonStep(values, last, queries, low);
      var left := NotBelow(queries, v);
      if left != [] && left[0] != v {
        r := MatchExact(P, values[1..], v, pad, left, v);
      } else {
        r := left != [];
      }
    }
  }

  // ----- the element count -----

  /** `k` bytes, the lowest first. */
  function LittleEndian(n: nat, k: nat): (r: seq<byte>)
    ensures |r| == k
  {
    if k == 0 then [] else [n % 256] + LittleEndian(n / 256, k - 1)
  }

  function FromLittleEndian(b: seq<byte>): nat {
    if b == [] then 0 else b[0] as nat + 256 * FromLittleEndian(b[1..])
  }

  lemma {:induction false} LittleEndianRoundTrip(n: nat, k: nat)
    requires n < Pow2(8 * k)
    ensures FromLittleEndian(LittleEndian(n, k)) == n
  {
    if k > 0 {
      Pow2Of8();
      Pow2Add(8, 8 * (k - 1));
      LittleEndianRoundTrip(n / 256, k - 1);
      assert LittleEndian(n, k)[1..] == LittleEndian(n / 256, k - 1);
    }
  }

  function CompactSize(n: nat): (r: seq<byte>)
    requires n < TWO64
    ensures 1 <= |r| <= 9
  {
    if n < 253 then [n]
    else if n <= 0xFFFF then [253] + LittleEndian(n, 2)
    else if n <= 0xFFFF_FFFF then [254] + LittleEndian(n, 4)
    else [255] + LittleEndian(n, 8)
  }

  /** ReadCompactSize: the size and the bytes used; None where it throws. */
  function ReadCompactSize(b: seq<byte>): (r: Option<(nat, int)>)
    ensures r.Some? ==> 0 < r.value.1 <= |b| && r.value.0 <= MAX_SIZE
  {
    if b == [] then None else
      var k := if b[0] < 253 then 0 else if b[0] == 253 then 2 else if b[0] == 254 then 4 else 8;
      var least := if k == 2 then 253 else if k == 4 then 0x10000 else 0x1_0000_0000;
      if |b| < 1 + k then None else
        var n := if k == 0 then b[0] as nat else FromLittleEndian(b[1..][..k]);
        if (k > 0 && n < least) || n > MAX_SIZE then None else Some((n, 1 + k))
  }

  /** The marker of a size of `k` bytes, the least size it may announce and the first that does not fit. */
  predicate IsWidth(k: nat, marker: byte, least: nat, bound: nat) {
    || (k == 2 && marker == 253 && least == 253 && bound == 0x1_0000)
    || (k == 4 && marker == 254 && least == 0x1_0000 && bound == 0x1_0000_0000)
    || (k == 8 && marker == 255 && least == 0x1_0000_0000 && bound == TWO64)
  }

  lemma {:induction false} WidthBound(k: nat, marker: byte, least: nat, bound: nat)
    requires IsWidth(k, marker, least, bound)
    ensures Pow2(8 * k) == bound
  {
    Pow2Of64();
  }

  lemma {:induction false} LongSizeRoundTrip(n: nat, k: nat, marker: byte, least: nat, bound: nat, rest: seq<byte>)
    requires IsWidth(k, marker, least, bound) && least <= n < bound
    ensures var b := [marker] + LittleEndian(n, k) + rest;
      ReadCompactSize(b) == if n <= MAX_SIZE then Some((n, 1 + k)) else None
  {
    var b := [marker] + LittleEndian(n, k) + rest;
    WidthBound(k, marker, least, bound);
    LittleEndianRoundTrip(n, k);
    assert b[1..][..k] == LittleEndian(n, k);
  }

  /** Reading undoes writing exactly for sizes up to MAX_SIZE; larger ones are written but refused. */
  lemma {:induction false} CompactSizeRoundTrip(n: nat, rest: seq<byte>)
    requires n < TWO64
    ensures ReadCompactSize(CompactSize(n) + rest) == if n <= MAX_SIZE then Some((n, |CompactSize(n)|)) else None
  {
    if n >= 0x1_0000_0000 {
      LongSizeRoundTrip(n, 8, 255, 0x1_0000_0000, TWO64, rest);
    } else if n >= 0x1_0000 {
      LongSizeRoundTrip(n, 4, 254, 0x1_0000, 0x1_0000_0000, rest);
    } else if n >= 253 {
      LongSizeRoundTrip(n, 2, 253, 253, 0x1_0000, rest);
    }
  }

  /** The least count that is written but not read back. */
  lemma {:induction false} CountRefused()
    ensures ReadCompactSize(CompactSize(MAX_SIZE + 1)) == None
  {
    CompactSizeRoundTrip(MAX_SIZE + 1, []);
    EmptyAppend(CompactSize(MAX_SIZE + 1));
  }

  // ----- the filter -----

  /** `encoded` is the filter of the ascending hashes `values`: their number, their deltas and less than a byte of
      padding. */
  ghost predicate IsFilter(encoded: seq<byte>, P: nat, values: seq<nat>) {
    && |values| < TWO32 && Ascending(values, 0) && (forall i :: 0 <= i < |values| ==> values[i] < TWO64)
    && var k := |CompactSize(|values|)|;
      && k <= |encoded| && encoded[..k] == CompactSize(|values|)
      && var bits := ByteBits(encoded[k..]);
        && |Deltas(P, values, 0)| <= |bits| < |Deltas(P, values, 0)| + 8
        && bits[..|Deltas(P, values, 0)|] == Deltas(P, values, 0)
  }

  /** MatchInternal on an encoded filter. */
  function MatchEncoded(encoded: seq<byte>, P: nat, queries: seq<nat>): Option<bool> {
    match ReadCompactSize(encoded)
    case None => None
    case Some((n, k)) => Match(GolombDecoder(P), ByteBits(encoded[k..]), n, 0, queries)
  }

  /**
   * A filter of up to MAX_SIZE elements reports a match exactly if a query hash equals an element hash;
   * with more elements the match fails with an exception.
   */
  lemma {:induction false} FilterExact(encoded: seq<byte>, P: nat, values: seq<nat>, queries: seq<nat>)
    requires IsFilter(encoded, P, values) && Ascending(queries, 0)
    ensures var r := MatchEncoded(encoded, P, queries);
      if |values| <= MAX_SIZE then r.Some? && (r.value <==> Common(values, queries)) else r.None?
  {
    var n := |values|;
    var k := |CompactSize(n)|;
    SplitAt(encoded, k);
    CompactSizeRoundTrip(n, encoded[k..]);
    if n <= MAX_SIZE {
      var bits := ByteBits(encoded[k..]);
      SplitAt(bits, |Deltas(P, values, 0)|);
      var r := MatchExact(P, values, 0, bits[|Deltas(P, values, 0)|..], queries, 0);
    }
  }

  /** Reading `n` coded values: the bits that follow, None at the end of the data. */
  function SkipValues(d: Decoder, bits: seq<bool>, n: nat): Option<seq<bool>>
    decreases n
  {
    if n == 0 then Some(bits) else
      match d(bits)
      case None => None
      case Some((_, rest)) => SkipValues(d, rest, n - 1)
  }

  lemma {:induction false} SkipDeltas(P: nat, values: seq<nat>, last: nat, pad: seq<bool>)
    requires Ascending(values, last) && forall i :: 0 <= i < |values| ==> values[i] < TWO64
    ensures SkipValues(GolombDecoder(P), Deltas(P, values, last) + pad, |values|) == Some(pad)
  {
    if values == [] {
      EmptyAppend(pad);
    } else {
      DeltasStep(P, values, last, pad);
      SkipDeltas(P, values[1..], values[0], pad);
    }
  }

  /** The check on loading: as many values as announced, and no byte more. */
  function Loadable(encoded: seq<byte>, P: nat): bool {
    match ReadCompactSize(encoded)
    case None => false
    case Some((n, k)) =>
      match SkipValues(GolombDecoder(P), ByteBits(encoded[k..]), n)
      case None => false
      case Some(rest) => |rest| < 8
  }

  /** A built filter can be loaded again exactly if it has at most MAX_SIZE elements. */
  lemma {:induction false} FilterLoads(encoded: seq<byte>, P: nat, values: seq<nat>)
    requires IsFilter(encoded, P, values)
    ensures Loadable(encoded, P) <==> |values| <= MAX_SIZE
    ensures |values| <= MAX_SIZE ==> ReadCompactSize(encoded) == Some((|values|, |CompactSize(|values|)|))
  {
    var n := |values|;
    var k := |CompactSize(n)|;
    SplitAt(encoded, k);
    CompactSizeRoundTrip(n, encoded[k..]);
    if n <= MAX_SIZE {
      var bits := ByteBits(encoded[k..]);
      SplitAt(bits, |Deltas(P, values, 0)|);
      SkipDeltas(P, values, 0, bits[|Deltas(P, values, 0)|..]);
    }
  }
}
