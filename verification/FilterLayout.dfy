/** How a block filter is laid out in bits and bytes (streams.h, serialize.h, blockfilter.cpp). */
module FilterLayout {
  import opened Collections
  import opened Numbers
  import opened Shifts
  import opened BitStreams
  import opened GCS
  import opened BlockFilter

  // ----- bits -----

  lemma {:induction false} BitsOfAt(x: nat, n: nat, i: nat)
    requires i < n
    ensures BitsOf(x, n)[i] == (x / Pow2(n - 1 - i) % 2 == 1)
  {
    ShrIsDiv(x, n - 1 - i);
    BitsOfShr(x, n, i);
  }

  lemma {:induction false} BitsOfShr(x: nat, n: nat, i: nat)
    requires i < n
    ensures BitsOf(x, n)[i] == (Shr(x, n - 1 - i) % 2 == 1)
  {
    if i < n - 1 {
      BitsOfShr(x / 2, n - 1, i);
    }
  }

  /** Bytes are read from their most significant bit on. */
  lemma {:induction false} ByteBitsAt(bytes: seq<byte>, i: nat, j: nat)
    requires i < |bytes| && j < 8
    ensures ByteBits(bytes)[8 * i + j] == (bytes[i] as nat / Pow2(7 - j) % 2 == 1)
  {
    if i == 0 {
      BitsOfAt(bytes[0] as nat, 8, j);
    } else {
      ByteBitsAt(bytes[1..], i - 1, j);
    }
  }

  /** A Golomb-Rice code: x / 2^P ones, a zero, and the remainder in P bits, the highest first. */
  lemma {:induction false} GolombMeans(P: nat, x: nat, q: nat, k: nat)
    requires q == x / Pow2(P)
    ensures |Golomb(P, x)| == q + 1 + P && (k < q ==> Golomb(P, x)[k]) && !Golomb(P, x)[q]
    ensures k < P ==> Golomb(P, x)[q + 1 + k] == (x / Pow2(P - 1 - k) % 2 == 1)
  {
    ShrIsDiv(x, P);
    if k < P {
      BitsOfAt(x, P, k);
    }
  }

  // ----- sizes -----

  lemma {:induction false} LittleEndianTwo(n: nat, k: nat)
    requires k == 2 && n < 0x1_0000
    ensures var r := LittleEndian(n, k); r[0] as nat + 0x100 * r[1] as nat == n
  {
    assert LittleEndian(n, k)[1..] == LittleEndian(n / 256, 1);
  }

  lemma {:induction false} LittleEndianFour(n: nat, k: nat)
    requires k == 4 && n < 0x1_0000_0000
    ensures var r := LittleEndian(n, k);
      r[0] as nat + 0x100 * r[1] as nat + 0x1_0000 * r[2] as nat + 0x100_0000 * r[3] as nat == n
  {
    LittleEndianTwo(n / 0x1_0000, 2);
    assert LittleEndian(n, k) == [n % 256, n / 256 % 256] + LittleEndian(n / 0x1_0000, 2);
  }

  /** The layout of a size: one byte, or a marker and two, four or eight bytes, the least significant first. */
  lemma {:induction false} CompactSizeLayout(n: nat)
    requires n < TWO64
    ensures n < 253 ==> CompactSize(n) == [n]
    ensures 253 <= n < 0x1_0000 ==>
      var r := CompactSize(n); |r| == 3 && r[0] == 253 && r[1] as nat + 0x100 * r[2] as nat == n
    ensures 0x1_0000 <= n < 0x1_0000_0000 ==>
      var r := CompactSize(n);
      && |r| == 5 && r[0] == 254
      && r[1] as nat + 0x100 * r[2] as nat + 0x1_0000 * r[3] as nat + 0x100_0000 * r[4] as nat == n
    ensures 0x1_0000_0000 <= n ==> |CompactSize(n)| == 9 && CompactSize(n)[0] == 255
  {
    if 253 <= n < 0x1_0000 {
      LittleEndianTwo(n, 2);
    } else if 0x1_0000 <= n < 0x1_0000_0000 {
      LittleEndianFour(n, 4);
    }
  }

  lemma {:induction false} FromLittleEndianBack(b: seq<byte>)
    ensures FromLittleEndian(b) < Pow2(8 * |b|) && LittleEndian(FromLittleEndian(b), |b|) == b
  {
    if b != [] {
      FromLittleEndianBack(b[1..]);
      Pow2Of8();
      Pow2Add(8, 8 * |b[1..]|);
    }
  }

  /** A size is accepted in one form only: what is read is what would be written. */
  lemma {:induction false} SizeCanonical(b: seq<byte>)
    requires ReadCompactSize(b).Some?
    ensures var (n, k) := ReadCompactSize(b).value; n < TWO64 && CompactSize(n) == b[..k]
  {
    var (n, used) := ReadCompactSize(b).value;
    var k := used - 1;
    if k > 0 {
      FromLittleEndianBack(b[1..][..k]);
      Pow2Of64();
      assert b[..used] == [b[0]] + b[1..][..k];
    }
  }

  // ----- hashes -----

  /** Elements meet if the upper halves of the products of their hashes with N * M do. */
  lemma {:induction false} HashIntoExact(siphash: Element -> nat, F: nat, e: Element)
    requires siphash(e) < TWO64 && F < TWO64
    ensures HashInto(siphash, F, e) == siphash(e) * F / 0x1_0000_0000_0000_0000
    ensures F > 0 ==> HashInto(siphash, F, e) < F
  {
    MapIntoRangeExact(siphash(e), F);
  }

  // ----- too much or too little data -----

  lemma {:induction false} ByteBitsConcat(a: seq<byte>, b: seq<byte>)
    ensures ByteBits(a + b) == ByteBits(a) + ByteBits(b)
  {
    if a == [] {
      EmptyAppend(b);
      EmptyAppend(ByteBits(b));
    } else {
      assert (a + b)[1..] == a[1..] + b;
      ByteBitsConcat(a[1..], b);
      Assoc(BitsOf(a[0], 8), ByteBits(a[1..]), ByteBits(b));
    }
  }

  lemma {:induction false} OnesPrefix(n: nat, bits: seq<bool>)
    requires n <= |bits| && forall i :: 0 <= i < n ==> bits[i]
    requires n < |bits| ==> !bits[n]
    ensures LeadingOnes(bits) == n
  {
    if n > 0 {
      OnesPrefix(n - 1, bits[1..]);
    }
  }

  /** The beginning of a code is no code. */
  lemma {:induction false} CodeCut(P: nat, x: nat, bits: seq<bool>)
    requires |bits| < |Golomb(P, x)| && bits == Golomb(P, x)[..|bits|]
    ensures Ungolomb(P, bits) == None
  {
    var q := Shr(x, P);
    OnesPrefix(Min(q, |bits|), bits);
  }

  lemma {:induction false} SkipOne(d: Decoder, bits: seq<bool>, n: nat, x: nat, rest: seq<bool>)
    requires n > 0 && d(bits) == Some((x, rest))
    ensures SkipValues(d, bits, n) == SkipValues(d, rest, n - 1)
  {
  }

  lemma {:induction false} CutBehind(g: seq<bool>, tail: seq<bool>, bits: seq<bool>)
    requires |bits| < |g + tail| && bits == (g + tail)[..|bits|]
    ensures |bits| < |g| ==> bits == g[..|bits|]
    ensures |bits| >= |g| ==>
      bits == g + bits[|g|..] && |bits[|g|..]| < |tail| && bits[|g|..] == tail[..|bits[|g|..]|]
  {
  }

  lemma {:induction false} DeltasCut(P: nat, values: seq<nat>, last: nat, bits: seq<bool>)
    requires Ascending(values, last) && forall i :: 0 <= i < |values| ==> values[i] < TWO64
    requires |bits| < |Deltas(P, values, last)| && bits == Deltas(P, values, last)[..|bits|]
    ensures SkipValues(GolombDecoder(P), bits, |values|) == None
  {
    var g, tail := Golomb(P, values[0] - last), Deltas(P, values[1..], values[0]);
    CutBehind(g, tail, bits);
    if |bits| < |g| {
      CodeCut(P, values[0] - last, bits);
    } else {
      var rest := bits[|g|..];
      GolombRoundTrip(P, values[0] - last, rest);
      SkipOne(GolombDecoder(P), bits, |values|, values[0] - last, rest);
      DeltasCut(P, values[1..], values[0], rest);
    }
  }

  /** A built filter with bytes added behind it, or with bytes of its values cut off, does not load. */
  lemma {:induction false} ExcessRefused(encoded: seq<byte>, P: nat, values: seq<nat>, extra: seq<byte>)
    requires IsFilter(encoded, P, values) && |values| <= MAX_SIZE && extra != []
    ensures !Loadable(encoded + extra, P)
  {
    var k := |CompactSize(|values|)|;
    SplitAt(encoded, k);
    Assoc(encoded[..k], encoded[k..], extra);
    CompactSizeRoundTrip(|values|, encoded[k..] + extra);
    assert (encoded + extra)[k..] == encoded[k..] + extra;
    ByteBitsConcat(encoded[k..], extra);
    var bits, n := ByteBits(encoded[k..]), |Deltas(P, values, 0)|;
    SplitAt(bits, n);
    Assoc(bits[..n], bits[n..], ByteBits(extra));
    SkipDeltas(P, values, 0, bits[n..] + ByteBits(extra));
  }

  lemma {:induction false} ShortRefused(encoded: seq<byte>, P: nat, values: seq<nat>, n: nat)
    requires IsFilter(encoded, P, values) && |values| <= MAX_SIZE && |CompactSize(|values|)| <= n < |encoded|
    ensures !Loadable(encoded[..n], P)
  {
    var k := |CompactSize(|values|)|;
    var head := encoded[k..n];
    assert encoded[..n] == encoded[..k] + head && encoded[..n][k..] == head;
    CompactSizeRoundTrip(|values|, head);
    assert encoded[k..] == head + encoded[n..];
    ByteBitsConcat(head, encoded[n..]);
    var bits := ByteBits(head);
    assert bits == ByteBits(encoded[k..])[..|bits|];
    assert bits == Deltas(P, values, 0)[..|bits|];
    DeltasCut(P, values, 0, bits);
  }
}
