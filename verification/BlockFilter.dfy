/** GCSFilter itself: coding, building, loading and matching by loops over bit streams (blockfilter.cpp). */
module BlockFilter {
  import opened Collections
  import opened Numbers
  import opened Shifts
  import opened BitStreams
  import opened GCS

  type Element = seq<byte>

  lemma {:induction false} AllOnes(x: nat, k: nat, n: nat)
    requires n <= k && x == Pow2(k) - 1
    ensures BitsOf(x, n) == Ones(n)
  {
    if n > 0 {
      AllOnes(x / 2, k - 1, n - 1);
    }
  }

  lemma {:induction false} OnesPlus(a: nat, b: nat, tail: seq<bool>)
    ensures Ones(a) + (Ones(b) + tail) == Ones(a + b) + tail
  {
  }

  method GolombRiceEncode(bitwriter: BitStreamWriter, P: nat, x: nat)
    requires bitwriter.Valid() && P < 64
    modifies bitwriter
    ensures bitwriter.Valid() && bitwriter.Written() == old(bitwriter.Written()) + Golomb(P, x)
  {
    var q := Shr(x, P);
    ghost var start, written := bitwriter.Written(), 0;
    EmptyAppend(start);
    while q > 0
      invariant bitwriter.Valid() && written + q == Shr(x, P) && bitwriter.Written() == start + Ones(written)
    {
      var nbits := if q <= 64 then q else 64;
      Pow2Of64();
      AllOnes(TWO64 - 1, 64, nbits);
      bitwriter.Write(TWO64 - 1, nbits);
      Assoc(start, Ones(written), Ones(nbits));
      OnesPlus(written, nbits, []);
      EmptyAppend(Ones(nbits));
      EmptyAppend(Ones(written + nbits));
      written := written + nbits;
      q := q - nbits;
    }
    bitwriter.Write(0, 1);
    bitwriter.Write(x, P);
    GolombWritten(start, P, x);
  }

  lemma {:induction false} GolombWritten(start: seq<bool>, P: nat, x: nat)
    ensures start + Ones(Shr(x, P)) + BitsOf(0, 1) + BitsOf(x, P) == start + Golomb(P, x)
  {
    assert BitsOf(0, 1) == [false];
    Assoc(start + Ones(Shr(x, P)), [false], BitsOf(x, P));
    Assoc(start, Ones(Shr(x, P)), [false] + BitsOf(x, P));
  }

  method ReadBit(bitreader: BitStreamReader) returns (ok: bool, bit: bool)
    requires bitreader.Valid()
    modifies bitreader
    ensures bitreader.Valid() && ok == (|old(bitreader.Remaining())| > 0)
    ensures ok ==> [bit] + bitreader.Remaining() == old(bitreader.Remaining())
  {
    var value;
    ghost var taken;
    ok, value, taken := bitreader.Read(1);
    bit := value == 1;
    if ok {
      assert taken == [taken[0]] && taken[..0] == [];
      assert ValueOf(taken) == 2 * ValueOf([]) + One(taken[0]);
    }
  }

  lemma {:induction false} NextOne(q: nat, rest: seq<bool>)
    ensures Ones(q) + ([true] + rest) == Ones(q + 1) + rest
  {
  }

  /** The unary part: as many ones as follow, and the zero after them. */
  method ReadUnary(bitreader: BitStreamReader) returns (ok: bool, q: nat)
    requires bitreader.Valid()
    modifies bitreader
    ensures bitreader.Valid()
    ensures ok ==> Ones(q) + ([false] + bitreader.Remaining()) == old(bitreader.Remaining())
    ensures !ok ==> old(bitreader.Remaining()) == Ones(|old(bitreader.Remaining())|)
  {
    q := 0;
    var bit := true;
    ok := true;
    ghost var all := bitreader.Remaining();
    EmptyAppend(all);
    while ok && bit
      invariant bitreader.Valid() && q <= |all|
      invariant ok && bit ==> Ones(q) + bitreader.Remaining() == all
      invariant ok && !bit ==> Ones(q) + ([false] + bitreader.Remaining()) == all
      invariant !ok ==> all == Ones(|all|)
      decreases |all| - q, ok && bit
    {
      ghost var before := bitreader.Remaining();
      ok, bit := ReadBit(bitreader);
      if ok && bit {
        NextOne(q, bitreader.Remaining());
        q := q + 1;
      } else if !ok {
        EmptyAppend(Ones(q));
      }
    }
  }

  method GolombRiceDecode(bitreader: BitStreamReader, P: nat) returns (ok: bool, x: nat)
    requires bitreader.Valid() && P < 64
    modifies bitreader
    ensures bitreader.Valid()
    ensures var r := Ungolomb(P, old(bitreader.Remaining()));
      ok == r.Some? && (ok ==> (x, bitreader.Remaining()) == r.value)
  {
    ghost var all := bitreader.Remaining();
    x := 0;
    var q, r;
    ok, q := ReadUnary(bitreader);
    if !ok {
      OnlyOnes(|all|);
      return;
    }
    ghost var rest := bitreader.Remaining();
    UnaryRead(q, rest);
    ghost var taken;
    ok, r, taken := bitreader.Read(P);
    if ok {
      TakenParts(taken, bitreader.Remaining());
      x := Low(Low(Shl(q, P), 64) + r, 64);
    }
  }

  lemma {:induction false} OnlyOnes(n: nat)
    ensures LeadingOnes(Ones(n)) == n
  {
    if n > 0 {
      assert Ones(n)[1..] == Ones(n - 1);
      OnlyOnes(n - 1);
    }
  }

  lemma {:induction false} UnaryRead(q: nat, rest: seq<bool>)
    ensures var bits := Ones(q) + ([false] + rest);
      LeadingOnes(bits) == q && |bits| == q + 1 + |rest| && bits[q + 1..] == rest
  {
    OnesLead(q, rest);
    AfterOnes(q, rest, []);
    EmptyAppend(rest);
    EmptyAppend(Ones(q) + ([false] + rest));
  }

  lemma {:induction false} TakenParts(taken: seq<bool>, rest: seq<bool>)
    ensures (taken + rest)[..|taken|] == taken && (taken + rest)[|taken|..] == rest
  {
  }

  // ----- sorting -----

  function Inserted(s: seq<nat>, x: nat): seq<nat> {
    if s == [] || x <= s[0] then [x] + s else [s[0]] + Inserted(s[1..], x)
  }

  lemma {:induction false} InsertedAscending(s: seq<nat>, x: nat, low: nat)
    requires Ascending(s, low) && low <= x
    ensures Ascending(Inserted(s, x), low)
  {
    if s == [] || x <= s[0] {
      assert ([x] + s)[1..] == s;
    } else {
      InsertedAscending(s[1..], x, s[0]);
      assert ([s[0]] + Inserted(s[1..], x))[1..] == Inserted(s[1..], x);
    }
  }

  lemma {:induction false} InsertedHolds(s: seq<nat>, x: nat)
    ensures forall v :: v in Inserted(s, x) <==> v == x || v in s
    ensures |Inserted(s, x)| == |s| + 1
  {
    if s != [] && x > s[0] {
      InsertedHolds(s[1..], x);
      assert s == [s[0]] + s[1..];
    }
  }

  // ----- hashed sets -----

  function HashInto(siphash: Element -> nat, F: nat, element: Element): nat {
    MapIntoRange(siphash(element), F)
  }

  /** `values` are the hashes of `elements` in ascending order. */
  ghost predicate Hashes(siphash: Element -> nat, F: nat, values: seq<nat>, elements: set<Element>) {
    && Ascending(values, 0) && |values| == |elements|
    && (forall i :: 0 <= i < |values| ==> values[i] < TWO64)
    && (forall e :: e in elements ==> HashInto(siphash, F, e) in values)
    && (forall v :: v in values ==> HasHash(siphash, F, elements, v))
  }

  ghost predicate HasHash(siphash: Element -> nat, F: nat, elements: set<Element>, v: nat) {
    exists e :: e in elements && HashInto(siphash, F, e) == v
  }

  lemma {:induction false} HashesInsert(
    siphash: Element -> nat, F: nat, values: seq<nat>, elements: set<Element>, e: Element)
    requires Hashes(siphash, F, values, elements) && e !in elements && HashInto(siphash, F, e) < TWO64
    ensures Hashes(siphash, F, Inserted(values, HashInto(siphash, F, e)), elements + {e})
  {
    var v := HashInto(siphash, F, e);
    var values' := Inserted(values, v);
    InsertedAscending(values, v, 0);
    InsertedHolds(values, v);
    forall i | 0 <= i < |values'|
      ensures values'[i] < TWO64
    {
      assert values'[i] in values';
    }
    forall x | x in values'
      ensures HasHash(siphash, F, elements + {e}, x)
    {
      if x == v {
        assert e in elements + {e};
      } else {
        var d :| d in elements && HashInto(siphash, F, d) == x;
        assert d in elements + {e};
      }
    }
  }

  /** Hash lists have a common value exactly if an element of each set hashes to it. */
  lemma {:induction false} CommonHash(
    siphash: Element -> nat, F: nat, a: seq<nat>, x: set<Element>, b: seq<nat>, y: set<Element>)
    requires Hashes(siphash, F, a, x) && Hashes(siphash, F, b, y)
    ensures Common(a, b) <==> HashesMeet(siphash, F, x, y)
  {
    if Common(a, b) {
      var v :| v in a && v in b;
      assert HasHash(siphash, F, x, v) && HasHash(siphash, F, y, v);
    }
  }

  class GCSFilter {
    const siphash: Element -> nat
    const P: nat
    const M: nat
    var N: nat
    var F: nat
    var encoded: seq<byte>

    constructor (siphash: Element -> nat, P: nat, M: nat)
      ensures this.siphash == siphash && this.P == P && this.M == M && N == 0 && F == 0 && encoded == []
    {
      this.siphash, this.P, this.M, N, F, encoded := siphash, P, M, 0, 0, [];
    }

    ghost predicate Valid()
      reads this
    {
      P < 64 && M < TWO32 && F < TWO64 && forall e :: siphash(e) < TWO64
    }

    method BuildHashedSet(elements: set<Element>) returns (hashed: seq<nat>)
      requires Valid()
      ensures Hashes(siphash, F, hashed, elements)
    {
      hashed := [];
      var todo := elements;
      ghost var done: set<Element> := {};
      while todo != {}
        invariant done + todo == elements && done !! todo && Hashes(siphash, F, hashed, done)
        decreases |todo|
      {
        var e :| e in todo;
        MapIntoRangeExact(siphash(e), F);
        HashRangeFits(siphash, F, e);
        HashesInsert(siphash, F, hashed, done, e);
        hashed := Inserted(hashed, HashInto(siphash, F, e));
        todo, done := todo - {e}, done + {e};
      }
      assert done == elements;
    }

    /** The constructor from a set; false where it throws. */
    method Build(elements: set<Element>) returns (ok: bool, ghost values: seq<nat>)
      requires Valid() && N == 0 && F == 0 && encoded == []
      modifies this
      ensures ok == (|elements| < TWO32)
      ensures ok ==>
        Valid() && N == |elements| && F == N * M && IsFilter(encoded, P, values) && Hashes(siphash, F, values, elements)
    {
      if |elements| >= TWO32 {
        return false, [];
      }
      N := |elements|;
      RangeFits(N, M);
      F := N * M;
      encoded := CompactSize(N);
      var hashed := BuildHashedSet(elements);
      values := hashed;
      if elements == {} {
        FilterOf(encoded, P, values, []);
        return true, values;
      }
      var body := EncodeAll(hashed);
      encoded := encoded + body;
      FilterOf(encoded, P, values, body);
      return true, values;
    }

    /** The deltas of the hashes, padded to whole bytes. */
    method EncodeAll(hashed: seq<nat>) returns (body: seq<byte>)
      requires P < 64 && Ascending(hashed, 0)
      ensures Carries(body, Deltas(P, hashed, 0))
    {
      var bitwriter := new BitStreamWriter([]);
      var lastValue := 0;
      var i := 0;
      ghost var rest := hashed;
      EmptyAppend(Deltas(P, hashed, 0));
      while i < |hashed|
        invariant 0 <= i <= |hashed| && rest == hashed[i..] && fresh(bitwriter) && bitwriter.Valid()
        invariant Ascending(rest, lastValue)
        invariant bitwriter.Written() + Deltas(P, rest, lastValue) == Deltas(P, hashed, 0)
      {
        var value := hashed[i];
        assert rest[0] == value;
        ghost var before := bitwriter.Written();
        GolombRiceEncode(bitwriter, P, value - lastValue);
        Assoc(before, Golomb(P, value - lastValue), Deltas(P, rest[1..], value));
        rest := rest[1..];
        lastValue := value;
        i := i + 1;
      }
      EmptyAppend(bitwriter.Written());
      body := Finish(bitwriter);
    }

    /** MatchInternal; `ok` is false where it throws. */
    method MatchInternal(hashes: seq<nat>) returns (ok: bool, r: bool)
      requires Valid()
      requires ReadCompactSize(encoded).Some? ==> ReadCompactSize(encoded).value.0 == N
      ensures ok == MatchEncoded(encoded, P, hashes).Some? && (ok ==> MatchEncoded(encoded, P, hashes) == Some(r))
    {
      var header := ReadCompactSize(encoded);
      if header.None? {
        return false, false;
      }
      var bitreader := new BitStreamReader(encoded, header.value.1);
      DecoderIsGolomb(P);
      ok, r := MatchValues(bitreader, hashes, N, GolombDecoder(P));
    }

    /** The loop over the values. */
    method MatchValues(
      bitreader: BitStreamReader, hashes: seq<nat>, n: nat, ghost d: Decoder) returns (ok: bool, r: bool)
      requires bitreader.Valid() && P < 64 && Decodes(d, P)
      modifies bitreader
      ensures var m := Match(d, old(bitreader.Remaining()), n, 0, hashes); ok == m.Some? && (ok ==> m == Some(r))
    {
      var value, queries, i := 0, hashes, 0;
      ghost var goal := Match(d, bitreader.Remaining(), n, 0, hashes);
      while i < n
        invariant 0 <= i <= n && bitreader.Valid()
        invariant Toward(goal, d, bitreader.Remaining(), n - i, value, queries)
      {
        ok, value, queries := NextValue(bitreader, value, queries, n - i, goal, d);
        if !ok {
          return false, false;
        } else if queries == [] {
          return true, false;
        } else if queries[0] == value {
          return true, true;
        }
        i := i + 1;
      }
      return true, false;
    }

    /** One round: the next value, and the queries that are not below it. */
    method NextValue(
      bitreader: BitStreamReader, value: nat, queries: seq<nat>, ghost n: nat, ghost goal: Option<bool>,
      ghost d: Decoder)
      returns (ok: bool, value': nat, left: seq<nat>)
      requires bitreader.Valid() && P < 64 && Decodes(d, P) && n > 0
      requires Toward(goal, d, bitreader.Remaining(), n, value, queries)
      modifies bitreader
      ensures bitreader.Valid()
      ensures if !ok then goal == None
        else if left == [] then goal == Some(false)
        else if left[0] == value' then goal == Some(true)
        else Toward(goal, d, bitreader.Remaining(), n - 1, value', left)
    {
      assert DecodesAt(d, P, bitreader.Remaining());
      var delta;
      ok, delta := GolombRiceDecode(bitreader, P);
      value', left := value, queries;
      if ok {
        value' := Low(value + delta, 64);
        left := Advance(queries, value');
      }
    }

    /** The inner loop: skip queries below the value. */
    static method Advance(queries: seq<nat>, value: nat) returns (left: seq<nat>)
      ensures left == NotBelow(queries, value)
    {
      left := queries;
      while left != [] && left[0] < value
        invariant NotBelow(left, value) == NotBelow(queries, value)
        decreases |left|
      {
        left := left[1..];
      }
    }

    /** On a filter built from `elements`: a match is reported exactly if two hashes agree, up to MAX_SIZE elements. */
    method MatchAny(
      queries: set<Element>, ghost values: seq<nat>, ghost elements: set<Element>) returns (ok: bool, r: bool)
      requires Valid() && N == |elements| && IsFilter(encoded, P, values) && Hashes(siphash, F, values, elements)
      ensures ok == (|elements| <= MAX_SIZE)
      ensures ok ==> (r <==> HashesMeet(siphash, F, elements, queries))
    {
      var hashed := BuildHashedSet(queries);
      MatchMeans(siphash, F, encoded, P, values, elements, hashed, queries);
      ok, r := MatchInternal(hashed);
    }

    /** The constructor from an encoding; false where it throws. */
    method Load(bytes: seq<byte>) returns (ok: bool)
      requires Valid() && N == 0 && F == 0 && encoded == []
      modifies this
      ensures ok == Loadable(bytes, P)
      ensures ok ==> Valid() && encoded == bytes && N == ReadCompactSize(bytes).value.0 && F == N * M
    {
      encoded := bytes;
      var header := ReadCompactSize(encoded);
      if header.None? {
        return false;
      }
      N := header.value.0;
      RangeFits(N, M);
      F := N * M;
      ok := SkipAll(header.value.1, N);
    }

    /** Read all values, and see whether the bytes are used up. */
    method SkipAll(start: nat, n: nat) returns (ok: bool)
      requires P < 64 && start <= |encoded|
      ensures var r := SkipValues(GolombDecoder(P), ByteBits(encoded[start..]), n); ok == (r.Some? && |r.value| < 8)
    {
      var bitreader := new BitStreamReader(encoded, start);
      DecoderIsGolomb(P);
      ok := DecodeAll(bitreader, n, GolombDecoder(P));
      ok := ok && bitreader.pos == |encoded|;
    }

    method DecodeAll(bitreader: BitStreamReader, n: nat, ghost d: Decoder) returns (ok: bool)
      requires bitreader.Valid() && P < 64 && Decodes(d, P)
      modifies bitreader
      ensures bitreader.Valid()
      ensures var r := SkipValues(d, old(bitreader.Remaining()), n);
        ok == r.Some? && (ok ==> r.value == bitreader.Remaining())
    {
      var i := 0;
      ghost var goal := SkipValues(d, bitreader.Remaining(), n);
      while i < n
        invariant 0 <= i <= n && bitreader.Valid() && Skips(goal, d, bitreader.Remaining(), n - i)
      {
        ok := DecodeOne(bitreader, n - i, goal, d);
        if !ok {
          return false;
        }
        i := i + 1;
      }
      return true;
    }

    method DecodeOne(
      bitreader: BitStreamReader, ghost n: nat, ghost goal: Option<seq<bool>>, ghost d: Decoder) returns (ok: bool)
      requires bitreader.Valid() && P < 64 && Decodes(d, P) && n > 0 && Skips(goal, d, bitreader.Remaining(), n)
      modifies bitreader
      ensures bitreader.Valid()
      ensures if ok then Skips(goal, d, bitreader.Remaining(), n - 1) else goal == None
    {
      assert DecodesAt(d, P, bitreader.Remaining());
      var delta;
      ok, delta := GolombRiceDecode(bitreader, P);
    }
  }

  /** Skipping `n` values from here on arrives at `goal`. */
  ghost predicate Skips(goal: Option<seq<bool>>, d: Decoder, bits: seq<bool>, n: nat) {
    goal == SkipValues(d, bits, n)
  }

  /** `d` decodes Golomb-Rice codes. */
  ghost predicate Decodes(d: Decoder, P: nat) {
    forall bits {:trigger DecodesAt(d, P, bits)} :: DecodesAt(d, P, bits)
  }

  ghost predicate DecodesAt(d: Decoder, P: nat, bits: seq<bool>) {
    d(bits) == Ungolomb(P, bits)
  }

  lemma {:induction false} DecoderIsGolomb(P: nat)
    ensures Decodes(GolombDecoder(P), P)
  {
  }

  /** The matching loop, from here on, arrives at `goal`. */
  ghost predicate Toward(goal: Option<bool>, d: Decoder, bits: seq<bool>, n: nat, value: nat, queries: seq<nat>) {
    goal == Match(d, bits, n, value, queries)
  }

  /** Some element and some query have the same hash. */
  ghost predicate HashesMeet(siphash: Element -> nat, F: nat, elements: set<Element>, queries: set<Element>) {
    exists d, e :: d in elements && e in queries && HashInto(siphash, F, d) == HashInto(siphash, F, e)
  }

  lemma {:induction false} MatchMeans(
    siphash: Element -> nat, F: nat, encoded: seq<byte>, P: nat, values: seq<nat>, elements: set<Element>,
    hashed: seq<nat>, queries: set<Element>)
    requires IsFilter(encoded, P, values) && Hashes(siphash, F, values, elements) && Hashes(siphash, F, hashed, queries)
    ensures ReadCompactSize(encoded).Some? ==> ReadCompactSize(encoded).value.0 == |elements|
    ensures var r := MatchEncoded(encoded, P, hashed);
      if |elements| <= MAX_SIZE then r.Some? && (r.value <==> HashesMeet(siphash, F, elements, queries)) else r.None?
  {
    FilterExact(encoded, P, values, hashed);
    CommonHash(siphash, F, values, elements, hashed, queries);
    CountRead(encoded, P, values);
  }

  lemma {:induction false} CountRead(encoded: seq<byte>, P: nat, values: seq<nat>)
    requires IsFilter(encoded, P, values)
    ensures ReadCompactSize(encoded).Some? ==> ReadCompactSize(encoded).value.0 == |values|
  {
    var k := |CompactSize(|values|)|;
    SplitAt(encoded, k);
    CompactSizeRoundTrip(|values|, encoded[k..]);
  }

  lemma {:induction false} HashRangeFits(siphash: Element -> nat, F: nat, e: Element)
    requires siphash(e) < TWO64 && F < TWO64
    ensures HashInto(siphash, F, e) < TWO64
  {
    MapIntoRangeExact(siphash(e), F);
    RangeBelow(siphash(e), F);
  }

  lemma {:induction false} RangeFits(N: nat, M: nat)
    requires N < TWO32 && M < TWO32
    ensures N * M < TWO64
  {
    HalvesBelow(N, M);
  }

  /** `body` holds `bits` and less than a byte of padding. */
  ghost predicate Carries(body: seq<byte>, bits: seq<bool>) {
    |bits| <= |ByteBits(body)| < |bits| + 8 && ByteBits(body)[..|bits|] == bits
  }

  lemma {:induction false} FilterOf(encoded: seq<byte>, P: nat, values: seq<nat>, body: seq<byte>)
    requires |values| < TWO32 && Ascending(values, 0) && (forall i :: 0 <= i < |values| ==> values[i] < TWO64)
    requires encoded == CompactSize(|values|) + body
    requires (if values == [] then body == [] else Carries(body, Deltas(P, values, 0)))
    ensures IsFilter(encoded, P, values)
  {
    var k := |CompactSize(|values|)|;
    assert encoded[..k] == CompactSize(|values|) && encoded[k..] == body;
  }

  /** Flush, and what has been written. */
  method Finish(bitwriter: BitStreamWriter) returns (body: seq<byte>)
    requires bitwriter.Valid()
    modifies bitwriter
    ensures Carries(body, old(bitwriter.Written()))
  {
    ghost var out, buffer, offset := bitwriter.out, bitwriter.buffer, bitwriter.offset;
    Pow2Of8();
    LowAll(buffer, 8);
    ShlZero(8);
    bitwriter.Flush();
    body := bitwriter.out;
    if offset == 0 {
      EmptyAppend(ByteBits(out));
    } else {
      ByteBitsAppend(out, buffer);
      BitsSplit(buffer, offset, 8 - offset);
      FlushedBits(ByteBits(out), BitsOf(Shr(buffer, 8 - offset), offset), BitsOf(buffer, 8 - offset));
    }
  }

  lemma {:induction false} ShlZero(k: nat)
    ensures Shl(0, k) == 0
  {
    if k > 0 {
      ShlZero(k - 1);
    }
  }

  lemma {:induction false} FlushedBits(a: seq<bool>, b: seq<bool>, pad: seq<bool>)
    ensures (a + (b + pad))[..|a + b|] == a + b
  {
  }
}
