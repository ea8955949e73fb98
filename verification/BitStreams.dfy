/** Bit streams over bytes, most significant bit first (BitStreamReader and BitStreamWriter of streams.h). */
module BitStreams {
  import opened Collections
  import opened Numbers
  import opened Shifts

  function One(b: bool): nat {
    if b then 1 else 0
  }

  /** The low `n` bits of `x`, the highest first. */
  function BitsOf(x: nat, n: nat): (r: seq<bool>)
    ensures |r| == n
  {
    if n == 0 then [] else BitsOf(x / 2, n - 1) + [x % 2 == 1]
  }

  function ValueOf(bits: seq<bool>): nat {
    if bits == [] then 0 else 2 * ValueOf(bits[..|bits| - 1]) + One(bits[|bits| - 1])
  }

  lemma {:induction false} ValueOfBits(x: nat, n: nat)
    ensures ValueOf(BitsOf(x, n)) == Low(x, n)
  {
    if n > 0 {
      assert BitsOf(x, n)[..n - 1] == BitsOf(x / 2, n - 1);
      ValueOfBits(x / 2, n - 1);
    }
  }

  lemma {:induction false} BitsSplit(x: nat, n: nat, k: nat)
    ensures BitsOf(x, n + k) == BitsOf(Shr(x, k), n) + BitsOf(x, k)
  {
    if k == 0 {
      EmptyAppend(BitsOf(x, n));
    } else {
      BitsSplit(x / 2, n, k - 1);
      Assoc(BitsOf(Shr(x, k), n), BitsOf(x / 2, k - 1), [x % 2 == 1]);
    }
  }

  lemma {:induction false} BitsOfLow(x: nat, n: nat)
    ensures BitsOf(Low(x, n), n) == BitsOf(x, n)
  {
    if n > 0 {
      BitsOfLow(x / 2, n - 1);
    }
  }

  lemma {:induction false} BitsAppend(a: nat, n: nat, b: nat, k: nat)
    requires b < Pow2(k)
    ensures BitsOf(Shl(a, k) + b, n + k) == BitsOf(a, n) + BitsOf(b, k)
  {
    var x := Shl(a, k) + b;
    PartsUnique(a, b, k);
    BitsSplit(x, n, k);
    BitsOfLow(x, k);
  }

  lemma {:induction false} ValueAppend(a: seq<bool>, b: seq<bool>)
    ensures ValueOf(a + b) == Shl(ValueOf(a), |b|) + ValueOf(b)
  {
    if b == [] {
      EmptyAppend(a);
    } else {
      var n := |b| - 1;
      assert (a + b)[..|a + b| - 1] == a + b[..n];
      ValueAppend(a, b[..n]);
    }
  }

  function ByteBits(bytes: seq<byte>): (r: seq<bool>)
    ensures |r| == 8 * |bytes|
  {
    if bytes == [] then [] else BitsOf(bytes[0], 8) + ByteBits(bytes[1..])
  }

  lemma {:induction false} ByteBitsAppend(bytes: seq<byte>, b: byte)
    ensures ByteBits(bytes + [b]) == ByteBits(bytes) + BitsOf(b, 8)
  {
    if bytes == [] {
      EmptyAppend([b]);
      assert [b][1..] == [];
      EmptyAppend(BitsOf(b, 8));
    } else {
      assert (bytes + [b])[1..] == bytes[1..] + [b];
      ByteBitsAppend(bytes[1..], b);
      Assoc(BitsOf(bytes[0], 8), ByteBits(bytes[1..]), BitsOf(b, 8));
    }
  }

  // ----- writing -----

  /** A round of Write that fills the buffer puts the first `bits` of `bits + rest` bits of data behind those in it. */
  lemma {:induction false} WriteFull(top: nat, data: nat, bits: nat, rest: nat, unused: nat)
    ensures Or(Shl(top, bits), Shr(Low(Shl(data, unused), bits + rest + unused), rest + unused)) ==
      Shl(top, bits) + Low(Shr(data, rest), bits)
  {
    LowShl(data, bits + rest, unused);
    LowShr(data, rest, bits);
    ShrShl(Low(data, bits + rest), unused, rest + unused);
    LowBelow(Shr(data, rest), bits);
    OrDisjoint(top, Low(Shr(data, rest), bits), bits);
  }

  /** A round of Write that leaves `free` bits of the buffer. */
  lemma {:induction false} WritePart(top: nat, data: nat, bits: nat, free: nat, skip: nat)
    ensures Or(Shl(top, bits + free), Shr(Low(Shl(data, skip + free), bits + (skip + free)), skip)) ==
      Shl(Shl(top, bits) + Low(data, bits), free)
  {
    var chunk := Low(data, bits);
    LowShl(data, bits, skip + free);
    ShrShl(chunk, skip + free, skip);
    LowBelow(data, bits);
    ShlBelow(chunk, bits, free);
    OrDisjoint(top, Shl(chunk, free), bits + free);
    ShlPlus(top, bits, free);
    ShlSum(Shl(top, bits), chunk, free);
  }

  /** The stream of bits before and after a round of Write. */
  lemma {:induction false} AfterChunk(
    done: seq<bool>, top: nat, offset: nat, data: nat, nbits: nat, bits: nat, chunk: nat)
    requires bits <= nbits && chunk == Low(Shr(data, nbits - bits), bits)
    ensures done + BitsOf(Shl(top, bits) + chunk, offset + bits) + BitsOf(data, nbits - bits) ==
      done + BitsOf(top, offset) + BitsOf(data, nbits)
  {
    BitsSplit(data, bits, nbits - bits);
    BitsOfLow(Shr(data, nbits - bits), bits);
    LowBelow(Shr(data, nbits - bits), bits);
    BitsAppend(top, offset, chunk, bits);
    var a, b, c := BitsOf(top, offset), BitsOf(chunk, bits), BitsOf(data, nbits - bits);
    Assoc(done, a, b);
    Assoc(done + a, b, c);
  }

  lemma {:induction false} TopFits(buffer: nat, offset: nat, chunk: nat, bits: nat, free: nat)
    requires buffer < Pow2(offset + bits + free) && chunk < Pow2(bits)
    ensures var b := Shl(Shl(Shr(buffer, bits + free), bits) + chunk, free);
      b < Pow2(offset + bits + free) && Shr(b, free) == Shl(Shr(buffer, bits + free), bits) + chunk
  {
    var top := Shr(buffer, bits + free);
    ShrBelow(buffer, offset, bits + free);
    JoinBelow(top, offset, chunk, bits);
    ShlBelow(Shl(top, bits) + chunk, offset + bits, free);
    PartsUnique(Shl(top, bits) + chunk, 0, free);
  }

  lemma {:induction false} WriteValue(top: nat, offset: nat, data: nat, nbits: nat, bits: nat)
    requires offset < 8 && 0 < nbits <= 64 && bits == (if 8 - offset <= nbits then 8 - offset else nbits)
    ensures Or(Shl(top, 8 - offset), Shr(Low(Shl(data, 64 - nbits), 64), 56 + offset)) ==
      Shl(Shl(top, bits) + Low(Shr(data, nbits - bits), bits), 8 - offset - bits)
  {
    if 8 - offset <= nbits {
      WriteFull(top, data, bits, nbits - bits, 64 - nbits);
    } else {
      WritePart(top, data, bits, 8 - offset - bits, 56 + offset);
    }
  }

  /** The buffer after a round of Write. */
  lemma {:induction false} WriteRound(buffer: nat, offset: nat, data: nat, nbits: nat, bits: nat) returns (b: nat)
    requires offset < 8 && 0 < nbits <= 64 && bits == (if 8 - offset <= nbits then 8 - offset else nbits)
    requires buffer < 256 && buffer == Shl(Shr(buffer, 8 - offset), 8 - offset)
    ensures b == Or(buffer, Shr(Low(Shl(data, 64 - nbits), 64), 56 + offset)) && b < 256
    ensures var free := 8 - (offset + bits);
      b == Shl(Shr(b, free), free)
      && Shr(b, free) == Shl(Shr(buffer, 8 - offset), bits) + Low(Shr(data, nbits - bits), bits)
  {
    var top, chunk := Shr(buffer, 8 - offset), Low(Shr(data, nbits - bits), bits);
    WriteValue(top, offset, data, nbits, bits);
    Pow2Of8();
    LowBelow(Shr(data, nbits - bits), bits);
    TopFits(buffer, offset, chunk, bits, 8 - offset - bits);
    b := Shl(Shl(top, bits) + chunk, 8 - offset - bits);
  }

  lemma {:induction false} FullBuffer(out: seq<byte>, b: byte)
    ensures ByteBits(out) + BitsOf(Shr(b, 0), 8) == ByteBits(out + [b]) + BitsOf(Shr(0, 8), 0)
  {
    ByteBitsAppend(out, b);
    EmptyAppend(ByteBits(out + [b]));
  }

  class BitStreamWriter {
    var out: seq<byte>
    var buffer: nat
    var offset: nat

    constructor (out: seq<byte>)
      ensures Valid() && Written() == ByteBits(out) && this.out == out && offset == 0
    {
      this.out, buffer, offset := out, 0, 0;
      new;
      EmptyAppend(ByteBits(out));
    }

    /** The buffer holds `offset` bits at its top. */
    ghost predicate Filled()
      reads this
    {
      offset <= 8 && buffer < 256 && buffer == Shl(Shr(buffer, 8 - offset), 8 - offset)
    }

    ghost predicate Valid()
      reads this
    {
      Filled() && offset < 8
    }

    ghost function Written(): seq<bool>
      requires Filled()
      reads this
    {
      ByteBits(out) + BitsOf(Shr(buffer, 8 - offset), offset)
    }

    /** Put as many bits as fit into the buffer. */
    method FillBuffer(data: nat, nbits: nat) returns (rest: nat)
      requires Valid() && 0 < nbits <= 64
      modifies this`buffer, this`offset
      ensures Filled() && rest < nbits && Written() + BitsOf(data, rest) == old(Written()) + BitsOf(data, nbits)
    {
      var bits := if 8 - offset <= nbits then 8 - offset else nbits;
      ghost var b := WriteRound(buffer, offset, data, nbits, bits);
      AfterChunk(ByteBits(out), Shr(buffer, 8 - offset), offset, data, nbits, bits, Low(Shr(data, nbits - bits), bits));
      buffer := Or(buffer, Shr(Low(Shl(data, 64 - nbits), 64), 56 + offset));
      offset := offset + bits;
      rest := nbits - bits;
    }

    method FlushFull()
      requires Filled()
      modifies this
      ensures Valid() && Written() == old(Written())
    {
      if offset == 8 {
        FullBuffer(out, buffer);
        Flush();
      }
    }

    method Write(data: nat, nbits: nat)
      requires Valid() && nbits <= 64
      modifies this
      ensures Valid() && Written() == old(Written()) + BitsOf(data, nbits)
    {
      var n: nat := nbits;
      while n > 0
        invariant Valid() && n <= nbits && Written() + BitsOf(data, n) == old(Written()) + BitsOf(data, nbits)
      {
        n := FillBuffer(data, n);
        FlushFull();
      }
      EmptyAppend(Written());
    }

    method Flush()
      requires offset <= 8 && buffer < 256 && (offset == 0 ==> buffer == 0)
      modifies this
      ensures Valid() && offset == 0 && out == if old(offset) == 0 then old(out) else old(out) + [old(buffer)]
    {
      if offset == 0 {
        return;
      }
      out := out + [buffer];
      buffer := 0;
      offset := 0;
    }
  }

  // ----- reading -----

  /** A round of Read appends the next `bits` bits of the buffer, of which `free` more are left, to the data. */
  lemma {:induction false} ReadChunk(buffer: nat, offset: nat, bits: nat, free: nat, data: nat)
    ensures Or(Shl(data, bits), Shr(Low(Shl(buffer, offset), bits + free + offset), free + offset)) ==
      Shl(data, bits) + Low(Shr(buffer, free), bits)
  {
    LowShl(buffer, bits + free, offset);
    ShrShl(Low(buffer, bits + free), offset, free + offset);
    LowShr(buffer, free, bits);
    LowBelow(Shr(buffer, free), bits);
    OrDisjoint(data, Low(Shr(buffer, free), bits), bits);
  }

  class BitStreamReader {
    const data: seq<byte>
    var pos: nat         // how far the underlying stream has been read
    var buffer: nat
    var offset: nat

    constructor (data: seq<byte>, pos: nat)
      requires pos <= |data|
      ensures Valid() && this.data == data && this.pos == pos && Remaining() == ByteBits(data[pos..])
    {
      this.data, this.pos, buffer, offset := data, pos, 0, 8;
      new;
      EmptyAppend(ByteBits(data[pos..]));
    }

    /** A byte is only taken from the stream when one of its bits is wanted. */
    ghost predicate Valid()
      reads this
    {
      pos <= |data| && buffer < 256 && 1 <= offset <= 8
    }

    /** The bits still to be read. */
    ghost function Remaining(): seq<bool>
      requires pos <= |data| && offset <= 8
      reads this
    {
      BitsOf(buffer, 8 - offset) + ByteBits(data[pos..])
    }

    /** Fetch a byte; false is the end of the data. */
    method Refill() returns (ok: bool)
      requires Valid() && offset == 8
      modifies this
      ensures ok == (|old(Remaining())| > 0)
      ensures ok ==> pos <= |data| && buffer < 256 && offset == 0 && Remaining() == old(Remaining())
      ensures !ok ==> Valid()
    {
      if pos == |data| {
        return false;
      }
      NextByte(data, pos);
      EmptyAppend(ByteBits(data[pos..]));
      buffer := data[pos];
      pos := pos + 1;
      offset := 0;
      return true;
    }

    /** Take as many bits as the buffer holds. */
    method TakeBits(value: nat, nbits: nat) returns (value': nat, rest: nat, ghost taken: seq<bool>)
      requires pos <= |data| && buffer < 256 && offset < 8 && 0 < nbits
      modifies this
      ensures Valid() && rest < nbits && rest + |taken| == nbits
      ensures value' == Shl(value, |taken|) + ValueOf(taken) && taken + Remaining() == old(Remaining())
    {
      var bits := if 8 - offset <= nbits then 8 - offset else nbits;
      ReadChunk(buffer, offset, bits, 8 - offset - bits, value);
      taken := FirstBits(buffer, 8 - offset, bits, ByteBits(data[pos..]));
      value' := Or(Shl(value, bits), Shr(Low(Shl(buffer, offset), 8), 8 - bits));
      offset := offset + bits;
      rest := nbits - bits;
    }

    /** One round of Read. */
    method ReadSome(value: nat, nbits: nat) returns (ok: bool, value': nat, rest: nat, ghost taken: seq<bool>)
      requires Valid() && 0 < nbits
      modifies this
      ensures Valid() && ok == (|old(Remaining())| > 0)
      ensures ok ==>
        && rest < nbits && rest + |taken| == nbits
        && value' == Shl(value, |taken|) + ValueOf(taken) && taken + Remaining() == old(Remaining())
    {
      ok, value', rest, taken := true, value, nbits, [];
      if offset == 8 {
        ok := Refill();
      }
      if ok {
        value', rest, taken := TakeBits(value, nbits);
      }
    }

    /** Read fails at the end of the data, and otherwise returns the next bits as a number. */
    method Read(nbits: nat) returns (ok: bool, value: nat, ghost taken: seq<bool>)
      requires Valid() && nbits <= 64
      modifies this
      ensures Valid() && ok == (|old(Remaining())| >= nbits)
      ensures ok ==> |taken| == nbits && value == ValueOf(taken) && taken + Remaining() == old(Remaining())
    {
      value, ok, taken := 0, true, [];
      var n: nat := nbits;
      ghost var all := Remaining();
      EmptyAppend(all);
      while n > 0 && ok
        invariant Valid() && |taken| + n == nbits
        invariant if ok then taken + Remaining() == all && value == ValueOf(taken) else |all| < nbits
        decreases n, ok
      {
        var rest;
        ghost var more;
        ok, value, rest, more := ReadSome(value, n);
        if ok {
          ValueAppend(taken, more);
          Assoc(taken, more, Remaining());
          taken := taken + more;
          n := rest;
        }
      }
    }
  }

  lemma {:induction false} NextByte(data: seq<byte>, pos: nat)
    requires pos < |data|
    ensures ByteBits(data[pos..]) == BitsOf(data[pos], 8) + ByteBits(data[pos + 1..])
  {
    DropDrop(data, pos, 1);
  }

  /** Taking the first `bits` of the `left` bits in the buffer. */
  lemma {:induction false} FirstBits(buffer: nat, left: nat, bits: nat, tail: seq<bool>) returns (taken: seq<bool>)
    requires bits <= left
    ensures |taken| == bits && ValueOf(taken) == Low(Shr(buffer, left - bits), bits)
    ensures taken + (BitsOf(buffer, left - bits) + tail) == BitsOf(buffer, left) + tail
  {
    BitsSplit(buffer, bits, left - bits);
    ValueOfBits(Shr(buffer, left - bits), bits);
    taken := BitsOf(Shr(buffer, left - bits), bits);
    Assoc(taken, BitsOf(buffer, left - bits), tail);
  }
}
