/** arith_uint256 itself: eight limbs changed in place by carry, shift and division loops. */
module ArithUint256 {
  import opened Collections
  import opened Numbers
  import opened Shifts
  import opened Limbs
  import opened Compact
  import L = Limbs
  import K = Compact

  class Arith {
    const pn: array<nat>

    ghost predicate Valid()
      reads this, pn
    {
      pn.Length == WIDTH && IsLimbs(pn[..])
    }

    ghost function Value(): nat
      reads this, pn
    {
      Val(pn[..])
    }

    constructor (b: nat)
      requires b < BASE * BASE
      ensures Valid() && fresh(pn) && Value() == b
    {
      pn := new nat[WIDTH](_ => 0);
      new;
      Assign(b);
    }

    constructor Copy(b: Arith)
      requires b.Valid()
      ensures Valid() && fresh(pn) && pn[..] == b.pn[..]
    {
      pn := new nat[WIDTH](_ => 0);
      new;
      var i := 0;
      while i < WIDTH
        invariant 0 <= i <= WIDTH && fresh(pn) && forall k :: 0 <= k < i ==> pn[k] == b.pn[k]
      {
        pn[i] := b.pn[i];
        i := i + 1;
      }
      assert pn[..] == b.pn[..];
    }

    /** Assignment of a 64-bit number. */
    method Assign(b: nat)
      requires pn.Length == WIDTH && b < BASE * BASE
      modifies pn
      ensures Valid() && Value() == b
    {
      pn[0] := b % BASE;
      pn[1] := b / BASE;
      var i := 2;
      while i < WIDTH
        invariant 2 <= i <= WIDTH && pn[0] == b % BASE && pn[1] == b / BASE && forall k :: 2 <= k < i ==> pn[k] == 0
      {
        pn[i] := 0;
        i := i + 1;
      }
      ValTopZeros(pn[..], 2);
      LowTwo(pn[..][..2]);
    }

    /** += */
    method Add(b: Arith)
      requires Valid() && b.Valid()
      modifies pn
      ensures Valid() && pn[..] == AddLimbs(old(pn[..]), old(b.pn[..]), 0)
      ensures Value() == (old(Value()) + old(b.Value())) % P(pn.Length)
    {
      AddExact(pn[..], b.pn[..]);
      AddLoop(b);
    }

    method AddLoop(b: Arith)
      requires Valid() && b.Valid()
      modifies pn
      ensures Valid() && pn[..] == AddLimbs(old(pn[..]), old(b.pn[..]), 0)
    {
      ghost var a, c := pn[..], b.pn[..];
      var carry: nat := 0;
      var i := 0;
      AddStart(a, c);
      while i < WIDTH
        invariant 0 <= i <= WIDTH && Adding(pn[..], a, c, i, carry) && b.pn[..][i..] == c[i..]
      {
        carry := AddLimb(b, i, carry, a, c);
        i := i + 1;
      }
      AddEnd(pn[..], a, c, carry);
    }

    method AddLimb(b: Arith, i: nat, carry: nat, ghost a: seq<nat>, ghost c: seq<nat>) returns (next: nat)
      requires i < pn.Length == b.pn.Length && Adding(pn[..], a, c, i, carry) && b.pn[..][i..] == c[i..]
      modifies pn
      ensures Adding(pn[..], a, c, i + 1, next) && b.pn[..][i + 1..] == c[i + 1..]
    {
      ghost var now, other := pn[..], b.pn[..];
      AddStep(now, a, c, i, carry);
      assert other[i] == other[i..][0] == c[i];
      DropDrop(other, i, 1);
      DropDrop(c, i, 1);
      var n := carry + pn[i] + b.pn[i];
      var digit: nat := n % BASE;
      pn[i] := digit;
      assert pn[..] == now[i := digit];
      assert b.pn[..][i + 1..] == other[i + 1..];
      next := n / BASE;
    }

    /** += of a 64-bit number. */
    method AddSmall(b64: nat)
      requires Valid() && b64 < BASE * BASE
      modifies pn
      ensures Valid() && Value() == (old(Value()) + b64) % P(pn.Length)
    {
      var b := new Arith(b64);
      Add(b);
    }

    /** ~ */
    method Complemented() returns (ret: Arith)
      requires Valid()
      ensures fresh(ret) && fresh(ret.pn) && ret.Valid() && ret.pn[..] == Complement(pn[..])
      ensures ret.Value() == P(pn.Length) - 1 - Value()
    {
      ret := new Arith(0);
      var i := 0;
      while i < WIDTH
        invariant 0 <= i <= WIDTH && fresh(ret) && fresh(ret.pn) && ret.pn.Length == WIDTH
        invariant forall k :: 0 <= k < i ==> ret.pn[k] == BASE - 1 - pn[k]
      {
        ret.pn[i] := BASE - 1 - pn[i];
        i := i + 1;
      }
      assert ret.pn[..] == Complement(pn[..]);
      ComplementValue(pn[..]);
    }

    /** ++ */
    method Increment()
      requires Valid()
      modifies pn
      ensures Valid() && pn[..] == L.Increment(old(pn[..])) && Value() == (old(Value()) + 1) % P(pn.Length)
    {
      IncrementExact(pn[..]);
      IncrementLoop();
    }

    method IncrementLoop()
      requires Valid()
      modifies pn
      ensures Valid() && pn[..] == L.Increment(old(pn[..]))
    {
      ghost var a := pn[..];
      var i := 0;
      IncrementStart(a);
      while i < WIDTH && pn[i] + 1 == BASE
        invariant 0 <= i <= WIDTH && Incrementing(pn[..], a, i)
      {
        IncrementStep(pn[..], a, i);
        SetLimb(i, 0);
        i := i + 1;
      }
      IncrementStep(pn[..], a, i);
      if i < WIDTH {
        SetLimb(i, pn[i] + 1);
      }
      IncrementDone(pn[..], a);
    }

    method SetLimb(i: nat, x: nat)
      requires i < pn.Length
      modifies pn
      ensures pn[..] == old(pn[..])[i := x]
    {
      pn[i] := x;
    }

    /** -- */
    method Decrement()
      requires Valid()
      modifies pn
      ensures Valid() && pn[..] == L.Decrement(old(pn[..]))
      ensures Value() == (old(Value()) + P(pn.Length) - 1) % P(pn.Length)
    {
      DecrementExact(pn[..]);
      DecrementLoop();
    }

    method DecrementLoop()
      requires Valid()
      modifies pn
      ensures Valid() && pn[..] == L.Decrement(old(pn[..]))
    {
      ghost var a := pn[..];
      var i := 0;
      DecrementStart(a);
      while i < WIDTH && pn[i] == 0
        invariant 0 <= i <= WIDTH && Decrementing(pn[..], a, i)
      {
        DecrementStep(pn[..], a, i);
        SetLimb(i, BASE - 1);
        i := i + 1;
      }
      DecrementStep(pn[..], a, i);
      if i < WIDTH {
        SetLimb(i, pn[i] - 1);
      }
      DecrementDone(pn[..], a);
    }

    /** Unary minus. */
    method Negated() returns (ret: Arith)
      requires Valid()
      ensures fresh(ret) && fresh(ret.pn) && ret.Valid() && ret.Value() == (P(pn.Length) - Value()) % P(pn.Length)
    {
      NegateExact(pn[..]);
      ret := NegatedLoops();
    }

    method NegatedLoops() returns (ret: Arith)
      requires Valid()
      ensures fresh(ret) && fresh(ret.pn) && ret.Valid() && ret.pn[..] == Negate(pn[..])
    {
      ret := Complemented();
      ret.IncrementLoop();
    }

    /** *= by a 32-bit number. */
    method MulSmall(b32: nat)
      requires Valid() && b32 < BASE
      modifies pn
      ensures Valid() && pn[..] == L.MulSmall(old(pn[..]), b32) && Value() == b32 * old(Value()) % P(pn.Length)
    {
      MulSmallExact(pn[..], b32);
      MulSmallLoop(b32);
    }

    method MulSmallLoop(b32: nat)
      requires Valid() && b32 < BASE
      modifies pn
      ensures Valid() && pn[..] == L.MulSmall(old(pn[..]), b32)
    {
      ghost var a, zeros := pn[..], Zeros(WIDTH);
      var carry: nat := 0;
      var i := 0;
      MulStart(zeros, b32, a);
      EmptyAppend(a);
      while i < WIDTH
        invariant 0 <= i <= WIDTH && MulCarry(pn[..], zeros, b32, a, i, carry)
      {
        carry := MulLimb(b32, i, carry, a, zeros);
        i := i + 1;
      }
      MulEnd(pn[..], zeros, b32, a, carry);
    }

    method MulLimb(b32: nat, i: nat, carry: nat, ghost a: seq<nat>, ghost zeros: seq<nat>) returns (next: nat)
      requires i < pn.Length == |a| && IsLimbs(a) && b32 < BASE && zeros == Zeros(|a|)
      requires MulCarry(pn[..], zeros, b32, a, i, carry)
      modifies pn
      ensures MulCarry(pn[..], zeros, b32, a, i + 1, next)
    {
      var n := carry + b32 * pn[i];
      var digit: nat := n % BASE;
      next := n / BASE;
      MulDigit(pn[..], zeros, b32, a, i, carry, n, digit, next);
      SetLimb(i, digit);
    }

    /** *= */
    method Multiply(b: Arith)
      requires Valid() && b.Valid()
      modifies pn
      ensures Valid() && pn[..] == MulAll(Zeros(WIDTH), old(pn[..]), old(b.pn[..]))
      ensures Value() == old(Value()) * old(b.Value()) % P(pn.Length)
    {
      MulExact(pn[..], b.pn[..]);
      MultiplyLoop(b);
    }

    method MultiplyLoop(b: Arith)
      requires Valid() && b.Valid()
      modifies pn
      ensures Valid() && pn[..] == MulAll(Zeros(WIDTH), old(pn[..]), old(b.pn[..]))
    {
      var a := new Arith.Zero();
      ghost var p, c := pn[..], b.pn[..];
      var j := 0;
      MultiplyStart(p, c);
      while j < WIDTH
        invariant 0 <= j <= WIDTH && fresh(a) && fresh(a.pn) && a.Valid() && pn[..] == p && b.pn[..] == c
        invariant Multiplying(a.pn[..], p, c, j)
      {
        MultiplyStep(a.pn[..], p, c, j);
        a.MulInto(j, pn[j], b);
        j := j + 1;
      }
      MultiplyEnd(a.pn[..], p, c);
      CopyFrom(a);
    }

    constructor Zero()
      ensures Valid() && fresh(pn) && pn[..] == Zeros(WIDTH)
    {
      pn := new nat[WIDTH](_ => 0);
      new;
      assert pn[..] == Zeros(WIDTH);
    }

    method CopyFrom(b: Arith)
      requires pn.Length == WIDTH && b.Valid()
      modifies pn
      ensures Valid() && pn[..] == old(b.pn[..])
    {
      ghost var c := b.pn[..];
      var i := 0;
      while i < WIDTH
        invariant 0 <= i <= WIDTH && (forall k :: 0 <= k < i ==> pn[k] == c[k]) && b.pn[..] == c
      {
        pn[i] := b.pn[i];
        i := i + 1;
        assert b.pn[..] == c;
      }
      assert pn[..] == c;
    }

    /** The inner loop of *=: add x * b from limb `j` on; no sum exceeds 64 bits. */
    method MulInto(j: nat, x: nat, b: Arith)
      requires Valid() && b.Valid() && j < WIDTH && x < BASE && this.pn != b.pn
      modifies pn
      ensures Valid() && pn[..] == old(pn[..])[..j] + AddMul(old(pn[..])[j..], x, b.pn[..][..WIDTH - j], 0)
    {
      ghost var low, acc, c := pn[..][..j], pn[..][j..], b.pn[..][..WIDTH - j];
      var carry: nat := 0;
      var i := 0;
      MulStart(acc, x, c);
      while i + j < WIDTH
        invariant 0 <= i <= WIDTH - j && pn[..][..j] == low && pn[..][j + i..] == acc[i..]
        invariant Valid() && carry < BASE
        invariant MulAdding(pn[..][j..], acc, x, c, i, carry)
      {
        carry := MulIntoLimb(i, j, x, b, carry, acc, c);
        i := i + 1;
      }
      MulEnd(pn[..][j..], acc, x, c, carry);
      SplitAt(pn[..], j);
    }

    method MulIntoLimb(
      i: nat, j: nat, x: nat, b: Arith, carry: nat, ghost acc: seq<nat>, ghost c: seq<nat>) returns (next: nat)
      requires Valid() && b.Valid() && i + j < WIDTH && this.pn != b.pn && c == b.pn[..][..WIDTH - j]
      requires |acc| == WIDTH - j && x < BASE && carry < BASE
      requires pn[..][j + i..] == acc[i..] && MulAdding(pn[..][j..], acc, x, c, i, carry)
      modifies pn
      ensures pn[..][..j] == old(pn[..])[..j] && pn[..][j + i + 1..] == acc[i + 1..]
      ensures MulAdding(pn[..][j..], acc, x, c, i + 1, next)
      ensures Valid() && next < BASE && carry + old(pn[i + j]) + x * b.pn[i] < BASE * BASE
    {
      var n := carry + pn[i + j] + x * b.pn[i];
      var digit: nat := n % BASE;
      next := n / BASE;
      MulIntoDigit(pn[..], acc, x, c, i, j, carry, b.pn[i], n, digit, next);
      SetLimb(i + j, digit);
    }

    method Clear()
      requires pn.Length == WIDTH
      modifies pn
      ensures pn[..] == Zeros(WIDTH)
    {
      var i := 0;
      while i < WIDTH
        invariant 0 <= i <= WIDTH && forall t :: 0 <= t < i ==> pn[t] == 0
      {
        pn[i] := 0;
        i := i + 1;
      }
      assert pn[..] == Zeros(WIDTH);
    }

    /** <<= */
    method ShiftLeft(shift: nat)
      requires Valid()
      modifies pn
      ensures Valid() && Value() == Shl(old(Value()), shift) % P(pn.Length)
    {
      ShiftLeftExact(pn[..], shift);
      ShiftLeftLoop(shift);
    }

    method ShiftLeftLoop(shift: nat)
      requires Valid()
      modifies pn
      ensures Valid() && pn[..] == L.ShiftLeft(old(pn[..]), shift)
    {
      var a := new Arith.Copy(this);
      ghost var x := pn[..];
      Clear();
      var k, s := shift / 32, shift % 32;
      LeftStart(x, k, s);
      var i := 0;
      while i < WIDTH
        invariant 0 <= i <= WIDTH && fresh(a.pn) && a.pn[..] == x && LeftParts(pn[..], x, k, s, i)
      {
        LeftStep(pn[..], x, k, s, i);
        ghost var now := pn[..];
        if i + k + 1 < WIDTH && s != 0 {
          pn[i + k + 1] := Or(pn[i + k + 1], Shr(a.pn[i], 32 - s));
        }
        if i + k < WIDTH {
          pn[i + k] := Or(pn[i + k], Low(Shl(a.pn[i], s), 32));
        }
        assert pn[..] == LeftRound(now, x, k, s, i);
        i := i + 1;
      }
      LeftEnd(pn[..], x, k, s);
      ShiftLeftExact(x, shift);
    }

    /** >>= */
    method ShiftRight(shift: nat)
      requires Valid()
      modifies pn
      ensures Valid() && Value() == Shr(old(Value()), shift)
    {
      ShiftRightExact(pn[..], shift);
      ShiftRightLoop(shift);
    }

    method ShiftRightLoop(shift: nat)
      requires Valid()
      modifies pn
      ensures Valid() && pn[..] == L.ShiftRight(old(pn[..]), shift)
    {
      var a := new Arith.Copy(this);
      ghost var x := pn[..];
      Clear();
      var k, s := shift / 32, shift % 32;
      RightStart(x, k, s);
      var i := 0;
      while i < WIDTH
        invariant 0 <= i <= WIDTH && fresh(a.pn) && a.pn[..] == x && RightParts(pn[..], x, k, s, i)
      {
        RightStep(pn[..], x, k, s, i);
        ghost var now := pn[..];
        if i - k - 1 >= 0 && s != 0 {
          pn[i - k - 1] := Or(pn[i - k - 1], Low(Shl(a.pn[i], 32 - s), 32));
        }
        if i - k >= 0 {
          pn[i - k] := Or(pn[i - k], Shr(a.pn[i], s));
        }
        assert pn[..] == RightRound(now, x, k, s, i);
        i := i + 1;
      }
      RightEnd(pn[..], x, k, s);
      ShiftRightExact(x, shift);
    }

    method CompareTo(b: Arith) returns (c: int)
      requires Valid() && b.Valid()
      ensures c == if Value() < b.Value() then -1 else if Value() > b.Value() then 1 else 0
    {
      CompareExact(pn[..], b.pn[..]);
      var i := WIDTH - 1;
      while i >= 0
        invariant -1 <= i < WIDTH && forall k :: i < k < WIDTH ==> pn[k] == b.pn[k]
      {
        CompareSkip(pn[..], b.pn[..], i);
        if pn[i] < b.pn[i] {
          return -1;
        }
        if pn[i] > b.pn[i] {
          return 1;
        }
        i := i - 1;
      }
      assert pn[..] == b.pn[..];
      return 0;
    }

    /** The position of the highest bit that is set, plus one. */
    method BitCount() returns (n: nat)
      requires Valid()
      ensures n == Bits(Value())
    {
      var pos := WIDTH - 1;
      while pos >= 0
        invariant -1 <= pos < WIDTH && forall k :: pos < k < WIDTH ==> pn[k] == 0
      {
        if pn[pos] != 0 {
          BitsAt(pn[..], pos);
          var bits := LimbBits(pn[pos]);
          return 32 * pos + bits;
        }
        pos := pos - 1;
      }
      ValTopZeros(pn[..], 0);
      return 0;
    }

    static method LimbBits(x: nat) returns (n: nat)
      requires 0 < x < BASE
      ensures n == Bits(x)
    {
      Pow2Of64();
      var nbits := 31;
      while nbits > 0
        invariant 0 <= nbits <= 31 && x < Pow2(nbits + 1)
      {
        TopBit(x, nbits);
        if Shr(x, nbits) % 2 == 1 {
          BitsUnique(x, nbits);
          return nbits + 1;
        }
        nbits := nbits - 1;
      }
      BitsUnique(x, 0);
      return 1;
    }

    /** /=: no result for a divisor of zero. */
    method Divide(b: Arith) returns (ok: bool)
      requires Valid() && b.Valid()
      modifies pn
      ensures Valid() && ok == (old(b.Value()) != 0)
      ensures Value() == if old(b.Value()) != 0 then old(Value()) / old(b.Value()) else 0
    {
      var div := new Arith.Copy(b);
      var num := new Arith.Copy(this);
      ghost var n, d := Value(), b.Value();
      Clear();
      ZerosValue(WIDTH);
      var numBits := num.BitCount();
      var divBits := div.BitCount();
      BitsRange(d);
      if divBits == 0 {
        return false;
      }
      if divBits > numBits {
        FewerBits(n, d);
        DivModUnique(n, 0, d, n);
        return true;
      }
      LongDivision(num, div, numBits - divBits);
      return true;
    }

    method LongDivision(num: Arith, div: Arith, top: nat)
      requires Valid() && num.Valid() && div.Valid() && pn != num.pn && pn != div.pn && num.pn != div.pn
      requires Value() == 0 && div.Value() > 0 && Bits(num.Value()) == Bits(div.Value()) + top
      modifies pn, num.pn, div.pn
      ensures Valid() && Value() == old(num.Value()) / old(div.Value())
      ensures num.Value() == old(num.Value()) % old(div.Value())
    {
      ghost var n, d := num.Value(), div.Value();
      AlignedFits(num.pn[..], div.pn[..], top);
      div.ShiftLeft(top);
      var shift: int := top;
      while shift >= 0
        invariant -1 <= shift <= top && Valid() && num.Valid() && div.Valid()
        invariant Dividing(n, d, Value(), num.Value(), shift + 1)
        invariant shift >= 0 ==> div.Value() == Shl(d, shift)
      {
        QuotientBit(num, div, shift, n, d);
        ShrShl(d, shift, 1);
        div.ShiftRight(1);
        shift := shift - 1;
      }
      DivideEnd(n, d, Value(), num.Value());
    }

    method QuotientBit(num: Arith, div: Arith, shift: nat, ghost n: nat, ghost d: nat)
      requires Valid() && num.Valid() && div.Valid() && pn != num.pn && pn != div.pn && num.pn != div.pn
      requires shift < 32 * WIDTH && Dividing(n, d, Value(), num.Value(), shift + 1) && div.Value() == Shl(d, shift)
      modifies pn, num.pn
      ensures Valid() && num.Valid() && Dividing(n, d, Value(), num.Value(), shift)
    {
      DivideStep(n, d, Value(), num.Value(), shift);
      var c := num.CompareTo(div);
      if c >= 0 {
        num.Subtract(div);
        ghost var now := pn[..];
        SetBitAt(now, shift);
        SetBitValue(now, shift);
        pn[shift / 32] := Or(pn[shift / 32], Shl(1, shift % 32));
        assert pn[..] == SetBit(now, shift);
      }
    }

    method GetLow64() returns (low: nat)
      requires Valid()
      ensures low < BASE * BASE && Value() == low + BASE * BASE * Val(pn[..][2..])
      ensures Value() < BASE ==> low == Value()
    {
      LowHalf(pn[..]);
      low := Or(pn[0], Shl(pn[1], 32));
    }

    method IsZero() returns (zero: bool)
      requires Valid()
      ensures zero == (Value() == 0)
    {
      var i := WIDTH - 1;
      while i >= 0
        invariant -1 <= i < WIDTH && forall k :: i < k < WIDTH ==> pn[k] == 0
      {
        if pn[i] != 0 {
          SomeLimb(pn[..], i);
          return false;
        }
        i := i - 1;
      }
      ValTopZeros(pn[..], 0);
      return true;
    }

    method SetCompact(nCompact: nat) returns (negative: bool, overflow: bool)
      requires pn.Length == WIDTH && nCompact < BASE
      modifies pn
      ensures Valid() && Target(Value(), negative, overflow) == K.SetCompact(nCompact)
    {
      var nSize := nCompact / 0x100_0000;
      var nWord := nCompact % 0x80_0000;
      WordSmall(nCompact);
      SmallWord(Word(nCompact));
      if nSize <= 3 {
        nWord := Shr(nWord, 8 * (3 - nSize));
        Assign(nWord);
      } else {
        Assign(nWord);
        ShiftLeft(8 * (nSize - 3));
      }
      negative := nWord != 0 && nCompact / 0x80_0000 % 2 == 1;
      overflow := nWord != 0 && (nSize > 34 || (nWord > 0xff && nSize > 33) || (nWord > 0xffff && nSize > 32));
    }

    method GetCompact(fNegative: bool) returns (nCompact: nat)
      requires Valid()
      ensures nCompact == K.GetCompact(Value(), fNegative)
    {
      var mantissa, nSize := Normalized();
      PackExact(mantissa, nSize, fNegative);
      nCompact := Pack(mantissa, nSize, fNegative);
    }

    /** The mantissa below the sign bit, and its exponent. */
    method Normalized() returns (nCompact: nat, nSize: nat)
      requires Valid()
      ensures nCompact == Kept(Value()) < 0x80_0000 && nSize == Exponent(Value()) < 256
    {
      ValBelow(pn[..]);
      MantissaBelow(Value());
      ExponentBelow(Value());
      var bits := BitCount();
      nSize := (bits + 7) / 8;
      nCompact := ThreeBytes(nSize);
      SignBit(nCompact);
      if nCompact / 0x80_0000 % 2 == 1 {
        nCompact := nCompact / 0x100;
        nSize := nSize + 1;
      }
    }

    /** The leading three bytes, as a 32-bit number. */
    method ThreeBytes(nSize: nat) returns (nCompact: nat)
      requires Valid() && nSize == (Bits(Value()) + 7) / 8
      ensures nCompact == Mantissa(Value())
    {
      MantissaBelow(Value());
      if nSize <= 3 {
        nCompact := LowBytes(8 * (3 - nSize));
      } else {
        nCompact := HighBytes(8 * (nSize - 3));
      }
    }

    method LowBytes(shift: nat) returns (nCompact: nat)
      requires Valid() && Shl(Value(), shift) < BASE
      ensures nCompact == Shl(Value(), shift)
    {
      ShlLess(Value(), shift);
      var low := GetLow64();
      nCompact := Shl(low, shift) % BASE;
    }

    method HighBytes(shift: nat) returns (nCompact: nat)
      requires Valid() && Shr(Value(), shift) < BASE
      ensures nCompact == Shr(Value(), shift)
    {
      var bn := new Arith.Copy(this);
      bn.ShiftRight(shift);
      var low := bn.GetLow64();
      nCompact := low % BASE;
    }

    /** -= */
    method Subtract(b: Arith)
      requires Valid() && b.Valid()
      modifies pn
      ensures Valid() && Value() == (old(Value()) + P(pn.Length) - old(b.Value())) % P(pn.Length)
      ensures old(b.Value()) <= old(Value()) ==> Value() == old(Value()) - old(b.Value())
    {
      SubtractExact(pn[..], b.pn[..]);
      SubtractLoops(b);
    }

    method SubtractLoops(b: Arith)
      requires Valid() && b.Valid()
      modifies pn
      ensures Valid() && pn[..] == AddLimbs(old(pn[..]), Negate(old(b.pn[..])), 0)
    {
      var n := b.NegatedLoops();
      AddLoop(n);
    }
  }

  // ----- comparison and the highest bit -----

  lemma {:induction false} CompareSkip(a: seq<nat>, b: seq<nat>, i: nat)
    requires |a| == |b| && i < |a| && forall k :: i < k < |a| ==> a[k] == b[k]
    ensures Compare(a, b) == if a[i] < b[i] then -1 else if a[i] > b[i] then 1 else Compare(a[..i], b[..i])
    decreases |a|
  {
    var n := |a| - 1;
    if i < n {
      CompareSkip(a[..n], b[..n], i);
      TakeTake(a, i, n);
      TakeTake(b, i, n);
    }
  }

  /** The number of bits of `a` when limb `pos` is its highest one that is not zero. */
  lemma {:induction false} BitsAt(a: seq<nat>, pos: nat)
    requires IsLimbs(a) && pos < |a| && a[pos] > 0 && forall k :: pos < k < |a| ==> a[k] == 0
    ensures Bits(Val(a)) == 32 * pos + Bits(a[pos])
  {
    ValTopZeros(a, pos + 1);
    var top := a[..pos + 1];
    ValSnoc(top);
    TakeTake(a, pos, pos + 1);
    BitsOfTop(a[..pos], a[pos]);
  }

  lemma {:induction false} TopBit(x: nat, n: nat)
    requires x < Pow2(n + 1)
    ensures Shr(x, n) % 2 == if Pow2(n) <= x then 1 else 0
  {
    ShrBelow(x, 1, n);
    Parts(x, n);
    LowBelow(x, n);
    if Pow2(n) <= x {
      if Shr(x, n) == 0 {
        ShlIsMul(0, n);
      }
    } else {
      LowAll(x, n);
    }
  }

  // ----- the compact form -----

  lemma {:induction false} LowHalf(a: seq<nat>)
    requires |a| >= 2 && IsLimbs(a)
    ensures Or(a[0], Shl(a[1], 32)) < BASE * BASE && Val(a) == Or(a[0], Shl(a[1], 32)) + BASE * BASE * Val(a[2..])
  {
    Pow2Of64();
    OrComm(a[0], Shl(a[1], 32));
    OrDisjoint(a[1], a[0], 32);
    ShlByLimb(a[1]);
    DropDrop(a, 1, 1);
    assert Val(a[1..]) == a[1] + BASE * Val(a[1..][1..]);
  }

  lemma {:induction false} SomeLimb(a: seq<nat>, i: nat)
    requires i < |a| && a[i] > 0
    ensures Val(a) > 0
  {
    if i > 0 {
      SomeLimb(a[1..], i - 1);
    }
  }

  lemma {:induction false} SmallWord(word: nat)
    requires word < 0x80_0000
    ensures word % P(WIDTH) == word
  {
    PIsPow2(WIDTH);
    Pow2Of24();
    Pow2Grows(24, 32 * WIDTH);
    Small(word, P(WIDTH));
  }

  lemma {:induction false} OrBit(m: nat, e: nat, k: nat)
    requires m < Pow2(k)
    ensures Or(Shl(2 * e, k) + m, Shl(1, k)) == Shl(2 * e, k) + m + Pow2(k)
  {
    if k > 0 {
      OrBit(m / 2, e, k - 1);
      var x, y := Shl(2 * e, k) + m, Shl(1, k);
      ShlIsMul(1, k);
      assert x / 2 == Shl(2 * e, k - 1) + m / 2 && y / 2 == Shl(1, k - 1);
    } else {
      assert Or(e, 0) == e;
    }
  }

  /** Bits below and from `k` on: bitwise or adds them. */
  lemma {:induction false} OrAdds(m: nat, e: nat, k: nat, p: nat)
    requires p == Pow2(k) && m < p
    ensures Or(m, e * p) == m + e * p
  {
    OrComm(m, Shl(e, k));
    OrDisjoint(e, m, k);
    ShlIsMul(e, k);
  }

  lemma {:induction false} OrAddsBit(m: nat, e: nat, k: nat, p: nat)
    requires p == Pow2(k) && m < p
    ensures Or(2 * e * p + m, p) == 2 * e * p + m + p
  {
    OrBit(m, e, k);
    ShlIsMul(2 * e, k);
    ShlIsMul(1, k);
  }

  lemma {:induction false} MantissaKept(m: nat, e: nat)
    requires m < 0x80_0000
    ensures (m + e * 0x100_0000) % 0x80_0000 == m
  {
    DivModUnique(m + e * 0x100_0000, 2 * e, 0x80_0000, m);
  }

  /** nCompact |= nSize << 24, then the sign bit if the mantissa is not zero. */
  function Pack(m: nat, e: nat, negative: bool): nat {
    var c := Or(m, e * 0x100_0000);
    Or(c, if negative && c % 0x80_0000 != 0 then 0x80_0000 else 0)
  }

  lemma {:induction false} PackExact(m: nat, e: nat, negative: bool)
    requires m < 0x80_0000
    ensures Pack(m, e, negative) == m + e * 0x100_0000 + if negative && m % 0x80_0000 != 0 then 0x80_0000 else 0
  {
    Pow2Of24();
    OrAdds(m, e, 24, 0x100_0000);
    OrAddsBit(m, e, 23, 0x80_0000);
    MantissaKept(m, e);
    OrComm(m + e * 0x100_0000, 0);
  }

  lemma {:induction false} SignBit(m: nat)
    requires m < 0x100_0000
    ensures m / 0x80_0000 % 2 == 1 <==> m >= 0x80_0000
  {
  }

  // ----- division -----

  /** Long division before quotient bit `next - 1` is chosen. */
  ghost predicate Dividing(n: nat, d: nat, q: nat, r: nat, next: nat) {
    n == q * d + r && r < Shl(d, next) && Low(q, next) == 0
  }

  lemma {:induction false} DivideStart(n: nat, d: nat, shift: nat)
    requires d > 0 && n > 0 && Bits(n) == Bits(d) + shift
    ensures Dividing(n, d, 0, n, shift + 1) && Shl(d, shift) < Pow2(Bits(n))
  {
    BitsRange(n);
    BitsRange(d);
    ShlBelow(d, Bits(d), shift);
    ShlIsMul(d, shift + 1);
    Pow2Add(Bits(d) - 1, shift + 1);
    var x, p := Pow2(Bits(d) - 1), Pow2(shift + 1);
    assert Bits(d) - 1 + (shift + 1) == Bits(n);
    AtLeast(d, x, p);
    LowZero(shift + 1);
  }

  lemma {:induction false} AtLeast(d: nat, x: nat, p: nat)
    requires x <= d
    ensures x * p <= d * p
  {
    if x < d && p > 0 {
      MulLess(x, d, p);
    }
  }

  lemma {:induction false} LowZero(k: nat)
    ensures Low(0, k) == 0
  {
    LowAll(0, k);
  }

  lemma {:induction false} LowOfSum(q: nat, k: nat)
    requires Low(q, k + 1) == 0
    ensures Low(q, k) == 0 && Low(q + Pow2(k), k) == 0
  {
    if k > 0 {
      LowOfSum(q / 2, k - 1);
      assert (q + Pow2(k)) / 2 == q / 2 + Pow2(k - 1);
    }
  }

  lemma {:induction false} DivideStep(n: nat, d: nat, q: nat, r: nat, shift: nat)
    requires Dividing(n, d, q, r, shift + 1)
    ensures if r >= Shl(d, shift) then Dividing(n, d, q + Pow2(shift), r - Shl(d, shift), shift)
      else Dividing(n, d, q, r, shift)
  {
    LowOfSum(q, shift);
    var p := Pow2(shift);
    ShlIsMul(d, shift);
    assert (q + p) * d == q * d + p * d;
    MulComm(p, d);
  }

  lemma {:induction false} DivideEnd(n: nat, d: nat, q: nat, r: nat)
    requires d > 0 && Dividing(n, d, q, r, 0)
    ensures q == n / d && r == n % d
  {
    DivModUnique(n, q, d, r);
  }

  /** Aligning the divisor with the number loses no bit of it. */
  lemma {:induction false} AlignedFits(num: seq<nat>, div: seq<nat>, top: nat)
    requires IsLimbs(num) && |num| == |div| && Val(div) > 0 && Bits(Val(num)) == Bits(Val(div)) + top
    ensures top < 32 * |num| && Dividing(Val(num), Val(div), 0, Val(num), top + 1)
    ensures Shl(Val(div), top) % P(|div|) == Shl(Val(div), top)
  {
    var n, d, m := Val(num), Val(div), P(|num|);
    BitsRange(n);
    BitsRange(d);
    DivideStart(n, d, top);
    ValBelow(num);
    PIsPow2(|num|);
    BitsBelow(n, 32 * |num|);
    Pow2Grows(Bits(n), 32 * |num|);
    Small(Shl(d, top), m);
  }

  /** A shorter number is smaller. */
  lemma {:induction false} FewerBits(n: nat, d: nat)
    requires Bits(n) < Bits(d)
    ensures n < d
  {
    BitsRange(n);
    BitsRange(d);
    Pow2Grows(Bits(n), Bits(d) - 1);
  }

  lemma {:induction false} SetBitAt(a: seq<nat>, bit: nat)
    requires bit < 32 * |a|
    ensures SetBit(a, bit) == a[bit / 32 := Or(a[bit / 32], Shl(1, bit % 32))]
  {
    if bit >= 32 {
      SetBitAt(a[1..], bit - 32);
      assert a == [a[0]] + a[1..];
    } else {
      assert a == [a[0]] + a[1..];
    }
  }

  lemma {:induction false} LowTwo(a: seq<nat>)
    requires |a| == 2
    ensures Val(a) == a[0] + BASE * a[1]
  {
    var b := a[1..];
    assert b[1..] == [];
    assert Val(b) == b[0] + BASE * Val([]);
  }

  // ----- the loops, limb by limb -----

  /** `now` after `i` rounds of += on `a` and `c`. */
  ghost predicate Adding(now: seq<nat>, a: seq<nat>, c: seq<nat>, i: nat, carry: nat) {
    && |now| == |a| == |c| && i <= |a| && now[i..] == a[i..]
    && now[..i] + AddLimbs(a[i..], c[i..], carry) == AddLimbs(a, c, 0)
  }

  lemma {:induction false} AddStart(a: seq<nat>, c: seq<nat>)
    requires |a| == |c|
    ensures Adding(a, a, c, 0, 0)
  {
    EmptyAppend(a);
    EmptyAppend(c);
    EmptyAppend(AddLimbs(a, c, 0));
  }

  lemma {:induction false} AddStep(now: seq<nat>, a: seq<nat>, c: seq<nat>, i: nat, carry: nat)
    requires Adding(now, a, c, i, carry) && i < |a|
    ensures now[i] == a[i]
    ensures var n := carry + a[i] + c[i]; Adding(now[i := n % BASE], a, c, i + 1, n / BASE)
  {
    assert now[i] == now[i..][0];
    var n := carry + a[i] + c[i];
    DropDrop(a, i, 1);
    DropDrop(c, i, 1);
    DropDrop(now, i, 1);
    Assoc(now[..i], [n % BASE], AddLimbs(a[i + 1..], c[i + 1..], n / BASE));
    NextPrefix(now, i, n % BASE);
  }

  lemma {:induction false} NextPrefix(now: seq<nat>, i: nat, x: nat)
    requires i < |now|
    ensures now[i := x][..i + 1] == now[..i] + [x] && now[i := x][i + 1..] == now[i + 1..]
  {
  }

  lemma {:induction false} AddEnd(now: seq<nat>, a: seq<nat>, c: seq<nat>, carry: nat)
    requires Adding(now, a, c, |a|, carry)
    ensures now == AddLimbs(a, c, 0) && IsLimbs(now)
  {
    TakeAll(now);
    EmptyAppend(now);
    assert a[|a|..] == [] && c[|a|..] == [];
  }

  ghost predicate Incrementing(now: seq<nat>, a: seq<nat>, i: nat) {
    |now| == |a| && i <= |a| && now[i..] == a[i..] && now[..i] + L.Increment(a[i..]) == L.Increment(a)
  }

  lemma {:induction false} IncrementStart(a: seq<nat>)
    ensures Incrementing(a, a, 0)
  {
    EmptyAppend(a);
    EmptyAppend(L.Increment(a));
  }

  lemma {:induction false} DecrementStart(a: seq<nat>)
    ensures Decrementing(a, a, 0)
  {
    EmptyAppend(a);
    EmptyAppend(L.Decrement(a));
  }

  lemma {:induction false} IncrementStep(now: seq<nat>, a: seq<nat>, i: nat)
    requires Incrementing(now, a, i) && IsLimbs(a)
    ensures if i == |a| then now == L.Increment(a)
      else now[i] == a[i] && if a[i] + 1 == BASE then Incrementing(now[i := 0], a, i + 1)
        else now[i := a[i] + 1] == L.Increment(a)
  {
    if i == |a| {
      TakeAll(now);
      EmptyAppend(now);
      assert a[|a|..] == [];
    } else {
      assert now[i] == now[i..][0];
      DropDrop(a, i, 1);
      DropDrop(now, i, 1);
      if a[i] + 1 < BASE {
        ReplaceAt(now, i, a[i] + 1);
      } else {
        NextPrefix(now, i, 0);
        Assoc(now[..i], [0], L.Increment(a[i + 1..]));
      }
    }
  }

  lemma {:induction false} ReplaceAt(now: seq<nat>, i: nat, x: nat)
    requires i < |now|
    ensures now[i := x] == now[..i] + ([x] + now[i + 1..])
  {
  }

  lemma {:induction false} IncrementDone(now: seq<nat>, a: seq<nat>)
    requires now == L.Increment(a) && IsLimbs(a)
    ensures IsLimbs(now)
  {
    IncrementExact(a);
  }

  lemma {:induction false} DecrementDone(now: seq<nat>, a: seq<nat>)
    requires now == L.Decrement(a) && IsLimbs(a)
    ensures IsLimbs(now)
  {
    DecrementExact(a);
  }

  ghost predicate Decrementing(now: seq<nat>, a: seq<nat>, i: nat) {
    |now| == |a| && i <= |a| && now[i..] == a[i..] && now[..i] + L.Decrement(a[i..]) == L.Decrement(a)
  }

  lemma {:induction false} DecrementStep(now: seq<nat>, a: seq<nat>, i: nat)
    requires Decrementing(now, a, i)
    ensures if i == |a| then now == L.Decrement(a)
      else now[i] == a[i] && if a[i] == 0 then Decrementing(now[i := BASE - 1], a, i + 1)
        else now[i := a[i] - 1] == L.Decrement(a)
  {
    if i == |a| {
      TakeAll(now);
      EmptyAppend(now);
      assert a[|a|..] == [];
    } else {
      assert now[i] == now[i..][0];
      DropDrop(a, i, 1);
      DropDrop(now, i, 1);
      NextPrefix(now, i, BASE - 1);
      Assoc(now[..i], [BASE - 1], L.Decrement(a[i + 1..]));
      if a[i] > 0 {
        assert now[i := a[i] - 1] == now[..i] + ([a[i] - 1] + now[i + 1..]);
      }
    }
  }

  /** The limbs below `i` of acc + x * b, while those from `i` on are still to come. */
  ghost predicate MulAdding(now: seq<nat>, acc: seq<nat>, x: nat, b: seq<nat>, i: nat, carry: nat) {
    && |now| == |acc| == |b| && i <= |acc|
    && now[..i] + AddMul(acc[i..], x, b[i..], carry) == AddMul(acc, x, b, 0)
  }

  lemma {:induction false} MulStart(acc: seq<nat>, x: nat, b: seq<nat>)
    requires |acc| == |b|
    ensures forall now: seq<nat> :: |now| == |acc| ==> MulAdding(now, acc, x, b, 0, 0)
  {
    EmptyAppend(acc);
    EmptyAppend(b);
    EmptyAppend(AddMul(acc, x, b, 0));
  }

  lemma {:induction false} MulStep(now: seq<nat>, acc: seq<nat>, x: nat, b: seq<nat>, i: nat, carry: nat)
    requires MulAdding(now, acc, x, b, i, carry) && i < |acc|
    ensures var n := carry + acc[i] + x * b[i]; MulAdding(now[i := n % BASE], acc, x, b, i + 1, n / BASE)
  {
    var n := carry + acc[i] + x * b[i];
    DropDrop(acc, i, 1);
    DropDrop(b, i, 1);
    Assoc(now[..i], [n % BASE], AddMul(acc[i + 1..], x, b[i + 1..], n / BASE));
    NextPrefix(now, i, n % BASE);
  }

  /** A small product computed in place: the limbs from `i` on are still those of `a`. */
  ghost predicate MulCarry(now: seq<nat>, zeros: seq<nat>, x: nat, a: seq<nat>, i: nat, carry: nat) {
    carry < BASE && MulAdding(now, zeros, x, a, i, carry) && now[i..] == a[i..]
  }

  lemma {:induction false} MulDigit(
    now: seq<nat>, zeros: seq<nat>, x: nat, a: seq<nat>, i: nat, carry: nat, n: nat, digit: nat, next: nat)
    requires i < |now| == |a| && IsLimbs(a) && x < BASE && zeros == Zeros(|a|) && MulCarry(now, zeros, x, a, i, carry)
    requires n == carry + x * now[i] && digit == n % BASE && next == n / BASE
    ensures MulCarry(now[i := digit], zeros, x, a, i + 1, next)
  {
    MulStep(now, zeros, x, a, i, carry);
    assert now[i] == now[i..][0] == a[i];
    NoOverflow(carry, 0, x, a[i]);
    DropDrop(now, i, 1);
    DropDrop(a, i, 1);
    NextPrefix(now, i, digit);
  }

  /** One limb of the inner loop of *=, on the limbs from `j` on of `now`. */
  lemma {:induction false} MulIntoDigit(now: seq<nat>, acc: seq<nat>, x: nat, c: seq<nat>, i: nat, j: nat, carry: nat,
    y: nat, n: nat, digit: nat, next: nat)
    requires i + j < |now| && |acc| == |now| - j && now[j + i..] == acc[i..] && MulAdding(now[j..], acc, x, c, i, carry)
    requires carry < BASE && x < BASE && now[i + j] < BASE && y == c[i] < BASE
    requires n == carry + now[i + j] + x * y && digit == n % BASE && next == n / BASE
    ensures next < BASE && n < BASE * BASE
    ensures var r := now[i + j := digit];
      && r[..j] == now[..j] && r[j + i + 1..] == acc[i + 1..] && MulAdding(r[j..], acc, x, c, i + 1, next)
  {
    NoOverflow(carry, now[i + j], x, y);
    assert now[j + i] == now[j + i..][0] == acc[i];
    MulStep(now[j..], acc, x, c, i, carry);
    DropDrop(now, j + i, 1);
    DropDrop(acc, i, 1);
    UpdateInside(now, i, j, digit);
  }

  lemma {:induction false} MulEnd(now: seq<nat>, acc: seq<nat>, x: nat, b: seq<nat>, carry: nat)
    requires MulAdding(now, acc, x, b, |acc|, carry)
    ensures now == AddMul(acc, x, b, 0)
  {
    TakeAll(now);
    EmptyAppend(now);
    assert acc[|acc|..] == [] && b[|acc|..] == [];
  }

  lemma {:induction false} UpdateInside(now: seq<nat>, i: nat, j: nat, x: nat)
    requires i + j < |now|
    ensures var next := now[i + j := x];
      next[..j] == now[..j] && next[j..] == now[j..][i := x] && next[j + i + 1..] == now[j + i + 1..]
  {
  }

  /** `now` after `j` rounds of the outer loop of *=. */
  ghost predicate Multiplying(now: seq<nat>, p: seq<nat>, b: seq<nat>, j: nat) {
    && |now| == |p| == |b| && j <= |p|
    && now[..j] + MulAll(now[j..], p[j..], b[..|b| - j]) == MulAll(Zeros(|p|), p, b)
  }

  lemma {:induction false} MultiplyStart(p: seq<nat>, b: seq<nat>)
    requires |p| == |b|
    ensures Multiplying(Zeros(|p|), p, b, 0)
  {
    EmptyAppend(Zeros(|p|));
    EmptyAppend(p);
    TakeAll(b);
    EmptyAppend(MulAll(Zeros(|p|), p, b));
  }

  lemma {:induction false} MultiplyStep(now: seq<nat>, p: seq<nat>, b: seq<nat>, j: nat)
    requires Multiplying(now, p, b, j) && j < |p|
    ensures Multiplying(now[..j] + AddMul(now[j..], p[j], b[..|b| - j], 0), p, b, j + 1)
  {
    var n := AddMul(now[j..], p[j], b[..|b| - j], 0);
    var next := now[..j] + n;
    DropDrop(p, j, 1);
    TakeTake(b, |b| - j - 1, |b| - j);
    assert next[..j + 1] == now[..j] + [n[0]] && next[j + 1..] == n[1..];
    Assoc(now[..j], [n[0]], MulAll(n[1..], p[j + 1..], b[..|b| - j - 1]));
  }

  lemma {:induction false} MultiplyEnd(now: seq<nat>, p: seq<nat>, b: seq<nat>)
    requires Multiplying(now, p, b, |p|)
    ensures now == MulAll(Zeros(|p|), p, b) && IsLimbs(now)
  {
    TakeAll(now);
    EmptyAppend(now);
    assert now[|p|..] == [] && p[|p|..] == [] && b[..0] == [];
    MulAllLimbs(Zeros(|p|), p, b);
  }

  // ----- the shift loops -----

  /** What limb `t` of a left shift has received after `i` rounds: bits of limb t - k - 1, then of limb t - k. */
  function LeftPart(a: seq<nat>, k: nat, s: nat, i: nat, t: nat): nat
    requires i <= |a| && s < 32
  {
    Or(if s != 0 && 0 <= t - k - 1 < i then Shr(a[t - k - 1], 32 - s) else 0,
       if 0 <= t - k < i then Low(Shl(a[t - k], s), 32) else 0)
  }

  ghost predicate LeftParts(now: seq<nat>, a: seq<nat>, k: nat, s: nat, i: nat)
    requires s < 32
  {
    |now| == |a| && i <= |a| && forall t {:trigger now[t]} :: 0 <= t < |a| ==> now[t] == LeftPart(a, k, s, i, t)
  }

  function LeftRound(now: seq<nat>, a: seq<nat>, k: nat, s: nat, i: nat): seq<nat>
    requires i < |a| == |now| && s < 32
  {
    var n1 := if i + k + 1 < |a| && s != 0 then now[i + k + 1 := Or(now[i + k + 1], Shr(a[i], 32 - s))] else now;
    if i + k < |a| then n1[i + k := Or(n1[i + k], Low(Shl(a[i], s), 32))] else n1
  }

  lemma {:induction false} LeftStart(a: seq<nat>, k: nat, s: nat)
    requires s < 32
    ensures LeftParts(Zeros(|a|), a, k, s, 0)
  {
  }

  lemma {:induction false} LeftStep(now: seq<nat>, a: seq<nat>, k: nat, s: nat, i: nat)
    requires s < 32 && LeftParts(now, a, k, s, i) && i < |a|
    ensures LeftParts(LeftRound(now, a, k, s, i), a, k, s, i + 1)
  {
  }

  lemma {:induction false} ShlAt(x: seq<nat>, s: nat, carry: nat, t: nat)
    requires s < 32 && t < |x|
    ensures ShlLimbs(x, s, carry)[t] == Or(if t == 0 then carry else Shr(x[t - 1], 32 - s), Low(Shl(x[t], s), 32))
  {
    if t > 0 {
      ShlAt(x[1..], s, Shr(x[0], 32 - s), t - 1);
    }
  }

  lemma {:induction false} ZeroShifted(k: nat)
    ensures Shr(0, k) == 0 && Low(Shl(0, k), 32) == 0
  {
    LowAll(0, k);
    ShlIsMul(0, k);
    LowAll(0, 32);
  }

  /** A whole limb shifts out of a limb. */
  lemma {:induction false} WholeLimb(x: nat)
    requires x < BASE
    ensures Shr(x, 32) == 0
  {
    Pow2Of64();
    LowAll(x, 32);
  }

  lemma {:induction false} UpAt(a: seq<nat>, k: nat, t: nat)
    requires t < |a|
    ensures Up(a, k)[t] == if t >= k then a[t - k] else 0
  {
  }

  lemma {:induction false} LeftAt(a: seq<nat>, k: nat, s: nat, t: nat)
    requires s < 32 && t < |a| && IsLimbs(a)
    ensures LeftPart(a, k, s, |a|, t) == ShlLimbs(Up(a, k), s, 0)[t]
  {
    var x := Up(a, k);
    ShlAt(x, s, 0, t);
    ZeroShifted(s);
    ZeroShifted(32 - s);
    UpAt(a, k, t);
    if t > 0 {
      UpAt(a, k, t - 1);
      if s == 0 && t - 1 >= k {
        WholeLimb(a[t - 1 - k]);
      }
    }
  }

  lemma {:induction false} LeftEnd(now: seq<nat>, a: seq<nat>, k: nat, s: nat)
    requires s < 32 && LeftParts(now, a, k, s, |a|) && IsLimbs(a)
    ensures now == ShlLimbs(Up(a, k), s, 0)
  {
    forall t | 0 <= t < |a|
      ensures now[t] == ShlLimbs(Up(a, k), s, 0)[t]
    {
      LeftAt(a, k, s, t);
    }
  }

  /** What limb `t` of a right shift has received after `i` rounds: bits of limb t + k, then of limb t + k + 1. */
  function RightPart(a: seq<nat>, k: nat, s: nat, i: nat, t: nat): nat
    requires i <= |a| && s < 32
  {
    Or(if t + k < i then Shr(a[t + k], s) else 0, if s != 0 && t + k + 1 < i then Low(Shl(a[t + k + 1], 32 - s), 32)
      else 0)
  }

  ghost predicate RightParts(now: seq<nat>, a: seq<nat>, k: nat, s: nat, i: nat)
    requires s < 32
  {
    |now| == |a| && i <= |a| && forall t {:trigger now[t]} :: 0 <= t < |a| ==> now[t] == RightPart(a, k, s, i, t)
  }

  function RightRound(now: seq<nat>, a: seq<nat>, k: nat, s: nat, i: nat): seq<nat>
    requires i < |a| == |now| && s < 32
  {
    var n1 := if i - k - 1 >= 0 && s != 0 then now[i - k - 1 := Or(now[i - k - 1], Low(Shl(a[i], 32 - s), 32))]
      else now;
    if i - k >= 0 then n1[i - k := Or(n1[i - k], Shr(a[i], s))] else n1
  }

  lemma {:induction false} RightStart(a: seq<nat>, k: nat, s: nat)
    requires s < 32
    ensures RightParts(Zeros(|a|), a, k, s, 0)
  {
  }

  lemma {:induction false} RightStep(now: seq<nat>, a: seq<nat>, k: nat, s: nat, i: nat)
    requires s < 32 && RightParts(now, a, k, s, i) && i < |a|
    ensures RightParts(RightRound(now, a, k, s, i), a, k, s, i + 1)
  {
  }

  lemma {:induction false} ShrAt(x: seq<nat>, s: nat, t: nat)
    requires s < 32 && t < |x|
    ensures ShrLimbs(x, s)[t] == Or(Shr(x[t], s), if t + 1 < |x| && s != 0 then Low(Shl(x[t + 1], 32 - s), 32) else 0)
  {
    if t > 0 {
      ShrAt(x[1..], s, t - 1);
    }
  }

  lemma {:induction false} RightAt(a: seq<nat>, k: nat, s: nat, t: nat)
    requires s < 32 && t < |a|
    ensures RightPart(a, k, s, |a|, t) == ShrLimbs(Down(a, k), s)[t]
  {
    var x := Down(a, k);
    ShrAt(x, s, t);
    ZeroShifted(s);
    ZeroShifted(32 - s);
    assert x[t] == if t + k < |a| then a[t + k] else 0;
    assert t + 1 < |a| ==> x[t + 1] == if t + 1 + k < |a| then a[t + 1 + k] else 0;
  }

  lemma {:induction false} RightEnd(now: seq<nat>, a: seq<nat>, k: nat, s: nat)
    requires s < 32 && RightParts(now, a, k, s, |a|)
    ensures now == ShrLimbs(Down(a, k), s)
  {
    forall t | 0 <= t < |a|
      ensures now[t] == ShrLimbs(Down(a, k), s)[t]
    {
      RightAt(a, k, s, t);
    }
  }

  // ----- the proof of work of a block -----

  /** ~target / (target + 1) */
  method ComplementQuotient(bnTarget: Arith) returns (quotient: Arith)
    requires bnTarget.Valid() && bnTarget.Value() + 1 < P(bnTarget.pn.Length)
    ensures fresh(quotient) && fresh(quotient.pn) && quotient.Valid()
    ensures quotient.Value() == (P(bnTarget.pn.Length) - 1 - bnTarget.Value()) / (bnTarget.Value() + 1)
  {
    quotient := bnTarget.Complemented();
    var divisor := Successor(bnTarget);
    ghost var t, p := bnTarget.Value(), P(bnTarget.pn.Length);
    assert quotient.Value() == p - 1 - t && divisor.Value() == t + 1;
    var ok := quotient.Divide(divisor);
  }

  method Successor(bnTarget: Arith) returns (divisor: Arith)
    requires bnTarget.Valid() && bnTarget.Value() + 1 < P(bnTarget.pn.Length)
    ensures fresh(divisor) && fresh(divisor.pn) && divisor.Valid() && divisor.Value() == bnTarget.Value() + 1
  {
    divisor := new Arith.Copy(bnTarget);
    divisor.AddSmall(1);
    Small(bnTarget.Value() + 1, P(bnTarget.pn.Length));
  }

  /** The work a block of this target adds, weighted by its algorithm. */
  method GetBlockProof(nBits: nat, weight: nat) returns (proof: Arith)
    requires nBits < BASE && weight < BASE
    ensures fresh(proof) && fresh(proof.pn) && proof.Valid() && proof.Value() == BlockProof(nBits, weight, WIDTH)
  {
    var bnTarget := new Arith(0);
    var fNegative, fOverflow := bnTarget.SetCompact(nBits);
    ghost var t, n := bnTarget.Value(), bnTarget.pn.Length;
    var zero := bnTarget.IsZero();
    if fNegative || fOverflow || zero {
      proof := new Arith(0);
      return;
    }
    TargetBelow(nBits);
    proof := ComplementQuotient(bnTarget);
    BlockProofParts(nBits, weight, n, t, proof.Value());
    proof.MulSmall(weight);
    proof.AddSmall(1);
  }

  lemma {:induction false} BlockProofParts(nBits: nat, weight: nat, n: nat, t: nat, q: nat)
    requires nBits < BASE && n == WIDTH && K.SetCompact(nBits) == Target(t, false, false) && t != 0
    requires t + 1 < P(n) && q == (P(n) - 1 - t) / (t + 1)
    ensures BlockProof(nBits, weight, n) == (weight * q % P(n) + 1) % P(n)
  {
    Small(t + 1, P(n));
  }
}
