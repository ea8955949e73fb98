/** The digit loops of base58.cpp, in place on a buffer. */
module Base58Codec {
  import opened Collections
  import opened Numbers
  import opened Base58
  import B = Base58

  /** The low `i` digits after `i` rounds, with the carry: the old ones times `mul` plus what was added. */
  lemma {:induction false} CarryStep(
    low: seq<nat>, oldLow: seq<nat>, x: nat, base: nat, mul: nat, carry: nat, added: nat)
    requires |low| == |oldLow| && base > 0
    requires B.Value(low, base) + carry * Power(base, |low|) == mul * B.Value(oldLow, base) + added
    ensures var sum := carry + mul * x;
      B.Value([sum % base] + low, base) + sum / base * Power(base, |low| + 1) ==
        mul * B.Value([x] + oldLow, base) + added
  {
    var sum, p := carry + mul * x, Power(base, |low|);
    B.ValueCons(sum % base, low, base);
    B.ValueCons(x, oldLow, base);
    Division(sum, base);
    Carried(sum / base, base, sum % base, p);
    Distribute(carry, mul, x, p, B.Value(oldLow, base));
  }

  /** (q * b + r) * p, split between the carry and the digit. */
  lemma {:induction false} Carried(q: nat, b: nat, r: nat, p: nat)
    ensures r * p + q * (b * p) == (q * b + r) * p
  {
    Expand(q, b, r, p);
  }

  lemma {:induction false} Distribute(carry: nat, mul: nat, x: nat, p: nat, v: nat)
    ensures (carry + mul * x) * p + mul * v == carry * p + mul * (x * p + v)
  {
    assert (carry + mul * x) * p == carry * p + mul * x * p;
    MulAssoc(mul, x, p);
    assert mul * (x * p + v) == mul * (x * p) + mul * v;
  }

  /** The buffer holds zeros above its last `length` digits. */
  ghost predicate Short(d: seq<nat>, length: nat) {
    length <= |d| && forall k :: 0 <= k < |d| - length ==> d[k] == 0
  }

  lemma {:induction false} ShortValue(d: seq<nat>, length: nat, base: nat)
    requires Short(d, length)
    ensures B.Value(d, base) == B.Value(d[|d| - length..], base)
  {
    assert d == Zeros(|d| - length) + d[|d| - length..];
    B.ValueZeros(|d| - length, d[|d| - length..], base);
  }

  /** The buffer `now` after `i` rounds over the digits `d`. */
  ghost predicate Progress(now: seq<nat>, d: seq<nat>, i: nat, base: nat, mul: nat, carry: nat, added: nat) {
    && |now| == |d| && i <= |d| && InBase(now, base)
    && (forall k :: 0 <= k < |d| - i ==> now[k] == d[k])
    && B.Value(now[|d| - i..], base) + carry * Power(base, i) == mul * B.Value(d[|d| - i..], base) + added
  }

  lemma {:induction false} ProgressStart(d: seq<nat>, base: nat, mul: nat, added: nat)
    requires InBase(d, base)
    ensures Progress(d, d, 0, base, mul, added, added)
  {
    assert d[|d|..] == [];
  }

  lemma {:induction false} ProgressStep(
    now: seq<nat>, d: seq<nat>, i: nat, base: nat, mul: nat, carry: nat, added: nat, sum: nat)
    requires base > 0 && Progress(now, d, i, base, mul, carry, added) && i < |d|
    requires sum == carry + mul * now[|d| - 1 - i]
    ensures Progress(now[|d| - 1 - i := sum % base], d, i + 1, base, mul, sum / base, added)
  {
    var at := |d| - 1 - i;
    var next := now[at := sum % base];
    CarryStep(now[|d| - i..], d[|d| - i..], d[at], base, mul, carry, added);
    assert next[at..] == [sum % base] + now[|d| - i..];
    assert d[at..] == [d[at]] + d[|d| - i..];
  }

  /** When the loop ends there is no carry. */
  lemma {:induction false} ProgressEnd(
    now: seq<nat>, d: seq<nat>, i: nat, base: nat, mul: nat, carry: nat, added: nat, length: nat)
    requires base > 1 && Progress(now, d, i, base, mul, carry, added) && Short(d, length)
    requires (carry == 0 && i >= length) || i == |d|
    requires mul * B.Value(d, base) + added < Power(base, |d|)
    ensures carry == 0 && Short(now, i) && B.Value(now, base) == mul * B.Value(d, base) + added
  {
    if i == |d| {
      EmptyAppend(now);
      EmptyAppend(d);
      if carry > 0 {
        MulAway(carry, Power(base, i));
      }
    } else {
      ShortValue(d, i, base);
      ShortValue(now, i, base);
    }
  }

  /** One round: update a digit and compute the next carry. */
  method UpdateDigit(buf: array<nat>, at: nat, base: nat, mul: nat, carry: nat) returns (next: nat, ghost sum: nat)
    requires at < buf.Length && base > 0
    modifies buf
    ensures sum == carry + mul * old(buf[at]) && next == sum / base && buf[..] == old(buf[..])[at := sum % base]
  {
    var x := carry + mul * buf[at];
    sum := x;
    buf[at] := x % base;
    next := x / base;
  }

  /**
   * "b = b * mul + added", digit by digit from the low end, while there is a carry or a digit left.
   * The final assert is the source's.
   */
  method MulAdd(buf: array<nat>, base: nat, mul: nat, added: nat, length: nat) returns (i: nat)
    requires base > 1 && InBase(buf[..], base) && Short(buf[..], length)
    requires mul * B.Value(buf[..], base) + added < Power(base, buf.Length)
    modifies buf
    ensures InBase(buf[..], base) && Short(buf[..], i)
    ensures B.Value(buf[..], base) == mul * B.Value(old(buf[..]), base) + added
  {
    var carry: nat := added;
    i := 0;
    ghost var d := buf[..];
    ProgressStart(d, base, mul, added);
    while (carry != 0 || i < length) && i < buf.Length
      invariant i <= buf.Length && Progress(buf[..], d, i, base, mul, carry, added)
    {
      ghost var now, before := buf[..], carry;
      ghost var sum;
      carry, sum := UpdateDigit(buf, buf.Length - 1 - i, base, mul, carry);
      ProgressStep(now, d, i, base, mul, before, added, sum);
      i := i + 1;
    }
    ProgressEnd(buf[..], d, i, base, mul, carry, added, length);
    assert carry == 0;
  }

  // ----- encoding -----

  method CountZeros(d: seq<nat>) returns (n: nat)
    ensures n == LeadingZeros(d)
  {
    n := 0;
    EmptyAppend(d);
    while n < |d| && d[n] == 0
      invariant n <= |d| && n + LeadingZeros(d[n..]) == LeadingZeros(d)
    {
      DropDrop(d, n, 1);
      n := n + 1;
    }
  }

  /** Adding the next byte or digit stays within the buffer. */
  lemma {:induction false} NextFits(w: seq<nat>, k: nat, mul: nat, base: nat, size: nat)
    requires InBase(w, mul) && mul > 0 && base > 0 && k < |w| && Power(mul, |w|) <= Power(base, size)
    ensures B.Value(w[..k + 1], mul) == mul * B.Value(w[..k], mul) + w[k] < Power(base, size)
  {
    assert w[..k + 1][..k] == w[..k];
    MulComm(B.Value(w[..k], mul), mul);
    B.ValueBelow(w[..k + 1], mul);
    PowerGrows(mul, k + 1, |w|);
  }

  lemma {:induction false} ZerosBuffer(n: nat, base: nat)
    ensures B.Value(Zeros(n), base) == 0
  {
    EmptyAppend(Zeros(n));
    B.ValueZeros(n, [], base);
  }

  /** Write the number with the digits `w` in base `mul` into a buffer of digits in base `base`. */
  method Convert(w: seq<nat>, mul: nat, base: nat, size: nat) returns (buf: array<nat>, length: nat)
    requires InBase(w, mul) && mul > 0 && base > 1 && Power(mul, |w|) <= Power(base, size)
    ensures fresh(buf) && buf.Length == size && InBase(buf[..], base) && Short(buf[..], length)
    ensures B.Value(buf[..], base) == B.Value(w, mul)
  {
    buf := new nat[size](_ => 0);
    length := 0;
    assert buf[..] == Zeros(size);
    ZerosBuffer(size, base);
    var k := 0;
    while k < |w|
      invariant 0 <= k <= |w| && InBase(buf[..], base) && Short(buf[..], length)
      invariant B.Value(buf[..], base) == B.Value(w[..k], mul)
    {
      NextFits(w, k, mul, base, size);
      length := MulAdd(buf, base, mul, w[k], length);
      k := k + 1;
    }
    TakeAll(w);
  }

  /** Skip the leading zeros of the buffer, of which those above `length` are known. */
  method SkipZeros(buf: array<nat>, length: nat) returns (it: nat)
    requires Short(buf[..], length)
    ensures it == LeadingZeros(buf[..])
  {
    it := buf.Length - length;
    while it < buf.Length && buf[it] == 0
      invariant it <= buf.Length && forall k :: 0 <= k < it ==> buf[k] == 0
    {
      it := it + 1;
    }
    assert buf[..] == Zeros(it) + buf[it..];
    ZerosLead(it, buf[it..]);
  }

  /** Translate the digits from `start` on. */
  method AppendText(prefix: string, buf: array<nat>, start: nat) returns (str: string)
    requires start <= buf.Length
    ensures str == prefix + Text(buf[start..])
  {
    str := prefix;
    var it := start;
    while it < buf.Length
      invariant start <= it <= buf.Length && str == prefix + Text(buf[start..it])
    {
      TextNext(prefix, buf[start..it], buf[it]);
      assert buf[start..it + 1] == buf[start..it] + [buf[it]];
      str := str + [Alphabet(buf[it])];
      it := it + 1;
    }
    assert buf[start..buf.Length] == buf[start..];
  }

  lemma {:induction false} TextNext(prefix: string, digits: seq<nat>, d: nat)
    ensures prefix + Text(digits) + [Alphabet(d)] == prefix + Text(digits + [d])
  {
  }

  /** The digits of the number in a new base, without leading zeros. */
  method Reduce(w: seq<nat>, mul: nat, base: nat, size: nat) returns (buf: array<nat>, it: nat)
    requires InBase(w, mul) && mul > 0 && base > 1 && Power(mul, |w|) <= Power(base, size)
    ensures fresh(buf) && it <= buf.Length && buf[it..] == B.Digits(B.Value(w, mul), base)
  {
    var length;
    buf, length := Convert(w, mul, base, size);
    it := SkipZeros(buf, length);
    StripZeros(buf[..], base);
    assert buf[it..] == buf[..][it..];
  }

  method EncodeBase58(v: seq<nat>) returns (str: string)
    requires InBase(v, 256)
    ensures str == B.EncodeBase58(v)
  {
    var zeroes := CountZeros(v);
    var w := v[zeroes..];
    EncodeFits(|w|);
    var b58, it := Reduce(w, 256, 58, EncodedSize(|w|));
    str := AppendText(B.Ones(zeroes), b58, it);
  }

  // ----- decoding -----

  method SkipBlanks(s: string) returns (r: string)
    ensures r == SkipSpaces(s)
  {
    r := s;
    while r != [] && IsSpace(r[0])
      invariant SkipSpaces(r) == SkipSpaces(s)
      decreases |r|
    {
      r := r[1..];
    }
  }

  method SkipOnes(s: string) returns (n: nat)
    ensures n == CountOnes(s)
  {
    n := 0;
    EmptyAppend(s);
    while n < |s| && s[n] == '1'
      invariant n <= |s| && n + CountOnes(s[n..]) == CountOnes(s)
    {
      DropDrop(s, n, 1);
      n := n + 1;
    }
  }

  lemma {:induction false} WordGrows(s: string, k: nat)
    requires k <= |s| && forall i :: 0 <= i < k ==> !IsSpace(s[i])
    ensures k <= |Word(s)| && (k == |s| || IsSpace(s[k]) ==> |Word(s)| == k)
  {
    if k > 0 {
      WordGrows(s[1..], k - 1);
    }
  }

  /** Appending a digit stays within a buffer that is large enough for the whole word. */
  lemma {:induction false} DigitFits(digits: seq<nat>, x: nat, mul: nat, n: nat, limit: nat)
    requires mul > 0 && InBase(digits, mul) && x < mul && |digits| < n && Power(mul, n) <= limit
    ensures InBase(digits + [x], mul)
    ensures B.Value(digits + [x], mul) == mul * B.Value(digits, mul) + x < limit
  {
    var next := digits + [x];
    assert next[..|digits|] == digits;
    MulComm(B.Value(digits, mul), mul);
    B.ValueBelow(next, mul);
    PowerGrows(mul, |next|, n);
  }

  /** The characters read so far are digits, and no spaces. */
  ghost predicate ReadSoFar(s: string, digits: seq<nat>) {
    |digits| <= |s| && InBase(digits, 58)
    && forall i :: 0 <= i < |digits| ==> !IsSpace(s[i]) && MapBase58(s[i]) == digits[i]
  }

  lemma {:induction false} WordRead(s: string, digits: seq<nat>)
    requires ReadSoFar(s, digits) && (|digits| == |s| || IsSpace(s[|digits|]))
    ensures IsText(Word(s)) && digits == DigitsOf(Word(s))
  {
    WordGrows(s, |digits|);
    assert Word(s) == s[..|digits|];
  }

  lemma {:induction false} WordBroken(s: string, digits: seq<nat>)
    requires ReadSoFar(s, digits) && |digits| < |s| && !IsSpace(s[|digits|]) && MapBase58(s[|digits|]) == -1
    ensures !IsText(Word(s))
  {
    var k := |digits|;
    WordGrows(s, k + 1);
    assert Word(s)[k] == s[..|Word(s)|][k] == s[k];
  }

  /** The buffer holds the number whose digits in base 58 have been read. */
  ghost predicate Decoding(s: string, digits: seq<nat>, b256: seq<nat>, length: nat) {
    ReadSoFar(s, digits) && InBase(b256, 256) && Short(b256, length) && B.Value(b256, 256) == B.Value(digits, 58)
  }

  /** "b256 = b256 * 58 + ch" for the next character; `ok` is false if it is no digit. */
  method ConvertDigit(s: string, k: nat, b256: array<nat>, length0: nat, ghost digits: seq<nat>)
    returns (ok: bool, length: nat, ghost next: seq<nat>)
    requires k < |s| && k == |digits| && !IsSpace(s[k]) && Decoding(s, digits, b256[..], length0)
    requires Power(58, |s|) <= Power(256, b256.Length)
    modifies b256
    ensures if ok then |next| == k + 1 && Decoding(s, next, b256[..], length) else !IsText(Word(s))
  {
    var carry := MapBase58(s[k]);
    if carry == -1 {
      WordBroken(s, digits);
      return false, length0, digits;
    }
    MapRoundTrip(s[k]);
    next := digits + [carry];
    DigitFits(digits, carry, 58, |s|, Power(256, b256.Length));
    length := MulAdd(b256, 256, 58, carry, length0);
    ok := true;
  }

  /** All characters up to a space. */
  method ConvertWord(s: string, size: nat) returns (ok: bool, b256: array<nat>, length: nat, k: nat)
    requires Power(58, |s|) <= Power(256, size)
    ensures fresh(b256) && ok == IsText(Word(s))
    ensures ok ==> k == |Word(s)| && InBase(b256[..], 256) && Short(b256[..], length)
    ensures ok ==> B.Value(b256[..], 256) == B.Value(DigitsOf(Word(s)), 58)
  {
    b256 := new nat[size](_ => 0);
    length, k := 0, 0;
    assert b256[..] == Zeros(size);
    ZerosBuffer(size, 256);
    ghost var digits: seq<nat> := [];
    while k < |s| && !IsSpace(s[k])
      invariant k == |digits| <= |s| && Decoding(s, digits, b256[..], length)
    {
      ok, length, digits := ConvertDigit(s, k, b256, length, digits);
      if !ok {
        return;
      }
      k := k + 1;
    }
    WordRead(s, digits);
    ok := true;
  }

  /** DecodeBase58 on the characters before the NUL. */
  method DecodeBase58(s: string) returns (r: Option<seq<nat>>)
    ensures r == DecodeTrimmed(SkipSpaces(s))
  {
    var t := SkipBlanks(s);
    var zeroes := SkipOnes(t);
    var rest := t[zeroes..];
    DecodeFits(|rest|);
    var ok, b256, length, k := ConvertWord(rest, DecodedSize(|rest|));
    if !ok {
      return None;
    }
    DropDrop(t, zeroes, k);
    var tail := SkipBlanks(rest[k..]);
    if tail != [] {
      return None;
    }
    var bytes := Stripped(b256, length);
    return Some(Zeros(zeroes) + bytes);
  }

  /** The bytes of the buffer without its leading zeros. */
  method Stripped(b256: array<nat>, length: nat) returns (bytes: seq<nat>)
    requires InBase(b256[..], 256) && Short(b256[..], length)
    ensures bytes == B.Digits(B.Value(b256[..], 256), 256)
  {
    var it := SkipZeros(b256, length);
    StripZeros(b256[..], 256);
    bytes := b256[..][it..];
  }
}
