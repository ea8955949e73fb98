/** Bech32 strings (bech32.cpp; section "Bech32" of BIP 173). */
module Bech32 {
  import opened Collections
  import opened Numbers
  import opened Shifts

  // ----- the checksum -----

  /** Bit `k` of `x`. */
  predicate Bit(x: nat, k: nat) {
    Shr(x, k) % 2 == 1
  }

  /** {2^k}k(x) if bit `k` is set. */
  function Term(c0: nat, k: nat, g: nat): nat {
    if Bit(c0, k) then g else 0
  }

  /** What the five top bits add. */
  function Reduction(c0: nat): nat {
    Xor(Term(c0, 0, 0x3b6a57b2),
        Xor(Term(c0, 1, 0x26508e6d),
          Xor(Term(c0, 2, 0x1ea119fa), Xor(Term(c0, 3, 0x3d4233dd), Term(c0, 4, 0x2a1462b3)))))
  }

  /** One round of PolyMod. */
  function Step(c: nat, v: nat): nat {
    Xor(Xor(Shl(Low(c, 25), 5), v), Reduction(Shr(c, 25)))
  }

  /** PolyMod continued from the state `c`. */
  function Fold(c: nat, v: seq<nat>): nat
    decreases |v|
  {
    if v == [] then c else Fold(Step(c, v[0]), v[1..])
  }

  function PolyMod(v: seq<nat>): nat {
    Fold(1, v)
  }

  lemma {:induction false} TermLinear(a: nat, b: nat, k: nat, g: nat)
    ensures Term(Xor(a, b), k, g) == Xor(Term(a, k, g), Term(b, k, g))
  {
    XorParts(a, b, k);
    XorParity(Shr(a, k), Shr(b, k));
    XorZero(g);
    XorZero(0);
  }

  lemma {:induction false} ReductionLinear(a: nat, b: nat)
    ensures Reduction(Xor(a, b)) == Xor(Reduction(a), Reduction(b))
  {
    TermLinear(a, b, 0, 0x3b6a57b2);
    TermLinear(a, b, 1, 0x26508e6d);
    TermLinear(a, b, 2, 0x1ea119fa);
    TermLinear(a, b, 3, 0x3d4233dd);
    TermLinear(a, b, 4, 0x2a1462b3);
    SumLinear(Term(a, 0, 0x3b6a57b2), Term(a, 1, 0x26508e6d), Term(a, 2, 0x1ea119fa), Term(a, 3, 0x3d4233dd),
      Term(a, 4, 0x2a1462b3),
              Term(b, 0, 0x3b6a57b2), Term(b, 1, 0x26508e6d), Term(b, 2, 0x1ea119fa), Term(b, 3, 0x3d4233dd),
                Term(b, 4, 0x2a1462b3));
  }

  lemma {:induction false} SumLinear(
    a0: nat, a1: nat, a2: nat, a3: nat, a4: nat, b0: nat, b1: nat, b2: nat, b3: nat, b4: nat)
    ensures Xor(Xor(a0, b0), Xor(Xor(a1, b1), Xor(Xor(a2, b2), Xor(Xor(a3, b3), Xor(a4, b4))))) ==
      Xor(Xor(a0, Xor(a1, Xor(a2, Xor(a3, a4)))), Xor(b0, Xor(b1, Xor(b2, Xor(b3, b4)))))
  {
    XorSwap(a3, b3, a4, b4);
    XorSwap(a2, b2, Xor(a3, a4), Xor(b3, b4));
    XorSwap(a1, b1, Xor(a2, Xor(a3, a4)), Xor(b2, Xor(b3, b4)));
    XorSwap(a0, b0, Xor(a1, Xor(a2, Xor(a3, a4))), Xor(b1, Xor(b2, Xor(b3, b4))));
  }

  /** A round is linear over exclusive or. */
  lemma {:induction false} StepLinear(c: nat, d: nat, v: nat, w: nat)
    ensures Step(Xor(c, d), Xor(v, w)) == Xor(Step(c, v), Step(d, w))
  {
    XorParts(c, d, 25);
    var c', d' := Shl(Low(c, 25), 5), Shl(Low(d, 25), 5);
    XorShl(Low(c, 25), Low(d, 25), 5);
    ReductionLinear(Shr(c, 25), Shr(d, 25));
    XorSwap(c', d', v, w);
    XorSwap(Xor(c', v), Xor(d', w), Reduction(Shr(c, 25)), Reduction(Shr(d, 25)));
  }

  /** Folding in values adds the same to the state as folding them in from zero. */
  lemma {:induction false} FoldLinear(c: nat, d: nat, v: seq<nat>)
    ensures Fold(Xor(c, d), v) == Xor(Fold(c, Zeros(|v|)), Fold(d, v))
    decreases |v|
  {
    if v != [] {
      XorZero(v[0]);
      StepLinear(c, d, 0, v[0]);
      FoldLinear(Step(c, 0), Step(d, v[0]), v[1..]);
      assert Zeros(|v|)[1..] == Zeros(|v[1..]|);
    }
  }

  lemma {:induction false} FoldAppend(c: nat, a: seq<nat>, b: seq<nat>)
    ensures Fold(c, a + b) == Fold(Fold(c, a), b)
    decreases |a|
  {
    if a == [] {
      EmptyAppend(b);
    } else {
      assert (a + b)[1..] == a[1..] + b;
      FoldAppend(Step(c, a[0]), a[1..], b);
    }
  }

  // ----- creating and verifying -----

  /** ExpandHRP: the high bits of the characters, a zero, and their low five bits. */
  function ExpandHRP(hrp: string): seq<nat> {
    seq(|hrp|, i requires 0 <= i < |hrp| => hrp[i] as nat / 32) + [0] +
      seq(|hrp|, i requires 0 <= i < |hrp| => hrp[i] as nat % 32)
  }

  predicate VerifyChecksum(hrp: string, values: seq<nat>) {
    PolyMod(ExpandHRP(hrp) + values) == 1
  }

  /** The 5-bit groups of `mod`, the highest first. */
  function Groups(mod: nat, n: nat): (r: seq<nat>)
    ensures |r| == n
    decreases n
  {
    if n == 0 then [] else Groups(Shr(mod, 5), n - 1) + [Low(mod, 5)]
  }

  function CreateChecksum(hrp: string, values: seq<nat>): (r: seq<nat>)
    ensures |r| == 6
  {
    Groups(Xor(PolyMod(ExpandHRP(hrp) + values + Zeros(6)), 1), 6)
  }

  predicate FiveBit(values: seq<nat>) {
    forall i :: 0 <= i < |values| ==> values[i] < 32
  }

  /** The number packed from 5-bit groups. */
  function Packed(r: seq<nat>): nat {
    if r == [] then 0 else Shl(Packed(r[..|r| - 1]), 5) + r[|r| - 1]
  }

  lemma {:induction false} Pow2Of5()
    ensures Pow2(5) == 32
  {
    assert Pow2(1) == 2;
    assert Pow2(2) == 4;
    assert Pow2(3) == 8;
    assert Pow2(4) == 16;
  }

  lemma {:induction false} SplitBelow(x: nat, i: nat, k: nat)
    requires x < Pow2(i + k)
    ensures Shr(x, k) < Pow2(i) && Low(x, k) < Pow2(k) && Shl(Shr(x, k), k) + Low(x, k) == x
  {
    ShrBelow(x, i, k);
    LowBelow(x, k);
    Parts(x, k);
  }

  lemma {:induction false} GroupBelow(mod: nat, n: nat, rest: nat)
    requires n > 0 && rest == 5 * (n - 1) && mod < Pow2(5 * n)
    ensures Shr(mod, 5) < Pow2(rest) && Low(mod, 5) < 32 && Shl(Shr(mod, 5), 5) + Low(mod, 5) == mod
  {
    SplitBelow(mod, rest, 5);
    Pow2Of5();
  }

  lemma {:induction false} PackedGroups(mod: nat, n: nat)
    requires mod < Pow2(5 * n)
    ensures Packed(Groups(mod, n)) == mod && FiveBit(Groups(mod, n))
    decreases n
  {
    if n > 0 {
      GroupBelow(mod, n, 5 * (n - 1));
      PackedGroups(Shr(mod, 5), n - 1);
      var init := Groups(Shr(mod, 5), n - 1);
      assert Groups(mod, n) == init + [Low(mod, 5)] && Groups(mod, n)[..n - 1] == init;
    }
  }

  lemma {:induction false} GroupsPacked(r: seq<nat>)
    requires FiveBit(r)
    ensures Packed(r) < Pow2(5 * |r|) && Groups(Packed(r), |r|) == r
  {
    if r != [] {
      var init, last := r[..|r| - 1], r[|r| - 1];
      GroupsPacked(init);
      Pow2Of5();
      PartsUnique(Packed(init), last, 5);
      JoinBelow(Packed(init), 5 * |init|, last, 5);
      assert r == init + [last];
    }
  }

  /** As long as the state is short, a round packs the value behind it. */
  lemma {:induction false} StepPacks(c: nat, v: nat)
    requires c < Pow2(25) && v < 32
    ensures Step(c, v) == Shl(c, 5) + v
  {
    Pow2Of5();
    LowAll(c, 25);
    XorDisjoint(c, v, 5);
    NoReduction();
    XorZero(Shl(c, 5) + v);
  }

  lemma {:induction false} NoReduction()
    ensures Reduction(0) == 0
  {
    ShrZero(0);
    ShrZero(1);
    ShrZero(2);
    ShrZero(3);
    ShrZero(4);
    XorZero(0);
  }

  lemma {:induction false} ShrZero(k: nat)
    ensures Shr(0, k) == 0
  {
    if k > 0 {
      ShrZero(k - 1);
    }
  }

  lemma {:induction false} FoldSnoc(c: nat, v: seq<nat>)
    requires v != []
    ensures Fold(c, v) == Step(Fold(c, v[..|v| - 1]), v[|v| - 1])
  {
    var n := |v| - 1;
    assert v == v[..n] + [v[n]];
    FoldAppend(c, v[..n], [v[n]]);
    assert [v[n]][1..] == [];
  }

  /** Folding up to six 5-bit values into zero packs them. */
  lemma {:induction false} FoldPacks(r: seq<nat>)
    requires |r| <= 6 && FiveBit(r)
    ensures Fold(0, r) == Packed(r)
  {
    if r != [] {
      var init := r[..|r| - 1];
      FoldPacks(init);
      GroupsPacked(init);
      Pow2Grows(5 * |init|, 25);
      FoldSnoc(0, r);
      StepPacks(Packed(init), r[|r| - 1]);
    }
  }

  /** A round keeps the state within 30 bits. */
  lemma {:induction false} StepBelow(c: nat, v: nat)
    requires v < Pow2(30)
    ensures Step(c, v) < Pow2(30)
  {
    LowBelow(c, 25);
    ShlBelow(Low(c, 25), 25, 5);
    XorBelow(Shl(Low(c, 25), 5), v, 30);
    ReductionBelow(Shr(c, 25));
    XorBelow(Xor(Shl(Low(c, 25), 5), v), Reduction(Shr(c, 25)), 30);
  }

  lemma {:induction false} Pow2Of30()
    ensures Pow2(30) == 0x4000_0000
  {
    Pow2Of5();
    Pow2Add(5, 5);
    Pow2Add(10, 10);
    Pow2Add(20, 10);
  }

  lemma {:induction false} ReductionBelow(c0: nat)
    ensures Reduction(c0) < Pow2(30)
  {
    Pow2Of30();
    var t3, t4 := Term(c0, 3, 0x3d4233dd), Term(c0, 4, 0x2a1462b3);
    var t0, t1, t2 := Term(c0, 0, 0x3b6a57b2), Term(c0, 1, 0x26508e6d), Term(c0, 2, 0x1ea119fa);
    XorBelow(t3, t4, 30);
    XorBelow(t2, Xor(t3, t4), 30);
    XorBelow(t1, Xor(t2, Xor(t3, t4)), 30);
    XorBelow(t0, Xor(t1, Xor(t2, Xor(t3, t4))), 30);
  }

  lemma {:induction false} ZeroFolded(v: seq<nat>)
    ensures PolyMod(v + Zeros(6)) < Pow2(30)
  {
    FoldSnoc(1, v + Zeros(6));
    Pow2Of30();
    StepBelow(Fold(1, (v + Zeros(6))[..|v| + 5]), 0);
  }

  /** Exactly one checksum of six 5-bit values verifies: the one that is created. */
  lemma {:induction false} ChecksumUnique(hrp: string, values: seq<nat>, r: seq<nat>)
    requires |r| == 6 && FiveBit(r)
    ensures VerifyChecksum(hrp, values + r) <==> r == CreateChecksum(hrp, values)
  {
    var enc := ExpandHRP(hrp) + values;
    var z := PolyMod(enc + Zeros(6));
    Assoc(ExpandHRP(hrp), values, r);
    FoldAppend(1, enc, r);
    FoldAppend(1, enc, Zeros(6));
    XorZero(PolyMod(enc));
    FoldLinear(PolyMod(enc), 0, r);
    FoldPacks(r);
    XorSolve(z, Packed(r), 1);
    ZeroFolded(enc);
    Pow2Of30();
    XorBelow(z, 1, 30);
    PackedGroups(Xor(z, 1), 6);
    GroupsPacked(r);
  }

  lemma {:induction false} ChecksumFiveBit(hrp: string, values: seq<nat>)
    ensures FiveBit(CreateChecksum(hrp, values))
  {
    var z := PolyMod(ExpandHRP(hrp) + values + Zeros(6));
    ZeroFolded(ExpandHRP(hrp) + values);
    Pow2Of30();
    XorBelow(z, 1, 30);
    PackedGroups(Xor(z, 1), 6);
  }

  /** Appending the created checksum makes the checksum verify, for every hrp and every data. */
  lemma {:induction false} ChecksumVerifies(hrp: string, values: seq<nat>)
    ensures VerifyChecksum(hrp, values + CreateChecksum(hrp, values))
  {
    ChecksumFiveBit(hrp, values);
    ChecksumUnique(hrp, values, CreateChecksum(hrp, values));
  }

  // ----- characters -----

  /** CHARSET */
  function Charset(v: nat): char {
    match v
    case 0 => 'q'
    case 1 => 'p'
    case 2 => 'z'
    case 3 => 'r'
    case 4 => 'y'
    case 5 => '9'
    case 6 => 'x'
    case 7 => '8'
    case 8 => 'g'
    case 9 => 'f'
    case 10 => '2'
    case 11 => 't'
    case 12 => 'v'
    case 13 => 'd'
    case 14 => 'w'
    case 15 => '0'
    case 16 => 's'
    case 17 => '3'
    case 18 => 'j'
    case 19 => 'n'
    case 20 => '5'
    case 21 => '4'
    case 22 => 'k'
    case 23 => 'h'
    case 24 => 'c'
    case 25 => 'e'
    case 26 => '6'
    case 27 => 'm'
    case 28 => 'u'
    case 29 => 'a'
    case 30 => '7'
    case _ => 'l'
  }

  /** CHARSET_REV */
  function CharsetRev(c: char): int {
    match c
    case 'q' | 'Q' => 0
    case 'p' | 'P' => 1
    case 'z' | 'Z' => 2
    case 'r' | 'R' => 3
    case 'y' | 'Y' => 4
    case '9' => 5
    case 'x' | 'X' => 6
    case '8' => 7
    case 'g' | 'G' => 8
    case 'f' | 'F' => 9
    case '2' => 10
    case 't' | 'T' => 11
    case 'v' | 'V' => 12
    case 'd' | 'D' => 13
    case 'w' | 'W' => 14
    case '0' => 15
    case 's' | 'S' => 16
    case '3' => 17
    case 'j' | 'J' => 18
    case 'n' | 'N' => 19
    case '5' => 20
    case '4' => 21
    case 'k' | 'K' => 22
    case 'h' | 'H' => 23
    case 'c' | 'C' => 24
    case 'e' | 'E' => 25
    case '6' => 26
    case 'm' | 'M' => 27
    case 'u' | 'U' => 28
    case 'a' | 'A' => 29
    case '7' => 30
    case 'l' | 'L' => 31
    case _ => -1
  }

  predicate IsLower(c: char) {
    'a' <= c <= 'z'
  }

  predicate IsUpper(c: char) {
    'A' <= c <= 'Z'
  }

  predicate Printable(c: char) {
    33 as char <= c <= 126 as char
  }

  function LowerCase(c: char): char {
    if IsUpper(c) then c - 'A' + 'a' else c
  }

  lemma {:induction false} CharsetRoundTrip(v: nat)
    requires v < 32
    ensures CharsetRev(Charset(v)) == v
  {
  }

  lemma {:induction false} CharsetPlain(v: nat)
    ensures Charset(v) != '1' && Printable(Charset(v)) && !IsUpper(Charset(v))
  {
  }

  lemma {:induction false} CharsetRevRoundTrip(c: char)
    ensures CharsetRev(c) == -1 || (0 <= CharsetRev(c) < 32 && Charset(CharsetRev(c)) == LowerCase(c))
  {
  }

  lemma {:induction false} LowerCasePlain(c: char)
    ensures !IsUpper(LowerCase(c)) && (!IsUpper(c) ==> LowerCase(c) == c)
    ensures LowerCase(c) == '1' <==> c == '1'
  {
  }

  function Lower(s: string): (r: string)
    ensures |r| == |s|
  {
    seq(|s|, i requires 0 <= i < |s| => LowerCase(s[i]))
  }

  // ----- strings -----

  function Chars(values: seq<nat>): (r: string)
    ensures |r| == |values|
  {
    seq(|values|, i requires 0 <= i < |values| => Charset(values[i]))
  }

  function Encode(hrp: string, values: seq<nat>): string {
    hrp + "1" + Chars(values + CreateChecksum(hrp, values))
  }

  /** The last position of `c`, or -1. */
  function RFind(s: string, c: char): (r: int)
    ensures -1 <= r < |s| && (r >= 0 ==> s[r] == c)
  {
    if s == [] then -1 else if s[|s| - 1] == c then |s| - 1 else RFind(s[..|s| - 1], c)
  }

  predicate AllPrintable(s: string) {
    forall i :: 0 <= i < |s| ==> Printable(s[i])
  }

  predicate HasLower(s: string) {
    exists i :: 0 <= i < |s| && IsLower(s[i])
  }

  predicate HasUpper(s: string) {
    exists i :: 0 <= i < |s| && IsUpper(s[i])
  }

  predicate InCharset(s: string) {
    forall i :: 0 <= i < |s| ==> CharsetRev(s[i]) != -1
  }

  function Values(s: string): (r: seq<nat>)
    requires InCharset(s)
    ensures |r| == |s|
  {
    seq(|s|, i requires 0 <= i < |s| => CharsetRevRoundTrip(s[i]); CharsetRev(s[i]))
  }

  /** Decode; None is the empty pair. */
  function Decode(s: string): Option<(string, seq<nat>)> {
    if !AllPrintable(s) || (HasLower(s) && HasUpper(s)) then None else DecodeAt(s, RFind(s, '1'))
  }

  /** Decode with the separator at `pos`. */
  function DecodeAt(s: string, pos: int): Option<(string, seq<nat>)>
    requires pos < |s|
  {
    if |s| > 90 || pos <= 0 || pos + 7 > |s| then None
    else if !InCharset(s[pos + 1..]) then None
    else DecodeParts(Lower(s[..pos]), Values(s[pos + 1..]))
  }

  function DecodeParts(hrp: string, values: seq<nat>): Option<(string, seq<nat>)>
    requires |values| >= 6
  {
    if !VerifyChecksum(hrp, values) then None else Some((hrp, values[..|values| - 6]))
  }

  predicate ValidHRP(hrp: string) {
    hrp != "" && AllPrintable(hrp) && !HasUpper(hrp)
  }

  lemma {:induction false} RFindLast(a: string, b: string, c: char)
    requires c !in b
    ensures RFind(a + [c] + b, c) == |a|
  {
    var s := a + [c] + b;
    if b != [] {
      assert s[..|s| - 1] == a + [c] + b[..|b| - 1];
      assert s[|s| - 1] == b[|b| - 1];
      RFindLast(a, b[..|b| - 1], c);
    }
  }

  lemma {:induction false} ValuesOfChars(values: seq<nat>)
    requires FiveBit(values)
    ensures InCharset(Chars(values)) && Values(Chars(values)) == values
    ensures AllPrintable(Chars(values)) && !HasUpper(Chars(values)) && '1' !in Chars(values)
  {
    forall i | 0 <= i < |values|
      ensures CharsetRev(Chars(values)[i]) == values[i] && Charset(values[i]) != '1'
      ensures Printable(Chars(values)[i]) && !IsUpper(Chars(values)[i])
    {
      CharsetRoundTrip(values[i]);
      CharsetPlain(values[i]);
    }
  }

  lemma {:induction false} CharsOfValues(s: string)
    requires InCharset(s)
    ensures FiveBit(Values(s)) && Chars(Values(s)) == Lower(s)
  {
    forall i | 0 <= i < |s|
      ensures Values(s)[i] < 32 && Charset(Values(s)[i]) == LowerCase(s[i])
    {
      CharsetRevRoundTrip(s[i]);
    }
  }

  lemma {:induction false} LowerKeeps(s: string)
    ensures !HasUpper(Lower(s)) && (!HasUpper(s) ==> Lower(s) == s)
  {
    forall i | 0 <= i < |s|
      ensures !IsUpper(Lower(s)[i]) && (!IsUpper(s[i]) ==> Lower(s)[i] == s[i])
    {
      LowerCasePlain(s[i]);
    }
  }

  /** The parts of an encoded string. */
  lemma {:induction false} EncodedParts(hrp: string, values: seq<nat>)
    requires FiveBit(values)
    ensures var data := values + CreateChecksum(hrp, values); var s := Encode(hrp, values);
      && FiveBit(data) && |s| == |hrp| + 1 + |data| && RFind(s, '1') == |hrp|
      && s[..|hrp|] == hrp && s[|hrp| + 1..] == Chars(data)
  {
    ChecksumFiveBit(hrp, values);
    var data := values + CreateChecksum(hrp, values);
    ValuesOfChars(data);
    RFindLast(hrp, Chars(data), '1');
    var s := Encode(hrp, values);
    assert s[..|hrp|] == hrp && s[|hrp| + 1..] == Chars(data);
  }

  lemma {:induction false} EncodedPlain(hrp: string, values: seq<nat>)
    requires FiveBit(values) && ValidHRP(hrp)
    ensures AllPrintable(Encode(hrp, values)) && !HasUpper(Encode(hrp, values))
  {
    ChecksumFiveBit(hrp, values);
    ValuesOfChars(values + CreateChecksum(hrp, values));
  }

  /** Decoding undoes encoding exactly for hrps that are valid and lower case, and strings of at most 90 characters. */
  lemma {:induction false} RoundTrip(hrp: string, values: seq<nat>)
    requires FiveBit(values)
    ensures Decode(Encode(hrp, values)) == Some((hrp, values)) <==> ValidHRP(hrp) && |hrp| + 1 + |values| + 6 <= 90
  {
    var s := Encode(hrp, values);
    var data := values + CreateChecksum(hrp, values);
    EncodedParts(hrp, values);
    ValuesOfChars(data);
    LowerKeeps(hrp);
    if ValidHRP(hrp) && |s| <= 90 {
      EncodedPlain(hrp, values);
      ChecksumVerifies(hrp, values);
      assert data[..|data| - 6] == values;
    }
  }

  /** An accepted string is the lower-case encoding of what it decodes to, up to case. */
  lemma {:induction false} AcceptedIsEncoded(s: string)
    requires Decode(s).Some?
    ensures var (hrp, values) := Decode(s).value; FiveBit(values) && ValidHRP(hrp) && Encode(hrp, values) == Lower(s)
  {
    var pos := RFind(s, '1');
    CharsOfValues(s[pos + 1..]);
    PartsAreEncoded(Lower(s[..pos]), Values(s[pos + 1..]));
    LowerKeeps(s[..pos]);
    LowerParts(s, pos);
    LowerPrintable(s[..pos]);
  }

  lemma {:induction false} PartsAreEncoded(hrp: string, all: seq<nat>)
    requires |all| >= 6 && FiveBit(all) && VerifyChecksum(hrp, all)
    ensures var values := all[..|all| - 6]; FiveBit(values) && Encode(hrp, values) == hrp + "1" + Chars(all)
  {
    var values, r := all[..|all| - 6], all[|all| - 6..];
    assert all == values + r;
    ChecksumUnique(hrp, values, r);
  }

  lemma {:induction false} LowerParts(s: string, pos: nat)
    requires pos < |s| && s[pos] == '1'
    ensures Lower(s) == Lower(s[..pos]) + "1" + Lower(s[pos + 1..])
  {
    LowerCasePlain('1');
  }

  lemma {:induction false} LowerPrintable(s: string)
    requires AllPrintable(s)
    ensures AllPrintable(Lower(s))
  {
    forall i | 0 <= i < |s|
      ensures Printable(Lower(s)[i])
    {
      assert Printable(s[i]);
    }
  }
}
