/** Base58 (base58.cpp): numbers in two bases, and the buffer sizes that hold them. */
module Base58 {
  import opened Collections
  import opened Numbers

  function Power(b: nat, n: nat): nat {
    if n == 0 then 1 else b * Power(b, n - 1)
  }

  lemma {:induction false} PowerAdd(b: nat, i: nat, j: nat)
    ensures Power(b, i + j) == Power(b, i) * Power(b, j)
  {
    if i > 0 {
      PowerAdd(b, i - 1, j);
      MulAssoc(b, Power(b, i - 1), Power(b, j));
    }
  }

  lemma {:induction false} PowerPositive(b: nat, n: nat)
    requires b > 0
    ensures Power(b, n) > 0
  {
    if n > 0 {
      PowerPositive(b, n - 1);
      MulAway(b, Power(b, n - 1));
    }
  }

  lemma {:induction false} PowerGrows(b: nat, i: nat, j: nat)
    requires b > 0 && i <= j
    ensures Power(b, i) <= Power(b, j)
  {
    PowerAdd(b, j - i, i);
    PowerPositive(b, j - i);
    MulAway(Power(b, j - i), Power(b, i));
  }

  lemma {:induction false} MulGrows(a: nat, b: nat, c: nat, d: nat)
    requires a <= b && c <= d
    ensures a * c <= b * d
  {
    MulAway(b - a, c);
    assert (b - a) * c == b * c - a * c;
    MulAway(d - c, b);
    assert (d - c) * b == d * b - c * b;
    MulComm(b, c);
    MulComm(b, d);
  }

  // ----- the buffer sizes -----

  /** The digits allocated for encoding `n` bytes: log(256) / log(58), rounded up. */
  function EncodedSize(n: nat): nat {
    n * 138 / 100 + 1
  }

  /** The bytes allocated for decoding `n` digits: log(58) / log(256), rounded up. */
  function DecodedSize(n: nat): nat {
    n * 733 / 1000 + 1
  }

  /** 8 bytes fit into 11 digits; 15 digits fit into 11 bytes, and 71 digits even into 52 bytes. */
  lemma {:induction false} Blocks()
    ensures Power(256, 8) <= Power(58, 11) && Power(58, 15) <= Power(256, 11) && Power(58, 71) <= Power(256, 52)
  {
    Powers58();
    Powers256();
  }

  lemma {:induction false} Powers58()
    ensures Power(58, 11) == 24986644000165537792 && Power(58, 15) == 282761256881297307761016832
    ensures Power(58, 71) == 159730386663078066345306447337161584696769904898410078913243029577507397293846405390982563136983769384625594118558891106107392
  {
    Small58();
    PowerAdd(58, 7, 4);
    PowerAdd(58, 7, 8);
    PowerAdd(58, 8, 8);
    PowerAdd(58, 16, 16);
    PowerAdd(58, 32, 32);
    PowerAdd(58, 64, 7);
  }

  lemma {:induction false} Small58()
    ensures Power(58, 0) == 1
    ensures Power(58, 1) == 58
    ensures Power(58, 2) == 3364
    ensures Power(58, 3) == 195112
    ensures Power(58, 4) == 11316496
    ensures Power(58, 5) == 656356768
    ensures Power(58, 6) == 38068692544
    ensures Power(58, 7) == 2207984167552
    ensures Power(58, 8) == 128063081718016
    ensures Power(58, 9) == 7427658739644928
    ensures Power(58, 10) == 430804206899405824
  {
  }

  lemma {:induction false} Powers256()
    ensures Power(256, 8) == 18446744073709551616 && Power(256, 11) == 309485009821345068724781056
    ensures Power(256, 52) == 169230328010303641331690318856389386196071598838855992136870091590247882556495704531248437872567112920983350278405979725889536
  {
    Small256();
    PowerAdd(256, 4, 4);
    PowerAdd(256, 8, 3);
    PowerAdd(256, 8, 8);
    PowerAdd(256, 16, 16);
    PowerAdd(256, 32, 16);
    PowerAdd(256, 48, 4);
  }

  lemma {:induction false} Small256()
    ensures Power(256, 0) == 1
    ensures Power(256, 1) == 256
    ensures Power(256, 2) == 65536
    ensures Power(256, 3) == 16777216
    ensures Power(256, 4) == 4294967296
    ensures Power(256, 5) == 1099511627776
    ensures Power(256, 6) == 281474976710656
    ensures Power(256, 7) == 72057594037927936
  {
  }

  lemma {:induction false} EncodeFitsSmall(n: nat)
    requires n < 8
    ensures Power(256, n) <= Power(58, EncodedSize(n))
  {
    Small58();
    Small256();
  }

  /** What fits in two parts fits as a whole. */
  lemma {:induction false} AddBlock(b: nat, i: nat, j: nat, c: nat, k: nat, l: nat)
    requires Power(b, i) <= Power(c, k) && Power(b, j) <= Power(c, l)
    ensures Power(b, i + j) <= Power(c, k + l)
  {
    PowerAdd(b, i, j);
    PowerAdd(c, k, l);
    MulGrows(Power(b, i), Power(c, k), Power(b, j), Power(c, l));
  }

  lemma {:induction false} EncodeFitsBy(n: nat, i: nat, k: nat)
    requires i == 8 && k == 11 && Power(256, i) <= Power(58, k)
    ensures Power(256, n) <= Power(58, EncodedSize(n))
    decreases n
  {
    if n < i {
      EncodeFitsSmall(n);
    } else {
      EncodeFitsBy(n - i, i, k);
      AddBlock(256, i, n - i, 58, k, EncodedSize(n - i));
      PowerGrows(58, k + EncodedSize(n - i), EncodedSize(n));
    }
  }

  /** The digits of every number of `n` bytes fit. */
  lemma {:induction false} EncodeFits(n: nat)
    ensures Power(256, n) <= Power(58, EncodedSize(n))
  {
    Blocks();
    EncodeFitsBy(n, 8, 11);
  }

  lemma {:induction false} BlockTimes(q: nat, i: nat, k: nat)
    requires Power(58, i) <= Power(256, k)
    ensures Power(58, i * q) <= Power(256, k * q)
  {
    if q > 0 {
      BlockTimes(q - 1, i, k);
      AddBlock(58, i, i * (q - 1), 256, k, k * (q - 1));
      assert i + i * (q - 1) == i * q && k + k * (q - 1) == k * q;
    }
  }

  lemma {:induction false} DecodeFitsTiny(n: nat)
    requires n < 15
    ensures Power(58, n) <= Power(256, DecodedSize(n))
  {
    if n < 8 {
      Small58();
      Small256();
    } else {
      DecodeFitsNext(n);
    }
  }

  lemma {:induction false} DecodeFitsNext(n: nat)
    requires 8 <= n < 15
    ensures Power(58, n) <= Power(256, DecodedSize(n))
  {
    Small58();
    Small256();
    Next58();
    Next256();
  }

  lemma {:induction false} Next58()
    ensures Power(58, 11) == 24986644000165537792
    ensures Power(58, 12) == 1449225352009601191936
    ensures Power(58, 13) == 84055070416556869132288
    ensures Power(58, 14) == 4875194084160298409672704
  {
    Small58();
    PowerAdd(58, 10, 1);
    PowerAdd(58, 10, 2);
    PowerAdd(58, 10, 3);
    PowerAdd(58, 10, 4);
  }

  lemma {:induction false} Next256()
    ensures Power(256, 8) == 18446744073709551616
    ensures Power(256, 9) == 4722366482869645213696
    ensures Power(256, 10) == 1208925819614629174706176
    ensures Power(256, 11) == 309485009821345068724781056
  {
    Small256();
    PowerAdd(256, 7, 1);
    PowerAdd(256, 7, 2);
    PowerAdd(256, 7, 3);
    PowerAdd(256, 7, 4);
  }

  lemma {:induction false} SizeOfParts(q: nat, s: nat)
    requires q < 5 && s < 15
    ensures 11 * q + (if s == 0 then 0 else DecodedSize(s)) <= DecodedSize(15 * q + s)
  {
  }

  lemma {:induction false} DecodeFitsSmall(n: nat, q: nat, s: nat, i: nat, k: nat)
    requires n == 15 * q + s && q < 5 && s < 15 && Power(58, i) <= Power(256, k) && i == 15 && k == 11
    ensures Fits(n)
  {
    SizeOfParts(q, s);
    BlockTimes(q, i, k);
    var t := if s == 0 then 0 else DecodedSize(s);
    assert Power(58, s) <= Power(256, t) by {
      if s > 0 {
        DecodeFitsTiny(s);
      }
    }
    AddBlock(58, i * q, s, 256, k * q, t);
    PowerGrows(256, k * q + t, DecodedSize(n));
  }

  /** A block of `i` digits takes at least `k` bytes of the estimate. */
  ghost predicate BlockFits(i: nat, k: nat) {
    forall n: nat {:trigger BlockFitsAt(n, i, k)} :: BlockFitsAt(n, i, k)
  }

  ghost predicate BlockFitsAt(n: nat, i: nat, k: nat) {
    n >= i ==> k + DecodedSize(n - i) <= DecodedSize(n)
  }

  ghost predicate FewFit(i: nat) {
    forall m: nat {:trigger Fits(m)} :: m < i ==> Fits(m)
  }

  ghost predicate Fits(n: nat) {
    Power(58, n) <= Power(256, DecodedSize(n))
  }

  lemma {:induction false} DecodeFitsBy(n: nat, i: nat, k: nat)
    requires i > 0 && Power(58, i) <= Power(256, k) && BlockFits(i, k) && FewFit(i)
    ensures Fits(n)
    decreases n
  {
    if n >= i {
      assert BlockFitsAt(n, i, k);
      var rest := n - i;
      DecodeFitsBy(rest, i, k);
      AddBlock(58, i, rest, 256, k, DecodedSize(rest));
      PowerGrows(256, k + DecodedSize(rest), DecodedSize(n));
    }
  }

  /** 71 digits need no more than 52 bytes of the estimate. */
  lemma {:induction false} BlockOf71()
    ensures BlockFits(71, 52)
  {
  }

  lemma {:induction false} FewerThan71()
    ensures FewFit(71)
  {
    Blocks();
    forall m: nat | m < 71
      ensures Fits(m)
    {
      DecodeFitsSmall(m, m / 15, m % 15, 15, 11);
    }
  }

  /** The bytes of every number of `n` digits fit. */
  lemma {:induction false} DecodeFits(n: nat)
    ensures Power(58, n) <= Power(256, DecodedSize(n))
  {
    Blocks();
    BlockOf71();
    FewerThan71();
    DecodeFitsBy(n, 71, 52);
  }

  // ----- numbers in a base -----

  predicate InBase(d: seq<nat>, b: nat) {
    forall i :: 0 <= i < |d| ==> d[i] < b
  }

  /** The number with the digits `d`, the highest first. */
  function Value(d: seq<nat>, b: nat): nat {
    if d == [] then 0 else Value(d[..|d| - 1], b) * b + d[|d| - 1]
  }

  /** The digits of a number, without leading zeros. */
  function Digits(n: nat, b: nat): seq<nat>
    requires b > 1
  {
    if n == 0 then [] else
      QuotientLess(n, b);
      Digits(n / b, b) + [n % b]
  }

  lemma {:induction false} QuotientLess(n: nat, b: nat)
    requires n > 0 && b > 1
    ensures n / b < n
  {
    Division(n, b);
    TwiceBelow(n / b, b, n % b);
  }

  lemma {:induction false} TwiceBelow(q: nat, b: nat, r: nat)
    requires b > 1
    ensures 2 * q <= q * b + r
  {
    MulAway(b - 1, q);
    assert (b - 1) * q == q * b - q;
  }

  lemma {:induction false} DigitsAre(n: nat, b: nat)
    requires b > 1
    ensures Value(Digits(n, b), b) == n && InBase(Digits(n, b), b)
    ensures (n > 0 ==> Digits(n, b) != [] && Digits(n, b)[0] != 0)
  {
    if n > 0 {
      QuotientLess(n, b);
      DigitsAre(n / b, b);
      Division(n, b);
      var d := Digits(n, b);
      assert d[..|d| - 1] == Digits(n / b, b);
    }
  }

  /** Digits without a leading zero are those of their number. */
  lemma {:induction false} DigitsUnique(d: seq<nat>, b: nat)
    requires b > 1 && InBase(d, b) && (d == [] || d[0] != 0)
    ensures Digits(Value(d, b), b) == d && (d != [] ==> Value(d, b) > 0)
  {
    if d != [] {
      var init, last := d[..|d| - 1], d[|d| - 1];
      DigitsUnique(init, b);
      DivModUnique(Value(d, b), Value(init, b), b, last);
      if init != [] {
        MulAway(Value(init, b), b);
      }
      assert d == init + [last];
    }
  }

  lemma {:induction false} ValueBelow(d: seq<nat>, b: nat)
    requires InBase(d, b) && b > 0
    ensures Value(d, b) < Power(b, |d|)
  {
    if d != [] {
      var init := d[..|d| - 1];
      ValueBelow(init, b);
      DigitsBelow(Value(init, b), Power(b, |init|), d[|d| - 1], b);
      MulComm(Power(b, |init|), b);
    }
  }

  lemma {:induction false} ValueCons(x: nat, d: seq<nat>, b: nat)
    ensures Value([x] + d, b) == x * Power(b, |d|) + Value(d, b)
  {
    if d == [] {
      assert ([x] + d)[..0] == [];
    } else {
      var n := |d| - 1;
      assert ([x] + d)[..|d|] == [x] + d[..n];
      ValueCons(x, d[..n], b);
      Expand(x, Power(b, n), Value(d[..n], b), b);
      MulComm(Power(b, n), b);
    }
  }

  lemma {:induction false} ValueZeros(n: nat, d: seq<nat>, b: nat)
    ensures Value(Zeros(n) + d, b) == Value(d, b)
  {
    if n == 0 {
      EmptyAppend(d);
    } else {
      assert Zeros(n) + d == [0] + (Zeros(n - 1) + d);
      ValueCons(0, Zeros(n - 1) + d, b);
      ValueZeros(n - 1, d, b);
    }
  }

  function LeadingZeros(d: seq<nat>): (n: nat)
    ensures n <= |d|
  {
    if d == [] || d[0] != 0 then 0 else 1 + LeadingZeros(d[1..])
  }

  lemma {:induction false} LeadingZerosSplit(d: seq<nat>)
    ensures var n := LeadingZeros(d); d == Zeros(n) + d[n..] && (n == |d| || d[n] != 0)
  {
    if d != [] && d[0] == 0 {
      LeadingZerosSplit(d[1..]);
      var n := LeadingZeros(d[1..]);
      DropDrop(d, 1, n);
      OneZeroMore(n, d[n + 1..]);
      assert d == [0] + d[1..];
    }
  }

  /** Without its leading zeros a number in a buffer is in digits. */
  lemma {:induction false} StripZeros(d: seq<nat>, b: nat)
    requires b > 1 && InBase(d, b)
    ensures d[LeadingZeros(d)..] == Digits(Value(d, b), b)
  {
    var n := LeadingZeros(d);
    LeadingZerosSplit(d);
    ValueZeros(n, d[n..], b);
    DigitsUnique(d[n..], b);
  }

  // ----- characters -----

  /** pszBase58 */
  function Alphabet(v: nat): char {
    match v
    case 0 => '1'
    case 1 => '2'
    case 2 => '3'
    case 3 => '4'
    case 4 => '5'
    case 5 => '6'
    case 6 => '7'
    case 7 => '8'
    case 8 => '9'
    case 9 => 'A'
    case 10 => 'B'
    case 11 => 'C'
    case 12 => 'D'
    case 13 => 'E'
    case 14 => 'F'
    case 15 => 'G'
    case 16 => 'H'
    case 17 => 'J'
    case 18 => 'K'
    case 19 => 'L'
    case 20 => 'M'
    case 21 => 'N'
    case 22 => 'P'
    case 23 => 'Q'
    case 24 => 'R'
    case 25 => 'S'
    case 26 => 'T'
    case 27 => 'U'
    case 28 => 'V'
    case 29 => 'W'
    case 30 => 'X'
    case 31 => 'Y'
    case 32 => 'Z'
    case 33 => 'a'
    case 34 => 'b'
    case 35 => 'c'
    case 36 => 'd'
    case 37 => 'e'
    case 38 => 'f'
    case 39 => 'g'
    case 40 => 'h'
    case 41 => 'i'
    case 42 => 'j'
    case 43 => 'k'
    case 44 => 'm'
    case 45 => 'n'
    case 46 => 'o'
    case 47 => 'p'
    case 48 => 'q'
    case 49 => 'r'
    case 50 => 's'
    case 51 => 't'
    case 52 => 'u'
    case 53 => 'v'
    case 54 => 'w'
    case 55 => 'x'
    case 56 => 'y'
    case _ => 'z'
  }

  /** mapBase58 */
  function MapBase58(c: char): int {
    match c
    case '1' => 0
    case '2' => 1
    case '3' => 2
    case '4' => 3
    case '5' => 4
    case '6' => 5
    case '7' => 6
    case '8' => 7
    case '9' => 8
    case 'A' => 9
    case 'B' => 10
    case 'C' => 11
    case 'D' => 12
    case 'E' => 13
    case 'F' => 14
    case 'G' => 15
    case 'H' => 16
    case 'J' => 17
    case 'K' => 18
    case 'L' => 19
    case 'M' => 20
    case 'N' => 21
    case 'P' => 22
    case 'Q' => 23
    case 'R' => 24
    case 'S' => 25
    case 'T' => 26
    case 'U' => 27
    case 'V' => 28
    case 'W' => 29
    case 'X' => 30
    case 'Y' => 31
    case 'Z' => 32
    case 'a' => 33
    case 'b' => 34
    case 'c' => 35
    case 'd' => 36
    case 'e' => 37
    case 'f' => 38
    case 'g' => 39
    case 'h' => 40
    case 'i' => 41
    case 'j' => 42
    case 'k' => 43
    case 'm' => 44
    case 'n' => 45
    case 'o' => 46
    case 'p' => 47
    case 'q' => 48
    case 'r' => 49
    case 's' => 50
    case 't' => 51
    case 'u' => 52
    case 'v' => 53
    case 'w' => 54
    case 'x' => 55
    case 'y' => 56
    case 'z' => 57
    case _ => -1
  }

  lemma {:induction false} AlphabetRoundTrip(v: nat)
    requires v < 58
    ensures MapBase58(Alphabet(v)) == v
  {
  }

  lemma {:induction false} MapRoundTrip(c: char)
    ensures MapBase58(c) == -1 || (0 <= MapBase58(c) < 58 && Alphabet(MapBase58(c)) == c)
  {
  }

  // ----- strings -----

  function Ones(n: nat): (r: string)
    ensures |r| == n
  {
    seq(n, _ => '1')
  }

  function Text(digits: seq<nat>): (r: string)
    ensures |r| == |digits|
  {
    seq(|digits|, i requires 0 <= i < |digits| => Alphabet(digits[i]))
  }

  predicate IsText(s: string) {
    forall i :: 0 <= i < |s| ==> MapBase58(s[i]) != -1
  }

  function DigitsOf(s: string): (r: seq<nat>)
    requires IsText(s)
    ensures |r| == |s|
  {
    seq(|s|, i requires 0 <= i < |s| => MapRoundTrip(s[i]); MapBase58(s[i]))
  }

  lemma {:induction false} DigitsOfText(d: seq<nat>)
    requires InBase(d, 58)
    ensures IsText(Text(d)) && DigitsOf(Text(d)) == d
  {
    forall i | 0 <= i < |d|
      ensures MapBase58(Text(d)[i]) == d[i]
    {
      AlphabetRoundTrip(d[i]);
    }
  }

  lemma {:induction false} TextOfDigits(s: string)
    requires IsText(s)
    ensures InBase(DigitsOf(s), 58) && Text(DigitsOf(s)) == s
  {
    forall i | 0 <= i < |s|
      ensures DigitsOf(s)[i] < 58 && Alphabet(DigitsOf(s)[i]) == s[i]
    {
      MapRoundTrip(s[i]);
    }
  }

  function EncodeBase58(v: seq<nat>): string {
    var z := LeadingZeros(v);
    Ones(z) + Text(Digits(Value(v[z..], 256), 58))
  }

  predicate IsSpace(c: char) {
    c == ' ' || c == 12 as char || c == '\n' || c == '\r' || c == '\t' || c == 11 as char
  }

  /** The characters before the terminating NUL. */
  function CString(s: string): string {
    if s == [] || s[0] == 0 as char then [] else [s[0]] + CString(s[1..])
  }

  function SkipSpaces(s: string): string {
    if s != [] && IsSpace(s[0]) then SkipSpaces(s[1..]) else s
  }

  function CountOnes(s: string): (n: nat)
    ensures n <= |s|
  {
    if s == [] || s[0] != '1' then 0 else 1 + CountOnes(s[1..])
  }

  /** The characters before the first space. */
  function Word(s: string): (w: string)
    ensures |w| <= |s| && s[..|w|] == w
  {
    if s == [] || IsSpace(s[0]) then [] else
      var w := Word(s[1..]);
      assert s[..1 + |w|] == [s[0]] + s[1..][..|w|];
      [s[0]] + w
  }

  /** DecodeBase58; None is false. */
  function DecodeBase58(s: string): Option<seq<nat>> {
    DecodeTrimmed(SkipSpaces(CString(s)))
  }

  function DecodeTrimmed(t: string): Option<seq<nat>> {
    var z := CountOnes(t);
    var word := Word(t[z..]);
    if !IsText(word) || SkipSpaces(t[z + |word|..]) != [] then None
    else Some(Zeros(z) + Digits(Value(DigitsOf(word), 58), 256))
  }

  lemma {:induction false} OnesCounted(n: nat, s: string)
    requires s == [] || s[0] != '1'
    ensures CountOnes(Ones(n) + s) == n
  {
    if n == 0 {
      EmptyAppend(s);
    } else {
      assert (Ones(n) + s)[1..] == Ones(n - 1) + s;
      OnesCounted(n - 1, s);
    }
  }

  lemma {:induction false} WordOfText(s: string)
    requires IsText(s)
    ensures Word(s) == s && CString(s) == s && SkipSpaces(s) == s
  {
    if s != [] {
      MapRoundTrip(s[0]);
      NoSpace(s[0]);
      WordOfText(s[1..]);
      assert s == [s[0]] + s[1..];
    }
  }

  lemma {:induction false} NoSpace(c: char)
    requires MapBase58(c) != -1
    ensures !IsSpace(c) && c != 0 as char
  {
    assert MapBase58(' ') == -1 && MapBase58('\n') == -1 && MapBase58('\r') == -1 && MapBase58('\t') == -1;
    assert MapBase58(0 as char) == -1 && MapBase58(11 as char) == -1 && MapBase58(12 as char) == -1;
  }

  lemma {:induction false} OnesText(n: nat, s: string)
    requires IsText(s)
    ensures IsText(Ones(n) + s)
  {
    assert MapBase58('1') == 0;
  }

  /** Decoding undoes encoding on every byte vector. */
  lemma {:induction false} RoundTrip(v: seq<nat>)
    requires InBase(v, 256)
    ensures DecodeBase58(EncodeBase58(v)) == Some(v)
  {
    var z := LeadingZeros(v);
    LeadingZerosSplit(v);
    var n := Value(v[z..], 256);
    DigitsUnique(v[z..], 256);
    DigitsAre(n, 58);
    var d := Digits(n, 58);
    DigitsOfText(d);
    var s := EncodeBase58(v);
    OnesText(z, Text(d));
    WordOfText(s);
    if d != [] {
      FirstDigit(d);
    }
    OnesCounted(z, Text(d));
    assert s[z..] == Text(d);
    WordOfText(Text(d));
    assert s[z + |Text(d)|..] == [];
  }

  lemma {:induction false} FirstDigit(d: seq<nat>)
    requires InBase(d, 58) && d != [] && d[0] != 0
    ensures Text(d)[0] != '1'
  {
    AlphabetRoundTrip(d[0]);
  }

  lemma {:induction false} CountedOnes(s: string)
    ensures var n := CountOnes(s); s[..n] == Ones(n) && (n == |s| || s[n] != '1')
  {
    if s != [] && s[0] == '1' {
      CountedOnes(s[1..]);
      var n := CountOnes(s[1..]);
      assert s[..n + 1] == [s[0]] + s[1..][..n];
    }
  }

  lemma {:induction false} ZerosLead(n: nat, d: seq<nat>)
    requires d == [] || d[0] != 0
    ensures LeadingZeros(Zeros(n) + d) == n
  {
    if n == 0 {
      EmptyAppend(d);
    } else {
      assert (Zeros(n) + d)[1..] == Zeros(n - 1) + d;
      ZerosLead(n - 1, d);
    }
  }

  lemma {:induction false} WordDigits(word: string)
    requires IsText(word) && (word == [] || word[0] != '1')
    ensures Digits(Value(DigitsOf(word), 58), 58) == DigitsOf(word) && Text(DigitsOf(word)) == word
  {
    TextOfDigits(word);
    if word != [] {
      assert Alphabet(DigitsOf(word)[0]) == word[0];
      assert Alphabet(0) == '1';
    }
    DigitsUnique(DigitsOf(word), 58);
  }

  lemma {:induction false} EncodesBack(z: nat, word: string)
    requires IsText(word) && (word == [] || word[0] != '1')
    ensures var v := Zeros(z) + Digits(Value(DigitsOf(word), 58), 256);
      InBase(v, 256) && EncodeBase58(v) == Ones(z) + word
  {
    WordDigits(word);
    var n := Value(DigitsOf(word), 58);
    DigitsAre(n, 256);
    ZerosLead(z, Digits(n, 256));
    assert (Zeros(z) + Digits(n, 256))[z..] == Digits(n, 256);
  }

  lemma {:induction false} StartOf(t: string)
    ensures var z := CountOnes(t); var word := Word(t[z..]);
      z + |word| <= |t| && t[..z + |word|] == Ones(z) + word && (word == [] || word[0] != '1')
  {
    var z := CountOnes(t);
    var word := Word(t[z..]);
    CountedOnes(t);
    assert t[..z + |word|] == t[..z] + t[z..][..|word|];
    assert word == [] || word[0] == t[z];
  }

  /** What decodes is, up to surrounding spaces and a NUL, the encoding of what it decodes to. */
  lemma {:induction false} DecodedIsEncoded(s: string)
    requires DecodeBase58(s).Some?
    ensures var (v, t) := (DecodeBase58(s).value, SkipSpaces(CString(s)));
      && InBase(v, 256) && |EncodeBase58(v)| <= |t| && t[..|EncodeBase58(v)|] == EncodeBase58(v)
      && SkipSpaces(t[|EncodeBase58(v)|..]) == []
  {
    var t := SkipSpaces(CString(s));
    StartOf(t);
    EncodesBack(CountOnes(t), Word(t[CountOnes(t)..]));
  }

  // ----- what a string stands for -----

  /** pszBase58: the digits from 1, the capital letters without I and O, and the small letters without l. */
  lemma {:induction false} AlphabetIs(v: nat)
    requires v < 58
    ensures Alphabet(v) ==
      if v < 9 then '1' + v as char
      else if v < 17 then 'A' + (v - 9) as char
      else if v < 22 then 'J' + (v - 17) as char
      else if v < 33 then 'P' + (v - 22) as char
      else if v < 44 then 'a' + (v - 33) as char
      else 'm' + (v - 44) as char
  {
  }

  lemma {:induction false} OnesAreZeros(n: nat, d: seq<nat>)
    requires InBase(d, 58)
    ensures IsText(Ones(n) + Text(d)) && DigitsOf(Ones(n) + Text(d)) == Zeros(n) + d
  {
    DigitsOfText(d);
    OnesText(n, Text(d));
    assert MapBase58('1') == 0;
    var s := Ones(n) + Text(d);
    forall i | 0 <= i < |s|
      ensures DigitsOf(s)[i] == (Zeros(n) + d)[i]
    {
      if i >= n {
        assert s[i] == Text(d)[i - n] && MapBase58(Text(d)[i - n]) == DigitsOf(Text(d))[i - n];
      }
    }
  }

  /** The string of a byte vector has the value of the vector, and as many leading ones as the vector leading zeros. */
  lemma {:induction false} EncodedMeans(v: seq<nat>) returns (z: nat)
    requires InBase(v, 256)
    ensures var s := EncodeBase58(v);
      && IsText(s) && Value(DigitsOf(s), 58) == Value(v, 256)
      && z <= |v| && v[..z] == Zeros(z) && (z < |v| ==> v[z] != 0)
      && z <= |s| && s[..z] == Ones(z) && (z < |s| ==> s[z] != '1') && (z == |s| <==> z == |v|)
  {
    z := LeadingZeros(v);
    LeadingZerosSplit(v);
    var n := Value(v[z..], 256);
    var d, s := Digits(n, 58), EncodeBase58(v);
    ValueZeros(z, v[z..], 256);
    DigitsAre(n, 58);
    OnesAreZeros(z, d);
    ValueZeros(z, d, 58);
    DigitsUnique(v[z..], 256);
    assert s[..z] == Ones(z) && s[z..] == Text(d);
    if d != [] {
      FirstDigit(d);
      assert s[z] == s[z..][0];
    }
  }

  // ----- spaces -----

  predicate AllSpaces(s: string) {
    forall i :: 0 <= i < |s| ==> s[i] in {' ', '\t', '\n', '\r', 11 as char, 12 as char}
  }

  lemma {:induction false} SpacesAreSkipped(a: string, s: string)
    requires AllSpaces(a) && (s == [] || !IsSpace(s[0]))
    ensures SkipSpaces(a + s) == s
  {
    if a == [] {
      EmptyAppend(s);
    } else {
      assert (a + s)[1..] == a[1..] + s;
      SpacesAreSkipped(a[1..], s);
    }
  }

  lemma {:induction false} NoNul(a: string, s: string)
    requires AllSpaces(a)
    ensures CString(a + s) == a + CString(s)
  {
    if a == [] {
      EmptyAppend(s);
      EmptyAppend(CString(s));
    } else {
      assert (a + s)[1..] == a[1..] + s;
      NoNul(a[1..], s);
      assert a == [a[0]] + a[1..];
    }
  }

  lemma {:induction false} WordEnds(s: string, b: string)
    requires IsText(s) && AllSpaces(b)
    ensures Word(s + b) == s && CString(s + b) == s + b
  {
    if s == [] {
      EmptyAppend(b);
      NoNul(b, []);
      EmptyAppend(b);
    } else {
      MapRoundTrip(s[0]);
      NoSpace(s[0]);
      assert (s + b)[1..] == s[1..] + b;
      WordEnds(s[1..], b);
      assert s == [s[0]] + s[1..];
    }
  }

  /** Spaces in front of an encoded string and behind it are skipped. */
  lemma {:induction false} SpacesSkipped(v: seq<nat>, a: string, b: string)
    requires InBase(v, 256) && AllSpaces(a) && AllSpaces(b)
    ensures DecodeBase58(a + EncodeBase58(v) + b) == Some(v)
  {
    var s := EncodeBase58(v);
    var z := EncodedMeans(v);
    Assoc(a, s, b);
    NoNul(a, s + b);
    WordEnds(s, b);
    TrimmedText(a, s, b);
    SameDecoding(s, b, z);
    RoundTrip(v);
    WordOfText(s);
  }

  lemma {:induction false} TrimmedText(a: string, s: string, b: string)
    requires IsText(s) && AllSpaces(a) && AllSpaces(b)
    ensures SkipSpaces(a + (s + b)) == if s == [] then [] else s + b
  {
    if s == [] {
      EmptyAppend(b);
      Assoc(a, b, []);
      EmptyAppend(a + b);
      SpacesAreSkipped(a + b, []);
      EmptyAppend(a + b);
    } else {
      MapRoundTrip(s[0]);
      NoSpace(s[0]);
      SpacesAreSkipped(a, s + b);
    }
  }

  lemma {:induction false} OnesLead(s: string, b: string, z: nat)
    requires z <= |s| && s[..z] == Ones(z) && (z < |s| ==> s[z] != '1') && AllSpaces(b)
    ensures CountOnes(s + b) == z && (s + b)[z..] == s[z..] + b
  {
    assert s + b == Ones(z) + (s[z..] + b);
    OnesCounted(z, s[z..] + b);
  }

  /** Spaces behind a word do not change what it decodes to. */
  lemma {:induction false} SameDecoding(s: string, b: string, z: nat)
    requires IsText(s) && AllSpaces(b) && z <= |s| && s[..z] == Ones(z) && (z < |s| ==> s[z] != '1')
    ensures DecodeTrimmed(s + b) == DecodeTrimmed(s)
  {
    OnesLead(s, b, z);
    OnesLead(s, [], z);
    EmptyAppend(s);
    EmptyAppend(s[z..]);
    WordEnds(s[z..], b);
    WordEnds(s[z..], []);
    assert (s + b)[z + |s[z..]|..] == b && s[z + |s[z..]|..] == [];
    SpacesAreSkipped(b, []);
    EmptyAppend(b);
  }
}
