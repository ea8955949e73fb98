/** Little-endian sequences of 32-bit limbs and the numbers they stand for (arith_uint256.h, arith_uint256.cpp). */
module Limbs {
  import opened Collections
  import opened Numbers
  import opened Shifts

  const BASE := 0x1_0000_0000

  /** BASE to the power n. */
  function P(n: nat): (p: nat)
    ensures p > 0
  {
    if n == 0 then 1 else BASE * P(n - 1)
  }

  predicate IsLimbs(a: seq<nat>) {
    forall i :: 0 <= i < |a| ==> a[i] < BASE
  }

  function Val(a: seq<nat>): nat {
    if a == [] then 0 else a[0] + BASE * Val(a[1..])
  }

  lemma {:induction false} ValBelow(a: seq<nat>)
    requires IsLimbs(a)
    ensures Val(a) < P(|a|)
  {
    if a != [] {
      ValBelow(a[1..]);
    }
  }

  /** What is congruent to x and below the modulus is x reduced. */
  lemma {:induction false} Reduced(v: nat, q: int, x: nat, m: nat)
    requires v < m && v + q * m == x
    ensures v == x % m
  {
    DivModUnique(x, q, m, v);
  }

  // ----- addition -----

  /** The loop of += from a limb on, with the carry into it. */
  function AddLimbs(a: seq<nat>, b: seq<nat>, carry: nat): (r: seq<nat>)
    requires |a| == |b|
    ensures |r| == |a| && IsLimbs(r)
  {
    if a == [] then [] else [(carry + a[0] + b[0]) % BASE] + AddLimbs(a[1..], b[1..], (carry + a[0] + b[0]) / BASE)
  }

  lemma {:induction false} AddValue(a: seq<nat>, b: seq<nat>, carry: nat) returns (q: nat)
    requires |a| == |b|
    ensures Val(AddLimbs(a, b, carry)) + q * P(|a|) == Val(a) + Val(b) + carry
  {
    if a == [] {
      q := carry;
    } else {
      q := AddValue(a[1..], b[1..], (carry + a[0] + b[0]) / BASE);
      assert AddLimbs(a, b, carry)[1..] == AddLimbs(a[1..], b[1..], (carry + a[0] + b[0]) / BASE);
      ScaleUp(q, P(|a| - 1));
    }
  }

  lemma {:induction false} ScaleUp(q: int, p: nat)
    ensures q * (BASE * p) == BASE * (q * p)
  {
  }

  /** += adds modulo 2^(32 * n). */
  lemma {:induction false} AddExact(a: seq<nat>, b: seq<nat>)
    requires |a| == |b|
    ensures Val(AddLimbs(a, b, 0)) == (Val(a) + Val(b)) % P(|a|)
  {
    var q := AddValue(a, b, 0);
    ValBelow(AddLimbs(a, b, 0));
    Reduced(Val(AddLimbs(a, b, 0)), q, Val(a) + Val(b), P(|a|));
  }

  // ----- complement, increment, negation -----

  function Complement(a: seq<nat>): (r: seq<nat>)
    requires IsLimbs(a)
    ensures |r| == |a| && IsLimbs(r)
  {
    seq(|a|, i requires 0 <= i < |a| => BASE - 1 - a[i])
  }

  lemma {:induction false} ComplementValue(a: seq<nat>)
    requires IsLimbs(a)
    ensures Val(Complement(a)) + Val(a) == P(|a|) - 1
  {
    if a != [] {
      ComplementValue(a[1..]);
      assert Complement(a)[1..] == Complement(a[1..]);
    }
  }

  /** ++: carry while limbs overflow to zero. */
  function Increment(a: seq<nat>): (r: seq<nat>)
    ensures |r| == |a|
  {
    if a == [] then [] else
      var n := (a[0] + 1) % BASE;
      if n == 0 then [0] + Increment(a[1..]) else [n] + a[1..]
  }

  lemma {:induction false} IncrementValue(a: seq<nat>) returns (q: nat)
    requires IsLimbs(a)
    ensures IsLimbs(Increment(a)) && Val(Increment(a)) + q * P(|a|) == Val(a) + 1
  {
    if a == [] {
      q := 1;
    } else if a[0] + 1 == BASE {
      q := IncrementValue(a[1..]);
      assert Increment(a)[1..] == Increment(a[1..]);
      ScaleUp(q, P(|a| - 1));
    } else {
      q := 0;
      assert Increment(a)[1..] == a[1..];
    }
  }

  /** --: borrow while limbs underflow. */
  function Decrement(a: seq<nat>): (r: seq<nat>)
    ensures |r| == |a|
  {
    if a == [] then [] else if a[0] == 0 then [BASE - 1] + Decrement(a[1..]) else [a[0] - 1] + a[1..]
  }

  lemma {:induction false} DecrementValue(a: seq<nat>) returns (q: nat)
    requires IsLimbs(a)
    ensures IsLimbs(Decrement(a)) && Val(Decrement(a)) + 1 == Val(a) + q * P(|a|)
  {
    if a == [] {
      q := 1;
    } else if a[0] == 0 {
      q := DecrementValue(a[1..]);
      assert Decrement(a)[1..] == Decrement(a[1..]);
      ScaleUp(q, P(|a| - 1));
    } else {
      q := 0;
      assert Decrement(a)[1..] == a[1..];
    }
  }

  function Negate(a: seq<nat>): seq<nat>
    requires IsLimbs(a)
  {
    Increment(Complement(a))
  }

  /** Unary minus, ++ and -- modulo 2^(32 * n). */
  lemma {:induction false} NegateExact(a: seq<nat>)
    requires IsLimbs(a)
    ensures IsLimbs(Negate(a)) && Val(Negate(a)) == (P(|a|) - Val(a)) % P(|a|)
  {
    ValBelow(a);
    ComplementValue(a);
    var q := IncrementValue(Complement(a));
    ValBelow(Negate(a));
    Reduced(Val(Negate(a)), q, P(|a|) - Val(a), P(|a|));
  }

  lemma {:induction false} IncrementExact(a: seq<nat>)
    requires IsLimbs(a)
    ensures IsLimbs(Increment(a)) && Val(Increment(a)) == (Val(a) + 1) % P(|a|)
  {
    var q := IncrementValue(a);
    ValBelow(Increment(a));
    Reduced(Val(Increment(a)), q, Val(a) + 1, P(|a|));
  }

  lemma {:induction false} LessOne(q: int, m: nat)
    ensures (1 - q) * m == m - q * m
  {
  }

  lemma {:induction false} DecrementExact(a: seq<nat>)
    requires IsLimbs(a)
    ensures IsLimbs(Decrement(a)) && Val(Decrement(a)) == (Val(a) + P(|a|) - 1) % P(|a|)
  {
    var q: int := DecrementValue(a);
    ValBelow(Decrement(a));
    LessOne(q, P(|a|));
    Reduced(Val(Decrement(a)), 1 - q, Val(a) + P(|a|) - 1, P(|a|));
  }

  /** a -= b where b is not larger. */
  lemma {:induction false} SubtractExact(a: seq<nat>, b: seq<nat>)
    requires |a| == |b| && IsLimbs(a) && IsLimbs(b)
    ensures Val(AddLimbs(a, Negate(b), 0)) == (Val(a) + P(|a|) - Val(b)) % P(|a|)
    ensures Val(b) <= Val(a) ==> Val(AddLimbs(a, Negate(b), 0)) == Val(a) - Val(b)
  {
    ValBelow(a);
    ValBelow(b);
    NegateExact(b);
    AddExact(a, Negate(b));
    SubtractValues(Val(AddLimbs(a, Negate(b), 0)), Val(Negate(b)), Val(a), Val(b), P(|a|));
  }

  lemma {:induction false} SubtractValues(r: nat, n: nat, x: nat, y: nat, m: nat)
    requires x < m && y < m && n == (m - y) % m && r == (x + n) % m
    ensures r == (x + m - y) % m && (y <= x ==> r == x - y)
  {
    SubtractMod(x, y, m);
  }

  lemma {:induction false} SubtractMod(x: nat, y: nat, m: nat)
    requires x < m && y < m
    ensures (x + (m - y) % m) % m == (x + m - y) % m
    ensures y <= x ==> (x + m - y) % m == x - y
  {
    if y == 0 {
      DivModUnique(m, 1, m, 0);
      DivModUnique(x + m, 1, m, x);
      DivModUnique(x, 0, m, x);
    } else {
      DivModUnique(m - y, 0, m, m - y);
      if y <= x {
        DivModUnique(x + m - y, 1, m, x - y);
      }
    }
  }

  // ----- multiplication -----

  /** The inner loop of *=: the limbs of acc + x * b + carry. */
  function AddMul(acc: seq<nat>, x: nat, b: seq<nat>, carry: nat): (r: seq<nat>)
    requires |acc| == |b|
    ensures |r| == |acc| && IsLimbs(r)
  {
    if acc == [] then [] else
      var n := carry + acc[0] + x * b[0];
      [n % BASE] + AddMul(acc[1..], x, b[1..], n / BASE)
  }

  lemma {:induction false} MulHead(x: nat, b0: nat, v: nat)
    ensures x * (b0 + BASE * v) == x * b0 + BASE * (x * v)
  {
  }

  lemma {:induction false} AddMulValue(acc: seq<nat>, x: nat, b: seq<nat>, carry: nat) returns (q: nat)
    requires |acc| == |b|
    ensures Val(AddMul(acc, x, b, carry)) + q * P(|acc|) == Val(acc) + x * Val(b) + carry
  {
    if acc == [] {
      q := carry;
    } else {
      var n := carry + acc[0] + x * b[0];
      q := AddMulValue(acc[1..], x, b[1..], n / BASE);
      assert AddMul(acc, x, b, carry)[1..] == AddMul(acc[1..], x, b[1..], n / BASE);
      ScaleUp(q, P(|acc| - 1));
      MulHead(x, b[0], Val(b[1..]));
    }
  }

  /** No intermediate sum of *= exceeds 64 bits. */
  lemma {:induction false} NoOverflow(carry: nat, a: nat, x: nat, b: nat)
    requires carry < BASE && a < BASE && x < BASE && b < BASE
    ensures carry + a + x * b < BASE * BASE && (carry + a + x * b) / BASE < BASE
  {
    MulAway(BASE - 1 - x, b);
    assert (BASE - 1 - x) * b == (BASE - 1) * b - x * b;
  }

  /** *= by a 32-bit number. */
  function MulSmall(a: seq<nat>, x: nat): seq<nat> {
    AddMul(Zeros(|a|), x, a, 0)
  }

  lemma {:induction false} ZerosValue(n: nat)
    ensures Val(Zeros(n)) == 0
  {
    if n > 0 {
      assert Zeros(n)[1..] == Zeros(n - 1);
      ZerosValue(n - 1);
    }
  }

  lemma {:induction false} MulSmallExact(a: seq<nat>, x: nat)
    ensures Val(MulSmall(a, x)) == x * Val(a) % P(|a|)
  {
    var q := AddMulValue(Zeros(|a|), x, a, 0);
    ZerosValue(|a|);
    ValBelow(MulSmall(a, x));
    Reduced(Val(MulSmall(a, x)), q, x * Val(a), P(|a|));
  }

  /** The outer loop of *=: each limb of `p` is multiplied in one limb further up, and `b` is cut off at the top. */
  function MulAll(acc: seq<nat>, p: seq<nat>, b: seq<nat>): (r: seq<nat>)
    requires |acc| == |p| == |b|
    ensures |r| == |acc|
    decreases |acc|
  {
    if acc == [] then [] else
      var n := AddMul(acc, p[0], b, 0);
      [n[0]] + MulAll(n[1..], p[1..], b[..|b| - 1])
  }

  lemma {:induction false} MulAllLimbs(acc: seq<nat>, p: seq<nat>, b: seq<nat>)
    requires |acc| == |p| == |b|
    ensures IsLimbs(MulAll(acc, p, b))
    decreases |acc|
  {
    if acc != [] {
      var n := AddMul(acc, p[0], b, 0);
      MulAllLimbs(n[1..], p[1..], b[..|b| - 1]);
    }
  }

  lemma {:induction false} ValSnoc(b: seq<nat>)
    requires b != []
    ensures Val(b) == Val(b[..|b| - 1]) + b[|b| - 1] * P(|b| - 1)
  {
    if |b| > 1 {
      ValSnoc(b[1..]);
      assert b[1..][..|b| - 2] == b[..|b| - 1][1..];
      ScaleUp(b[|b| - 1], P(|b| - 2));
    }
  }

  /** The equations of one round of the outer loop. */
  lemma {:induction false} MulRound(
    n0: nat, nv: nat, acc: nat, p0: nat, pv: nat, b: nat, bv: nat, top: nat, r: nat, q: int, q': int, m: nat)
    requires n0 + BASE * nv + q * (BASE * m) == acc + p0 * b
    requires r + q' * m == nv + pv * bv && b == bv + top * m
    ensures n0 + BASE * r + (q + q' + pv * top) * (BASE * m) == acc + (p0 + BASE * pv) * b
  {
    var s := pv * top;
    assert pv * b == pv * bv + s * m by {
      assert pv * (bv + top * m) == pv * bv + pv * (top * m);
      MulAssoc(pv, top, m);
    }
    assert (p0 + BASE * pv) * b == p0 * b + BASE * (pv * b);
    assert (q + q' + s) * (BASE * m) == q * (BASE * m) + BASE * (q' * m) + BASE * (s * m);
  }

  lemma {:induction false} MulAllValue(acc: seq<nat>, p: seq<nat>, b: seq<nat>) returns (q: int)
    requires |acc| == |p| == |b|
    ensures Val(MulAll(acc, p, b)) + q * P(|acc|) == Val(acc) + Val(p) * Val(b)
    decreases |acc|
  {
    if acc == [] {
      q := 0;
    } else {
      var n := AddMul(acc, p[0], b, 0);
      var q0 := AddMulValue(acc, p[0], b, 0);
      var q1 := MulAllValue(n[1..], p[1..], b[..|b| - 1]);
      ValSnoc(b);
      MulRound(n[0], Val(n[1..]), Val(acc), p[0], Val(p[1..]), Val(b), Val(b[..|b| - 1]), b[|b| - 1],
               Val(MulAll(n[1..], p[1..], b[..|b| - 1])), q0, q1, P(|acc| - 1));
      q := q0 + q1 + Val(p[1..]) * b[|b| - 1];
      assert MulAll(acc, p, b)[1..] == MulAll(n[1..], p[1..], b[..|b| - 1]);
    }
  }

  /** *= multiplies modulo 2^(32 * n). */
  lemma {:induction false} MulExact(p: seq<nat>, b: seq<nat>)
    requires |p| == |b|
    ensures IsLimbs(MulAll(Zeros(|p|), p, b)) && Val(MulAll(Zeros(|p|), p, b)) == Val(p) * Val(b) % P(|p|)
  {
    var r := MulAll(Zeros(|p|), p, b);
    var q := MulAllValue(Zeros(|p|), p, b);
    ZerosValue(|p|);
    MulAllLimbs(Zeros(|p|), p, b);
    ValBelow(r);
    Reduced(Val(r), q, Val(p) * Val(b), P(|p|));
  }

  // ----- shifts -----

  lemma {:induction false} ShlByLimb(x: nat)
    ensures Shl(x, 32) == BASE * x
  {
    ShlIsMul(x, 32);
    Pow2Of64();
  }

  lemma {:induction false} ShlOfMul(x: nat, s: nat)
    ensures Shl(BASE * x, s) == BASE * Shl(x, s)
  {
    if s > 0 {
      ShlOfMul(x, s - 1);
    }
  }

  /** A number as its low limb and the rest. */
  lemma {:induction false} LimbParts(x: nat)
    ensures x == Low(x, 32) + BASE * Shr(x, 32) && Low(x, 32) < BASE
  {
    Parts(x, 32);
    ShlByLimb(Shr(x, 32));
    LowBelow(x, 32);
    Pow2Of64();
  }

  /** The limbs shifted left by `s` bits, with the bits `carry` coming in. */
  function ShlLimbs(a: seq<nat>, s: nat, carry: nat): (r: seq<nat>)
    requires s < 32
    ensures |r| == |a|
  {
    if a == [] then [] else [Or(carry, Low(Shl(a[0], s), 32))] + ShlLimbs(a[1..], s, Shr(a[0], 32 - s))
  }

  /** The low limb: the carry fits below the shifted bits. */
  lemma {:induction false} ShlLimb(x: nat, s: nat, carry: nat)
    requires s < 32 && x < BASE && carry < Pow2(s)
    ensures Or(carry, Low(Shl(x, s), 32)) == carry + Low(Shl(x, s), 32) < BASE
    ensures Shl(x, s) == Low(Shl(x, s), 32) + BASE * Shr(x, 32 - s) && Shr(x, 32 - s) < Pow2(s)
  {
    LowShl(x, 32 - s, s);
    var y := Low(x, 32 - s);
    OrComm(carry, Shl(y, s));
    OrDisjoint(y, carry, s);
    LowBelow(x, 32 - s);
    JoinBelow(y, 32 - s, carry, s);
    Pow2Of64();
    LimbParts(Shl(x, s));
    ShrShl(x, s, 32);
    ShrBelow(x, s, 32 - s);
  }

  lemma {:induction false} ShlValue(a: seq<nat>, s: nat, carry: nat) returns (q: nat)
    requires s < 32 && IsLimbs(a) && carry < Pow2(s)
    ensures IsLimbs(ShlLimbs(a, s, carry)) && Val(ShlLimbs(a, s, carry)) + q * P(|a|) == Shl(Val(a), s) + carry
  {
    if a == [] {
      q := carry;
      ShlIsMul(0, s);
    } else {
      ShlLimb(a[0], s, carry);
      var r := ShlLimbs(a[1..], s, Shr(a[0], 32 - s));
      q := ShlValue(a[1..], s, Shr(a[0], 32 - s));
      assert ShlLimbs(a, s, carry)[1..] == r;
      ShlSum(a[0], BASE * Val(a[1..]), s);
      ShlOfMul(Val(a[1..]), s);
      ScaleUp(q, P(|a| - 1));
    }
  }

  /** `k` limbs up, cut off at the top. */
  function Up(a: seq<nat>, k: nat): (r: seq<nat>)
    ensures |r| == |a|
  {
    if k >= |a| then Zeros(|a|) else Zeros(k) + a[..|a| - k]
  }

  lemma {:induction false} UpOnce(x: seq<nat>)
    requires x != []
    ensures Val([0] + x[..|x| - 1]) + x[|x| - 1] * P(|x|) == BASE * Val(x)
  {
    ValSnoc(x);
    assert ([0] + x[..|x| - 1])[1..] == x[..|x| - 1];
    ScaleUp(x[|x| - 1], P(|x| - 1));
  }

  lemma {:induction false} UpStep(a: seq<nat>, k: nat)
    requires a != []
    ensures Up(a, k + 1) == [0] + Up(a, k)[..|a| - 1]
  {
    if k + 1 < |a| {
      assert Up(a, k)[..|a| - 1] == Zeros(k) + a[..|a| - k - 1];
    }
  }

  lemma {:induction false} UpValue(a: seq<nat>, k: nat) returns (q: nat)
    requires IsLimbs(a)
    ensures IsLimbs(Up(a, k)) && Val(Up(a, k)) + q * P(|a|) == Shl(Val(a), 32 * k)
  {
    if a == [] {
      q := 0;
      ShlIsMul(0, 32 * k);
    } else if k == 0 {
      q := 0;
      TakeAll(a);
      EmptyAppend(a);
    } else {
      q := UpValue(a, k - 1);
      q := UpOneMore(a, k - 1, q);
    }
  }

  lemma {:induction false} UpOneMore(a: seq<nat>, k: nat, q: nat) returns (q': nat)
    requires a != [] && IsLimbs(Up(a, k)) && Val(Up(a, k)) + q * P(|a|) == Shl(Val(a), 32 * k)
    ensures IsLimbs(Up(a, k + 1)) && Val(Up(a, k + 1)) + q' * P(|a|) == Shl(Val(a), 32 * (k + 1))
  {
    var x := Up(a, k);
    UpStep(a, k);
    UpOnce(x);
    ShlPlus(Val(a), 32 * k, 32);
    ShlByLimb(Shl(Val(a), 32 * k));
    UpEquation(Val(Up(a, k + 1)), x[|a| - 1], P(|a|), Val(x), q);
    q' := x[|a| - 1] + BASE * q;
  }

  lemma {:induction false} UpEquation(v: nat, top: nat, m: nat, x: nat, q: nat)
    requires v + top * m == BASE * x
    ensures v + (top + BASE * q) * m == BASE * (x + q * m)
  {
  }

  function ShiftLeft(a: seq<nat>, shift: nat): seq<nat> {
    ShlLimbs(Up(a, shift / 32), shift % 32, 0)
  }

  lemma {:induction false} ShlOfSum(x: nat, q: nat, m: nat, s: nat)
    ensures Shl(x + q * m, s) == Shl(x, s) + q * Pow2(s) * m
  {
    ShlSum(x, q * m, s);
    ShlIsMul(q * m, s);
    assert q * m * Pow2(s) == q * Pow2(s) * m;
  }

  lemma {:induction false} ShiftLeftValue(a: seq<nat>, k: nat, s: nat) returns (q: nat)
    requires IsLimbs(a) && s < 32
    ensures IsLimbs(ShlLimbs(Up(a, k), s, 0)) && Val(ShlLimbs(Up(a, k), s, 0)) + q * P(|a|) == Shl(Val(a), 32 * k + s)
  {
    var q0 := UpValue(a, k);
    var q1 := ShlValue(Up(a, k), s, 0);
    ShlPlus(Val(a), 32 * k, s);
    ShlOfSum(Val(Up(a, k)), q0, P(|a|), s);
    TwoMultiples(q1, q0 * Pow2(s), P(|a|));
    q := q1 + q0 * Pow2(s);
  }

  /** <<= multiplies by 2^shift modulo 2^(32 * n). */
  lemma {:induction false} ShiftLeftExact(a: seq<nat>, shift: nat)
    requires IsLimbs(a)
    ensures IsLimbs(ShiftLeft(a, shift)) && Val(ShiftLeft(a, shift)) == Shl(Val(a), shift) % P(|a|)
  {
    var q := ShiftLeftValue(a, shift / 32, shift % 32);
    ValBelow(ShiftLeft(a, shift));
    Reduced(Val(ShiftLeft(a, shift)), q, Shl(Val(a), shift), P(|a|));
  }

  lemma {:induction false} TwoMultiples(a: nat, b: nat, m: nat)
    ensures (a + b) * m == a * m + b * m
  {
  }

  /** The limbs shifted right by `s` bits. */
  function ShrLimbs(a: seq<nat>, s: nat): (r: seq<nat>)
    requires s < 32
    ensures |r| == |a|
  {
    if a == [] then [] else
      [Or(Shr(a[0], s), if |a| > 1 && s != 0 then Low(Shl(a[1], 32 - s), 32) else 0)] + ShrLimbs(a[1..], s)
  }

  lemma {:induction false} ShrSum(x: nat, w: nat, s: nat)
    ensures Shr(x + Shl(w, s), s) == Shr(x, s) + w
  {
    Parts(x, s);
    LowBelow(x, s);
    ShlSum(Shr(x, s), w, s);
    PartsUnique(Shr(x, s) + w, Low(x, s), s);
  }

  lemma {:induction false} OrShifted(x: nat, v: nat, s: nat, u: nat)
    requires x < Pow2(u + s)
    ensures Or(Shr(x, s), Low(Shl(v, u), s + u)) == Shr(x, s) + Low(Shl(v, u), s + u) < Pow2(s + u)
  {
    ShrBelow(x, u, s);
    LowShl(v, s, u);
    var y := Low(v, s);
    LowBelow(v, s);
    OrComm(Shr(x, s), Shl(y, u));
    OrDisjoint(y, Shr(x, s), u);
    JoinBelow(y, s, Shr(x, s), u);
  }

  /** One limb of a right shift, with the rest `v` above it. */
  lemma {:induction false} ShrLimb(x: nat, v: nat, s: nat)
    requires s < 32 && x < BASE
    ensures Shr(x + BASE * v, s) == Shr(x, s) + Low(Shl(v, 32 - s), 32) + BASE * Shr(v, s)
    ensures Or(Shr(x, s), Low(Shl(v, 32 - s), 32)) == Shr(x, s) + Low(Shl(v, 32 - s), 32) < BASE
  {
    ShlByLimb(v);
    ShlPlus(v, 32 - s, s);
    ShrSum(x, Shl(v, 32 - s), s);
    LimbParts(Shl(v, 32 - s));
    ShrShl(v, 32 - s, 32);
    Pow2Of64();
    OrShifted(x, v, s, 32 - s);
  }

  /** Only the next limb reaches into the one below. */
  lemma {:induction false} LowOfNext(a1: nat, v: nat, s: nat)
    requires s < 32
    ensures Low(Shl(a1 + BASE * v, 32 - s), 32) == Low(Shl(a1, 32 - s), 32)
  {
    ShiftedPlus(a1, v, 32 - s);
    LowPlus(Shl(a1, 32 - s), Shl(v, 32 - s));
  }

  lemma {:induction false} ShiftedPlus(x: nat, y: nat, k: nat)
    ensures Shl(x + BASE * y, k) == Shl(x, k) + BASE * Shl(y, k)
  {
    ShlSum(x, BASE * y, k);
    ShlOfMul(y, k);
  }

  lemma {:induction false} LowPlus(x: nat, y: nat)
    ensures Low(x + BASE * y, 32) == Low(x, 32)
  {
    LimbParts(x);
    ShlByLimb(Shr(x, 32) + y);
    Pow2Of64();
    PartsUnique(Shr(x, 32) + y, Low(x, 32), 32);
  }

  /** What the limb above contributes is what the whole rest above contributes. */
  lemma {:induction false} ReachesIn(a: seq<nat>, s: nat)
    requires s < 32 && IsLimbs(a) && a != []
    ensures Low(Shl(Val(a[1..]), 32 - s), 32) == (if |a| == 1 || s == 0 then 0 else Low(Shl(a[1], 32 - s), 32))
  {
    if |a| == 1 || s == 0 {
      NothingAbove(Val(a[1..]), s);
    } else {
      LowOfNext(a[1], Val(a[1..][1..]), s);
    }
  }

  lemma {:induction false} ShrValue(a: seq<nat>, s: nat)
    requires s < 32 && IsLimbs(a)
    ensures IsLimbs(ShrLimbs(a, s)) && Val(ShrLimbs(a, s)) == Shr(Val(a), s)
  {
    if a == [] {
      LowAll(0, s);
    } else {
      ShrValue(a[1..], s);
      ShrLimb(a[0], Val(a[1..]), s);
      assert ShrLimbs(a, s)[1..] == ShrLimbs(a[1..], s);
      ReachesIn(a, s);
    }
  }

  lemma {:induction false} NothingAbove(v: nat, s: nat)
    requires s < 32 && (v == 0 || s == 0)
    ensures Low(Shl(v, 32 - s), 32) == 0
  {
    LowShl(v, s, 32 - s);
    LowAll(0, s);
    ShlIsMul(0, 32 - s);
  }

  /** `k` limbs down. */
  function Down(a: seq<nat>, k: nat): (r: seq<nat>)
    ensures |r| == |a|
  {
    if k >= |a| then Zeros(|a|) else a[k..] + Zeros(k)
  }

  lemma {:induction false} ValZeroTop(x: seq<nat>)
    ensures Val(x + [0]) == Val(x)
  {
    ValSnoc(x + [0]);
    assert (x + [0])[..|x|] == x;
  }

  lemma {:induction false} DownStep(a: seq<nat>, k: nat)
    requires a != []
    ensures Down(a, k + 1) == Down(a, k)[1..] + [0]
  {
    if k + 1 < |a| {
      DropDrop(a, k, 1);
      assert Down(a, k)[1..] == a[k + 1..] + Zeros(k);
    }
  }

  lemma {:induction false} DownOnce(x: seq<nat>)
    requires x != [] && IsLimbs(x)
    ensures Val(x[1..] + [0]) == Shr(Val(x), 32)
  {
    ValZeroTop(x[1..]);
    ShlByLimb(Val(x[1..]));
    Pow2Of64();
    PartsUnique(Val(x[1..]), x[0], 32);
  }

  lemma {:induction false} DownValue(a: seq<nat>, k: nat)
    requires IsLimbs(a)
    ensures IsLimbs(Down(a, k)) && Val(Down(a, k)) == Shr(Val(a), 32 * k)
  {
    if a == [] {
      LowAll(0, 32 * k);
    } else if k == 0 {
      EmptyAppend(a);
      EmptyAppend(a[0..]);
    } else {
      DownValue(a, k - 1);
      DownStep(a, k - 1);
      DownOnce(Down(a, k - 1));
      ShrPlus(Val(a), 32 * (k - 1), 32);
    }
  }

  function ShiftRight(a: seq<nat>, shift: nat): seq<nat> {
    ShrLimbs(Down(a, shift / 32), shift % 32)
  }

  /** >>= divides by 2^shift. */
  lemma {:induction false} ShiftRightExact(a: seq<nat>, shift: nat)
    requires IsLimbs(a)
    ensures IsLimbs(ShiftRight(a, shift)) && Val(ShiftRight(a, shift)) == Shr(Val(a), shift)
  {
    DownValue(a, shift / 32);
    ShrValue(Down(a, shift / 32), shift % 32);
    ShrPlus(Val(a), 32 * (shift / 32), shift % 32);
  }

  // ----- comparison -----

  /** CompareTo, from the highest limb down. */
  function Compare(a: seq<nat>, b: seq<nat>): int
    requires |a| == |b|
  {
    if a == [] then 0 else
      var i := |a| - 1;
      if a[i] < b[i] then -1 else if a[i] > b[i] then 1 else Compare(a[..i], b[..i])
  }

  lemma {:induction false} CompareExact(a: seq<nat>, b: seq<nat>)
    requires |a| == |b| && IsLimbs(a) && IsLimbs(b)
    ensures Compare(a, b) == if Val(a) < Val(b) then -1 else if Val(a) > Val(b) then 1 else 0
  {
    if a != [] {
      var i := |a| - 1;
      CompareExact(a[..i], b[..i]);
      ValSnoc(a);
      ValSnoc(b);
      ValBelow(a[..i]);
      ValBelow(b[..i]);
      if a[i] < b[i] {
        DigitsBelow(a[i], b[i], Val(a[..i]), P(i));
      } else if a[i] > b[i] {
        DigitsBelow(b[i], a[i], Val(b[..i]), P(i));
      }
    }
  }

  // ----- the highest bit -----

  /** The position of the highest bit plus one. */
  function Bits(v: nat): nat {
    if v == 0 then 0 else 1 + Bits(v / 2)
  }

  lemma {:induction false} BitsRange(v: nat)
    ensures v < Pow2(Bits(v)) && (v > 0 ==> Bits(v) > 0 && Pow2(Bits(v) - 1) <= v)
  {
    if v > 0 {
      BitsRange(v / 2);
    }
  }

  lemma {:induction false} BitsUnique(v: nat, n: nat)
    requires Pow2(n) <= v < Pow2(n + 1)
    ensures Bits(v) == n + 1
  {
    if n > 0 {
      BitsUnique(v / 2, n - 1);
    }
  }

  lemma {:induction false} BitsBelow(v: nat, n: nat)
    requires v < Pow2(n)
    ensures Bits(v) <= n
  {
    if v > 0 {
      BitsBelow(v / 2, n - 1);
    }
  }

  lemma {:induction false} PIsPow2(n: nat)
    ensures P(n) == Pow2(32 * n)
  {
    if n > 0 {
      PIsPow2(n - 1);
      Pow2Of64();
      Pow2Add(32, 32 * (n - 1));
    }
  }

  lemma {:induction false} TopRange(l: nat, x: nat, n: nat, k: nat)
    requires l < Pow2(k) && Pow2(n) <= x < Pow2(n + 1)
    ensures Pow2(n + k) <= l + x * Pow2(k) < Pow2(n + 1 + k)
  {
    var p := Pow2(k);
    Pow2Add(n, k);
    Pow2Add(n + 1, k);
    MulAway(x - Pow2(n), p);
    assert (x - Pow2(n)) * p == x * p - Pow2(n) * p;
    DigitsBelow(x, Pow2(n + 1), l, p);
  }

  /** The highest bit is that of the highest limb that is not zero. */
  lemma {:induction false} BitsOfTop(low: seq<nat>, x: nat)
    requires IsLimbs(low) && 0 < x < BASE
    ensures Bits(Val(low) + x * P(|low|)) == 32 * |low| + Bits(x)
  {
    var n, k := Bits(x) - 1, 32 * |low|;
    BitsRange(x);
    ValBelow(low);
    PIsPow2(|low|);
    TopRange(Val(low), x, n, k);
    BitsUnique(Val(low) + x * P(|low|), n + k);
  }

  lemma {:induction false} ValTopZeros(a: seq<nat>, n: nat)
    requires n <= |a| && forall i :: n <= i < |a| ==> a[i] == 0
    ensures Val(a) == Val(a[..n])
  {
    if n < |a| {
      ValSnoc(a);
      ValTopZeros(a[..|a| - 1], n);
      TakeTake(a, n, |a| - 1);
    } else {
      TakeAll(a);
    }
  }

  // ----- setting a bit -----

  function SetBit(a: seq<nat>, bit: nat): (r: seq<nat>)
    requires bit < 32 * |a|
    ensures |r| == |a|
  {
    if bit < 32 then [Or(a[0], Shl(1, bit))] + a[1..] else [a[0]] + SetBit(a[1..], bit - 32)
  }

  lemma {:induction false} LowOfLimb(x: nat, v: nat, k: nat)
    requires k <= 32
    ensures Low(x + BASE * v, k) == Low(x, k)
  {
    ShlByLimb(v);
    ShlPlus(v, 32 - k, k);
    var w := Shl(v, 32 - k);
    Parts(x, k);
    LowBelow(x, k);
    ShlSum(Shr(x, k), w, k);
    PartsUnique(Shr(x, k) + w, Low(x, k), k);
  }

  /** Above one limb, the low bits are those of the limb and of the rest. */
  lemma {:induction false} LowAbove(x: nat, v: nat, k: nat)
    requires x < BASE
    ensures Low(x + BASE * v, 32 + k) == x + BASE * Low(v, k)
  {
    ShlByLimb(v);
    Pow2Of64();
    LowJoin(v, x, k, 32);
    ShlByLimb(Low(v, k));
  }

  lemma {:induction false} LowJoin(v: nat, x: nat, k: nat, j: nat)
    requires x < Pow2(j)
    ensures Low(Shl(v, j) + x, k + j) == Shl(Low(v, k), j) + x
  {
    if j > 0 {
      LowJoin(v, x / 2, k, j - 1);
      var y := Shl(v, j) + x;
      assert y / 2 == Shl(v, j - 1) + x / 2 && y % 2 == x % 2;
    }
  }

  lemma {:induction false} SetBitLimb(x: nat, bit: nat)
    requires bit < 32 && x < BASE && Low(x, bit + 1) == 0
    ensures Or(x, Shl(1, bit)) == x + Pow2(bit) < BASE
  {
    Parts(x, bit + 1);
    ShlBelow(1, 1, bit);
    ShlIsMul(1, bit);
    var y := Shr(x, bit + 1);
    OrDisjoint(y, Shl(1, bit), bit + 1);
    Pow2Of64();
    ShrBelow(x, 31 - bit, bit + 1);
    JoinBelow(y, 31 - bit, Pow2(bit), bit + 1);
  }

  lemma {:induction false} SetBitValue(a: seq<nat>, bit: nat)
    requires bit < 32 * |a| && IsLimbs(a) && Low(Val(a), bit + 1) == 0
    ensures IsLimbs(SetBit(a, bit)) && Val(SetBit(a, bit)) == Val(a) + Pow2(bit)
  {
    var v := Val(a[1..]);
    if bit < 32 {
      LowOfLimb(a[0], v, bit + 1);
      SetBitLimb(a[0], bit);
      assert SetBit(a, bit)[1..] == a[1..];
    } else {
      LowAbove(a[0], v, bit + 1 - 32);
      SetBitValue(a[1..], bit - 32);
      assert SetBit(a, bit)[1..] == SetBit(a[1..], bit - 32);
      Pow2Of64();
      Pow2Add(32, bit - 32);
    }
  }
}
