/** Facts about multiplication, division and remainders that the solver needs spelled out. */
module Numbers {

  type byte = x: nat | x < 256

  function Min(a: int, b: int): int {
    if a <= b then a else b
  }

  function Max(a: int, b: int): int {
    if a >= b then a else b
  }

  lemma {:induction false} MulAway(d: int, n: nat)
    ensures d >= 1 ==> d * n >= n
    ensures d <= -1 ==> d * n <= 0 - n
  {
    if d >= 1 {
      assert d * n - n == (d - 1) * n;
    } else if d <= -1 {
      assert d * n + n == (d + 1) * n;
    }
  }

  /** Quotient and remainder are determined by the division equation. */
  lemma {:induction false} DivModUnique(x: int, q: int, n: nat, r: int)
    requires 0 <= r < n && x == q * n + r
    ensures x / n == q && x % n == r
  {
    var d := x / n - q;
    assert x == (x / n) * n + x % n;
    assert d * n == r - x % n;
    MulAway(d, n);
  }

  function Pow2(n: nat): (p: nat)
    ensures p > 0
  {
    if n == 0 then 1 else 2 * Pow2(n - 1)
  }

  lemma {:induction false} Pow2Add(i: nat, j: nat)
    ensures Pow2(i + j) == Pow2(i) * Pow2(j)
  {
    if i > 0 {
      Pow2Add(i - 1, j);
      var a, b := Pow2(i - 1), Pow2(j);
      MulAssoc(2, a, b);
    }
  }

  lemma {:induction false} Pow2Grows(i: nat, j: nat)
    requires i <= j
    ensures Pow2(i) <= Pow2(j)
  {
    if i < j {
      Pow2Grows(i, j - 1);
    }
  }

  lemma {:induction false} Expand(q: nat, d: nat, r: nat, e: nat)
    ensures (q * d + r) * e == q * (d * e) + r * e
  {
    assert (q * d + r) * e == q * d * e + r * e;
    MulAssoc(q, d, e);
  }

  lemma {:induction false} MulAssoc(a: nat, b: nat, c: nat)
    ensures a * b * c == a * (b * c)
  {
  }

  lemma {:induction false} MulLess(a: nat, b: nat, c: nat)
    requires a < b && c > 0
    ensures a * c < b * c
  {
    MulAway(b - a, c);
    assert (b - a) * c == b * c - a * c;
  }

  lemma {:induction false} MulComm(a: nat, b: nat)
    ensures a * b == b * a
  {
  }

  /** Digits below their bases make a number below the product. */
  lemma {:induction false} DigitsBelow(h: nat, q: nat, l: nat, p: nat)
    requires h < q && l < p
    ensures h * p + l < q * p
  {
    MulAway(q - h, p);
    assert (q - h) * p == q * p - h * p;
  }

  lemma {:induction false} Division(a: nat, n: nat)
    requires n > 0
    ensures a == a / n * n + a % n && 0 <= a % n < n
  {
  }

  lemma {:induction false} Pow2Of8()
    ensures Pow2(8) == 256
  {
    assert Pow2(1) == 2;
    assert Pow2(2) == 4;
    assert Pow2(3) == 8;
    assert Pow2(4) == 16;
    Pow2Add(4, 4);
  }

  lemma {:induction false} Pow2Of64()
    ensures Pow2(16) == 0x1_0000 && Pow2(32) == 0x1_0000_0000 && Pow2(64) == 0x1_0000_0000_0000_0000
  {
    Pow2Of8();
    Pow2Doubled(8);
    Pow2Doubled(16);
    Pow2Doubled(32);
  }

  lemma {:induction false} Pow2Doubled(k: nat)
    ensures Pow2(2 * k) == Pow2(k) * Pow2(k)
  {
    Pow2Add(k, k);
  }
}
