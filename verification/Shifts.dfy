/** Shifts, masks and bitwise or on natural numbers, bit by bit. */
module Shifts {
  import opened Numbers

  /** x << k */
  function Shl(x: nat, k: nat): nat {
    if k == 0 then x else 2 * Shl(x, k - 1)
  }

  /** x >> k */
  function Shr(x: nat, k: nat): nat {
    if k == 0 then x else Shr(x / 2, k - 1)
  }

  /** The low k bits of x. */
  function Low(x: nat, k: nat): nat {
    if k == 0 then 0 else 2 * Low(x / 2, k - 1) + x % 2
  }

  lemma {:induction false} LowBelow(x: nat, k: nat)
    ensures Low(x, k) < Pow2(k)
  {
    if k > 0 {
      LowBelow(x / 2, k - 1);
    }
  }

  /** x | y */
  function Or(x: nat, y: nat): nat {
    if x == 0 then y else if y == 0 then x else (if x % 2 == 1 || y % 2 == 1 then 1 else 0) + 2 * Or(x / 2, y / 2)
  }

  lemma {:induction false} ShlPlus(x: nat, i: nat, j: nat)
    ensures Shl(Shl(x, i), j) == Shl(x, i + j)
  {
    if j > 0 {
      ShlPlus(x, i, j - 1);
    }
  }

  lemma {:induction false} ShlSum(x: nat, y: nat, k: nat)
    ensures Shl(x + y, k) == Shl(x, k) + Shl(y, k)
  {
    if k > 0 {
      ShlSum(x, y, k - 1);
    }
  }

  lemma {:induction false} ShlTwice(x: nat, k: nat)
    ensures Shl(2 * x, k) == 2 * Shl(x, k)
  {
    if k > 0 {
      ShlTwice(x, k - 1);
    }
  }

  lemma {:induction false} ShlLess(x: nat, k: nat)
    ensures x <= Shl(x, k)
  {
    if k > 0 {
      ShlLess(x, k - 1);
    }
  }

  lemma {:induction false} ShlBelow(x: nat, i: nat, j: nat)
    requires x < Pow2(i)
    ensures Shl(x, j) < Pow2(i + j)
  {
    if j > 0 {
      ShlBelow(x, i, j - 1);
    }
  }

  lemma {:induction false} ShrPlus(x: nat, i: nat, j: nat)
    ensures Shr(Shr(x, i), j) == Shr(x, i + j)
  {
    if i > 0 {
      ShrPlus(x / 2, i - 1, j);
    }
  }

  lemma {:induction false} ShrLess(x: nat, k: nat)
    ensures Shr(x, k) <= x
  {
    if k > 0 {
      ShrLess(x / 2, k - 1);
    }
  }

  lemma {:induction false} ShrBelow(x: nat, i: nat, j: nat)
    requires x < Pow2(i + j)
    ensures Shr(x, j) < Pow2(i)
  {
    if j > 0 {
      ShrBelow(x / 2, i, j - 1);
    }
  }

  /** A number is its high part and its low part. */
  lemma {:induction false} Parts(x: nat, k: nat)
    ensures x == Shl(Shr(x, k), k) + Low(x, k)
  {
    if k > 0 {
      Parts(x / 2, k - 1);
    }
  }

  lemma {:induction false} ShlIsMul(x: nat, k: nat)
    ensures Shl(x, k) == x * Pow2(k)
  {
    if k > 0 {
      ShlIsMul(x, k - 1);
    }
  }

  /** Shifting right and masking divide by a power of two. */
  lemma {:induction false} ShrIsDiv(x: nat, k: nat)
    ensures Shr(x, k) == x / Pow2(k) && Low(x, k) == x % Pow2(k)
  {
    Parts(x, k);
    LowBelow(x, k);
    ShlIsMul(Shr(x, k), k);
    DivModUnique(x, Shr(x, k), Pow2(k), Low(x, k));
  }

  /** (x << j) + y has the high part x and the low part y. */
  lemma {:induction false} PartsUnique(x: nat, y: nat, k: nat)
    requires y < Pow2(k)
    ensures Shr(Shl(x, k) + y, k) == x && Low(Shl(x, k) + y, k) == y
  {
    if k > 0 {
      PartsUnique(x, y / 2, k - 1);
      var z := Shl(x, k) + y;
      assert z / 2 == Shl(x, k - 1) + y / 2 && z % 2 == y % 2;
    }
  }

  lemma {:induction false} JoinBelow(x: nat, i: nat, y: nat, j: nat)
    requires x < Pow2(i) && y < Pow2(j)
    ensures Shl(x, j) + y < Pow2(i + j)
  {
    if j > 0 {
      JoinBelow(x, i, y / 2, j - 1);
    }
  }

  lemma {:induction false} ShrShl(x: nat, j: nat, k: nat)
    ensures Shr(Shl(x, j), k) == if k >= j then Shr(x, k - j) else Shl(x, j - k)
  {
    if j > 0 && k > 0 {
      ShrShl(x, j - 1, k - 1);
    }
  }

  /** A left shift within i + j bits keeps the low i bits. */
  lemma {:induction false} LowShl(x: nat, i: nat, j: nat)
    ensures Low(Shl(x, j), i + j) == Shl(Low(x, i), j)
  {
    if j > 0 {
      LowShl(x, i, j - 1);
    }
  }

  lemma {:induction false} LowShr(x: nat, i: nat, j: nat)
    ensures Low(Shr(x, i), j) == Shr(Low(x, i + j), i)
  {
    if i > 0 {
      LowShr(x / 2, i - 1, j);
      var y := Low(x, i + j);
      assert y / 2 == Low(x / 2, i + j - 1);
    }
  }

  lemma {:induction false} LowAll(x: nat, k: nat)
    requires x < Pow2(k)
    ensures Low(x, k) == x && Shr(x, k) == 0
  {
    if k > 0 {
      LowAll(x / 2, k - 1);
    }
  }

  lemma {:induction false} OrDisjoint(x: nat, y: nat, k: nat)
    requires y < Pow2(k)
    ensures Or(Shl(x, k), y) == Shl(x, k) + y
  {
    if k > 0 {
      OrDisjoint(x, y / 2, k - 1);
    }
  }

  lemma {:induction false} OrComm(x: nat, y: nat)
    ensures Or(x, y) == Or(y, x)
  {
    if x > 0 && y > 0 {
      OrComm(x / 2, y / 2);
    }
  }

  // ----- exclusive or -----

  /** x ^ y */
  function Xor(x: nat, y: nat): nat
    decreases x + y
  {
    if x == 0 && y == 0 then 0 else (if x % 2 == y % 2 then 0 else 1) + 2 * Xor(x / 2, y / 2)
  }

  lemma {:induction false} XorZero(x: nat)
    ensures Xor(x, 0) == x && Xor(0, x) == x && Xor(x, x) == 0
  {
    if x > 0 {
      XorZero(x / 2);
    }
  }

  lemma {:induction false} XorParity(x: nat, y: nat)
    ensures Xor(x, y) % 2 == if x % 2 == y % 2 then 0 else 1
  {
  }

  lemma {:induction false} XorComm(x: nat, y: nat)
    ensures Xor(x, y) == Xor(y, x)
    decreases x + y
  {
    if x + y > 0 {
      XorComm(x / 2, y / 2);
    }
  }

  lemma {:induction false} XorAssoc(x: nat, y: nat, z: nat)
    ensures Xor(Xor(x, y), z) == Xor(x, Xor(y, z))
    decreases x + y + z
  {
    if x + y + z > 0 {
      XorAssoc(x / 2, y / 2, z / 2);
      var a, b := Xor(x, y), Xor(y, z);
      assert a / 2 == Xor(x / 2, y / 2) && a % 2 == (if x % 2 == y % 2 then 0 else 1);
      assert b / 2 == Xor(y / 2, z / 2) && b % 2 == (if y % 2 == z % 2 then 0 else 1);
    }
  }

  /** (a ^ b) ^ (c ^ d) == (a ^ c) ^ (b ^ d) */
  lemma {:induction false} XorSwap(a: nat, b: nat, c: nat, d: nat)
    ensures Xor(Xor(a, b), Xor(c, d)) == Xor(Xor(a, c), Xor(b, d))
  {
    XorAssoc(a, b, Xor(c, d));
    XorAssoc(b, c, d);
    XorComm(b, c);
    XorAssoc(c, b, d);
    XorAssoc(a, c, Xor(b, d));
  }

  lemma {:induction false} XorShl(x: nat, y: nat, k: nat)
    ensures Xor(Shl(x, k), Shl(y, k)) == Shl(Xor(x, y), k)
  {
    if k > 0 {
      XorShl(x, y, k - 1);
    }
  }

  lemma {:induction false} XorParts(x: nat, y: nat, k: nat)
    ensures Xor(Shr(x, k), Shr(y, k)) == Shr(Xor(x, y), k)
    ensures Xor(Low(x, k), Low(y, k)) == Low(Xor(x, y), k)
  {
    if k > 0 {
      XorParts(x / 2, y / 2, k - 1);
      var z := Xor(x, y);
      assert z / 2 == Xor(x / 2, y / 2) && z % 2 == (if x % 2 == y % 2 then 0 else 1);
    } else {
      XorZero(0);
    }
  }

  lemma {:induction false} XorBelow(x: nat, y: nat, k: nat)
    requires x < Pow2(k) && y < Pow2(k)
    ensures Xor(x, y) < Pow2(k)
  {
    if k > 0 {
      XorBelow(x / 2, y / 2, k - 1);
    }
  }

  lemma {:induction false} XorDisjoint(x: nat, y: nat, k: nat)
    requires y < Pow2(k)
    ensures Xor(Shl(x, k), y) == Shl(x, k) + y
  {
    if k == 0 {
      XorZero(x);
    } else {
      XorDisjoint(x, y / 2, k - 1);
      var z := Shl(x, k - 1);
      assert Shl(x, k) == 2 * z && Xor(2 * z, y) == y % 2 + 2 * Xor(z, y / 2);
    }
  }

  /** The only z with x ^ z == y is x ^ y. */
  lemma {:induction false} XorSolve(x: nat, z: nat, y: nat)
    ensures Xor(x, z) == y <==> z == Xor(x, y)
  {
    XorAssoc(x, x, z);
    XorAssoc(x, x, y);
    XorZero(x);
    XorZero(z);
    XorZero(y);
  }
}
