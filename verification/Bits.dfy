/** Single bits of bytes. */
module Bits {

  /** 1 << k */
  function Mask(k: nat): bv8
    requires k < 8
  {
    if k == 0 then 0x01 else if k == 1 then 0x02 else if k == 2 then 0x04 else if k == 3 then 0x08
    else if k == 4 then 0x10 else if k == 5 then 0x20 else if k == 6 then 0x40 else 0x80
  }

  predicate Bit(b: bv8, k: nat)
    requires k < 8
  {
    b & Mask(k) != 0
  }

  lemma {:induction false} MasksApart(k: nat, j: nat)
    requires k < 8 && j < 8 && j != k
    ensures Mask(k) & Mask(j) == 0
  {
  }

  lemma {:induction false} SetBit(b: bv8, k: nat, j: nat)
    requires k < 8 && j < 8
    ensures Bit(b | Mask(k), j) == (j == k || Bit(b, j))
  {
    if j != k {
      MasksApart(k, j);
      MaskedOr(b, Mask(k), Mask(j));
    } else {
      assert Mask(k) != 0;
      MaskedSelf(b, Mask(k));
    }
  }

  lemma {:induction false} MaskedOr(b: bv8, m: bv8, n: bv8)
    requires m & n == 0
    ensures (b | m) & n == b & n
  {
  }

  lemma {:induction false} MaskedSelf(b: bv8, m: bv8)
    ensures (b | m) & m == m
  {
  }

  lemma {:induction false} UnsetBit(b: bv8, k: nat, j: nat)
    requires k < 8 && j < 8
    ensures Bit(b & !Mask(k), j) == (j != k && Bit(b, j))
  {
    if j != k {
      assert Mask(k) & Mask(j) == 0;
      MaskedAnd(b, Mask(k), Mask(j));
    } else {
      MaskedOut(b, Mask(k));
    }
  }

  lemma {:induction false} MaskedAnd(b: bv8, m: bv8, n: bv8)
    requires m & n == 0
    ensures (b & !m) & n == b & n
  {
  }

  lemma {:induction false} MaskedOut(b: bv8, m: bv8)
    ensures (b & !m) & m == 0
  {
  }

  lemma {:induction false} AllBitsSet(k: nat)
    requires k < 8
    ensures Bit(0xFF, k)
  {
  }
}
