// JavaScript's 32-bit operators on unsigned bit patterns, written out on
// natural numbers: `x << k`, `x >>> k`, `x & y`, `x | y` and `~x`, each
// followed by `>>> 0` as in the engine.
module Bits {
  const WORD: nat := 0x1_0000_0000

  function Pow2(k: nat): (r: nat)
    ensures r > 0
  {
    if k == 0 then 1 else 2 * Pow2(k - 1)
  }

  function And(x: nat, y: nat): nat {
    if x == 0 || y == 0 then 0
    else 2 * And(x / 2, y / 2) + (if x % 2 == 1 && y % 2 == 1 then 1 else 0)
  }

  function Or(x: nat, y: nat): nat {
    if x == 0 && y == 0 then 0
    else 2 * Or(x / 2, y / 2) + (if x % 2 == 1 || y % 2 == 1 then 1 else 0)
  }

  // The shift count of `<<` is taken modulo 32 and the result truncated.
  function ShiftLeft(x: nat, k: nat): nat { (x * Pow2(k % 32)) % WORD }

  function ShiftRight(x: nat, k: nat): nat { Quotient(x, Pow2(k % 32)) }

  function Quotient(x: nat, d: nat): nat
    requires d > 0
  {
    x / d
  }

  function Not(x: nat): nat
    requires x < WORD
  {
    WORD - 1 - x
  }

  lemma {:induction false} Pow2Add(i: nat, j: nat)
    ensures Pow2(i + j) == Pow2(i) * Pow2(j)
  {
    if i > 0 {
      Pow2Add(i - 1, j);
      assert Pow2(i) * Pow2(j) == 2 * (Pow2(i - 1) * Pow2(j));
    }
  }

  lemma Pow2Values()
    ensures Pow2(0) == 1 && Pow2(8) == 256 && Pow2(16) == 0x1_0000 && Pow2(24) == 0x100_0000 && Pow2(32) == WORD
  {
    assert Pow2(4) == 16;
    Pow2Add(4, 4);
    Pow2Add(8, 8);
    Pow2Add(16, 8);
    Pow2Add(16, 16);
  }

  // Masking with the low k bits keeps the remainder modulo 2^k.
  lemma {:induction false} AndLow(x: nat, k: nat)
    ensures And(x, Pow2(k) - 1) == x % Pow2(k)
  {
    if k > 0 {
      var half: nat := Pow2(k - 1);
      AndLow(x / 2, k - 1);
      HalvedRemainder(x, half);
      assert Pow2(k) - 1 == 2 * (half - 1) + 1;
      assert (Pow2(k) - 1) / 2 == half - 1 && (Pow2(k) - 1) % 2 == 1;
      if x == 0 { assert 0 % Pow2(k) == 0; }
    }
  }

  lemma HalvedRemainder(x: nat, half: nat)
    requires half > 0
    ensures x % (2 * half) == 2 * ((x / 2) % half) + x % 2
  {
    var q, r := (x / 2) / half, (x / 2) % half;
    assert x == 2 * (half * q + r) + x % 2;
    assert x == (2 * half) * q + (2 * r + x % 2);
    RemainderUnique(x, 2 * half, q, 2 * r + x % 2);
  }

  lemma ProductGap(d: nat, gap: int)
    ensures gap >= 1 ==> d * gap >= d
    ensures gap <= -1 ==> d * gap <= 0 - d
  {
  }

  lemma Distribute(d: int, a: int, b: int)
    ensures d * (a - b) == d * a - d * b
  {
  }

  lemma RemainderUnique(x: nat, d: nat, q: nat, r: nat)
    requires r < d && x == d * q + r
    ensures x % d == r && x / d == q
  {
    var quotient: int, remainder: int := x / d, x % d;
    assert x == d * quotient + remainder;
    Distribute(d, q, quotient);
    ProductGap(d, q - quotient);
  }

  // Masking with the bits k..w-1 of a w-bit word clears the low k bits.
  lemma {:induction false} AndHigh(x: nat, k: nat, w: nat)
    requires k <= w && x < Pow2(w)
    ensures Pow2(k) <= Pow2(w)
    ensures And(x, Pow2(w) - Pow2(k)) == x - x % Pow2(k)
  {
    if k == 0 {
      AndLow(x, w);
      assert x % 1 == 0;
      RemainderUnique(x, Pow2(w), 0, x);
    } else {
      var half: nat, top: nat := Pow2(k - 1), Pow2(w - 1);
      AndHigh(x / 2, k - 1, w - 1);
      HalvedRemainder(x, half);
      assert Pow2(w) - Pow2(k) == 2 * (top - half);
      var y: nat := Pow2(w) - Pow2(k);
      assert y / 2 == top - half && y % 2 == 0;
    }
  }

  // Setting the low k bits of a multiple of 2^k adds them.
  lemma {:induction false} OrAligned(x: nat, b: nat, k: nat, size: nat)
    requires size == Pow2(k) && x % size == 0 && b < size
    ensures Or(x, b) == x + b
  {
    if k == 0 {
      OrZero(x);
    } else {
      var half := Pow2(k - 1);
      HalvedRemainder(x, half);
      OrAligned(x / 2, b / 2, k - 1, half);
    }
  }

  lemma {:induction false} OrZero(x: nat)
    ensures Or(x, 0) == x
  {
    if x > 0 { OrZero(x / 2); }
  }
}
