// Machine words as naturals below 2^64, with the bitwise operators the binding
// uses on pointers defined bit by bit.
module Bits {

  const TWO_64: nat := 0x1_0000_0000_0000_0000

  function Pow2(k: nat): (p: nat)
    ensures p >= 1
  {
    if k == 0 then 1 else 2 * Pow2(k - 1)
  }

  /** Bitwise `x & y`. */
  function And(x: nat, y: nat): nat
  {
    if x == 0 || y == 0 then 0
    else 2 * And(x / 2, y / 2) + (if x % 2 == 1 && y % 2 == 1 then 1 else 0)
  }

  /** Bitwise `x | y`. */
  function Or(x: nat, y: nat): nat
    decreases x + y
  {
    if x == 0 && y == 0 then 0
    else 2 * Or(x / 2, y / 2) + (if x % 2 == 1 || y % 2 == 1 then 1 else 0)
  }

  /** Bitwise `!x` on a 64-bit word. */
  function Not(x: nat): nat
    requires x < TWO_64
  {
    TWO_64 - 1 - x
  }

  // ---------- masks ----------

  lemma {:induction false} AndAllOnes(x: nat, n: nat)
    requires x < Pow2(n)
    ensures And(x, Pow2(n) - 1) == x
  {
    if n > 0 && x > 0 {
      AndAllOnes(x / 2, n - 1);
      assert (Pow2(n) - 1) / 2 == Pow2(n - 1) - 1;
    }
  }

  lemma AndEven(x: nat, half: nat)
    ensures And(x, 2 * half) == 2 * And(x / 2, half)
  {
    var y := 2 * half;
    assert y / 2 == half && y % 2 == 0;
  }

  /** Clearing the low k bits of an n-bit word rounds it down to a multiple of 2^k. */
  lemma {:induction false} AndHighMask(x: nat, n: nat, k: nat)
    requires k <= n && x < Pow2(n)
    ensures Pow2(k) <= Pow2(n)
    ensures And(x, Pow2(n) - Pow2(k)) == x - x % Pow2(k)
  {
    if k == 0 {
      AndAllOnes(x, n);
    } else {
      AndHighMask(x / 2, n - 1, k - 1);
      DoubleMod(x, Pow2(k - 1));
      AndEven(x, Pow2(n - 1) - Pow2(k - 1));
    }
  }

  lemma DoubleMod(x: nat, p: nat)
    requires p > 0
    ensures x % (2 * p) == 2 * ((x / 2) % p) + x % 2
  {
    var q := (x / 2) / p;
    var r := 2 * ((x / 2) % p) + x % 2;
    assert x / 2 == q * p + (x / 2) % p;
    assert x == q * (2 * p) + r;
    DivModUnique(x, 2 * p, q, r);
  }

  lemma OneMore(n: int, d: int)
    ensures (n - 1) * d + d == n * d
  {
  }

  lemma DivModUnique(x: int, d: nat, q: int, r: nat)
    requires r < d && x == q * d + r
    ensures x / d == q && x % d == r
  {
    var e := x / d - q;
    assert x == (x / d) * d + x % d;
    assert e * d == r - x % d;
    MultipleSize(e, d);
  }

  lemma WholeMultiple(x: int, d: nat)
    requires d > 0 && x % d == 0
    ensures x == x / d * d
  {
  }

  /** A multiple plus something smaller than the divisor. */
  lemma MultiplePlus(x: int, d: nat, rest: nat)
    requires d > 0 && x % d == 0 && rest < d
    ensures (x + rest) % d == rest
  {
    WholeMultiple(x, d);
    DivModUnique(x + rest, d, x / d, rest);
  }

  lemma MultipleSize(e: int, d: nat)
    ensures e >= 1 ==> e * d >= d
    ensures e <= -1 ==> e * d + d <= 0
  {
  }

  /** Dropping the remainder gives the greatest multiple not above x. */
  lemma RemainderDropped(x: int, d: nat, multiple: int)
    requires d > 0
    ensures (x - x % d) % d == 0
    ensures multiple % d == 0 && multiple <= x ==> multiple <= x - x % d
  {
    var q := x / d;
    assert x - x % d == q * d;
    DivModUnique(x - x % d, d, q, 0);
    if multiple % d == 0 && multiple <= x {
      var e := multiple / d - q;
      assert multiple == (multiple / d) * d;
      assert e * d == multiple - (x - x % d);
      MultipleSize(e, d);
    }
  }

  lemma MultiplesApart(x: int, y: int, d: nat)
    requires d > 0 && x % d == 0 && y % d == 0 && x < y
    ensures x + d <= y
  {
    var e := y / d - x / d;
    assert x == (x / d) * d && y == (y / d) * d;
    assert e * d == y - x;
    MultipleSize(e, d);
  }

  lemma {:induction false} Pow2Bounds(low: nat, k: nat, high: nat)
    requires low <= k <= high
    ensures Pow2(low) <= Pow2(k) <= Pow2(high)
    decreases high - low
  {
    if low < k {
      Pow2Bounds(low, k - 1, high - 1);
    } else if k < high {
      Pow2Bounds(low, k, high - 1);
    }
  }

  lemma DoubleOfProduct(x: int, y: int)
    ensures 2 * (x * y) == (2 * x) * y
  {
  }

  lemma {:induction false} Pow2Sum(a: nat, b: nat)
    ensures Pow2(a + b) == Pow2(a) * Pow2(b)
    decreases a
  {
    if a > 0 {
      Pow2Sum(a - 1, b);
      DoubleOfProduct(Pow2(a - 1), Pow2(b));
    }
  }

  lemma Pow2Twice(k: nat, p: nat)
    requires Pow2(k) == p
    ensures Pow2(2 * k) == p * p
  {
    Pow2Sum(k, k);
  }

  lemma SixtyFour()
    ensures Pow2(64) == TWO_64
  {
    assert Pow2(2) == 4;
    Pow2Twice(2, 4);
    Pow2Twice(4, 0x10);
    Pow2Twice(8, 0x100);
    Pow2Twice(16, 0x1_0000);
    Pow2Twice(32, 0x1_0000_0000);
  }

  lemma Pow2DividesWord(k: nat)
    requires k <= 64
    ensures TWO_64 % Pow2(k) == 0
  {
    SixtyFour();
    Pow2Sum(64 - k, k);
    DivModUnique(TWO_64, Pow2(k), Pow2(64 - k), 0);
  }

  /** The shape every mask of the binding has: `x & !(2^k - 1)`. */
  lemma MaskRoundsDown(x: nat, k: nat)
    requires x < TWO_64 && k <= 64
    ensures Pow2(k) <= TWO_64
    ensures And(x, Not(Pow2(k) - 1)) == x - x % Pow2(k)
  {
    SixtyFour();
    AndHighMask(x, 64, k);
  }

  // ---------- the lowest bit ----------

  lemma LowBit(x: nat)
    ensures And(x, 1) == x % 2
  {
    if x > 0 {
      assert And(x / 2, 0) == 0;
    }
  }

  lemma {:induction false} OrZero(x: nat)
    ensures Or(x, 0) == x
  {
    if x > 0 {
      OrZero(x / 2);
    }
  }

  lemma SetLowBit(x: nat)
    ensures Or(x, 1) == x - x % 2 + 1
  {
    OrZero(x / 2);
  }

  lemma ClearLowBit(x: nat)
    requires x < TWO_64
    ensures And(x, Not(1)) == x - x % 2
  {
    MaskRoundsDown(x, 1);
  }

  lemma ClearLowTwoBits(x: nat, bits: nat)
    requires x + bits < TWO_64 && x % 8 == 0 && bits < 4
    ensures And(x + bits, Not(3)) == x
  {
    assert Pow2(2) == 4;
    DivModUnique(x + bits, 4, 2 * (x / 8), bits);
    MaskRoundsDown(x + bits, 2);
  }
}
