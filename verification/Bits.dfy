/** Masks, shifts and ORs of unsigned numbers, bit by bit, and the arithmetic they come to. */
module Bits {
  import opened Arithmetic

  function Pow2(n: nat): (r: nat)
    ensures r > 0
  {
    if n == 0 then 1 else 2 * Pow2(n - 1)
  }

  function And(a: nat, b: nat): nat
  {
    if a == 0 || b == 0 then 0 else 2 * And(a / 2, b / 2) + (if a % 2 == 1 && b % 2 == 1 then 1 else 0)
  }

  function Or(a: nat, b: nat): nat
    decreases a + b
  {
    if a == 0 && b == 0 then 0 else 2 * Or(a / 2, b / 2) + (if a % 2 == 1 || b % 2 == 1 then 1 else 0)
  }

  function ShiftRight(a: nat, n: nat): nat
    decreases n
  {
    if n == 0 then a else ShiftRight(a / 2, n - 1)
  }

  lemma {:induction false} DoubledIsBelow(x: nat, p: nat)
    requires p > 0
    ensures x / (2 * p) == x / 2 / p && x % (2 * p) == 2 * (x / 2 % p) + x % 2
  {
    var q, r := x / 2 / p, x / 2 % p;
    assert x / 2 == q * p + r;
    assert x == 2 * (x / 2) + x % 2;
    assert 2 * (q * p) == q * (2 * p);
    QuotientIs(x, 2 * p, q, 2 * r + x % 2);
  }

  /** A mask of `n` ones takes the remainder, a shift by `n` the quotient. */
  lemma {:induction false} MaskAndShift(x: nat, n: nat)
    ensures And(x, Pow2(n) - 1) == x % Pow2(n)
    ensures ShiftRight(x, n) == x / Pow2(n)
    decreases n
  {
    if n > 0 {
      var p := Pow2(n - 1);
      MaskAndShift(x / 2, n - 1);
      DoubledIsBelow(x, p);
      assert (2 * p - 1) / 2 == p - 1 && (2 * p - 1) % 2 == 1;
      if x == 0 { NothingIsLeft(p); }
    }
  }

  lemma {:induction false} NothingIsLeft(p: nat)
    requires p > 0
    ensures 0 % p == 0 && 0 % (2 * p) == 0
  {
    QuotientIs(0, p, 0, 0);
    QuotientIs(0, 2 * p, 0, 0);
  }

  lemma {:induction false} OrWithNothing(m: nat)
    ensures Or(m, 0) == m == Or(0, m)
  {
    if m > 0 { OrWithNothing(m / 2); }
  }

  /** A marker whose last `n` bits are zero, ORed onto a number of `n` bits, is a sum. */
  lemma {:induction false} OrIsPlus(marker: nat, n: nat, x: nat)
    requires marker % Pow2(n) == 0 && x < Pow2(n)
    ensures Or(marker, x) == marker + x
    decreases n
  {
    if n == 0 {
      OrWithNothing(marker);
    } else {
      DoubledIsBelow(marker, Pow2(n - 1));
      OrIsPlus(marker / 2, n - 1, x / 2);
    }
  }

  lemma {:induction false} SmallPowers()
    ensures Pow2(3) == 8 && Pow2(4) == 16 && Pow2(5) == 32 && Pow2(6) == 64
  {
    assert Pow2(2) == 4;
    assert Pow2(4) == 2 * Pow2(3);
    assert Pow2(6) == 2 * Pow2(5);
  }
}
