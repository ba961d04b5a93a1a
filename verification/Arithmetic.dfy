/** Quotients and remainders of natural numbers. */
module Arithmetic {
  function Div(a: nat, b: nat): nat
    requires b > 0
  {
    a / b
  }

  function Mod(a: nat, b: nat): (r: nat)
    requires b > 0
    ensures r < b
  {
    a % b
  }

  lemma {:induction false} MultipleIsFar(d: int, b: int)
    requires 0 <= b
    ensures 1 <= d ==> b <= d * b
    ensures d <= -1 ==> d * b <= -b
  {
  }

  lemma {:induction false} QuotientIs(a: int, b: int, q: int, r: int)
    requires 0 < b && 0 <= r < b && a == q * b + r
    ensures a / b == q && a % b == r
  {
    var d := a / b - q;
    assert a == (a / b) * b + a % b;
    assert d * b == r - a % b;
    MultipleIsFar(d, b);
  }

  lemma {:induction false} DivMod(a: nat, b: nat, q: nat, r: nat)
    requires 0 < b
    ensures Div(a, b) == q && Mod(a, b) == r <==> a == q * b + r && r < b
  {
    assert a == (a / b) * b + a % b;
    if a == q * b + r && r < b { QuotientIs(a, b, q, r); }
  }
}
