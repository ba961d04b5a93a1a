/** Comparing floating-point numbers by units in the last place, on the bit patterns of any IEEE binary format. */
module FloatUlp {
  import opened Arithmetic
  import opened Bits

  const MAX_ULPS := 4

  /** A format by its numbers of exponent and fraction bits: float has 8 and 23, double 11 and 52. */
  datatype Format = Format(exponentBits: nat, fractionBits: nat)
  {
    predicate Ok() { exponentBits >= 2 && fractionBits >= 1 }

    function SignBitMask(): nat { Pow2(exponentBits + fractionBits) }

    predicate IsBits(x: nat) { x < 2 * SignBitMask() }

    predicate SignBit(x: nat) { x >= SignBitMask() }

    /** Exponent and fraction bits together. */
    function Magnitude(x: nat): nat { if SignBit(x) then x - SignBitMask() else x }

    function Exponent(x: nat): nat { Div(Magnitude(x), Pow2(fractionBits)) }

    function Fraction(x: nat): nat { Mod(Magnitude(x), Pow2(fractionBits)) }

    predicate IsNan(x: nat) { Exponent(x) == Pow2(exponentBits) - 1 && Fraction(x) != 0 }

    /** A bit pattern that is a number, infinities included. */
    predicate IsNumber(x: nat) { IsBits(x) && !IsNan(x) }

    // ----- the operations, in unsigned arithmetic of the format's width

    function Complement(x: nat): nat
      requires Ok() && IsBits(x)
    {
      2 * SignBitMask() - 1 - x
    }

    function SignAndMagnitudeToBiased(sam: nat): int
      requires Ok() && IsBits(sam)
    {
      if SignBit(sam) then (Complement(sam) + 1) % (2 * SignBitMask()) else SignBitMask() + sam
    }

    function DistanceBetween(sam1: nat, sam2: nat): int
      requires Ok() && IsBits(sam1) && IsBits(sam2)
    {
      var biased1, biased2 := SignAndMagnitudeToBiased(sam1), SignAndMagnitudeToBiased(sam2);
      if biased1 >= biased2 then biased1 - biased2 else biased2 - biased1
    }

    predicate AlmostEquals(x: nat, y: nat)
      requires Ok() && IsBits(x) && IsBits(y)
    {
      if IsNan(x) || IsNan(y) then false else DistanceBetween(x, y) <= MAX_ULPS
    }

    // ----- what a bit pattern stands for

    function Bias(): int
      requires Ok()
    {
      Pow2(exponentBits - 1) - 1
    }

    /** The absolute value of a finite number: without the leading one when the exponent field is zero. */
    ghost function AbsoluteValue(exponent: nat, fraction: nat): real
      requires Ok()
    {
      if exponent == 0 then Two(1 - Bias()) * (fraction as real * Two(0 - fractionBits))
      else Two(exponent - Bias()) * (1.0 + fraction as real * Two(0 - fractionBits))
    }

    ghost function ValueOf(x: nat): Number
      requires Ok() && IsNumber(x)
    {
      if Exponent(x) == Pow2(exponentBits) - 1 then (if SignBit(x) then MinusInfinity else PlusInfinity)
      else
        var v := AbsoluteValue(Exponent(x), Fraction(x));
        Finite(if SignBit(x) then -v else v)
    }

    /** The next number: none lies strictly between. */
    ghost predicate IsNext(x: nat, y: nat)
      requires Ok() && IsNumber(x) && IsNumber(y)
    {
      Less(ValueOf(x), ValueOf(y)) && forall z :: IsNumber(z) ==> !(Less(ValueOf(x), ValueOf(z)) && Less(ValueOf(z), ValueOf(y)))
    }
  }

  datatype Number = MinusInfinity | Finite(value: real) | PlusInfinity

  predicate Less(a: Number, b: Number)
  {
    match (a, b)
    case (Finite(v), Finite(w)) => v < w
    case (MinusInfinity, _) => !b.MinusInfinity?
    case (_, PlusInfinity) => !a.PlusInfinity?
    case _ => false
  }

  /** A power of two with any exponent. */
  ghost function Two(n: int): (t: real)
    ensures t > 0.0
  {
    if n >= 0 then Pow2(n) as real else 1.0 / Pow2(-n) as real
  }

  // ----- powers of two

  lemma {:induction false} TwoNext(n: int)
    ensures Two(n + 1) == 2.0 * Two(n)
  {
    if n < 0 { assert Pow2(-n) == 2 * Pow2(-n - 1); }
  }

  lemma {:induction false} TwoPlus(n: int, k: nat)
    ensures Two(n + k) == Two(n) * Pow2(k) as real
  {
    hide Two;
    if k > 0 {
      TwoPlus(n, k - 1);
      TwoNext(n + k - 1);
    }
  }

  lemma {:induction false} ProductAsReal(a: nat, b: nat)
    ensures (a * b) as real == a as real * b as real
  {
    if a > 0 {
      ProductAsReal(a - 1, b);
      assert a * b == (a - 1) * b + b;
    }
  }

  // ----- absolute values as multiples of the least one

  /** The absolute value of a magnitude, in units of the least positive number. */
  ghost function Units(fmt: Format, m: nat): nat
  {
    var p := Pow2(fmt.fractionBits);
    UnitsOf(p, Div(m, p), Mod(m, p))
  }

  ghost function UnitsOf(p: nat, exponent: nat, fraction: nat): nat
  {
    if exponent == 0 then fraction else (p + fraction) * Pow2(exponent - 1)
  }

  lemma {:induction false} Factored(u: real, p: real, w: real, c: real, t: real)
    requires c * p == 1.0
    ensures u * p * (t * c) == u * t
    ensures u * p * w * (1.0 + t * c) == u * ((p + t) * w)
  {
    assert p * (t * c) == t * (c * p) == t;
    assert u * p * (t * c) == u * (p * (t * c));
    assert p * (1.0 + t * c) == p + t;
    assert u * p * w * (1.0 + t * c) == u * (p * (1.0 + t * c)) * w;
  }

  lemma {:induction false} ValueInUnits(fmt: Format, q: nat, t: nat)
    requires fmt.Ok()
    ensures fmt.AbsoluteValue(q, t) == Least(fmt) * UnitsOf(Pow2(fmt.fractionBits), q, t) as real
  {
    hide Two, Pow2, Format.Bias;
    var f: int, p := fmt.fractionBits, Pow2(fmt.fractionBits);
    var least := 1 - fmt.Bias() - f;
    var c := Two(0 - f);
    TwoPlus(0 - f, f);
    TwoZero();
    TwoPlus(least, f);
    if q == 0 {
      Factored(Two(least), p as real, 1.0, c, t as real);
    } else {
      TwoPlus(least + f, q - 1);
      Factored(Two(least), p as real, Pow2(q - 1) as real, c, t as real);
      ProductAsReal(p + t, Pow2(q - 1));
    }
  }

  /** The least positive number. */
  ghost function Least(fmt: Format): (u: real)
    requires fmt.Ok()
    ensures u > 0.0
  {
    Two(1 - fmt.Bias() - fmt.fractionBits)
  }

  lemma {:induction false} TwoZero()
    ensures Two(0) == 1.0
  {
  }

  /** The next magnitude has more units. */
  lemma {:induction false} UnitsGrow(fmt: Format, m: nat)
    ensures Units(fmt, m) < Units(fmt, m + 1)
  {
    hide Div, Mod, Pow2;
    var p := Pow2(fmt.fractionBits);
    var q, t := Div(m, p), Mod(m, p);
    DivMod(m, p, q, t);
    if t + 1 < p {
      DivMod(m + 1, p, q, t + 1);
      FractionGrows(p, q, t);
    } else {
      assert (q + 1) * p == q * p + p;
      DivMod(m + 1, p, q + 1, 0);
      ExponentGrows(p, q);
    }
  }

  lemma {:induction false} FractionGrows(p: nat, q: nat, t: nat)
    ensures UnitsOf(p, q, t) < UnitsOf(p, q, t + 1)
  {
    if q > 0 { assert (p + t + 1) * Pow2(q - 1) == (p + t) * Pow2(q - 1) + Pow2(q - 1); }
  }

  lemma {:induction false} ExponentGrows(p: nat, q: nat)
    requires p >= 1
    ensures UnitsOf(p, q, p - 1) < UnitsOf(p, q + 1, 0)
  {
    if q > 0 {
      var w := Pow2(q - 1);
      assert p * Pow2(q) == p * (2 * w);
      assert p * (2 * w) == (p + (p - 1)) * w + w;
    }
  }

  lemma {:induction false} UnitsOrdered(fmt: Format, a: nat, b: nat)
    requires a < b
    ensures Units(fmt, a) < Units(fmt, b)
  {
    hide Units;
    UnitsGrow(fmt, b - 1);
    if a < b - 1 { UnitsOrdered(fmt, a, b - 1); }
  }

  // ----- the biased form orders the numbers by value

  /** The magnitude with its sign. */
  ghost function Signed(fmt: Format, x: nat): int
  {
    if fmt.SignBit(x) then 0 - fmt.Magnitude(x) else fmt.Magnitude(x)
  }

  lemma {:induction false} BiasedIs(fmt: Format, x: nat)
    requires fmt.Ok() && fmt.IsBits(x)
    ensures fmt.SignAndMagnitudeToBiased(x) == fmt.SignBitMask() + Signed(fmt, x)
    ensures fmt.Magnitude(x) < fmt.SignBitMask()
  {
    hide Pow2;
    var s := fmt.SignBitMask();
    if fmt.SignBit(x) {
      assert (2 * s - x) % (2 * s) == 2 * s - x by { QuotientIs(2 * s - x, 2 * s, 0, 2 * s - x); }
    }
  }

  /** The magnitude of infinity. */
  ghost function InfiniteMagnitude(fmt: Format): nat
  {
    hide Pow2;
    (Pow2(fmt.exponentBits) - 1) * Pow2(fmt.fractionBits)
  }

  lemma {:induction false} Doubled(a: nat, b: nat)
    ensures (2 * a) * b == 2 * (a * b)
  {
  }

  lemma {:induction false} PowersMultiply(a: nat, b: nat)
    ensures Pow2(a + b) == Pow2(a) * Pow2(b)
  {
    if a > 0 {
      PowersMultiply(a - 1, b);
      Doubled(Pow2(a - 1), Pow2(b));
    }
  }

  lemma {:induction false} ProductOrder(a: nat, b: nat, p: nat)
    requires a < b
    ensures a * p + p <= b * p
  {
    assert b * p == a * p + (b - a) * p;
    MultipleIsFar(b - a, p);
  }

  /** Numbers are the patterns up to infinity, which alone among them has all exponent bits set. */
  lemma {:induction false} NumbersEnd(fmt: Format, x: nat)
    requires fmt.Ok() && fmt.IsBits(x)
    ensures fmt.IsNumber(x) <==> fmt.Magnitude(x) <= InfiniteMagnitude(fmt)
    ensures fmt.IsNumber(x) ==> (fmt.Exponent(x) == Pow2(fmt.exponentBits) - 1 <==> fmt.Magnitude(x) == InfiniteMagnitude(fmt))
  {
    hide Div, Mod, Pow2;
    var p, e := Pow2(fmt.fractionBits), Pow2(fmt.exponentBits);
    var q, t := fmt.Exponent(x), fmt.Fraction(x);
    PowersMultiply(fmt.exponentBits, fmt.fractionBits);
    BiasedIs(fmt, x);
    DivMod(fmt.Magnitude(x), p, q, t);
    if q < e - 1 {
      ProductOrder(q, e - 1, p);
    } else if q > e - 1 {
      ProductOrder(e - 1, q, p);
    }
  }

  lemma {:induction false} FiniteValue(fmt: Format, x: nat)
    requires fmt.Ok() && fmt.IsNumber(x) && fmt.Magnitude(x) < InfiniteMagnitude(fmt)
    ensures fmt.ValueOf(x) ==
            Finite(Least(fmt) * (if fmt.SignBit(x) then -(Units(fmt, fmt.Magnitude(x)) as real) else Units(fmt, fmt.Magnitude(x)) as real))
  {
    hide Div, Mod, Pow2, UnitsOf, Least, Format.AbsoluteValue, InfiniteMagnitude;
    NumbersEnd(fmt, x);
    ValueInUnits(fmt, fmt.Exponent(x), fmt.Fraction(x));
  }

  lemma {:induction false} Scaled(u: real, a: int, b: int)
    requires u > 0.0
    ensures u * a as real < u * b as real <==> a < b
  {
    var d := b as real - a as real;
    assert u * b as real - u * a as real == u * d;
    if a < b {
      assert u * d > 0.0;
    } else {
      assert u * d <= 0.0;
    }
  }

  ghost function SignedUnits(fmt: Format, x: nat): int
  {
    if fmt.SignBit(x) then 0 - Units(fmt, fmt.Magnitude(x)) else Units(fmt, fmt.Magnitude(x))
  }

  lemma {:induction false} SignedUnitsOrdered(fmt: Format, x: nat, y: nat)
    ensures SignedUnits(fmt, x) < SignedUnits(fmt, y) <==> Signed(fmt, x) < Signed(fmt, y)
  {
    hide Units, Format.SignBit, Format.Magnitude;
    var a, b := fmt.Magnitude(x), fmt.Magnitude(y);
    UnitsOfZero(fmt);
    if a > 0 { UnitsOrdered(fmt, 0, a); }
    if b > 0 { UnitsOrdered(fmt, 0, b); }
    if a < b { UnitsOrdered(fmt, a, b); }
    if b < a { UnitsOrdered(fmt, b, a); }
  }

  lemma {:induction false} UnitsOfZero(fmt: Format)
    ensures Units(fmt, 0) == 0
  {
    DivMod(0, Pow2(fmt.fractionBits), 0, 0);
  }

  /** Infinities are the values of greatest magnitude. */
  lemma {:induction false} InfiniteValue(fmt: Format, x: nat)
    requires fmt.Ok() && fmt.IsNumber(x) && fmt.Magnitude(x) == InfiniteMagnitude(fmt)
    ensures fmt.ValueOf(x) == if fmt.SignBit(x) then MinusInfinity else PlusInfinity
    ensures InfiniteMagnitude(fmt) > 0
  {
    hide Div, Mod, InfiniteMagnitude;
    NumbersEnd(fmt, x);
    InfinityIsPositive(fmt);
  }

  lemma {:induction false} InfinityIsPositive(fmt: Format)
    requires fmt.Ok()
    ensures InfiniteMagnitude(fmt) > 0
  {
    assert Pow2(fmt.exponentBits) >= 2;
    MultipleIsFar(Pow2(fmt.exponentBits) - 1, Pow2(fmt.fractionBits));
  }

  lemma {:induction false} SignedOrdersValues(fmt: Format, x: nat, y: nat)
    requires fmt.Ok() && fmt.IsNumber(x) && fmt.IsNumber(y)
    ensures Less(fmt.ValueOf(x), fmt.ValueOf(y)) <==> Signed(fmt, x) < Signed(fmt, y)
  {
    hide Format.IsNumber, Format.ValueOf, InfiniteMagnitude, Units, Least, Format.SignBit, Format.Magnitude;
    var top := InfiniteMagnitude(fmt);
    NumberIsSmall(fmt, x);
    NumberIsSmall(fmt, y);
    InfinityIsPositive(fmt);
    if fmt.Magnitude(x) == top { InfiniteValue(fmt, x); } else { FiniteValue(fmt, x); }
    if fmt.Magnitude(y) == top { InfiniteValue(fmt, y); } else { FiniteValue(fmt, y); }
    if fmt.Magnitude(x) < top && fmt.Magnitude(y) < top {
      Scaled(Least(fmt), SignedUnits(fmt, x), SignedUnits(fmt, y));
      SignedUnitsOrdered(fmt, x, y);
    }
  }

  lemma {:induction false} NumberIsSmall(fmt: Format, x: nat)
    requires fmt.Ok() && fmt.IsNumber(x)
    ensures fmt.Magnitude(x) <= InfiniteMagnitude(fmt)
  {
    NumbersEnd(fmt, x);
  }

  lemma {:induction false} Trichotomy(a: Number, b: Number)
    ensures a == b <==> !Less(a, b) && !Less(b, a)
  {
  }

  /** The biased forms of numbers are ordered as the numbers' values, and equal exactly for equal values. */
  lemma {:induction false} BiasedOrdersValues(fmt: Format, x: nat, y: nat)
    requires fmt.Ok() && fmt.IsNumber(x) && fmt.IsNumber(y)
    ensures Less(fmt.ValueOf(x), fmt.ValueOf(y)) <==> fmt.SignAndMagnitudeToBiased(x) < fmt.SignAndMagnitudeToBiased(y)
    ensures fmt.ValueOf(x) == fmt.ValueOf(y) <==> fmt.SignAndMagnitudeToBiased(x) == fmt.SignAndMagnitudeToBiased(y)
  {
    hide Format.IsNan, Format.ValueOf, Signed, Less;
    BiasedIs(fmt, x);
    BiasedIs(fmt, y);
    SignedOrdersValues(fmt, x, y);
    SignedOrdersValues(fmt, y, x);
    Trichotomy(fmt.ValueOf(x), fmt.ValueOf(y));
  }

  // ----- steps

  /** From `x` up to the value of `y` in `n` steps, each to the next number. */
  ghost predicate StepsUp(fmt: Format, x: nat, y: nat, n: nat)
    requires fmt.Ok() && fmt.IsNumber(x) && fmt.IsNumber(y)
    decreases n, 1
  {
    if n == 0 then fmt.ValueOf(x) == fmt.ValueOf(y) else exists z :: LastStep(fmt, x, z, y, n)
  }

  ghost predicate LastStep(fmt: Format, x: nat, z: nat, y: nat, n: nat)
    requires n > 0 && fmt.Ok() && fmt.IsNumber(x) && fmt.IsNumber(y)
    decreases n, 0
  {
    fmt.IsNumber(z) && StepsUp(fmt, x, z, n - 1) && fmt.IsNext(z, y)
  }

  /** Some pattern with a biased form between those of two numbers. */
  ghost function FromBiased(fmt: Format, b: nat): nat
    requires fmt.Ok() && b <= 2 * fmt.SignBitMask()
  {
    if b >= fmt.SignBitMask() then b - fmt.SignBitMask() else 2 * fmt.SignBitMask() - b
  }

  lemma {:induction false} FromBiasedWorks(fmt: Format, x: nat, y: nat, b: int)
    requires fmt.Ok() && fmt.IsNumber(x) && fmt.IsNumber(y)
    requires fmt.SignAndMagnitudeToBiased(x) <= b <= fmt.SignAndMagnitudeToBiased(y)
    ensures 0 <= b <= 2 * fmt.SignBitMask()
    ensures fmt.IsNumber(FromBiased(fmt, b)) && fmt.SignAndMagnitudeToBiased(FromBiased(fmt, b)) == b
  {
    hide Pow2, Format.IsNan, InfiniteMagnitude;
    BiasedIs(fmt, x);
    BiasedIs(fmt, y);
    NumbersEnd(fmt, x);
    NumbersEnd(fmt, y);
    var z := FromBiased(fmt, b);
    BiasedIs(fmt, z);
    NumbersEnd(fmt, z);
  }

  /** The next number has the next biased form. */
  lemma {:induction false} NextIsOneMore(fmt: Format, x: nat, y: nat)
    requires fmt.Ok() && fmt.IsNumber(x) && fmt.IsNumber(y)
    ensures fmt.IsNext(x, y) <==> fmt.SignAndMagnitudeToBiased(y) == fmt.SignAndMagnitudeToBiased(x) + 1
  {
    hide Format.IsNan, Format.ValueOf, Less, Format.SignAndMagnitudeToBiased;
    var a, b := fmt.SignAndMagnitudeToBiased(x), fmt.SignAndMagnitudeToBiased(y);
    BiasedOrdersValues(fmt, x, y);
    forall z | fmt.IsNumber(z)
      ensures Less(fmt.ValueOf(x), fmt.ValueOf(z)) <==> a < fmt.SignAndMagnitudeToBiased(z)
      ensures Less(fmt.ValueOf(z), fmt.ValueOf(y)) <==> fmt.SignAndMagnitudeToBiased(z) < b
    {
      BiasedOrdersValues(fmt, x, z);
      BiasedOrdersValues(fmt, z, y);
    }
    if a + 1 < b {
      FromBiasedWorks(fmt, x, y, a + 1);
      assert fmt.IsNumber(FromBiased(fmt, a + 1));
    }
  }

  /** Going up from `x` to `y` takes as many steps as their biased forms differ. */
  lemma {:induction false} StepsUpIff(fmt: Format, x: nat, y: nat, n: nat)
    requires fmt.Ok() && fmt.IsNumber(x) && fmt.IsNumber(y)
    ensures StepsUp(fmt, x, y, n) <==> fmt.SignAndMagnitudeToBiased(y) == fmt.SignAndMagnitudeToBiased(x) + n
    decreases n
  {
    hide Format.IsNan, Format.ValueOf, Format.IsNext, Format.SignAndMagnitudeToBiased;
    var a, b := fmt.SignAndMagnitudeToBiased(x), fmt.SignAndMagnitudeToBiased(y);
    if n == 0 {
      BiasedOrdersValues(fmt, x, y);
    } else {
      if z: nat :| LastStep(fmt, x, z, y, n) {
        StepsUpIff(fmt, x, z, n - 1);
        NextIsOneMore(fmt, z, y);
      }
      if b == a + n {
        FromBiasedWorks(fmt, x, y, b - 1);
        var z := FromBiased(fmt, b - 1);
        StepsUpIff(fmt, x, z, n - 1);
        NextIsOneMore(fmt, z, y);
        assert LastStep(fmt, x, z, y, n);
      }
    }
  }

  /** The distance between two numbers is the number of steps from one up to the other. */
  lemma {:induction false} DistanceCountsSteps(fmt: Format, x: nat, y: nat, n: nat)
    requires fmt.Ok() && fmt.IsNumber(x) && fmt.IsNumber(y)
    ensures fmt.DistanceBetween(x, y) == n <==> StepsUp(fmt, x, y, n) || StepsUp(fmt, y, x, n)
  {
    hide Format.IsNan, StepsUp, Format.SignAndMagnitudeToBiased;
    StepsUpIff(fmt, x, y, n);
    StepsUpIff(fmt, y, x, n);
  }

  /** A distance: zero exactly between equal values, the same both ways, and no longer than any detour. */
  lemma {:induction false} DistanceIsMetric(fmt: Format, x: nat, y: nat, z: nat)
    requires fmt.Ok() && fmt.IsNumber(x) && fmt.IsNumber(y) && fmt.IsBits(z)
    ensures fmt.DistanceBetween(x, y) == 0 <==> fmt.ValueOf(x) == fmt.ValueOf(y)
    ensures fmt.DistanceBetween(x, y) == fmt.DistanceBetween(y, x)
    ensures fmt.DistanceBetween(x, y) <= fmt.DistanceBetween(x, z) + fmt.DistanceBetween(z, y)
  {
    hide Format.IsNan, Format.ValueOf, Format.SignAndMagnitudeToBiased;
    BiasedOrdersValues(fmt, x, y);
  }

  /** Two patterns are almost equal when both are numbers and at most four steps lie between them. */
  lemma {:induction false} AlmostEqualsIff(fmt: Format, x: nat, y: nat)
    requires fmt.Ok() && fmt.IsBits(x) && fmt.IsBits(y)
    ensures fmt.AlmostEquals(x, y) <==>
            fmt.IsNumber(x) && fmt.IsNumber(y) && exists n: nat :: n <= 4 && (StepsUp(fmt, x, y, n) || StepsUp(fmt, y, x, n))
  {
    hide Format.IsNan, StepsUp, Format.SignAndMagnitudeToBiased, Format.DistanceBetween;
    if fmt.IsNumber(x) && fmt.IsNumber(y) {
      DistanceIsNatural(fmt, x, y);
      DistanceCountsSteps(fmt, x, y, fmt.DistanceBetween(x, y));
      if n: nat :| n <= 4 && (StepsUp(fmt, x, y, n) || StepsUp(fmt, y, x, n)) {
        DistanceCountsSteps(fmt, x, y, n);
      }
    }
  }

  lemma {:induction false} DistanceIsNatural(fmt: Format, x: nat, y: nat)
    requires fmt.Ok() && fmt.IsBits(x) && fmt.IsBits(y)
    ensures fmt.DistanceBetween(x, y) >= 0
  {
    hide Format.SignAndMagnitudeToBiased;
  }
}
