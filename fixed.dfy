/** The fixed-point length type `fixed<int, 15>`: a signed mantissa with a
    binary point 15 bits from the right (15 is half the value bits of a C++
    int). The bit masks of trunc are written as Euclidean division and
    remainder by 2^15, which coincide with the masks on two's-complement
    integers. */
module FixedPoint {
  import Scaled

  const Precision: nat := 15
  /** The mantissa of one(), 1 << Precision. */
  const Unit: int := 32768
  /** The mantissa of half(), 1 << (Precision - 1). */
  const HalfUnit: int := 16384

  datatype Fixed = Fixed(value: int)

  // Constants and integer conversion

  function OfInt(v: int): Fixed
  {
    Fixed(v * Unit)
  }

  function Zero(): Fixed
  {
    Fixed(0)
  }

  function Half(): Fixed
  {
    Fixed(HalfUnit)
  }

  function One(): Fixed
  {
    Fixed(Unit)
  }

  /** toInt shifts the mantissa right arithmetically: the integer part,
      rounded toward minus infinity. */
  function ToInt(f: Fixed): (n: int)
    ensures n * Unit <= f.value < n * Unit + Unit
  {
    f.value / Unit
  }

  // Arithmetic

  function Add(f1: Fixed, f2: Fixed): Fixed
  {
    Fixed(f1.value + f2.value)
  }

  function Sub(f1: Fixed, f2: Fixed): Fixed
  {
    Fixed(f1.value - f2.value)
  }

  function Neg(f: Fixed): Fixed
  {
    Fixed(-f.value)
  }

  /** f * v; the overload v * f computes the same product. */
  function MulInt(f: Fixed, v: int): Fixed
  {
    Fixed(f.value * v)
  }

  function IntMul(v: int, f: Fixed): Fixed
  {
    Fixed(f.value * v)
  }

  /** f / v divides the mantissa with C++ integer division. */
  function DivInt(f: Fixed, v: int): (r: Fixed)
    requires v != 0
    ensures f.value >= 0 ==> 0 <= f.value - r.value * v < (if v > 0 then v else -v)
    ensures f.value < 0 ==> 0 <= r.value * v - f.value < (if v > 0 then v else -v)
  {
    TruncDivRemainder(f.value, v);
    Fixed(Scaled.TruncDiv(f.value, v))
  }

  /** The quotient truncated toward zero leaves a remainder of the dividend's
      sign and smaller than the divisor in magnitude, for either sign of the
      divisor. */
  lemma TruncDivRemainder(x: int, v: int)
    requires v != 0
    ensures var q := Scaled.TruncDiv(x, v);
      (x >= 0 ==> 0 <= x - q * v < (if v > 0 then v else -v)) &&
      (x < 0 ==> 0 <= q * v - x < (if v > 0 then v else -v))
  {
    var a := if x >= 0 then x else -x;
    var b := if v > 0 then v else -v;
    TruncProductOfMagnitudes(x, v);
    EuclidRemainder(a, b);
  }

  /** The quotient times the divisor is the Euclidean product of the
      magnitudes, with the dividend's sign. */
  lemma TruncProductOfMagnitudes(x: int, v: int)
    requires v != 0
    ensures var a := if x >= 0 then x else -x;
      var b := if v > 0 then v else -v;
      Scaled.TruncDiv(x, v) * v == if x >= 0 then (a / b) * b else -((a / b) * b)
  {
    var a := if x >= 0 then x else -x;
    var b := if v > 0 then v else -v;
    var d := a / b;
    if x >= 0 && v > 0 {
    } else if x >= 0 {
      assert (-d) * v == d * b;
    } else if v > 0 {
      assert (-d) * v == -(d * b);
    } else {
      assert d * v == -(d * b);
    }
  }

  lemma EuclidRemainder(a: int, b: int)
    requires b > 0
    ensures 0 <= a - (a / b) * b < b
  {
    assert a == (a / b) * b + a % b;
  }

  // Comparisons follow the order of the mantissas

  predicate Less(f1: Fixed, f2: Fixed)
  {
    f1.value < f2.value
  }

  predicate LessEq(f1: Fixed, f2: Fixed)
  {
    f1.value <= f2.value
  }

  predicate Greater(f1: Fixed, f2: Fixed)
  {
    f1.value > f2.value
  }

  predicate GreaterEq(f1: Fixed, f2: Fixed)
  {
    f1.value >= f2.value
  }

  function Min(f1: Fixed, f2: Fixed): (m: Fixed)
    ensures LessEq(m, f1) && LessEq(m, f2) && (m == f1 || m == f2)
  {
    if f1.value <= f2.value then f1 else f2
  }

  function Max(f1: Fixed, f2: Fixed): (m: Fixed)
    ensures GreaterEq(m, f1) && GreaterEq(m, f2) && (m == f1 || m == f2)
  {
    if f1.value >= f2.value then f1 else f2
  }

  function Abs(f: Fixed): (a: Fixed)
    ensures a.value >= 0 && (a == f || a == Neg(f))
  {
    if f.value < 0 then Fixed(-f.value) else f
  }

  // Rounding

  /** trunc clears the fractional bits of a positive mantissa and sets
      them all on any other mantissa. */
  function Trunc(f: Fixed): (t: Fixed)
    ensures f.value > 0 ==> t.value % Unit == 0 && 0 <= f.value - t.value < Unit
    ensures f.value <= 0 ==> t.value % Unit == Unit - 1 && 0 <= t.value - f.value < Unit
  {
    if f.value > 0 then Fixed(f.value - f.value % Unit)
    else Fixed(f.value - f.value % Unit + (Unit - 1))
  }

  function Round(f: Fixed): (r: Fixed)
    ensures f.value > 0 ==> r.value % Unit == 0 && f.value - HalfUnit < r.value <= f.value + HalfUnit
    ensures f.value <= 0 ==> r.value % Unit == Unit - 1 && f.value - HalfUnit <= r.value < f.value + HalfUnit
  {
    if f.value > 0 then Trunc(Add(f, Half())) else Trunc(Sub(f, Half()))
  }

  function Ceil(f: Fixed): (c: Fixed)
    ensures GreaterEq(c, f)
    ensures f.value > 0 ==> c.value % Unit == 0 && f.value < c.value <= f.value + Unit
    ensures f.value <= 0 ==> c.value - f.value < Unit
  {
    if f.value > 0 then Round(Add(f, Half())) else Trunc(f)
  }

  function Floor(f: Fixed): (c: Fixed)
    ensures LessEq(c, f)
    ensures f.value > 0 ==> c.value % Unit == 0 && f.value - Unit < c.value
    ensures f.value <= 0 ==> c.value % Unit == Unit - 1 && f.value - Unit <= c.value < f.value
  {
    if f.value > 0 then Trunc(f) else Round(Sub(f, Half()))
  }

  /** The mutable side of the type: the compound assignments overwrite the
      mantissa of the object they are applied to. */
  class FixedVariable {
    var current: Fixed

    constructor (f: Fixed)
      ensures current == f
    {
      current := f;
    }

    method AddAssign(f: Fixed)
      modifies this
      ensures current == Add(old(current), f)
    {
      current := Fixed(current.value + f.value);
    }

    method SubAssign(f: Fixed)
      modifies this
      ensures current == Sub(old(current), f)
    {
      current := Fixed(current.value - f.value);
    }

    method MulAssign(v: int)
      modifies this
      ensures current == MulInt(old(current), v)
    {
      current := Fixed(current.value * v);
    }
  }

  // Properties

  lemma OfIntToInt(v: int)
    ensures ToInt(OfInt(v)) == v
  {
    Scaled.DivUnique(v * Unit, Unit, v);
  }

  lemma UnitConstants()
    ensures Zero().value == 0
    ensures One() == Add(Half(), Half())
    ensures OfInt(1) == One() && ToInt(One()) == 1
    ensures Trunc(Zero()) != Zero()
  {
  }

  lemma AddSubInverse(a: Fixed, b: Fixed)
    ensures Sub(Add(a, b), b) == a && Add(Sub(a, b), b) == a
    ensures Sub(a, b) == Add(a, Neg(b)) && Neg(Neg(a)) == a
  {
  }

  lemma AddCommutesAssociates(a: Fixed, b: Fixed, c: Fixed)
    ensures Add(a, b) == Add(b, a)
    ensures Add(Add(a, b), c) == Add(a, Add(b, c))
    ensures Add(a, Zero()) == a
  {
  }

  lemma MulIntIsRepeatedAdd(f: Fixed, v: nat)
    ensures MulInt(f, v) == IntMul(v, f)
    ensures MulInt(f, v + 1) == Add(MulInt(f, v), f)
    ensures MulInt(f, 0) == Zero()
  {
    assert f.value * (v + 1) == f.value * v + f.value;
  }

  lemma DivIntUndoesMulInt(f: Fixed, v: int)
    requires v > 0
    ensures DivInt(MulInt(f, v), v) == f
  {
    Scaled.TruncDivExact(f.value, v);
  }

  lemma EuclidBound(a: int, b: int)
    requires a >= 0 && b > 0
    ensures 0 <= (a / b) * b <= a
  {
    assert a == (a / b) * b + a % b;
    Scaled.MulSign(a / b, b);
  }

  lemma DivIntTowardZero(f: Fixed, v: int)
    requires v != 0
    ensures Abs(MulInt(DivInt(f, v), v)).value <= Abs(f).value
  {
    TruncProductBound(f.value, v);
  }

  /** The quotient times the divisor lies between 0 and the dividend. */
  lemma TruncProductBound(x: int, v: int)
    requires v != 0
    ensures var p := Scaled.TruncDiv(x, v) * v;
      (x >= 0 ==> 0 <= p <= x) && (x < 0 ==> x <= p <= 0)
  {
    var a := if x >= 0 then x else -x;
    var b := if v > 0 then v else -v;
    var d := a / b;
    EuclidBound(a, b);
    var q := Scaled.TruncDiv(x, v);
    if x >= 0 && v > 0 {
      assert q == d;
    } else if x >= 0 {
      assert q == -d;
      assert q * v == d * b;
    } else if v > 0 {
      assert q == -d;
      assert q * v == -(d * b);
    } else {
      assert q == d;
      assert q * v == -(d * b);
    }
  }

  lemma DivIntOfNeg(f: Fixed, v: int)
    requires v != 0
    ensures DivInt(Neg(f), v) == Neg(DivInt(f, v))
  {
    TruncDivOfNeg(f.value, v);
  }

  /** Truncating division commutes with negation of the dividend. */
  lemma TruncDivOfNeg(x: int, v: int)
    requires v != 0
    ensures Scaled.TruncDiv(-x, v) == -Scaled.TruncDiv(x, v)
  {
    if x == 0 {
      assert 0 / v == 0 && 0 / -v == 0;
    } else if x > 0 && v > 0 {
      assert Scaled.TruncDiv(-x, v) == -(x / v);
    } else if x > 0 {
      assert Scaled.TruncDiv(-x, v) == x / -v;
    } else if v > 0 {
      assert Scaled.TruncDiv(-x, v) == (-x) / v;
    } else {
      assert Scaled.TruncDiv(-x, v) == -((-x) / -v);
    }
  }

  lemma OrderIsTotal(a: Fixed, b: Fixed)
    ensures Less(a, b) || a == b || Greater(a, b)
    ensures LessEq(a, b) <==> !Greater(a, b)
    ensures GreaterEq(a, b) <==> !Less(a, b)
    ensures LessEq(Min(a, b), Max(a, b))
    ensures Min(a, b) == Min(b, a) && Max(a, b) == Max(b, a)
  {
  }

  /** floor(x) <= x <= ceil(x) for every x: the floor branch for mantissas
      at or below zero lands strictly below x. */
  lemma FloorCeilBracket(f: Fixed)
    ensures LessEq(Floor(f), f) && LessEq(f, Ceil(f))
  {
  }

  /** At zero the non-positive branches set every fractional bit: trunc(0)
      and ceil(0) are one() less one step, and floor(0) is one step below
      zero. */
  lemma RoundingAtZero()
    ensures Trunc(Zero()).value == Unit - 1 && Ceil(Zero()).value == Unit - 1
    ensures Floor(Zero()).value == -1
  {
  }

  /** For mantissas at or below zero trunc moves up, not toward zero: it
      never lies below x and it is never a multiple of one(). */
  lemma TruncOfNonPositive(f: Fixed)
    requires f.value <= 0
    ensures GreaterEq(Trunc(f), f) && Trunc(f).value % Unit != 0
  {
  }
}
