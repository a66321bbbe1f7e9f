/** Lengths ("scaled" values) and bounding boxes shared by the layout code.
    A scaled length is an integer mantissa; its addition and subtraction are
    exact, division by an integer truncates toward zero as in C++, and the
    scaling by a float fraction truncates the real product toward zero. */
module Scaled {

  /** Truncation of a real toward zero (the C++ float-to-integer cast). */
  function TruncReal(r: real): (n: int)
    ensures r >= 0.0 ==> n as real <= r < n as real + 1.0
    ensures r < 0.0 ==> n as real - 1.0 < r <= n as real
  {
    if r >= 0.0 then r.Floor else -((-r).Floor)
  }

  /** C++ integer division: the quotient is truncated toward zero. */
  function TruncDiv(x: int, n: int): (q: int)
    requires n != 0
    ensures n > 0 && x >= 0 ==> q * n <= x < q * n + n
    ensures n > 0 && x < 0 ==> q * n - n < x <= q * n
  {
    if x >= 0 then (if n > 0 then x / n else -(x / -n))
    else (if n > 0 then -((-x) / n) else (-x) / (-n))
  }

  /** A scaled length times a float fraction. */
  function MulFraction(x: int, f: real): int
  {
    TruncReal(x as real * f)
  }

  /** A scaled length divided by a float fraction; dividing by zero would
      produce an infinity that a scaled cannot hold. */
  function DivFraction(x: int, f: real): int
    requires f != 0.0
  {
    TruncReal(x as real / f)
  }

  function Max(a: int, b: int): (m: int)
    ensures m >= a && m >= b && (m == a || m == b)
  {
    if a >= b then a else b
  }

  lemma MulSign(a: int, n: int)
    requires n > 0
    ensures (a * n < 0) == (a < 0) && (a * n > 0) == (a > 0)
  {
  }

  /** Euclidean division by a positive divisor is determined by its bounds. */
  lemma DivUnique(x: int, n: int, q: int)
    requires n > 0 && q * n <= x < q * n + n
    ensures x / n == q
  {
    var r := x / n;
    assert x == r * n + x % n;
    assert (r - q) * n == r * n - q * n;
    MulSign(r - q - 1, n);
    assert (r - q - 1) * n == (r - q) * n - n;
    MulSign(r - q + 1, n);
    assert (r - q + 1) * n == (r - q) * n + n;
  }

  /** Truncating division by a positive divisor keeps the sign and does not
      grow the magnitude. */
  lemma TruncDivSign(x: int, n: int)
    requires n > 0
    ensures x >= 0 ==> 0 <= TruncDiv(x, n) <= x
    ensures x <= 0 ==> x <= TruncDiv(x, n) <= 0
  {
    if x >= 0 {
      DivShrinks(x, n);
    } else {
      DivShrinks(-x, n);
    }
  }

  lemma DivShrinks(a: int, n: int)
    requires a >= 0 && n > 0
    ensures 0 <= a / n <= a
  {
    var q := a / n;
    assert a == q * n + a % n;
    assert (q + 1) * n == q * n + n;
    MulSign(q + 1, n);
    assert q * n == q + q * (n - 1);
    if n > 1 {
      MulSign(q, n - 1);
    }
  }


  lemma TruncDivExact(k: int, n: int)
    requires n > 0
    ensures TruncDiv(k * n, n) == k
  {
    if k >= 0 {
      assert k * n >= 0 by { assert k * n == k * n; }
      DivUnique(k * n, n, k);
    } else {
      assert (-(k * n)) == (-k) * n;
      DivUnique((-k) * n, n, -k);
    }
  }

  lemma TruncRealOfInt(x: int)
    ensures TruncReal(x as real) == x
  {
  }

  lemma DivByOne(x: int)
    ensures DivFraction(x, 1.0) == x
  {
    assert x as real / 1.0 == x as real;
    TruncRealOfInt(x);
  }

  lemma MulByZero(x: int)
    ensures MulFraction(x, 0.0) == 0
  {
    assert x as real * 0.0 == 0.0;
  }
}

/** Bounding boxes: a width, a height above the baseline and a depth below it. */
module Geometry {

  datatype BoundingBox = BoundingBox(width: int, height: int, depth: int)
  {
    /** The extent from the top of the box to its bottom. */
    function VerticalExtent(): int
    {
      height + depth
    }
  }

  /** The box every field of which is zero. */
  const EmptyBox := BoundingBox(0, 0, 0)
}
