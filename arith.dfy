/** Small facts of real arithmetic that the solver does not find by itself. */
module RealArith {

  lemma SquareNonNegative(x: real)
    ensures x * x >= 0.0
  {
    if x < 0.0 {
      assert x * x == (-x) * (-x);
    }
  }

  lemma SquarePositive(x: real)
    requires x != 0.0
    ensures x * x > 0.0
  {
    if x < 0.0 {
      assert x * x == (-x) * (-x);
    }
  }

  lemma SumOfSquaresPositive(a: real, b: real, c: real)
    requires a != 0.0 || b != 0.0 || c != 0.0
    ensures a * a + b * b + c * c > 0.0
  {
    if a != 0.0 {
      SquarePositive(a); SquareNonNegative(b); SquareNonNegative(c);
    } else if b != 0.0 {
      SquarePositive(b); SquareNonNegative(a); SquareNonNegative(c);
    } else {
      SquarePositive(c); SquareNonNegative(a); SquareNonNegative(b);
    }
  }

  /** Squaring is strictly increasing on the non-negative reals. */
  lemma SquareMonotonic(u: real, v: real)
    requires 0.0 <= u < v
    ensures u * u < v * v
  {
    calc {
      u * u;
    <= u * v;
    < { assert (v - u) * v > 0.0; }
      v * v;
    }
  }

  /** Squaring orders reals by magnitude. */
  lemma SquareAbsMonotonic(u: real, v: real)
    requires (if u < 0.0 then -u else u) <= (if v < 0.0 then -v else v)
    ensures u * u <= v * v
  {
    var a, b := if u < 0.0 then -u else u, if v < 0.0 then -v else v;
    assert u * u == a * a && v * v == b * b;
    if a < b {
      SquareMonotonic(a, b);
    }
  }

  /** ... and strictly when the magnitudes differ. */
  lemma SquareAbsStrict(u: real, v: real)
    requires (if u < 0.0 then -u else u) < (if v < 0.0 then -v else v)
    ensures u * u < v * v
  {
    var a, b := if u < 0.0 then -u else u, if v < 0.0 then -v else v;
    assert u * u == a * a && v * v == b * b;
    SquareMonotonic(a, b);
  }

  lemma SquareRootUnique(u: real, v: real)
    requires u >= 0.0 && v >= 0.0 && u * u == v * v
    ensures u == v
  {
    if u < v {
      SquareMonotonic(u, v);
    } else if v < u {
      SquareMonotonic(v, u);
    }
  }

  lemma SquareOfSum(u: real, v: real, t: real)
    ensures (u + t * v) * (u + t * v) == u * u + 2.0 * t * (u * v) + t * t * (v * v)
  {}

  /** Comparing a quotient with `t` by multiplying out the divisor. */
  lemma DivBounds(x: real, d: real, t: real)
    requires d != 0.0
    ensures d > 0.0 ==> (x / d <= t <==> x <= t * d) && (t <= x / d <==> t * d <= x)
    ensures d < 0.0 ==> (x / d <= t <==> t * d <= x) && (t <= x / d <==> x <= t * d)
  {
    var q := x / d;
    assert q * d == x;
    if d > 0.0 {
      assert q <= t ==> q * d <= t * d;
      assert t <= q ==> t * d <= q * d;
    } else {
      assert q <= t ==> t * d <= q * d;
      assert t <= q ==> q * d <= t * d;
    }
  }
}
