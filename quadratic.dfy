/**
 * The quadratic `a*t*t + b*t + c` that the sphere, cylinder and paraboloid
 * tests solve with the roots `(-b - s) / 2a` and `(-b + s) / 2a`, where `s` is
 * the square root of the discriminant.
 */
module Quadratic {
  import opened RealArith

  function Eval(a: real, b: real, c: real, t: real): real { a * t * t + b * t + c }

  function Discriminant(a: real, b: real, c: real): real { b * b - 4.0 * a * c }

  function LowRoot(a: real, b: real, s: real): real requires a != 0.0 { (-b - s) / (2.0 * a) }

  function HighRoot(a: real, b: real, s: real): real requires a != 0.0 { (-b + s) / (2.0 * a) }

  /** With `s*s` the discriminant, the quadratic factors over its two roots. */
  lemma Factor(a: real, b: real, c: real, s: real, t: real)
    requires a != 0.0 && s * s == Discriminant(a, b, c)
    ensures Eval(a, b, c, t) == a * (t - LowRoot(a, b, s)) * (t - HighRoot(a, b, s))
  {
    var lo, hi := LowRoot(a, b, s), HighRoot(a, b, s);
    assert lo * (2.0 * a) == -b - s;
    assert hi * (2.0 * a) == -b + s;
    assert a * (lo + hi) == -b;
    assert 4.0 * a * a * (lo * hi) == (-b - s) * (-b + s);
    assert (-b - s) * (-b + s) == b * b - s * s;
    assert 4.0 * a * a * (lo * hi) == 4.0 * a * c;
    assert a * (lo * hi) == c;
    calc {
      a * (t - lo) * (t - hi);
      a * t * t - (a * (lo + hi)) * t + a * (lo * hi);
      a * t * t + b * t + c;
    }
  }

  /** The two roots are roots, and they are the only ones. */
  lemma Roots(a: real, b: real, c: real, s: real, t: real)
    requires a != 0.0 && s * s == Discriminant(a, b, c)
    ensures Eval(a, b, c, LowRoot(a, b, s)) == 0.0
    ensures Eval(a, b, c, HighRoot(a, b, s)) == 0.0
    ensures Eval(a, b, c, t) == 0.0 <==> t == LowRoot(a, b, s) || t == HighRoot(a, b, s)
  {
    Factor(a, b, c, s, LowRoot(a, b, s));
    Factor(a, b, c, s, HighRoot(a, b, s));
    Factor(a, b, c, s, t);
    if Eval(a, b, c, t) == 0.0 {
      ZeroProduct(a, t - LowRoot(a, b, s), t - HighRoot(a, b, s));
    }
  }

  lemma ZeroProduct(a: real, u: real, v: real)
    requires a != 0.0 && a * u * v == 0.0
    ensures u == 0.0 || v == 0.0
  {}

  /** For a positive leading coefficient and a non-negative root of the discriminant, the low root is the smaller. */
  lemma Ordered(a: real, b: real, s: real)
    requires a > 0.0 && s >= 0.0
    ensures LowRoot(a, b, s) <= HighRoot(a, b, s)
  {
    assert LowRoot(a, b, s) * (2.0 * a) <= HighRoot(a, b, s) * (2.0 * a);
  }

  /** A quadratic with a negative discriminant has no real root. */
  lemma NoRealRoot(a: real, b: real, c: real, t: real)
    requires a != 0.0 && Discriminant(a, b, c) < 0.0
    ensures Eval(a, b, c, t) != 0.0
  {
    // 4a * Eval = (2at + b)^2 - Discriminant
    assert 4.0 * a * Eval(a, b, c, t) == (2.0 * a * t + b) * (2.0 * a * t + b) - Discriminant(a, b, c);
    SquareNonNegative(2.0 * a * t + b);
  }
}
