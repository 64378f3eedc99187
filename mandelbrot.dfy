/**
 * The escape-time test of the `Mandelbrot` shape: iterate `z := z^2 + c`
 * from `z = 0` and report a point as outside once `|z|^2 > 4`.
 */
module Mandelbrot {
  import opened Points2D
  import opened RealArith

  /** One step `z^2 + c`, both components computed from the old `z`. */
  function Step(z: Point2, c: Point2): Point2 {
    Point2(z.x * z.x - z.y * z.y + c.x, 2.0 * z.x * z.y + c.y)
  }

  /** The iterate `z_k`. */
  function Orbit(c: Point2, k: nat): Point2 {
    if k == 0 then Point2(0.0, 0.0) else Step(Orbit(c, k - 1), c)
  }

  predicate Escaped(z: Point2) { z.x * z.x + z.y * z.y > 4.0 }

  /** Some iterate `z_1 .. z_n` has escaped. */
  predicate EscapesWithin(c: Point2, n: nat) {
    n > 0 && (EscapesWithin(c, n - 1) || Escaped(Orbit(c, n)))
  }

  /** The number of loop rounds `range(max_iterations)` gives: none for a negative count. */
  function Rounds(maxIterations: int): nat {
    if maxIterations < 0 then 0 else maxIterations
  }

  /** The iteration count a `Mandelbrot` shape gets when none is given. */
  const DefaultIterations: int := 100

  /**
   * `Mandelbrot.in_out`: true when no iterate within `max_iterations` steps
   * escapes. The count is the shape's, `DefaultIterations` unless given.
   */
  method InOut(point: Point2, maxIterations: int := DefaultIterations) returns (inside: bool)
    ensures inside <==> !EscapesWithin(point, Rounds(maxIterations))
  {
    var z := Point2(0.0, 0.0);
    var n := Rounds(maxIterations);
    for i := 0 to n
      invariant z == Orbit(point, i)
      invariant !EscapesWithin(point, i)
    {
      z := Step(z, point);
      if Escaped(z) {
        EscapeStays(point, i + 1, n);
        return false;
      }
    }
    return true;
  }

  /** Escaping within `m` steps means escaping within any larger number of steps. */
  lemma {:induction false} EscapeStays(c: Point2, m: nat, n: nat)
    requires m <= n && EscapesWithin(c, m)
    ensures EscapesWithin(c, n)
    decreases n - m
  {
    if m < n {
      EscapeStays(c, m + 1, n);
    }
  }

  /** `EscapesWithin` says exactly that some iterate `z_k`, `1 <= k <= n`, has escaped. */
  lemma EscapesWithinMeans(c: Point2, n: nat)
    ensures EscapesWithin(c, n) <==> exists k :: 1 <= k <= n && Escaped(Orbit(c, k))
  {
    if EscapesWithin(c, n) {
      EscapeHasWitness(c, n);
    }
    if exists k :: 1 <= k <= n && Escaped(Orbit(c, k)) {
      var k :| 1 <= k <= n && Escaped(Orbit(c, k));
      WitnessEscapes(c, n, k);
    }
  }

  /** An escape within `n` steps happens at some step `1 <= k <= n`. */
  lemma {:induction false} EscapeHasWitness(c: Point2, n: nat)
    requires EscapesWithin(c, n)
    ensures exists k :: 1 <= k <= n && Escaped(Orbit(c, k))
  {
    if EscapesWithin(c, n - 1) {
      EscapeHasWitness(c, n - 1);
      var k :| 1 <= k <= n - 1 && Escaped(Orbit(c, k));
      assert 1 <= k <= n;
    } else {
      assert 1 <= n && Escaped(Orbit(c, n));
    }
  }

  /** An escape at step `k` counts for every `n >= k`. */
  lemma WitnessEscapes(c: Point2, n: nat, k: nat)
    requires 1 <= k <= n && Escaped(Orbit(c, k))
    ensures EscapesWithin(c, n)
  {
    assert EscapesWithin(c, k);
    EscapeStays(c, k, n);
  }

  /** With no iterations every point is inside. */
  lemma NoIterationsMeansInside(c: Point2, maxIterations: int)
    requires maxIterations <= 0
    ensures !EscapesWithin(c, Rounds(maxIterations))
  {
  }

  /** The origin's orbit stays at 0. */
  lemma {:induction false} OriginIsFixed(k: nat)
    ensures Orbit(Point2(0.0, 0.0), k) == Point2(0.0, 0.0)
  {
    if k > 0 {
      OriginIsFixed(k - 1);
    }
  }

  /** The origin is inside for every iteration count. */
  lemma {:induction false} OriginIsInside(n: nat)
    ensures !EscapesWithin(Point2(0.0, 0.0), n)
  {
    if n > 0 {
      OriginIsInside(n - 1);
      OriginIsFixed(n);
    }
  }

  /** A point with `|c|^2 > 4` is outside as soon as one step is taken, since `z_1 = c`. */
  lemma FarPointEscapes(c: Point2, n: nat)
    requires c.x * c.x + c.y * c.y > 4.0 && n >= 1
    ensures EscapesWithin(c, n)
  {
    assert Orbit(c, 1) == c;
    EscapeStays(c, 1, n);
  }

  /** A point inside after `n` iterations is inside after any smaller count. */
  lemma InsideForFewerIterations(c: Point2, m: nat, n: nat)
    requires m <= n && !EscapesWithin(c, n)
    ensures !EscapesWithin(c, m)
  {
    if EscapesWithin(c, m) {
      EscapeStays(c, m, n);
    }
  }
}
