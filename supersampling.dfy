/**
 * `get_samples` of the supersampling rasterizer: a `g x g` grid of sub-pixel
 * offsets, `g` the integer square root of the requested count, each with a
 * reconstruction-filter weight. Square root and exponential are given as
 * functions.
 */
module Supersampling {
  import opened Wrappers
  import opened Vectors
  import RealArith

  /** An entry `(dx, dy, weight)`. */
  datatype Sample = Sample(dx: real, dy: real, weight: real)

  datatype SampleError =
    | NegativeCount   // `math.sqrt` of a negative count
    | EmptyGrid       // a zero grid size makes `1.0 / grid_size` divide by zero

  /** The width of the Gaussian filter. */
  const Sigma: real := 0.35

  /** `int(math.sqrt(n))`: the largest `g` with `g * g <= n`. */
  function IntSqrt(n: nat): (g: nat)
    ensures g * g <= n < (g + 1) * (g + 1)
  {
    if n == 0 then 0
    else
      var r := IntSqrt(n - 1);
      if (r + 1) * (r + 1) <= n then r + 1 else r
  }

  /** The offset from the pixel centre of cell `k` of `g`: `(k + 0.5) * (1 / g) - 0.5`. */
  function Offset(k: nat, g: nat): real
    requires g > 0
  {
    (k as real + 0.5) * (1.0 / g as real) - 0.5
  }

  /** The weight the named filter gives an offset; a name other than `hat` or `gaussian` weighs 1. */
  function Weight(dx: real, dy: real, filter: string, sqrt: real -> real, exp: real -> real): real {
    var dist := sqrt(dx * dx + dy * dy);
    if filter == "box" then 1.0
    else if filter == "hat" then (if 0.0 >= 1.0 - dist * 2.0 then 0.0 else 1.0 - dist * 2.0)
    else if filter == "gaussian" then Gaussian(dist, exp)
    else 1.0
  }

  /** The Gaussian filter's weight at distance `dist`: `exp(-dist^2 / (2 sigma^2))`. */
  function Gaussian(dist: real, exp: real -> real): real {
    exp(-(dist * dist) / (2.0 * Sigma * Sigma))
  }

  /** The sample of row `i` (its `dy`) and column `j` (its `dx`). */
  function SampleAt(i: nat, j: nat, g: nat, filter: string, sqrt: real -> real, exp: real -> real): Sample
    requires g > 0
  {
    var dx, dy := Offset(j, g), Offset(i, g);
    Sample(dx, dy, Weight(dx, dy, filter, sqrt, exp))
  }

  /** The first `m` samples of row `i`. */
  function Row(i: nat, m: nat, g: nat, filter: string, sqrt: real -> real, exp: real -> real): (s: seq<Sample>)
    requires g > 0
    ensures |s| == m
  {
    if m == 0 then [] else Row(i, m - 1, g, filter, sqrt, exp) + [SampleAt(i, m - 1, g, filter, sqrt, exp)]
  }

  /** The first `m` full rows, one after another. */
  function Rows(m: nat, g: nat, filter: string, sqrt: real -> real, exp: real -> real): seq<Sample>
    requires g > 0
  {
    if m == 0 then [] else Rows(m - 1, g, filter, sqrt, exp) + Row(m - 1, g, g, filter, sqrt, exp)
  }

  /** The `g x g` grid, row by row. */
  function Grid(g: nat, filter: string, sqrt: real -> real, exp: real -> real): seq<Sample>
    requires g > 0
  {
    Rows(g, g, filter, sqrt, exp)
  }

  /**
   * `get_samples`. A negative count or a count of zero is an error; otherwise
   * the `g x g` grid for `g = IntSqrt(n)`, in row order.
   */
  method GetSamples(n: int, filter: string, sqrt: real -> real, exp: real -> real)
    returns (r: Result<seq<Sample>, SampleError>)
    ensures n < 0 <==> r == Err(NegativeCount)
    ensures n == 0 <==> r == Err(EmptyGrid)
    ensures n > 0 ==> r == Ok(Grid(IntSqrt(n), filter, sqrt, exp))
  {
    if n < 0 {
      return Err(NegativeCount);
    }
    var gridSize := IntSqrt(n);
    if gridSize == 0 {
      return Err(EmptyGrid);
    }
    var samples := FillGrid(gridSize, filter, sqrt, exp);
    return Ok(samples);
  }

  /** The nested loops of `get_samples`, appending one sample per grid cell, row by row. */
  method FillGrid(gridSize: nat, filter: string, sqrt: real -> real, exp: real -> real) returns (samples: seq<Sample>)
    requires gridSize > 0
    ensures samples == Grid(gridSize, filter, sqrt, exp)
  {
    var step := 1.0 / gridSize as real;
    samples := [];
    for i := 0 to gridSize
      invariant samples == Rows(i, gridSize, filter, sqrt, exp)
    {
      ghost var done := samples;
      for j := 0 to gridSize
        invariant samples == done + Row(i, j, gridSize, filter, sqrt, exp)
      {
        var sample := Cell(i, j, gridSize, step, filter, sqrt, exp);
        samples := samples + [sample];
      }
    }
  }

  /** The body of the inner loop: the offsets of cell `(i, j)` and the filter's weight for them. */
  method Cell(i: nat, j: nat, gridSize: nat, step: real, filter: string, sqrt: real -> real, exp: real -> real)
    returns (sample: Sample)
    requires gridSize > 0 && step == 1.0 / gridSize as real
    ensures sample == SampleAt(i, j, gridSize, filter, sqrt, exp)
  {
    var ry := (i as real + 0.5) * step;
    var rx := (j as real + 0.5) * step;
    var dx := rx - 0.5;
    var dy := ry - 0.5;
    assert dx == Offset(j, gridSize) && dy == Offset(i, gridSize);
    var weight := FilterWeight(dx, dy, filter, sqrt, exp);
    sample := Sample(dx, dy, weight);
  }

  /** The `if filter == ...` chain of `get_samples`. */
  method FilterWeight(dx: real, dy: real, filter: string, sqrt: real -> real, exp: real -> real) returns (weight: real)
    ensures weight == Weight(dx, dy, filter, sqrt, exp)
  {
    var dist := sqrt(dx * dx + dy * dy);
    weight := 1.0;
    if filter == "box" {
      weight := 1.0;
    } else if filter == "hat" {
      weight := if 0.0 >= 1.0 - dist * 2.0 then 0.0 else 1.0 - dist * 2.0;
    } else if filter == "gaussian" {
      weight := Gaussian(dist, exp);
    }
  }

  /** A row holds `SampleAt(i, j)` at position `j`. */
  lemma {:induction false} RowAt(i: nat, m: nat, g: nat, filter: string, sqrt: real -> real, exp: real -> real, j: nat)
    requires g > 0 && j < m
    ensures Row(i, m, g, filter, sqrt, exp)[j] == SampleAt(i, j, g, filter, sqrt, exp)
  {
    if j < m - 1 {
      RowAt(i, m - 1, g, filter, sqrt, exp, j);
    }
  }

  /** `m` full rows hold `m * g` samples. */
  lemma {:induction false} RowsLength(m: nat, g: nat, filter: string, sqrt: real -> real, exp: real -> real)
    requires g > 0
    ensures |Rows(m, g, filter, sqrt, exp)| == m * g
  {
    if m > 0 {
      RowsLength(m - 1, g, filter, sqrt, exp);
      assert (m - 1) * g + g == m * g;
    }
  }

  /** `x = q * g + r` with `0 <= r < g` determines `x / g = q` and `x % g = r`. */
  lemma DivModUnique(x: int, g: int, q: int, r: int)
    requires g > 0 && 0 <= r < g && x == q * g + r
    ensures x / g == q && x % g == r
  {
    var q', r' := x / g, x % g;
    assert x == q' * g + r';
    if q' > q {
      Distribute(q', q, g);
      MulAtLeast(q' - q, g);
    } else if q' < q {
      Distribute(q, q', g);
      MulAtLeast(q - q', g);
    }
  }

  lemma Distribute(a: int, b: int, g: int)
    ensures (a - b) * g == a * g - b * g
  {
  }

  lemma MulAtLeast(a: int, g: int)
    requires a >= 1 && g > 0
    ensures a * g >= g
  {
    assert a * g == (a - 1) * g + g;
  }

  /** Sample `k` of the grid lies in row `k / g` (its `dy`) and column `k % g` (its `dx`). */
  lemma {:induction false} RowsAt(m: nat, g: nat, filter: string, sqrt: real -> real, exp: real -> real, k: nat)
    requires g > 0 && k < m * g
    ensures |Rows(m, g, filter, sqrt, exp)| == m * g
    ensures Rows(m, g, filter, sqrt, exp)[k] == SampleAt(k / g, k % g, g, filter, sqrt, exp)
  {
    RowsLength(m, g, filter, sqrt, exp);
    var before := Rows(m - 1, g, filter, sqrt, exp);
    RowsLength(m - 1, g, filter, sqrt, exp);
    assert (m - 1) * g + g == m * g;
    if k < (m - 1) * g {
      RowsAt(m - 1, g, filter, sqrt, exp, k);
    } else {
      var j := k - (m - 1) * g;
      DivModUnique(k, g, m - 1, j);
      RowAt(m - 1, g, g, filter, sqrt, exp, j);
    }
  }

  /** The grid has `g * g` samples, and sample `k` sits in row `k / g`, column `k % g`. */
  lemma GridAt(g: nat, filter: string, sqrt: real -> real, exp: real -> real, k: nat)
    requires g > 0 && k < g * g
    ensures |Grid(g, filter, sqrt, exp)| == g * g
    ensures Grid(g, filter, sqrt, exp)[k] == SampleAt(k / g, k % g, g, filter, sqrt, exp)
  {
    RowsAt(g, g, filter, sqrt, exp, k);
  }

  /** Every offset lies strictly inside the pixel, between -0.5 and 0.5. */
  lemma OffsetBounds(k: nat, g: nat)
    requires k < g
    ensures -0.5 < Offset(k, g) < 0.5
  {
    Fraction(k as real + 0.5, g as real);
  }

  /** `a / b` lies strictly between 0 and 1 when `0 < a < b`, written as `a * (1 / b)`. */
  lemma Fraction(a: real, b: real)
    requires 0.0 < a < b
    ensures 0.0 < a * (1.0 / b) < 1.0
  {
    var step := 1.0 / b;
    assert step * b == 1.0;
    var p, rest := a * step, (b - a) * step;
    assert rest > 0.0;
    assert p + rest == 1.0 by {
      assert p + rest == (a + (b - a)) * step;
    }
    assert p < 1.0;
    assert a * (1.0 / b) == p;
  }

  /** Neighbouring cells are one grid step apart. */
  lemma OffsetSpacing(k: nat, g: nat)
    requires g > 0
    ensures Offset(k + 1, g) - Offset(k, g) == 1.0 / g as real
  {
  }

  /** Cell `g - 1 - k` mirrors cell `k` through the pixel centre. */
  lemma OffsetMirror(k: nat, g: nat)
    requires k < g
    ensures Offset(g - 1 - k, g) == -Offset(k, g)
  {
    var step := 1.0 / g as real;
    assert step * g as real == 1.0;
    assert ((g - 1 - k) as real + 0.5) + (k as real + 0.5) == g as real;
    assert ((g - 1 - k) as real + 0.5) * step + (k as real + 0.5) * step == 1.0;
  }

  /** The weight depends only on the distance from the centre, so mirroring the offset keeps it. */
  lemma WeightMirror(dx: real, dy: real, filter: string, sqrt: real -> real, exp: real -> real)
    ensures Weight(-dx, -dy, filter, sqrt, exp) == Weight(dx, dy, filter, sqrt, exp)
  {
    assert (-dx) * (-dx) + (-dy) * (-dy) == dx * dx + dy * dy;
  }

  /** The grid is symmetric about the pixel centre: sample `g*g - 1 - k` is sample `k` mirrored, with the same weight. */
  lemma GridMirror(g: nat, filter: string, sqrt: real -> real, exp: real -> real, k: nat)
    requires g > 0 && k < g * g
    ensures |Grid(g, filter, sqrt, exp)| == g * g
    ensures var s, t := Grid(g, filter, sqrt, exp)[k], Grid(g, filter, sqrt, exp)[g * g - 1 - k];
      t == Sample(-s.dx, -s.dy, s.weight)
  {
    MirrorIndex(g, k);
    var grid := Grid(g, filter, sqrt, exp);
    var i, j, k' := k / g, k % g, g * g - 1 - k;
    assert |grid| == g * g && grid[k] == SampleAt(i, j, g, filter, sqrt, exp) by {
      GridAt(g, filter, sqrt, exp, k);
    }
    assert grid[k'] == SampleAt(g - 1 - i, g - 1 - j, g, filter, sqrt, exp) by {
      GridAt(g, filter, sqrt, exp, k');
    }
    SampleMirror(i, j, g, filter, sqrt, exp);
  }

  /** The sample of the mirrored cell is the mirrored sample. */
  lemma SampleMirror(i: nat, j: nat, g: nat, filter: string, sqrt: real -> real, exp: real -> real)
    requires i < g && j < g
    ensures var s := SampleAt(i, j, g, filter, sqrt, exp);
      SampleAt(g - 1 - i, g - 1 - j, g, filter, sqrt, exp) == Sample(-s.dx, -s.dy, s.weight)
  {
    OffsetMirror(i, g);
    OffsetMirror(j, g);
    WeightMirror(Offset(j, g), Offset(i, g), filter, sqrt, exp);
  }

  /** Position `g*g - 1 - k` sits in the mirrored row and column of position `k`. */
  lemma MirrorIndex(g: nat, k: nat)
    requires g > 0 && k < g * g
    ensures k / g < g && k % g < g
    ensures (g * g - 1 - k) / g == g - 1 - k / g && (g * g - 1 - k) % g == g - 1 - k % g
  {
    var i, j := k / g, k % g;
    assert k == i * g + j;
    assert i < g by {
      if i >= g {
        Distribute(i, g, g);
        MulAtLeast2(i - g, g);
      }
    }
    assert g * g - 1 - k == (g - 1 - i) * g + (g - 1 - j) by {
      Distribute(g - 1, i, g);
      assert (g - 1) * g == g * g - g;
    }
    DivModUnique(g * g - 1 - k, g, g - 1 - i, g - 1 - j);
  }

  lemma MulAtLeast2(a: int, g: int)
    requires a >= 0 && g > 0
    ensures a * g >= 0
  {
  }

  /** The box filter, and any name other than `hat` or `gaussian`, weighs every sample 1. */
  lemma UnitWeight(dx: real, dy: real, filter: string, sqrt: real -> real, exp: real -> real)
    requires filter != "hat" && filter != "gaussian"
    ensures Weight(dx, dy, filter, sqrt, exp) == 1.0
  {
  }

  /** The hat filter weighs between 0 and 1, falling to 0 at distance 0.5 and beyond. */
  lemma HatWeightBounds(dx: real, dy: real, sqrt: real -> real, exp: real -> real)
    requires IsSqrt(sqrt)
    ensures 0.0 <= Weight(dx, dy, "hat", sqrt, exp) <= 1.0
    ensures sqrt(dx * dx + dy * dy) >= 0.5 <==> Weight(dx, dy, "hat", sqrt, exp) == 0.0
  {
    assert 0.0 <= dx * dx + dy * dy by {
      RealArith.SquareNonNegative(dx);
      RealArith.SquareNonNegative(dy);
    }
  }

  /** At the exact centre the hat filter weighs 1. */
  lemma HatPeak(sqrt: real -> real, exp: real -> real)
    requires IsSqrt(sqrt)
    ensures Weight(0.0, 0.0, "hat", sqrt, exp) == 1.0
  {
    var d := sqrt(0.0 * 0.0 + 0.0 * 0.0);
    assert 0.0 <= d && d * d == 0.0 * 0.0;
    RealArith.SquareRootUnique(d, 0.0);
  }

  /** One requested sample is the pixel centre itself. */
  lemma SingleSample(filter: string, sqrt: real -> real, exp: real -> real)
    ensures IntSqrt(1) == 1
    ensures Grid(1, filter, sqrt, exp) == [Sample(0.0, 0.0, Weight(0.0, 0.0, filter, sqrt, exp))]
  {
    assert Offset(0, 1) == 0.0;
    assert Row(0, 1, 1, filter, sqrt, exp) == [SampleAt(0, 0, 1, filter, sqrt, exp)];
    assert Grid(1, filter, sqrt, exp) == Rows(0, 1, filter, sqrt, exp) + Row(0, 1, 1, filter, sqrt, exp);
  }

  /**
   * For a positive count `n` the grid holds the largest square number of
   * samples not above `n`; exactly `n` when `n` is a perfect square.
   */
  lemma SampleCount(n: nat, filter: string, sqrt: real -> real, exp: real -> real)
    requires n > 0
    ensures IntSqrt(n) > 0
    ensures |Grid(IntSqrt(n), filter, sqrt, exp)| <= n
    ensures (exists g: nat :: g * g == n) <==> |Grid(IntSqrt(n), filter, sqrt, exp)| == n
  {
    var g := IntSqrt(n);
    RowsLength(g, g, filter, sqrt, exp);
    if exists h: nat :: h * h == n {
      var h: nat :| h * h == n;
      NatRootUnique(g, h, n);
    }
  }

  /** A perfect square lies between the consecutive squares of its own root only. */
  lemma NatRootUnique(g: nat, h: nat, n: nat)
    requires g * g <= n < (g + 1) * (g + 1) && h * h == n
    ensures g == h
  {
    if h < g {
      assert h + 1 <= g;
      MulMono(h + 1, g);
    } else if h > g {
      assert g + 1 <= h;
      MulMono(g + 1, h);
    }
  }

  lemma MulMono(a: nat, b: nat)
    requires a <= b
    ensures a * a <= b * b
  {
    assert a * a <= a * b <= b * b;
  }
}
