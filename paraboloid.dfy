/**
 * `Paraboloid.hit` and `DoubleSidedParaboloid.hit`: the surface
 * `k * (x*x + z*z) = y` with `k = 1`, clipped to `y_min <= y <= y_max`.
 */
module ParaboloidShape {
  import opened Wrappers
  import opened Vectors
  import opened Hits
  import opened Quadratic
  import opened RealArith

  /** The curvature `k` of the source, fixed at 1. */
  const Curvature: real := 1.0

  /** Leading coefficients below this in magnitude count as degenerate. */
  const DegenerateTolerance: real := 0.000001

  datatype Paraboloid = Paraboloid(yMin: real, yMax: real, material: Material)

  function CoeffA(ray: Ray): real {
    var d := ray.direction;
    Curvature * (d.x * d.x + d.z * d.z)
  }

  function CoeffB(ray: Ray): real {
    var o, d := ray.origin, ray.direction;
    Curvature * (2.0 * o.x * d.x + 2.0 * o.z * d.z) - d.y
  }

  function CoeffC(ray: Ray): real {
    var o := ray.origin;
    Curvature * (o.x * o.x + o.z * o.z) - o.y
  }

  ghost predicate OnSurface(p: Vec3) {
    Curvature * (p.x * p.x + p.z * p.z) == p.y
  }

  /** A root the source accepts: beyond the epsilon floor and within the height range. */
  predicate Admits(par: Paraboloid, ray: Ray, t: real) {
    t > CastEpsilon && par.yMin <= PointAt(ray, t).y <= par.yMax
  }

  /**
   * The near and far roots of the quadratic, or none when the leading
   * coefficient is degenerate or the discriminant is negative.
   */
  function RootPair(ray: Ray, sqrt: real -> real): Option<seq<real>> {
    var a, b, c := CoeffA(ray), CoeffB(ray), CoeffC(ray);
    var delta := Discriminant(a, b, c);
    if Abs(a) < DegenerateTolerance || delta < 0.0 then None
    else Some([LowRoot(a, b, sqrt(delta)), HighRoot(a, b, sqrt(delta))])
  }

  /**
   * The `best_t` the scan over `ts` ends with: a root replaces the best so
   * far when it is admitted and strictly smaller.
   */
  function Best(par: Paraboloid, ray: Ray, ts: seq<real>): Param {
    if ts == [] then Infinity
    else
      var b := Best(par, ray, ts[..|ts| - 1]);
      var t := ts[|ts| - 1];
      if Admits(par, ray, t) && Below(t, b) then Finite(t) else b
  }

  /** The record for a hit at `t`: the gradient `(2x, -1, 2z)` normalized, and the paraboloid's material. */
  function Record(par: Paraboloid, ray: Ray, t: real, sqrt: real -> real): HitRecord
    requires IsSqrt(sqrt)
  {
    var p := PointAt(ray, t);
    HitRecord(true, Finite(t), Some(p), Some(Normalize(Vec3(2.0 * p.x, -1.0, 2.0 * p.z), sqrt)), Some(par.material), None)
  }

  /** What `Paraboloid.hit` returns. */
  function SingleSided(par: Paraboloid, ray: Ray, sqrt: real -> real): HitRecord
    requires IsSqrt(sqrt)
  {
    match RootPair(ray, sqrt)
    case None => Miss
    case Some(ts) =>
      match Best(par, ray, ts)
      case Infinity => Miss
      case Finite(t) => Record(par, ray, t, sqrt)
  }

  /**
   * `Paraboloid.hit`. A degenerate or root-less quadratic misses; otherwise
   * the two roots are scanned in order and the smallest admitted one is hit.
   */
  method Hit(par: Paraboloid, ray: Ray, sqrt: real -> real) returns (r: HitRecord)
    requires IsSqrt(sqrt)
    ensures r == SingleSided(par, ray, sqrt)
    ensures r.hit ==>
      r.t.Finite? && r.t.value > CastEpsilon && r.point == Some(PointAt(ray, r.t.value))
      && par.yMin <= r.point.value.y <= par.yMax && r.material == Some(par.material)
    ensures !r.hit ==> r == Miss
  {
    var a, b, c := CoeffA(ray), CoeffB(ray), CoeffC(ray);
    if Abs(a) < DegenerateTolerance {
      return Miss;
    }
    var delta := Discriminant(a, b, c);
    if delta < 0.0 {
      return Miss;
    }
    var sqrtDelta := sqrt(delta);
    var roots := [LowRoot(a, b, sqrtDelta), HighRoot(a, b, sqrtDelta)];
    var bestT: Param := Infinity;
    var hitFound := false;
    for k := 0 to 2
      invariant bestT == Best(par, ray, roots[..k])
      invariant hitFound <==> bestT.Finite?
    {
      var t := roots[k];
      assert roots[..k + 1][..k] == roots[..k];
      if t > CastEpsilon && Below(t, bestT) {
        var p := PointAt(ray, t);
        if par.yMin <= p.y <= par.yMax {
          bestT := Finite(t);
          hitFound := true;
        }
      }
    }
    assert roots[..2] == roots;
    if hitFound {
      BestIsSmallest(par, ray, roots);
      var p := PointAt(ray, bestT.value);
      var normal := Normalize(Vec3(2.0 * p.x, -1.0, 2.0 * p.z), sqrt);
      return HitRecord(true, bestT, Some(p), Some(normal), Some(par.material), None);
    }
    return Miss;
  }

  /**
   * `DoubleSidedParaboloid.hit`. The single-sided record, with the normal
   * negated when it points along the ray, so that it always faces the ray.
   */
  method HitDoubleSided(par: Paraboloid, ray: Ray, sqrt: real -> real) returns (r: HitRecord)
    requires IsSqrt(sqrt)
    ensures var s := SingleSided(par, ray, sqrt);
      r.hit == s.hit && r.t == s.t && r.point == s.point && r.material == s.material && r.uv == s.uv
    ensures var s := SingleSided(par, ray, sqrt);
      s.hit ==> r.normal == Some(if Dot(ray.direction, s.normal.value) > 0.0 then Neg(s.normal.value) else s.normal.value)
    ensures r.hit ==> r.normal.Some? && Dot(ray.direction, r.normal.value) <= 0.0
    ensures !r.hit ==> r == Miss
  {
    r := Hit(par, ray, sqrt);
    if r.normal.Some? {
      if Dot(ray.direction, r.normal.value) > 0.0 {
        r := r.(normal := Some(Neg(r.normal.value)));
      }
    }
  }

  /**
   * The scan ends with the smallest admitted root of `ts`, or with infinity
   * when no root is admitted.
   */
  lemma {:induction false} BestIsSmallest(par: Paraboloid, ray: Ray, ts: seq<real>)
    ensures Best(par, ray, ts).Infinity? <==> forall i :: 0 <= i < |ts| ==> !Admits(par, ray, ts[i])
    ensures Best(par, ray, ts).Finite? ==>
      (exists i :: 0 <= i < |ts| && ts[i] == Best(par, ray, ts).value && Admits(par, ray, ts[i]))
      && forall i :: 0 <= i < |ts| && Admits(par, ray, ts[i]) ==> Best(par, ray, ts).value <= ts[i]
    decreases |ts|
  {
    if ts != [] {
      var init := ts[..|ts| - 1];
      BestIsSmallest(par, ray, init);
      assert forall i :: 0 <= i < |init| ==> init[i] == ts[i];
      var b := Best(par, ray, ts);
      if b.Finite? {
        if b == Best(par, ray, init) {
          var i :| 0 <= i < |init| && init[i] == b.value && Admits(par, ray, init[i]);
          assert ts[i] == b.value;
        } else {
          assert ts[|ts| - 1] == b.value;
        }
      }
    }
  }

  /** A point of the ray lies on the surface exactly when its parameter solves the quadratic. */
  lemma OnSurfaceIsRoot(ray: Ray, t: real)
    ensures OnSurface(PointAt(ray, t)) <==> Eval(CoeffA(ray), CoeffB(ray), CoeffC(ray), t) == 0.0
  {
    var o, d := ray.origin, ray.direction;
    var p := PointAt(ray, t);
    Coefficients(ray);
    SurfaceEquation(p);
    Expand(o.x, o.y, o.z, d.x, d.y, d.z, t, p.x, p.y, p.z, CoeffA(ray), CoeffB(ray), CoeffC(ray));
  }

  /** The coefficients with the unit curvature multiplied out. */
  lemma Coefficients(ray: Ray)
    ensures var o, d := ray.origin, ray.direction;
      CoeffA(ray) == d.x * d.x + d.z * d.z
      && CoeffB(ray) == 2.0 * o.x * d.x + 2.0 * o.z * d.z - d.y
      && CoeffC(ray) == o.x * o.x + o.z * o.z - o.y
  {}

  lemma SurfaceEquation(p: Vec3)
    ensures OnSurface(p) <==> p.x * p.x + p.z * p.z - p.y == 0.0
  {}

  /** The surface equation along the ray, multiplied out. */
  lemma Expand(ox: real, oy: real, oz: real, dx: real, dy: real, dz: real, t: real,
                px: real, py: real, pz: real, a: real, b: real, c: real)
    requires px == ox + t * dx && py == oy + t * dy && pz == oz + t * dz
    requires a == dx * dx + dz * dz && b == 2.0 * ox * dx + 2.0 * oz * dz - dy && c == ox * ox + oz * oz - oy
    ensures px * px + pz * pz - py == Eval(a, b, c, t)
  {
  }

  /**
   * The test is exact away from the degenerate case: a hit lies on the
   * surface, and any admitted point of the ray on the surface is at or beyond
   * the reported `t`. A degenerate leading coefficient always misses.
   */
  lemma {:induction false} HitIsNearestSurfacePoint(par: Paraboloid, ray: Ray, sqrt: real -> real, s: real)
    requires IsSqrt(sqrt)
    ensures var r := SingleSided(par, ray, sqrt);
      r.hit ==> OnSurface(r.point.value)
    ensures var r := SingleSided(par, ray, sqrt);
      Abs(CoeffA(ray)) >= DegenerateTolerance && Admits(par, ray, s) && OnSurface(PointAt(ray, s))
      ==> r.hit && r.t.value <= s
    ensures Abs(CoeffA(ray)) < DegenerateTolerance ==> SingleSided(par, ray, sqrt) == Miss
  {
    var r := SingleSided(par, ray, sqrt);
    var a, b, c := CoeffA(ray), CoeffB(ray), CoeffC(ray);
    var delta := Discriminant(a, b, c);
    OnSurfaceIsRoot(ray, s);
    if Abs(a) >= DegenerateTolerance {
      if delta >= 0.0 {
        var sd := sqrt(delta);
        var ts := [LowRoot(a, b, sd), HighRoot(a, b, sd)];
        assert RootPair(ray, sqrt) == Some(ts);
        BestIsSmallest(par, ray, ts);
        Roots(a, b, c, sd, s);
        if r.hit {
          var i :| 0 <= i < 2 && ts[i] == r.t.value && Admits(par, ray, ts[i]);
          Roots(a, b, c, sd, ts[i]);
          OnSurfaceIsRoot(ray, ts[i]);
        }
        if Admits(par, ray, s) && OnSurface(PointAt(ray, s)) {
          assert s == ts[0] || s == ts[1];
        }
      } else if OnSurface(PointAt(ray, s)) {
        NoRealRoot(a, b, c, s);
      }
    }
  }
}
