/**
 * `ImplicitSurface`: a surface `f(p) = 0` inside an axis-aligned bounding
 * box, found by marching the ray through the box in equal steps until `f`
 * changes sign and then refining the step by ten bisections. `HeartSurface`
 * and `MitchelSurface` supply the field `f`.
 */
module ImplicitSurfaces {
  import opened Wrappers
  import opened Vectors
  import opened Hits
  import opened RealArith

  /** Stands in for the reciprocal of a zero direction component. */
  const Huge: real := 1000000000000000000000000000000.0

  /** The number of bisection steps. */
  const BisectionSteps: nat := 10

  /** The offset of the central differences in `get_normal`. */
  const GradientStep: real := 0.0001

  datatype Implicit = Implicit(material: Material, boxMin: Vec3, boxMax: Vec3, numSteps: nat)

  /** `NoHit`: a miss that still carries the surface coordinates `(0, 0)`. */
  const NoHit := HitRecord(false, Infinity, None, None, None, Some(Zero))

  function InvDir(d: real): real {
    if d != 0.0 then 1.0 / d else Huge
  }

  /** The entry and exit parameters of one slab: `(mn - o) / d` and `(mx - o) / d`, in that order. */
  function SlabNear(o: real, d: real, mn: real, mx: real): real { Min((mn - o) * InvDir(d), (mx - o) * InvDir(d)) }

  function SlabFar(o: real, d: real, mn: real, mx: real): real { Max((mn - o) * InvDir(d), (mx - o) * InvDir(d)) }

  /**
   * `intersect_box`: the slab method without early exits. The interval is the
   * latest entry and the earliest exit over the three axes; it is rejected
   * when it lies wholly behind the origin or is empty.
   */
  function IntersectBox(boxMin: Vec3, boxMax: Vec3, ray: Ray): (r: Option<(real, real)>)
    ensures r.Some? ==> r.value.0 <= r.value.1 && 0.0 <= r.value.1
  {
    var tmin, tmax := BoxEntry(boxMin, boxMax, ray), BoxExit(boxMin, boxMax, ray);
    if tmax < 0.0 || tmin > tmax then None else Some((tmin, tmax))
  }

  /** The latest of the three slab entries. */
  function BoxEntry(boxMin: Vec3, boxMax: Vec3, ray: Ray): real {
    var o, d := ray.origin, ray.direction;
    Max(Max(SlabNear(o.x, d.x, boxMin.x, boxMax.x), SlabNear(o.y, d.y, boxMin.y, boxMax.y)),
        SlabNear(o.z, d.z, boxMin.z, boxMax.z))
  }

  /** The earliest of the three slab exits. */
  function BoxExit(boxMin: Vec3, boxMax: Vec3, ray: Ray): real {
    var o, d := ray.origin, ray.direction;
    Min(Min(SlabFar(o.x, d.x, boxMin.x, boxMax.x), SlabFar(o.y, d.y, boxMin.y, boxMax.y)),
        SlabFar(o.z, d.z, boxMin.z, boxMax.z))
  }

  ghost predicate InBox(boxMin: Vec3, boxMax: Vec3, p: Vec3) {
    boxMin.x <= p.x <= boxMax.x && boxMin.y <= p.y <= boxMax.y && boxMin.z <= p.z <= boxMax.z
  }

  /** For a non-zero direction component, the slab's interval is exactly where the ray is inside the slab. */
  lemma SlabInterval(o: real, d: real, mn: real, mx: real, t: real)
    requires d != 0.0 && mn <= mx
    ensures SlabNear(o, d, mn, mx) <= t <= SlabFar(o, d, mn, mx) <==> mn <= o + t * d <= mx
  {
    assert (mn - o) * InvDir(d) == (mn - o) / d;
    assert (mx - o) * InvDir(d) == (mx - o) / d;
    DivBounds(mn - o, d, t);
    DivBounds(mx - o, d, t);
  }

  /**
   * When no direction component is zero, `intersect_box` is exact: every
   * parameter of the returned interval puts the ray inside the box, and a
   * non-negative parameter inside the box lies in the returned interval.
   */
  lemma {:induction false} IntersectBoxExact(boxMin: Vec3, boxMax: Vec3, ray: Ray, t: real)
    requires boxMin.x <= boxMax.x && boxMin.y <= boxMax.y && boxMin.z <= boxMax.z
    requires ray.direction.x != 0.0 && ray.direction.y != 0.0 && ray.direction.z != 0.0
    ensures var r := IntersectBox(boxMin, boxMax, ray);
      r.Some? && r.value.0 <= t <= r.value.1 ==> InBox(boxMin, boxMax, PointAt(ray, t))
    ensures 0.0 <= t && InBox(boxMin, boxMax, PointAt(ray, t)) ==>
      var r := IntersectBox(boxMin, boxMax, ray);
      r.Some? && r.value.0 <= t <= r.value.1
  {
    BoxInterval(boxMin, boxMax, ray, t);
  }

  /** The parameters between the latest entry and the earliest exit are those at which the ray is in the box. */
  lemma BoxInterval(boxMin: Vec3, boxMax: Vec3, ray: Ray, t: real)
    requires boxMin.x <= boxMax.x && boxMin.y <= boxMax.y && boxMin.z <= boxMax.z
    requires ray.direction.x != 0.0 && ray.direction.y != 0.0 && ray.direction.z != 0.0
    ensures BoxEntry(boxMin, boxMax, ray) <= t <= BoxExit(boxMin, boxMax, ray) <==> InBox(boxMin, boxMax, PointAt(ray, t))
  {
    AxisSlab(boxMin, boxMax, ray, t, 0);
    AxisSlab(boxMin, boxMax, ray, t, 1);
    AxisSlab(boxMin, boxMax, ray, t, 2);
  }

  /** Axis `i` of the box: its slab interval is where the ray's component `i` lies between the bounds. */
  lemma AxisSlab(boxMin: Vec3, boxMax: Vec3, ray: Ray, t: real, i: nat)
    requires i < 3 && Comp(boxMin, i) <= Comp(boxMax, i) && Comp(ray.direction, i) != 0.0
    ensures var o, d, mn, mx := Comp(ray.origin, i), Comp(ray.direction, i), Comp(boxMin, i), Comp(boxMax, i);
      SlabNear(o, d, mn, mx) <= t <= SlabFar(o, d, mn, mx) <==> mn <= Comp(PointAt(ray, t), i) <= mx
  {
    var o, d := Comp(ray.origin, i), Comp(ray.direction, i);
    assert Comp(PointAt(ray, t), i) == o + t * d;
    SlabInterval(o, d, Comp(boxMin, i), Comp(boxMax, i), t);
  }

  lemma EntryExit(nx: real, fx: real, ny: real, fy: real, nz: real, fz: real, t: real)
    ensures Max(Max(nx, ny), nz) <= t <= Min(Min(fx, fy), fz) <==> nx <= t <= fx && ny <= t <= fy && nz <= t <= fz
  {}

  /** `w` halved `k` times. */
  function Halved(w: real, k: nat): real {
    if k == 0 then w else Halved(w, k - 1) * 0.5
  }

  /** Halving `k` times divides by `2^k`. */
  lemma {:induction false} HalvedIsDivision(w: real, k: nat)
    ensures Halved(w, k) * Pow2(k) == w
  {
    if k > 0 {
      HalvedIsDivision(w, k - 1);
      assert Halved(w, k) * Pow2(k) == (Halved(w, k - 1) * 0.5) * (2.0 * Pow2(k - 1));
    }
  }

  /** `2^k` as a real. */
  function Pow2(k: nat): (p: real)
    ensures p >= 1.0
  {
    if k == 0 then 1.0 else 2.0 * Pow2(k - 1)
  }

  /** The `j`-th sample of the march: `t_start` advanced by `j` steps. */
  function Sample(tStart: real, stepSize: real, j: nat): real {
    tStart + j as real * stepSize
  }

  /** The field changes sign (or vanishes) between the parameters `t0` and `t1`. */
  ghost predicate Brackets(f: Vec3 -> real, ray: Ray, t0: real, t1: real) {
    f(PointAt(ray, t0)) * f(PointAt(ray, t1)) <= 0.0
  }

  /**
   * The march found its first sign change between samples `n` and `n + 1`,
   * and `t` is the lower end of a bracket of width `step / 2^10` inside
   * that step.
   */
  ghost predicate FirstCrossing(f: Vec3 -> real, ray: Ray, start: real, step: real, end: real, n: nat, t: real) {
    Sample(start, step, n) <= t && t + Halved(step, BisectionSteps) <= Sample(start, step, n + 1) <= end
    && Brackets(f, ray, Sample(start, step, n), Sample(start, step, n + 1))
    && Brackets(f, ray, t, t + Halved(step, BisectionSteps))
    && NoCrossing(f, ray, start, step, end, n)
  }

  /** No pair of consecutive samples among the first `count` steps within `end` brackets a sign change. */
  ghost predicate NoCrossing(f: Vec3 -> real, ray: Ray, start: real, step: real, end: real, count: nat) {
    forall j: nat :: j < count && Sample(start, step, j + 1) <= end
      ==> !Brackets(f, ray, Sample(start, step, j), Sample(start, step, j + 1))
  }

  /** If `a` and `m` have the same strict sign and `a` and `h` do not, then neither do `m` and `h`. */
  lemma SignTransfer(a: real, m: real, h: real)
    requires a * h <= 0.0 && a * m > 0.0
    ensures m * h <= 0.0
  {
    if a > 0.0 {
      assert m > 0.0 && h <= 0.0;
    } else {
      assert a < 0.0 && m < 0.0 && h >= 0.0;
    }
  }

  /**
   * The refinement loop of `hit`: ten halvings of `[t_low, t_high]`, keeping
   * the half in which the field changes sign. `val_curr` tracks the field at
   * `t_low`.
   */
  method Bisect(f: Vec3 -> real, ray: Ray, tCurr: real, tNext: real, valCurr0: real) returns (tLow: real, tHigh: real)
    requires tCurr <= tNext
    requires valCurr0 == f(PointAt(ray, tCurr)) && Brackets(f, ray, tCurr, tNext)
    ensures tCurr <= tLow <= tHigh <= tNext
    ensures tHigh - tLow == Halved(tNext - tCurr, BisectionSteps)
    ensures Brackets(f, ray, tLow, tHigh)
  {
    tLow, tHigh := tCurr, tNext;
    var valCurr := valCurr0;
    for k := 0 to BisectionSteps
      invariant tCurr <= tLow <= tHigh <= tNext
      invariant valCurr == f(PointAt(ray, tLow))
      invariant Brackets(f, ray, tLow, tHigh)
      invariant tHigh - tLow == Halved(tNext - tCurr, k)
    {
      var tMid := (tLow + tHigh) * 0.5;
      var valMid := f(PointAt(ray, tMid));
      if valCurr * valMid <= 0.0 {
        tHigh := tMid;
      } else {
        SignTransfer(valCurr, valMid, f(PointAt(ray, tHigh)));
        tLow := tMid;
        valCurr := valMid;
      }
    }
  }

  /** `get_normal`: the central-difference gradient of the field, normalized. */
  function GradientNormal(f: Vec3 -> real, p: Vec3, sqrt: real -> real): Vec3
    requires IsSqrt(sqrt)
  {
    var e := GradientStep;
    Normalize(Vec3(
      f(Vec3(p.x + e, p.y, p.z)) - f(Vec3(p.x - e, p.y, p.z)),
      f(Vec3(p.x, p.y + e, p.z)) - f(Vec3(p.x, p.y - e, p.z)),
      f(Vec3(p.x, p.y, p.z + e)) - f(Vec3(p.x, p.y, p.z - e))), sqrt)
  }

  /** The march bounds `hit` uses: the box interval with its start clamped to 0. */
  function MarchStart(s: Implicit, ray: Ray): real
    requires IntersectBox(s.boxMin, s.boxMax, ray).Some?
  {
    Max(IntersectBox(s.boxMin, s.boxMax, ray).value.0, 0.0)
  }

  function MarchEnd(s: Implicit, ray: Ray): real
    requires IntersectBox(s.boxMin, s.boxMax, ray).Some?
  {
    IntersectBox(s.boxMin, s.boxMax, ray).value.1
  }

  function StepSize(s: Implicit, ray: Ray): real
    requires s.numSteps > 0 && IntersectBox(s.boxMin, s.boxMax, ray).Some?
  {
    (MarchEnd(s, ray) - MarchStart(s, ray)) / s.numSteps as real
  }

  /**
   * The marching loop of `hit` from `start` to `end` in `count` steps of
   * `step`: it stops at the first pair of samples across which the field
   * changes sign and bisects it, or runs out of steps, or steps past `end`.
   */
  method March(f: Vec3 -> real, ray: Ray, start: real, end: real, step: real, count: nat)
    returns (found: bool, n: nat, t: real)
    requires start <= end && 0.0 <= step
    ensures found ==> n < count && FirstCrossing(f, ray, start, step, end, n, t)
    ensures !found ==> NoCrossing(f, ray, start, step, end, count)
  {
    var tCurr := start;
    var valCurr := f(PointAt(ray, tCurr));
    for i := 0 to count
      invariant tCurr == Sample(start, step, i) && tCurr <= end
      invariant valCurr == f(PointAt(ray, tCurr))
      invariant NoCrossing(f, ray, start, step, end, i)
    {
      var tNext := tCurr + step;
      assert tNext == Sample(start, step, i + 1);
      if tNext > end {
        PastEnd(f, ray, start, step, end, i, count);
        return false, 0, 0.0;
      }
      var valNext := f(PointAt(ray, tNext));
      if valCurr * valNext <= 0.0 {
        var tLow, tHigh := Bisect(f, ray, tCurr, tNext, valCurr);
        return true, i, tLow;
      }
      NoCrossingStep(f, ray, start, step, end, i);
      tCurr, valCurr := tNext, valNext;
    }
    return false, 0, 0.0;
  }

  /** With a non-negative step the samples never decrease. */
  lemma SampleMonotone(start: real, step: real, a: nat, b: nat)
    requires a <= b && 0.0 <= step
    ensures Sample(start, step, a) <= Sample(start, step, b)
  {
    assert Sample(start, step, b) - Sample(start, step, a) == (b - a) as real * step;
  }

  /** A step without a sign change extends the crossing-free prefix by one. */
  lemma NoCrossingStep(f: Vec3 -> real, ray: Ray, start: real, step: real, end: real, i: nat)
    requires NoCrossing(f, ray, start, step, end, i)
    requires !Brackets(f, ray, Sample(start, step, i), Sample(start, step, i + 1))
    ensures NoCrossing(f, ray, start, step, end, i + 1)
  {}

  /** Once a sample lies past `end`, no later pair of samples counts, so the prefix is crossing-free for any count. */
  lemma PastEnd(f: Vec3 -> real, ray: Ray, start: real, step: real, end: real, i: nat, count: nat)
    requires 0.0 <= step && Sample(start, step, i + 1) > end
    requires NoCrossing(f, ray, start, step, end, i)
    ensures NoCrossing(f, ray, start, step, end, count)
  {
    forall j: nat | j < count && Sample(start, step, j + 1) <= end
      ensures !Brackets(f, ray, Sample(start, step, j), Sample(start, step, j + 1))
    {
      if i <= j {
        SampleMonotone(start, step, i + 1, j + 1);
      }
    }
  }

  /**
   * `ImplicitSurface.hit`. A ray that misses the box gets `NoHit`. Otherwise
   * the march visits the samples `t_start + j * step` in order; the first pair
   * of consecutive samples across which the field changes sign is refined by
   * bisection and reported as a hit at the lower end. No such pair is a miss.
   */
  method Hit(s: Implicit, f: Vec3 -> real, ray: Ray, sqrt: real -> real) returns (r: HitRecord)
    requires s.numSteps > 0 && IsSqrt(sqrt)
    ensures IntersectBox(s.boxMin, s.boxMax, ray).None? ==> r == NoHit
    ensures !r.hit ==> r == NoHit
    ensures r.hit ==>
      IntersectBox(s.boxMin, s.boxMax, ray).Some?
      && r.t.Finite? && MarchStart(s, ray) <= r.t.value <= MarchEnd(s, ray)
      && r.point == Some(PointAt(ray, r.t.value)) && r.normal == Some(GradientNormal(f, r.point.value, sqrt))
      && r.material == Some(s.material) && r.uv == Some(Zero)
    ensures r.hit ==>
      exists n: nat :: n < s.numSteps
        && FirstCrossing(f, ray, MarchStart(s, ray), StepSize(s, ray), MarchEnd(s, ray), n, r.t.value)
    ensures !r.hit && IntersectBox(s.boxMin, s.boxMax, ray).Some? ==>
      NoCrossing(f, ray, MarchStart(s, ray), StepSize(s, ray), MarchEnd(s, ray), s.numSteps)
  {
    var box := IntersectBox(s.boxMin, s.boxMax, ray);
    if box.None? {
      return NoHit;
    }
    var tStart, tEnd := box.value.0, box.value.1;
    if tStart < 0.0 {
      tStart := 0.0;
    }
    var stepSize := (tEnd - tStart) / s.numSteps as real;
    assert tStart == MarchStart(s, ray) && tEnd == MarchEnd(s, ray) && stepSize == StepSize(s, ray);
    var found, n, t := March(f, ray, tStart, tEnd, stepSize, s.numSteps);
    if !found {
      return NoHit;
    }
    CrossingWithin(f, ray, tStart, stepSize, tEnd, n, t);
    var p := PointAt(ray, t);
    return HitRecord(true, Finite(t), Some(p), Some(GradientNormal(f, p, sqrt)), Some(s.material), Some(Zero));
  }

  /** The parameter of a crossing the march finds lies between `start` and `end`. */
  lemma CrossingWithin(f: Vec3 -> real, ray: Ray, start: real, step: real, end: real, n: nat, t: real)
    requires 0.0 <= step && FirstCrossing(f, ray, start, step, end, n, t)
    ensures start <= t <= end
  {
    SampleMonotone(start, step, 0, n);
    HalvedIsDivision(step, BisectionSteps);
  }

  /** A field that keeps one strict sign along the ray is never hit. */
  lemma NoSignChangeNoHit(f: Vec3 -> real, ray: Ray, t0: real, t1: real)
    requires (forall t :: f(PointAt(ray, t)) > 0.0) || (forall t :: f(PointAt(ray, t)) < 0.0)
    ensures !Brackets(f, ray, t0, t1)
  {
    var a, b := f(PointAt(ray, t0)), f(PointAt(ray, t1));
    if a > 0.0 {
      assert b > 0.0;
    } else {
      assert a < 0.0 && b < 0.0;
      assert a * b == (-a) * (-b);
    }
  }

  /** `HeartSurface.function`: Taubin's heart, `(x^2 + 9/4 z^2 + y^2 - 1)^3 - x^2 y^3 - 9/80 z^2 y^3`. */
  function Heart(p: Vec3): real {
    var base := p.x * p.x + 2.25 * p.z * p.z + p.y * p.y - 1.0;
    base * base * base - p.x * p.x * p.y * p.y * p.y - 0.1125 * p.z * p.z * p.y * p.y * p.y
  }

  /** `MitchelSurface.function`: the Mitchell surface moved 2.5 units towards negative x. */
  function Mitchel(p: Vec3): real {
    var x := p.x + 2.5;
    var r2 := p.y * p.y + p.z * p.z;
    4.0 * (x * x * x * x + r2 * r2) + 17.0 * (x * x) * r2 - 20.0 * (x * x + r2) + 17.0
  }

  /** `HeartSurface.__init__`: the cube of half-width 1.5 around the origin, 60 steps. */
  function HeartSurface(material: Material): Implicit {
    Implicit(material, Vec3(-1.5, -1.5, -1.5), Vec3(1.5, 1.5, 1.5), 60)
  }

  /** `MitchelSurface.__init__`: the box from (-4.5, -2, -2) to (-0.5, 2, 2), 200 steps. */
  function MitchelSurface(material: Material): Implicit {
    Implicit(material, Vec3(-4.5, -2.0, -2.0), Vec3(-0.5, 2.0, 2.0), 200)
  }

  /** The heart is mirror-symmetric in x and in z; its center is inside (negative) and it is zero on the ellipse `x^2 + 9/4 z^2 = 1` of the plane y = 0. */
  lemma HeartShape(x: real, y: real, z: real)
    ensures Heart(Vec3(-x, y, z)) == Heart(Vec3(x, y, z))
    ensures Heart(Vec3(x, y, -z)) == Heart(Vec3(x, y, z))
    ensures Heart(Zero) == -1.0
    ensures x * x + 2.25 * z * z == 1.0 ==> Heart(Vec3(x, 0.0, z)) == 0.0
  {
    assert (-x) * (-x) == x * x;
    assert (-z) * (-z) == z * z;
  }

  /**
   * The Mitchell field depends on y and z only through `y^2 + z^2`: it is
   * symmetric under rotation about the line y = z = 0, and its center
   * (-2.5, 0, 0) is outside (positive).
   */
  lemma MitchelShape(x: real, y1: real, z1: real, y2: real, z2: real)
    requires y1 * y1 + z1 * z1 == y2 * y2 + z2 * z2
    ensures Mitchel(Vec3(x, y1, z1)) == Mitchel(Vec3(x, y2, z2))
    ensures Mitchel(Vec3(-2.5, 0.0, 0.0)) == 17.0
  {}
}
