/**
 * `Cube.hit` and `Cube._get_normal`: an axis-aligned box by the slab method.
 *
 * The loop narrows the interval `[t_min, t_max]` one axis at a time; the
 * function `Narrowed` is the specification of that loop, and `NarrowedMeaning`
 * says which ray parameters the interval holds.
 */
module CubeShape {
  import opened Wrappers
  import opened Vectors
  import opened Hits
  import opened RealArith

  /** A direction component below this in magnitude counts as parallel to the slab. */
  const ParallelTolerance: real := 0.00000001

  /** `_get_normal` compares against the half-size divided by this bias. */
  const NormalBias: real := 1.0001

  /** A box given by its center and its min and max corners. */
  datatype Cube = Cube(center: Vec3, minBound: Vec3, maxBound: Vec3)

  /** `Cube.__init__`: the corners are the center minus and plus the half-size on each axis. */
  function MakeCube(center: Vec3, radius: real): Cube {
    Cube(center, Sub(center, Vec3(radius, radius, radius)), Add(center, Vec3(radius, radius, radius)))
  }

  ghost predicate ValidCube(c: Cube) {
    c.minBound.x <= c.maxBound.x && c.minBound.y <= c.maxBound.y && c.minBound.z <= c.maxBound.z
  }

  /** The running interval `[t_min, t_max]`, or `Empty` once the loop has returned a miss. */
  datatype Span = Empty | Span(lo: real, hi: Param)

  predicate InSpan(t: real, lo: real, hi: Param) {
    lo <= t && (hi.Infinity? || t <= hi.value)
  }

  predicate Parallel(ray: Ray, i: nat)
    requires i < 3
  {
    Abs(Comp(ray.direction, i)) < ParallelTolerance
  }

  /**
   * What one slab demands of the ray parameter `t`: a parallel ray must start
   * inside the slab, any other ray must be inside it at `t`.
   */
  predicate SlabAdmits(o: real, d: real, mn: real, mx: real, t: real) {
    if Abs(d) < ParallelTolerance then mn <= o <= mx else mn <= o + t * d <= mx
  }

  /** What axis `i` of the box demands of the ray parameter `t`. */
  predicate InSlab(c: Cube, ray: Ray, i: nat, t: real)
    requires i < 3
  {
    SlabAdmits(Comp(ray.origin, i), Comp(ray.direction, i), Comp(c.minBound, i), Comp(c.maxBound, i), t)
  }

  /** The ray is parallel to slab `i` and starts outside it. */
  predicate ParallelOutside(c: Cube, ray: Ray, i: nat)
    requires i < 3
  {
    Parallel(ray, i) && (Comp(ray.origin, i) < Comp(c.minBound, i) || Comp(ray.origin, i) > Comp(c.maxBound, i))
  }

  /** One pass of the loop body: narrow the interval by the slab of one axis. */
  function Clip(s: Span, o: real, d: real, mn: real, mx: real): Span {
    match s
    case Empty => Empty
    case Span(lo, hi) =>
      if Abs(d) < ParallelTolerance then
        if o < mn || o > mx then Empty else s
      else
        var t0, t1 := (mn - o) / d, (mx - o) / d;
        var near, far := Min(t0, t1), Max(t0, t1);
        var lo', hi' := Max(lo, near), if hi.Infinity? then far else Min(hi.value, far);
        if hi' <= lo' then Empty else Span(lo', Finite(hi'))
  }

  /**
   * One pass of the slab loop: a parallel axis keeps the interval or, when
   * the origin is outside the slab, empties it; any other axis intersects it
   * with the slab's entry and exit parameters.
   */
  method ClipAxis(tMin: real, tMax: Param, origin: real, direction: real, mn: real, mx: real) returns (s: Span)
    requires tMin >= 0.0 && (tMax.Finite? ==> tMin < tMax.value)
    ensures s == Clip(Span(tMin, tMax), origin, direction, mn, mx)
    ensures s.Span? ==> s.lo >= 0.0 && (s.hi.Finite? ==> s.lo < s.hi.value)
    ensures s.Span? && s.hi.Infinity? ==> tMax.Infinity? && Abs(direction) < ParallelTolerance
  {
    if Abs(direction) < ParallelTolerance {
      if origin < mn || origin > mx {
        return Empty;
      }
      return Span(tMin, tMax);
    }
    var t0, t1 := (mn - origin) / direction, (mx - origin) / direction;
    if t0 > t1 {
      t0, t1 := t1, t0;
    }
    var lo := Max(tMin, t0);
    var hi := if tMax.Infinity? then t1 else Min(tMax.value, t1);
    if hi <= lo {
      return Empty;
    }
    return Span(lo, Finite(hi));
  }

  /** The interval after the first `k` axes. */
  function Narrowed(c: Cube, ray: Ray, k: nat): Span
    requires k <= 3
  {
    if k == 0 then Span(0.0, Infinity)
    else
      var i := k - 1;
      Clip(Narrowed(c, ray, i), Comp(ray.origin, i), Comp(ray.direction, i), Comp(c.minBound, i), Comp(c.maxBound, i))
  }

  /**
   * `Cube.hit`. The hit, when there is one, is at the entry parameter `t_min`
   * when it passes the epsilon floor and otherwise at the exit parameter
   * `t_max`; it lies inside every slab, and its normal is `_get_normal` of
   * the hit point. A ray parallel to a slab and starting outside it misses.
   */
  method Hit(c: Cube, ray: Ray) returns (r: HitRecord)
    requires ValidRay(ray)
    ensures !r.hit ==> r == Miss
    ensures r.hit <==> (
      var s := Narrowed(c, ray, 3);
      s.Span? && (s.lo >= CastEpsilon || (s.hi.Finite? && s.hi.value >= CastEpsilon)))
    ensures r.hit ==>
      var s := Narrowed(c, ray, 3);
      s.hi.Finite? && r.t == Finite(if s.lo >= CastEpsilon then s.lo else s.hi.value)
    ensures r.hit ==>
      r.t.Finite? && r.t.value >= CastEpsilon && r.t.value >= 0.0
      && r.point == Some(PointAt(ray, r.t.value)) && r.normal == Some(GetNormal(c, r.point.value))
      && r.material == None && r.uv == None
    ensures r.hit && ValidCube(c) ==>
      InSlab(c, ray, 0, r.t.value) && InSlab(c, ray, 1, r.t.value) && InSlab(c, ray, 2, r.t.value)
    ensures (exists i :: 0 <= i < 3 && ParallelOutside(c, ray, i)) ==> !r.hit
  {
    ParallelOutsideMisses(c, ray);
    var tMin: real := 0.0;
    var tMax: Param := Infinity;
    for i := 0 to 3
      invariant Narrowed(c, ray, i) == Span(tMin, tMax)
      invariant tMin >= 0.0 && (tMax.Finite? ==> tMin < tMax.value)
      invariant tMax.Infinity? ==> forall k :: 0 <= k < i ==> Parallel(ray, k)
    {
      var origin, direction := Comp(ray.origin, i), Comp(ray.direction, i);
      var mn, mx := Comp(c.minBound, i), Comp(c.maxBound, i);
      assert Narrowed(c, ray, i + 1) == Clip(Span(tMin, tMax), origin, direction, mn, mx);
      var next := ClipAxis(tMin, tMax, origin, direction, mn, mx);
      if next.Empty? {
        EmptyStaysEmpty(c, ray, i + 1, 3);
        return Miss;
      }
      tMin, tMax := next.lo, next.hi;
    }
    if tMax.Infinity? {
      NotAllParallel(ray);
    }
    var t := tMin;
    if t < CastEpsilon {
      t := tMax.value;
      if t < CastEpsilon {
        return Miss;
      }
    }
    var point := PointAt(ray, t);
    InsideAllSlabs(c, ray, t);
    r := HitRecord(true, Finite(t), Some(point), Some(GetNormal(c, point)), None, None);
  }

  /** A unit direction has some component of magnitude at least the parallel tolerance. */
  lemma NotAllParallel(ray: Ray)
    requires ValidRay(ray)
    ensures exists k :: 0 <= k < 3 && !Parallel(ray, k)
  {
    if Parallel(ray, 0) && Parallel(ray, 1) && Parallel(ray, 2) {
      ShortVector(ray.direction);
    }
  }

  lemma ShortVector(d: Vec3)
    requires Abs(d.x) < ParallelTolerance && Abs(d.y) < ParallelTolerance && Abs(d.z) < ParallelTolerance
    ensures Dot(d, d) < 1.0
  {
    var ax, ay, az := Abs(d.x), Abs(d.y), Abs(d.z);
    SquareMonotonic(ax, ParallelTolerance);
    SquareMonotonic(ay, ParallelTolerance);
    SquareMonotonic(az, ParallelTolerance);
    assert Dot(d, d) == ax * ax + ay * ay + az * az;
  }

  /** Once the loop has returned a miss, later axes do not change that. */
  lemma {:induction false} EmptyStaysEmpty(c: Cube, ray: Ray, k: nat, m: nat)
    requires k <= m <= 3 && Narrowed(c, ray, k) == Empty
    ensures Narrowed(c, ray, m) == Empty
  {
    if m > k {
      EmptyStaysEmpty(c, ray, k, m - 1);
    }
  }

  /** A ray parallel to a slab and starting outside it meets the box nowhere. */
  lemma {:induction false} ParallelOutsideMisses(c: Cube, ray: Ray)
    ensures (exists i :: 0 <= i < 3 && ParallelOutside(c, ray, i)) ==> Narrowed(c, ray, 3) == Empty
  {
    if i :| 0 <= i < 3 && ParallelOutside(c, ray, i) {
      assert Narrowed(c, ray, i + 1) == Empty;
      EmptyStaysEmpty(c, ray, i + 1, 3);
    }
  }

  /** One axis: the clipped interval holds `t` exactly when the old one does and the slab admits `t`. */
  lemma ClipMeaning(lo: real, hi: Param, o: real, d: real, mn: real, mx: real, t: real)
    requires mn <= mx
    requires Clip(Span(lo, hi), o, d, mn, mx).Span?
    ensures var s := Clip(Span(lo, hi), o, d, mn, mx);
      InSpan(t, s.lo, s.hi) <==> InSpan(t, lo, hi) && SlabAdmits(o, d, mn, mx, t)
  {
    if Abs(d) >= ParallelTolerance {
      DivBounds(mn - o, d, t);
      DivBounds(mx - o, d, t);
    }
  }

  /**
   * The interval after `k` axes holds exactly the non-negative parameters
   * that every one of those slabs admits.
   */
  lemma {:induction false} NarrowedMeaning(c: Cube, ray: Ray, k: nat, t: real)
    requires ValidCube(c) && k <= 3
    requires Narrowed(c, ray, k).Span?
    ensures var s := Narrowed(c, ray, k);
      InSpan(t, s.lo, s.hi) <==> 0.0 <= t && forall i :: 0 <= i < k ==> InSlab(c, ray, i, t)
  {
    if k > 0 {
      var i := k - 1;
      var prev := Narrowed(c, ray, i);
      assert prev.Span?;
      NarrowedMeaning(c, ray, i, t);
      ClipMeaning(prev.lo, prev.hi, Comp(ray.origin, i), Comp(ray.direction, i), Comp(c.minBound, i), Comp(c.maxBound, i), t);
      assert (forall j :: 0 <= j < k ==> InSlab(c, ray, j, t))
         <==> (forall j :: 0 <= j < i ==> InSlab(c, ray, j, t)) && InSlab(c, ray, i, t);
    }
  }

  /** A parameter of the final interval is admitted by all three slabs. */
  lemma InsideAllSlabs(c: Cube, ray: Ray, t: real)
    requires Narrowed(c, ray, 3).Span? && InSpan(t, Narrowed(c, ray, 3).lo, Narrowed(c, ray, 3).hi)
    ensures ValidCube(c) ==> InSlab(c, ray, 0, t) && InSlab(c, ray, 1, t) && InSlab(c, ray, 2, t)
  {
    if ValidCube(c) {
      NarrowedMeaning(c, ray, 3, t);
    }
  }

  /** The entry parameter is the first at which the ray is inside every slab. */
  lemma {:induction false} EntryIsFirst(c: Cube, ray: Ray, s: real)
    requires ValidCube(c) && Narrowed(c, ray, 3).Span?
    requires 0.0 <= s < Narrowed(c, ray, 3).lo
    ensures exists i :: 0 <= i < 3 && !InSlab(c, ray, i, s)
  {
    NarrowedMeaning(c, ray, 3, s);
  }

  predicate IsAxisUnit(n: Vec3) {
    (n.x in {1.0, -1.0} && n.y == 0.0 && n.z == 0.0)
    || (n.x == 0.0 && n.y in {1.0, -1.0} && n.z == 0.0)
    || (n.x == 0.0 && n.y == 0.0 && n.z in {1.0, -1.0})
  }

  /**
   * `Cube._get_normal`: the face normal for a point of the box. The x axis is
   * tried first, then y, then z; an axis is chosen when the point's offset
   * from the center on it reaches the half-size divided by the bias, and the
   * normal points to the side of the offset (a zero offset gives -1).
   */
  function GetNormal(c: Cube, point: Vec3): (n: Vec3)
    ensures IsAxisUnit(n)
    ensures var q, bound := Sub(point, c.center), (c.maxBound.x - c.minBound.x) / 2.0 / NormalBias;
      (n.x != 0.0 ==> Abs(q.x) >= bound && (n.x == 1.0 <==> q.x > 0.0))
      && (n.y != 0.0 ==> Abs(q.x) < bound && Abs(q.y) >= bound && (n.y == 1.0 <==> q.y > 0.0))
      && (n.z != 0.0 ==> Abs(q.x) < bound && Abs(q.y) < bound && (n.z == 1.0 <==> q.z > 0.0))
  {
    var p := Sub(point, c.center);
    var radius := (c.maxBound.x - c.minBound.x) / 2.0;
    if Abs(p.x) >= radius / NormalBias then Vec3(if p.x > 0.0 then 1.0 else -1.0, 0.0, 0.0)
    else if Abs(p.y) >= radius / NormalBias then Vec3(0.0, if p.y > 0.0 then 1.0 else -1.0, 0.0)
    else Vec3(0.0, 0.0, if p.z > 0.0 then 1.0 else -1.0)
  }

  /**
   * A ray from the center of the unit box along +x: the interval is
   * `[0, 1]`, so the entry fails the epsilon floor and the hit is the exit at
   * `t = 1` on the face with normal `(1, 0, 0)`.
   */
  lemma OutboundFromCenter()
    ensures var c, ray := MakeCube(Zero, 1.0), Ray(Zero, Vec3(1.0, 0.0, 0.0));
      Narrowed(c, ray, 3) == Span(0.0, Finite(1.0))
      && GetNormal(c, PointAt(ray, 1.0)) == Vec3(1.0, 0.0, 0.0)
  {
    var c, ray := MakeCube(Zero, 1.0), Ray(Zero, Vec3(1.0, 0.0, 0.0));
    assert Narrowed(c, ray, 1) == Span(0.0, Finite(1.0));
  }
}
