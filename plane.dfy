/**
 * `Plane.hit` and `PlaneUV.hit`: a ray against an infinite plane, and the
 * plane that also reports surface coordinates in a local basis.
 */
module PlaneShape {
  import opened Wrappers
  import opened Vectors
  import opened Hits

  /** Rays with `|normal . direction|` at or below this count as parallel. */
  const ParallelTolerance: real := 0.000001

  /** A plane through `point`; `normal` is stored normalized. */
  datatype Plane = Plane(point: Vec3, normal: Vec3)

  /** A plane with the local basis `forward` and `right = normal x forward`, all normalized. */
  datatype PlaneUV = PlaneUV(point: Vec3, normal: Vec3, forward: Vec3, right: Vec3)

  /** `Plane.__init__`: the normal is normalized once, at construction. */
  function MakePlane(point: Vec3, normal: Vec3, sqrt: real -> real): Plane
    requires IsSqrt(sqrt)
  {
    Plane(point, Normalize(normal, sqrt))
  }

  /** `PlaneUV.__init__`: normal and forward are normalized, right is their normalized cross product. */
  function MakePlaneUV(point: Vec3, normal: Vec3, forward: Vec3, sqrt: real -> real): PlaneUV
    requires IsSqrt(sqrt)
  {
    var n := Normalize(normal, sqrt);
    var f := Normalize(forward, sqrt);
    PlaneUV(point, n, f, Normalize(Cross(n, f), sqrt))
  }

  ghost predicate OnPlane(anchor: Vec3, normal: Vec3, p: Vec3) {
    Dot(Sub(p, anchor), normal) == 0.0
  }

  /** The ray parameter at which the ray meets the plane, for a non-parallel ray. */
  function Crossing(anchor: Vec3, normal: Vec3, ray: Ray): real
    requires Dot(normal, ray.direction) != 0.0
  {
    Dot(Sub(anchor, ray.origin), normal) / Dot(normal, ray.direction)
  }

  /**
   * `Plane.hit`. A ray within the parallel tolerance, or one meeting the
   * plane below the epsilon floor, misses; a hit carries the stored normal
   * and a point of the plane.
   */
  function Hit(pl: Plane, ray: Ray): (r: HitRecord)
    ensures Abs(Dot(pl.normal, ray.direction)) <= ParallelTolerance ==> r == Miss
    ensures r.hit ==>
      r.t.Finite? && r.t.value >= CastEpsilon && r.normal == Some(pl.normal)
      && r.point == Some(PointAt(ray, r.t.value)) && OnPlane(pl.point, pl.normal, r.point.value)
    ensures !r.hit ==> r == Miss
  {
    var denom := Dot(pl.normal, ray.direction);
    if Abs(denom) > ParallelTolerance then
      var t := Crossing(pl.point, pl.normal, ray);
      if t >= CastEpsilon then
        CrossingOnPlane(pl.point, pl.normal, ray);
        HitAt(t, PointAt(ray, t), pl.normal)
      else Miss
    else Miss
  }

  /**
   * `PlaneUV.hit`. As `Plane.hit`, and the hit also carries the surface
   * coordinates `(u, v, 0)`: the offset from the anchor projected onto the
   * right and forward directions.
   */
  function HitUV(pl: PlaneUV, ray: Ray): (r: HitRecord)
    ensures Abs(Dot(pl.normal, ray.direction)) <= ParallelTolerance ==> r == Miss
    ensures r.hit ==>
      r.t.Finite? && r.t.value >= CastEpsilon && r.normal == Some(pl.normal)
      && r.point == Some(PointAt(ray, r.t.value)) && OnPlane(pl.point, pl.normal, r.point.value)
    ensures r.hit ==> r.uv.Some? && r.uv.value.z == 0.0
    ensures r.hit ==>
      r.uv.value.x == Dot(Sub(r.point.value, pl.point), pl.right)
      && r.uv.value.y == Dot(Sub(r.point.value, pl.point), pl.forward)
    ensures !r.hit ==> r == Miss
  {
    var denom := Dot(pl.normal, ray.direction);
    if Abs(denom) > ParallelTolerance then
      var t := Crossing(pl.point, pl.normal, ray);
      if t >= CastEpsilon then
        CrossingOnPlane(pl.point, pl.normal, ray);
        var p := PointAt(ray, t);
        var offset := Sub(p, pl.point);
        var uv := Vec3(Dot(offset, pl.right), Dot(offset, pl.forward), 0.0);
        HitRecord(true, Finite(t), Some(p), Some(pl.normal), None, Some(uv))
      else Miss
    else Miss
  }

  /** The point at the crossing parameter lies on the plane. */
  lemma CrossingOnPlane(anchor: Vec3, normal: Vec3, ray: Ray)
    requires Dot(normal, ray.direction) != 0.0
    ensures OnPlane(anchor, normal, PointAt(ray, Crossing(anchor, normal, ray)))
  {
    var t := Crossing(anchor, normal, ray);
    var denom := Dot(normal, ray.direction);
    assert t * denom == Dot(Sub(anchor, ray.origin), normal);
    PlaneOffset(anchor, normal, ray, t);
  }

  /** How far the point at `t` is from the plane, measured along the normal. */
  lemma PlaneOffset(anchor: Vec3, normal: Vec3, ray: Ray, t: real)
    ensures Dot(Sub(PointAt(ray, t), anchor), normal)
         == t * Dot(normal, ray.direction) - Dot(Sub(anchor, ray.origin), normal)
  {}

  /**
   * For a ray that is not parallel, the crossing parameter is the only
   * parameter at which the ray meets the plane: so `Plane.hit` reports a hit
   * exactly when the ray meets the plane at or beyond the epsilon floor.
   */
  lemma {:induction false} HitIsExact(pl: Plane, ray: Ray, s: real)
    requires Abs(Dot(pl.normal, ray.direction)) > ParallelTolerance
    ensures OnPlane(pl.point, pl.normal, PointAt(ray, s)) <==> s == Crossing(pl.point, pl.normal, ray)
    ensures s >= CastEpsilon && OnPlane(pl.point, pl.normal, PointAt(ray, s)) ==> Hit(pl, ray).t == Finite(s)
  {
    var denom := Dot(pl.normal, ray.direction);
    PlaneOffset(pl.point, pl.normal, ray, s);
    CrossingOnPlane(pl.point, pl.normal, ray);
    if OnPlane(pl.point, pl.normal, PointAt(ray, s)) {
      assert s * denom == Dot(Sub(pl.point, ray.origin), pl.normal);
      assert s == Dot(Sub(pl.point, ray.origin), pl.normal) / denom;
    }
  }

  /** A hit exactly at the anchor has surface coordinates `(0, 0)`. */
  lemma {:induction false} AnchorHasZeroUV(pl: PlaneUV, ray: Ray)
    requires HitUV(pl, ray).hit && HitUV(pl, ray).point == Some(pl.point)
    ensures HitUV(pl, ray).uv == Some(Zero)
  {
    var r := HitUV(pl, ray);
    assert Sub(r.point.value, pl.point) == Zero;
  }

  /** `PlaneUV` reports the same hit, point and normal as `Plane` with its anchor and normal. */
  lemma {:induction false} UVAgreesWithPlane(pl: PlaneUV, ray: Ray)
    ensures var r, q := HitUV(pl, ray), Hit(Plane(pl.point, pl.normal), ray);
      r.hit == q.hit && r.t == q.t && r.point == q.point && r.normal == q.normal
  {}
}
