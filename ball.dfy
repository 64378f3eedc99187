/** `Ball.hit`: ray against sphere by the quadratic formula. */
module BallShape {
  import opened Wrappers
  import opened Vectors
  import opened Hits
  import opened Quadratic
  import opened RealArith

  datatype Ball = Ball(center: Vec3, radius: real)

  /** The quadratic in `t` whose roots are where the ray meets the sphere. */
  function CoeffA(ray: Ray): real { Dot(ray.direction, ray.direction) }

  function CoeffB(b: Ball, ray: Ray): real { 2.0 * Dot(Sub(ray.origin, b.center), ray.direction) }

  function CoeffC(b: Ball, ray: Ray): real {
    Dot(Sub(ray.origin, b.center), Sub(ray.origin, b.center)) - b.radius * b.radius
  }

  ghost predicate OnSphere(b: Ball, p: Vec3) {
    Dot(Sub(p, b.center), Sub(p, b.center)) == b.radius * b.radius
  }

  /** The hit record for the surface point at parameter `t`. */
  function SurfaceHit(b: Ball, ray: Ray, t: real, sqrt: real -> real): HitRecord
    requires IsSqrt(sqrt)
  {
    var p := PointAt(ray, t);
    HitAt(t, p, Normalize(Sub(p, b.center), sqrt))
  }

  /**
   * `Ball.hit`. A negative discriminant is a miss at t = +infinity; otherwise
   * the near root is taken when it passes the epsilon floor, else the far
   * root, and when neither passes the record is a miss carrying the far root.
   */
  function Hit(b: Ball, ray: Ray, sqrt: real -> real): (r: HitRecord)
    requires IsSqrt(sqrt)
    requires ray.direction != Zero
    ensures Discriminant(CoeffA(ray), CoeffB(b, ray), CoeffC(b, ray)) < 0.0 ==> r == Miss
    ensures r.hit ==> r.t.Finite? && r.t.value > CastEpsilon && r.material == None && r.uv == None
    ensures r.hit ==>
      r.point == Some(PointAt(ray, r.t.value)) && r.normal == Some(Normalize(Sub(r.point.value, b.center), sqrt))
  {
    var a, bb, c := CoeffA(ray), CoeffB(b, ray), CoeffC(b, ray);
    var disc := Discriminant(a, bb, c);
    NonZeroDirection(ray);
    if disc < 0.0 then
      HitRecord(false, Infinity, None, None, None, None)
    else
      var t1 := LowRoot(a, bb, sqrt(disc));
      if t1 > CastEpsilon then
        SurfaceHit(b, ray, t1, sqrt)
      else
        var t2 := HighRoot(a, bb, sqrt(disc));
        if t2 > CastEpsilon then SurfaceHit(b, ray, t2, sqrt)
        else HitRecord(false, Finite(t2), None, None, None, None)
  }

  lemma NonZeroDirection(ray: Ray)
    requires ray.direction != Zero
    ensures CoeffA(ray) > 0.0
  {
    DotSelfPositive(ray.direction);
  }

  /** A point of the ray lies on the sphere exactly when its parameter solves the quadratic. */
  lemma OnSphereIsRoot(b: Ball, ray: Ray, t: real)
    ensures OnSphere(b, PointAt(ray, t)) <==> Eval(CoeffA(ray), CoeffB(b, ray), CoeffC(b, ray), t) == 0.0
  {
    var oc, d := Sub(ray.origin, b.center), ray.direction;
    assert Sub(PointAt(ray, t), b.center) == Add(oc, Scale(t, d));
    DotAlongLine(oc, d, t);
    var a, bb := CoeffA(ray), CoeffB(b, ray);
    assert a * t * t == t * t * Dot(d, d);
    assert bb * t == 2.0 * t * Dot(oc, d);
  }

  /**
   * The sphere test is exact: it reports a hit precisely when some point of
   * the ray beyond the epsilon floor lies on the sphere, and then `t` is the
   * smallest such parameter and the point lies on the sphere.
   */
  lemma {:induction false} HitIsNearestSurfacePoint(b: Ball, ray: Ray, sqrt: real -> real, s: real)
    requires IsSqrt(sqrt)
    requires ray.direction != Zero
    ensures var r := Hit(b, ray, sqrt);
      r.hit ==> OnSphere(b, r.point.value)
    ensures var r := Hit(b, ray, sqrt);
      s > CastEpsilon && OnSphere(b, PointAt(ray, s)) ==> r.hit && r.t.value <= s
  {
    var r := Hit(b, ray, sqrt);
    var a, bb, c := CoeffA(ray), CoeffB(b, ray), CoeffC(b, ray);
    var disc := Discriminant(a, bb, c);
    NonZeroDirection(ray);
    OnSphereIsRoot(b, ray, s);
    if disc >= 0.0 {
      var sd := sqrt(disc);
      Roots(a, bb, c, sd, s);
      Ordered(a, bb, sd);
      if r.hit {
        OnSphereIsRoot(b, ray, r.t.value);
      }
    } else if OnSphere(b, PointAt(ray, s)) {
      NoRealRoot(a, bb, c, s);
    }
  }

  /** A ray fired at the center from outside the sphere meets it at distance `d - radius`. */
  lemma HeadOnHit(radius: real, dist: real, sqrt: real -> real)
    requires IsSqrt(sqrt)
    requires 0.0 < radius && radius + CastEpsilon < dist
    ensures var r := Hit(Ball(Zero, radius), Ray(Vec3(0.0, 0.0, dist), Vec3(0.0, 0.0, -1.0)), sqrt);
      r.hit && r.t == Finite(dist - radius) && r.point == Some(Vec3(0.0, 0.0, radius))
  {
    var b, ray := Ball(Zero, radius), Ray(Vec3(0.0, 0.0, dist), Vec3(0.0, 0.0, -1.0));
    var a, bb, c := CoeffA(ray), CoeffB(b, ray), CoeffC(b, ray);
    assert a == 1.0 && bb == -2.0 * dist && c == dist * dist - radius * radius;
    var disc := Discriminant(a, bb, c);
    assert disc == 4.0 * radius * radius;
    var sd := sqrt(disc);
    assert sd * sd == (2.0 * radius) * (2.0 * radius);
    SquareRootUnique(sd, 2.0 * radius);
    assert LowRoot(a, bb, sd) == dist - radius;
  }
}
