/**
 * Three-component real vectors and rays, the value types the shapes work on
 * (`Vector3D` and `Ray` of the ray tracer).
 *
 * Square root is not computed: every member that needs it takes a function
 * `sqrt` together with the assumption `IsSqrt(sqrt)`, which is all the proofs
 * rely on.
 */
module Vectors {
  import opened RealArith

  datatype Vec3 = Vec3(x: real, y: real, z: real)

  /** A ray `origin + t * direction`; callers build it with a unit direction. */
  datatype Ray = Ray(origin: Vec3, direction: Vec3)

  function Add(a: Vec3, b: Vec3): Vec3 { Vec3(a.x + b.x, a.y + b.y, a.z + b.z) }

  function Sub(a: Vec3, b: Vec3): Vec3 { Vec3(a.x - b.x, a.y - b.y, a.z - b.z) }

  function Scale(k: real, a: Vec3): Vec3 { Vec3(k * a.x, k * a.y, k * a.z) }

  function Neg(a: Vec3): Vec3 { Vec3(-a.x, -a.y, -a.z) }

  function Dot(a: Vec3, b: Vec3): real { a.x * b.x + a.y * b.y + a.z * b.z }

  function Cross(a: Vec3, b: Vec3): Vec3 {
    Vec3(a.y * b.z - a.z * b.y, a.z * b.x - a.x * b.z, a.x * b.y - a.y * b.x)
  }

  const Zero := Vec3(0.0, 0.0, 0.0)

  /** Component `i` of `v`: 0 is x, 1 is y, 2 is z. */
  function Comp(v: Vec3, i: nat): real
    requires i < 3
  {
    if i == 0 then v.x else if i == 1 then v.y else v.z
  }

  function Abs(r: real): real { if r < 0.0 then -r else r }

  function Min(a: real, b: real): real { if a <= b then a else b }

  function Max(a: real, b: real): real { if a >= b then a else b }

  /** `ray.point_at_parameter(t)`. */
  function PointAt(ray: Ray, t: real): Vec3 {
    Add(ray.origin, Scale(t, ray.direction))
  }

  /** What the model assumes of the square root it is given. */
  ghost predicate IsSqrt(sqrt: real -> real) {
    forall r: real {:trigger sqrt(r)} :: 0.0 <= r ==> 0.0 <= sqrt(r) && sqrt(r) * sqrt(r) == r
  }

  /** A ray whose direction has unit length, as the camera builds them. */
  ghost predicate ValidRay(ray: Ray) {
    Dot(ray.direction, ray.direction) == 1.0
  }

  function Length(v: Vec3, sqrt: real -> real): real { sqrt(Dot(v, v)) }

  /**
   * `v.normalize()`: `v` divided by its length; a vector of length zero is
   * returned unchanged (the degenerate zero vector).
   */
  function Normalize(v: Vec3, sqrt: real -> real): (n: Vec3)
    requires IsSqrt(sqrt)
    ensures exists k: real :: 0.0 <= k && n == Scale(k, v)
    ensures Dot(v, v) > 0.0 ==> Dot(n, n) == 1.0
  {
    var l := Length(v, sqrt);
    DotNonNegative(v);
    if l == 0.0 then
      assert v == Scale(1.0, v);
      v
    else
      var n := Scale(1.0 / l, v);
      assert Dot(n, n) == (1.0 / l) * (1.0 / l) * Dot(v, v);
      assert (1.0 / l) * (1.0 / l) * (l * l) == 1.0;
      n
  }

  /** A unit vector is its own normalization. */
  lemma NormalizeUnit(v: Vec3, sqrt: real -> real)
    requires IsSqrt(sqrt) && Dot(v, v) == 1.0
    ensures Normalize(v, sqrt) == v
  {
    SquareRootUnique(sqrt(1.0), 1.0);
    assert Scale(1.0 / 1.0, v) == v;
  }

  lemma DotNonNegative(v: Vec3)
    ensures Dot(v, v) >= 0.0
  {
    SquareNonNegative(v.x); SquareNonNegative(v.y); SquareNonNegative(v.z);
  }

  lemma DotSelfPositive(v: Vec3)
    requires v != Zero
    ensures Dot(v, v) > 0.0
  {
    SquareNonNegative(v.x); SquareNonNegative(v.y); SquareNonNegative(v.z);
    if v.x != 0.0 {
      SquarePositive(v.x);
      calc { Dot(v, v); v.x * v.x + (v.y * v.y + v.z * v.z); > 0.0; }
    } else if v.y != 0.0 {
      SquarePositive(v.y);
      calc { Dot(v, v); v.x * v.x + v.y * v.y + v.z * v.z; v.y * v.y + v.z * v.z; > 0.0; }
    } else {
      SquarePositive(v.z);
      calc { Dot(v, v); v.x * v.x + v.y * v.y + v.z * v.z; v.z * v.z; > 0.0; }
    }
  }

  /** The point at parameter `t` moves along the direction linearly. */
  lemma PointAtOffset(ray: Ray, t: real, q: Vec3)
    ensures Dot(Sub(PointAt(ray, t), q), ray.direction)
         == Dot(Sub(ray.origin, q), ray.direction) + t * Dot(ray.direction, ray.direction)
  {}

  /** The dot product is linear in its first argument. */
  lemma DotLinear(u: Vec3, v: Vec3, t: real, w: Vec3)
    ensures Dot(Add(u, Scale(t, v)), w) == Dot(u, w) + t * Dot(v, w)
  {
    assert Dot(Add(u, Scale(t, v)), w) == (u.x + t * v.x) * w.x + (u.y + t * v.y) * w.y + (u.z + t * v.z) * w.z;
  }

  /** The squared length along a line `u + t * v` is a quadratic in `t`. */
  lemma DotAlongLine(u: Vec3, v: Vec3, t: real)
    ensures Dot(Add(u, Scale(t, v)), Add(u, Scale(t, v))) == Dot(u, u) + 2.0 * t * Dot(u, v) + t * t * Dot(v, v)
  {
    var q := Add(u, Scale(t, v));
    assert q == Vec3(u.x + t * v.x, u.y + t * v.y, u.z + t * v.z);
    SquareOfSum(u.x, v.x, t);
    SquareOfSum(u.y, v.y, t);
    SquareOfSum(u.z, v.z, t);
  }
}
