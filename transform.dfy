/**
 * `ObjectTransform`: a shape placed in the world by a 4x4 matrix in
 * homogeneous coordinates. The ray is taken into object space with the
 * inverse, the inner shape is asked, and its hit is brought back with the
 * matrix (points) and the transposed inverse (normals).
 *
 * `numpy.linalg.inv` is not computed: its result is a parameter, `None` when
 * the matrix is singular.
 */
module Transforms {
  import opened Wrappers
  import opened Vectors
  import opened Hits

  datatype Vec4 = Vec4(x: real, y: real, z: real, w: real)

  /** A 4x4 matrix by rows. */
  datatype Mat4 = Mat4(r0: Vec4, r1: Vec4, r2: Vec4, r3: Vec4)

  /** A 3x3 matrix by rows. */
  datatype Mat3 = Mat3(r0: Vec3, r1: Vec3, r2: Vec3)

  /** The matrix handed to the constructor: a linear 3x3 part or a full 4x4 one. */
  datatype MatrixInput = Linear(m3: Mat3) | Homogeneous(m4: Mat4)

  datatype ObjectTransform = ObjectTransform(
    matrix: Mat4,
    inverse: Mat4,
    invTranspose: Mat3,
    material: Option<Material>)

  const Bottom := Vec4(0.0, 0.0, 0.0, 1.0)

  const Identity := Mat4(Vec4(1.0, 0.0, 0.0, 0.0), Vec4(0.0, 1.0, 0.0, 0.0), Vec4(0.0, 0.0, 1.0, 0.0), Bottom)

  const Zero4 := Vec4(0.0, 0.0, 0.0, 0.0)

  function Add4(a: Vec4, b: Vec4): Vec4 { Vec4(a.x + b.x, a.y + b.y, a.z + b.z, a.w + b.w) }

  function Scale4(k: real, a: Vec4): Vec4 { Vec4(k * a.x, k * a.y, k * a.z, k * a.w) }

  function Dot4(a: Vec4, b: Vec4): real { a.x * b.x + a.y * b.y + a.z * b.z + a.w * b.w }

  /** `m @ v`. */
  function MulVec(m: Mat4, v: Vec4): Vec4 {
    Vec4(Dot4(m.r0, v), Dot4(m.r1, v), Dot4(m.r2, v), Dot4(m.r3, v))
  }

  /** Row `a` times `b`: the combination of `b`'s rows weighted by `a`. */
  function RowTimes(a: Vec4, b: Mat4): Vec4 {
    Add4(Add4(Scale4(a.x, b.r0), Scale4(a.y, b.r1)), Add4(Scale4(a.z, b.r2), Scale4(a.w, b.r3)))
  }

  /** `a @ b`. */
  function Mul(a: Mat4, b: Mat4): Mat4 {
    Mat4(RowTimes(a.r0, b), RowTimes(a.r1, b), RowTimes(a.r2, b), RowTimes(a.r3, b))
  }

  function MulVec3(m: Mat3, v: Vec3): Vec3 { Vec3(Dot(m.r0, v), Dot(m.r1, v), Dot(m.r2, v)) }

  function Transpose3(m: Mat3): Mat3 {
    Mat3(Vec3(m.r0.x, m.r1.x, m.r2.x), Vec3(m.r0.y, m.r1.y, m.r2.y), Vec3(m.r0.z, m.r1.z, m.r2.z))
  }

  /** `m[:3, :3]`. */
  function Upper(m: Mat4): Mat3 {
    Mat3(Vec3(m.r0.x, m.r0.y, m.r0.z), Vec3(m.r1.x, m.r1.y, m.r1.z), Vec3(m.r2.x, m.r2.y, m.r2.z))
  }

  /** A point `(x, y, z, 1)` and a direction `(x, y, z, 0)` in homogeneous coordinates. */
  function Point4(v: Vec3): Vec4 { Vec4(v.x, v.y, v.z, 1.0) }

  function Dir4(v: Vec3): Vec4 { Vec4(v.x, v.y, v.z, 0.0) }

  /** The first three components. */
  function Drop(v: Vec4): Vec3 { Vec3(v.x, v.y, v.z) }

  /** `np.eye(4)` with `m` written into its upper-left block. */
  function Embed(m: Mat3): Mat4 {
    Mat4(Vec4(m.r0.x, m.r0.y, m.r0.z, 0.0), Vec4(m.r1.x, m.r1.y, m.r1.z, 0.0), Vec4(m.r2.x, m.r2.y, m.r2.z, 0.0), Bottom)
  }

  function MatrixOf(input: MatrixInput): Mat4 {
    match input
    case Linear(m) => Embed(m)
    case Homogeneous(m) => m
  }

  /** An affine matrix: bottom row `(0, 0, 0, 1)`. */
  predicate Affine(m: Mat4) { m.r3 == Bottom }

  /** `inv` is a two-sided inverse of `m`. */
  predicate IsInverse(m: Mat4, inv: Mat4) { Mul(m, inv) == Identity && Mul(inv, m) == Identity }

  /**
   * `ObjectTransform.__init__`. `inv` is what the inversion returned, `None`
   * for a singular matrix, in which case the identity is used. The material
   * is the inner shape's, if it has one.
   */
  function Make(shapeMaterial: Option<Material>, input: MatrixInput, inv: Option<Mat4>): (tr: ObjectTransform)
    ensures input.Linear? ==> Affine(tr.matrix) && Upper(tr.matrix) == input.m3
    ensures input.Homogeneous? ==> tr.matrix == input.m4
    ensures tr.inverse == (if inv.Some? then inv.value else Identity)
    ensures tr.invTranspose == Transpose3(Upper(tr.inverse))
    ensures tr.material == shapeMaterial
  {
    var matrix := MatrixOf(input);
    var inverse := if inv.Some? then inv.value else Identity;
    ObjectTransform(matrix, inverse, Transpose3(Upper(inverse)), shapeMaterial)
  }

  /** The ray in object space: origin through the inverse as a point, direction as a direction, then normalized. */
  function ObjectRay(tr: ObjectTransform, ray: Ray, sqrt: real -> real): Ray
    requires IsSqrt(sqrt)
  {
    var origin := Drop(MulVec(tr.inverse, Point4(ray.origin)));
    var raw := Drop(MulVec(tr.inverse, Dir4(ray.direction)));
    Ray(origin, Normalize(raw, sqrt))
  }

  /** What the inner shape must give for a hit: a point and a normal. */
  ghost predicate Complete(rec: HitRecord) {
    rec.hit ==> rec.point.Some? && rec.normal.Some?
  }

  /**
   * `ObjectTransform.hit`. An inner miss is passed through unchanged. An
   * inner hit is mapped back: the point by the matrix, the normal by the
   * transposed inverse and normalized, `t` as the distance of the world point
   * along the world direction, the material overridden by the transform's
   * own when it has one, and the uv passed through.
   */
  function Hit(tr: ObjectTransform, shape: Ray -> HitRecord, ray: Ray, sqrt: real -> real): (r: HitRecord)
    requires IsSqrt(sqrt) && Complete(shape(ObjectRay(tr, ray, sqrt)))
    ensures var rec := shape(ObjectRay(tr, ray, sqrt));
      !rec.hit ==> r == rec
    ensures var rec := shape(ObjectRay(tr, ray, sqrt));
      rec.hit ==>
        r.hit && r.uv == rec.uv
        && r.material == (if tr.material.Some? then tr.material else rec.material)
        && r.point == Some(WorldPoint(tr, rec.point.value))
        && r.normal == Some(Normalize(MulVec3(tr.invTranspose, rec.normal.value), sqrt))
        && r.t == Finite(Dot(Sub(r.point.value, ray.origin), ray.direction))
  {
    var rec := shape(ObjectRay(tr, ray, sqrt));
    if !rec.hit then rec
    else
      var pointWorld := WorldPoint(tr, rec.point.value);
      var normalWorld := Normalize(MulVec3(tr.invTranspose, rec.normal.value), sqrt);
      var tWorld := Dot(Sub(pointWorld, ray.origin), ray.direction);
      var material := if tr.material.Some? then tr.material else rec.material;
      HitRecord(true, Finite(tWorld), Some(pointWorld), Some(normalWorld), material, rec.uv)
  }

  /** The world point `Hit` reports for an inner hit at `p`: `p` as a point through the matrix. */
  function WorldPoint(tr: ObjectTransform, p: Vec3): Vec3 { Drop(MulVec(tr.matrix, Point4(p))) }

  // ---------------------------------------------------------------- algebra

  lemma Dot4Linear(p: Vec4, k: real, q: Vec4, v: Vec4)
    ensures Dot4(Add4(p, Scale4(k, q)), v) == Dot4(p, v) + k * Dot4(q, v)
  {}

  /** A row applied to `p + k q`, given its values `a` on `p` and `b` on `q`. */
  lemma RowLinear(r: Vec4, p: Vec4, k: real, q: Vec4, a: real, b: real)
    requires Dot4(r, p) == a && Dot4(r, q) == b
    ensures Dot4(r, Add4(p, Scale4(k, q))) == a + k * b
  {
    assert Dot4(r, Add4(p, Scale4(k, q))) == Dot4(r, p) + k * Dot4(r, q);
  }

  /** Row `a` times `b`, dotted with `v`, is `a` dotted with `b @ v`. */
  lemma RowTimesDot(a: Vec4, b: Mat4, v: Vec4)
    ensures Dot4(RowTimes(a, b), v) == Dot4(a, MulVec(b, v))
  {
    var s01 := Add4(Scale4(a.x, b.r0), Scale4(a.y, b.r1));
    var s23 := Add4(Scale4(a.z, b.r2), Scale4(a.w, b.r3));
    Dot4Linear(Scale4(a.x, b.r0), a.y, b.r1, v);
    Dot4Linear(Scale4(a.z, b.r2), a.w, b.r3, v);
    Dot4Linear(s01, 1.0, s23, v);
    assert Scale4(1.0, s23) == s23;
    Dot4Scale(a.x, b.r0, v);
    Dot4Scale(a.z, b.r2, v);
  }

  lemma Dot4Scale(k: real, p: Vec4, v: Vec4)
    ensures Dot4(Scale4(k, p), v) == k * Dot4(p, v)
  {}

  /** Applying a product is applying its factors in turn. */
  lemma MulVecAssoc(a: Mat4, b: Mat4, v: Vec4)
    ensures MulVec(Mul(a, b), v) == MulVec(a, MulVec(b, v))
  {
    RowTimesDot(a.r0, b, v);
    RowTimesDot(a.r1, b, v);
    RowTimesDot(a.r2, b, v);
    RowTimesDot(a.r3, b, v);
  }

  lemma MulVecIdentity(v: Vec4)
    ensures MulVec(Identity, v) == v
  {}

  /** An inverse applied after its matrix gives the vector back. */
  lemma Cancel(m: Mat4, inv: Mat4, v: Vec4)
    requires Mul(m, inv) == Identity
    ensures MulVec(m, MulVec(inv, v)) == v
  {
    MulVecAssoc(m, inv, v);
    MulVecIdentity(v);
  }

  /** The inverse of an affine matrix is affine. */
  lemma InverseIsAffine(m: Mat4, inv: Mat4)
    requires Affine(m) && Mul(m, inv) == Identity
    ensures Affine(inv)
  {
    assert Mul(m, inv).r3 == RowTimes(Bottom, inv);
    RowTimesBottom(inv);
  }

  lemma RowTimesBottom(b: Mat4)
    ensures RowTimes(Bottom, b) == b.r3
  {
    var z := Scale4(0.0, b.r0);
    assert z == Zero4 && Scale4(0.0, b.r1) == Zero4 && Scale4(0.0, b.r2) == Zero4;
    assert Scale4(1.0, b.r3) == b.r3;
  }

  /** An affine matrix takes points to points and directions to directions. */
  lemma AffineKeepsW(m: Mat4, v: Vec3)
    requires Affine(m)
    ensures MulVec(m, Point4(v)) == Point4(Drop(MulVec(m, Point4(v))))
    ensures MulVec(m, Dir4(v)) == Dir4(Drop(MulVec(m, Dir4(v))))
    ensures Drop(MulVec(m, Dir4(v))) == MulVec3(Upper(m), v)
  {}

  // ------------------------------------------------------------ properties

  /**
   * A 3x3 input becomes an affine matrix with no translation that acts on
   * points as the 3x3 matrix does.
   */
  lemma EmbedActsLinearly(m: Mat3, p: Vec3)
    ensures Affine(Embed(m)) && Upper(Embed(m)) == m
    ensures Embed(m).r0.w == 0.0 && Embed(m).r1.w == 0.0 && Embed(m).r2.w == 0.0
    ensures WorldPoint(Make(None, Linear(m), None), p) == MulVec3(m, p)
  {}

  /** A singular matrix falls back to the identity, under which the ray is left as it is. */
  lemma {:induction false} SingularFallback(shapeMaterial: Option<Material>, input: MatrixInput, ray: Ray, sqrt: real -> real)
    requires IsSqrt(sqrt) && ValidRay(ray)
    ensures Make(shapeMaterial, input, None).inverse == Identity
    ensures ObjectRay(Make(shapeMaterial, input, None), ray, sqrt) == ray
  {
    var tr := Make(shapeMaterial, input, None);
    MulVecIdentity(Point4(ray.origin));
    MulVecIdentity(Dir4(ray.direction));
    var d := ray.direction;
    assert Drop(MulVec(tr.inverse, Dir4(d))) == d;
    NormalizeUnit(d, sqrt);
  }

  /**
   * For an invertible affine matrix and a unit world direction, a hit the
   * inner shape reports on the object ray at `s` is reported on the world
   * ray: the world point is at the reported `t`, which is `s` divided by
   * the length of the direction in object space, and is positive when `s`
   * is.
   */
  lemma {:induction false} WorldHitOnRay(tr: ObjectTransform, shape: Ray -> HitRecord, ray: Ray, sqrt: real -> real, s: real)
    requires IsSqrt(sqrt) && ValidRay(ray)
    requires Affine(tr.matrix) && Mul(tr.matrix, tr.inverse) == Identity
    requires var rec := shape(ObjectRay(tr, ray, sqrt));
      rec.hit && rec.point == Some(PointAt(ObjectRay(tr, ray, sqrt), s)) && rec.normal.Some?
    ensures var r := Hit(tr, shape, ray, sqrt);
      r.hit && r.t.Finite? && r.point == Some(PointAt(ray, r.t.value))
    ensures var r := Hit(tr, shape, ray, sqrt);
      r.t.Finite? && (s > 0.0 ==> r.t.value > 0.0)
  {
    InverseIsAffine(tr.matrix, tr.inverse);
    Cancel(tr.matrix, tr.inverse, Dir4(ray.direction));
    Cancel(tr.matrix, tr.inverse, Point4(ray.origin));
    WorldHitCore(tr, shape, ray, sqrt, s);
  }

  /** `WorldHitOnRay` with the inverse given by its action on the ray's origin and direction. */
  lemma {:induction false} WorldHitCore(tr: ObjectTransform, shape: Ray -> HitRecord, ray: Ray, sqrt: real -> real, s: real)
    requires IsSqrt(sqrt) && ValidRay(ray) && Affine(tr.inverse)
    requires MulVec(tr.matrix, MulVec(tr.inverse, Dir4(ray.direction))) == Dir4(ray.direction)
    requires MulVec(tr.matrix, MulVec(tr.inverse, Point4(ray.origin))) == Point4(ray.origin)
    requires var rec := shape(ObjectRay(tr, ray, sqrt));
      rec.hit && rec.point == Some(PointAt(ObjectRay(tr, ray, sqrt), s)) && rec.normal.Some?
    ensures var r := Hit(tr, shape, ray, sqrt);
      r.hit && r.t.Finite? && r.point == Some(PointAt(ray, r.t.value))
    ensures var r := Hit(tr, shape, ray, sqrt);
      r.t.Finite? && (s > 0.0 ==> r.t.value > 0.0)
  {
    var m, inv := tr.matrix, tr.inverse;
    var o, d := ray.origin, ray.direction;
    var o4, d4 := MulVec(inv, Point4(o)), MulVec(inv, Dir4(d));
    AffineKeepsW(inv, o);
    AffineKeepsW(inv, d);
    var origin, raw := Drop(o4), Drop(d4);
    RawNonZero(m, raw, d);
    var len := sqrt(Dot(raw, raw));
    LengthPositive(raw, sqrt);
    var k := s * (1.0 / len);
    var objRay := ObjectRay(tr, ray, sqrt);
    assert objRay == Ray(origin, Scale(1.0 / len, raw));
    var p := PointAt(objRay, s);
    PointAtHomogeneous(origin, raw, 1.0 / len, s);
    assert Point4(p) == Add4(o4, Scale4(k, d4));
    PointMapsBack(m, o4, d4, ray, k);
    var r := Hit(tr, shape, ray, sqrt);
    assert r.point == Some(PointAt(ray, k));
    DotAlongDirection(ray, k);
    assert r.t == Finite(k);
    assert s > 0.0 ==> k > 0.0;
  }

  /** The object-space direction is not zero when it maps back to a unit direction. */
  lemma RawNonZero(m: Mat4, raw: Vec3, d: Vec3)
    requires MulVec(m, Dir4(raw)) == Dir4(d) && Dot(d, d) == 1.0
    ensures Dot(raw, raw) > 0.0
  {
    if raw == Zero {
      assert Dir4(raw) == Zero4;
    } else {
      DotSelfPositive(raw);
    }
  }

  lemma LengthPositive(v: Vec3, sqrt: real -> real)
    requires IsSqrt(sqrt) && Dot(v, v) > 0.0
    ensures Length(v, sqrt) > 0.0 && Normalize(v, sqrt) == Scale(1.0 / Length(v, sqrt), v)
  {
    SquarePositiveRoot(Dot(v, v), sqrt(Dot(v, v)));
  }

  /** A point of a ray with direction `c * raw`, in homogeneous coordinates. */
  lemma PointAtHomogeneous(origin: Vec3, raw: Vec3, c: real, s: real)
    ensures Point4(PointAt(Ray(origin, Scale(c, raw)), s)) == Add4(Point4(origin), Scale4(s * c, Dir4(raw)))
  {}

  /** Mapping `o4 + k d4` back with `m` gives the world ray's point at `k`. */
  lemma PointMapsBack(m: Mat4, o4: Vec4, d4: Vec4, ray: Ray, k: real)
    requires MulVec(m, o4) == Point4(ray.origin) && MulVec(m, d4) == Dir4(ray.direction)
    ensures Drop(MulVec(m, Add4(o4, Scale4(k, d4)))) == PointAt(ray, k)
  {
    var o, d := ray.origin, ray.direction;
    var mv := MulVec(m, Add4(o4, Scale4(k, d4)));
    RowLinear(m.r0, o4, k, d4, o.x, d.x);
    RowLinear(m.r1, o4, k, d4, o.y, d.y);
    RowLinear(m.r2, o4, k, d4, o.z, d.z);
  }

  /** The world point at `k` along a unit direction is at distance `k` along it. */
  lemma DotAlongDirection(ray: Ray, k: real)
    requires ValidRay(ray)
    ensures Dot(Sub(PointAt(ray, k), ray.origin), ray.direction) == k
  {
    var d := ray.direction;
    assert Sub(PointAt(ray, k), ray.origin) == Scale(k, d);
    assert Dot(Scale(k, d), d) == k * Dot(d, d);
  }

  lemma SquarePositiveRoot(x: real, root: real)
    requires x > 0.0 && root * root == x
    ensures root != 0.0
  {}

  /**
   * For an affine matrix with a two-sided inverse, the normal `Hit` reports
   * is carried over correctly: a surface direction `u` perpendicular to the
   * inner shape's normal, mapped into the world by the matrix, is
   * perpendicular to the world normal of the hit.
   */
  lemma {:induction false} NormalStaysPerpendicular(tr: ObjectTransform, shape: Ray -> HitRecord, ray: Ray, sqrt: real -> real, u: Vec3)
    requires IsSqrt(sqrt)
    requires Affine(tr.matrix) && IsInverse(tr.matrix, tr.inverse)
    requires tr.invTranspose == Transpose3(Upper(tr.inverse))
    requires var rec := shape(ObjectRay(tr, ray, sqrt));
      rec.hit && rec.point.Some? && rec.normal.Some? && Dot(rec.normal.value, u) == 0.0
    ensures Hit(tr, shape, ray, sqrt).normal.Some?
    ensures Dot(Hit(tr, shape, ray, sqrt).normal.value, MulVec3(Upper(tr.matrix), u)) == 0.0
  {
    var n := shape(ObjectRay(tr, ray, sqrt)).normal.value;
    InverseIsAffine(tr.matrix, tr.inverse);
    Cancel(tr.inverse, tr.matrix, Dir4(u));
    var mu := MulVec3(Upper(tr.matrix), u);
    UndoesUpper(tr.matrix, tr.inverse, u);
    TransposeDot(Upper(tr.inverse), n, mu);
    NormalizePerpendicular(MulVec3(tr.invTranspose, n), mu, sqrt);
  }

  /** On directions, an inverse that undoes an affine matrix undoes its upper-left block. */
  lemma UndoesUpper(m: Mat4, inv: Mat4, u: Vec3)
    requires Affine(m) && Affine(inv) && MulVec(inv, MulVec(m, Dir4(u))) == Dir4(u)
    ensures MulVec3(Upper(inv), MulVec3(Upper(m), u)) == u
  {
    var mu := MulVec3(Upper(m), u);
    AffineKeepsW(m, u);
    AffineKeepsW(inv, mu);
    assert MulVec(m, Dir4(u)) == Dir4(mu);
  }

  /** Normalizing keeps a vector perpendicular to what it was perpendicular to. */
  lemma NormalizePerpendicular(g: Vec3, w: Vec3, sqrt: real -> real)
    requires IsSqrt(sqrt) && Dot(g, w) == 0.0
    ensures Dot(Normalize(g, sqrt), w) == 0.0
  {
    var c :| 0.0 <= c && Normalize(g, sqrt) == Scale(c, g);
    assert Dot(Scale(c, g), w) == c * Dot(g, w);
  }

  /** `(Aᵀ n) · v == n · (A v)`. */
  lemma TransposeDot(a: Mat3, n: Vec3, v: Vec3)
    ensures Dot(MulVec3(Transpose3(a), n), v) == Dot(n, MulVec3(a, v))
  {}
}
