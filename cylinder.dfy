/**
 * `Cylinder.hit`: a finite cylinder with flat caps. The side is the infinite
 * cylinder clipped to the height, each cap is a disk; of the four candidate
 * parameters (two side roots, two caps) the smallest valid one wins, and on
 * a tie the earlier candidate stays.
 */
module CylinderShape {
  import opened Wrappers
  import opened Vectors
  import opened Hits
  import opened Quadratic
  import opened RealArith
  import PlaneShape

  /** Side coefficients and cap denominators at or below this in magnitude are skipped. */
  const DegenerateTolerance: real := 0.000001

  /** `axis` is stored normalized. */
  datatype Cylinder = Cylinder(center: Vec3, axis: Vec3, radius: real, height: real)

  /** `Cylinder.__init__`. */
  function MakeCylinder(center: Vec3, axis: Vec3, radius: real, height: real, sqrt: real -> real): Cylinder
    requires IsSqrt(sqrt)
  {
    Cylinder(center, Normalize(axis, sqrt), radius, height)
  }

  /** The part of `v` perpendicular to the axis. */
  function Perp(cyl: Cylinder, v: Vec3): Vec3 {
    Sub(v, Scale(Dot(v, cyl.axis), cyl.axis))
  }

  /** The quadratic in `t` for the infinite side surface. */
  function CoeffA(cyl: Cylinder, ray: Ray): real {
    Dot(Perp(cyl, ray.direction), Perp(cyl, ray.direction))
  }

  function CoeffB(cyl: Cylinder, ray: Ray): real {
    2.0 * Dot(Perp(cyl, ray.direction), Perp(cyl, Sub(ray.origin, cyl.center)))
  }

  function CoeffC(cyl: Cylinder, ray: Ray): real {
    var ocPerp := Perp(cyl, Sub(ray.origin, cyl.center));
    Dot(ocPerp, ocPerp) - cyl.radius * cyl.radius
  }

  /** One of the four places the ray may meet the cylinder. */
  datatype Candidate = Side(t: real) | Cap(sign: real, t: real)

  function CapCenter(cyl: Cylinder, sign: real): Vec3 {
    Add(cyl.center, Scale(sign * cyl.height / 2.0, cyl.axis))
  }

  function CapNormal(cyl: Cylinder, sign: real): Vec3 {
    Scale(sign, cyl.axis)
  }

  /** The cap's parameter, when the ray is not parallel to the cap. */
  function CapCandidate(cyl: Cylinder, ray: Ray, sign: real): Option<Candidate> {
    var n := CapNormal(cyl, sign);
    var denom := Dot(ray.direction, n);
    if Abs(denom) > DegenerateTolerance then
      Some(Cap(sign, Dot(Sub(CapCenter(cyl, sign), ray.origin), n) / denom))
    else None
  }

  /**
   * The candidates in the order the source tries them: the near and far side
   * roots (absent when the side quadratic is degenerate or has no real root),
   * then the top cap (sign +1) and the bottom cap (sign -1).
   */
  function Candidates(cyl: Cylinder, ray: Ray, sqrt: real -> real): (cs: seq<Option<Candidate>>)
    ensures |cs| == 4
  {
    SideRoots(CoeffA(cyl, ray), CoeffB(cyl, ray), CoeffC(cyl, ray), sqrt)
      + [CapCandidate(cyl, ray, 1.0), CapCandidate(cyl, ray, -1.0)]
  }

  /** The near and far roots of the side quadratic, or none when it is degenerate or has no real root. */
  function SideRoots(a: real, b: real, c: real, sqrt: real -> real): (roots: seq<Option<Candidate>>)
    ensures |roots| == 2
  {
    var disc := Discriminant(a, b, c);
    if Abs(a) > DegenerateTolerance && disc >= 0.0 then
      [Some(Side(LowRoot(a, b, sqrt(disc)))), Some(Side(HighRoot(a, b, sqrt(disc))))]
    else [None, None]
  }

  /** Signed distance of `p` from the center, measured along the axis. */
  function AlongAxis(cyl: Cylinder, p: Vec3): real {
    Dot(Sub(p, cyl.center), cyl.axis)
  }

  /**
   * A candidate is valid when it is beyond the epsilon floor and, for the
   * side, within half the height along the axis, for a cap, within the radius
   * of the cap's center.
   */
  predicate Admits(cyl: Cylinder, ray: Ray, cand: Candidate) {
    var p := PointAt(ray, cand.t);
    cand.t > CastEpsilon &&
    match cand
    case Side(t) => -cyl.height / 2.0 <= AlongAxis(cyl, p) <= cyl.height / 2.0
    case Cap(sign, t) =>
      var v := Sub(p, CapCenter(cyl, sign));
      Dot(v, v) <= cyl.radius * cyl.radius
  }

  predicate IsValid(cyl: Cylinder, ray: Ray, o: Option<Candidate>) {
    o.Some? && Admits(cyl, ray, o.value)
  }

  /** The record for a candidate: the radial normal on the side, the cap's normal on a cap. */
  function Record(cyl: Cylinder, ray: Ray, cand: Candidate, sqrt: real -> real): HitRecord
    requires IsSqrt(sqrt)
  {
    var p := PointAt(ray, cand.t);
    match cand
    case Side(t) =>
      var axisPoint := Add(cyl.center, Scale(AlongAxis(cyl, p), cyl.axis));
      HitAt(t, p, Normalize(Sub(p, axisPoint), sqrt))
    case Cap(sign, t) => HitAt(t, p, CapNormal(cyl, sign))
  }

  /**
   * After the first `n` candidates: `rec` is the record of the smallest
   * valid one (the earliest on a tie) with `closest` its parameter, or a miss
   * at infinity when none is valid.
   */
  ghost predicate BestSoFar(cyl: Cylinder, ray: Ray, sqrt: real -> real, n: nat, rec: HitRecord, closest: Param)
    requires IsSqrt(sqrt) && n <= 4
  {
    var cs := Candidates(cyl, ray, sqrt);
    (rec.hit <==> exists j :: 0 <= j < n && IsValid(cyl, ray, cs[j]))
    && (!rec.hit ==> rec == Miss && closest == Infinity)
    && (rec.hit ==> exists j :: 0 <= j < n && IsValid(cyl, ray, cs[j]) && Smallest(cyl, ray, sqrt, n, j, rec, closest))
  }

  ghost predicate Smallest(cyl: Cylinder, ray: Ray, sqrt: real -> real, n: nat, j: nat, rec: HitRecord, closest: Param)
    requires IsSqrt(sqrt) && j < n <= 4
    requires IsValid(cyl, ray, Candidates(cyl, ray, sqrt)[j])
  {
    var cs := Candidates(cyl, ray, sqrt);
    rec == Record(cyl, ray, cs[j].value, sqrt) && closest == Finite(cs[j].value.t)
    && (forall i :: 0 <= i < n && IsValid(cyl, ray, cs[i]) ==> cs[j].value.t <= cs[i].value.t)
    && (forall i :: 0 <= i < j && IsValid(cyl, ray, cs[i]) ==> cs[j].value.t < cs[i].value.t)
  }

  /**
   * `Cylinder.hit`. The result is a hit exactly when some candidate is valid,
   * and then it is the record of the smallest valid candidate, the earliest
   * of them on a tie; otherwise it is a miss.
   */
  method Hit(cyl: Cylinder, ray: Ray, sqrt: real -> real) returns (r: HitRecord)
    requires IsSqrt(sqrt)
    ensures var cs := Candidates(cyl, ray, sqrt);
      r.hit <==> exists j :: 0 <= j < 4 && IsValid(cyl, ray, cs[j])
    ensures !r.hit ==> r == Miss
    ensures var cs := Candidates(cyl, ray, sqrt);
      r.hit ==> exists j :: (0 <= j < 4 && IsValid(cyl, ray, cs[j]) && r == Record(cyl, ray, cs[j].value, sqrt)
        && (forall i :: 0 <= i < 4 && IsValid(cyl, ray, cs[i]) ==> cs[j].value.t <= cs[i].value.t)
        && (forall i :: 0 <= i < j && IsValid(cyl, ray, cs[i]) ==> cs[j].value.t < cs[i].value.t))
    ensures r.hit ==> r.t.Finite? && r.t.value > CastEpsilon && r.point == Some(PointAt(ray, r.t.value))
  {
    var rec, closest := SideHits(cyl, ray, sqrt);
    rec, closest := CapHits(cyl, ray, sqrt, rec, closest);
    r := rec;
  }

  /** The side part of `Cylinder.hit`: the two roots of the quadratic, clipped to the height. */
  method SideHits(cyl: Cylinder, ray: Ray, sqrt: real -> real) returns (rec: HitRecord, closest: Param)
    requires IsSqrt(sqrt)
    ensures BestSoFar(cyl, ray, sqrt, 2, rec, closest)
  {
    ghost var cs := Candidates(cyl, ray, sqrt);
    var a, b, c := CoeffA(cyl, ray), CoeffB(cyl, ray), CoeffC(cyl, ray);

    closest := Infinity;
    rec := Miss;
    if Abs(a) > DegenerateTolerance {
      var disc := Discriminant(a, b, c);
      if disc >= 0.0 {
        var sqrtDisc := sqrt(disc);
        var t1 := LowRoot(a, b, sqrtDisc);
        var t2 := HighRoot(a, b, sqrtDisc);
        SideCandidatesAre(cyl, ray, sqrt);
        for k := 0 to 2
          invariant BestSoFar(cyl, ray, sqrt, k, rec, closest)
        {
          ghost var rec0, closest0 := rec, closest;
          var t := if k == 0 then t1 else t2;
          rec, closest := TrySide(cyl, ray, sqrt, t, rec, closest);
          Extend(cyl, ray, sqrt, k, rec0, closest0, rec, closest);
        }
      } else {
        NoSideCandidates(cyl, ray, sqrt);
      }
    } else {
      NoSideCandidates(cyl, ray, sqrt);
    }
  }


  /** The cap part of `Cylinder.hit`: a disk at each end of the axis, top first. */
  method CapHits(cyl: Cylinder, ray: Ray, sqrt: real -> real, rec0: HitRecord, closest0: Param)
    returns (rec: HitRecord, closest: Param)
    requires IsSqrt(sqrt)
    requires BestSoFar(cyl, ray, sqrt, 2, rec0, closest0)
    ensures BestSoFar(cyl, ray, sqrt, 4, rec, closest)
  {
    ghost var cs := Candidates(cyl, ray, sqrt);
    rec, closest := rec0, closest0;
    for k := 0 to 2
      invariant BestSoFar(cyl, ray, sqrt, 2 + k, rec, closest)
    {
      ghost var recK, closestK := rec, closest;
      var sign := if k == 0 then 1.0 else -1.0;
      rec, closest := TryCap(cyl, ray, sqrt, sign, rec, closest);
      Extend(cyl, ray, sqrt, 2 + k, recK, closestK, rec, closest);
    }
  }

  /** One side root: taken when it is valid and strictly below the best so far. */
  method TrySide(cyl: Cylinder, ray: Ray, sqrt: real -> real, t: real, rec0: HitRecord, closest0: Param)
    returns (rec: HitRecord, closest: Param)
    requires IsSqrt(sqrt)
    ensures if IsValid(cyl, ray, Some(Side(t))) && Below(t, closest0)
      then rec == Record(cyl, ray, Side(t), sqrt) && closest == Finite(t)
      else rec == rec0 && closest == closest0
  {
    rec, closest := rec0, closest0;
    if t > CastEpsilon && Below(t, closest) {
      var point := PointAt(ray, t);
      var distAlongAxis := Dot(Sub(point, cyl.center), cyl.axis);
      if -cyl.height / 2.0 <= distAlongAxis <= cyl.height / 2.0 {
        closest := Finite(t);
        var axisPoint := Add(cyl.center, Scale(distAlongAxis, cyl.axis));
        var normal := Normalize(Sub(point, axisPoint), sqrt);
        rec := HitAt(t, point, normal);
      }
    }
  }

  /** One cap (`sign` +1 for the top, -1 for the bottom): taken when it is valid and strictly below the best so far. */
  method TryCap(cyl: Cylinder, ray: Ray, sqrt: real -> real, sign: real, rec0: HitRecord, closest0: Param)
    returns (rec: HitRecord, closest: Param)
    requires IsSqrt(sqrt)
    ensures var cand := CapCandidate(cyl, ray, sign);
      if IsValid(cyl, ray, cand) && Below(cand.value.t, closest0)
      then rec == Record(cyl, ray, cand.value, sqrt) && closest == Finite(cand.value.t)
      else rec == rec0 && closest == closest0
  {
    rec, closest := rec0, closest0;
    var capCenter := Add(cyl.center, Scale(sign * cyl.height / 2.0, cyl.axis));
    var capNormal := Scale(sign, cyl.axis);
    var denom := Dot(ray.direction, capNormal);
    assert capCenter == CapCenter(cyl, sign) && capNormal == CapNormal(cyl, sign);
    if Abs(denom) > DegenerateTolerance {
      var tCap := Dot(Sub(capCenter, ray.origin), capNormal) / denom;
      if CastEpsilon < tCap && Below(tCap, closest) {
        var pCap := PointAt(ray, tCap);
        var vToP := Sub(pCap, capCenter);
        if Dot(vToP, vToP) <= cyl.radius * cyl.radius {
          closest := Finite(tCap);
          rec := HitAt(tCap, pCap, capNormal);
        }
      }
    }
  }

  /** The loop step: a valid candidate strictly below the best so far replaces it, any other leaves it. */
  lemma Extend(cyl: Cylinder, ray: Ray, sqrt: real -> real, n: nat,
               rec: HitRecord, closest: Param, rec': HitRecord, closest': Param)
    requires IsSqrt(sqrt) && n < 4
    requires BestSoFar(cyl, ray, sqrt, n, rec, closest)
    requires var cs := Candidates(cyl, ray, sqrt);
      if IsValid(cyl, ray, cs[n]) && Below(cs[n].value.t, closest)
      then rec' == Record(cyl, ray, cs[n].value, sqrt) && closest' == Finite(cs[n].value.t)
      else rec' == rec && closest' == closest
    ensures BestSoFar(cyl, ray, sqrt, n + 1, rec', closest')
  {
    var cs := Candidates(cyl, ray, sqrt);
    if IsValid(cyl, ray, cs[n]) && Below(cs[n].value.t, closest) {
      assert Smallest(cyl, ray, sqrt, n + 1, n, rec', closest') by {
        forall i | 0 <= i < n + 1 && IsValid(cyl, ray, cs[i])
          ensures cs[n].value.t <= cs[i].value.t
        {
          if i < n {
            var j :| 0 <= j < n && IsValid(cyl, ray, cs[j]) && Smallest(cyl, ray, sqrt, n, j, rec, closest);
          }
        }
      }
    } else if rec.hit {
      var j :| 0 <= j < n && IsValid(cyl, ray, cs[j]) && Smallest(cyl, ray, sqrt, n, j, rec, closest);
      assert Smallest(cyl, ray, sqrt, n + 1, j, rec', closest');
    }
  }

  /** The side roots are exactly the parameters at which the ray is at radius distance from the axis. */
  lemma {:induction false} SideRootsOnSurface(cyl: Cylinder, ray: Ray, t: real)
    ensures var q := Perp(cyl, Sub(PointAt(ray, t), cyl.center));
      Dot(q, q) - cyl.radius * cyl.radius == Eval(CoeffA(cyl, ray), CoeffB(cyl, ray), CoeffC(cyl, ray), t)
  {
    var oc, d := Sub(ray.origin, cyl.center), ray.direction;
    var u, v := Perp(cyl, oc), Perp(cyl, d);
    assert Sub(PointAt(ray, t), cyl.center) == Add(oc, Scale(t, d));
    PerpLinear(cyl, oc, d, t);
    DotAlongLine(u, v, t);
    var a, b := CoeffA(cyl, ray), CoeffB(cyl, ray);
    assert a == Dot(v, v) && b == 2.0 * Dot(u, v);
    assert a * t * t == t * t * Dot(v, v);
    assert b * t == 2.0 * t * Dot(u, v);
  }

  /** A side candidate is at exactly the radius from the axis: it lies on the infinite side surface. */
  lemma {:induction false} SideCandidateOnSurface(cyl: Cylinder, ray: Ray, sqrt: real -> real, j: nat)
    requires IsSqrt(sqrt) && j < 2 && Candidates(cyl, ray, sqrt)[j].Some?
    ensures var q := Perp(cyl, Sub(PointAt(ray, Candidates(cyl, ray, sqrt)[j].value.t), cyl.center));
      Dot(q, q) == cyl.radius * cyl.radius
  {
    var a, b, c := CoeffA(cyl, ray), CoeffB(cyl, ray), CoeffC(cyl, ray);
    var disc := Discriminant(a, b, c);
    if !(Abs(a) > DegenerateTolerance && disc >= 0.0) {
      NoSideCandidates(cyl, ray, sqrt);
      assert false;
    }
    var s := sqrt(disc);
    SideCandidatesAre(cyl, ray, sqrt);
    assert s * s == disc;
    var t := Candidates(cyl, ray, sqrt)[j].value.t;
    assert t == LowRoot(a, b, s) || t == HighRoot(a, b, s);
    Roots(a, b, c, s, t);
    assert Eval(a, b, c, t) == 0.0;
    SideRootsOnSurface(cyl, ray, t);
  }

  lemma PerpLinear(cyl: Cylinder, u: Vec3, v: Vec3, t: real)
    ensures Perp(cyl, Add(u, Scale(t, v))) == Add(Perp(cyl, u), Scale(t, Perp(cyl, v)))
  {
    var ax := cyl.axis;
    DotLinear(u, v, t, ax);
    var du, dv := Dot(u, ax), Dot(v, ax);
    ScaleSum(du, dv, t, Dot(Add(u, Scale(t, v)), ax), ax);
    SubLinear(u, v, Scale(du, ax), Scale(dv, ax), t);
  }

  /** `(a + t b) x == a x + t (b x)`, for `k = a + t b`. */
  lemma ScaleSum(a: real, b: real, t: real, k: real, x: Vec3)
    requires k == a + t * b
    ensures Scale(k, x) == Add(Scale(a, x), Scale(t, Scale(b, x)))
  {}

  /** `(u + t v) - (p + t q) == (u - p) + t (v - q)`. */
  lemma SubLinear(u: Vec3, v: Vec3, p: Vec3, q: Vec3, t: real)
    ensures Sub(Add(u, Scale(t, v)), Add(p, Scale(t, q))) == Add(Sub(u, p), Scale(t, Sub(v, q)))
  {}

  /** A cap candidate lies in the plane of its cap. */
  lemma CapOnPlane(cyl: Cylinder, ray: Ray, sign: real)
    requires CapCandidate(cyl, ray, sign).Some?
    ensures var p := PointAt(ray, CapCandidate(cyl, ray, sign).value.t);
      Dot(Sub(p, CapCenter(cyl, sign)), CapNormal(cyl, sign)) == 0.0
  {
    var n := CapNormal(cyl, sign);
    assert Dot(ray.direction, n) == Dot(n, ray.direction);
    PlaneShape.CrossingOnPlane(CapCenter(cyl, sign), n, ray);
  }

  /**
   * A ray parallel to the axis (or nearly so) has a degenerate side
   * quadratic, so only the caps can be hit: every valid candidate is a cap, whose normal is the
   * axis or its opposite.
   */
  lemma AxisParallelHitsOnlyCaps(cyl: Cylinder, ray: Ray, sqrt: real -> real, j: nat)
    requires IsSqrt(sqrt) && j < 4
    requires Abs(CoeffA(cyl, ray)) <= DegenerateTolerance
    requires IsValid(cyl, ray, Candidates(cyl, ray, sqrt)[j])
    ensures var cand := Candidates(cyl, ray, sqrt)[j].value;
      cand.Cap? && Record(cyl, ray, cand, sqrt).normal in {Some(cyl.axis), Some(Neg(cyl.axis))}
  {
    NoSideCandidates(cyl, ray, sqrt);
    CapNormals(cyl, ray, sqrt, Candidates(cyl, ray, sqrt)[j].value);
  }

  /** A direction along the axis has no perpendicular part, so the side quadratic is degenerate. */
  lemma AlongAxisIsDegenerate(cyl: Cylinder, ray: Ray)
    requires Perp(cyl, ray.direction) == Zero
    ensures CoeffA(cyl, ray) == 0.0
  {
  }

  /** A degenerate side quadratic, or one with no real root, gives no side candidate. */
  lemma NoSideCandidates(cyl: Cylinder, ray: Ray, sqrt: real -> real)
    requires var a, b, c := CoeffA(cyl, ray), CoeffB(cyl, ray), CoeffC(cyl, ray);
      Abs(a) <= DegenerateTolerance || Discriminant(a, b, c) < 0.0
    ensures Candidates(cyl, ray, sqrt)[0] == None && Candidates(cyl, ray, sqrt)[1] == None
  {
  }

  /** Otherwise the side candidates are the near and far roots. */
  lemma SideCandidatesAre(cyl: Cylinder, ray: Ray, sqrt: real -> real)
    requires var a, b, c := CoeffA(cyl, ray), CoeffB(cyl, ray), CoeffC(cyl, ray);
      Abs(a) > DegenerateTolerance && Discriminant(a, b, c) >= 0.0
    ensures var a, b, c := CoeffA(cyl, ray), CoeffB(cyl, ray), CoeffC(cyl, ray);
      var s := sqrt(Discriminant(a, b, c));
      Candidates(cyl, ray, sqrt)[0] == Some(Side(LowRoot(a, b, s)))
      && Candidates(cyl, ray, sqrt)[1] == Some(Side(HighRoot(a, b, s)))
  {
  }

  lemma CapNormals(cyl: Cylinder, ray: Ray, sqrt: real -> real, cand: Candidate)
    requires IsSqrt(sqrt) && cand.Cap? && cand.sign in {1.0, -1.0}
    ensures Record(cyl, ray, cand, sqrt).normal in {Some(cyl.axis), Some(Neg(cyl.axis))}
  {
  }
}
