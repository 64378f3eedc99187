/**
 * Boxes classified against a circle: 1 when the box lies outside it, -1 when
 * inside, 0 otherwise. The test looks at the box point nearest to the centre
 * and at the corner farthest from it.
 */
module CircleRegions {
  import opened Quadtree
  import opened Points2D
  import opened RealArith
  import Vectors

  datatype Status = Inside | On | Outside

  /** `in_circle`: the squared distance to the centre and where the point lies. */
  function InCircle(p: Point2, center: Point2, radius: real): (r: (real, Status))
    ensures r.0 == SquaredDistance(p, center) && r.0 >= 0.0
    ensures r.1 == Inside <==> r.0 < radius * radius
    ensures r.1 == On <==> r.0 == radius * radius
    ensures r.1 == Outside <==> r.0 > radius * radius
  {
    var dx, dy := p.x - center.x, p.y - center.y;
    var d2 := dx * dx + dy * dy;
    SquareNonNegative(dx);
    SquareNonNegative(dy);
    var r2 := radius * radius;
    if d2 < r2 then (d2, Inside)
    else if d2 == r2 then (d2, On)
    else (d2, Outside)
  }

  /** `max(lo, min(v, hi))`. */
  function Clamp(lo: real, v: real, hi: real): real {
    var m := if v <= hi then v else hi;
    if lo >= m then lo else m
  }

  /** `lo if abs(lo - v) > abs(hi - v) else hi`. */
  function Farther(lo: real, hi: real, v: real): real {
    if Vectors.Abs(lo - v) > Vectors.Abs(hi - v) then lo else hi
  }

  function Closest(b: Box, center: Point2): Point2 {
    Point2(Clamp(b.xMin, center.x, b.xMax), Clamp(b.yMin, center.y, b.yMax))
  }

  function Farthest(b: Box, center: Point2): Point2 {
    Point2(Farther(b.xMin, b.xMax, center.x), Farther(b.yMin, b.yMax, center.y))
  }

  /** `classify`: 1 when even the nearest box point is outside, -1 when even the farthest corner is inside, else 0. */
  function Classify(b: Box, center: Point2, radius: real): (r: int)
    ensures r == -1 || r == 0 || r == 1
  {
    if InCircle(Closest(b, center), center, radius).1 == Outside then 1
    else if InCircle(Farthest(b, center), center, radius).1 == Inside then -1
    else 0
  }

  ghost predicate AllOutside(b: Box, center: Point2, radius: real) {
    forall x, y :: Contains(b, x, y) ==> SquaredDistance(Point2(x, y), center) > radius * radius
  }

  ghost predicate AllInside(b: Box, center: Point2, radius: real) {
    forall x, y :: Contains(b, x, y) ==> SquaredDistance(Point2(x, y), center) < radius * radius
  }

  /** The clamped value lies in `[lo, hi]` and is at least as near to `v` as any value there. */
  lemma ClampIsNearest(lo: real, v: real, hi: real, x: real)
    requires lo <= x <= hi
    ensures lo <= Clamp(lo, v, hi) <= hi
    ensures Vectors.Abs(Clamp(lo, v, hi) - v) <= Vectors.Abs(x - v)
  {
  }

  /** The chosen end of `[lo, hi]` is at least as far from `v` as any value there. */
  lemma FartherIsFarthest(lo: real, hi: real, v: real, x: real)
    requires lo <= x <= hi
    ensures Farther(lo, hi, v) == lo || Farther(lo, hi, v) == hi
    ensures Vectors.Abs(x - v) <= Vectors.Abs(Farther(lo, hi, v) - v)
  {
  }

  lemma NearerSquared(a: real, b: real, c: real)
    requires Vectors.Abs(a - c) <= Vectors.Abs(b - c)
    ensures (a - c) * (a - c) <= (b - c) * (b - c)
  {
    SquareAbsMonotonic(a - c, b - c);
  }

  lemma NearerPoint(p: Point2, q: Point2, c: Point2)
    requires (p.x - c.x) * (p.x - c.x) <= (q.x - c.x) * (q.x - c.x)
    requires (p.y - c.y) * (p.y - c.y) <= (q.y - c.y) * (q.y - c.y)
    ensures SquaredDistance(p, c) <= SquaredDistance(q, c)
  {
  }

  /** The nearest point lies in the box and is no farther from the centre than any point of it. */
  lemma ClosestIsNearest(b: Box, center: Point2, x: real, y: real)
    requires Contains(b, x, y)
    ensures Contains(b, Closest(b, center).x, Closest(b, center).y)
    ensures SquaredDistance(Closest(b, center), center) <= SquaredDistance(Point2(x, y), center)
  {
    var p := Closest(b, center);
    ClampIsNearest(b.xMin, center.x, b.xMax, x);
    ClampIsNearest(b.yMin, center.y, b.yMax, y);
    NearerSquared(p.x, x, center.x);
    NearerSquared(p.y, y, center.y);
    NearerPoint(p, Point2(x, y), center);
  }

  /** The farthest corner lies in the box and is no nearer to the centre than any point of it. */
  lemma FarthestIsFarthest(b: Box, center: Point2, x: real, y: real)
    requires Contains(b, x, y)
    ensures Contains(b, Farthest(b, center).x, Farthest(b, center).y)
    ensures SquaredDistance(Point2(x, y), center) <= SquaredDistance(Farthest(b, center), center)
  {
    var p := Farthest(b, center);
    FartherIsFarthest(b.xMin, b.xMax, center.x, x);
    FartherIsFarthest(b.yMin, b.yMax, center.y, y);
    NearerSquared(x, p.x, center.x);
    NearerSquared(y, p.y, center.y);
    NearerPoint(Point2(x, y), p, center);
  }

  /** Classification 1 is exact: it is given precisely to the boxes lying strictly outside the circle. */
  lemma OutsideIsExact(b: Box, center: Point2, radius: real)
    requires WellFormed(b)
    ensures Classify(b, center, radius) == 1 <==> AllOutside(b, center, radius)
  {
    if Classify(b, center, radius) == 1 {
      forall x, y | Contains(b, x, y)
        ensures SquaredDistance(Point2(x, y), center) > radius * radius
      {
        ClosestIsNearest(b, center, x, y);
      }
    } else {
      ClosestIsNearest(b, center, b.xMin, b.yMin);
      var p := Closest(b, center);
      assert Contains(b, p.x, p.y) && Point2(p.x, p.y) == p;
    }
  }

  /** Classification -1 is exact: it is given precisely to the boxes lying strictly inside the circle. */
  lemma InsideIsExact(b: Box, center: Point2, radius: real)
    requires WellFormed(b)
    ensures Classify(b, center, radius) == -1 <==> AllInside(b, center, radius)
  {
    if Classify(b, center, radius) == -1 {
      forall x, y | Contains(b, x, y)
        ensures SquaredDistance(Point2(x, y), center) < radius * radius
      {
        FarthestIsFarthest(b, center, x, y);
      }
    } else {
      FarthestIsFarthest(b, center, b.xMin, b.yMin);
      ClosestIsNearest(b, center, b.xMin, b.yMin);
      var p, q := Closest(b, center), Farthest(b, center);
      assert Contains(b, p.x, p.y) && Point2(p.x, p.y) == p;
      assert Contains(b, q.x, q.y) && Point2(q.x, q.y) == q;
    }
  }

  /** Every square `explore` reports as outside (1) or inside (-1) the circle is entirely so; an undecided (0) one is neither. */
  lemma ExploreIsSound(b: Box, level: nat, center: Point2, radius: real, s: Square)
    requires WellFormed(b)
    requires s in Explore(b, level, box => Classify(box, center, radius))
    ensures s.tag == 1 ==> AllOutside(s.box, center, radius)
    ensures s.tag == -1 ==> AllInside(s.box, center, radius)
    ensures s.tag == 0 ==> !AllOutside(s.box, center, radius) && !AllInside(s.box, center, radius)
  {
    ExploreWithin(b, level, box => Classify(box, center, radius));
    OutsideIsExact(s.box, center, radius);
    InsideIsExact(s.box, center, radius);
  }
}
