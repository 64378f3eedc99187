/** The inside/outside tests of the 2-D rasterizer's `Circle` and `ImplicitFunction` shapes. */
module Shapes2D {
  import opened Points2D
  import opened RealArith
  import CircleRegions

  datatype Circle = Circle(center: Point2, radius: real) {

    /** `Circle.in_out`: the point is no farther from the centre than the radius; the rim counts as inside. */
    predicate InOut(p: Point2) {
      SquaredDistance(p, center) <= radius * radius
    }
  }

  datatype ImplicitFunction = ImplicitFunction(func: Point2 -> real) {

    /** `ImplicitFunction.in_out`: the field is zero or negative at the point. */
    predicate InOut(p: Point2) {
      func(p) <= 0.0
    }
  }

  /** `p` mirrored through `c`. */
  function Reflect(p: Point2, c: Point2): (q: Point2)
    ensures Point2((p.x + q.x) / 2.0, (p.y + q.y) / 2.0) == c
  {
    Point2(2.0 * c.x - p.x, 2.0 * c.y - p.y)
  }

  /** The circle's test agrees with the region classifier's `in_circle`: inside means not `Outside`. */
  lemma CircleMatchesInCircle(circle: Circle, p: Point2)
    ensures circle.InOut(p) <==> CircleRegions.InCircle(p, circle.center, circle.radius).1 != CircleRegions.Outside
  {
  }

  /** Points on the rim count as inside. */
  lemma RimIsInside(circle: Circle, p: Point2)
    requires SquaredDistance(p, circle.center) == circle.radius * circle.radius
    ensures circle.InOut(p)
  {
  }

  /** The centre is inside for every radius, even zero or negative. */
  lemma CenterIsInside(circle: Circle)
    ensures circle.InOut(circle.center)
  {
    SquareNonNegative(circle.radius);
  }

  /** A point and its mirror image through the centre get the same answer. */
  lemma ReflectionKeepsAnswer(circle: Circle, p: Point2)
    ensures circle.InOut(Reflect(p, circle.center)) == circle.InOut(p)
  {
    var c, q := circle.center, Reflect(p, circle.center);
    assert q.x - c.x == -(p.x - c.x) && q.y - c.y == -(p.y - c.y);
    assert (q.x - c.x) * (q.x - c.x) == (p.x - c.x) * (p.x - c.x);
    assert (q.y - c.y) * (q.y - c.y) == (p.y - c.y) * (p.y - c.y);
  }

  /** A circle is the implicit shape of the field `dx^2 + dy^2 - r^2`: both tests agree everywhere. */
  lemma CircleIsImplicit(circle: Circle, p: Point2)
    ensures ImplicitFunction(q => SquaredDistance(q, circle.center) - circle.radius * circle.radius).InOut(p)
        == circle.InOut(p)
  {
  }
}
