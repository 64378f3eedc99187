/**
 * The adaptive subdivision `explore` shared by the two region classifiers:
 * a box whose classification is undecided (0) is split into four quadrants
 * until the level budget runs out.
 */
module Quadtree {

  /** An axis-aligned box `[xMin, xMax] x [yMin, yMax]`. */
  datatype Box = Box(xMin: real, xMax: real, yMin: real, yMax: real)

  /** An entry `(xmin, xmax, ymin, ymax, tipo)` of the list `explore` returns. */
  datatype Square = Square(box: Box, tag: int)

  predicate WellFormed(b: Box) { b.xMin <= b.xMax && b.yMin <= b.yMax }

  predicate Contains(b: Box, x: real, y: real) { b.xMin <= x <= b.xMax && b.yMin <= y <= b.yMax }

  /** `outer` covers `inner`. */
  predicate Within(inner: Box, outer: Box) {
    outer.xMin <= inner.xMin && inner.xMax <= outer.xMax && outer.yMin <= inner.yMin && inner.yMax <= outer.yMax
  }

  function Area(b: Box): real { (b.xMax - b.xMin) * (b.yMax - b.yMin) }

  function XMid(b: Box): real { (b.xMin + b.xMax) / 2.0 }

  function YMid(b: Box): real { (b.yMin + b.yMax) / 2.0 }

  // The four quadrants, visited in the order lower-left, lower-right, upper-left, upper-right.

  function LowerLeft(b: Box): Box { Box(b.xMin, XMid(b), b.yMin, YMid(b)) }

  function LowerRight(b: Box): Box { Box(XMid(b), b.xMax, b.yMin, YMid(b)) }

  function UpperLeft(b: Box): Box { Box(b.xMin, XMid(b), YMid(b), b.yMax) }

  function UpperRight(b: Box): Box { Box(XMid(b), b.xMax, YMid(b), b.yMax) }

  function Quadrants(b: Box): seq<Box> { [LowerLeft(b), LowerRight(b), UpperLeft(b), UpperRight(b)] }

  function Pow4(n: nat): (p: nat)
    ensures p >= 1
  {
    if n == 0 then 1 else 4 * Pow4(n - 1)
  }

  /**
   * `explore`: a decided box, or any box at level 0, is returned alone with
   * its classification; otherwise the results for the four quadrants are
   * concatenated in quadrant order. Every square comes back tagged with what
   * `classify` says of it.
   */
  function Explore(b: Box, level: nat, classify: Box -> int): (r: seq<Square>)
    ensures forall i :: 0 <= i < |r| ==> r[i].tag == classify(r[i].box)
    ensures classify(b) != 0 || level == 0 ==> r == [Square(b, classify(b))]
    decreases level, 0, 0
  {
    var tag := classify(b);
    if tag != 0 || level == 0 then [Square(b, tag)]
    else ExploreEach(Quadrants(b), level - 1, classify)
  }

  /** The results of `explore` for each of `boxes`, concatenated (the four `resultado +=` lines). */
  function ExploreEach(boxes: seq<Box>, level: nat, classify: Box -> int): (r: seq<Square>)
    ensures forall i :: 0 <= i < |r| ==> r[i].tag == classify(r[i].box)
    decreases level, 1, |boxes|
  {
    if boxes == [] then [] else Explore(boxes[0], level, classify) + ExploreEach(boxes[1..], level, classify)
  }

  /** `explore` returns at least one and at most `4^level` squares. */
  lemma {:induction false} ExploreCount(b: Box, level: nat, classify: Box -> int)
    ensures 1 <= |Explore(b, level, classify)| <= Pow4(level)
    decreases level, 0, 0
  {
    if classify(b) != 0 || level == 0 {
    } else {
      EachCount(Quadrants(b), level - 1, classify);
    }
  }

  lemma {:induction false} EachCount(boxes: seq<Box>, level: nat, classify: Box -> int)
    ensures |boxes| <= |ExploreEach(boxes, level, classify)| <= |boxes| * Pow4(level)
    decreases level, 1, |boxes|
  {
    if boxes != [] {
      ExploreCount(boxes[0], level, classify);
      EachCount(boxes[1..], level, classify);
      assert (|boxes| - 1) * Pow4(level) + Pow4(level) == |boxes| * Pow4(level);
    }
  }

  /** The sum of `measure` over the boxes of `squares`. */
  function Total(squares: seq<Square>, measure: Box -> real): real {
    if squares == [] then 0.0 else measure(squares[0].box) + Total(squares[1..], measure)
  }

  /** The sum of `measure` over `boxes`. */
  function Sum(boxes: seq<Box>, measure: Box -> real): real {
    if boxes == [] then 0.0 else measure(boxes[0]) + Sum(boxes[1..], measure)
  }

  lemma {:induction false} TotalAppend(a: seq<Square>, b: seq<Square>, measure: Box -> real)
    ensures Total(a + b, measure) == Total(a, measure) + Total(b, measure)
    decreases |a|
  {
    if a == [] {
      assert a + b == b;
    } else {
      assert (a + b)[0] == a[0] && (a + b)[1..] == a[1..] + b;
      TotalAppend(a[1..], b, measure);
    }
  }

  /** A measure the four quadrants of any box share out exactly. */
  ghost predicate Additive(measure: Box -> real) {
    forall b: Box {:trigger Quadrants(b)} :: Sum(Quadrants(b), measure) == measure(b)
  }

  /** The quadrants have the box's area between them. */
  lemma QuadrantAreas(b: Box)
    ensures Sum(Quadrants(b), Area) == Area(b)
  {
    var xm, ym := XMid(b), YMid(b);
    var w1, w2, h1, h2 := xm - b.xMin, b.xMax - xm, ym - b.yMin, b.yMax - ym;
    assert w1 * h1 + w2 * h1 + w1 * h2 + w2 * h2 == (w1 + w2) * (h1 + h2);
    SumOfFour(Quadrants(b), Area);
  }

  lemma SumOfFour(q: seq<Box>, measure: Box -> real)
    requires |q| == 4
    ensures Sum(q, measure) == measure(q[0]) + measure(q[1]) + measure(q[2]) + measure(q[3])
  {
    var q1, q2, q3 := q[1..], q[2..], q[3..];
    assert q1[1..] == q2 && q2[1..] == q3 && q3[1..] == [];
    assert Sum(q3, measure) == measure(q[3]);
    assert Sum(q2, measure) == measure(q[2]) + Sum(q3, measure);
    assert Sum(q1, measure) == measure(q[1]) + Sum(q2, measure);
  }

  lemma AreaIsAdditive()
    ensures Additive(Area)
  {
    forall b: Box {
      QuadrantAreas(b);
    }
  }

  /** For an additive measure, the squares `explore` returns measure what the box measures. */
  lemma {:induction false} ExploreKeepsMeasure(b: Box, level: nat, classify: Box -> int, measure: Box -> real)
    requires Additive(measure)
    ensures Total(Explore(b, level, classify), measure) == measure(b)
    decreases level, 0, 0
  {
    if classify(b) != 0 || level == 0 {
      assert [Square(b, classify(b))][1..] == [];
    } else {
      EachKeepsMeasure(Quadrants(b), level - 1, classify, measure);
    }
  }

  lemma {:induction false} EachKeepsMeasure(boxes: seq<Box>, level: nat, classify: Box -> int, measure: Box -> real)
    requires Additive(measure)
    ensures Total(ExploreEach(boxes, level, classify), measure) == Sum(boxes, measure)
    decreases level, 1, |boxes|
  {
    if boxes != [] {
      ExploreKeepsMeasure(boxes[0], level, classify, measure);
      EachKeepsMeasure(boxes[1..], level, classify, measure);
      TotalAppend(Explore(boxes[0], level, classify), ExploreEach(boxes[1..], level, classify), measure);
    }
  }

  /** The areas of the squares `explore` returns add up to the area of the box it was given. */
  lemma ExploreKeepsArea(b: Box, level: nat, classify: Box -> int)
    ensures Total(Explore(b, level, classify), Area) == Area(b)
  {
    AreaIsAdditive();
    ExploreKeepsMeasure(b, level, classify, Area);
  }

  /** The quadrants of a well-formed box are well-formed and lie inside it. */
  lemma QuadrantsWithin(b: Box)
    requires WellFormed(b)
    ensures forall q :: q in Quadrants(b) ==> WellFormed(q) && Within(q, b)
  {
  }

  /**
   * Every square `explore` returns for a well-formed box is well-formed and
   * inside that box; together with `ExploreKeepsArea` the squares cover it.
   */
  lemma {:induction false} ExploreWithin(b: Box, level: nat, classify: Box -> int)
    requires WellFormed(b)
    ensures forall s :: s in Explore(b, level, classify) ==> WellFormed(s.box) && Within(s.box, b)
    decreases level, 0, 0
  {
    if classify(b) != 0 || level == 0 {
    } else {
      QuadrantsWithin(b);
      EachWithin(Quadrants(b), b, level - 1, classify);
    }
  }

  lemma {:induction false} EachWithin(boxes: seq<Box>, outer: Box, level: nat, classify: Box -> int)
    requires forall q :: q in boxes ==> WellFormed(q) && Within(q, outer)
    ensures forall s :: s in ExploreEach(boxes, level, classify) ==> WellFormed(s.box) && Within(s.box, outer)
    decreases level, 1, |boxes|
  {
    if boxes != [] {
      assert boxes[0] in boxes;
      ExploreWithin(boxes[0], level, classify);
      assert forall q :: q in boxes[1..] ==> q in boxes;
      EachWithin(boxes[1..], outer, level, classify);
    }
  }
}
