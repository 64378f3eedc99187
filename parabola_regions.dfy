/**
 * Boxes classified against the parabola `y = x^2 - c`: 1 when the box lies
 * above it, -1 when below, 0 when the curve may cross it; `explore` refines
 * the undecided boxes.
 */
module ParabolaRegions {
  import opened Quadtree
  import opened RealArith

  /** The parabola's height at the box's left and right edges. */
  function LeftHeight(b: Box, c: real): real { b.xMin * b.xMin - c }

  function RightHeight(b: Box, c: real): real { b.xMax * b.xMax - c }

  /** The lowest the parabola gets over `[xMin, xMax]`: its vertex when the range holds 0, else an edge. */
  function Lowest(b: Box, c: real): real {
    if b.xMin <= 0.0 <= b.xMax then -c
    else if LeftHeight(b, c) <= RightHeight(b, c) then LeftHeight(b, c) else RightHeight(b, c)
  }

  /** The highest the parabola gets over `[xMin, xMax]`, at one of the edges. */
  function Highest(b: Box, c: real): real {
    if LeftHeight(b, c) >= RightHeight(b, c) then LeftHeight(b, c) else RightHeight(b, c)
  }

  /** `classify`: 1 when the box's bottom clears the curve, -1 when its top is under it, else 0. */
  function Classify(b: Box, c: real): (r: int)
    ensures r == -1 || r == 0 || r == 1
  {
    if b.yMin > Highest(b, c) then 1
    else if b.yMax < Lowest(b, c) then -1
    else 0
  }

  ghost predicate AllAbove(b: Box, c: real) {
    forall x, y :: Contains(b, x, y) ==> y > x * x - c
  }

  ghost predicate AllBelow(b: Box, c: real) {
    forall x, y :: Contains(b, x, y) ==> y < x * x - c
  }

  /** Over the box's x-range the parabola stays between `Lowest` and `Highest`. */
  lemma HeightBounds(b: Box, c: real, x: real)
    requires b.xMin <= x <= b.xMax
    ensures Lowest(b, c) <= x * x - c <= Highest(b, c)
  {
    if x >= 0.0 {
      SquareAbsMonotonic(x, b.xMax);
    } else {
      SquareAbsMonotonic(x, b.xMin);
    }
    if b.xMin <= 0.0 <= b.xMax {
      SquareNonNegative(x);
    } else if b.xMin > 0.0 {
      SquareAbsMonotonic(b.xMin, x);
    } else {
      SquareAbsMonotonic(b.xMax, x);
    }
  }

  /** Where over the box's x-range the parabola reaches `Lowest`. */
  function LowestAt(b: Box): real {
    if b.xMin <= 0.0 <= b.xMax then 0.0
    else if b.xMin * b.xMin <= b.xMax * b.xMax then b.xMin else b.xMax
  }

  /** Where over the box's x-range the parabola reaches `Highest`. */
  function HighestAt(b: Box): real {
    if b.xMin * b.xMin >= b.xMax * b.xMax then b.xMin else b.xMax
  }

  /** Classification 1 is exact: it is given precisely to the boxes lying strictly above the curve. */
  lemma AboveIsExact(b: Box, c: real)
    requires WellFormed(b)
    ensures Classify(b, c) == 1 <==> AllAbove(b, c)
  {
    if Classify(b, c) == 1 {
      forall x, y | Contains(b, x, y)
        ensures y > x * x - c
      {
        HeightBounds(b, c, x);
      }
    } else {
      var x := HighestAt(b);
      assert Contains(b, x, b.yMin);
    }
  }

  /** Classification -1 is exact: it is given precisely to the boxes lying strictly below the curve. */
  lemma BelowIsExact(b: Box, c: real)
    requires WellFormed(b)
    ensures Classify(b, c) == -1 <==> AllBelow(b, c)
  {
    if Classify(b, c) == -1 {
      forall x, y | Contains(b, x, y)
        ensures y < x * x - c
      {
        HeightBounds(b, c, x);
      }
    } else {
      // Either the lowest corner clears the curve, or the top edge reaches it above `LowestAt`.
      assert Contains(b, b.xMin, b.yMin);
      HeightBounds(b, c, b.xMin);
      assert Contains(b, LowestAt(b), b.yMax);
    }
  }

  /** Every square `explore` reports as above (1) or below (-1) the curve is entirely so; an undecided (0) one is neither. */
  lemma ExploreIsSound(b: Box, level: nat, c: real, s: Square)
    requires WellFormed(b)
    requires s in Explore(b, level, box => Classify(box, c))
    ensures s.tag == 1 ==> AllAbove(s.box, c)
    ensures s.tag == -1 ==> AllBelow(s.box, c)
    ensures s.tag == 0 ==> !AllAbove(s.box, c) && !AllBelow(s.box, c)
  {
    ExploreWithin(b, level, box => Classify(box, c));
    AboveIsExact(s.box, c);
    BelowIsExact(s.box, c);
  }
}
