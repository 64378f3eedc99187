/**
 * `rotate_point` of the rotated rasterizer: a point turned about a pivot by
 * the inverse of an angle. Cosine and sine are given as functions.
 */
module Rotation {
  import opened Points2D

  /** `rotate_point(x, y, cx, cy, angle)`: the offset from the pivot turned by `-angle`, moved back. */
  function RotatePoint(p: Point2, pivot: Point2, angle: real, cos: real -> real, sin: real -> real): (q: Point2)
    ensures q.x - pivot.x == (p.x - pivot.x) * cos(angle) + (p.y - pivot.y) * sin(angle)
    ensures q.y - pivot.y == -(p.x - pivot.x) * sin(angle) + (p.y - pivot.y) * cos(angle)
  {
    var tx, ty := p.x - pivot.x, p.y - pivot.y;
    var cosA, sinA := cos(angle), sin(angle);
    var rx := tx * cosA + ty * sinA;
    var ry := -tx * sinA + ty * cosA;
    Point2(rx + pivot.x, ry + pivot.y)
  }

  /** The forward rotation by `angle` about the pivot, which `rotate_point` is meant to undo. */
  function RotateForward(p: Point2, pivot: Point2, angle: real, cos: real -> real, sin: real -> real): Point2 {
    var tx, ty := p.x - pivot.x, p.y - pivot.y;
    Point2(tx * cos(angle) - ty * sin(angle) + pivot.x, tx * sin(angle) + ty * cos(angle) + pivot.y)
  }

  /** The pivot stays put whatever the angle. */
  lemma PivotIsFixed(pivot: Point2, angle: real, cos: real -> real, sin: real -> real)
    ensures RotatePoint(pivot, pivot, angle, cos, sin) == pivot
  {
  }

  /** An angle with cosine 1 and sine 0 leaves every point where it is. */
  lemma ZeroTurnIsIdentity(p: Point2, pivot: Point2, angle: real, cos: real -> real, sin: real -> real)
    requires cos(angle) == 1.0 && sin(angle) == 0.0
    ensures RotatePoint(p, pivot, angle, cos, sin) == p
  {
  }

  /** `(u c + v s)^2 + (-u s + v c)^2 = (u^2 + v^2)(c^2 + s^2)`. */
  lemma TurnedLength(u: real, v: real, c: real, s: real)
    ensures (u * c + v * s) * (u * c + v * s) + (-u * s + v * c) * (-u * s + v * c)
         == (u * u + v * v) * (c * c + s * s)
  {
  }

  /** When `cos^2 + sin^2 = 1` the distance to the pivot is kept. */
  lemma KeepsDistance(p: Point2, pivot: Point2, angle: real, cos: real -> real, sin: real -> real)
    requires cos(angle) * cos(angle) + sin(angle) * sin(angle) == 1.0
    ensures SquaredDistance(RotatePoint(p, pivot, angle, cos, sin), pivot) == SquaredDistance(p, pivot)
  {
    TurnedLength(p.x - pivot.x, p.y - pivot.y, cos(angle), sin(angle));
  }

  /** Turning `(u, v)` by the angle and then back by its inverse gives `(u, v)` again. */
  lemma TurnBack(a: real, b: real, u: real, v: real, c: real, s: real)
    requires a == u * c - v * s && b == u * s + v * c && c * c + s * s == 1.0
    ensures a * c + b * s == u && -a * s + b * c == v
  {
    assert a * c + b * s == u * (c * c + s * s);
    assert -a * s + b * c == v * (c * c + s * s);
  }

  /** Turning `(u, v)` by the inverse of the angle and then forward by it gives `(u, v)` again. */
  lemma TurnForward(a: real, b: real, u: real, v: real, c: real, s: real)
    requires a == u * c + v * s && b == -u * s + v * c && c * c + s * s == 1.0
    ensures a * c - b * s == u && a * s + b * c == v
  {
    assert a * c - b * s == u * (c * c + s * s);
    assert a * s + b * c == v * (c * c + s * s);
  }

  /** When `cos^2 + sin^2 = 1`, `rotate_point` undoes the forward rotation. */
  lemma UndoesForward(p: Point2, pivot: Point2, angle: real, cos: real -> real, sin: real -> real)
    requires cos(angle) * cos(angle) + sin(angle) * sin(angle) == 1.0
    ensures RotatePoint(RotateForward(p, pivot, angle, cos, sin), pivot, angle, cos, sin) == p
  {
    var f := RotateForward(p, pivot, angle, cos, sin);
    TurnBack(f.x - pivot.x, f.y - pivot.y, p.x - pivot.x, p.y - pivot.y, cos(angle), sin(angle));
  }

  /** When `cos^2 + sin^2 = 1`, the forward rotation undoes `rotate_point`. */
  lemma ForwardUndoes(p: Point2, pivot: Point2, angle: real, cos: real -> real, sin: real -> real)
    requires cos(angle) * cos(angle) + sin(angle) * sin(angle) == 1.0
    ensures RotateForward(RotatePoint(p, pivot, angle, cos, sin), pivot, angle, cos, sin) == p
  {
    var r := RotatePoint(p, pivot, angle, cos, sin);
    TurnForward(r.x - pivot.x, r.y - pivot.y, p.x - pivot.x, p.y - pivot.y, cos(angle), sin(angle));
  }
}
