/** Points of the plane, the `(x, y)` pairs of the 2-D rasterizer and region code. */
module Points2D {

  datatype Point2 = Point2(x: real, y: real)

  /** `dx * dx + dy * dy` for the offset of `p` from `q`. */
  function SquaredDistance(p: Point2, q: Point2): real {
    (p.x - q.x) * (p.x - q.x) + (p.y - q.y) * (p.y - q.y)
  }
}
