/**
 * The result every intersection test returns (`HitRecord` of the ray tracer)
 * and the constants the shapes share.
 *
 * `HitRecord`'s constructor is defined in src/base.py, which is not part of
 * this model; its defaults are taken to be t = +infinity and no point, normal,
 * material or uv.
 */
module Hits {
  import opened Wrappers
  import opened Vectors

  /** A ray parameter that may be +infinity (`float('inf')`). */
  datatype Param = Finite(value: real) | Infinity

  /** An opaque material handle. */
  datatype Material = Material(id: nat)

  datatype HitRecord = HitRecord(
    hit: bool,
    t: Param,
    point: Option<Vec3>,
    normal: Option<Vec3>,
    material: Option<Material>,
    uv: Option<Vec3>)

  /** The self-intersection floor shared by all shapes (src/base.py is not part of this model). */
  const CastEpsilon: real := 0.0001

  /** `HitRecord(False)` and `HitRecord(False, float('inf'), None, None)`. */
  const Miss := HitRecord(false, Infinity, None, None, None, None)

  /** `HitRecord(True, t, point, normal)`. */
  function HitAt(t: real, point: Vec3, normal: Vec3): HitRecord {
    HitRecord(true, Finite(t), Some(point), Some(normal), None, None)
  }

  /** `t` is strictly below the extended parameter `bound`. */
  predicate Below(t: real, bound: Param) {
    bound.Infinity? || t < bound.value
  }
}
