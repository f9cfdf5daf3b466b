/** Model of `Lambertian::scatter` (src/materials.rs). The random unit vector that the source
    draws (`DVec3::random_unit_vector()`) is a parameter. */
module Scattering {
  import opened Vectors
  import opened Rays
  import opened Wrappers
  import opened Materials
  import opened HitRecords

  /** The tolerance of the degeneracy test, `1e-8`. */
  const Tolerance: real := 0.00000001

  /** `v.abs_diff_eq(DVec3::ZERO, 1e-8)`: every component within the tolerance of zero. */
  predicate NearZero(v: Vec3) {
    -Tolerance <= v.x <= Tolerance && -Tolerance <= v.y <= Tolerance && -Tolerance <= v.z <= Tolerance
  }

  /** A diffuse bounce: the scattered ray leaves the hit point along `normal + unit`, or along the
      normal when that sum is degenerate, and is attenuated by the albedo. It never absorbs. */
  function Scatter(m: Material, rIn: Ray, rec: HitRecord, unit: Vec3): (res: Option<(Ray, Vec3)>)
    ensures res.Some?
    ensures res.value.0.origin == rec.p
    ensures res.value.1 == m.albedo
    ensures !NearZero(Add(rec.normal, unit)) ==> res.value.0.direction == Add(rec.normal, unit)
    ensures NearZero(Add(rec.normal, unit)) ==> res.value.0.direction == rec.normal
  {
    var direction := if NearZero(Add(rec.normal, unit)) then rec.normal else Add(rec.normal, unit);
    Some((Ray(rec.p, direction), m.albedo))
  }

  /** The scattered direction is degenerate only if the normal itself is. */
  lemma ScatterNeverDegenerate(m: Material, rIn: Ray, rec: HitRecord, unit: Vec3)
    requires !NearZero(rec.normal)
    ensures !NearZero(Scatter(m, rIn, rec, unit).value.0.direction)
  {
  }

  /** The incoming ray plays no part in a Lambertian bounce. */
  lemma ScatterIgnoresIncomingRay(m: Material, rIn: Ray, other: Ray, rec: HitRecord, unit: Vec3)
    ensures Scatter(m, rIn, rec, unit) == Scatter(m, other, rec, unit)
  {
  }
}
