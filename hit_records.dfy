/** Model of `HitRecord` and `HitRecord::with_face_normal` (src/hittable.rs), together with
    the half-open parameter range `start..end` that every `hit` query takes. */
module HitRecords {
  import opened Vectors
  import opened Rays
  import opened Wrappers
  import opened Materials

  /** The upper end of a range: a finite real, or `f64::INFINITY`. */
  datatype Bound = Finite(value: real) | PosInfinity

  /** `t < b` */
  predicate Below(t: real, b: Bound) {
    b.PosInfinity? || t < b.value
  }

  /** `a <= b` on bounds */
  predicate AtMost(a: Bound, b: Bound) {
    b.PosInfinity? || (a.Finite? && a.value <= b.value)
  }

  /** Rust's `Range<f64>`, i.e. `start..end`. */
  datatype Interval = Interval(start: real, end: Bound)

  /** `Range::contains`: the range is closed at the start and open at the end. */
  predicate Contains(range: Interval, t: real) {
    range.start <= t && Below(t, range.end)
  }

  datatype HitRecord = HitRecord(p: Vec3, normal: Vec3, material: Option<Material>, t: real, frontFace: bool)

  /** Builds the record of a hit from the outward normal, classifying the side that was struck
      and turning the stored normal against the ray. */
  function WithFaceNormal(p: Vec3, outwardNormal: Vec3, t: real, r: Ray): (rec: HitRecord)
    ensures rec.frontFace <==> Dot(r.direction, outwardNormal) < 0.0
    ensures rec.frontFace ==> rec.normal == outwardNormal
    ensures !rec.frontFace ==> rec.normal == Neg(outwardNormal)
    ensures Dot(r.direction, rec.normal) <= 0.0
    ensures LengthSquared(rec.normal) == LengthSquared(outwardNormal)
    ensures rec.p == p && rec.t == t && rec.material == None
  {
    var frontFace := Dot(r.direction, outwardNormal) < 0.0;
    HitRecord(p, if frontFace then outwardNormal else Neg(outwardNormal), None, t, frontFace)
  }
}
