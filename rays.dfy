/** Model of `Ray` and `Ray::at` (src/ray.rs). `Ray::new` is the datatype constructor,
    which stores origin and direction unchanged. */
module Rays {
  import opened Vectors

  datatype Ray = Ray(origin: Vec3, direction: Vec3)

  /** The point reached after travelling `t` times the direction from the origin. */
  function At(r: Ray, t: real): (p: Vec3)
    ensures Sub(p, r.origin) == Scale(t, r.direction)
    ensures t == 0.0 ==> p == r.origin
  {
    Add(r.origin, Scale(t, r.direction))
  }
}
