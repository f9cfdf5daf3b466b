/** Model of the `Lambertian` material value (src/materials.rs). `Lambertian::new` is the
    datatype constructor: the albedo it stores is exactly the colour it is given.
    `Lambertian` is the only implementation of the `Material` trait. */
module Materials {
  import opened Vectors

  datatype Material = Lambertian(albedo: Vec3)
}
