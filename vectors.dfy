/** Three-component real vectors: the part of glam's `DVec3` the tracer uses.
    Components are exact reals; IEEE-754 rounding is not modelled. */
module Vectors {
  import opened RealFacts

  datatype Vec3 = Vec3(x: real, y: real, z: real)

  const Zero: Vec3 := Vec3(0.0, 0.0, 0.0)
  const One: Vec3 := Vec3(1.0, 1.0, 1.0)

  function Add(u: Vec3, v: Vec3): Vec3 {
    Vec3(u.x + v.x, u.y + v.y, u.z + v.z)
  }

  function Sub(u: Vec3, v: Vec3): Vec3 {
    Vec3(u.x - v.x, u.y - v.y, u.z - v.z)
  }

  function Neg(v: Vec3): Vec3 {
    Vec3(-v.x, -v.y, -v.z)
  }

  /** `k * v` */
  function Scale(k: real, v: Vec3): Vec3 {
    Vec3(k * v.x, k * v.y, k * v.z)
  }

  /** `v / k`, component by component */
  function Div(v: Vec3, k: real): Vec3
    requires k != 0.0
  {
    Vec3(v.x / k, v.y / k, v.z / k)
  }

  function Dot(u: Vec3, v: Vec3): real {
    u.x * v.x + u.y * v.y + u.z * v.z
  }

  function LengthSquared(v: Vec3): real {
    Dot(v, v)
  }

  /** A vector of length at most one has every component in [-1, 1]. */
  lemma {:induction false} ComponentsOfShortVector(v: Vec3)
    requires LengthSquared(v) <= 1.0
    ensures -1.0 <= v.x <= 1.0 && -1.0 <= v.y <= 1.0 && -1.0 <= v.z <= 1.0
  {
    assert v.x * v.x >= 0.0 && v.y * v.y >= 0.0 && v.z * v.z >= 0.0;
    SquareAtMostOne(v.x);
    SquareAtMostOne(v.y);
    SquareAtMostOne(v.z);
  }

  /** Only the zero vector has length zero. */
  lemma {:induction false} ZeroLength(v: Vec3)
    ensures LengthSquared(v) == 0.0 <==> v == Zero
  {
    assert v.x * v.x >= 0.0 && v.y * v.y >= 0.0 && v.z * v.z >= 0.0;
    if LengthSquared(v) == 0.0 {
      ZeroProduct(v.x, v.x);
      ZeroProduct(v.y, v.y);
      ZeroProduct(v.z, v.z);
    }
  }

}
