/** Model of `Sphere`, `Sphere::new` and `Sphere::hit` (src/shapes.rs).
    `Sphere::new` is the datatype constructor: centre, radius and material are stored unchanged.
    The square root of the discriminant is supplied as a value `sq` with `sq >= 0` and
    `sq * sq == discriminant`, instead of being computed. */
module Shapes {
  import opened Vectors
  import opened RealFacts
  import opened Rays
  import opened Wrappers
  import opened Materials
  import opened HitRecords

  datatype Sphere = Sphere(center: Vec3, radius: real, material: Material)

  /** `oc = origin - center` */
  function Oc(s: Sphere, r: Ray): Vec3 {
    Sub(r.origin, s.center)
  }

  /** `a = |direction|²` */
  function QuadA(r: Ray): real {
    LengthSquared(r.direction)
  }

  /** `half_b = oc · direction` */
  function HalfB(s: Sphere, r: Ray): real {
    Dot(Oc(s, r), r.direction)
  }

  /** `c = |oc|² - radius²` */
  function QuadC(s: Sphere, r: Ray): real {
    LengthSquared(Oc(s, r)) - s.radius * s.radius
  }

  function Discriminant(s: Sphere, r: Ray): real {
    HalfB(s, r) * HalfB(s, r) - QuadA(r) * QuadC(s, r)
  }

  /** `sq` is the square root of `d` whenever `d` has one. */
  predicate SqrtOf(sq: real, d: real) {
    d >= 0.0 ==> sq >= 0.0 && sq * sq == d
  }

  /** The preconditions of `Hit`: a non-degenerate direction (`a > 0`), a radius one can
      divide by, and an exact square root of the discriminant. */
  predicate HitDefined(s: Sphere, r: Ray, sq: real) {
    QuadA(r) > 0.0 && s.radius != 0.0 && SqrtOf(sq, Discriminant(s, r))
  }

  /** `(-half_b - sqrt) / a`, the root tried first */
  function NearRoot(s: Sphere, r: Ray, sq: real): real
    requires QuadA(r) > 0.0
  {
    (-HalfB(s, r) - sq) / QuadA(r)
  }

  /** `(-half_b + sqrt) / a`, the fallback root */
  function FarRoot(s: Sphere, r: Ray, sq: real): real
    requires QuadA(r) > 0.0
  {
    (-HalfB(s, r) + sq) / QuadA(r)
  }

  /** The point `p` lies on the sphere's surface. */
  predicate OnSurface(s: Sphere, p: Vec3) {
    LengthSquared(Sub(p, s.center)) == s.radius * s.radius
  }

  /** The record built for a hit at `t`: the point `r.at(t)` and the outward normal
      `(p - center) / radius`, passed through `with_face_normal`. */
  function SurfaceRecord(s: Sphere, r: Ray, t: real): (rec: HitRecord)
    requires s.radius != 0.0
    ensures rec.p == At(r, t) && rec.t == t && rec.material == None
    ensures Dot(r.direction, rec.normal) <= 0.0
  {
    var p := At(r, t);
    WithFaceNormal(p, Div(Sub(p, s.center), s.radius), t, r)
  }

  function Hit(s: Sphere, r: Ray, sq: real, range: Interval): (res: Option<HitRecord>)
    requires HitDefined(s, r, sq)
    ensures Discriminant(s, r) < 0.0 ==> res == None
    ensures res.Some? ==> res.value.t == NearRoot(s, r, sq) || res.value.t == FarRoot(s, r, sq)
    ensures res.Some? ==> Contains(range, res.value.t) && res.value == SurfaceRecord(s, r, res.value.t)
    ensures res.Some? ==> Dot(r.direction, res.value.normal) <= 0.0 && res.value.material == None
  {
    if Discriminant(s, r) < 0.0 then None
    else
      var near := NearRoot(s, r, sq);
      if !Contains(range, near) then
        var far := FarRoot(s, r, sq);
        if !Contains(range, far) then None
        else Some(SurfaceRecord(s, r, far))
      else Some(SurfaceRecord(s, r, near))
  }

  // ---------------------------------------------------------------------------------------
  // The algebra behind the root selection

  /** The point at `t` lies on the sphere exactly when `t` solves `a t² + 2 half_b t + c = 0`. */
  lemma {:induction false} SurfaceQuadratic(s: Sphere, r: Ray, t: real)
    ensures OnSurface(s, At(r, t))
        <==> QuadA(r) * t * t + 2.0 * HalfB(s, r) * t + QuadC(s, r) == 0.0
  {
    var oc, d := Oc(s, r), r.direction;
    var w := Sub(At(r, t), s.center);
    assert w == Vec3(oc.x + t * d.x, oc.y + t * d.y, oc.z + t * d.z);
    SquareOfSum(oc.x, d.x, t);
    SquareOfSum(oc.y, d.y, t);
    SquareOfSum(oc.z, d.z, t);
    assert LengthSquared(w) == LengthSquared(oc) + 2.0 * t * Dot(oc, d) + t * t * LengthSquared(d);
  }

  /** With `a > 0` and `sq` the square root of the discriminant, the quadratic's zeros are
      exactly the two roots, the near one first; with a negative discriminant it has none. */
  lemma {:induction false} QuadraticRoots(a: real, halfB: real, c: real, sq: real, t: real)
    requires a > 0.0
    requires SqrtOf(sq, halfB * halfB - a * c)
    ensures halfB * halfB - a * c < 0.0 ==> a * t * t + 2.0 * halfB * t + c != 0.0
    ensures halfB * halfB - a * c >= 0.0 ==>
      (-halfB - sq) / a <= (-halfB + sq) / a &&
      (a * t * t + 2.0 * halfB * t + c == 0.0 <==> t == (-halfB - sq) / a || t == (-halfB + sq) / a)
  {
    var u := a * t + halfB;
    var q := a * t * t + 2.0 * halfB * t + c;
    CompletedSquare(a, halfB, c, t);
    PositiveFactor(a, q);
    assert u * u >= 0.0;
    if halfB * halfB - a * c >= 0.0 {
      DifferenceOfSquares(u, sq);
      ZeroProduct(u - sq, u + sq);
      DivisionByPositive(a, t, -halfB + sq);
      DivisionByPositive(a, t, -halfB - sq);
      DivisionMonotone(a, -halfB - sq, -halfB + sq);
    }
  }

  /** A parameter puts the ray on the sphere exactly when it is one of the two roots
      (and there are none when the discriminant is negative). */
  lemma {:induction false} SurfaceRoots(s: Sphere, r: Ray, sq: real, t: real)
    requires HitDefined(s, r, sq)
    ensures Discriminant(s, r) < 0.0 ==> !OnSurface(s, At(r, t))
    ensures Discriminant(s, r) >= 0.0 ==>
      NearRoot(s, r, sq) <= FarRoot(s, r, sq) &&
      (OnSurface(s, At(r, t)) <==> t == NearRoot(s, r, sq) || t == FarRoot(s, r, sq))
  {
    SurfaceQuadratic(s, r, t);
    QuadraticRoots(QuadA(r), HalfB(s, r), QuadC(s, r), sq, t);
  }

  // ---------------------------------------------------------------------------------------
  // What `hit` promises

  /** `hit` reports the nearest point of the sphere along the ray inside the range, and
      reports nothing exactly when no point of the sphere lies inside the range. */
  lemma {:induction false} HitIsNearest(s: Sphere, r: Ray, sq: real, range: Interval)
    requires HitDefined(s, r, sq)
    ensures Hit(s, r, sq, range).Some? ==>
      OnSurface(s, At(r, Hit(s, r, sq, range).value.t)) &&
      forall t :: Contains(range, t) && OnSurface(s, At(r, t)) ==> Hit(s, r, sq, range).value.t <= t
    ensures Hit(s, r, sq, range).None? ==>
      forall t :: Contains(range, t) ==> !OnSurface(s, At(r, t))
  {
    var res := Hit(s, r, sq, range);
    if res.Some? {
      SurfaceRoots(s, r, sq, res.value.t);
    }
    forall t | Contains(range, t) && OnSurface(s, At(r, t))
      ensures res.Some? && res.value.t <= t
    {
      SurfaceRoots(s, r, sq, t);
    }
  }

  /** The reported `t` is a zero of `a t² + 2 half_b t + c`. */
  lemma {:induction false} HitSolvesQuadratic(s: Sphere, r: Ray, sq: real, range: Interval)
    requires HitDefined(s, r, sq)
    requires Hit(s, r, sq, range).Some?
    ensures var t := Hit(s, r, sq, range).value.t;
      QuadA(r) * t * t + 2.0 * HalfB(s, r) * t + QuadC(s, r) == 0.0
  {
    var t := Hit(s, r, sq, range).value.t;
    SurfaceRoots(s, r, sq, t);
    SurfaceQuadratic(s, r, t);
  }

  /** The near root is taken whenever it is in range; the far root only when the near one is not;
      a sphere lying wholly before `start` (both roots smaller) gives no hit. */
  lemma {:induction false} HitRootPreference(s: Sphere, r: Ray, sq: real, range: Interval)
    requires HitDefined(s, r, sq) && Discriminant(s, r) >= 0.0
    ensures Contains(range, NearRoot(s, r, sq)) ==> Hit(s, r, sq, range).value.t == NearRoot(s, r, sq)
    ensures !Contains(range, NearRoot(s, r, sq)) && Contains(range, FarRoot(s, r, sq)) ==>
      Hit(s, r, sq, range).value.t == FarRoot(s, r, sq)
    ensures FarRoot(s, r, sq) < range.start ==> Hit(s, r, sq, range) == None
  {
    SurfaceRoots(s, r, sq, 0.0);
  }

  /** On a hit the stored normal has unit length, as `(p - center) / radius` does for a point
      on the surface. */
  lemma {:induction false} HitNormalIsUnit(s: Sphere, r: Ray, sq: real, range: Interval)
    requires HitDefined(s, r, sq)
    requires Hit(s, r, sq, range).Some?
    ensures LengthSquared(Hit(s, r, sq, range).value.normal) == 1.0
  {
    var rec := Hit(s, r, sq, range).value;
    HitIsNearest(s, r, sq, range);
    UnitOutwardNormal(Sub(rec.p, s.center), s.radius);
    assert rec.normal == Div(Sub(rec.p, s.center), s.radius) || rec.normal == Neg(Div(Sub(rec.p, s.center), s.radius));
  }

  /** Dividing a vector of length `|radius|` by the radius gives a unit vector. */
  lemma {:induction false} UnitOutwardNormal(w: Vec3, radius: real)
    requires radius != 0.0 && LengthSquared(w) == radius * radius
    ensures LengthSquared(Div(w, radius)) == 1.0
  {
    var n := Div(w, radius);
    var k := radius * radius;
    QuotientSquare(n.x, w.x, radius);
    QuotientSquare(n.y, w.y, radius);
    QuotientSquare(n.z, w.z, radius);
    Distribute(n.x * n.x, n.y * n.y, n.z * n.z, k);
    assert LengthSquared(n) * k == LengthSquared(w);
    ZeroProduct(radius, radius);
    UnitQuotient(LengthSquared(n), k);
  }

  /** Narrowing the end of the range keeps the hit when its `t` is still below the new end
      and loses it otherwise; this is what lets the list search shrink its range. */
  lemma {:induction false} HitNarrowed(s: Sphere, r: Ray, sq: real, start: real, wide: Bound, narrow: Bound)
    requires HitDefined(s, r, sq)
    requires AtMost(narrow, wide)
    ensures var h := Hit(s, r, sq, Interval(start, wide));
      Hit(s, r, sq, Interval(start, narrow)) ==
        if h.Some? && Below(h.value.t, narrow) then h else None
  {
    if Discriminant(s, r) >= 0.0 {
      SurfaceRoots(s, r, sq, 0.0);
    }
  }
}
