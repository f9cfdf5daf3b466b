/** Model of `Ray::colour` (src/ray.rs): shade by the normal on a hit, blend the sky on a miss.
    `normalize` is division by the length, and the length is the supplied `sqrt` of `|direction|²`. */
module Shading {
  import opened Vectors
  import opened RealFacts
  import opened Rays
  import opened Wrappers
  import opened HitRecords
  import opened Shapes
  import opened Hittables

  /** The colour at the top of the sky gradient. */
  const SkyBlue: Vec3 := Vec3(0.5, 0.7, 1.0)

  /** The range every camera ray is traced over: `0.0..f64::INFINITY`. */
  const TraceRange: Interval := Interval(0.0, PosInfinity)

  /** What `colour` needs: every object can be queried, and the direction has a nonzero length
      given exactly by `sqrt`. */
  predicate ColourDefined(r: Ray, objects: seq<Sphere>, sqrt: real -> real) {
    ListHitDefined(objects, r, sqrt) && QuadA(r) > 0.0 && SqrtOf(sqrt(QuadA(r)), QuadA(r))
  }

  /** `r.direction.normalize().y` */
  function UnitY(r: Ray, sqrt: real -> real): real
    requires QuadA(r) > 0.0 && SqrtOf(sqrt(QuadA(r)), QuadA(r))
  {
    PositiveRoot(QuadA(r), sqrt(QuadA(r)));
    r.direction.y / sqrt(QuadA(r))
  }

  /** The colour of a hit: `0.5 * (normal + 1)`. */
  function NormalShade(normal: Vec3): Vec3 {
    Scale(0.5, Add(normal, One))
  }

  /** The colour of a miss: `(1 - a) * white + a * sky blue` with `a = 0.5 * (unit_y + 1)`. */
  function Background(unitY: real): Vec3 {
    var a := 0.5 * (unitY + 1.0);
    Add(Scale(1.0 - a, Vec3(1.0, 1.0, 1.0)), Scale(a, SkyBlue))
  }

  /** `colour(world)`, over the objects the list holds. */
  function Colour(r: Ray, objects: seq<Sphere>, sqrt: real -> real): Vec3
    requires ColourDefined(r, objects, sqrt)
  {
    match ListHit(objects, r, sqrt, TraceRange)
    case Some(rec) => NormalShade(rec.normal)
    case None => Background(UnitY(r, sqrt))
  }

  /** A normalised vector's `y` lies in [-1, 1]. */
  lemma {:induction false} UnitYInRange(r: Ray, sqrt: real -> real)
    requires QuadA(r) > 0.0 && SqrtOf(sqrt(QuadA(r)), QuadA(r))
    ensures -1.0 <= UnitY(r, sqrt) <= 1.0
  {
    var d, len := r.direction, sqrt(QuadA(r));
    PositiveRoot(QuadA(r), len);
    assert d.x * d.x + d.z * d.z >= 0.0;
    ComponentOfNormalised(d.y, d.x * d.x + d.z * d.z, len);
  }

  /** `y / len` lies in [-1, 1] when `y² + rest = len²` with `rest >= 0` and `len > 0`. */
  lemma {:induction false} ComponentOfNormalised(y: real, rest: real, len: real)
    requires len > 0.0 && rest >= 0.0 && y * y + rest == len * len
    ensures -1.0 <= y / len <= 1.0
  {
    if y > len {
      SquareMonotone(y, len);
    }
    if y < -len {
      SquareMonotone(-y, len);
    }
    DivisionMonotone(len, y, len);
    DivisionMonotone(len, -len, y);
  }

  /** The sky gradient runs from white at `unit_y = -1` to sky blue at `unit_y = 1`. */
  lemma BackgroundEndpoints()
    ensures Background(-1.0) == One
    ensures Background(1.0) == SkyBlue
  {
    BackgroundChannels(-1.0);
    BackgroundChannels(1.0);
  }

  /** The blue channel of the sky is always one, and for `unit_y` in [-1, 1] each other channel
      lies between its values at the two ends. */
  lemma BackgroundBetweenEndpoints(unitY: real)
    requires -1.0 <= unitY <= 1.0
    ensures Background(unitY).z == 1.0
    ensures 0.5 <= Background(unitY).x <= 1.0 && 0.7 <= Background(unitY).y <= 1.0
  {
    BackgroundChannels(unitY);
  }

  lemma BackgroundChannels(unitY: real)
    ensures var a := 0.5 * (unitY + 1.0);
      Background(unitY) == Vec3(1.0 - 0.5 * a, 1.0 - 0.3 * a, 1.0)
  {
    var a := 0.5 * (unitY + 1.0);
    assert Scale(1.0 - a, Vec3(1.0, 1.0, 1.0)) == Vec3(1.0 - a, 1.0 - a, 1.0 - a);
    assert Scale(a, SkyBlue) == Vec3(0.5 * a, 0.7 * a, a);
  }

  /** A normal with components in [-1, 1] shades to a colour with channels in [0, 1]. */
  lemma NormalShadeInUnitCube(normal: Vec3)
    requires -1.0 <= normal.x <= 1.0 && -1.0 <= normal.y <= 1.0 && -1.0 <= normal.z <= 1.0
    ensures var c := NormalShade(normal); 0.0 <= c.x <= 1.0 && 0.0 <= c.y <= 1.0 && 0.0 <= c.z <= 1.0
  {
  }

  /** On a hit the colour is the shade of a unit normal, so its channels lie in [0, 1]. */
  lemma {:induction false} HitColourInUnitCube(r: Ray, objects: seq<Sphere>, sqrt: real -> real)
    requires ListHitDefined(objects, r, sqrt)
    requires ListHit(objects, r, sqrt, TraceRange).Some?
    ensures var c := NormalShade(ListHit(objects, r, sqrt, TraceRange).value.normal);
      0.0 <= c.x <= 1.0 && 0.0 <= c.y <= 1.0 && 0.0 <= c.z <= 1.0
  {
    var res := ListHit(objects, r, sqrt, TraceRange);
    ListHitIsNearest(objects, r, sqrt, TraceRange);
    var s :| s in objects && ObjectHit(s, r, sqrt, 0.0, PosInfinity) == res;
    HitNormalIsUnit(s, r, sqrt(Discriminant(s, r)), TraceRange);
    ComponentsOfShortVector(res.value.normal);
    NormalShadeInUnitCube(res.value.normal);
  }

  /** Every colour the tracer produces has all three channels in [0, 1]: sphere normals have unit
      length, and the normalised `y` lies in [-1, 1]. */
  lemma {:induction false} ColourInUnitCube(r: Ray, objects: seq<Sphere>, sqrt: real -> real)
    requires ColourDefined(r, objects, sqrt)
    ensures var c := Colour(r, objects, sqrt); 0.0 <= c.x <= 1.0 && 0.0 <= c.y <= 1.0 && 0.0 <= c.z <= 1.0
  {
    if ListHit(objects, r, sqrt, TraceRange).Some? {
      HitColourInUnitCube(r, objects, sqrt);
    } else {
      UnitYInRange(r, sqrt);
      BackgroundBetweenEndpoints(UnitY(r, sqrt));
    }
  }
}
