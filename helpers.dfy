/** Model of the random-vector helpers (src/helpers.rs). The generator is a supplied sequence of
    draws, each meant to lie in [0, 1); a helper consumes them from the front. */
module Helpers {
  import opened Vectors
  import opened RealFacts
  import opened Wrappers

  /** Every draw lies in [0, 1), as `Rng::f64` promises. */
  predicate UnitDraws(draws: seq<real>) {
    forall i :: 0 <= i < |draws| ==> 0.0 <= draws[i] < 1.0
  }

  /** `DVec3::random(rng, start..end)`: the first three draws, in x, y, z order, mapped affinely
      from [0, 1) onto `start..end`. */
  function Random(draws: seq<real>, start: real, end: real): (v: Vec3)
    requires |draws| >= 3
    ensures start < end && 0.0 <= draws[0] < 1.0 && 0.0 <= draws[1] < 1.0 && 0.0 <= draws[2] < 1.0 ==>
      start <= v.x < end && start <= v.y < end && start <= v.z < end
  {
    var width := end - start;
    Vec3(Affine(start, width, draws[0]), Affine(start, width, draws[1]), Affine(start, width, draws[2]))
  }

  /** `start + width * u`: one draw mapped from [0, 1) onto a range of the given width. */
  function Affine(start: real, width: real, u: real): (r: real)
    ensures width > 0.0 && 0.0 <= u < 1.0 ==> start <= r < start + width
  {
    ScaledInRange(width, u);
    start + width * u
  }

  lemma ScaledInRange(w: real, u: real)
    ensures w > 0.0 && 0.0 <= u < 1.0 ==> 0.0 <= w * u < w
  {
    if w > 0.0 && 0.0 <= u < 1.0 {
      PositiveProduct(w, 1.0 - u);
      NonNegativeProduct(w, u);
      assert w * (1.0 - u) == w - w * u;
    }
  }

  /** The map is invertible: each draw is recovered from its component, so `random` uses
      exactly the first three draws, one per component. */
  lemma {:induction false} RandomRecoversDraws(draws: seq<real>, start: real, end: real)
    requires |draws| >= 3 && start < end
    ensures var v := Random(draws, start, end);
      (v.x - start) / (end - start) == draws[0] &&
      (v.y - start) / (end - start) == draws[1] &&
      (v.z - start) / (end - start) == draws[2]
  {
    var w := end - start;
    CancelFactor(w, draws[0]);
    CancelFactor(w, draws[1]);
    CancelFactor(w, draws[2]);
  }

  /** The `k`-th candidate point of the rejection loop: the triple of draws `3k, 3k+1, 3k+2`
      mapped onto `-1..1`. */
  function Candidate(draws: seq<real>, k: nat): Vec3
    requires 3 * k + 3 <= |draws|
  {
    Random(draws[3 * k..], -1.0, 1.0)
  }

  /** The point `random_in_unit_sphere` returns: the first candidate strictly inside the unit
      sphere, or `None` if the draws run out first. */
  function FirstInUnitSphere(draws: seq<real>): (p: Option<Vec3>)
    ensures p.Some? ==> LengthSquared(p.value) < 1.0
    decreases |draws|
  {
    if |draws| < 3 then None
    else
      var v := Random(draws, -1.0, 1.0);
      if LengthSquared(v) < 1.0 then Some(v) else FirstInUnitSphere(draws[3..])
  }

  /** `random_in_unit_sphere` returns the first accepted candidate, after rejecting every earlier
      one; it gives up only when every candidate the draws allow was rejected. */
  lemma {:induction false} FirstInUnitSphereIsFirst(draws: seq<real>)
    ensures FirstInUnitSphere(draws).Some? ==> exists k: nat ::
      3 * k + 3 <= |draws| && Candidate(draws, k) == FirstInUnitSphere(draws).value &&
      forall j: nat :: j < k ==> LengthSquared(Candidate(draws, j)) >= 1.0
    ensures FirstInUnitSphere(draws).None? ==>
      forall k: nat :: 3 * k + 3 <= |draws| ==> LengthSquared(Candidate(draws, k)) >= 1.0
    decreases |draws|
  {
    if |draws| >= 3 {
      var rest := draws[3..];
      assert Candidate(draws, 0) == Random(draws, -1.0, 1.0);
      forall k: nat | 3 * k + 6 <= |draws|
        ensures Candidate(draws, k + 1) == Candidate(rest, k)
      {
        assert draws[3 * (k + 1)..] == rest[3 * k..];
      }
      if LengthSquared(Random(draws, -1.0, 1.0)) >= 1.0 {
        FirstInUnitSphereIsFirst(rest);
        if FirstInUnitSphere(rest).Some? {
          var k: nat :| 3 * k + 3 <= |rest| && Candidate(rest, k) == FirstInUnitSphere(rest).value &&
            forall j: nat :: j < k ==> LengthSquared(Candidate(rest, j)) >= 1.0;
          forall j: nat | j < k + 1 ensures LengthSquared(Candidate(draws, j)) >= 1.0 {
            if j > 0 {
              assert Candidate(draws, j) == Candidate(rest, j - 1);
            }
          }
          assert Candidate(draws, k + 1) == FirstInUnitSphere(draws).value;
        } else {
          forall k: nat | 3 * k + 3 <= |draws| ensures LengthSquared(Candidate(draws, k)) >= 1.0 {
            if k > 0 {
              assert Candidate(draws, k) == Candidate(rest, k - 1);
            }
          }
        }
      }
    }
  }

  /** With draws in [0, 1), an accepted point has every component in [-1, 1). */
  lemma {:induction false} FirstInUnitSphereBounds(draws: seq<real>)
    requires UnitDraws(draws)
    requires FirstInUnitSphere(draws).Some?
    ensures var p := FirstInUnitSphere(draws).value;
      -1.0 <= p.x < 1.0 && -1.0 <= p.y < 1.0 && -1.0 <= p.z < 1.0
  {
    FirstInUnitSphereIsFirst(draws);
    var k: nat :| 3 * k + 3 <= |draws| && Candidate(draws, k) == FirstInUnitSphere(draws).value &&
      forall j: nat :: j < k ==> LengthSquared(Candidate(draws, j)) >= 1.0;
    var tail := draws[3 * k..];
    assert tail[0] == draws[3 * k] && tail[1] == draws[3 * k + 1] && tail[2] == draws[3 * k + 2];
  }

  /** `random_in_unit_sphere`: the rejection loop, with the position in the draws as the
      generator's state. */
  method RandomInUnitSphere(draws: seq<real>) returns (p: Option<Vec3>)
    ensures p == FirstInUnitSphere(draws)
    ensures p.Some? ==> LengthSquared(p.value) < 1.0
  {
    var i := 0;
    while i + 3 <= |draws|
      invariant 0 <= i <= |draws|
      invariant FirstInUnitSphere(draws[i..]) == FirstInUnitSphere(draws)
      decreases |draws| - i
    {
      var candidate := Random(draws[i..], -1.0, 1.0);
      if LengthSquared(candidate) < 1.0 {
        return Some(candidate);
      }
      assert draws[i..][3..] == draws[i + 3..];
      i := i + 3;
    }
    return None;
  }

  /** `random_on_hemisphere`, given the random unit vector: keep it when it points into the
      normal's half-space, otherwise reverse it. */
  function OnHemisphere(v: Vec3, normal: Vec3): (w: Vec3)
    ensures Dot(w, normal) >= 0.0
    ensures Dot(v, normal) > 0.0 ==> w == v
    ensures Dot(v, normal) <= 0.0 ==> w == Neg(v)
    ensures LengthSquared(w) == LengthSquared(v)
  {
    if Dot(v, normal) > 0.0 then v else Neg(v)
  }
}
