/** Model of `HittableList` and its `Hittable::hit` (src/hittable.rs). The list owns its objects,
    which are spheres (the only concrete shape). The square roots `hit` needs are supplied as a
    function `sqrt`, required to be exact on the discriminants that occur. */
module Hittables {
  import opened Vectors
  import opened Rays
  import opened Wrappers
  import opened HitRecords
  import opened Shapes

  /** Every object of the list can be queried with `r`. */
  predicate ListHitDefined(objects: seq<Sphere>, r: Ray, sqrt: real -> real) {
    forall s :: s in objects ==> HitDefined(s, r, sqrt(Discriminant(s, r)))
  }

  /** `obj.hit(r, start..end)` for one object of the list. */
  function ObjectHit(s: Sphere, r: Ray, sqrt: real -> real, start: real, end: Bound): Option<HitRecord>
    requires HitDefined(s, r, sqrt(Discriminant(s, r)))
  {
    Shapes.Hit(s, r, sqrt(Discriminant(s, r)), Interval(start, end))
  }

  /** The fold's accumulator: the end of the range still searched, and the best record so far. */
  type Acc = (Bound, Option<HitRecord>)

  /** One step of the fold: query `s` over `start..acc.0` and keep its record if it has one. */
  function Step(acc: Acc, s: Sphere, r: Ray, sqrt: real -> real, start: real): (next: Acc)
    requires HitDefined(s, r, sqrt(Discriminant(s, r)))
    ensures AtMost(next.0, acc.0)
    ensures next == acc || (next.1 == ObjectHit(s, r, sqrt, start, acc.0) && next.1.Some? && next.0 == Finite(next.1.value.t))
  {
    match ObjectHit(s, r, sqrt, start, acc.0)
    case Some(rec) => (Finite(rec.t), Some(rec))
    case None => acc
  }

  /** The fold over the objects, left to right. */
  function Fold(objects: seq<Sphere>, r: Ray, sqrt: real -> real, start: real, acc: Acc): (res: Acc)
    requires ListHitDefined(objects, r, sqrt)
    ensures AtMost(res.0, acc.0)
    ensures AccConsistent(acc) ==> AccConsistent(res)
    ensures res.1 == acc.1 || (res.1.Some? && start <= res.1.value.t && Below(res.1.value.t, acc.0))
    decreases |objects|
  {
    if objects == [] then acc
    else Fold(objects[1..], r, sqrt, start, Step(acc, objects[0], r, sqrt, start))
  }

  /** What `HittableList::hit` returns: the fold started from `(range.end, None)`. */
  function ListHit(objects: seq<Sphere>, r: Ray, sqrt: real -> real, range: Interval): (res: Option<HitRecord>)
    requires ListHitDefined(objects, r, sqrt)
    ensures objects == [] ==> res == None
    ensures res.Some? ==> Contains(range, res.value.t)
  {
    Fold(objects, r, sqrt, range.start, (range.end, None)).1
  }

  /** The invariant of the accumulator: once a record is held, the searched range ends at its `t`. */
  predicate AccConsistent(acc: Acc) {
    acc.1.Some? ==> acc.0 == Finite(acc.1.value.t)
  }

  /** The fold keeps the nearest record: the result is the record held at the start or the hit of
      one of the objects over `start..acc.0`, no object hits nearer, the end of the searched range
      never grows, and a record is found exactly when one was held or some object hits. */
  lemma {:induction false} FoldNearest(objects: seq<Sphere>, r: Ray, sqrt: real -> real, start: real, acc: Acc)
    requires ListHitDefined(objects, r, sqrt)
    requires AccConsistent(acc)
    ensures var res := Fold(objects, r, sqrt, start, acc);
      && AccConsistent(res)
      && AtMost(res.0, acc.0)
      && (res.1.Some? <==> acc.1.Some? || exists s :: s in objects && ObjectHit(s, r, sqrt, start, acc.0).Some?)
      && (res.1.Some? ==> res.1 == acc.1 || exists s :: s in objects && ObjectHit(s, r, sqrt, start, acc.0) == res.1)
      && (acc.1.Some? ==> res.1.Some? && res.1.value.t <= acc.1.value.t)
      && (forall s :: s in objects && ObjectHit(s, r, sqrt, start, acc.0).Some? ==>
            res.1.Some? && res.1.value.t <= ObjectHit(s, r, sqrt, start, acc.0).value.t)
    decreases |objects|
  {
    if objects != [] {
      var first, rest := objects[0], objects[1..];
      assert forall s :: s in rest ==> s in objects;
      var next := Step(acc, first, r, sqrt, start);
      var h := ObjectHit(first, r, sqrt, start, acc.0);
      var res := Fold(rest, r, sqrt, start, next);
      assert Fold(objects, r, sqrt, start, acc) == res;
      FoldNearest(rest, r, sqrt, start, next);
      if h.Some? {
        var narrow := Finite(h.value.t);
        assert next == (narrow, h);
        assert AtMost(narrow, acc.0);
        forall s | s in rest
          ensures ObjectHit(s, r, sqrt, start, narrow) ==
            var w := ObjectHit(s, r, sqrt, start, acc.0);
            if w.Some? && Below(w.value.t, narrow) then w else None
        {
          HitNarrowed(s, r, sqrt(Discriminant(s, r)), start, acc.0, narrow);
        }
        if res.1 != h {
          var s :| s in rest && ObjectHit(s, r, sqrt, start, narrow) == res.1;
          assert ObjectHit(s, r, sqrt, start, acc.0) == res.1;
        }
        assert first in objects;
      } else {
        assert next == acc;
        forall s | s in objects && ObjectHit(s, r, sqrt, start, acc.0).Some?
          ensures s in rest
        {
          if s == first {
            assert false;
          }
        }
      }
    }
  }

  /** Nearest-hit resolution: the list reports a hit exactly when some object reports one over
      the whole range, the record it returns is one of those objects' records, its `t` lies in
      the range, and no object's hit is nearer. */
  lemma ListHitIsNearest(objects: seq<Sphere>, r: Ray, sqrt: real -> real, range: Interval)
    requires ListHitDefined(objects, r, sqrt)
    ensures var res := ListHit(objects, r, sqrt, range);
      && (objects == [] ==> res == None)
      && (res.Some? <==> exists s :: s in objects && ObjectHit(s, r, sqrt, range.start, range.end).Some?)
      && (res.Some? ==> Contains(range, res.value.t))
      && (res.Some? ==> exists s :: s in objects && ObjectHit(s, r, sqrt, range.start, range.end) == res)
      && (forall s :: s in objects && ObjectHit(s, r, sqrt, range.start, range.end).Some? ==>
            res.Some? && res.value.t <= ObjectHit(s, r, sqrt, range.start, range.end).value.t)
  {
    FoldNearest(objects, r, sqrt, range.start, (range.end, None));
  }

  /** The geometric reading of nearest-hit resolution: a reported `t` puts the ray on the surface
      of one of the spheres, no sphere's surface meets the ray at a smaller `t` in the range, and
      nothing is reported exactly when no sphere's surface meets the ray inside the range. */
  lemma ListHitIsNearestSurface(objects: seq<Sphere>, r: Ray, sqrt: real -> real, range: Interval)
    requires ListHitDefined(objects, r, sqrt)
    ensures var res := ListHit(objects, r, sqrt, range);
      && (res.Some? ==> exists s :: s in objects && OnSurface(s, At(r, res.value.t)))
      && (res.Some? ==> forall s, t :: s in objects && Contains(range, t) && OnSurface(s, At(r, t)) ==> res.value.t <= t)
      && (res.None? <==> forall s, t :: s in objects && Contains(range, t) ==> !OnSurface(s, At(r, t)))
  {
    var res := ListHit(objects, r, sqrt, range);
    ListHitIsNearest(objects, r, sqrt, range);
    forall s | s in objects
      ensures var h := ObjectHit(s, r, sqrt, range.start, range.end);
        && (h.Some? ==> OnSurface(s, At(r, h.value.t)) && Contains(range, h.value.t))
        && (h.Some? ==> forall t :: Contains(range, t) && OnSurface(s, At(r, t)) ==> h.value.t <= t)
        && (h.None? ==> forall t :: Contains(range, t) ==> !OnSurface(s, At(r, t)))
    {
      HitIsNearest(s, r, sqrt(Discriminant(s, r)), range);
    }
    if res.Some? {
      var s :| s in objects && ObjectHit(s, r, sqrt, range.start, range.end) == res;
      assert OnSurface(s, At(r, res.value.t));
    } else {
      forall s, t | s in objects && Contains(range, t)
        ensures !OnSurface(s, At(r, t))
      {
        assert ObjectHit(s, r, sqrt, range.start, range.end).None?;
      }
    }
  }

  /** The result does not depend on the order of the objects: any rearrangement of the list
      reports a hit exactly when the original does, at the same `t`. */
  lemma ListHitOrderIndependent(objects: seq<Sphere>, reordered: seq<Sphere>, r: Ray, sqrt: real -> real, range: Interval)
    requires multiset(objects) == multiset(reordered)
    requires ListHitDefined(objects, r, sqrt)
    ensures ListHitDefined(reordered, r, sqrt)
    ensures ListHit(objects, r, sqrt, range).Some? == ListHit(reordered, r, sqrt, range).Some?
    ensures ListHit(objects, r, sqrt, range).Some? ==>
      ListHit(objects, r, sqrt, range).value.t == ListHit(reordered, r, sqrt, range).value.t
  {
    assert forall s :: s in objects <==> s in reordered by {
      forall s ensures s in objects <==> s in reordered {
        assert s in objects <==> s in multiset(objects);
        assert s in reordered <==> s in multiset(reordered);
      }
    }
    ListHitIsNearest(objects, r, sqrt, range);
    ListHitIsNearest(reordered, r, sqrt, range);
    var a, b := ListHit(objects, r, sqrt, range), ListHit(reordered, r, sqrt, range);
    if a.Some? {
      var s :| s in objects && ObjectHit(s, r, sqrt, range.start, range.end) == a;
      var u :| u in reordered && ObjectHit(u, r, sqrt, range.start, range.end) == b;
      assert b.value.t <= a.value.t;
      assert a.value.t <= b.value.t;
    }
  }

  /** The scene: an ordered list of owned objects, changed in place by `add` and `clear`. */
  class HittableList {
    var objects: seq<Sphere>

    /** `HittableList::new`: an empty list. */
    constructor ()
      ensures objects == []
    {
      objects := [];
    }

    /** `clear`: drains every object. */
    method Clear()
      modifies this
      ensures objects == []
    {
      objects := [];
    }

    /** `add`: appends the object at the end, leaving the earlier objects where they were. */
    method Add(obj: Sphere)
      modifies this
      ensures objects == old(objects) + [obj]
      ensures |objects| == |old(objects)| + 1 && objects[..|old(objects)|] == old(objects)
    {
      objects := objects + [obj];
    }

    /** `hit`: the fold, as a loop that narrows the end of the range to the best `t` so far. */
    method Hit(r: Ray, sqrt: real -> real, range: Interval) returns (res: Option<HitRecord>)
      requires ListHitDefined(objects, r, sqrt)
      ensures res == ListHit(objects, r, sqrt, range)
      ensures res.Some? ==> Contains(range, res.value.t)
    {
      var best := range.end;
      var closest: Option<HitRecord> := None;
      var i := 0;
      while i < |objects|
        invariant 0 <= i <= |objects|
        invariant ListHitDefined(objects[i..], r, sqrt)
        invariant Fold(objects[i..], r, sqrt, range.start, (best, closest)).1 == ListHit(objects, r, sqrt, range)
        invariant AtMost(best, range.end)
        invariant closest.Some? ==> best == Finite(closest.value.t) && Contains(range, closest.value.t)
      {
        var s := objects[i];
        assert objects[i..][1..] == objects[i + 1..];
        var h := Shapes.Hit(s, r, sqrt(Discriminant(s, r)), Interval(range.start, best));
        if h.Some? {
          best, closest := Finite(h.value.t), h;
        }
        i := i + 1;
      }
      res := closest;
    }
  }
}
