/** The slab-method ray / axis-aligned box intersection test of Collision.c,
    over exact reals.  The pure functions Narrow, Bounds and Decide specify the
    test axis by axis; the method RayIntersectAABB is the source's loop over the
    three axes, proved to compute exactly RayIntersect. */
module Collision {
  import opened ExtReal

  /** An axis index: 0 = x, 1 = y, 2 = z. */
  type Axis = a: int | 0 <= a < 3

  datatype Vec3 = Vec3(x: real, y: real, z: real) {
    /** The component on `axis` (the source copies each vector into a float[3]). */
    function At(axis: Axis): real {
      if axis == 0 then x else if axis == 1 then y else z
    }

    /** This vector with the component on `axis` replaced by `v`. */
    function With(axis: Axis, v: real): (r: Vec3)
      ensures r.At(axis) == v
      ensures forall b: Axis :: b != axis ==> r.At(b) == At(b)
    {
      if axis == 0 then Vec3(v, y, z)
      else if axis == 1 then Vec3(x, v, z)
      else Vec3(x, y, v)
    }
  }

  /** The hit flag and distance returned by the test (RayHitResult). */
  datatype RayHit = RayHit(hit: bool, t: Ext)

  /** Threshold below which a direction component counts as parallel to the
      slab (the source's 0.0001f, taken here as the exact rational 1/10000). */
  const Epsilon: real := 1.0 / 10000.0

  function Abs(x: real): real {
    if x < 0.0 then -x else x
  }

  /** An axis narrows the interval only when its direction component exceeds
      Epsilon in magnitude. */
  predicate Constrained(d: real) {
    Abs(d) > Epsilon
  }

  /** The ray parameters at which one axis's slab is entered and left. */
  datatype Slab = Slab(entry: real, exit: real)

  /** The two face-crossing parameters of one axis, in increasing order. */
  function AxisTimes(o: real, d: real, lo: real, hi: real): (s: Slab)
    requires d != 0.0
    ensures s.entry <= s.exit
    ensures multiset{s.entry, s.exit} == multiset{(lo - o) / d, (hi - o) / d}
  {
    var t1 := (lo - o) / d;
    var t2 := (hi - o) / d;
    if t1 > t2 then Slab(t2, t1) else Slab(t1, t2)
  }

  /** The running parameter interval [tmin, tmax]. */
  datatype Span = Span(tmin: Ext, tmax: Ext)

  /** The interval before any axis is considered: the whole line. */
  const Unbounded: Span := Span(NegInf, PosInf)

  /** One step of the slab loop: a constrained axis intersects the interval
      with its slab, a near-parallel axis leaves it alone. */
  function Narrow(sp: Span, o: real, d: real, lo: real, hi: real): (r: Span)
    ensures !Constrained(d) ==> r == sp
    ensures Le(sp.tmin, r.tmin) && Le(r.tmax, sp.tmax)
    ensures Constrained(d) ==>
      Le(Fin(AxisTimes(o, d, lo, hi).entry), r.tmin) && Le(r.tmax, Fin(AxisTimes(o, d, lo, hi).exit))
  {
    if Constrained(d) then
      var s := AxisTimes(o, d, lo, hi);
      Span(Max(sp.tmin, Fin(s.entry)), Min(sp.tmax, Fin(s.exit)))
    else
      sp
  }

  /** The interval after the first k axes of the loop. Its lower end is never
      +infinity and its upper end never -infinity. */
  function Bounds(o: Vec3, d: Vec3, bmin: Vec3, bmax: Vec3, k: nat): (r: Span)
    requires k <= 3
    ensures r.tmin != PosInf && r.tmax != NegInf
  {
    if k == 0 then Unbounded
    else Narrow(Bounds(o, d, bmin, bmax, k - 1), o.At(k - 1), d.At(k - 1), bmin.At(k - 1), bmax.At(k - 1))
  }

  /** The verdict on the final interval: a hit needs a non-empty interval that
      reaches in front of the origin; the distance is the entry when it is in
      front of the origin and the exit otherwise. */
  function Decide(sp: Span): (r: RayHit)
    ensures r.hit ==> Lt(Fin(0.0), r.t) && Le(r.t, sp.tmax)
    ensures r.hit ==> Le(sp.tmin, r.t)
    ensures Le(sp.tmax, Fin(0.0)) ==> !r.hit
    ensures Lt(sp.tmax, sp.tmin) ==> !r.hit
  {
    RayHit(Le(sp.tmin, sp.tmax) && Lt(Fin(0.0), sp.tmax),
           if Lt(Fin(0.0), sp.tmin) then sp.tmin else sp.tmax)
  }

  /** The specification of the whole test. */
  function RayIntersect(o: Vec3, d: Vec3, bmin: Vec3, bmax: Vec3): (r: RayHit)
    ensures r.t != NegInf
  {
    Decide(Bounds(o, d, bmin, bmax, 3))
  }

  /** The source's test: a loop over the three axes that narrows the locals
      tmin and tmax, swapping each axis's pair of parameters into order. */
  method RayIntersectAABB(rayOrigin: Vec3, rayDir: Vec3, boxMin: Vec3, boxMax: Vec3)
    returns (result: RayHit)
    ensures result == RayIntersect(rayOrigin, rayDir, boxMin, boxMax)
  {
    var tmin, tmax := NegInf, PosInf;
    for axis := 0 to 3
      invariant Span(tmin, tmax) == Bounds(rayOrigin, rayDir, boxMin, boxMax, axis)
    {
      ghost var before := Span(tmin, tmax);
      var o, d, lo, hi := rayOrigin.At(axis), rayDir.At(axis), boxMin.At(axis), boxMax.At(axis);
      if Abs(d) > Epsilon {
        var t1 := (lo - o) / d;
        var t2 := (hi - o) / d;
        if t1 > t2 {
          t1, t2 := t2, t1;
        }
        assert Slab(t1, t2) == AxisTimes(o, d, lo, hi);
        if Lt(tmin, Fin(t1)) {
          tmin := Fin(t1);
        }
        assert tmin == Max(before.tmin, Fin(t1));
        if Lt(Fin(t2), tmax) {
          tmax := Fin(t2);
        }
        assert tmax == Min(before.tmax, Fin(t2));
      }
      assert Span(tmin, tmax) == Narrow(before, o, d, lo, hi);
    }
    var hit := Le(tmin, tmax) && Lt(Fin(0.0), tmax);
    var t := if Lt(Fin(0.0), tmin) then tmin else tmax;
    result := RayHit(hit, t);
  }
}
