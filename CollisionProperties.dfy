/** What the slab test of Collision.c promises, proved about its specification
    RayIntersect (and so, through RayIntersectAABB's postcondition, about the
    loop itself). */
module CollisionProperties {
  import opened ExtReal
  import opened Collision

  /** The sorted pair of face-crossing parameters of a constrained axis. */
  function SlabOf(o: Vec3, d: Vec3, bmin: Vec3, bmax: Vec3, a: Axis): Slab
    requires Constrained(d.At(a))
  {
    AxisTimes(o.At(a), d.At(a), bmin.At(a), bmax.At(a))
  }

  // ---------------------------------------------------------------------
  // The running interval as a max of entries and a min of exits
  // ---------------------------------------------------------------------

  /** After k axes, tmin is the largest entry parameter of the constrained
      axes seen so far (-infinity when there is none) and tmax the smallest
      exit parameter (+infinity when there is none). */
  lemma {:induction false} BoundsAreExtremes(o: Vec3, d: Vec3, bmin: Vec3, bmax: Vec3, k: nat)
    requires k <= 3
    ensures forall a: Axis :: a < k && Constrained(d.At(a)) ==>
      Le(Fin(SlabOf(o, d, bmin, bmax, a).entry), Bounds(o, d, bmin, bmax, k).tmin) &&
      Le(Bounds(o, d, bmin, bmax, k).tmax, Fin(SlabOf(o, d, bmin, bmax, a).exit))
    ensures Bounds(o, d, bmin, bmax, k).tmin == NegInf ||
      exists a: Axis :: a < k && Constrained(d.At(a)) &&
        Bounds(o, d, bmin, bmax, k).tmin == Fin(SlabOf(o, d, bmin, bmax, a).entry)
    ensures Bounds(o, d, bmin, bmax, k).tmax == PosInf ||
      exists a: Axis :: a < k && Constrained(d.At(a)) &&
        Bounds(o, d, bmin, bmax, k).tmax == Fin(SlabOf(o, d, bmin, bmax, a).exit)
  {
    if k > 0 {
      BoundsAreExtremes(o, d, bmin, bmax, k - 1);
      var prev := Bounds(o, d, bmin, bmax, k - 1);
      var cur := Bounds(o, d, bmin, bmax, k);
      forall a: Axis | a < k && Constrained(d.At(a))
        ensures Le(Fin(SlabOf(o, d, bmin, bmax, a).entry), cur.tmin)
        ensures Le(cur.tmax, Fin(SlabOf(o, d, bmin, bmax, a).exit))
      {
        if a < k - 1 {
          LeTransitive(Fin(SlabOf(o, d, bmin, bmax, a).entry), prev.tmin, cur.tmin);
          LeTransitive(cur.tmax, prev.tmax, Fin(SlabOf(o, d, bmin, bmax, a).exit));
        }
      }
    }
  }

  /** tmin never decreases and tmax never increases as the loop goes on. */
  lemma {:induction false} BoundsMonotone(o: Vec3, d: Vec3, bmin: Vec3, bmax: Vec3, j: nat, k: nat)
    requires j <= k <= 3
    ensures Le(Bounds(o, d, bmin, bmax, j).tmin, Bounds(o, d, bmin, bmax, k).tmin)
    ensures Le(Bounds(o, d, bmin, bmax, k).tmax, Bounds(o, d, bmin, bmax, j).tmax)
  {
    if j < k {
      BoundsMonotone(o, d, bmin, bmax, j, k - 1);
      LeTransitive(Bounds(o, d, bmin, bmax, j).tmin, Bounds(o, d, bmin, bmax, k - 1).tmin,
                   Bounds(o, d, bmin, bmax, k).tmin);
      LeTransitive(Bounds(o, d, bmin, bmax, k).tmax, Bounds(o, d, bmin, bmax, k - 1).tmax,
                   Bounds(o, d, bmin, bmax, j).tmax);
    }
  }

  // ---------------------------------------------------------------------
  // Geometric meaning of the interval
  // ---------------------------------------------------------------------

  /** The point o + s*d lies between the two face coordinates lo and hi
      (given in either order). */
  predicate OnSlab(o: real, d: real, lo: real, hi: real, s: real) {
    var p := o + s * d;
    (lo <= p <= hi) || (hi <= p <= lo)
  }

  /** Axis a does not exclude the ray point at parameter s: either the axis is
      near-parallel (and so never consulted) or the point is within its slab. */
  predicate AxisAdmits(o: Vec3, d: Vec3, bmin: Vec3, bmax: Vec3, a: Axis, s: real) {
    !Constrained(d.At(a)) || OnSlab(o.At(a), d.At(a), bmin.At(a), bmax.At(a), s)
  }

  /** None of the first k axes excludes the ray point at parameter s. */
  predicate AdmitsFirst(o: Vec3, d: Vec3, bmin: Vec3, bmax: Vec3, k: nat, s: real) {
    forall a: Axis :: a < k ==> AxisAdmits(o, d, bmin, bmax, a, s)
  }

  /** Some point strictly in front of the origin is excluded by no axis. */
  ghost predicate Reaches(o: Vec3, d: Vec3, bmin: Vec3, bmax: Vec3) {
    exists s: real :: 0.0 < s && AdmitsFirst(o, d, bmin, bmax, 3, s)
  }

  /** The ray point at parameter s lies within the box on all three axes. */
  predicate InBox(o: Vec3, d: Vec3, bmin: Vec3, bmax: Vec3, s: real) {
    forall a: Axis :: OnSlab(o.At(a), d.At(a), bmin.At(a), bmax.At(a), s)
  }

  /** The ray really passes through the box strictly in front of its origin. */
  ghost predicate Touches(o: Vec3, d: Vec3, bmin: Vec3, bmax: Vec3) {
    exists s: real :: 0.0 < s && InBox(o, d, bmin, bmax, s)
  }

  lemma DivLeIff(n: real, d: real, s: real)
    requires d != 0.0
    ensures d > 0.0 ==> (n / d <= s <==> n <= s * d)
    ensures d > 0.0 ==> (s <= n / d <==> s * d <= n)
    ensures d < 0.0 ==> (n / d <= s <==> s * d <= n)
    ensures d < 0.0 ==> (s <= n / d <==> n <= s * d)
  {
  }

  /** On one constrained axis, the parameters whose point lies within the slab
      are exactly those between the sorted entry and exit parameters. */
  lemma SlabParameters(o: real, d: real, lo: real, hi: real, s: real)
    requires d != 0.0
    ensures OnSlab(o, d, lo, hi, s) <==> AxisTimes(o, d, lo, hi).entry <= s <= AxisTimes(o, d, lo, hi).exit
  {
    DivLeIff(lo - o, d, s);
    DivLeIff(hi - o, d, s);
  }

  /** One loop step keeps s in the interval exactly when s was in it before
      and the axis does not exclude the point o + s*d. */
  lemma NarrowAdmits(sp: Span, o: real, d: real, lo: real, hi: real, s: real)
    ensures var r := Narrow(sp, o, d, lo, hi);
      Le(r.tmin, Fin(s)) && Le(Fin(s), r.tmax) <==>
      Le(sp.tmin, Fin(s)) && Le(Fin(s), sp.tmax) && (!Constrained(d) || OnSlab(o, d, lo, hi, s))
  {
    if Constrained(d) {
      var sl := AxisTimes(o, d, lo, hi);
      SlabParameters(o, d, lo, hi, s);
      MaxLeIff(sp.tmin, Fin(sl.entry), Fin(s));
      LeMinIff(Fin(s), sp.tmax, Fin(sl.exit));
    }
  }

  /** After k axes, the interval [tmin, tmax] holds exactly the parameters
      that none of those axes excludes. */
  lemma {:induction false} AdmitsIffInBounds(o: Vec3, d: Vec3, bmin: Vec3, bmax: Vec3, k: nat, s: real)
    requires k <= 3
    ensures AdmitsFirst(o, d, bmin, bmax, k, s) <==>
      Le(Bounds(o, d, bmin, bmax, k).tmin, Fin(s)) && Le(Fin(s), Bounds(o, d, bmin, bmax, k).tmax)
  {
    if k > 0 {
      AdmitsIffInBounds(o, d, bmin, bmax, k - 1, s);
      var a: Axis := k - 1;
      assert AdmitsFirst(o, d, bmin, bmax, k, s) <==>
        AdmitsFirst(o, d, bmin, bmax, k - 1, s) && AxisAdmits(o, d, bmin, bmax, a, s);
      NarrowAdmits(Bounds(o, d, bmin, bmax, k - 1), o.At(a), d.At(a), bmin.At(a), bmax.At(a), s);
    }
  }

  /** The test reports a hit exactly when some point strictly in front of the
      origin is excluded by no constrained axis. */
  lemma HitIffReaches(o: Vec3, d: Vec3, bmin: Vec3, bmax: Vec3)
    ensures RayIntersect(o, d, bmin, bmax).hit <==> Reaches(o, d, bmin, bmax)
  {
    var sp := Bounds(o, d, bmin, bmax, 3);
    if RayIntersect(o, d, bmin, bmax).hit {
      var s: real;
      if sp.tmin.Fin? && sp.tmin.value > 0.0 {
        s := sp.tmin.value;
      } else if sp.tmax.Fin? {
        s := sp.tmax.value;
      } else {
        s := 1.0;
      }
      AdmitsIffInBounds(o, d, bmin, bmax, 3, s);
      assert 0.0 < s && AdmitsFirst(o, d, bmin, bmax, 3, s);
    }
    if Reaches(o, d, bmin, bmax) {
      var s: real :| 0.0 < s && AdmitsFirst(o, d, bmin, bmax, 3, s);
      AdmitsIffInBounds(o, d, bmin, bmax, 3, s);
      LeTransitive(sp.tmin, Fin(s), sp.tmax);
    }
  }

  // ---------------------------------------------------------------------
  // The reported distance
  // ---------------------------------------------------------------------

  /** A ray starting outside the admitted region that hits reports the first
      contact: the least parameter that no constrained axis excludes. */
  lemma FirstContact(o: Vec3, d: Vec3, bmin: Vec3, bmax: Vec3)
    requires RayIntersect(o, d, bmin, bmax).hit
    requires !AdmitsFirst(o, d, bmin, bmax, 3, 0.0)
    ensures var r := RayIntersect(o, d, bmin, bmax);
      r.t.Fin? && 0.0 < r.t.value && AdmitsFirst(o, d, bmin, bmax, 3, r.t.value) &&
      forall s: real :: AdmitsFirst(o, d, bmin, bmax, 3, s) ==> r.t.value <= s
  {
    var sp := Bounds(o, d, bmin, bmax, 3);
    AdmitsIffInBounds(o, d, bmin, bmax, 3, 0.0);
    assert Lt(Fin(0.0), sp.tmin);
    AdmitsIffInBounds(o, d, bmin, bmax, 3, sp.tmin.value);
    forall s: real | AdmitsFirst(o, d, bmin, bmax, 3, s)
      ensures sp.tmin.value <= s
    {
      AdmitsIffInBounds(o, d, bmin, bmax, 3, s);
    }
  }

  /** A ray whose origin no constrained axis excludes and that hits reports
      tmax, the far end of the admitted region: every admitted parameter lies
      at or before it, and when it is finite its point is admitted too. */
  lemma ExitFromInside(o: Vec3, d: Vec3, bmin: Vec3, bmax: Vec3)
    requires RayIntersect(o, d, bmin, bmax).hit
    requires AdmitsFirst(o, d, bmin, bmax, 3, 0.0)
    ensures var r := RayIntersect(o, d, bmin, bmax);
      r.t == Bounds(o, d, bmin, bmax, 3).tmax &&
      (r.t.Fin? ==> AdmitsFirst(o, d, bmin, bmax, 3, r.t.value)) &&
      forall s: real :: AdmitsFirst(o, d, bmin, bmax, 3, s) ==> Le(Fin(s), r.t)
  {
    var sp := Bounds(o, d, bmin, bmax, 3);
    AdmitsIffInBounds(o, d, bmin, bmax, 3, 0.0);
    if sp.tmax.Fin? {
      AdmitsIffInBounds(o, d, bmin, bmax, 3, sp.tmax.value);
    }
    forall s: real | AdmitsFirst(o, d, bmin, bmax, 3, s)
      ensures Le(Fin(s), sp.tmax)
    {
      AdmitsIffInBounds(o, d, bmin, bmax, 3, s);
    }
  }

  /** An exit parameter is positive when the origin lies strictly between the
      two faces. */
  lemma ExitAheadOfInteriorPoint(o: real, d: real, lo: real, hi: real)
    requires d != 0.0
    requires lo < o < hi
    ensures AxisTimes(o, d, lo, hi).entry < 0.0 < AxisTimes(o, d, lo, hi).exit
  {
  }

  /** A ray starting strictly inside the box always hits, and reports the
      forward exit distance tmax. */
  lemma InsideOriginHitsAtExit(o: Vec3, d: Vec3, bmin: Vec3, bmax: Vec3)
    requires forall a: Axis :: bmin.At(a) < o.At(a) < bmax.At(a)
    ensures RayIntersect(o, d, bmin, bmax).hit
    ensures RayIntersect(o, d, bmin, bmax).t == Bounds(o, d, bmin, bmax, 3).tmax
  {
    var sp := Bounds(o, d, bmin, bmax, 3);
    forall a: Axis
      ensures AxisAdmits(o, d, bmin, bmax, a, 0.0)
    {
      assert o.At(a) + 0.0 * d.At(a) == o.At(a);
    }
    AdmitsIffInBounds(o, d, bmin, bmax, 3, 0.0);
    if sp.tmax != PosInf {
      BoundsAreExtremes(o, d, bmin, bmax, 3);
      var a: Axis :| Constrained(d.At(a)) && sp.tmax == Fin(SlabOf(o, d, bmin, bmax, a).exit);
      ExitAheadOfInteriorPoint(o.At(a), d.At(a), bmin.At(a), bmax.At(a));
    }
  }

  // ---------------------------------------------------------------------
  // Symmetries and the near-parallel quirk
  // ---------------------------------------------------------------------

  /** The interval depends on the box and origin only through the sorted slab
      parameters of the constrained axes. */
  lemma {:induction false} SameSlabsSameBounds(o1: Vec3, lo1: Vec3, hi1: Vec3,
                                               o2: Vec3, lo2: Vec3, hi2: Vec3, d: Vec3, k: nat)
    requires k <= 3
    requires forall a: Axis :: a < k && Constrained(d.At(a)) ==>
      SlabOf(o1, d, lo1, hi1, a) == SlabOf(o2, d, lo2, hi2, a)
    ensures Bounds(o1, d, lo1, hi1, k) == Bounds(o2, d, lo2, hi2, k)
  {
    if k > 0 {
      SameSlabsSameBounds(o1, lo1, hi1, o2, lo2, hi2, d, k - 1);
      var a: Axis := k - 1;
      if Constrained(d.At(a)) {
        assert SlabOf(o1, d, lo1, hi1, a) == SlabOf(o2, d, lo2, hi2, a);
      }
    }
  }

  /** Exchanging boxMin and boxMax on any one axis changes nothing, because
      each axis's pair of parameters is sorted before use. */
  lemma SwapFacesSameResult(o: Vec3, d: Vec3, bmin: Vec3, bmax: Vec3, axis: Axis)
    ensures RayIntersect(o, d, bmin.With(axis, bmax.At(axis)), bmax.With(axis, bmin.At(axis)))
         == RayIntersect(o, d, bmin, bmax)
  {
    var lo2 := bmin.With(axis, bmax.At(axis));
    var hi2 := bmax.With(axis, bmin.At(axis));
    forall a: Axis | Constrained(d.At(a))
      ensures SlabOf(o, d, lo2, hi2, a) == SlabOf(o, d, bmin, bmax, a)
    {
    }
    SameSlabsSameBounds(o, lo2, hi2, o, bmin, bmax, d, 3);
  }

  /** A near-parallel axis is never consulted: the origin and both faces on
      that axis can be anything at all without changing the result, so the
      ray is not rejected even when the origin lies outside the slab. */
  lemma ParallelAxisIgnored(o: Vec3, d: Vec3, bmin: Vec3, bmax: Vec3, axis: Axis,
                            x: real, lo: real, hi: real)
    requires !Constrained(d.At(axis))
    ensures RayIntersect(o.With(axis, x), d, bmin.With(axis, lo), bmax.With(axis, hi))
         == RayIntersect(o, d, bmin, bmax)
  {
    SameSlabsSameBounds(o.With(axis, x), bmin.With(axis, lo), bmax.With(axis, hi), o, bmin, bmax, d, 3);
  }

  /** When no axis is constrained the interval is never narrowed: the test
      hits at distance +infinity. */
  lemma AllParallelHitsAtInfinity(o: Vec3, d: Vec3, bmin: Vec3, bmax: Vec3)
    requires forall a: Axis :: !Constrained(d.At(a))
    ensures RayIntersect(o, d, bmin, bmax) == RayHit(true, PosInf)
  {
    BoundsAreExtremes(o, d, bmin, bmax, 3);
  }

  /** The quirk on a concrete ray: travelling along z with x = 5, it passes
      beside the box [-1,1] x [-1,1] x [2,3] without touching it, yet the test
      reports a hit at distance 2. */
  lemma ParallelQuirkExample()
    ensures RayIntersect(Vec3(5.0, 0.0, 0.0), Vec3(0.0, 0.0, 1.0), Vec3(-1.0, -1.0, 2.0), Vec3(1.0, 1.0, 3.0))
         == RayHit(true, Fin(2.0))
    ensures !Touches(Vec3(5.0, 0.0, 0.0), Vec3(0.0, 0.0, 1.0), Vec3(-1.0, -1.0, 2.0), Vec3(1.0, 1.0, 3.0))
  {
  }

  /** The test never misses a box the ray really passes through in front of
      its origin. */
  lemma TouchesImpliesHit(o: Vec3, d: Vec3, bmin: Vec3, bmax: Vec3)
    requires Touches(o, d, bmin, bmax)
    ensures RayIntersect(o, d, bmin, bmax).hit
  {
    var s: real :| 0.0 < s && InBox(o, d, bmin, bmax, s);
    assert AdmitsFirst(o, d, bmin, bmax, 3, s);
    HitIffReaches(o, d, bmin, bmax);
  }

  /** When every direction component exceeds Epsilon in magnitude, the test is
      exact: it hits precisely when the ray passes through the box in front of
      its origin. */
  lemma ExactWhenAllConstrained(o: Vec3, d: Vec3, bmin: Vec3, bmax: Vec3)
    requires forall a: Axis :: Constrained(d.At(a))
    ensures RayIntersect(o, d, bmin, bmax).hit <==> Touches(o, d, bmin, bmax)
  {
    HitIffReaches(o, d, bmin, bmax);
    if Reaches(o, d, bmin, bmax) {
      var s: real :| 0.0 < s && AdmitsFirst(o, d, bmin, bmax, 3, s);
      forall a: Axis
        ensures OnSlab(o.At(a), d.At(a), bmin.At(a), bmax.At(a), s)
      {
        assert AxisAdmits(o, d, bmin, bmax, a, s);
      }
      assert InBox(o, d, bmin, bmax, s);
    }
    if Touches(o, d, bmin, bmax) {
      TouchesImpliesHit(o, d, bmin, bmax);
    }
  }
}
