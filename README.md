# Ray / axis-aligned box slab test (FPSArena collision primitive)

This project models `rayIntersectAABB` from `Collision.c`. It is the slab-method test that the game's raycasts and line-of-sight checks build on. Given a ray origin, a ray direction and the two corners of an axis-aligned box, the test returns a `RayHitResult`: a hit flag and a distance `t`.

The model works over exact reals.

- `ExtReal.dfy`: the extended real line `NegInf | Fin(r) | PosInf`. The running interval starts at ±infinity, and the reported distance can be +infinity.
- `Collision.dfy`: the test itself.
  - `AxisTimes` computes one axis's sorted pair of face-crossing parameters.
  - `Narrow` is one step of the slab loop.
  - `Bounds` is the interval after the first k axes.
  - `Decide` is the hit/distance verdict.
  - `RayIntersect` is the specification of the whole test.
  - `RayIntersectAABB` is the source's loop over the three axes. It updates the locals `tmin` and `tmax` and swaps `t1` and `t2` in place. Its postcondition proves that it computes exactly `RayIntersect`.
- `CollisionProperties.dfy`: what the test means.
  - `tmin` and `tmax` are the maximum of the entry parameters and the minimum of the exit parameters.
  - The interval holds exactly the ray parameters that no constrained axis excludes.
  - A hit means that some point strictly in front of the origin is excluded by no constrained axis.
  - The reported distance is the first contact when the origin is not admitted, and the far exit when it is.
  - Other results: swapping a box's faces changes nothing, the near-parallel quirk, and the test is exact when every axis is constrained.

A direction component is *constrained* when its magnitude exceeds `Epsilon = 1/10000`. A near-parallel axis is never consulted. This is deliberate and preserved: such an axis never rejects the ray, even when the origin lies outside the box on that axis (`ParallelAxisIgnored`, `ParallelQuirkExample`).

## Model

| member | source | states |
|---|---|---|
| `Collision.AxisTimes` | Collision.c:15-17 | the two crossing parameters of an axis come out ordered, entry <= exit, and as a multiset they are the two raw quotients (lo-o)/d and (hi-o)/d |
| `Collision.Narrow` | Collision.c:14-19 | a near-parallel axis leaves the interval unchanged; a constrained axis never lowers tmin nor raises tmax, and afterwards tmin >= that axis's entry and tmax <= its exit |
| `Collision.Bounds` | Collision.c:7-21 | the interval after k axes never has tmin = +infinity or tmax = -infinity |
| `Collision.Decide` | Collision.c:23-25 | on a hit, 0 < t <= tmax and t >= tmin; tmax <= 0 (box wholly behind the origin) or tmax < tmin is a miss |
| `Collision.RayIntersect` | Collision.c:5-27 | the reported distance is never -infinity |
| `Collision.RayIntersectAABB` | Collision.c:5-27 | the three-axis loop with its in-place swap and conditional updates returns exactly RayIntersect of its inputs (loop invariant: the locals equal Bounds after `axis` axes) |
| `CollisionProperties.BoundsAreExtremes` | Collision.c:7-21 | after k axes tmin is -infinity or the largest entry of a constrained axis seen, tmax is +infinity or the smallest exit, and every constrained entry <= tmin and every exit >= tmax |
| `CollisionProperties.BoundsMonotone` | Collision.c:18-19 | for j <= k, tmin after k axes >= tmin after j axes and tmax after k axes <= tmax after j axes |
| `CollisionProperties.SlabParameters` | Collision.c:15-17 | on a constrained axis, the point o + s*d lies between the two faces exactly when entry <= s <= exit |
| `CollisionProperties.NarrowAdmits` | Collision.c:14-19 | one loop step keeps a parameter s in [tmin, tmax] exactly when s was in it before and the axis is near-parallel or its slab contains the point o + s*d |
| `CollisionProperties.AdmitsIffInBounds` | Collision.c:13-21 | a parameter s lies in [tmin, tmax] after k axes exactly when none of the first k axes excludes the point o + s*d |
| `CollisionProperties.HitIffReaches` | Collision.c:24 | hit is true exactly when some point strictly in front of the origin is excluded by no constrained axis |
| `CollisionProperties.FirstContact` | Collision.c:24-25 | when the origin is excluded and the test hits, t is finite and positive, its point is admitted, and it is the least admitted parameter |
| `CollisionProperties.ExitFromInside` | Collision.c:24-25 | when the origin is admitted and the test hits, t = tmax, every admitted parameter is <= t, and a finite t is itself admitted |
| `CollisionProperties.ExitAheadOfInteriorPoint` | Collision.c:15-17 | an origin strictly between the faces gives a negative entry and a positive exit on that axis |
| `CollisionProperties.InsideOriginHitsAtExit` | Collision.c:7-25 | an origin strictly inside the box on every axis always hits, with t = tmax, the forward exit distance |
| `CollisionProperties.SameSlabsSameBounds` | Collision.c:13-21 | the interval depends on origin and box only through the sorted crossing parameters of the constrained axes |
| `CollisionProperties.SwapFacesSameResult` | Collision.c:15-19 | exchanging boxMin and boxMax on any one axis yields an identical result |
| `CollisionProperties.ParallelAxisIgnored` | Collision.c:13-14 | on an axis with abs(dir) <= 1/10000, the origin and both face coordinates may be changed arbitrarily without changing the result, so that axis never rejects the ray |
| `CollisionProperties.AllParallelHitsAtInfinity` | Collision.c:7-25 | when no direction component exceeds the threshold, the result is a hit at distance +infinity |
| `CollisionProperties.ParallelQuirkExample` | Collision.c:13-25 | a ray along z at x = 5 passes beside the box [-1,1]x[-1,1]x[2,3] and never touches it, yet the test reports a hit at t = 2 |
| `CollisionProperties.TouchesImpliesHit` | Collision.c:13-24 | if the ray truly passes through the box strictly in front of its origin, the test reports a hit (no false misses) |
| `CollisionProperties.ExactWhenAllConstrained` | Collision.c:13-24 | when every direction component exceeds the threshold, hit is true exactly when the ray truly passes through the box in front of its origin |

## Left out

- Floating point: the model uses exact reals. It does not model `float` rounding of the divisions, NaN, or the overflow of a quotient to ±infinity.
- The threshold `0.0001f` is taken as the exact rational 1/10000. The float literal is not exactly that value.
- The copies of the inputs into `float[3]` arrays (Collision.c:8-11) are modelled as read-only component selection (`Vec3.At`). The arrays are never written.
- Raycast, ground check, move resolution and the shape registry (`CollisionWorld.h`) are not modelled. The same goes for combat hit checks (`Combat.h`), door boxes (`DoorSystem.h`) and enemy line of sight (`Enemy.h`). Only their declarations exist, with no bodies, so their behaviour cannot be stated from source text.
- Camera basis computation (`GameMath.c`) is not modelled: it is floating-point trigonometry with nothing discrete to verify.
- Networking, rendering, geometry buffers, UI, audio and game-state bookkeeping are not part of this model. They are I/O or framework code with no collision logic.
