/**
 * Shared vocabulary of the ball physics engine: the tuning constants of
 * BallPhysics, the ball record, drag-history samples, 2D vectors, the
 * bounds clamp used everywhere, and the contract of the host's square root.
 */
module Physics {
  import opened RealArith

  // Tuning constants set by the BallPhysics constructor.
  const BallSize: real := 70.0
  const Gravity: real := 0.4
  const Friction: real := 0.98
  const GroundFriction: real := 0.99
  const BounceDamping: real := 0.95
  const MaxThrowVelocity: real := 15.0
  const VelocityMultiplier: real := 0.3
  /** Every ball record carries maxPositionHistory: 5. */
  const MaxPositionHistory: nat := 5
  /** addRandomBall refuses to spawn once this many balls exist. */
  const MaxBalls: nat := 40
  /** The double value of Math.PI, written out as a decimal. */
  const Pi: real := 3.141592653589793

  /** One entry of a ball's drag history; `time` is a Date.now() reading in milliseconds. */
  datatype Sample = Sample(x: real, y: real, time: int)

  /** A 2D vector: a velocity or a position. */
  datatype Vec = Vec(x: real, y: real)

  /**
   * A ball record. The DOM element, size, colour and per-ball
   * maxPositionHistory of the source record are not physics state.
   */
  datatype Ball = Ball(
    x: real, y: real,
    vx: real, vy: real,
    radius: real, mass: real,
    rotation: real, vrotation: real,
    isDragging: bool,
    dragOffsetX: real, dragOffsetY: real,
    dragStartTime: int,
    dragPositions: seq<Sample>)

  /** The mass every ball is given at creation: PI * r * r * 0.1. */
  function MassOf(radius: real): real
  {
    Pi * radius * radius * 0.1
  }

  /** Every ball is created with radius ballSize / 2. */
  const BallRadius: real := BallSize / 2.0

  lemma BallMassPositive()
    ensures MassOf(BallRadius) > 0.0
  {
  }

  /** Math.max(lo, Math.min(hi, v)). */
  function Clamp(v: real, lo: real, hi: real): (r: real)
    ensures lo <= r
    ensures lo <= hi ==> r <= hi
    ensures lo <= v <= hi ==> r == v
    ensures v < lo ==> r == lo
    ensures lo <= hi < v ==> r == hi
  {
    var m := if hi < v then hi else v;
    if lo < m then m else lo
  }

  /** The ball fits inside a W x H container. */
  predicate Fits(b: Ball, w: real, h: real)
  {
    2.0 * b.radius <= w && 2.0 * b.radius <= h
  }

  /** The containment invariant: the whole disk lies inside the container. */
  predicate InBounds(b: Ball, w: real, h: real)
  {
    b.radius <= b.x <= w - b.radius && b.radius <= b.y <= h - b.radius
  }

  /** Every ball that fits the container is inside it. */
  predicate Contained(bs: seq<Ball>, w: real, h: real)
  {
    forall k :: 0 <= k < |bs| && Fits(bs[k], w, h) ==> InBounds(bs[k], w, h)
  }

  /** The fields that no physics step touches: shape, mass, drag state and history. */
  predicate SameBody(a: Ball, b: Ball)
  {
    a.radius == b.radius && a.mass == b.mass && a.isDragging == b.isDragging &&
    a.dragOffsetX == b.dragOffsetX && a.dragOffsetY == b.dragOffsetY &&
    a.dragStartTime == b.dragStartTime && a.dragPositions == b.dragPositions
  }

  /** What every ball in the registry satisfies: positive radius and mass, bounded history. */
  predicate WellFormed(b: Ball)
  {
    b.radius > 0.0 && b.mass > 0.0 && |b.dragPositions| <= MaxPositionHistory
  }

  predicate AllWellFormed(bs: seq<Ball>)
  {
    forall k :: 0 <= k < |bs| ==> WellFormed(bs[k])
  }

  /** Two sequences of balls agree on everything physics never changes. */
  predicate SameBodies(a: seq<Ball>, b: seq<Ball>)
  {
    |a| == |b| && forall k :: 0 <= k < |a| ==> SameBody(a[k], b[k])
  }

  lemma SameBodiesPreservesWellFormed(a: seq<Ball>, b: seq<Ball>)
    requires SameBodies(a, b) && AllWellFormed(a)
    ensures AllWellFormed(b)
  {
    forall k | 0 <= k < |b| ensures WellFormed(b[k]) {
      assert SameBody(a[k], b[k]);
    }
  }

  /** The contract of the host's Math.sqrt on non-negative reals. */
  ghost predicate IsSqrt(sqrt: real -> real)
  {
    forall a :: 0.0 <= a ==> 0.0 <= sqrt(a) && sqrt(a) * sqrt(a) == a
  }

  /** A square root is below a positive bound exactly when its argument is below the bound squared. */
  lemma SqrtBelow(sqrt: real -> real, a: real, m: real)
    requires IsSqrt(sqrt) && 0.0 <= a && 0.0 < m
    ensures sqrt(a) < m <==> a < m * m
  {
    var s := sqrt(a);
    assert 0.0 <= s && s * s == a;
    if s < m {
      SquareLess(s, m);
    } else if m < s {
      SquareLess(m, s);
    }
  }

  /** The square root is the unique non-negative root. */
  lemma SqrtUnique(sqrt: real -> real, a: real, s: real)
    requires IsSqrt(sqrt) && 0.0 <= s && s * s == a
    ensures sqrt(a) == s
  {
    var t := sqrt(a);
    assert 0.0 <= t && t * t == a;
    if t < s {
      SquareLess(t, s);
    } else if s < t {
      SquareLess(s, t);
    }
  }

  /** The Euclidean length of (x, y) computed with the host's square root. */
  function Hypot(sqrt: real -> real, x: real, y: real): real
  {
    sqrt(x * x + y * y)
  }

  /** A positive length taken from the host square root gives a unit normal. */
  lemma {:induction false} UnitNormal(sqrt: real -> real, dx: real, dy: real)
    requires IsSqrt(sqrt) && Hypot(sqrt, dx, dy) > 0.0
    ensures var d := Hypot(sqrt, dx, dy);
      d * d == dx * dx + dy * dy &&
      (dx / d) * (dx / d) + (dy / d) * (dy / d) == 1.0
  {
    var d := Hypot(sqrt, dx, dy);
    assert 0.0 <= dx * dx + dy * dy;
    assert d * d == dx * dx + dy * dy;
    UnitLength(dx, dy, d);
  }
}
