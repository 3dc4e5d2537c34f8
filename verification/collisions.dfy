/**
 * The pairwise collision resolver: BallPhysics.checkBallCollisions and
 * handleBallCollision. Overlapping pairs of free balls are pushed apart in
 * proportion to the other ball's mass, then get a velocity response: nothing
 * for a separating pair, a fixed nudge for a slow approach, and otherwise a
 * restitution impulse with a spin coupling and a 0.98 energy bleed.
 */
module Collisions {
  import opened RealArith
  import opened Physics

  /** The response threshold below which an approach only gets a nudge. */
  const MinSeparation: real := 0.1
  /** The energy bleed applied after an impulse. */
  const CollisionDamping: real := 0.98

  /** Relative velocity of b2 with respect to b1 along the normal (nx, ny). */
  function NormalSpeed(b1: Ball, b2: Ball, nx: real, ny: real): real
  {
    (b2.vx - b1.vx) * nx + (b2.vy - b1.vy) * ny
  }

  function Abs(x: real): real { if x < 0.0 then -x else x }

  /**
   * The positional correction of handleBallCollision: along the unit normal
   * (nx, ny), b1 moves back by the overlap times b2's share of the total mass
   * and b2 moves forward by the overlap times b1's share.
   */
  function Correct(b1: Ball, b2: Ball, nx: real, ny: real, overlap: real): (r: (Ball, Ball))
    requires b1.mass + b2.mass != 0.0
    ensures r.0 == b1.(x := r.0.x, y := r.0.y) && r.1 == b2.(x := r.1.x, y := r.1.y)
  {
    var totalMass := b1.mass + b2.mass;
    (b1.(x := b1.x - overlap * (b2.mass / totalMass) * nx, y := b1.y - overlap * (b2.mass / totalMass) * ny),
     b2.(x := b2.x + overlap * (b1.mass / totalMass) * nx, y := b2.y + overlap * (b1.mass / totalMass) * ny))
  }

  /** Correct moves b1 back by (s1x, s1y) and b2 forward by (s2x, s2y), the mass shares of the overlap along the normal. It unfolds Correct for the proof of BallPhysics.PositionalCorrection. */
  lemma CorrectMoves(b1: Ball, b2: Ball, nx: real, ny: real, overlap: real, s1x: real, s1y: real, s2x: real, s2y: real)
    requires b1.mass + b2.mass != 0.0
    requires s1x == overlap * (b2.mass / (b1.mass + b2.mass)) * nx && s1y == overlap * (b2.mass / (b1.mass + b2.mass)) * ny
    requires s2x == overlap * (b1.mass / (b1.mass + b2.mass)) * nx && s2y == overlap * (b1.mass / (b1.mass + b2.mass)) * ny
    ensures Correct(b1, b2, nx, ny, overlap) == (b1.(x := b1.x - s1x, y := b1.y - s1y), b2.(x := b2.x + s2x, y := b2.y + s2y))
  {
    var c := Correct(b1, b2, nx, ny, overlap);
    assert c.0 == b1.(x := b1.x - s1x, y := b1.y - s1y);
    assert c.1 == b2.(x := b2.x + s2x, y := b2.y + s2y);
  }

  /** The response to a slow approach: a fixed nudge of MinSeparation along the normal, apart. */
  function Nudge(b1: Ball, b2: Ball, nx: real, ny: real): (r: (Ball, Ball))
    ensures r.0 == b1.(vx := r.0.vx, vy := r.0.vy) && r.1 == b2.(vx := r.1.vx, vy := r.1.vy)
  {
    (b1.(vx := b1.vx - nx * MinSeparation, vy := b1.vy - ny * MinSeparation),
     b2.(vx := b2.vx + nx * MinSeparation, vy := b2.vy + ny * MinSeparation))
  }

  /** The impulse magnitude j for a normal speed van: j times the inverse-mass sum is -(1 + e) * van. */
  function ImpulseMagnitude(m1: real, m2: real, van: real): (j: real)
    requires m1 > 0.0 && m2 > 0.0
    ensures j * (1.0 / m1 + 1.0 / m2) == -(1.0 + BounceDamping) * van
  {
    DivPositive(1.0, m1);
    DivPositive(1.0, m2);
    DivMul(-(1.0 + BounceDamping) * van, 1.0 / m1 + 1.0 / m2);
    (-(1.0 + BounceDamping) * van) / (1.0 / m1 + 1.0 / m2)
  }

  /** ApplyImpulse, field by field, with the impulse components (ix, iy) = j * (nx, ny) precomputed. It unfolds ApplyImpulse for the proof of BallPhysics.ImpulseResponse. */
  lemma ImpulseFields(b1: Ball, b2: Ball, j: real, nx: real, ny: real, w: real, ix: real, iy: real, r1: Ball, r2: Ball)
    requires b1.mass > 0.0 && b2.mass > 0.0 && ix == j * nx && iy == j * ny
    requires r1 == b1.(vx := (b1.vx - ix / b1.mass) * CollisionDamping, vy := (b1.vy - iy / b1.mass) * CollisionDamping,
                       vrotation := b1.vrotation - w / b1.mass)
    requires r2 == b2.(vx := (b2.vx + ix / b2.mass) * CollisionDamping, vy := (b2.vy + iy / b2.mass) * CollisionDamping,
                       vrotation := b2.vrotation + w / b2.mass)
    ensures (r1, r2) == ApplyImpulse(b1, b2, j, nx, ny, w)
  {
  }

  /**
   * Applies the opposite impulses j * (nx, ny) and spin impulse w to the
   * pair, each divided by the receiving ball's mass, then bleeds 2% of the
   * linear velocity.
   */
  function ApplyImpulse(b1: Ball, b2: Ball, j: real, nx: real, ny: real, w: real): (r: (Ball, Ball))
    requires b1.mass > 0.0 && b2.mass > 0.0
    ensures r.0 == b1.(vx := r.0.vx, vy := r.0.vy, vrotation := r.0.vrotation)
    ensures r.1 == b2.(vx := r.1.vx, vy := r.1.vy, vrotation := r.1.vrotation)
  {
    var ix, iy := j * nx, j * ny;
    (b1.(vx := (b1.vx - ix / b1.mass) * CollisionDamping,
         vy := (b1.vy - iy / b1.mass) * CollisionDamping,
         vrotation := b1.vrotation - w / b1.mass),
     b2.(vx := (b2.vx + ix / b2.mass) * CollisionDamping,
         vy := (b2.vy + iy / b2.mass) * CollisionDamping,
         vrotation := b2.vrotation + w / b2.mass))
  }

  /**
   * The response to a real approach at normal speed van: the impulse j along
   * the normal (restitution bounceDamping), a spin impulse from the
   * tangential speed, then the 0.98 bleed.
   */
  function Bounce(b1: Ball, b2: Ball, nx: real, ny: real, van: real): (r: (Ball, Ball))
    requires b1.mass > 0.0 && b2.mass > 0.0
    ensures r.0 == b1.(vx := r.0.vx, vy := r.0.vy, vrotation := r.0.vrotation)
    ensures r.1 == b2.(vx := r.1.vx, vy := r.1.vy, vrotation := r.1.vrotation)
  {
    var j := ImpulseMagnitude(b1.mass, b2.mass, van);
    ApplyImpulse(b1, b2, j, nx, ny, SpinImpulse(b1, b2, nx, ny))
  }

  /** The spin impulse: a tenth of the relative velocity's component across the normal. */
  function SpinImpulse(b1: Ball, b2: Ball, nx: real, ny: real): (w: real)
    // no spin exactly when the relative velocity is parallel to the normal
    ensures w == 0.0 <==> (b2.vx - b1.vx) * ny == (b2.vy - b1.vy) * nx
    // swapping the two balls reverses the spin
    ensures w == -(((b1.vx - b2.vx) * ny - (b1.vy - b2.vy) * nx) * 0.1)
  {
    ((b2.vx - b1.vx) * ny - (b2.vy - b1.vy) * nx) * 0.1
  }

  /** The impulse response is the impulse j along the normal plus the spin impulse w. It unfolds Bounce for the proof of BallPhysics.ImpulseResponse. */
  lemma BounceApplies(b1: Ball, b2: Ball, nx: real, ny: real, van: real, j: real, w: real)
    requires b1.mass > 0.0 && b2.mass > 0.0
    requires j == ImpulseMagnitude(b1.mass, b2.mass, van)
    requires w == SpinImpulse(b1, b2, nx, ny)
    ensures Bounce(b1, b2, nx, ny, van) == ApplyImpulse(b1, b2, j, nx, ny, w)
  {
  }

  /** The impulse response keeps the pair's momentum, up to the 0.98 bleed. */
  lemma BounceMomentum(b1: Ball, b2: Ball, nx: real, ny: real, van: real)
    requires b1.mass > 0.0 && b2.mass > 0.0
    ensures MomentumBled(b1, b2, Bounce(b1, b2, nx, ny, van))
  {
    var j := ImpulseMagnitude(b1.mass, b2.mass, van);
    var w := SpinImpulse(b1, b2, nx, ny);
    BounceApplies(b1, b2, nx, ny, van, j, w);
    ImpulsePairMomentum(b1, b2, j, nx, ny, w);
  }

  /** Along a unit normal, with van the pair's normal speed, the impulse response restitutes. */
  lemma BounceRestitutes(b1: Ball, b2: Ball, nx: real, ny: real, van: real)
    requires b1.mass > 0.0 && b2.mass > 0.0
    requires nx * nx + ny * ny == 1.0 && van == NormalSpeed(b1, b2, nx, ny)
    ensures Restitutes(b1, b2, nx, ny, Bounce(b1, b2, nx, ny, van))
  {
    var j := ImpulseMagnitude(b1.mass, b2.mass, van);
    var w := SpinImpulse(b1, b2, nx, ny);
    BounceApplies(b1, b2, nx, ny, van, j, w);
    ImpulsePairRestitution(b1, b2, nx, ny, j, w);
  }

  /**
   * The collision response of handleBallCollision on two ball values. The
   * caller passes the centre offset (dx, dy) from b1 to b2, its length and the
   * contact distance r1 + r2.
   */
  function Collide(b1: Ball, b2: Ball, dx: real, dy: real, distance: real, minDistance: real): (r: (Ball, Ball))
    requires distance > 0.0 && b1.mass > 0.0 && b2.mass > 0.0
    ensures SameBody(r.0, b1) && SameBody(r.1, b2)
    ensures r.0.rotation == b1.rotation && r.1.rotation == b2.rotation
  {
    var nx := dx / distance;
    var ny := dy / distance;
    var p := Correct(b1, b2, nx, ny, minDistance - distance);
    var velAlongNormal := NormalSpeed(b1, b2, nx, ny);
    if velAlongNormal > 0.0 then p
    else if Abs(velAlongNormal) < MinSeparation then Nudge(p.0, p.1, nx, ny)
    else Bounce(p.0, p.1, nx, ny, velAlongNormal)
  }

  /** Whatever the velocity response, the pair ends at the corrected positions. */
  lemma CollidePositions(b1: Ball, b2: Ball, dx: real, dy: real, distance: real, minDistance: real)
    requires distance > 0.0 && b1.mass > 0.0 && b2.mass > 0.0
    ensures var r := Collide(b1, b2, dx, dy, distance, minDistance);
      var c := Correct(b1, b2, dx / distance, dy / distance, minDistance - distance);
      r.0.x == c.0.x && r.0.y == c.0.y && r.1.x == c.1.x && r.1.y == c.1.y
  {
  }

  /** The two mass shares of a pair add up to one. */
  lemma MassShares(m1: real, m2: real)
    requires m1 > 0.0 && m2 > 0.0
    ensures m2 / (m1 + m2) + m1 / (m1 + m2) == 1.0
  {
    DivAdd(m2, m1, m1 + m2);
    DivSelf(m1 + m2);
  }

  /** Each mass times the other's share is the same quantity, m1 * m2 / (m1 + m2). */
  lemma CrossShares(m1: real, m2: real)
    requires m1 > 0.0 && m2 > 0.0
    ensures m1 * (m2 / (m1 + m2)) == m2 * (m1 / (m1 + m2))
  {
  }

  /** One coordinate of the correction: the gap along the normal becomes n * minDistance. */
  lemma ContactCoordinate(p1: real, p2: real, n: real, d: real, md: real, a: real, c: real)
    requires a + c == 1.0 && p2 - p1 == n * d
    ensures (p2 + (md - d) * c * n) - (p1 - (md - d) * a * n) == n * md
  {
  }

  /** One coordinate of the centre of mass under opposite mass-weighted shifts. */
  lemma BalancedShift(m1: real, m2: real, x1: real, x2: real, y1: real, y2: real, o: real, a: real, c: real, n: real)
    requires m1 * a == m2 * c
    requires y1 == x1 - o * a * n && y2 == x2 + o * c * n
    ensures m1 * y1 + m2 * y2 == m1 * x1 + m2 * x2
  {
    calc {
      m1 * y1 + m2 * y2;
      m1 * x1 + m2 * x2 + o * n * (m2 * c - m1 * a);
      m1 * x1 + m2 * x2 + o * n * 0.0;
    }
  }

  /** The centres of b1 and b2 are exactly m apart (compared on squares). */
  predicate AtDistance(b1: Ball, b2: Ball, m: real)
  {
    (b2.x - b1.x) * (b2.x - b1.x) + (b2.y - b1.y) * (b2.y - b1.y) == m * m
  }

  /**
   * Positional correction puts the two centres exactly at contact distance:
   * the new centre offset is the unit normal scaled by minDistance, whatever
   * the masses.
   */
  lemma {:induction false} CorrectionReachesContact(b1: Ball, b2: Ball, dx: real, dy: real, distance: real, minDistance: real)
    requires distance > 0.0 && b1.mass > 0.0 && b2.mass > 0.0
    requires dx == b2.x - b1.x && dy == b2.y - b1.y && distance * distance == dx * dx + dy * dy
    ensures var r := Collide(b1, b2, dx, dy, distance, minDistance);
      AtDistance(r.0, r.1, minDistance)
  {
    CollidePositions(b1, b2, dx, dy, distance, minDistance);
    CorrectContact(b1, b2, dx, dy, distance, minDistance);
  }

  /** CorrectionReachesContact for the positional correction alone. */
  lemma CorrectContact(b1: Ball, b2: Ball, dx: real, dy: real, distance: real, minDistance: real)
    requires distance > 0.0 && b1.mass > 0.0 && b2.mass > 0.0
    requires dx == b2.x - b1.x && dy == b2.y - b1.y && distance * distance == dx * dx + dy * dy
    ensures var c := Correct(b1, b2, dx / distance, dy / distance, minDistance - distance);
      AtDistance(c.0, c.1, minDistance)
  {
    var nx, ny := dx / distance, dy / distance;
    var c := Correct(b1, b2, nx, ny, minDistance - distance);
    var t := b1.mass + b2.mass;
    UnitLength(dx, dy, distance);
    MassShares(b1.mass, b2.mass);
    DivMul(dx, distance);
    DivMul(dy, distance);
    ContactCoordinate(b1.x, b2.x, nx, distance, minDistance, b2.mass / t, b1.mass / t);
    ContactCoordinate(b1.y, b2.y, ny, distance, minDistance, b2.mass / t, b1.mass / t);
    ScaleUnit(c.1.x - c.0.x, c.1.y - c.0.y, nx, ny, minDistance);
  }

  /**
   * Positional correction keeps the pair's centre of mass where it was: each
   * ball moves against the other by the overlap times the other's mass share.
   */
  lemma {:induction false} CorrectionKeepsCentreOfMass(b1: Ball, b2: Ball, dx: real, dy: real, distance: real, minDistance: real)
    requires distance > 0.0 && b1.mass > 0.0 && b2.mass > 0.0
    ensures var r := Collide(b1, b2, dx, dy, distance, minDistance);
      b1.mass * r.0.x + b2.mass * r.1.x == b1.mass * b1.x + b2.mass * b2.x &&
      b1.mass * r.0.y + b2.mass * r.1.y == b1.mass * b1.y + b2.mass * b2.y
  {
    CollidePositions(b1, b2, dx, dy, distance, minDistance);
    CorrectCentre(b1, b2, dx / distance, dy / distance, minDistance - distance);
  }

  /** CorrectionKeepsCentreOfMass for the positional correction alone. */
  lemma CorrectCentre(b1: Ball, b2: Ball, nx: real, ny: real, overlap: real)
    requires b1.mass > 0.0 && b2.mass > 0.0
    ensures var c := Correct(b1, b2, nx, ny, overlap);
      b1.mass * c.0.x + b2.mass * c.1.x == b1.mass * b1.x + b2.mass * b2.x &&
      b1.mass * c.0.y + b2.mass * c.1.y == b1.mass * b1.y + b2.mass * b2.y
  {
    var c := Correct(b1, b2, nx, ny, overlap);
    var t := b1.mass + b2.mass;
    var a, e := b2.mass / t, b1.mass / t;
    CrossShares(b1.mass, b2.mass);
    BalancedShift(b1.mass, b2.mass, b1.x, b2.x, c.0.x, c.1.x, overlap, a, e, nx);
    BalancedShift(b1.mass, b2.mass, b1.y, b2.y, c.0.y, c.1.y, overlap, a, e, ny);
  }

  /**
   * Each ball moves by the overlap times the other ball's share of the total
   * mass, so the heavier ball moves less.
   */
  lemma {:induction false} CorrectionByMassShare(b1: Ball, b2: Ball, dx: real, dy: real, distance: real, minDistance: real)
    requires distance > 0.0 && b1.mass > 0.0 && b2.mass > 0.0
    requires distance * distance == dx * dx + dy * dy
    ensures var r := Collide(b1, b2, dx, dy, distance, minDistance);
      var t := b1.mass + b2.mass;
      HasLength(r.0.x - b1.x, r.0.y - b1.y, (minDistance - distance) * (b2.mass / t)) &&
      HasLength(r.1.x - b2.x, r.1.y - b2.y, (minDistance - distance) * (b1.mass / t))
  {
    CollidePositions(b1, b2, dx, dy, distance, minDistance);
    CorrectShares(b1, b2, dx, dy, distance, minDistance);
  }

  /** CorrectionByMassShare for the positional correction alone. */
  lemma CorrectShares(b1: Ball, b2: Ball, dx: real, dy: real, distance: real, minDistance: real)
    requires distance > 0.0 && b1.mass > 0.0 && b2.mass > 0.0
    requires distance * distance == dx * dx + dy * dy
    ensures var c := Correct(b1, b2, dx / distance, dy / distance, minDistance - distance);
      var t := b1.mass + b2.mass;
      HasLength(c.0.x - b1.x, c.0.y - b1.y, (minDistance - distance) * (b2.mass / t)) &&
      HasLength(c.1.x - b2.x, c.1.y - b2.y, (minDistance - distance) * (b1.mass / t))
  {
    var overlap := minDistance - distance;
    var t := b1.mass + b2.mass;
    var nx, ny := dx / distance, dy / distance;
    var c := Correct(b1, b2, nx, ny, overlap);
    var s1, s2 := overlap * (b2.mass / t), overlap * (b1.mass / t);
    assert c.0.x - b1.x == nx * -s1 && c.0.y - b1.y == ny * -s1;
    assert c.1.x - b2.x == nx * s2 && c.1.y - b2.y == ny * s2;
    UnitLength(dx, dy, distance);
    ScaleUnit(c.0.x - b1.x, c.0.y - b1.y, nx, ny, -s1);
    ScaleUnit(c.1.x - b2.x, c.1.y - b2.y, nx, ny, s2);
  }

  /**
   * Two bodies of radius 35 and equal mass, at rest with centres 50 apart on a
   * horizontal line: each moves 10 units outward and they end exactly 70 apart.
   */
  lemma EqualMassExample(b1: Ball, b2: Ball, sqrt: real -> real)
    requires IsSqrt(sqrt) && b1.mass > 0.0 && b2.mass == b1.mass
    requires b1.radius == 35.0 && b2.radius == 35.0
    requires b2.x == b1.x + 50.0 && b2.y == b1.y
    requires b1.vx == b1.vy == b2.vx == b2.vy == 0.0
    ensures var dx, dy := b2.x - b1.x, b2.y - b1.y;
      var r := Collide(b1, b2, dx, dy, Hypot(sqrt, dx, dy), b1.radius + b2.radius);
      r.0.x == b1.x - 10.0 && r.1.x == b2.x + 10.0 && r.0.y == b1.y && r.1.y == b2.y &&
      r.1.x - r.0.x == 70.0
  {
    SqrtUnique(sqrt, 50.0 * 50.0 + 0.0 * 0.0, 50.0);
    var t := b1.mass + b2.mass;
    assert b2.mass / t == 0.5;
  }

  /** An already separating pair keeps its velocities and spins. */
  lemma SeparatingPairKeepsVelocities(b1: Ball, b2: Ball, dx: real, dy: real, distance: real, minDistance: real)
    requires distance > 0.0 && b1.mass > 0.0 && b2.mass > 0.0
    requires NormalSpeed(b1, b2, dx / distance, dy / distance) > 0.0
    ensures var r := Collide(b1, b2, dx, dy, distance, minDistance);
      r.0.vx == b1.vx && r.0.vy == b1.vy && r.0.vrotation == b1.vrotation &&
      r.1.vx == b2.vx && r.1.vy == b2.vy && r.1.vrotation == b2.vrotation
  {
  }

  /** A slow approach gets the fixed nudge of 0.1 along the normal, in opposite directions. */
  lemma SlowApproachNudge(b1: Ball, b2: Ball, dx: real, dy: real, distance: real, minDistance: real)
    requires distance > 0.0 && b1.mass > 0.0 && b2.mass > 0.0
    requires -MinSeparation < NormalSpeed(b1, b2, dx / distance, dy / distance) <= 0.0
    ensures var r := Collide(b1, b2, dx, dy, distance, minDistance);
      var nx, ny := dx / distance, dy / distance;
      r.0.vx == b1.vx - 0.1 * nx && r.0.vy == b1.vy - 0.1 * ny &&
      r.1.vx == b2.vx + 0.1 * nx && r.1.vy == b2.vy + 0.1 * ny &&
      r.0.vrotation == b1.vrotation && r.1.vrotation == b2.vrotation
  {
  }

  /** Equal and opposite impulses p leave m1 * v1 + m2 * v2 unchanged, up to the factor cd. */
  lemma OppositeImpulses(m1: real, m2: real, v1: real, v2: real, p: real, cd: real)
    requires m1 != 0.0 && m2 != 0.0
    ensures m1 * ((v1 - p / m1) * cd) + m2 * ((v2 + p / m2) * cd) == cd * (m1 * v1 + m2 * v2)
    ensures m1 * (v1 - p / m1) + m2 * (v2 + p / m2) == m1 * v1 + m2 * v2
  {
    DivMul(p, m1);
    DivMul(p, m2);
  }

  /**
   * The pair's momentum after the response r is the momentum before, scaled
   * by the 0.98 bleed; the spin impulses cancel in the same mass-weighted sense.
   */
  predicate MomentumBled(b1: Ball, b2: Ball, r: (Ball, Ball))
  {
    b1.mass * r.0.vx + b2.mass * r.1.vx == CollisionDamping * (b1.mass * b1.vx + b2.mass * b2.vx) &&
    b1.mass * r.0.vy + b2.mass * r.1.vy == CollisionDamping * (b1.mass * b1.vy + b2.mass * b2.vy) &&
    b1.mass * r.0.vrotation + b2.mass * r.1.vrotation == b1.mass * b1.vrotation + b2.mass * b2.vrotation
  }

  /** The impulse is equal and opposite: the response keeps the pair's momentum, up to the bleed. */
  lemma {:induction false} ImpulseConservesMomentum(b1: Ball, b2: Ball, dx: real, dy: real, distance: real, minDistance: real)
    requires distance > 0.0 && b1.mass > 0.0 && b2.mass > 0.0
    requires NormalSpeed(b1, b2, dx / distance, dy / distance) <= -MinSeparation
    ensures MomentumBled(b1, b2, Collide(b1, b2, dx, dy, distance, minDistance))
  {
    var nx, ny := dx / distance, dy / distance;
    var c := Correct(b1, b2, nx, ny, minDistance - distance);
    CollideBounces(b1, b2, dx, dy, distance, minDistance);
    BounceMomentum(c.0, c.1, nx, ny, NormalSpeed(b1, b2, nx, ny));
    MomentumBledSame(c.0, c.1, b1, b2, Collide(b1, b2, dx, dy, distance, minDistance));
  }

  /** MomentumBled only looks at the masses and velocities of the pair before. */
  lemma MomentumBledSame(a1: Ball, a2: Ball, b1: Ball, b2: Ball, r: (Ball, Ball))
    requires a1.mass == b1.mass && a1.vx == b1.vx && a1.vy == b1.vy && a1.vrotation == b1.vrotation
    requires a2.mass == b2.mass && a2.vx == b2.vx && a2.vy == b2.vy && a2.vrotation == b2.vrotation
    requires MomentumBled(a1, a2, r)
    ensures MomentumBled(b1, b2, r)
  {
  }

  /** A real approach gets the impulse response, applied to the corrected pair. */
  lemma CollideBounces(b1: Ball, b2: Ball, dx: real, dy: real, distance: real, minDistance: real)
    requires distance > 0.0 && b1.mass > 0.0 && b2.mass > 0.0
    requires NormalSpeed(b1, b2, dx / distance, dy / distance) <= -MinSeparation
    ensures var nx, ny := dx / distance, dy / distance;
      var c := Correct(b1, b2, nx, ny, minDistance - distance);
      Collide(b1, b2, dx, dy, distance, minDistance) == Bounce(c.0, c.1, nx, ny, NormalSpeed(b1, b2, nx, ny)) &&
      c.0.vx == b1.vx && c.0.vy == b1.vy && c.0.vrotation == b1.vrotation && c.0.mass == b1.mass &&
      c.1.vx == b2.vx && c.1.vy == b2.vy && c.1.vrotation == b2.vrotation && c.1.mass == b2.mass
  {
  }

  /** Opposite impulses of any size conserve the pair's momentum, up to the 0.98 bleed. */
  lemma ImpulsePairMomentum(b1: Ball, b2: Ball, j: real, nx: real, ny: real, w: real)
    requires b1.mass > 0.0 && b2.mass > 0.0
    ensures MomentumBled(b1, b2, ApplyImpulse(b1, b2, j, nx, ny, w))
  {
    var m1, m2 := b1.mass, b2.mass;
    OppositeImpulses(m1, m2, b1.vx, b2.vx, j * nx, CollisionDamping);
    OppositeImpulses(m1, m2, b1.vy, b2.vy, j * ny, CollisionDamping);
    OppositeImpulses(m1, m2, b1.vrotation, b2.vrotation, w, CollisionDamping);
  }

  /**
   * The restitution law along the unit normal (nx, ny): after the response r
   * the relative normal speed is the approach speed reversed and scaled by
   * bounceDamping, and then by the 0.98 bleed.
   */
  predicate Restitutes(b1: Ball, b2: Ball, nx: real, ny: real, r: (Ball, Ball))
  {
    NormalSpeed(r.0, r.1, nx, ny) == -BounceDamping * CollisionDamping * NormalSpeed(b1, b2, nx, ny)
  }

  /** The impulse response obeys the restitution law. */
  lemma {:induction false} ImpulseRestitution(b1: Ball, b2: Ball, dx: real, dy: real, distance: real, minDistance: real)
    requires distance > 0.0 && b1.mass > 0.0 && b2.mass > 0.0
    requires distance * distance == dx * dx + dy * dy
    requires NormalSpeed(b1, b2, dx / distance, dy / distance) <= -MinSeparation
    ensures Restitutes(b1, b2, dx / distance, dy / distance, Collide(b1, b2, dx, dy, distance, minDistance))
  {
    var nx, ny := dx / distance, dy / distance;
    var c := Correct(b1, b2, nx, ny, minDistance - distance);
    UnitLength(dx, dy, distance);
    CollideBounces(b1, b2, dx, dy, distance, minDistance);
    assert NormalSpeed(c.0, c.1, nx, ny) == NormalSpeed(b1, b2, nx, ny);
    BounceRestitutes(c.0, c.1, nx, ny, NormalSpeed(b1, b2, nx, ny));
  }

  /** Restitution for any impulse j that solves the impulse equation. */
  lemma ImpulsePairRestitution(b1: Ball, b2: Ball, nx: real, ny: real, j: real, w: real)
    requires b1.mass > 0.0 && b2.mass > 0.0 && nx * nx + ny * ny == 1.0
    requires j * (1.0 / b1.mass + 1.0 / b2.mass) == -(1.0 + BounceDamping) * NormalSpeed(b1, b2, nx, ny)
    ensures Restitutes(b1, b2, nx, ny, ApplyImpulse(b1, b2, j, nx, ny, w))
  {
    var r := ApplyImpulse(b1, b2, j, nx, ny, w);
    ImpulsePairRelative(b1, b2, j, nx, ny, w);
    RestitutionAlongNormal(r.1.vx - r.0.vx, r.1.vy - r.0.vy, b2.vx - b1.vx, b2.vy - b1.vy, nx, ny,
                           j, 1.0 / b1.mass + 1.0 / b2.mass, BounceDamping, CollisionDamping);
  }

  /** Opposite impulses j * (nx, ny) change the relative velocity by the impulse times the inverse-mass sum. */
  lemma ImpulsePairRelative(b1: Ball, b2: Ball, j: real, nx: real, ny: real, w: real)
    requires b1.mass > 0.0 && b2.mass > 0.0
    ensures var r := ApplyImpulse(b1, b2, j, nx, ny, w);
      var k := 1.0 / b1.mass + 1.0 / b2.mass;
      r.1.vx - r.0.vx == ((b2.vx - b1.vx) + j * nx * k) * CollisionDamping &&
      r.1.vy - r.0.vy == ((b2.vy - b1.vy) + j * ny * k) * CollisionDamping
  {
    var m1, m2 := b1.mass, b2.mass;
    var ix, iy := j * nx, j * ny;
    SplitDiv(ix, m1, m2);
    SplitDiv(iy, m1, m2);
    RelativeChange(b1.vx, b2.vx, ix / m1, ix / m2, ix * (1.0 / m1 + 1.0 / m2), CollisionDamping);
    RelativeChange(b1.vy, b2.vy, iy / m1, iy / m2, iy * (1.0 / m1 + 1.0 / m2), CollisionDamping);
  }

  /** The change of the relative velocity under opposite impulses a1, a2 of total p. */
  lemma RelativeChange(v1: real, v2: real, a1: real, a2: real, p: real, cd: real)
    requires a2 + a1 == p
    ensures (v2 + a2) * cd - (v1 - a1) * cd == ((v2 - v1) + p) * cd
  {
  }

  /**
   * The restitution identity along a unit normal: the relative velocity
   * (ux, uy) after an impulse j whose product with the inverse-mass sum k is
   * -(1 + e) times the approach speed.
   */
  lemma RestitutionAlongNormal(ux: real, uy: real, rvx: real, rvy: real, nx: real, ny: real,
                               j: real, k: real, e: real, cd: real)
    requires nx * nx + ny * ny == 1.0
    requires j * k == -(1.0 + e) * (rvx * nx + rvy * ny)
    requires ux == (rvx + (j * nx) * k) * cd && uy == (rvy + (j * ny) * k) * cd
    ensures ux * nx + uy * ny == -e * cd * (rvx * nx + rvy * ny)
  {
    var jk := j * k;
    assert (j * nx) * k == jk * nx && (j * ny) * k == jk * ny;
    ScaledDot(rvx + jk * nx, rvy + jk * ny, nx, ny, cd);
    Projection(rvx, rvy, nx, ny, jk);
  }

  /** Scaling both components by cd scales their projection by cd. */
  lemma ScaledDot(x: real, y: real, nx: real, ny: real, cd: real)
    ensures (x * cd) * nx + (y * cd) * ny == cd * (x * nx + y * ny)
  {
  }

  /** Adding jk times a unit normal adds jk to the projection on it. */
  lemma Projection(rvx: real, rvy: real, nx: real, ny: real, jk: real)
    requires nx * nx + ny * ny == 1.0
    ensures (rvx + jk * nx) * nx + (rvy + jk * ny) * ny == (rvx * nx + rvy * ny) + jk
  {
    assert (rvx + jk * nx) * nx + (rvy + jk * ny) * ny == (rvx * nx + rvy * ny) + jk * (nx * nx + ny * ny);
  }

  /** Two bodies are apart when their centres are at least r1 + r2 away (compared on squares). */
  predicate Apart(b1: Ball, b2: Ball)
  {
    (b2.x - b1.x) * (b2.x - b1.x) + (b2.y - b1.y) * (b2.y - b1.y) >= (b1.radius + b2.radius) * (b1.radius + b2.radius)
  }

  /** No pair of free (non-dragging) balls overlaps. */
  predicate NoFreeOverlap(bs: seq<Ball>)
  {
    forall i, j :: 0 <= i < j < |bs| && !bs[i].isDragging && !bs[j].isDragging ==> Apart(bs[i], bs[j])
  }

  /**
   * The body of the inner loop of checkBallCollisions for the pair i < j: a
   * pair involving a dragged ball is skipped; an overlapping pair is handed to
   * handleBallCollision. A pair whose centres coincide (distance 0) is skipped.
   */
  function ResolvePair(bs: seq<Ball>, i: nat, j: nat, sqrt: real -> real): (r: seq<Ball>)
    requires i < j < |bs| && AllWellFormed(bs)
    ensures SameBodies(bs, r) && AllWellFormed(r)
    ensures forall k :: 0 <= k < |bs| && k != i && k != j ==> r[k] == bs[k]
    ensures bs[i].isDragging || bs[j].isDragging ==> r == bs
  {
    var b1, b2 := bs[i], bs[j];
    if b1.isDragging || b2.isDragging then bs
    else
      var dx, dy := b2.x - b1.x, b2.y - b1.y;
      var distance := Hypot(sqrt, dx, dy);
      var minDistance := b1.radius + b2.radius;
      if distance < minDistance && distance > 0.0 then
        var p := Collide(b1, b2, dx, dy, distance, minDistance);
        var r := bs[i := p.0][j := p.1];
        assert SameBodies(bs, r) by {
          forall k | 0 <= k < |bs| ensures SameBody(bs[k], r[k]) {}
        }
        SameBodiesPreservesWellFormed(bs, r);
        r
      else bs
  }

  /** A pair that is apart is left untouched. */
  lemma ApartPairUntouched(bs: seq<Ball>, i: nat, j: nat, sqrt: real -> real)
    requires IsSqrt(sqrt) && i < j < |bs| && AllWellFormed(bs)
    requires Apart(bs[i], bs[j])
    ensures ResolvePair(bs, i, j, sqrt) == bs
  {
    var b1, b2 := bs[i], bs[j];
    var dx, dy := b2.x - b1.x, b2.y - b1.y;
    assert WellFormed(b1) && WellFormed(b2);
    SumOfSquares(dx, dy);
    SqrtBelow(sqrt, dx * dx + dy * dy, b1.radius + b2.radius);
    assert !(Hypot(sqrt, dx, dy) < b1.radius + b2.radius);
  }

  /**
   * A free overlapping pair (with distinct centres) ends the pair step at
   * exact contact distance r1 + r2.
   */
  lemma OverlappingPairReachesContact(bs: seq<Ball>, i: nat, j: nat, sqrt: real -> real)
    requires IsSqrt(sqrt) && i < j < |bs| && AllWellFormed(bs)
    requires !bs[i].isDragging && !bs[j].isDragging
    requires 0.0 < Hypot(sqrt, bs[j].x - bs[i].x, bs[j].y - bs[i].y) < bs[i].radius + bs[j].radius
    ensures var r := ResolvePair(bs, i, j, sqrt);
      AtDistance(r[i], r[j], bs[i].radius + bs[j].radius)
  {
    UnitNormal(sqrt, bs[j].x - bs[i].x, bs[j].y - bs[i].y);
    PairContact(bs, i, j, sqrt, Hypot(sqrt, bs[j].x - bs[i].x, bs[j].y - bs[i].y));
  }

  /** OverlappingPairReachesContact once the length d of the centre offset is known. */
  lemma PairContact(bs: seq<Ball>, i: nat, j: nat, sqrt: real -> real, d: real)
    requires i < j < |bs| && AllWellFormed(bs)
    requires !bs[i].isDragging && !bs[j].isDragging
    requires d == Hypot(sqrt, bs[j].x - bs[i].x, bs[j].y - bs[i].y)
    requires 0.0 < d < bs[i].radius + bs[j].radius
    requires d * d == (bs[j].x - bs[i].x) * (bs[j].x - bs[i].x) + (bs[j].y - bs[i].y) * (bs[j].y - bs[i].y)
    ensures var r := ResolvePair(bs, i, j, sqrt);
      AtDistance(r[i], r[j], bs[i].radius + bs[j].radius)
  {
    var b1, b2 := bs[i], bs[j];
    assert WellFormed(b1) && WellFormed(b2);
    var md := b1.radius + b2.radius;
    CorrectionReachesContact(b1, b2, b2.x - b1.x, b2.y - b1.y, d, md);
    var p := Collide(b1, b2, b2.x - b1.x, b2.y - b1.y, d, md);
    var r := ResolvePair(bs, i, j, sqrt);
    assert r[i] == p.0 && r[j] == p.1;
  }

  /**
   * The nested loops of checkBallCollisions from pair (i, j) onwards: row i
   * pairs ball i with every later ball j, then the next row starts at i + 1.
   */
  function Sweep(bs: seq<Ball>, i: nat, j: nat, sqrt: real -> real): (r: seq<Ball>)
    requires i < j && AllWellFormed(bs)
    ensures |r| == |bs| && AllWellFormed(r)
    decreases |bs| - i, |bs| - j
  {
    if i >= |bs| then bs
    else if j >= |bs| then Sweep(bs, i + 1, i + 2, sqrt)
    else
      var next := ResolvePair(bs, i, j, sqrt);
      Sweep(next, i, j + 1, sqrt)
  }

  /** One step of the sweep: resolve pair (i, j), then continue with (i, j + 1). It unfolds Sweep for the loop invariants of BallPhysics.CollideRow. */
  lemma SweepStep(bs: seq<Ball>, i: nat, j: nat, sqrt: real -> real)
    requires i < j < |bs| && AllWellFormed(bs)
    ensures Sweep(bs, i, j, sqrt) == Sweep(ResolvePair(bs, i, j, sqrt), i, j + 1, sqrt)
  {
  }

  /** The end of row i: the sweep continues with row i + 1. */
  lemma SweepRowEnd(bs: seq<Ball>, i: nat, sqrt: real -> real)
    requires i < |bs| && AllWellFormed(bs)
    ensures Sweep(bs, i, |bs|, sqrt) == Sweep(bs, i + 1, i + 2, sqrt)
  {
  }

  /** Past the last row the sweep has nothing left to do. */
  lemma SweepDone(bs: seq<Ball>, i: nat, sqrt: real -> real)
    requires |bs| <= i && AllWellFormed(bs)
    ensures Sweep(bs, i, i + 1, sqrt) == bs
  {
  }

  /**
   * The sweep only moves balls and changes their velocities and spins, and a
   * dragged ball is never touched.
   */
  lemma {:induction false} SweepKeepsBodies(bs: seq<Ball>, i: nat, j: nat, sqrt: real -> real)
    requires i < j && AllWellFormed(bs)
    ensures BodiesKept(bs, Sweep(bs, i, j, sqrt))
    decreases |bs| - i, |bs| - j
  {
    if i >= |bs| {
    } else if j >= |bs| {
      SweepKeepsBodies(bs, i + 1, i + 2, sqrt);
    } else {
      var next := ResolvePair(bs, i, j, sqrt);
      SweepKeepsBodies(next, i, j + 1, sqrt);
      SweepKeepsBodiesStep(bs, i, j, sqrt);
    }
  }

  /** The bodies of a are those of b, and every ball dragged in a is untouched in b. */
  predicate BodiesKept(a: seq<Ball>, b: seq<Ball>)
  {
    SameBodies(a, b) && forall k :: 0 <= k < |a| && a[k].isDragging ==> b[k] == a[k]
  }

  /** BodiesKept composes. */
  lemma BodiesKeptChain(a: seq<Ball>, b: seq<Ball>, c: seq<Ball>)
    requires BodiesKept(a, b) && BodiesKept(b, c)
    ensures BodiesKept(a, c)
  {
    assert SameBodies(a, c) by {
      forall k | 0 <= k < |a| ensures SameBody(a[k], c[k]) {
        assert SameBody(a[k], b[k]) && SameBody(b[k], c[k]);
      }
    }
  }

  /** The inductive step of SweepKeepsBodies: pair (i, j), then the rest of the sweep. */
  lemma SweepKeepsBodiesStep(bs: seq<Ball>, i: nat, j: nat, sqrt: real -> real)
    requires i < j < |bs| && AllWellFormed(bs)
    requires var next := ResolvePair(bs, i, j, sqrt);
      BodiesKept(next, Sweep(next, i, j + 1, sqrt))
    ensures BodiesKept(bs, Sweep(bs, i, j, sqrt))
  {
    var next := ResolvePair(bs, i, j, sqrt);
    SweepStep(bs, i, j, sqrt);
    assert BodiesKept(bs, next);
    BodiesKeptChain(bs, next, Sweep(next, i, j + 1, sqrt));
  }

  /** One full pass of checkBallCollisions over the registry. */
  function CollideAll(bs: seq<Ball>, sqrt: real -> real): (r: seq<Ball>)
    requires AllWellFormed(bs)
    ensures SameBodies(bs, r) && AllWellFormed(r)
    ensures forall k :: 0 <= k < |bs| && bs[k].isDragging ==> r[k] == bs[k]
  {
    SweepKeepsBodies(bs, 0, 1, sqrt);
    Sweep(bs, 0, 1, sqrt)
  }

  /** When no two free balls overlap, the rest of the sweep changes nothing. */
  lemma {:induction false} QuietSweep(bs: seq<Ball>, i: nat, j: nat, sqrt: real -> real)
    requires IsSqrt(sqrt) && i < j && AllWellFormed(bs) && NoFreeOverlap(bs)
    ensures Sweep(bs, i, j, sqrt) == bs
    decreases |bs| - i, |bs| - j
  {
    if i >= |bs| {
    } else if j >= |bs| {
      QuietSweep(bs, i + 1, i + 2, sqrt);
    } else {
      if !bs[i].isDragging && !bs[j].isDragging {
        ApartPairUntouched(bs, i, j, sqrt);
      }
      QuietSweep(bs, i, j + 1, sqrt);
    }
  }

  /** A registry with no overlapping free pair passes through checkBallCollisions unchanged. */
  lemma QuietRegistry(bs: seq<Ball>, sqrt: real -> real)
    requires IsSqrt(sqrt) && AllWellFormed(bs) && NoFreeOverlap(bs)
    ensures CollideAll(bs, sqrt) == bs
  {
    QuietSweep(bs, 0, 1, sqrt);
  }
}
