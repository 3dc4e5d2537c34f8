/**
 * The per-frame integrator: the per-ball branch of BallPhysics.animate.
 * One step applies gravity, friction, the position step and rest damping,
 * then bounces off the walls (with ground friction on the floor), clamps the
 * centre into [r, W - r] x [r, H - r] and advances the rotation.
 */
module Integrator {
  import opened Physics

  /** Gravity, friction, the position step and the rest-settling damping. */
  function Flight(b: Ball, sqrt: real -> real): (f: Ball)
    ensures SameBody(f, b) && f.rotation == b.rotation && f.vrotation == b.vrotation
  {
    var vx := b.vx * Friction;
    var vy := (b.vy + Gravity) * Friction;
    var resting := Hypot(sqrt, vx, vy) < 0.1;
    b.(x := b.x + vx, y := b.y + vy,
       vx := if resting then vx * 0.9 else vx,
       vy := if resting then vy * 0.9 else vy)
  }

  predicate HitsLeft(b: Ball) { b.x - b.radius <= 0.0 }
  predicate HitsRight(b: Ball, w: real) { !HitsLeft(b) && b.x + b.radius >= w }
  predicate HitsTop(b: Ball) { b.y - b.radius <= 0.0 }
  predicate HitsBottom(b: Ball, h: real) { !HitsTop(b) && b.y + b.radius >= h }

  /** Left/right walls first, then the top wall or the floor. */
  function BounceWalls(b: Ball, w: real, h: real): (r: Ball)
    ensures SameBody(r, b) && r.rotation == b.rotation
  {
    var c :=
      if HitsLeft(b) then
        b.(x := b.radius, vx := -b.vx * BounceDamping, vrotation := b.vrotation * -1.0)
      else if HitsRight(b, w) then
        b.(x := w - b.radius, vx := -b.vx * BounceDamping, vrotation := b.vrotation * -1.0)
      else b;
    if HitsTop(c) then
      c.(y := c.radius, vy := -c.vy * BounceDamping)
    else if HitsBottom(c, h) then
      c.(y := h - c.radius, vy := -c.vy * BounceDamping,
         vx := c.vx * GroundFriction, vrotation := c.vrotation * GroundFriction)
    else c
  }

  /** The final hard clamp of the centre into the container. */
  function Confine(b: Ball, w: real, h: real): (r: Ball)
    ensures SameBody(r, b)
    ensures Fits(b, w, h) ==> InBounds(r, w, h)
    ensures InBounds(b, w, h) ==> r == b
  {
    b.(x := Clamp(b.x, b.radius, w - b.radius), y := Clamp(b.y, b.radius, h - b.radius))
  }

  /** One integrator step of a free (unpaused, non-dragging) ball. */
  function Integrated(b: Ball, w: real, h: real, sqrt: real -> real): (r: Ball)
    ensures SameBody(r, b)
    ensures Fits(b, w, h) ==> InBounds(r, w, h)
    ensures r.rotation == b.rotation + r.vrotation
  {
    var c := Confine(BounceWalls(Flight(b, sqrt), w, h), w, h);
    c.(rotation := c.rotation + c.vrotation)
  }

  /**
   * The wall laws, stated against the velocity after friction and rest damping:
   * a wall hit negates that component and scales it by exactly bounceDamping;
   * a side hit also negates the spin; a floor hit also multiplies the horizontal
   * velocity and the spin by groundFriction; a ceiling hit does neither.
   */
  lemma WallBounce(b: Ball, w: real, h: real, sqrt: real -> real)
    ensures var f := Flight(b, sqrt);
      var r := Integrated(b, w, h, sqrt);
      var side := f.x - f.radius <= 0.0 || f.x + f.radius >= w;
      var top := f.y - f.radius <= 0.0;
      var floor := !top && f.y + f.radius >= h;
      (side && !floor ==> r.vx == -f.vx * BounceDamping && r.vrotation == -f.vrotation) &&
      (side && floor ==> r.vx == -f.vx * BounceDamping * GroundFriction &&
                         r.vrotation == -f.vrotation * GroundFriction) &&
      (!side && floor ==> r.vx == f.vx * GroundFriction && r.vrotation == f.vrotation * GroundFriction) &&
      (!side && !floor ==> r.vx == f.vx && r.vrotation == f.vrotation) &&
      (top || floor ==> r.vy == -f.vy * BounceDamping) &&
      (!top && !floor ==> r.vy == f.vy)
  {
  }

  /** Where a ball that fits ends up: on the wall it hit, or where its flight took it. */
  lemma WallPosition(b: Ball, w: real, h: real, sqrt: real -> real)
    requires Fits(b, w, h)
    ensures var f := Flight(b, sqrt);
      var r := Integrated(b, w, h, sqrt);
      (f.x - f.radius <= 0.0 ==> r.x == b.radius) &&
      (f.x - f.radius > 0.0 && f.x + f.radius >= w ==> r.x == w - b.radius) &&
      (f.x - f.radius > 0.0 && f.x + f.radius < w ==> r.x == f.x) &&
      (f.y - f.radius <= 0.0 ==> r.y == b.radius) &&
      (f.y - f.radius > 0.0 && f.y + f.radius >= h ==> r.y == h - b.radius) &&
      (f.y - f.radius > 0.0 && f.y + f.radius < h ==> r.y == f.y)
  {
  }

  /**
   * A ball of radius 35 at x = 5 moving left at 2 units per frame in a
   * 500 x 500 container ends the frame on the left wall, moving right at
   * 2 * 0.98 * 0.95 = 1.862 (friction is applied before the bounce).
   */
  lemma LeftWallExample(sqrt: real -> real, m: real)
    requires IsSqrt(sqrt)
    ensures var b := Ball(5.0, 50.0, -2.0, 0.0, 35.0, m, 0.0, 0.0, false, 0.0, 0.0, 0, []);
      var r := Integrated(b, 500.0, 500.0, sqrt);
      r.x == 35.0 && r.vx == 1.862 && r.y == 50.392 && r.vy == 0.392
  {
    var vx, vy := -2.0 * Friction, (0.0 + Gravity) * Friction;
    SqrtBelow(sqrt, vx * vx + vy * vy, 0.1);
  }

  /** The per-ball physics step, written as the source updates the record, field by field. */
  method IntegrateBall(b: Ball, w: real, h: real, sqrt: real -> real) returns (r: Ball)
    ensures r == Integrated(b, w, h, sqrt)
  {
    r := FlyBall(b, sqrt);
    r := BounceBall(r, w, h);
    r := r.(x := Clamp(r.x, r.radius, w - r.radius));
    r := r.(y := Clamp(r.y, r.radius, h - r.radius));
    r := r.(rotation := r.rotation + r.vrotation);
  }

  /** Gravity, friction, the position step and rest damping, in the source's order. */
  method FlyBall(b: Ball, sqrt: real -> real) returns (r: Ball)
    ensures r == Flight(b, sqrt)
  {
    r := b;
    r := r.(vy := r.vy + Gravity);
    r := r.(vx := r.vx * Friction);
    r := r.(vy := r.vy * Friction);
    r := r.(x := r.x + r.vx);
    r := r.(y := r.y + r.vy);

    var speed := Hypot(sqrt, r.vx, r.vy);
    if speed < 0.1 {
      r := r.(vx := r.vx * 0.9);
      r := r.(vy := r.vy * 0.9);
    }
  }

  /** The wall checks of the source: left or right wall, then top wall or floor. */
  method BounceBall(b: Ball, w: real, h: real) returns (r: Ball)
    ensures r == BounceWalls(b, w, h)
  {
    r := b;
    if r.x - r.radius <= 0.0 {
      r := r.(x := r.radius);
      r := r.(vx := -r.vx * BounceDamping);
      r := r.(vrotation := r.vrotation * -1.0);
    } else if r.x + r.radius >= w {
      r := r.(x := w - r.radius);
      r := r.(vx := -r.vx * BounceDamping);
      r := r.(vrotation := r.vrotation * -1.0);
    }
    if r.y - r.radius <= 0.0 {
      r := r.(y := r.radius);
      r := r.(vy := -r.vy * BounceDamping);
    } else if r.y + r.radius >= h {
      r := r.(y := h - r.radius);
      r := r.(vy := -r.vy * BounceDamping);
      r := r.(vx := r.vx * GroundFriction);
      r := r.(vrotation := r.vrotation * GroundFriction);
    }
  }

  /**
   * The per-ball pass of one frame over the whole registry: a ball is stepped
   * only when the engine is not paused and the ball is not being dragged.
   */
  function IntegrateAll(bs: seq<Ball>, paused: bool, w: real, h: real, sqrt: real -> real): (r: seq<Ball>)
    ensures SameBodies(bs, r)
    ensures forall k :: 0 <= k < |bs| && (paused || bs[k].isDragging) ==> r[k] == bs[k]
    ensures forall k :: 0 <= k < |bs| && !paused && !bs[k].isDragging ==>
      r[k] == Integrated(bs[k], w, h, sqrt)
    ensures forall k :: 0 <= k < |bs| && Fits(bs[k], w, h) && (InBounds(bs[k], w, h) || (!paused && !bs[k].isDragging)) ==>
      InBounds(r[k], w, h)
  {
    seq(|bs|, k requires 0 <= k < |bs| =>
      if paused || bs[k].isDragging then bs[k] else Integrated(bs[k], w, h, sqrt))
  }
}
