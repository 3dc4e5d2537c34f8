/**
 * The BallPhysics object: the ball registry and the running / paused flags,
 * and the methods of the source class that change them in place. Each method
 * is proved against the function of the model that states what it does to
 * the registry; the properties of those functions are proved in the modules
 * they come from.
 */
module Engine {
  import opened RealArith
  import opened Physics
  import opened Integrator
  import opened Collisions
  import opened Resize
  import opened Drag
  import opened Throw
  import opened Scatter

  /**
   * One call of animate on a running engine: the per-ball pass, then one
   * pass of checkBallCollisions.
   */
  function Frame(bs: seq<Ball>, paused: bool, w: real, h: real, sqrt: real -> real): (r: seq<Ball>)
    requires AllWellFormed(bs)
    ensures SameBodies(bs, r) && AllWellFormed(r)
    ensures forall k :: 0 <= k < |bs| && bs[k].isDragging ==> r[k] == bs[k]
  {
    var moved := IntegrateAll(bs, paused, w, h, sqrt);
    SameBodiesPreservesWellFormed(bs, moved);
    CollideAll(moved, sqrt)
  }

  /**
   * While paused, a frame with no overlapping free balls leaves the registry
   * exactly as it was.
   */
  lemma PausedFrameStill(bs: seq<Ball>, w: real, h: real, sqrt: real -> real)
    requires IsSqrt(sqrt) && AllWellFormed(bs) && NoFreeOverlap(bs)
    ensures Frame(bs, true, w, h, sqrt) == bs
  {
    assert IntegrateAll(bs, true, w, h, sqrt) == bs;
    QuietRegistry(bs, sqrt);
  }

  /**
   * The collision pass does not clamp: two balls resting against the left
   * wall and overlapping by 20 are pushed 10 apart each, and the left one
   * ends 10 beyond the wall, even in a paused frame.
   */
  lemma CollisionMayLeaveContainer(sqrt: real -> real)
    requires IsSqrt(sqrt)
    ensures var m := MassOf(BallRadius);
      var b1 := Ball(35.0, 100.0, 0.0, 0.0, 35.0, m, 0.0, 0.0, false, 0.0, 0.0, 0, []);
      var b2 := b1.(x := 85.0);
      var r := Frame([b1, b2], true, 200.0, 200.0, sqrt);
      Contained([b1, b2], 200.0, 200.0) && r[0].x == 25.0 && !InBounds(r[0], 200.0, 200.0)
  {
    var m := MassOf(BallRadius);
    BallMassPositive();
    var b1 := Ball(35.0, 100.0, 0.0, 0.0, 35.0, m, 0.0, 0.0, false, 0.0, 0.0, 0, []);
    var b2 := b1.(x := 85.0);
    var bs := [b1, b2];
    assert IntegrateAll(bs, true, 200.0, 200.0, sqrt) == bs;
    EqualMassExample(b1, b2, sqrt);
    SqrtUnique(sqrt, 50.0 * 50.0 + 0.0 * 0.0, 50.0);
    var p := Collide(b1, b2, 50.0, 0.0, 50.0, 70.0);
    var next := ResolvePair(bs, 0, 1, sqrt);
    assert next == [p.0, p.1];
    assert Sweep(next, 1, 2, sqrt) == next;
    assert CollideAll(bs, sqrt) == Sweep(next, 0, 2, sqrt);
  }

  class BallPhysics {
    /** The host's Math.sqrt. */
    const sqrt: real -> real
    /** this.balls: the registry, a ball being identified by its index. */
    var balls: seq<Ball>
    var running: bool
    var paused: bool

    /**
     * The host's square root is a square root, and every ball in the registry
     * has a positive radius and mass and at most five samples.
     */
    ghost predicate Valid()
      reads this
    {
      IsSqrt(sqrt) && AllWellFormed(balls)
    }

    /**
     * The physics state the constructor sets up: stopped and paused, over the
     * balls setupBalls created.
     */
    constructor(sqrt: real -> real, initial: seq<Ball>)
      requires IsSqrt(sqrt) && AllWellFormed(initial)
      ensures Valid() && this.sqrt == sqrt && balls == initial && !running && paused
    {
      this.sqrt := sqrt;
      balls := initial;
      running := false;
      paused := true;
    }

    /** startAnimation: starts the loop unless it is already running, and runs its first frame. */
    method StartAnimation(w: real, h: real)
      requires Valid()
      modifies this
      ensures Valid() && running && paused == old(paused)
      ensures old(running) ==> balls == old(balls)
      ensures !old(running) ==> balls == Frame(old(balls), paused, w, h, sqrt)
    {
      if running {
        return;
      }
      running := true;
      Tick(w, h);
    }

    /** stop: the next frame does nothing. */
    method Stop()
      modifies this`running
      ensures !running && balls == old(balls) && paused == old(paused)
    {
      running := false;
    }

    /** unpause: physics applies to every ball from now on, and the loop is started. */
    method Unpause(w: real, h: real)
      requires Valid()
      modifies this
      ensures Valid() && running && !paused
      ensures old(running) ==> balls == old(balls)
      ensures !old(running) ==> balls == Frame(old(balls), false, w, h, sqrt)
    {
      paused := false;
      StartAnimation(w, h);
    }

    /**
     * One call of animate in a W x H container: nothing when stopped; otherwise
     * each ball that is neither paused nor dragged is stepped, then
     * collisions are resolved.
     */
    method Tick(w: real, h: real)
      requires Valid()
      modifies this`balls
      ensures Valid()
      ensures balls == if old(running) then Frame(old(balls), paused, w, h, sqrt) else old(balls)
    {
      if !running {
        return;
      }
      var k := 0;
      while k < |balls|
        invariant 0 <= k <= |balls| == |old(balls)|
        invariant forall m :: 0 <= m < k ==> balls[m] == IntegrateAll(old(balls), paused, w, h, sqrt)[m]
        invariant forall m :: k <= m < |balls| ==> balls[m] == old(balls)[m]
      {
        var ball := balls[k];
        var skip := paused && !ball.isDragging;
        if !skip && !ball.isDragging {
          ball := IntegrateBall(ball, w, h, sqrt);
          balls := balls[k := ball];
        }
        k := k + 1;
      }
      assert balls == IntegrateAll(old(balls), paused, w, h, sqrt);
      SameBodiesPreservesWellFormed(old(balls), balls);
      CheckBallCollisions();
    }

    /**
     * checkBallCollisions: every pair i < j of free balls closer than
     * r_i + r_j (with distinct centres) is resolved in turn.
     */
    method CheckBallCollisions()
      requires Valid()
      modifies this`balls
      ensures Valid()
      ensures balls == CollideAll(old(balls), sqrt)
    {
      var i := 0;
      ghost var target := CollideAll(old(balls), sqrt);
      while i < |balls|
        invariant i <= |balls| == |old(balls)|
        invariant Valid()
        invariant Sweep(balls, i, i + 1, sqrt) == target
        decreases |balls| - i
      {
        CollideRow(i);
        i := i + 1;
      }
      SweepDone(balls, i, sqrt);
    }

    /** The inner loop of checkBallCollisions: ball i against every later ball. */
    method CollideRow(i: nat)
      requires Valid() && i < |balls|
      modifies this`balls
      ensures Valid() && |balls| == |old(balls)|
      ensures Sweep(balls, i + 1, i + 2, sqrt) == Sweep(old(balls), i, i + 1, sqrt)
    {
      var j := i + 1;
      ghost var row := Sweep(old(balls), i, i + 1, sqrt);
      while j < |balls|
        invariant i < j <= |balls| == |old(balls)|
        invariant Valid()
        invariant Sweep(balls, i, j, sqrt) == row
        decreases |balls| - j
      {
        SweepStep(balls, i, j, sqrt);
        CollidePair(i, j);
        j := j + 1;
      }
      SweepRowEnd(balls, i, sqrt);
    }

    /**
     * The body of the inner loop of checkBallCollisions: a free pair closer
     * than r_i + r_j, with distinct centres, goes to handleBallCollision.
     */
    method CollidePair(i: nat, j: nat)
      requires Valid() && i < j < |balls|
      modifies this`balls
      ensures Valid() && |balls| == |old(balls)|
      ensures balls == ResolvePair(old(balls), i, j, sqrt)
    {
      var ball1, ball2 := balls[i], balls[j];
      if ball1.isDragging || ball2.isDragging {
        return;
      }
      var dx := ball2.x - ball1.x;
      var dy := ball2.y - ball1.y;
      var distance := Hypot(sqrt, dx, dy);
      var minDistance := ball1.radius + ball2.radius;
      if distance < minDistance && distance > 0.0 {
        HandleBallCollision(i, j, dx, dy, distance, minDistance);
      }
    }

    /**
     * handleBallCollision on balls i and j: positional correction by mass
     * share, then either nothing (separating), a small nudge (slow approach)
     * or an impulse with restitution, spin transfer and damping.
     */
    method HandleBallCollision(i: nat, j: nat, dx: real, dy: real, distance: real, minDistance: real)
      requires Valid() && i < j < |balls| && distance > 0.0
      modifies this`balls
      ensures Valid()
      ensures var p := Collide(old(balls)[i], old(balls)[j], dx, dy, distance, minDistance);
        balls == old(balls)[i := p.0][j := p.1]
    {
      var ball1, ball2 := balls[i], balls[j];
      assert WellFormed(ball1) && WellFormed(ball2);
      var overlap := minDistance - distance;
      var normalX := dx / distance;
      var normalY := dy / distance;
      ball1, ball2 := PositionalCorrection(ball1, ball2, normalX, normalY, overlap);

      var rvx := ball2.vx - ball1.vx;
      var rvy := ball2.vy - ball1.vy;
      var velAlongNormal := rvx * normalX + rvy * normalY;
      assert velAlongNormal == NormalSpeed(old(balls)[i], old(balls)[j], normalX, normalY);

      if velAlongNormal > 0.0 {
        Store(i, j, ball1, ball2);
        return;
      }

      if Abs(velAlongNormal) < MinSeparation {
        ball1 := ball1.(vx := ball1.vx - normalX * MinSeparation, vy := ball1.vy - normalY * MinSeparation);
        ball2 := ball2.(vx := ball2.vx + normalX * MinSeparation, vy := ball2.vy + normalY * MinSeparation);
        Store(i, j, ball1, ball2);
        return;
      }

      ball1, ball2 := ImpulseResponse(ball1, ball2, normalX, normalY, velAlongNormal);
      Store(i, j, ball1, ball2);
    }

    /** The first block of handleBallCollision: each ball moves along the normal by its share of the overlap. Its result is Correct. */
    static method PositionalCorrection(ball1: Ball, ball2: Ball, normalX: real, normalY: real, overlap: real)
      returns (r1: Ball, r2: Ball)
      requires ball1.mass > 0.0 && ball2.mass > 0.0
      ensures (r1, r2) == Correct(ball1, ball2, normalX, normalY, overlap)
    {
      var totalMass := ball1.mass + ball2.mass;
      var separationX := overlap * (ball2.mass / totalMass) * normalX;
      var separationY := overlap * (ball2.mass / totalMass) * normalY;
      r1 := ball1.(x := ball1.x - separationX, y := ball1.y - separationY);
      r2 := ball2.(x := ball2.x + overlap * (ball1.mass / totalMass) * normalX,
                   y := ball2.y + overlap * (ball1.mass / totalMass) * normalY);
      CorrectMoves(ball1, ball2, normalX, normalY, overlap, separationX, separationY,
                   overlap * (ball1.mass / totalMass) * normalX, overlap * (ball1.mass / totalMass) * normalY);
    }

    /**
     * The last block of handleBallCollision: the impulse j along the normal,
     * the spin impulse from the relative velocity, then the 0.98 bleed.
     * Its results are those of Bounce.
     */
    static method ImpulseResponse(ball1: Ball, ball2: Ball, normalX: real, normalY: real, velAlongNormal: real)
      returns (r1: Ball, r2: Ball)
      requires ball1.mass > 0.0 && ball2.mass > 0.0
      ensures (r1, r2) == Bounce(ball1, ball2, normalX, normalY, velAlongNormal)
    {
      var impulse, angularImpulse := Impulses(ball1, ball2, normalX, normalY, velAlongNormal);
      var impulseX := impulse * normalX;
      var impulseY := impulse * normalY;

      r1 := ball1.(vx := ball1.vx - impulseX / ball1.mass, vy := ball1.vy - impulseY / ball1.mass);
      r2 := ball2.(vx := ball2.vx + impulseX / ball2.mass, vy := ball2.vy + impulseY / ball2.mass);

      r1 := r1.(vrotation := r1.vrotation - angularImpulse / ball1.mass);
      r2 := r2.(vrotation := r2.vrotation + angularImpulse / ball2.mass);

      r1 := r1.(vx := r1.vx * CollisionDamping, vy := r1.vy * CollisionDamping);
      r2 := r2.(vx := r2.vx * CollisionDamping, vy := r2.vy * CollisionDamping);
      BounceApplies(ball1, ball2, normalX, normalY, velAlongNormal, impulse, angularImpulse);
      ImpulseFields(ball1, ball2, impulse, normalX, normalY, angularImpulse, impulseX, impulseY, r1, r2);
    }

    /**
     * The scalars of the last block of handleBallCollision: the impulse j
     * along the normal and the spin impulse from the relative velocity
     * (both taken before any velocity changes).
     * Its results are those of ImpulseMagnitude and SpinImpulse.
     */
    static method Impulses(ball1: Ball, ball2: Ball, normalX: real, normalY: real, velAlongNormal: real)
      returns (impulse: real, angularImpulse: real)
      requires ball1.mass > 0.0 && ball2.mass > 0.0
      ensures impulse == ImpulseMagnitude(ball1.mass, ball2.mass, velAlongNormal)
      ensures angularImpulse == SpinImpulse(ball1, ball2, normalX, normalY)
    {
      var rvx := ball2.vx - ball1.vx;
      var rvy := ball2.vy - ball1.vy;
      var e := BounceDamping;
      impulse := (-(1.0 + e) * velAlongNormal) / (1.0 / ball1.mass + 1.0 / ball2.mass);
      angularImpulse := (rvx * normalY - rvy * normalX) * 0.1;
    }

    /** Writes the updated pair back into the registry. */
    method Store(i: nat, j: nat, b1: Ball, b2: Ball)
      requires Valid() && i < j < |balls|
      requires SameBody(b1, balls[i]) && SameBody(b2, balls[j])
      modifies this`balls
      ensures Valid()
      ensures balls == old(balls)[i := b1][j := b2]
    {
      var next := balls[i := b1][j := b2];
      assert SameBodies(balls, next) by {
        forall k | 0 <= k < |balls| ensures SameBody(balls[k], next[k]) {}
      }
      SameBodiesPreservesWellFormed(balls, next);
      balls := next;
    }

    /** Writes one updated ball back into the registry. */
    method Replace(k: nat, b: Ball)
      requires Valid() && k < |balls| && WellFormed(b)
      modifies this`balls
      ensures Valid()
      ensures balls == old(balls)[k := b]
    {
      balls := balls[k := b];
    }

    /**
     * handleResize: every ball is stopped and pulled into the new W x H
     * container, then overlapping balls are pushed apart.
     */
    method HandleResize(w: real, h: real)
      requires Valid()
      modifies this`balls
      ensures Valid()
      ensures balls == Resized(old(balls), w, h, sqrt)
    {
      RefitBalls(w, h);
      SeparateOverlappingBalls(w, h);
    }

    /** The loop of handleResize: every ball is stopped and clamped into the new container. */
    method RefitBalls(w: real, h: real)
      requires Valid()
      modifies this`balls
      ensures Valid()
      ensures balls == RefitAll(old(balls), w, h)
    {
      var k := 0;
      while k < |balls|
        invariant 0 <= k <= |balls| == |old(balls)|
        invariant forall m :: 0 <= m < k ==> balls[m] == Refit(old(balls)[m], w, h)
        invariant forall m :: k <= m < |balls| ==> balls[m] == old(balls)[m]
      {
        var ball := RefitBall(balls[k], w, h);
        balls := balls[k := ball];
        k := k + 1;
      }
      SameBodiesPreservesWellFormed(old(balls), balls);
    }

    /** The body of the loop of handleResize for one ball. Its result is Refit. */
    static method RefitBall(b: Ball, w: real, h: real) returns (ball: Ball)
      ensures ball == Refit(b, w, h)
    {
      ball := b.(vx := 0.0, vy := 0.0);
      ball := ball.(x := Clamp(ball.x, ball.radius, w - ball.radius));
      ball := ball.(y := Clamp(ball.y, ball.radius, h - ball.radius));
      if ball.y > h - ball.radius {
        ball := ball.(y := h - ball.radius);
      }
      if ball.x > w - ball.radius {
        ball := ball.(x := w - ball.radius);
      }
    }

    /**
     * separateOverlappingBalls: up to ten passes over all pairs, each
     * overlapping pair pushed apart by half the overlap each and clamped;
     * stops early after a pass that found no overlap.
     */
    method SeparateOverlappingBalls(w: real, h: real)
      requires Valid()
      modifies this`balls
      ensures Valid()
      ensures balls == Separate(old(balls), 0, w, h, sqrt)
    {
      var iteration := 0;
      ghost var target := Separate(old(balls), 0, w, h, sqrt);
      while iteration < MaxIterations
        invariant 0 <= iteration <= MaxIterations
        invariant Separate(balls, iteration, w, h, sqrt) == target
      {
        SeparateStep(balls, iteration, w, h, sqrt);
        var hasOverlap := SeparationPass(w, h);
        if !hasOverlap {
          break;
        }
        iteration := iteration + 1;
      }
      SeparateKeeps(old(balls), 0, w, h, sqrt);
      OnlyMovedSameBodies(old(balls), balls);
      SameBodiesPreservesWellFormed(old(balls), balls);
    }

    /**
     * One pass of separateOverlappingBalls (the loops over i and j); returns
     * its hasOverlap flag.
     */
    method SeparationPass(w: real, h: real) returns (hasOverlap: bool)
      modifies this`balls
      ensures |balls| == |old(balls)|
      ensures (balls, hasOverlap) == SepPass(old(balls), 0, w, h, sqrt, false)
    {
      hasOverlap := false;
      var i := 0;
      ghost var pass := SepPass(old(balls), 0, w, h, sqrt, false);
      while i < |balls|
        invariant i <= |balls| == |old(balls)|
        invariant SepPass(balls, i, w, h, sqrt, hasOverlap) == pass
      {
        hasOverlap := SeparateRow(i, w, h, hasOverlap);
        i := i + 1;
      }
      SepPassDone(balls, i, w, h, sqrt, hasOverlap);
    }

    /** The loop over j of one pass: ball i against every later ball. */
    method SeparateRow(i: nat, w: real, h: real, found: bool) returns (hasOverlap: bool)
      requires i < |balls|
      modifies this`balls
      ensures |balls| == |old(balls)|
      ensures (balls, hasOverlap) == SepRow(old(balls), i, i + 1, w, h, sqrt, found)
    {
      hasOverlap := found;
      var j := i + 1;
      ghost var row := SepRow(old(balls), i, i + 1, w, h, sqrt, found);
      while j < |balls|
        invariant i < j <= |balls| == |old(balls)|
        invariant SepRow(balls, i, j, w, h, sqrt, hasOverlap) == row
      {
        hasOverlap := SeparateNext(i, j, w, h, hasOverlap);
        j := j + 1;
      }
      SepRowDone(balls, i, j, w, h, sqrt, hasOverlap);
    }

    /** One iteration of the loop over j, with the pass's hasOverlap flag. */
    method SeparateNext(i: nat, j: nat, w: real, h: real, found: bool) returns (hasOverlap: bool)
      requires i < j < |balls|
      modifies this`balls
      ensures |balls| == |old(balls)|
      ensures SepRow(balls, i, j + 1, w, h, sqrt, hasOverlap) == SepRow(old(balls), i, j, w, h, sqrt, found)
    {
      SepRowStep(balls, i, j, w, h, sqrt, found);
      var overlapped := SeparatePair(i, j, w, h);
      hasOverlap := found || overlapped;
    }

    /**
     * The body of the inner loop of separateOverlappingBalls: an overlapping
     * pair with distinct centres is pushed apart by half the overlap each and
     * both are clamped into the container. Reports whether it overlapped.
     */
    method SeparatePair(i: nat, j: nat, w: real, h: real) returns (overlapped: bool)
      requires i < j < |balls|
      modifies this`balls
      ensures |balls| == |old(balls)|
      ensures (balls, overlapped) == SepPair(old(balls), i, j, w, h, sqrt)
    {
      var ball1, ball2 := balls[i], balls[j];
      var dx := ball2.x - ball1.x;
      var dy := ball2.y - ball1.y;
      var distance := Hypot(sqrt, dx, dy);
      var minDistance := ball1.radius + ball2.radius;
      overlapped := false;
      if distance < minDistance && distance > 0.0 {
        overlapped := true;
        var moved := Shift(ball1, ball2, dx, dy, distance, minDistance);
        ball1 := Confine(moved.0, w, h);
        ball2 := Confine(moved.1, w, h);
        balls := balls[i := ball1][j := ball2];
      }
    }

    /**
     * scatterBalls: each free ball gets a random kick scaled by the scroll
     * speed. draws[k] holds the angle's cosine and sine and the force and
     * spin draws for ball k.
     */
    method ScatterBalls(scrollDelta: real, draws: seq<KickDraw>)
      requires Valid() && |draws| == |balls|
      modifies this`balls
      ensures Valid()
      ensures balls == ScatterAll(old(balls), scrollDelta, draws)
    {
      var k := 0;
      while k < |balls|
        invariant 0 <= k <= |balls| == |old(balls)|
        invariant forall m :: 0 <= m < k ==> balls[m] == Kick(old(balls)[m], scrollDelta, draws[m])
        invariant forall m :: k <= m < |balls| ==> balls[m] == old(balls)[m]
      {
        var ball := balls[k];
        if !ball.isDragging {
          var forceMultiplier := Min(scrollDelta * 0.3, MaxScatterForce);
          var force := (draws[k].force * 0.5 + 0.5) * forceMultiplier;
          ball := ball.(vx := ball.vx + draws[k].cos * force);
          ball := ball.(vy := ball.vy + draws[k].sin * force);
          ball := ball.(vrotation := ball.vrotation + (draws[k].spin - 0.5) * 2.0);
          balls := balls[k := ball];
        }
        k := k + 1;
      }
      assert balls == ScatterAll(old(balls), scrollDelta, draws);
      SameBodiesPreservesWellFormed(old(balls), balls);
    }

    /** addRandomBall: a new ball near the top of a container of width w, unless 40 exist. */
    method AddRandomBall(w: real, draw: SpawnDraw)
      requires Valid()
      modifies this`balls
      ensures Valid()
      ensures balls == AddBall(old(balls), w, draw)
    {
      if |balls| >= MaxBalls {
        return;
      }
      var size := BallSize;
      var radius := size / 2.0;
      var ball := Ball(draw.x * (w - size) + radius, radius + 10.0,
                       (draw.vx - 0.5) * 10.0, draw.vy * 3.0,
                       radius, Pi * radius * radius * 0.1,
                       0.0, (draw.spin - 0.5) * 5.0,
                       false, 0.0, 0.0, 0, []);
      assert ball == Spawn(w, draw);
      balls := balls + [ball];
    }

    /**
     * startDrag on ball k for a pointer at client coordinates (clientX,
     * clientY), the container's top-left corner at (left, top) and clock
     * reading now.
     */
    method StartDrag(k: nat, clientX: real, clientY: real, left: real, top: real, now: int)
      requires Valid() && k < |balls|
      modifies this`balls
      ensures Valid()
      ensures balls == old(balls)[k := Grab(old(balls)[k], MousePos(clientX, clientY, left, top), now)]
    {
      var mousePos := MousePos(clientX, clientY, left, top);
      var ball := balls[k];
      ball := ball.(isDragging := true);
      ball := ball.(dragOffsetX := ball.x - mousePos.x, dragOffsetY := ball.y - mousePos.y);
      ball := ball.(dragStartTime := now);
      ball := ball.(dragPositions := [Sample(ball.x, ball.y, ball.dragStartTime)]);
      Replace(k, ball);
    }

    /**
     * resolveDragCollisions for dragged ball k and the desired centre
     * (desiredX, desiredY): pushes the centre out of every other ball, nudges
     * the free ones away, and clamps the result into the container.
     */
    method ResolveDragCollisions(k: nat, desiredX: real, desiredY: real, w: real, h: real) returns (resolved: Vec)
      requires Valid() && k < |balls|
      modifies this`balls
      ensures Valid()
      ensures (balls, resolved) == ResolveDrag(old(balls), k, Vec(desiredX, desiredY), w, h, sqrt)
    {
      var swept := PushAll(k, Vec(desiredX, desiredY), w, h);
      var dragged := balls[k];
      var resolvedX := Clamp(swept.x, dragged.radius, w - dragged.radius);
      var resolvedY := Clamp(swept.y, dragged.radius, h - dragged.radius);
      resolved := Vec(resolvedX, resolvedY);
    }

    /**
     * The loop of resolveDragCollisions: the desired centre of dragged ball k
     * is pushed out of every other ball in turn.
     */
    method PushAll(k: nat, desired: Vec, w: real, h: real) returns (pos: Vec)
      requires Valid() && k < |balls|
      modifies this`balls
      ensures Valid()
      ensures (balls, pos) == DragSweep(old(balls), k, 0, desired, w, h, sqrt)
    {
      pos := desired;
      var m := 0;
      ghost var target := DragSweep(old(balls), k, 0, desired, w, h, sqrt);
      while m < |balls|
        invariant 0 <= m <= |balls| == |old(balls)|
        invariant Valid()
        invariant DragSweep(balls, k, m, pos, w, h, sqrt) == target
      {
        ghost var before, from := balls, pos;
        pos := PushAside(k, m, pos, w, h);
        DragSweepAfter(before, k, m, from, balls, pos, w, h, sqrt);
        m := m + 1;
      }
      DragSweepDone(balls, k, m, pos, w, h, sqrt);
    }

    /**
     * The body of the loop of resolveDragCollisions for ball m: when the
     * dragged ball k at `pos` overlaps it, the position is pushed out along
     * the centre line and a free ball m is nudged away and clamped.
     */
    method PushAside(k: nat, m: nat, pos: Vec, w: real, h: real) returns (next: Vec)
      requires Valid() && k < |balls| && m < |balls|
      modifies this`balls
      ensures Valid()
      ensures (balls, next) == DragStep(old(balls), k, m, pos, w, h, sqrt)
    {
      next := pos;
      if m == k {
        return;
      }
      var other := balls[m];
      var dx := pos.x - other.x;
      var dy := pos.y - other.y;
      var distance := Hypot(sqrt, dx, dy);
      var minDistance := balls[k].radius + other.radius;
      if distance < minDistance && distance > 0.0 {
        var pushed := Deflect(pos, other, distance, minDistance);
        next := pushed.0;
        if !other.isDragging {
          assert WellFormed(other);
          Replace(m, Confine(pushed.1, w, h));
        }
      }
    }

    /**
     * updateDragPosition for ball k and the pointer position mousePos (in
     * container coordinates) at clock reading now.
     */
    method UpdateDragPosition(k: nat, mousePos: Vec, now: int, w: real, h: real)
      requires Valid() && k < |balls|
      modifies this`balls
      ensures Valid()
      ensures balls == DragTo(old(balls), k, mousePos, now, w, h, sqrt)
    {
      if !balls[k].isDragging {
        return;
      }
      var ball := balls[k];
      var newX := mousePos.x + ball.dragOffsetX;
      var newY := mousePos.y + ball.dragOffsetY;
      newX := Clamp(newX, ball.radius, w - ball.radius);
      newY := Clamp(newY, ball.radius, h - ball.radius);

      ghost var before := balls;
      var resolvedPosition := ResolveDragCollisions(k, newX, newY, w, h);
      ghost var res := ResolveDrag(before, k, Vec(newX, newY), w, h, sqrt);
      assert res.0 == balls && res.1 == resolvedPosition;
      ball := ball.(x := resolvedPosition.x, y := resolvedPosition.y);

      var history := ball.dragPositions + [Sample(ball.x, ball.y, now)];
      if |history| > MaxPositionHistory {
        history := history[1..];
      }
      assert history == Record(ball.dragPositions, Sample(ball.x, ball.y, now));
      ball := ball.(dragPositions := history);
      balls := balls[k := ball];
      DragToDragged(old(balls), k, mousePos, now, w, h, sqrt, Vec(newX, newY), res);
    }

    /**
     * handleMouseMove for a pointer at client coordinates (clientX, clientY):
     * every dragged ball follows the pointer.
     */
    method HandleMouseMove(clientX: real, clientY: real, left: real, top: real, now: int, w: real, h: real)
      requires Valid()
      modifies this`balls
      ensures Valid()
      ensures balls == DragAll(old(balls), 0, MousePos(clientX, clientY, left, top), now, w, h, sqrt)
    {
      var mousePos := MousePos(clientX, clientY, left, top);
      var k := 0;
      ghost var target := DragAll(old(balls), 0, mousePos, now, w, h, sqrt);
      while k < |balls|
        invariant 0 <= k <= |balls| == |old(balls)|
        invariant Valid()
        invariant DragAll(balls, k, mousePos, now, w, h, sqrt) == target
      {
        if balls[k].isDragging {
          UpdateDragPosition(k, mousePos, now, w, h);
        }
        k := k + 1;
      }
    }

    /** handleTouchMove: as handleMouseMove for the first touch, and only for a single touch. */
    method HandleTouchMove(touchCount: nat, clientX: real, clientY: real, left: real, top: real, now: int, w: real, h: real)
      requires Valid()
      modifies this`balls
      ensures Valid()
      ensures touchCount != 1 ==> balls == old(balls)
      ensures touchCount == 1 ==> balls == DragAll(old(balls), 0, MousePos(clientX, clientY, left, top), now, w, h, sqrt)
    {
      if touchCount == 1 {
        HandleMouseMove(clientX, clientY, left, top, now, w, h);
      }
    }

    /** handleMouseUp: every dragged ball is released with its throw velocity. */
    method HandleMouseUp()
      requires Valid()
      modifies this`balls
      ensures Valid()
      ensures balls == ReleaseAll(old(balls), sqrt)
    {
      var k := 0;
      while k < |balls|
        invariant 0 <= k <= |balls| == |old(balls)|
        invariant forall m :: 0 <= m < k ==> balls[m] == Release(old(balls)[m], sqrt)
        invariant forall m :: k <= m < |balls| ==> balls[m] == old(balls)[m]
      {
        var ball := balls[k];
        if ball.isDragging {
          ball := ball.(isDragging := false);
          var velocity := ThrowVelocity(ball.dragPositions, sqrt);
          ball := ball.(vx := velocity.x, vy := velocity.y);
          ball := ball.(dragPositions := []);
          balls := balls[k := ball];
        }
        k := k + 1;
      }
      assert balls == ReleaseAll(old(balls), sqrt);
      assert AllWellFormed(balls) by {
        forall m | 0 <= m < |balls| ensures WellFormed(balls[m]) {
          assert WellFormed(old(balls)[m]);
        }
      }
    }

    /** handleTouchEnd: the same release as handleMouseUp. */
    method HandleTouchEnd()
      requires Valid()
      modifies this`balls
      ensures Valid()
      ensures balls == ReleaseAll(old(balls), sqrt)
    {
      HandleMouseUp();
    }
  }
}
