/**
 * The two random entry points of BallPhysics: scatterBalls, which kicks every
 * free ball in a random direction with a force that grows with the scroll
 * speed, and addRandomBall, which spawns a ball near the top of the container
 * unless 40 balls already exist. The random draws (Math.random() values, and
 * Math.cos / Math.sin of the drawn angle) are parameters.
 */
module Scatter {
  import opened RealArith
  import opened Physics

  /** The force multiplier of scatterBalls saturates at this value. */
  const MaxScatterForce: real := 8.0

  /**
   * The draws scatterBalls makes for one ball: the cosine and sine of the
   * random angle, and the Math.random() values for the force and the spin.
   */
  datatype KickDraw = KickDraw(cos: real, sin: real, force: real, spin: real)

  function Min(a: real, b: real): (m: real)
    ensures m <= a && m <= b && (m == a || m == b)
  {
    if a < b then a else b
  }

  /** The force of one kick: (random * 0.5 + 0.5) * min(scrollDelta * 0.3, 8). */
  function KickForce(scrollDelta: real, forceDraw: real): (f: real)
    // past scrollDelta * 0.3 == 8 the force no longer grows with the scroll
    ensures scrollDelta * 0.3 >= MaxScatterForce ==> f == (forceDraw * 0.5 + 0.5) * MaxScatterForce
    // for a draw in [0, 1) and a non-negative scroll, between half and all of the capped scroll force
    ensures 0.0 <= forceDraw < 1.0 && 0.0 <= scrollDelta ==>
      Min(scrollDelta * 0.3, MaxScatterForce) * 0.5 <= f <= Min(scrollDelta * 0.3, MaxScatterForce)
  {
    var m := Min(scrollDelta * 0.3, MaxScatterForce);
    assert 0.0 <= scrollDelta ==> 0.0 <= m;
    assert 0.0 <= forceDraw < 1.0 && 0.0 <= m ==> (forceDraw * 0.5 + 0.5) * m == m * 0.5 + (forceDraw * m) * 0.5;
    assert 0.0 <= forceDraw < 1.0 && 0.0 <= m ==> 0.0 <= forceDraw * m <= m;
    (forceDraw * 0.5 + 0.5) * m
  }

  /** The per-ball part of scatterBalls. */
  function Kick(b: Ball, scrollDelta: real, draw: KickDraw): (r: Ball)
    ensures b.isDragging ==> r == b
    ensures r == b.(vx := r.vx, vy := r.vy, vrotation := r.vrotation)
  {
    if b.isDragging then b
    else
      var force := KickForce(scrollDelta, draw.force);
      b.(vx := b.vx + draw.cos * force,
         vy := b.vy + draw.sin * force,
         vrotation := b.vrotation + (draw.spin - 0.5) * 2.0)
  }

  lemma MulNonNeg(a: real, b: real)
    requires 0.0 <= a && 0.0 <= b
    ensures 0.0 <= a * b
  {
  }

  /** For a Math.random() draw and a non-negative scroll delta the force lies in [0, 8]. */
  lemma KickForceRange(scrollDelta: real, forceDraw: real)
    requires 0.0 <= scrollDelta && 0.0 <= forceDraw < 1.0
    ensures 0.0 <= KickForce(scrollDelta, forceDraw) <= MaxScatterForce
  {
    var q, m := forceDraw * 0.5 + 0.5, Min(scrollDelta * 0.3, MaxScatterForce);
    MulNonNeg(q, m);
    MulNonNeg(1.0 - q, m);
    assert q * m == m - (1.0 - q) * m;
  }

  lemma SquareAtMost(s: real, m: real)
    requires 0.0 <= s <= m
    ensures s * s <= m * m
  {
    if s < m {
      SquareLess(s, m);
    }
  }

  /**
   * A kick with a genuine angle (cos^2 + sin^2 = 1), Math.random() draws and a
   * non-negative scroll delta changes the velocity by at most 8 and the spin
   * by less than 1 either way.
   */
  lemma KickBounded(b: Ball, scrollDelta: real, draw: KickDraw)
    requires draw.cos * draw.cos + draw.sin * draw.sin == 1.0
    requires 0.0 <= draw.force < 1.0 && 0.0 <= draw.spin < 1.0 && 0.0 <= scrollDelta
    ensures var r := Kick(b, scrollDelta, draw);
      WithinLength(r.vx - b.vx, r.vy - b.vy, MaxScatterForce) &&
      -1.0 <= r.vrotation - b.vrotation < 1.0
  {
    if !b.isDragging {
      var f := KickForce(scrollDelta, draw.force);
      KickForceRange(scrollDelta, draw.force);
      ScaleUnit(draw.cos * f, draw.sin * f, draw.cos, draw.sin, f);
      SquareAtMost(f, MaxScatterForce);
      var r := Kick(b, scrollDelta, draw);
      assert r.vx - b.vx == draw.cos * f && r.vy - b.vy == draw.sin * f;
    }
  }

  /** scatterBalls on the whole registry, with one set of draws per ball. */
  function ScatterAll(bs: seq<Ball>, scrollDelta: real, draws: seq<KickDraw>): (r: seq<Ball>)
    requires |draws| == |bs|
    ensures SameBodies(bs, r)
    ensures forall k :: 0 <= k < |bs| ==> r[k] == Kick(bs[k], scrollDelta, draws[k])
  {
    seq(|bs|, k requires 0 <= k < |bs| => Kick(bs[k], scrollDelta, draws[k]))
  }

  /** The Math.random() draws of addRandomBall that matter for the physics. */
  datatype SpawnDraw = SpawnDraw(x: real, vx: real, vy: real, spin: real)

  /** The ball addRandomBall creates in a container of width w. */
  function Spawn(w: real, draw: SpawnDraw): (b: Ball)
    ensures WellFormed(b) && !b.isDragging && b.dragPositions == []
    ensures b.radius == BallRadius && b.y == BallRadius + 10.0 && b.rotation == 0.0
  {
    BallMassPositive();
    var radius := BallSize / 2.0;
    Ball(draw.x * (w - BallSize) + radius, radius + 10.0,
         (draw.vx - 0.5) * 10.0, draw.vy * 3.0,
         radius, MassOf(radius),
         0.0, (draw.spin - 0.5) * 5.0,
         false, 0.0, 0.0, 0, [])
  }

  /**
   * With Math.random() draws in [0, 1) and a container at least one ball
   * wide, the new ball starts horizontally inside the container, just below
   * the top, with a bounded velocity and spin.
   */
  lemma SpawnInside(w: real, draw: SpawnDraw)
    requires w >= BallSize
    requires 0.0 <= draw.x < 1.0 && 0.0 <= draw.vx < 1.0 && 0.0 <= draw.vy < 1.0 && 0.0 <= draw.spin < 1.0
    ensures var b := Spawn(w, draw);
      b.radius <= b.x <= w - b.radius &&
      -5.0 <= b.vx < 5.0 && 0.0 <= b.vy < 3.0 && -2.5 <= b.vrotation < 2.5
  {
    MulNonNeg(draw.x, w - BallSize);
    MulNonNeg(1.0 - draw.x, w - BallSize);
    assert draw.x * (w - BallSize) == (w - BallSize) - (1.0 - draw.x) * (w - BallSize);
  }

  /** addRandomBall on the registry: nothing once MaxBalls balls exist. */
  function AddBall(bs: seq<Ball>, w: real, draw: SpawnDraw): (r: seq<Ball>)
    ensures |r| == if |bs| < MaxBalls then |bs| + 1 else |bs|
    ensures r[..|bs|] == bs
    ensures |bs| < MaxBalls ==> r[|bs|] == Spawn(w, draw)
  {
    if |bs| >= MaxBalls then bs else bs + [Spawn(w, draw)]
  }

  /** A series of addRandomBall calls. */
  function AddBalls(bs: seq<Ball>, w: real, draws: seq<SpawnDraw>): seq<Ball>
    decreases |draws|
  {
    if |draws| == 0 then bs else AddBalls(AddBall(bs, w, draws[0]), w, draws[1..])
  }

  /**
   * The spawn cap: starting from at most 40 balls, n calls of addRandomBall
   * leave exactly min(40, |bs| + n) balls, the old ones first and unchanged.
   */
  lemma {:induction false} SpawnCap(bs: seq<Ball>, w: real, draws: seq<SpawnDraw>)
    requires |bs| <= MaxBalls
    ensures var r := AddBalls(bs, w, draws);
      |r| == (if |bs| + |draws| < MaxBalls then |bs| + |draws| else MaxBalls) &&
      r[..|bs|] == bs
    decreases |draws|
  {
    if |draws| > 0 {
      var next := AddBall(bs, w, draws[0]);
      SpawnCap(next, w, draws[1..]);
      assert next[..|bs|] == bs;
      var r := AddBalls(bs, w, draws);
      assert r[..|bs|] == r[..|next|][..|bs|];
    }
  }
}
