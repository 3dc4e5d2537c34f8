/**
 * The throw estimator and release of BallPhysics: calculateThrowVelocity
 * turns the last (at most) three drag samples into a velocity whose speed is
 * capped at maxThrowVelocity; handleMouseUp and handleTouchEnd release every
 * dragged ball with that velocity and clear its history.
 */
module Throw {
  import opened RealArith
  import opened Physics

  /** ball.dragPositions.slice(-3): the last three samples, or all of them when fewer. */
  function Recent(h: seq<Sample>): (r: seq<Sample>)
    ensures |r| == if |h| < 3 then |h| else 3
    ensures forall k :: 0 <= k < |r| ==> r[k] == h[|h| - |r| + k]
  {
    if |h| > 3 then h[|h| - 3..] else h
  }

  /** The uncapped estimate: displacement over elapsed seconds, times velocityMultiplier. */
  function RawVelocity(first: Sample, last: Sample): (v: Vec)
    requires last.time > first.time
    // each component points the way the pointer moved, and is zero when it did not move that way
    ensures v.x > 0.0 <==> last.x > first.x
    ensures v.x == 0.0 <==> last.x == first.x
    ensures v.y > 0.0 <==> last.y > first.y
    ensures v.y == 0.0 <==> last.y == first.y
    // rate times elapsed seconds is velocityMultiplier times the displacement
    ensures v.x * ((last.time - first.time) as real / 1000.0) == (last.x - first.x) * VelocityMultiplier
    ensures v.y * ((last.time - first.time) as real / 1000.0) == (last.y - first.y) * VelocityMultiplier
  {
    var timeDiff := (last.time - first.time) as real / 1000.0;
    Vec((last.x - first.x) / timeDiff * VelocityMultiplier, (last.y - first.y) / timeDiff * VelocityMultiplier)
  }

  /** calculateThrowVelocity on a drag history. */
  function ThrowVelocity(h: seq<Sample>, sqrt: real -> real): (v: Vec)
    ensures |h| < 2 ==> v == Vec(0.0, 0.0)
  {
    if |h| < 2 then Vec(0.0, 0.0)
    else
      var recent := Recent(h);
      var first, last := recent[0], recent[|recent| - 1];
      var timeDiff := (last.time - first.time) as real / 1000.0;
      if timeDiff <= 0.0 then Vec(0.0, 0.0)
      else
        Capped(RawVelocity(first, last), sqrt)
  }

  /** The speed cap: a raw estimate faster than maxThrowVelocity is scaled down to it. */
  function Capped(raw: Vec, sqrt: real -> real): (v: Vec)
    // an estimate within the cap is kept as it is
    ensures Hypot(sqrt, raw.x, raw.y) <= MaxThrowVelocity ==> v == raw
    // a faster one keeps its direction: parallel to raw, each component of the same sign
    ensures Hypot(sqrt, raw.x, raw.y) > MaxThrowVelocity ==>
      v.x * raw.y == v.y * raw.x && (v.x > 0.0 <==> raw.x > 0.0) && (v.y > 0.0 <==> raw.y > 0.0) &&
      (v.x == 0.0 <==> raw.x == 0.0) && (v.y == 0.0 <==> raw.y == 0.0)
  {
    var speed := Hypot(sqrt, raw.x, raw.y);
    if speed > MaxThrowVelocity then
      var scaleFactor := MaxThrowVelocity / speed;
      Vec(raw.x * scaleFactor, raw.y * scaleFactor)
    else raw
  }

  /**
   * No throw without two samples, or when the oldest of the last three
   * samples is not strictly older than the newest.
   */
  lemma ThrowZeroCases(h: seq<Sample>, sqrt: real -> real)
    requires |h| < 2 || Recent(h)[|Recent(h)| - 1].time <= Recent(h)[0].time
    ensures ThrowVelocity(h, sqrt) == Vec(0.0, 0.0)
  {
  }

  /** Scaling (x, y) of length s > 0 by m / s gives a vector of length m. */
  lemma ScaledToLength(x: real, y: real, s: real, m: real)
    requires s > 0.0 && s * s == x * x + y * y
    ensures HasLength(x * (m / s), y * (m / s), m)
  {
    UnitLength(x, y, s);
    assert x * (m / s) == (x / s) * m;
    assert y * (m / s) == (y / s) * m;
    ScaleUnit(x * (m / s), y * (m / s), x / s, y / s, m);
  }

  /** A host square root at most m bounds the squared length by m * m. */
  lemma SqrtAtMost(sqrt: real -> real, a: real, m: real)
    requires IsSqrt(sqrt) && 0.0 <= a && 0.0 < m && sqrt(a) <= m
    ensures a <= m * m
  {
    SqrtBelow(sqrt, a, m);
    if sqrt(a) == m {
      assert sqrt(a) * sqrt(a) == a;
    }
  }

  /**
   * The throw is capped: its speed never exceeds maxThrowVelocity. A capped
   * throw has speed exactly maxThrowVelocity and points along the raw
   * estimate (a positive multiple of it); an uncapped throw is the raw
   * estimate itself.
   */
  lemma {:induction false} ThrowCapped(h: seq<Sample>, sqrt: real -> real)
    requires IsSqrt(sqrt) && |h| >= 2
    requires Recent(h)[0].time < Recent(h)[|Recent(h)| - 1].time
    ensures var v := ThrowVelocity(h, sqrt);
      WithinLength(v.x, v.y, MaxThrowVelocity)
    ensures var raw := RawVelocity(Recent(h)[0], Recent(h)[|Recent(h)| - 1]);
      var v := ThrowVelocity(h, sqrt);
      var speed := Hypot(sqrt, raw.x, raw.y);
      (speed > MaxThrowVelocity ==>
         var c := MaxThrowVelocity / speed;
         HasLength(v.x, v.y, MaxThrowVelocity) && c > 0.0 && v.x == c * raw.x && v.y == c * raw.y) &&
      (Hypot(sqrt, raw.x, raw.y) <= MaxThrowVelocity ==> v == raw)
  {
    var recent := Recent(h);
    CapLaw(RawVelocity(recent[0], recent[|recent| - 1]), sqrt);
  }

  /** ThrowCapped for the cap alone, on any raw estimate. */
  lemma CapLaw(raw: Vec, sqrt: real -> real)
    requires IsSqrt(sqrt)
    ensures var v := Capped(raw, sqrt);
      var speed := Hypot(sqrt, raw.x, raw.y);
      WithinLength(v.x, v.y, MaxThrowVelocity) &&
      (speed > MaxThrowVelocity ==>
         var c := MaxThrowVelocity / speed;
         HasLength(v.x, v.y, MaxThrowVelocity) && c > 0.0 && v.x == c * raw.x && v.y == c * raw.y) &&
      (speed <= MaxThrowVelocity ==> v == raw)
  {
    var speed := Hypot(sqrt, raw.x, raw.y);
    var v := Capped(raw, sqrt);
    SumOfSquares(raw.x, raw.y);
    assert speed * speed == raw.x * raw.x + raw.y * raw.y && speed >= 0.0;
    if speed > MaxThrowVelocity {
      var c := MaxThrowVelocity / speed;
      ScaledToLength(raw.x, raw.y, speed, MaxThrowVelocity);
      DivPositive(MaxThrowVelocity, speed);
      assert v.x == c * raw.x && v.y == c * raw.y;
    } else {
      SqrtAtMost(sqrt, raw.x * raw.x + raw.y * raw.y, MaxThrowVelocity);
    }
  }

  /**
   * Two samples 10 px apart horizontally and 100 ms apart: the raw estimate
   * is 10 / 0.1 * 0.3 = 30 px per frame, capped to 15.
   */
  lemma ThrowExample(sqrt: real -> real)
    requires IsSqrt(sqrt)
    ensures ThrowVelocity([Sample(0.0, 0.0, 0), Sample(10.0, 0.0, 100)], sqrt) == Vec(15.0, 0.0)
  {
    SqrtUnique(sqrt, 30.0 * 30.0 + 0.0 * 0.0, 30.0);
  }

  /**
   * The per-ball part of handleMouseUp and handleTouchEnd: a dragged ball is
   * released with its throw velocity and an empty history; any other ball is
   * left alone.
   */
  function Release(b: Ball, sqrt: real -> real): (r: Ball)
    ensures !r.isDragging
    ensures !b.isDragging ==> r == b
    ensures b.isDragging ==> r == b.(isDragging := false, vx := r.vx, vy := r.vy, dragPositions := [])
  {
    if b.isDragging then
      var v := ThrowVelocity(b.dragPositions, sqrt);
      b.(isDragging := false, vx := v.x, vy := v.y, dragPositions := [])
    else b
  }

  /** handleMouseUp / handleTouchEnd on the whole registry. */
  function ReleaseAll(bs: seq<Ball>, sqrt: real -> real): (r: seq<Ball>)
    ensures |r| == |bs|
    ensures forall k :: 0 <= k < |bs| ==> r[k] == Release(bs[k], sqrt)
  {
    seq(|bs|, k requires 0 <= k < |bs| => Release(bs[k], sqrt))
  }

  /** Whatever the history, a throw is never faster than maxThrowVelocity. */
  lemma ThrowBounded(h: seq<Sample>, sqrt: real -> real)
    requires IsSqrt(sqrt)
    ensures var v := ThrowVelocity(h, sqrt);
      WithinLength(v.x, v.y, MaxThrowVelocity)
  {
    if |h| >= 2 && Recent(h)[0].time < Recent(h)[|Recent(h)| - 1].time {
      ThrowCapped(h, sqrt);
    } else {
      ThrowZeroCases(h, sqrt);
    }
  }

  /**
   * After a release no ball is dragged, each released ball has an empty
   * history and moves at its throw velocity (at most 15 per frame), and the
   * balls that were not dragged are unchanged.
   */
  lemma ReleaseEffect(bs: seq<Ball>, sqrt: real -> real)
    requires IsSqrt(sqrt)
    ensures var r := ReleaseAll(bs, sqrt);
      forall k :: 0 <= k < |bs| ==>
        !r[k].isDragging &&
        (!bs[k].isDragging ==> r[k] == bs[k]) &&
        (bs[k].isDragging ==>
           r[k].dragPositions == [] &&
           Vec(r[k].vx, r[k].vy) == ThrowVelocity(bs[k].dragPositions, sqrt) &&
           WithinLength(r[k].vx, r[k].vy, MaxThrowVelocity))
  {
    var r := ReleaseAll(bs, sqrt);
    forall k | 0 <= k < |bs| && bs[k].isDragging
      ensures WithinLength(r[k].vx, r[k].vy, MaxThrowVelocity)
    {
      ThrowBounded(bs[k].dragPositions, sqrt);
    }
  }
}
