/**
 * BallPhysics.handleResize and separateOverlappingBalls: after the container
 * changes size every ball is stopped and pulled back inside, then up to ten
 * passes push each overlapping pair apart by half the overlap each, clamping
 * both balls back into the container after every push.
 */
module Resize {
  import opened RealArith
  import opened Physics
  import opened Integrator
  import opened Collisions

  /** separateOverlappingBalls gives up after this many passes. */
  const MaxIterations: nat := 10

  /**
   * The per-ball part of handleResize: zero the velocity, clamp the centre,
   * then pull the centre back to H - r and W - r if it is still beyond them.
   * The second pair of checks only matters for a container narrower than the
   * ball, where the clamp yields r > W - r and the ball ends at W - r.
   */
  function Refit(b: Ball, w: real, h: real): (r: Ball)
    ensures SameBody(r, b) && r.rotation == b.rotation && r.vrotation == b.vrotation
    ensures r.vx == 0.0 && r.vy == 0.0
    ensures Fits(b, w, h) ==> InBounds(r, w, h)
    ensures InBounds(b, w, h) ==> r.x == b.x && r.y == b.y
    ensures w < 2.0 * b.radius ==> r.x == w - b.radius
    ensures h < 2.0 * b.radius ==> r.y == h - b.radius
  {
    var c := b.(vx := 0.0, vy := 0.0);
    var c := c.(x := Clamp(c.x, c.radius, w - c.radius), y := Clamp(c.y, c.radius, h - c.radius));
    var c := if c.y > h - c.radius then c.(y := h - c.radius) else c;
    if c.x > w - c.radius then c.(x := w - c.radius) else c
  }

  /** Two registries differ at most in the ball positions. */
  predicate OnlyMoved(a: seq<Ball>, b: seq<Ball>)
  {
    |a| == |b| && forall k :: 0 <= k < |a| ==> Moved(a[k], b[k])
  }

  /** b is a at another position. */
  predicate Moved(a: Ball, b: Ball)
  {
    b == a.(x := b.x, y := b.y)
  }

  lemma OnlyMovedSameBodies(a: seq<Ball>, b: seq<Ball>)
    requires OnlyMoved(a, b)
    ensures SameBodies(a, b)
  {
    forall k | 0 <= k < |a| ensures SameBody(a[k], b[k]) {
      assert b[k] == a[k].(x := b[k].x, y := b[k].y);
    }
  }

  lemma OnlyMovedTransitive(a: seq<Ball>, b: seq<Ball>, c: seq<Ball>)
    requires OnlyMoved(a, b) && OnlyMoved(b, c)
    ensures OnlyMoved(a, c)
  {
    forall k | 0 <= k < |a| ensures c[k] == a[k].(x := c[k].x, y := c[k].y) {
      assert b[k] == a[k].(x := b[k].x, y := b[k].y);
      assert c[k] == b[k].(x := c[k].x, y := c[k].y);
    }
  }

  /** Two distinct centres closer than r1 + r2. */
  predicate Overlapping(b1: Ball, b2: Ball, sqrt: real -> real)
  {
    var d := Hypot(sqrt, b2.x - b1.x, b2.y - b1.y);
    0.0 < d < b1.radius + b2.radius
  }

  /** The half-overlap push of separateOverlappingBalls, before the clamp. */
  function Shift(b1: Ball, b2: Ball, dx: real, dy: real, distance: real, minDistance: real): (r: (Ball, Ball))
    requires distance > 0.0
    ensures SameBody(r.0, b1) && SameBody(r.1, b2)
    ensures r.0.vx == b1.vx && r.0.vy == b1.vy && r.1.vx == b2.vx && r.1.vy == b2.vy
    ensures r.0.x + r.1.x == b1.x + b2.x && r.0.y + r.1.y == b1.y + b2.y
  {
    var overlap := minDistance - distance;
    var nx := dx / distance;
    var ny := dy / distance;
    var move := overlap * 0.5;
    (b1.(x := b1.x - nx * move, y := b1.y - ny * move),
     b2.(x := b2.x + nx * move, y := b2.y + ny * move))
  }

  lemma HalfShiftCoordinate(p1: real, p2: real, n: real, d: real, md: real)
    requires p2 - p1 == n * d
    ensures (p2 + n * ((md - d) * 0.5)) - (p1 - n * ((md - d) * 0.5)) == n * md
  {
  }

  /** The half-overlap push leaves the two centres exactly minDistance apart. */
  lemma {:induction false} ShiftReachesContact(b1: Ball, b2: Ball, dx: real, dy: real, distance: real, minDistance: real)
    requires distance > 0.0
    requires dx == b2.x - b1.x && dy == b2.y - b1.y && distance * distance == dx * dx + dy * dy
    ensures var r := Shift(b1, b2, dx, dy, distance, minDistance);
      AtDistance(r.0, r.1, minDistance)
  {
    var r := Shift(b1, b2, dx, dy, distance, minDistance);
    var nx, ny := dx / distance, dy / distance;
    UnitLength(dx, dy, distance);
    DivMul(dx, distance);
    DivMul(dy, distance);
    HalfShiftCoordinate(b1.x, b2.x, nx, distance, minDistance);
    HalfShiftCoordinate(b1.y, b2.y, ny, distance, minDistance);
    ScaleUnit(r.1.x - r.0.x, r.1.y - r.0.y, nx, ny, minDistance);
  }

  /**
   * The body of the inner loop of separateOverlappingBalls for the pair
   * i < j. It returns the new registry and whether the pair overlapped.
   * Dragged balls are not exempt here.
   */
  function SepPair(bs: seq<Ball>, i: nat, j: nat, w: real, h: real, sqrt: real -> real): (r: (seq<Ball>, bool))
    requires i < j < |bs|
    ensures |r.0| == |bs|
    ensures r.1 <==> Overlapping(bs[i], bs[j], sqrt)
    ensures !r.1 ==> r.0 == bs
  {
    var b1, b2 := bs[i], bs[j];
    var dx, dy := b2.x - b1.x, b2.y - b1.y;
    var distance := Hypot(sqrt, dx, dy);
    var minDistance := b1.radius + b2.radius;
    if distance < minDistance && distance > 0.0 then
      var p := Shift(b1, b2, dx, dy, distance, minDistance);
      var q1 := Confine(p.0, w, h);
      var q2 := Confine(p.1, w, h);
      (bs[i := q1][j := q2], true)
    else
      (bs, false)
  }

  /**
   * The pair step only moves balls i and j; a ball that fits and was inside
   * stays inside, and an overlapping pair that fits ends inside.
   */
  lemma SepPairEffect(bs: seq<Ball>, i: nat, j: nat, w: real, h: real, sqrt: real -> real)
    requires i < j < |bs|
    ensures var r := SepPair(bs, i, j, w, h, sqrt);
      OnlyMoved(bs, r.0) &&
      (forall k :: 0 <= k < |bs| && k != i && k != j ==> r.0[k] == bs[k]) &&
      forall k :: 0 <= k < |bs| && Fits(bs[k], w, h) && (InBounds(bs[k], w, h) || (r.1 && (k == i || k == j))) ==>
        InBounds(r.0[k], w, h)
  {
  }

  /** A pair that is apart is left alone and does not count as an overlap. */
  lemma ApartPairNotSeparated(bs: seq<Ball>, i: nat, j: nat, w: real, h: real, sqrt: real -> real)
    requires IsSqrt(sqrt) && i < j < |bs| && WellFormed(bs[i]) && WellFormed(bs[j])
    requires Apart(bs[i], bs[j])
    ensures SepPair(bs, i, j, w, h, sqrt) == (bs, false)
  {
    var b1, b2 := bs[i], bs[j];
    var dx, dy := b2.x - b1.x, b2.y - b1.y;
    SumOfSquares(dx, dy);
    SqrtBelow(sqrt, dx * dx + dy * dy, b1.radius + b2.radius);
    assert !(Hypot(sqrt, dx, dy) < b1.radius + b2.radius);
  }

  /**
   * An overlapping pair whose pushed positions stay inside the container (so
   * the clamp does not move them) ends exactly at contact distance r1 + r2.
   */
  lemma OverlapResolvedUnlessClamped(bs: seq<Ball>, i: nat, j: nat, w: real, h: real, sqrt: real -> real)
    requires IsSqrt(sqrt) && i < j < |bs|
    requires Overlapping(bs[i], bs[j], sqrt)
    requires var dx, dy := bs[j].x - bs[i].x, bs[j].y - bs[i].y;
      var p := Shift(bs[i], bs[j], dx, dy, Hypot(sqrt, dx, dy), bs[i].radius + bs[j].radius);
      InBounds(p.0, w, h) && InBounds(p.1, w, h)
    ensures var r := SepPair(bs, i, j, w, h, sqrt).0;
      AtDistance(r[i], r[j], bs[i].radius + bs[j].radius)
  {
    var dx, dy := bs[j].x - bs[i].x, bs[j].y - bs[i].y;
    UnitNormal(sqrt, dx, dy);
    ShiftReachesContact(bs[i], bs[j], dx, dy, Hypot(sqrt, dx, dy), bs[i].radius + bs[j].radius);
    UnclampedPair(bs, i, j, w, h, sqrt);
  }

  /** When the clamp leaves the pushed pair alone, the pair step stores the pushed pair. */
  lemma UnclampedPair(bs: seq<Ball>, i: nat, j: nat, w: real, h: real, sqrt: real -> real)
    requires i < j < |bs|
    requires Overlapping(bs[i], bs[j], sqrt)
    requires var dx, dy := bs[j].x - bs[i].x, bs[j].y - bs[i].y;
      var p := Shift(bs[i], bs[j], dx, dy, Hypot(sqrt, dx, dy), bs[i].radius + bs[j].radius);
      InBounds(p.0, w, h) && InBounds(p.1, w, h)
    ensures var dx, dy := bs[j].x - bs[i].x, bs[j].y - bs[i].y;
      var p := Shift(bs[i], bs[j], dx, dy, Hypot(sqrt, dx, dy), bs[i].radius + bs[j].radius);
      var r := SepPair(bs, i, j, w, h, sqrt).0;
      r[i] == p.0 && r[j] == p.1
  {
  }

  /**
   * The inner loop of one pass for ball i, from ball j on; `found` is the
   * pass's hasOverlap flag so far.
   */
  function SepRow(bs: seq<Ball>, i: nat, j: nat, w: real, h: real, sqrt: real -> real, found: bool): (r: (seq<Ball>, bool))
    requires i < j
    ensures |r.0| == |bs|
    ensures found ==> r.1
    ensures !r.1 ==> r.0 == bs
    decreases |bs| - j
  {
    if j >= |bs| then (bs, found)
    else
      var step := SepPair(bs, i, j, w, h, sqrt);
      SepRow(step.0, i, j + 1, w, h, sqrt, found || step.1)
  }

  /** One pass of separateOverlappingBalls from row i on: each row against the later balls. */
  function SepPass(bs: seq<Ball>, i: nat, w: real, h: real, sqrt: real -> real, found: bool): (r: (seq<Ball>, bool))
    ensures |r.0| == |bs|
    ensures found ==> r.1
    ensures !r.1 ==> r.0 == bs
    decreases |bs| - i
  {
    if i >= |bs| then (bs, found)
    else
      var row := SepRow(bs, i, i + 1, w, h, sqrt, found);
      SepPass(row.0, i + 1, w, h, sqrt, row.1)
  }

  /**
   * b is a with balls only moved, and every ball of a that fits the
   * container and is inside it is still inside it in b.
   */
  predicate KeptInside(a: seq<Ball>, b: seq<Ball>, w: real, h: real)
  {
    OnlyMoved(a, b) &&
    forall k :: 0 <= k < |a| && Fits(a[k], w, h) && InBounds(a[k], w, h) ==> InBounds(b[k], w, h)
  }

  lemma KeptInsideChain(a: seq<Ball>, b: seq<Ball>, c: seq<Ball>, w: real, h: real)
    requires KeptInside(a, b, w, h) && KeptInside(b, c, w, h)
    ensures KeptInside(a, c, w, h)
  {
    OnlyMovedTransitive(a, b, c);
    forall k | 0 <= k < |a| && Fits(a[k], w, h) && InBounds(a[k], w, h) ensures InBounds(c[k], w, h) {
      assert b[k] == a[k].(x := b[k].x, y := b[k].y);
    }
  }

  /** A row only moves balls, and keeps inside every ball that fits and starts inside. */
  lemma {:induction false} SepRowKeeps(bs: seq<Ball>, i: nat, j: nat, w: real, h: real, sqrt: real -> real, found: bool)
    requires i < j
    ensures KeptInside(bs, SepRow(bs, i, j, w, h, sqrt, found).0, w, h)
    decreases |bs| - j
  {
    if j < |bs| {
      var step := SepPair(bs, i, j, w, h, sqrt);
      SepPairEffect(bs, i, j, w, h, sqrt);
      SepRowKeeps(step.0, i, j + 1, w, h, sqrt, found || step.1);
      SepRowStep(bs, i, j, w, h, sqrt, found);
      KeptInsideChain(bs, step.0, SepRow(step.0, i, j + 1, w, h, sqrt, found || step.1).0, w, h);
    }
  }

  /** SepRowKeeps for the rows of a pass from row i on. */
  lemma {:induction false} SepPassKeeps(bs: seq<Ball>, i: nat, w: real, h: real, sqrt: real -> real, found: bool)
    ensures KeptInside(bs, SepPass(bs, i, w, h, sqrt, found).0, w, h)
    decreases |bs| - i
  {
    if i < |bs| {
      var row := SepRow(bs, i, i + 1, w, h, sqrt, found);
      SepPassKeeps(row.0, i + 1, w, h, sqrt, row.1);
      SepPassKeepsStep(bs, i, w, h, sqrt, found);
    }
  }

  /** The inductive step of SepPassKeeps: row i, then the rest of the pass. */
  lemma SepPassKeepsStep(bs: seq<Ball>, i: nat, w: real, h: real, sqrt: real -> real, found: bool)
    requires i < |bs|
    requires var row := SepRow(bs, i, i + 1, w, h, sqrt, found);
      KeptInside(row.0, SepPass(row.0, i + 1, w, h, sqrt, row.1).0, w, h)
    ensures KeptInside(bs, SepPass(bs, i, w, h, sqrt, found).0, w, h)
  {
    var row := SepRow(bs, i, i + 1, w, h, sqrt, found);
    SepRowKeeps(bs, i, i + 1, w, h, sqrt, found);
    SepPassStep(bs, i, w, h, sqrt, found);
    KeptInsideChain(bs, row.0, SepPass(row.0, i + 1, w, h, sqrt, row.1).0, w, h);
  }

  /** One row of a pass, then the pass from the next row with the flag so far. It unfolds SepPass for the proofs about the pass. */
  lemma SepPassStep(bs: seq<Ball>, i: nat, w: real, h: real, sqrt: real -> real, found: bool)
    requires i < |bs|
    ensures var row := SepRow(bs, i, i + 1, w, h, sqrt, found);
      SepPass(bs, i, w, h, sqrt, found) == SepPass(row.0, i + 1, w, h, sqrt, row.1)
  {
  }

  /** A pass past the last row changes nothing. */
  lemma SepPassDone(bs: seq<Ball>, i: nat, w: real, h: real, sqrt: real -> real, found: bool)
    requires |bs| <= i
    ensures SepPass(bs, i, w, h, sqrt, found) == (bs, found)
  {
  }

  /** A row past the last ball changes nothing. */
  lemma SepRowDone(bs: seq<Ball>, i: nat, j: nat, w: real, h: real, sqrt: real -> real, found: bool)
    requires i < j && |bs| <= j
    ensures SepRow(bs, i, j, w, h, sqrt, found) == (bs, found)
  {
  }

  /** One step of a row: pair (i, j), then (i, j + 1) with the flag updated. It unfolds SepRow for the proof of BallPhysics.SeparateNext. */
  lemma SepRowStep(bs: seq<Ball>, i: nat, j: nat, w: real, h: real, sqrt: real -> real, found: bool)
    requires i < j < |bs|
    ensures var step := SepPair(bs, i, j, w, h, sqrt);
      SepRow(bs, i, j, w, h, sqrt, found) == SepRow(step.0, i, j + 1, w, h, sqrt, found || step.1)
  {
  }

  /** The pass loop of separateOverlappingBalls, from pass `iteration` on. */
  function Separate(bs: seq<Ball>, iteration: nat, w: real, h: real, sqrt: real -> real): (r: seq<Ball>)
    ensures |r| == |bs|
    decreases MaxIterations - iteration
  {
    if iteration >= MaxIterations then bs
    else
      var pass := SepPass(bs, 0, w, h, sqrt, false);
      if !pass.1 then pass.0
      else Separate(pass.0, iteration + 1, w, h, sqrt)
  }

  /** The separation loop only moves balls, and keeps a contained registry contained. */
  lemma {:induction false} SeparateKeeps(bs: seq<Ball>, iteration: nat, w: real, h: real, sqrt: real -> real)
    ensures MovedContained(bs, Separate(bs, iteration, w, h, sqrt), w, h)
    decreases MaxIterations - iteration
  {
    if iteration < MaxIterations {
      var pass := SepPass(bs, 0, w, h, sqrt, false);
      if pass.1 {
        SeparateKeeps(pass.0, iteration + 1, w, h, sqrt);
      }
      SeparateKeepsStep(bs, iteration, w, h, sqrt);
    }
  }

  /** b is a with balls moved, and if a was contained so is b. */
  predicate MovedContained(a: seq<Ball>, b: seq<Ball>, w: real, h: real)
  {
    OnlyMoved(a, b) && (Contained(a, w, h) ==> Contained(b, w, h))
  }

  /** The inductive step of SeparateKeeps: one pass, then the remaining ones. */
  lemma SeparateKeepsStep(bs: seq<Ball>, iteration: nat, w: real, h: real, sqrt: real -> real)
    requires iteration < MaxIterations
    requires var pass := SepPass(bs, 0, w, h, sqrt, false);
      pass.1 ==> MovedContained(pass.0, Separate(pass.0, iteration + 1, w, h, sqrt), w, h)
    ensures MovedContained(bs, Separate(bs, iteration, w, h, sqrt), w, h)
  {
    var pass := SepPass(bs, 0, w, h, sqrt, false);
    PassKeepsContained(bs, w, h, sqrt);
    SeparateStep(bs, iteration, w, h, sqrt);
    if pass.1 {
      OnlyMovedTransitive(bs, pass.0, Separate(pass.0, iteration + 1, w, h, sqrt));
    }
  }

  /** One whole pass only moves balls and keeps a contained registry contained. */
  lemma PassKeepsContained(bs: seq<Ball>, w: real, h: real, sqrt: real -> real)
    ensures var r := SepPass(bs, 0, w, h, sqrt, false).0;
      OnlyMoved(bs, r) && (Contained(bs, w, h) ==> Contained(r, w, h))
  {
    var r := SepPass(bs, 0, w, h, sqrt, false).0;
    SepPassKeeps(bs, 0, w, h, sqrt, false);
    if Contained(bs, w, h) {
      forall k | 0 <= k < |r| && Fits(r[k], w, h) ensures InBounds(r[k], w, h) {
        assert r[k] == bs[k].(x := r[k].x, y := r[k].y);
      }
    }
  }

  /** One pass of the separation loop, then the remaining passes unless it found no overlap. It unfolds Separate for the loop invariants of BallPhysics.SeparateOverlappingBalls. */
  lemma SeparateStep(bs: seq<Ball>, iteration: nat, w: real, h: real, sqrt: real -> real)
    requires iteration < MaxIterations
    ensures var pass := SepPass(bs, 0, w, h, sqrt, false);
      Separate(bs, iteration, w, h, sqrt) == if !pass.1 then pass.0 else Separate(pass.0, iteration + 1, w, h, sqrt)
  {
  }

  /** The loop of handleResize before the separation: Refit on every ball. */
  function RefitAll(bs: seq<Ball>, w: real, h: real): (r: seq<Ball>)
    ensures |r| == |bs| && SameBodies(bs, r)
    ensures forall k :: 0 <= k < |bs| ==> r[k] == Refit(bs[k], w, h)
  {
    seq(|bs|, k requires 0 <= k < |bs| => Refit(bs[k], w, h))
  }

  /**
   * The whole of handleResize on the registry: the separation that follows
   * the refit only moves the refitted balls.
   */
  function Resized(bs: seq<Ball>, w: real, h: real, sqrt: real -> real): (r: seq<Ball>)
    ensures OnlyMoved(RefitAll(bs, w, h), r)
  {
    SeparateKeeps(RefitAll(bs, w, h), 0, w, h, sqrt);
    Separate(RefitAll(bs, w, h), 0, w, h, sqrt)
  }

  /**
   * After a resize every ball is at rest, keeps its shape, mass, spin and drag
   * state, and every ball that fits the new container is inside it.
   */
  lemma ResizeStopsAndContains(bs: seq<Ball>, w: real, h: real, sqrt: real -> real)
    ensures var r := Resized(bs, w, h, sqrt);
      SameBodies(bs, r) && Contained(r, w, h) &&
      forall k :: 0 <= k < |r| ==> r[k].vx == 0.0 && r[k].vy == 0.0 && r[k].vrotation == bs[k].vrotation
  {
    var fitted := RefitAll(bs, w, h);
    var r := Separate(fitted, 0, w, h, sqrt);
    SeparateKeeps(fitted, 0, w, h, sqrt);
    assert Contained(fitted, w, h) by {
      forall k | 0 <= k < |fitted| && Fits(fitted[k], w, h) ensures InBounds(fitted[k], w, h) {
        assert SameBody(fitted[k], bs[k]);
      }
    }
    OnlyMovedSameBodies(fitted, r);
    forall k | 0 <= k < |r| ensures SameBody(bs[k], r[k]) && r[k].vx == 0.0 && r[k].vy == 0.0 && r[k].vrotation == bs[k].vrotation {
      assert r[k] == fitted[k].(x := r[k].x, y := r[k].y);
    }
  }

  /** No two balls of the registry overlap. */
  predicate NoOverlap(bs: seq<Ball>)
  {
    forall i, j :: 0 <= i < j < |bs| ==> Apart(bs[i], bs[j])
  }

  /** A row over a registry without overlaps moves nothing and reports no overlap. */
  lemma {:induction false} QuietRow(bs: seq<Ball>, i: nat, j: nat, w: real, h: real, sqrt: real -> real)
    requires IsSqrt(sqrt) && i < j && AllWellFormed(bs) && NoOverlap(bs)
    ensures SepRow(bs, i, j, w, h, sqrt, false) == (bs, false)
    decreases |bs| - j
  {
    if j < |bs| {
      ApartPairNotSeparated(bs, i, j, w, h, sqrt);
      QuietRow(bs, i, j + 1, w, h, sqrt);
    }
  }

  /** A pass over a registry without overlaps moves nothing and reports no overlap. */
  lemma {:induction false} QuietPass(bs: seq<Ball>, i: nat, w: real, h: real, sqrt: real -> real)
    requires IsSqrt(sqrt) && AllWellFormed(bs) && NoOverlap(bs)
    ensures SepPass(bs, i, w, h, sqrt, false) == (bs, false)
    decreases |bs| - i
  {
    if i < |bs| {
      QuietRow(bs, i, i + 1, w, h, sqrt);
      QuietPass(bs, i + 1, w, h, sqrt);
    }
  }

  /** Separation leaves a registry without overlaps exactly as it was. */
  lemma SeparationQuiet(bs: seq<Ball>, w: real, h: real, sqrt: real -> real)
    requires IsSqrt(sqrt) && AllWellFormed(bs) && NoOverlap(bs)
    ensures Separate(bs, 0, w, h, sqrt) == bs
  {
    QuietPass(bs, 0, w, h, sqrt);
  }

  /** A row that reports no overlap found no overlapping pair (i, k) for k from j on. */
  lemma {:induction false} CleanRow(bs: seq<Ball>, i: nat, j: nat, w: real, h: real, sqrt: real -> real)
    requires i < j
    requires !SepRow(bs, i, j, w, h, sqrt, false).1
    ensures forall k :: j <= k < |bs| ==> !Overlapping(bs[i], bs[k], sqrt)
    decreases |bs| - j
  {
    if j < |bs| {
      var step := SepPair(bs, i, j, w, h, sqrt);
      assert !step.1;
      CleanRow(bs, i, j + 1, w, h, sqrt);
    }
  }

  /**
   * A pass that reports no overlap has checked every remaining pair against
   * the registry it returns, so the early exit is sound: no pair from row i
   * on overlaps.
   */
  lemma {:induction false} CleanPassMeansSeparated(bs: seq<Ball>, i: nat, w: real, h: real, sqrt: real -> real)
    requires !SepPass(bs, i, w, h, sqrt, false).1
    ensures forall k, l :: i <= k < l < |bs| ==> !Overlapping(bs[k], bs[l], sqrt)
    decreases |bs| - i
  {
    if i < |bs| {
      var row := SepRow(bs, i, i + 1, w, h, sqrt, false);
      assert !row.1;
      CleanRow(bs, i, i + 1, w, h, sqrt);
      CleanPassMeansSeparated(bs, i + 1, w, h, sqrt);
    }
  }
}
