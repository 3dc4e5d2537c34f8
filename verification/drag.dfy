/**
 * The drag controller of BallPhysics: startDrag, updateDragPosition and
 * resolveDragCollisions, with getMousePos. A grabbed ball follows the pointer
 * at the grab offset, clamped into the container and pushed out of the other
 * balls, which are nudged aside; every move is appended to a drag history of
 * at most five samples.
 */
module Drag {
  import opened RealArith
  import opened Physics
  import opened Integrator

  /** resolveDragCollisions adds this much velocity to a ball the dragged ball runs into. */
  const PushStrength: real := 0.5
  /** ... and moves it back by this fraction of the overlap. */
  const PushBack: real := 0.3

  /** getMousePos: a client position relative to the container's top-left corner. */
  function MousePos(clientX: real, clientY: real, left: real, top: real): (p: Vec)
    ensures p.x + left == clientX && p.y + top == clientY
  {
    Vec(clientX - left, clientY - top)
  }

  /**
   * The history update of updateDragPosition: push the new sample, then
   * drop the oldest one if the history is longer than maxPositionHistory.
   */
  function Record(h: seq<Sample>, s: Sample): (r: seq<Sample>)
    ensures |r| > 0 && r[|r| - 1] == s
    ensures |h| <= MaxPositionHistory ==> |r| <= MaxPositionHistory
    ensures |h| < MaxPositionHistory ==> r == h + [s]
    ensures |h| >= MaxPositionHistory ==> r == h[1..] + [s]
  {
    var pushed := h + [s];
    if |pushed| > MaxPositionHistory then pushed[1..] else pushed
  }

  /** Records a whole sequence of samples, one move at a time. */
  function RecordAll(h: seq<Sample>, ss: seq<Sample>): (r: seq<Sample>)
    decreases |ss|
  {
    if |ss| == 0 then h else RecordAll(Record(h, ss[0]), ss[1..])
  }

  /** The last min(|s|, n) elements of s. */
  function LastN<T>(s: seq<T>, n: nat): seq<T>
  {
    if |s| <= n then s else s[|s| - n..]
  }

  /**
   * The history is a sliding window: after any number of moves it holds the
   * most recent samples, at most five of them, oldest first.
   */
  lemma {:induction false} HistoryKeepsNewest(h: seq<Sample>, ss: seq<Sample>)
    requires |h| <= MaxPositionHistory
    ensures RecordAll(h, ss) == LastN(h + ss, MaxPositionHistory)
    decreases |ss|
  {
    var n := MaxPositionHistory;
    if |ss| > 0 {
      var s, rest := ss[0], ss[1..];
      var h1 := Record(h, s);
      var w := h + [s];
      assert w + rest == h + ss;
      calc {
        RecordAll(h, ss);
        RecordAll(h1, rest);
        { HistoryKeepsNewest(h1, rest); }
        LastN(h1 + rest, n);
        { RecordIsWindow(h, s); }
        LastN(LastN(w, n) + rest, n);
        { WindowOfWindow(w, rest, n); }
        LastN(w + rest, n);
      }
    }
  }

  /** One move keeps the last five samples of the history extended by the new one. */
  lemma RecordIsWindow(h: seq<Sample>, s: Sample)
    requires |h| <= MaxPositionHistory
    ensures Record(h, s) == LastN(h + [s], MaxPositionHistory)
  {
  }

  /** Cutting to the last n before appending b does not change the last n of the result. */
  lemma WindowOfWindow<T>(a: seq<T>, b: seq<T>, n: nat)
    ensures LastN(LastN(a, n) + b, n) == LastN(a + b, n)
  {
    if |a| > n {
      var ab := a + b;
      assert a[|a| - n..] + b == ab[|a| - n..];
      SuffixWindow(ab, |a| - n, n);
    }
  }

  /** The last n of a suffix at least n long are the last n of the whole sequence. */
  lemma SuffixWindow<T>(s: seq<T>, i: nat, n: nat)
    requires i <= |s| && |s| - i >= n
    ensures LastN(s[i..], n) == LastN(s, n)
  {
    if |s| - i > n {
      assert s[i..][|s| - i - n..] == s[|s| - n..];
    }
  }

  /**
   * startDrag: mark the ball as dragged, remember the offset from the pointer
   * to the centre and the start time, and reset the history to the current
   * position.
   */
  function Grab(b: Ball, pointer: Vec, now: int): (r: Ball)
    ensures r.isDragging && r.dragStartTime == now
    ensures r.x == pointer.x + r.dragOffsetX && r.y == pointer.y + r.dragOffsetY
    ensures r.dragPositions == [Sample(b.x, b.y, now)]
    ensures r == b.(isDragging := r.isDragging, dragOffsetX := r.dragOffsetX, dragOffsetY := r.dragOffsetY,
                    dragStartTime := r.dragStartTime, dragPositions := r.dragPositions)
  {
    b.(isDragging := true,
       dragOffsetX := b.x - pointer.x,
       dragOffsetY := b.y - pointer.y,
       dragStartTime := now,
       dragPositions := [Sample(b.x, b.y, now)])
  }

  /**
   * The push of resolveDragCollisions for an overlap with ball `other` at
   * distance `distance` < minDistance: the desired position moves out along
   * the centre line by the overlap; the other ball (when free) gets a velocity
   * push and is moved back by 0.3 of the overlap, before its clamp.
   */
  function Deflect(pos: Vec, other: Ball, distance: real, minDistance: real): (r: (Vec, Ball))
    requires distance > 0.0
    ensures SameBody(r.1, other) && r.1.rotation == other.rotation && r.1.vrotation == other.vrotation
  {
    var dx, dy := pos.x - other.x, pos.y - other.y;
    var nx, ny := dx / distance, dy / distance;
    var overlap := minDistance - distance;
    var next := Vec(pos.x + nx * overlap, pos.y + ny * overlap);
    var o := other.(vx := other.vx + nx * PushStrength, vy := other.vy + ny * PushStrength);
    var o := o.(x := o.x - nx * (overlap * PushBack), y := o.y - ny * (overlap * PushBack));
    (next, o)
  }

  lemma PushCoordinate(p: real, q: real, n: real, d: real, md: real)
    requires p - q == n * d
    ensures (p + n * (md - d)) - q == n * md
  {
  }

  /**
   * The pushed-out position is exactly minDistance from the other ball's
   * centre, and the other ball's velocity changes by a vector of length 0.5.
   */
  lemma {:induction false} DeflectGeometry(pos: Vec, other: Ball, distance: real, minDistance: real)
    requires distance > 0.0
    requires distance * distance == (pos.x - other.x) * (pos.x - other.x) + (pos.y - other.y) * (pos.y - other.y)
    ensures var r := Deflect(pos, other, distance, minDistance);
      HasLength(r.0.x - other.x, r.0.y - other.y, minDistance) &&
      HasLength(r.1.vx - other.vx, r.1.vy - other.vy, PushStrength)
  {
    var dx, dy := pos.x - other.x, pos.y - other.y;
    var nx, ny := dx / distance, dy / distance;
    var r := Deflect(pos, other, distance, minDistance);
    UnitLength(dx, dy, distance);
    DivMul(dx, distance);
    DivMul(dy, distance);
    PushCoordinate(pos.x, other.x, nx, distance, minDistance);
    PushCoordinate(pos.y, other.y, ny, distance, minDistance);
    ScaleUnit(r.0.x - other.x, r.0.y - other.y, nx, ny, minDistance);
    ScaleUnit(r.1.vx - other.vx, r.1.vy - other.vy, nx, ny, PushStrength);
  }

  /** A step of length s along the unit direction a / d, in the component a. */
  function Along(s: real, d: real, a: real): real
    requires d > 0.0
  {
    (s / d) * a
  }

  /**
   * The directions of the push, along the offset (dx, dy) from the other
   * ball to the desired position: the desired position moves further out by
   * the overlap along it; the other ball's velocity gains 0.5 along it,
   * towards the dragged ball; and the other ball itself moves back by 0.3 of
   * the overlap, away from the dragged ball. Nothing else of it changes.
   */
  lemma DeflectDirections(pos: Vec, other: Ball, distance: real, minDistance: real)
    requires distance > 0.0
    ensures var r := Deflect(pos, other, distance, minDistance);
      var dx, dy := pos.x - other.x, pos.y - other.y;
      var overlap := minDistance - distance;
      r.0 == Vec(pos.x + Along(overlap, distance, dx), pos.y + Along(overlap, distance, dy)) &&
      r.1 == other.(vx := other.vx + Along(PushStrength, distance, dx),
                    vy := other.vy + Along(PushStrength, distance, dy),
                    x := other.x - Along(overlap * PushBack, distance, dx),
                    y := other.y - Along(overlap * PushBack, distance, dy))
  {
    var dx, dy := pos.x - other.x, pos.y - other.y;
    var overlap := minDistance - distance;
    AlongOffset(dx, distance, overlap);
    AlongOffset(dy, distance, overlap);
    AlongOffset(dx, distance, PushStrength);
    AlongOffset(dy, distance, PushStrength);
    AlongOffset(dx, distance, overlap * PushBack);
    AlongOffset(dy, distance, overlap * PushBack);
  }

  /** Scaling the unit component a / d by s is scaling a by s / d. */
  lemma AlongOffset(a: real, d: real, s: real)
    requires d > 0.0
    ensures (a / d) * s == (s / d) * a
  {
  }

  /** The body of the loop of resolveDragCollisions for the other ball k. */
  function DragStep(bs: seq<Ball>, d: nat, k: nat, pos: Vec, w: real, h: real, sqrt: real -> real): (r: (seq<Ball>, Vec))
    requires d < |bs| && k < |bs|
    ensures SameBodies(bs, r.0)
    ensures forall m :: 0 <= m < |bs| && m != k ==> r.0[m] == bs[m]
    ensures forall m :: 0 <= m < |bs| ==> r.0[m].rotation == bs[m].rotation && r.0[m].vrotation == bs[m].vrotation
    ensures k == d || bs[k].isDragging ==> r.0 == bs
    ensures Contained(bs, w, h) ==> Contained(r.0, w, h)
  {
    if k == d then (bs, pos)
    else
      var dragged, other := bs[d], bs[k];
      var dx, dy := pos.x - other.x, pos.y - other.y;
      var distance := Hypot(sqrt, dx, dy);
      var minDistance := dragged.radius + other.radius;
      if distance < minDistance && distance > 0.0 then
        var p := Deflect(pos, other, distance, minDistance);
        if !other.isDragging then
          var r := bs[k := Confine(p.1, w, h)];
          assert SameBodies(bs, r) by {
            forall m | 0 <= m < |bs| ensures SameBody(bs[m], r[m]) {}
          }
          (r, p.0)
        else
          (bs, p.0)
      else
        (bs, pos)
  }

  /** The desired position p is at least r_d + r_k away from every other ball. */
  predicate ClearOf(bs: seq<Ball>, d: nat, p: Vec)
    requires d < |bs|
  {
    forall k :: 0 <= k < |bs| && k != d ==>
      (p.x - bs[k].x) * (p.x - bs[k].x) + (p.y - bs[k].y) * (p.y - bs[k].y) >=
        (bs[d].radius + bs[k].radius) * (bs[d].radius + bs[k].radius)
  }

  /**
   * When the dragged ball overlaps ball k, the desired position is pushed out
   * along the centre line to exactly r_d + r_k from k's centre, and a free
   * ball k receives a velocity push of length 0.5 along the same line.
   */
  lemma DragPushReachesContact(bs: seq<Ball>, d: nat, k: nat, pos: Vec, w: real, h: real, sqrt: real -> real)
    requires IsSqrt(sqrt) && d < |bs| && k < |bs| && k != d
    requires 0.0 < Hypot(sqrt, pos.x - bs[k].x, pos.y - bs[k].y) < bs[d].radius + bs[k].radius
    ensures var r := DragStep(bs, d, k, pos, w, h, sqrt);
      HasLength(r.1.x - bs[k].x, r.1.y - bs[k].y, bs[d].radius + bs[k].radius)
    ensures var r := DragStep(bs, d, k, pos, w, h, sqrt);
      !bs[k].isDragging ==> HasLength(r.0[k].vx - bs[k].vx, r.0[k].vy - bs[k].vy, PushStrength)
  {
    var distance := Hypot(sqrt, pos.x - bs[k].x, pos.y - bs[k].y);
    UnitNormal(sqrt, pos.x - bs[k].x, pos.y - bs[k].y);
    DeflectGeometry(pos, bs[k], distance, bs[d].radius + bs[k].radius);
    var p := Deflect(pos, bs[k], distance, bs[d].radius + bs[k].radius);
    var r := DragStep(bs, d, k, pos, w, h, sqrt);
    assert r.1 == p.0;
    if !bs[k].isDragging {
      assert r.0[k] == Confine(p.1, w, h);
      assert r.0[k].vx == p.1.vx && r.0[k].vy == p.1.vy;
    }
  }

  /**
   * When the dragged ball overlaps a free ball k, k's velocity is pushed by
   * 0.5 along the centre line towards the dragged ball, and k is moved back
   * along that line, away from the dragged ball, by 0.3 of the overlap, then
   * clamped into the container.
   */
  lemma DragPushDirections(bs: seq<Ball>, d: nat, k: nat, pos: Vec, w: real, h: real, sqrt: real -> real)
    requires d < |bs| && k < |bs| && k != d && !bs[k].isDragging
    requires 0.0 < Hypot(sqrt, pos.x - bs[k].x, pos.y - bs[k].y) < bs[d].radius + bs[k].radius
    ensures var r := DragStep(bs, d, k, pos, w, h, sqrt);
      var dx, dy := pos.x - bs[k].x, pos.y - bs[k].y;
      var distance := Hypot(sqrt, dx, dy);
      var overlap := bs[d].radius + bs[k].radius - distance;
      r.0[k] == Confine(bs[k].(vx := bs[k].vx + Along(PushStrength, distance, dx),
                               vy := bs[k].vy + Along(PushStrength, distance, dy),
                               x := bs[k].x - Along(overlap * PushBack, distance, dx),
                               y := bs[k].y - Along(overlap * PushBack, distance, dy)), w, h)
  {
    var distance := Hypot(sqrt, pos.x - bs[k].x, pos.y - bs[k].y);
    DragStepPushes(bs, d, k, pos, w, h, sqrt, distance);
    DeflectDirections(pos, bs[k], distance, bs[d].radius + bs[k].radius);
  }

  /** DragStep on a free ball k that the desired position overlaps: Deflect, then the clamp of k. It unfolds DragStep for DragPushDirections. */
  lemma DragStepPushes(bs: seq<Ball>, d: nat, k: nat, pos: Vec, w: real, h: real, sqrt: real -> real, distance: real)
    requires d < |bs| && k < |bs| && k != d && !bs[k].isDragging
    requires distance == Hypot(sqrt, pos.x - bs[k].x, pos.y - bs[k].y)
    requires 0.0 < distance < bs[d].radius + bs[k].radius
    ensures var p := Deflect(pos, bs[k], distance, bs[d].radius + bs[k].radius);
      DragStep(bs, d, k, pos, w, h, sqrt).0[k] == Confine(p.1, w, h)
  {
  }

  /** The loop of resolveDragCollisions from ball k on, carrying the resolved position. */
  function DragSweep(bs: seq<Ball>, d: nat, k: nat, pos: Vec, w: real, h: real, sqrt: real -> real): (r: (seq<Ball>, Vec))
    requires d < |bs|
    ensures |r.0| == |bs|
    decreases |bs| - k
  {
    if k >= |bs| then (bs, pos)
    else
      var step := DragStep(bs, d, k, pos, w, h, sqrt);
      DragSweep(step.0, d, k + 1, step.1, w, h, sqrt)
  }

  /**
   * The drag sweep changes only velocities and positions of free balls: the
   * dragged ball and every other dragged ball are untouched, spins are kept,
   * and a contained registry stays contained.
   */
  lemma {:induction false} DragSweepKeeps(bs: seq<Ball>, d: nat, k: nat, pos: Vec, w: real, h: real, sqrt: real -> real)
    requires d < |bs|
    ensures DragKept(bs, DragSweep(bs, d, k, pos, w, h, sqrt).0, d, w, h)
    decreases |bs| - k
  {
    if k < |bs| {
      var step := DragStep(bs, d, k, pos, w, h, sqrt);
      DragSweepKeeps(step.0, d, k + 1, step.1, w, h, sqrt);
      DragSweepKeepsStep(bs, d, k, pos, w, h, sqrt);
    }
  }

  /**
   * What the drag sweep keeps from a to b: the bodies, the dragged ball d
   * and every other dragged ball, all spins, and containment.
   */
  predicate DragKept(a: seq<Ball>, b: seq<Ball>, d: nat, w: real, h: real)
    requires d < |a|
  {
    SameBodies(a, b) && b[d] == a[d] &&
    (forall m :: 0 <= m < |a| && a[m].isDragging ==> b[m] == a[m]) &&
    (forall m :: 0 <= m < |a| ==> b[m].rotation == a[m].rotation && b[m].vrotation == a[m].vrotation) &&
    (Contained(a, w, h) ==> Contained(b, w, h))
  }

  /** DragKept composes. */
  lemma DragKeptChain(a: seq<Ball>, b: seq<Ball>, c: seq<Ball>, d: nat, w: real, h: real)
    requires d < |a| && DragKept(a, b, d, w, h) && DragKept(b, c, d, w, h)
    ensures DragKept(a, c, d, w, h)
  {
  }

  /** The inductive step of DragSweepKeeps: ball k, then the rest of the sweep. */
  lemma DragSweepKeepsStep(bs: seq<Ball>, d: nat, k: nat, pos: Vec, w: real, h: real, sqrt: real -> real)
    requires d < |bs| && k < |bs|
    requires var step := DragStep(bs, d, k, pos, w, h, sqrt);
      DragKept(step.0, DragSweep(step.0, d, k + 1, step.1, w, h, sqrt).0, d, w, h)
    ensures DragKept(bs, DragSweep(bs, d, k, pos, w, h, sqrt).0, d, w, h)
  {
    var step := DragStep(bs, d, k, pos, w, h, sqrt);
    DragSweepStep(bs, d, k, pos, w, h, sqrt);
    assert DragKept(bs, step.0, d, w, h);
    DragKeptChain(bs, step.0, DragSweep(step.0, d, k + 1, step.1, w, h, sqrt).0, d, w, h);
  }

  /** One step of the drag sweep: ball k, then ball k + 1 from the new position. It unfolds DragSweep for the proofs about the sweep. */
  lemma DragSweepStep(bs: seq<Ball>, d: nat, k: nat, pos: Vec, w: real, h: real, sqrt: real -> real)
    requires d < |bs| && k < |bs|
    ensures var step := DragStep(bs, d, k, pos, w, h, sqrt);
      DragSweep(bs, d, k, pos, w, h, sqrt) == DragSweep(step.0, d, k + 1, step.1, w, h, sqrt)
  {
  }

  /** DragSweepStep, for a step already taken: from (after, next) the sweep ends where it would have from (bs, pos). */
  lemma DragSweepAfter(bs: seq<Ball>, d: nat, k: nat, pos: Vec, after: seq<Ball>, next: Vec, w: real, h: real, sqrt: real -> real)
    requires d < |bs| && k < |bs|
    requires (after, next) == DragStep(bs, d, k, pos, w, h, sqrt)
    ensures DragSweep(after, d, k + 1, next, w, h, sqrt) == DragSweep(bs, d, k, pos, w, h, sqrt)
  {
    DragSweepStep(bs, d, k, pos, w, h, sqrt);
  }

  /** The sweep past the last ball changes nothing. */
  lemma DragSweepDone(bs: seq<Ball>, d: nat, k: nat, pos: Vec, w: real, h: real, sqrt: real -> real)
    requires d < |bs| <= k
    ensures DragSweep(bs, d, k, pos, w, h, sqrt) == (bs, pos)
  {
  }

  /** A desired position clear of all other balls passes the sweep untouched. */
  lemma {:induction false} ClearDragSweep(bs: seq<Ball>, d: nat, k: nat, pos: Vec, w: real, h: real, sqrt: real -> real)
    requires IsSqrt(sqrt) && d < |bs| && AllWellFormed(bs) && ClearOf(bs, d, pos)
    ensures DragSweep(bs, d, k, pos, w, h, sqrt) == (bs, pos)
    decreases |bs| - k
  {
    if k < |bs| {
      if k != d {
        var dx, dy := pos.x - bs[k].x, pos.y - bs[k].y;
        assert WellFormed(bs[d]) && WellFormed(bs[k]);
        SumOfSquares(dx, dy);
        SqrtBelow(sqrt, dx * dx + dy * dy, bs[d].radius + bs[k].radius);
        assert !(Hypot(sqrt, dx, dy) < bs[d].radius + bs[k].radius);
      }
      assert DragStep(bs, d, k, pos, w, h, sqrt) == (bs, pos);
      ClearDragSweep(bs, d, k + 1, pos, w, h, sqrt);
    }
  }

  /**
   * resolveDragCollisions: sweep every other ball, then clamp the resolved
   * position into the container. Returns the registry and the position.
   */
  function ResolveDrag(bs: seq<Ball>, d: nat, desired: Vec, w: real, h: real, sqrt: real -> real): (r: (seq<Ball>, Vec))
    requires d < |bs|
    ensures SameBodies(bs, r.0) && r.0[d] == bs[d]
    ensures forall m :: 0 <= m < |bs| && bs[m].isDragging ==> r.0[m] == bs[m]
    ensures Contained(bs, w, h) ==> Contained(r.0, w, h)
    ensures Fits(bs[d], w, h) ==> InBounds(bs[d].(x := r.1.x, y := r.1.y), w, h)
  {
    var s := DragSweep(bs, d, 0, desired, w, h, sqrt);
    DragSweepKeeps(bs, d, 0, desired, w, h, sqrt);
    var b := bs[d];
    (s.0, Vec(Clamp(s.1.x, b.radius, w - b.radius), Clamp(s.1.y, b.radius, h - b.radius)))
  }

  /**
   * updateDragPosition for ball d: nothing unless it is being dragged;
   * otherwise the pointer plus the grab offset, clamped, resolved against the
   * other balls, becomes the centre and is appended to the history.
   */
  function DragTo(bs: seq<Ball>, d: nat, pointer: Vec, now: int, w: real, h: real, sqrt: real -> real): (r: seq<Ball>)
    requires d < |bs|
    ensures |r| == |bs|
    ensures !bs[d].isDragging ==> r == bs
    ensures forall m :: 0 <= m < |bs| && m != d && bs[m].isDragging ==> r[m] == bs[m]
    ensures forall m :: 0 <= m < |bs| ==>
      r[m].isDragging == bs[m].isDragging && r[m].radius == bs[m].radius && r[m].mass == bs[m].mass
    ensures AllWellFormed(bs) ==> AllWellFormed(r)
  {
    var b := bs[d];
    if !b.isDragging then bs
    else
      var newX := Clamp(pointer.x + b.dragOffsetX, b.radius, w - b.radius);
      var newY := Clamp(pointer.y + b.dragOffsetY, b.radius, h - b.radius);
      var res := ResolveDrag(bs, d, Vec(newX, newY), w, h, sqrt);
      var moved := b.(x := res.1.x, y := res.1.y);
      res.0[d := moved.(dragPositions := Record(moved.dragPositions, Sample(moved.x, moved.y, now)))]
  }

  /** DragTo for a dragged ball, in terms of its clamped target and the resolved drag. */
  lemma DragToDragged(bs: seq<Ball>, d: nat, pointer: Vec, now: int, w: real, h: real, sqrt: real -> real, target: Vec, res: (seq<Ball>, Vec))
    requires d < |bs| && bs[d].isDragging
    requires target == Vec(Clamp(pointer.x + bs[d].dragOffsetX, bs[d].radius, w - bs[d].radius),
                           Clamp(pointer.y + bs[d].dragOffsetY, bs[d].radius, h - bs[d].radius))
    requires res == ResolveDrag(bs, d, target, w, h, sqrt)
    ensures var moved := bs[d].(x := res.1.x, y := res.1.y);
      DragTo(bs, d, pointer, now, w, h, sqrt) == res.0[d := moved.(dragPositions := Record(moved.dragPositions, Sample(moved.x, moved.y, now)))]
  {
  }

  /**
   * handleMouseMove / handleTouchMove from ball k on: every ball that is
   * being dragged is moved towards the same pointer position.
   */
  function DragAll(bs: seq<Ball>, k: nat, pointer: Vec, now: int, w: real, h: real, sqrt: real -> real): (r: seq<Ball>)
    ensures |r| == |bs|
    ensures forall m :: 0 <= m < |bs| ==> r[m].isDragging == bs[m].isDragging
    ensures AllWellFormed(bs) ==> AllWellFormed(r)
    decreases |bs| - k
  {
    if k >= |bs| then bs else DragAll(DragTo(bs, k, pointer, now, w, h, sqrt), k + 1, pointer, now, w, h, sqrt)
  }

  /** A pointer move changes nothing from ball k on when none of those balls is dragged. */
  lemma {:induction false} DragAllIdle(bs: seq<Ball>, k: nat, pointer: Vec, now: int, w: real, h: real, sqrt: real -> real)
    requires forall m :: k <= m < |bs| ==> !bs[m].isDragging
    ensures DragAll(bs, k, pointer, now, w, h, sqrt) == bs
    decreases |bs| - k
  {
    if k < |bs| {
      DragAllIdle(bs, k + 1, pointer, now, w, h, sqrt);
    }
  }

  /** With exactly one dragged ball d, a pointer move is updateDragPosition for d. */
  lemma {:induction false} DragAllSingle(bs: seq<Ball>, d: nat, k: nat, pointer: Vec, now: int, w: real, h: real, sqrt: real -> real)
    requires k <= d < |bs| && bs[d].isDragging
    requires forall m :: 0 <= m < |bs| && m != d ==> !bs[m].isDragging
    ensures DragAll(bs, k, pointer, now, w, h, sqrt) == DragTo(bs, d, pointer, now, w, h, sqrt)
    decreases |bs| - k
  {
    if k < d {
      DragAllSingle(bs, d, k + 1, pointer, now, w, h, sqrt);
    } else {
      var next := DragTo(bs, d, pointer, now, w, h, sqrt);
      DragAllIdle(next, d + 1, pointer, now, w, h, sqrt);
    }
  }

  /**
   * What a move does to the dragged ball: it stays dragged, keeps its offset,
   * shape and spin, ends inside the container when it fits, and its history
   * ends with the new position, stays within five samples, and is the old
   * history with that sample recorded. The other balls keep their bodies.
   */
  lemma DragMoveEffect(bs: seq<Ball>, d: nat, pointer: Vec, now: int, w: real, h: real, sqrt: real -> real)
    requires d < |bs| && bs[d].isDragging
    ensures var r := DragTo(bs, d, pointer, now, w, h, sqrt);
      var b, n := bs[d], r[d];
      n.isDragging && n.radius == b.radius && n.mass == b.mass &&
      n.dragOffsetX == b.dragOffsetX && n.dragOffsetY == b.dragOffsetY &&
      n.vx == b.vx && n.vy == b.vy && n.rotation == b.rotation && n.vrotation == b.vrotation &&
      n.dragPositions == Record(b.dragPositions, Sample(n.x, n.y, now)) &&
      (|b.dragPositions| <= MaxPositionHistory ==> |n.dragPositions| <= MaxPositionHistory) &&
      (Fits(b, w, h) ==> InBounds(n, w, h))
    ensures var r := DragTo(bs, d, pointer, now, w, h, sqrt);
      forall m :: 0 <= m < |bs| && m != d ==> SameBody(bs[m], r[m])
  {
  }

  /**
   * When the pointer target (plus offset) is inside the container and clear
   * of every other ball, the dragged ball goes exactly there and no other
   * ball is touched: the grab offset is held fixed.
   */
  lemma DragFollowsPointer(bs: seq<Ball>, d: nat, pointer: Vec, now: int, w: real, h: real, sqrt: real -> real)
    requires IsSqrt(sqrt) && AllWellFormed(bs) && d < |bs| && bs[d].isDragging
    requires var t := Vec(pointer.x + bs[d].dragOffsetX, pointer.y + bs[d].dragOffsetY);
      InBounds(bs[d].(x := t.x, y := t.y), w, h) && ClearOf(bs, d, t)
    ensures var r := DragTo(bs, d, pointer, now, w, h, sqrt);
      r[d].x == pointer.x + bs[d].dragOffsetX && r[d].y == pointer.y + bs[d].dragOffsetY &&
      forall m :: 0 <= m < |bs| && m != d ==> r[m] == bs[m]
  {
    var b := bs[d];
    var t := Vec(pointer.x + b.dragOffsetX, pointer.y + b.dragOffsetY);
    ClearDragSweep(bs, d, 0, t, w, h, sqrt);
    var res := ResolveDrag(bs, d, t, w, h, sqrt);
    assert res == (bs, t);
    DragToDragged(bs, d, pointer, now, w, h, sqrt, t, res);
  }
}
