# Ball physics engine, modelled in Dafny

This project models the physics core of `BallPhysics` in `balls.js`: a set of
round "letter" balls inside a container. They fall under gravity, bounce off
the walls, collide with each other, are pushed apart when the container is
resized, are scattered by a scroll kick, and can be dragged and thrown with
the mouse or a finger.

The balls are a `seq<Ball>` of value records (module `Physics`). Each
operation of the source is a pure function on that sequence, and its
properties are proved as lemmas:

- `Integrator`: the per-ball step of `animate`.
- `Collisions`: `checkBallCollisions` and `handleBallCollision`.
- `Resize`: `handleResize` and `separateOverlappingBalls`.
- `Drag`: the pointer position, `startDrag`, `updateDragPosition` and
  `resolveDragCollisions`.
- `Throw`: `calculateThrowVelocity` and the pointer-release handlers.
- `Scatter`: `scatterBalls` and `addRandomBall`.

The class `Engine.BallPhysics` holds the registry and the `running` / `paused`
flags. Its methods update them in place with the source's own loops, and each
method is proved equal to the function that specifies it.

Numbers are Dafny `real`s, so the model is exact rational arithmetic rather
than IEEE doubles. `Math.sqrt` is a parameter `sqrt` of the engine and of the
functions that need it. The only assumption about it is `IsSqrt(sqrt)`:
`sqrt(a)` is the non-negative number whose square is `a`. `Math.PI` is the
decimal value of the double.

Several inputs are parameters of the operations rather than modelled:

- the random draws: the `KickDraw` and `SpawnDraw` records, and the cosine
  and sine of the random angle;
- `Date.now()`;
- the container's width and height;
- the bounding-rectangle offset and the pointer coordinates.

## Model

| member | source | states |
|---|---|---|
| Physics.Clamp | balls.js:190-197 | the result of max(lo, min(hi, v)) is at least lo; it is at most hi when lo <= hi; it is v inside the range and the violated bound outside it |
| Physics.UnitNormal | balls.js:234-236 | the collision normal (dx/d, dy/d) has length 1 when d = sqrt(dx² + dy²) > 0 |
| Integrator.Flight | balls.js:159-169 | gravity, friction and slow-speed damping change only velocities and position: body, rotation and spin are kept |
| Integrator.FlyBall | balls.js:159-169 | the source's statement sequence computes Flight |
| Integrator.BounceWalls | balls.js:171-188 | a wall bounce changes only velocities and spin, never the body or the rotation |
| Integrator.BounceBall | balls.js:171-188 | the source's wall branches compute BounceWalls |
| Integrator.Confine | balls.js:190-197 | the clamp puts a ball that fits the container inside it, and leaves a ball already inside unchanged |
| Integrator.Integrated | balls.js:158-199 | one step keeps the body, leaves a ball that fits the container inside it, and advances the rotation by the new spin |
| Integrator.IntegrateBall | balls.js:158-199 | the per-ball branch of animate computes Integrated |
| Integrator.WallBounce | balls.js:171-188 | each of the four wall cases (side only, floor only, both, neither) sets the velocity and spin exactly as the branches say, and the ceiling or floor reflect vy with bounceDamping |
| Integrator.WallPosition | balls.js:171-197 | a ball past the left, right, top or bottom wall is placed at radius or width/height - radius; otherwise it keeps its flown position |
| Integrator.LeftWallExample | balls.js:158-197 | a ball at x = 5 moving left at -2 in a 500x500 box ends at x = 35 with vx = 1.862, y = 50.392 and vy = 0.392 |
| Integrator.IntegrateAll | balls.js:143-201 | the per-ball pass keeps every body; paused or dragged balls are unchanged; every other ball gets Integrated; every ball that fits and is inside or moves stays inside |
| Collisions.Correct | balls.js:238-245 | the positional correction changes only the two positions |
| Collisions.CorrectionReachesContact | balls.js:234-245 | after the correction the two centres are exactly r1 + r2 apart |
| Collisions.CorrectionKeepsCentreOfMass | balls.js:238-245 | the correction keeps the mass-weighted centre of the pair |
| Collisions.CorrectionByMassShare | balls.js:238-245 | each ball moves by the overlap times the other ball's share of the total mass |
| Collisions.EqualMassExample | balls.js:233-245 | two equal balls of radius 35 whose centres are 50 apart each move 10 outward and end 70 apart |
| Collisions.Nudge | balls.js:253-260 | the slow-approach nudge changes only the two velocities |
| Collisions.SlowApproachNudge | balls.js:253-260 | an approach slower than minSeparation pushes the velocities 0.1 apart along the normal and leaves the spins alone |
| Collisions.SeparatingPairKeepsVelocities | balls.js:247-251 | a pair already moving apart keeps both velocities and spins |
| Collisions.ImpulseMagnitude | balls.js:262-263 | the impulse j satisfies j (1/m1 + 1/m2) = -(1 + bounceDamping) vn |
| Collisions.ApplyImpulse | balls.js:264-280 | applying the impulse changes only velocities and spins |
| Collisions.SpinImpulse | balls.js:272 | the spin impulse is zero exactly when the relative velocity is parallel to the normal, and swapping the two balls reverses its sign |
| Collisions.Bounce | balls.js:262-280 | the full impulse response changes only velocities and spins |
| Collisions.BounceMomentum | balls.js:262-280 | the impulse response keeps linear momentum, scaled by the 0.98 bleed |
| Collisions.BounceRestitutes | balls.js:262-280 | the relative normal speed after the response is -bounceDamping * 0.98 times the speed before |
| Collisions.ImpulseConservesMomentum | balls.js:262-280 | a fast approach in handleBallCollision keeps momentum up to the 0.98 bleed |
| Collisions.ImpulseRestitution | balls.js:262-280 | a fast approach in handleBallCollision reverses the normal relative speed with restitution bounceDamping * 0.98 |
| Collisions.ImpulsePairRelative | balls.js:264-280 | the relative velocity changes by j n (1/m1 + 1/m2) and is then scaled by 0.98 |
| Collisions.CollideBounces | balls.js:233-283 | a fast approach is the correction followed by the impulse response, and the correction leaves the velocities the response reads unchanged |
| Collisions.Collide | balls.js:233-283 | handleBallCollision keeps both bodies and rotations |
| Collisions.CollidePositions | balls.js:238-245 | the positions after handleBallCollision are the positions after the correction |
| Collisions.ResolvePair | balls.js:216-229 | the pair test keeps bodies and well-formedness, touches only balls i and j, and skips a pair with a dragged ball |
| Collisions.ApartPairUntouched | balls.js:219-228 | a pair at least r1 + r2 apart is left unchanged |
| Collisions.OverlappingPairReachesContact | balls.js:216-229 | two free overlapping balls end exactly r1 + r2 apart |
| Collisions.Sweep | balls.js:214-231 | the pair loops keep the length and well-formedness |
| Collisions.SweepKeepsBodies | balls.js:214-231 | the pair loops keep every body and leave dragged balls unchanged |
| Collisions.CollideAll | balls.js:214-231 | checkBallCollisions keeps every body and leaves dragged balls unchanged |
| Collisions.QuietSweep | balls.js:214-231 | with no free overlapping pair the loops change nothing |
| Collisions.QuietRegistry | balls.js:214-231 | checkBallCollisions on a registry without free overlaps is the identity |
| Resize.Refit | balls.js:316-333 | a refitted ball has zero velocity and the same body and spin; it is inside if it fits; it keeps an inside position; it is pinned at width/height - r when the box is too small |
| Resize.RefitAll | balls.js:315-334 | every ball of the registry is refitted and the bodies are kept |
| Resize.Resized | balls.js:311-337 | the separation that follows the refit only moves balls: each ball of the result is its refitted ball at another position |
| Resize.ResizeStopsAndContains | balls.js:311-337 | after handleResize every ball has zero velocity, keeps its body and spin, and every ball that fits the new box lies inside it |
| Resize.Shift | balls.js:358-366 | the half-and-half push keeps bodies, velocities and the midpoint of the pair |
| Resize.ShiftReachesContact | balls.js:358-366 | the push puts the two centres exactly r1 + r2 apart |
| Resize.SepPair | balls.js:347-387 | the pair block reports an overlap exactly when the two centres are distinct and closer than r1 + r2, and changes nothing otherwise (two balls with identical centres are left where they are) |
| Resize.SepPairEffect | balls.js:347-387 | the pair block only moves balls i and j and keeps every inside ball inside; a moved ball that fits ends inside |
| Resize.ApartPairNotSeparated | balls.js:350-355 | a pair at least r1 + r2 apart reports no overlap and is unchanged |
| Resize.OverlapResolvedUnlessClamped | balls.js:355-387 | if the pushed positions are inside the box, the pair ends exactly r1 + r2 apart |
| Resize.UnclampedPair | balls.js:371-386 | if the pushed positions are inside the box, the clamps leave them as they are |
| Resize.SepRow | balls.js:346-388 | the inner loop keeps the length and the hasOverlap flag once it is set, and a row with no overlap is unchanged |
| Resize.SepPass | balls.js:345-389 | one pass keeps the length and the hasOverlap flag, and a pass with no overlap is unchanged |
| Resize.SepRowKeeps | balls.js:346-388 | the inner loop only moves balls and keeps inside balls inside |
| Resize.SepPassKeeps | balls.js:345-389 | one pass only moves balls and keeps inside balls inside |
| Resize.PassKeepsContained | balls.js:345-389 | a pass from the start only moves balls and keeps a contained registry contained |
| Resize.Separate | balls.js:339-393 | separateOverlappingBalls keeps the number of balls |
| Resize.SeparateKeeps | balls.js:339-393 | the whole iteration, with at most 10 passes, only moves balls and keeps a contained registry contained |
| Resize.QuietRow | balls.js:346-388 | a row of a registry without overlaps (every pair of centres at least r1 + r2 apart, so in particular distinct) reports nothing and changes nothing |
| Resize.QuietPass | balls.js:345-389 | a pass over a registry without overlaps (every pair of centres at least r1 + r2 apart) reports nothing and changes nothing |
| Resize.SeparationQuiet | balls.js:339-393 | separateOverlappingBalls leaves a registry without overlaps (every pair of centres at least r1 + r2 apart) unchanged |
| Resize.CleanRow | balls.js:346-388 | a row that reports no overlap had no ball after j whose centre is distinct from ball i's and closer than r1 + r2 |
| Resize.CleanPassMeansSeparated | balls.js:342-392 | the early break happens only when no two balls with distinct centres are closer than r1 + r2 (balls with identical centres may remain) |
| Drag.MousePos | balls.js:498-504 | the pointer position plus the container offset is the client position |
| Drag.Record | balls.js:539-547 | the new sample is last; a history within 5 stays within 5; a short history is extended and a full one drops its oldest sample |
| Drag.RecordIsWindow | balls.js:539-547 | one push-and-shift keeps exactly the last 5 samples of history + [s] |
| Drag.HistoryKeepsNewest | balls.js:539-547 | any sequence of pushes keeps exactly the last 5 samples of everything recorded |
| Drag.Grab | balls.js:506-519 | startDrag marks the ball dragged at the given time, with the offset such that the pointer plus the offset is the centre, and with a one-sample history at the current position; nothing else changes |
| Drag.Deflect | balls.js:562-577 | pushing the drag target off a ball keeps that ball's body, rotation and spin |
| Drag.DeflectGeometry | balls.js:562-577 | the target ends exactly minDistance from the other ball, and the other ball's velocity changes by a vector of length 0.5 (pushStrength) |
| Drag.DeflectDirections | balls.js:562-577 | along the offset (dx, dy) from the other ball to the target, with step s along it written s/d * (dx, dy): the target moves out by the overlap; the other ball's velocity gains 0.5, towards the dragged ball; the other ball moves back by 0.3 of the overlap, away from it; nothing else changes |
| Drag.DragStep | balls.js:555-589 | one loop body keeps bodies, rotations and spins, changes only ball k, leaves the dragged ball and any other dragged ball unchanged, and keeps a contained registry contained |
| Drag.DragPushReachesContact | balls.js:562-577 | an overlapping ball puts the target exactly r_d + r_k from it, and a free one gets a push of length 0.5 |
| Drag.DragPushDirections | balls.js:562-588 | a free overlapping ball k gets 0.5 of velocity along the centre line towards the dragged ball, is moved back 0.3 of the overlap away from it, and is then clamped into the container |
| Drag.DragSweep | balls.js:554-590 | the loop keeps the number of balls |
| Drag.DragSweepKeeps | balls.js:554-590 | the loop keeps bodies, rotations and spins, leaves the dragged ball and all dragged balls unchanged, and keeps a contained registry contained |
| Drag.ClearDragSweep | balls.js:554-590 | when no ball is within reach of the target, the loop changes nothing |
| Drag.ResolveDrag | balls.js:550-604 | resolveDragCollisions keeps bodies and dragged balls, keeps a contained registry contained, and returns a position that keeps a fitting dragged ball inside |
| Drag.DragTo | balls.js:521-548 | updateDragPosition is a no-op for a ball that is not dragged; it keeps the number of balls, dragged flags, radii and masses, and other dragged balls |
| Drag.DragMoveEffect | balls.js:521-548 | the dragged ball keeps its velocity, spin, offsets and body; it records its new position as the newest sample; its history stays within 5; a fitting ball stays inside; other balls keep their bodies |
| Drag.DragFollowsPointer | balls.js:521-548 | with nothing in the way and the target inside, the ball's centre is pointer + offset and no other ball changes |
| Drag.DragAll | balls.js:637-644 | a pointer move keeps the number of balls, the dragged flags and well-formedness |
| Drag.DragAllIdle | balls.js:637-644 | a move with no dragged ball changes nothing |
| Drag.DragAllSingle | balls.js:637-644 | a move with one dragged ball is updateDragPosition on that ball |
| Throw.Recent | balls.js:611-613 | the last three samples, or all of them when there are fewer |
| Throw.ThrowVelocity | balls.js:606-609 | fewer than two samples give a zero velocity |
| Throw.ThrowZeroCases | balls.js:607-619 | fewer than two samples or a non-positive time span give a zero velocity |
| Throw.ThrowCapped | balls.js:611-632 | the throw never exceeds maxThrowVelocity; a faster raw velocity is scaled down to exactly that length in the same direction, and a slower one is kept |
| Throw.RawVelocity | balls.js:621-625 | each component of the raw estimate has the sign of the pointer's displacement and is zero exactly when the pointer did not move that way; the rate times the elapsed seconds is 0.3 times the displacement |
| Throw.Capped | balls.js:627-632 | an estimate of speed at most 15 is kept as it is; a faster one keeps its direction (parallel to the raw estimate, each component of the same sign) |
| Throw.CapLaw | balls.js:627-632 | the cap has the same law for any raw velocity |
| Throw.ThrowBounded | balls.js:606-635 | every throw velocity has length at most 15 |
| Throw.ThrowExample | balls.js:606-635 | moving 10 px in 100 ms throws at (15, 0) |
| Throw.Release | balls.js:647-656 | release clears the drag flag; a dragged ball gets a new velocity and an empty history; other balls are unchanged |
| Throw.ReleaseAll | balls.js:646-658 | every ball of the registry is released |
| Throw.ReleaseEffect | balls.js:646-658 | after mouse-up no ball is dragged; a released ball's velocity is its throw velocity, within 15, and its history is empty; other balls are unchanged |
| Scatter.Min | balls.js:482 | Math.min is a lower bound equal to one of its arguments |
| Scatter.KickForce | balls.js:482-486 | past a scroll delta of 80/3 the force no longer grows with the scroll; for a draw in [0, 1) and a non-negative delta it lies between half and all of min(0.3 scrollDelta, 8) |
| Scatter.KickForceRange | balls.js:482 | for a non-negative scroll delta the kick force lies between 0 and 8; the cap only bounds it from above |
| Scatter.Kick | balls.js:479-494 | a kick changes only the velocity and spin, and skips a dragged ball |
| Scatter.KickBounded | balls.js:480-494 | for a non-negative scroll delta a kick adds a velocity of length at most 8 and a spin change in [-1, 1) |
| Scatter.ScatterAll | balls.js:477-496 | scatterBalls kicks every ball with its own draw and keeps the bodies |
| Scatter.Spawn | balls.js:412-430 | a new ball is well formed, not dragged, has no history, has radius 35, starts at y = 45 and has no rotation |
| Scatter.SpawnInside | balls.js:412-430 | a new ball starts inside the width, with vx in [-5, 5), vy in [0, 3) and spin in [-2.5, 2.5) |
| Scatter.AddBall | balls.js:395-449 | addRandomBall keeps the existing balls in front and unchanged, appends exactly one spawned ball below 40 balls and nothing from 40 on |
| Scatter.SpawnCap | balls.js:395-396 | repeated additions keep the existing balls in front and never grow the registry beyond 40 |
| Engine.Frame | balls.js:143-212 | one animation frame keeps bodies and well-formedness and leaves dragged balls unchanged |
| Engine.PausedFrameStill | balls.js:148-155 | a paused frame over a registry without free overlaps changes nothing |
| Engine.CollisionMayLeaveContainer | balls.js:233-245 | two balls inside a 200x200 box can be pushed out of it by the collision correction, because collisions do not clamp |
| Engine.BallPhysics.constructor | balls.js:2-16 | the field set-up of the source's constructor: the given balls, not running and paused; the source's constructor then calls init, which starts the animation (StartAnimation) |
| Engine.BallPhysics.StartAnimation | balls.js:137-141 | a second start changes nothing; a first start sets running and runs one frame |
| Engine.BallPhysics.Stop | balls.js:467-469 | stop clears running and keeps the balls and the paused flag |
| Engine.BallPhysics.Unpause | balls.js:471-475 | unpause clears paused, and starts the animation if it was stopped |
| Engine.BallPhysics.Tick | balls.js:143-212 | a frame of a running engine is Frame, and a stopped engine does nothing |
| Engine.BallPhysics.CheckBallCollisions | balls.js:214-231 | the nested loops compute CollideAll |
| Engine.BallPhysics.CollideRow | balls.js:215-230 | the inner loop advances the pair sweep by one row |
| Engine.BallPhysics.CollidePair | balls.js:216-229 | the loop body computes ResolvePair |
| Engine.BallPhysics.HandleBallCollision | balls.js:233-283 | balls i and j are replaced by Collide of the two and nothing else changes |
| Engine.BallPhysics.PositionalCorrection | balls.js:238-245 | the statements compute Correct |
| Engine.BallPhysics.ImpulseResponse | balls.js:262-280 | the statements compute Bounce |
| Engine.BallPhysics.Impulses | balls.js:262-274 | the impulse and angular impulse are ImpulseMagnitude and the spin transfer |
| Engine.BallPhysics.HandleResize | balls.js:311-337 | the registry becomes Resized: refitted, then separated |
| Engine.BallPhysics.RefitBalls | balls.js:315-334 | the per-ball loop computes RefitAll |
| Engine.BallPhysics.RefitBall | balls.js:316-333 | the per-ball statements compute Refit |
| Engine.BallPhysics.SeparateOverlappingBalls | balls.js:339-393 | the bounded iteration computes Separate |
| Engine.BallPhysics.SeparationPass | balls.js:345-389 | one pass of the nested loops computes SepPass and its overlap flag |
| Engine.BallPhysics.SeparateRow | balls.js:346-388 | the inner loop computes SepRow |
| Engine.BallPhysics.SeparateNext | balls.js:347-387 | one inner iteration advances SepRow by one pair |
| Engine.BallPhysics.SeparatePair | balls.js:347-387 | the pair block computes SepPair and its overlap flag |
| Engine.BallPhysics.ScatterBalls | balls.js:477-496 | the loop computes ScatterAll |
| Engine.BallPhysics.AddRandomBall | balls.js:395-449 | the registry becomes AddBall: unchanged at 40 balls, otherwise one spawned ball appended |
| Engine.BallPhysics.StartDrag | balls.js:506-519 | ball k becomes Grab at the pointer position, and nothing else changes |
| Engine.BallPhysics.ResolveDragCollisions | balls.js:550-604 | the loop and the final clamp compute ResolveDrag |
| Engine.BallPhysics.PushAll | balls.js:554-590 | the loop computes DragSweep |
| Engine.BallPhysics.PushAside | balls.js:555-589 | the loop body computes DragStep |
| Engine.BallPhysics.UpdateDragPosition | balls.js:521-548 | the registry becomes DragTo |
| Engine.BallPhysics.HandleMouseMove | balls.js:637-644 | every dragged ball follows the pointer (DragAll) |
| Engine.BallPhysics.HandleTouchMove | balls.js:660-670 | a single touch acts as a mouse move; any other touch count changes nothing |
| Engine.BallPhysics.HandleMouseUp | balls.js:646-658 | every dragged ball is released and thrown (ReleaseAll) |
| Engine.BallPhysics.HandleTouchEnd | balls.js:672-684 | the end of a touch releases like mouse-up |

## Left out

- Floating point: all arithmetic is exact `real`. Rounding, NaN and infinity are not modelled.
- `Math.sqrt`, `Math.cos`, `Math.sin` and `Math.random`:
  - the square root is a parameter characterised by `IsSqrt`;
  - the cosine and sine of the random scatter angle are part of the draw;
  - every random number is a draw supplied by the caller.
- `Date.now()` is a parameter `now`. A pointer move (`Drag.DragAll`, `Engine.BallPhysics.HandleMouseMove`, `Engine.BallPhysics.HandleTouchMove`) uses one reading for every dragged ball, where the source reads the clock again in each `updateDragPosition` call.
- The DOM, CSS, gsap animations, SVG loading, colours and element styles are not modelled. This covers the rendering at the end of each frame and `createCollisionEffect`, which is empty.
- `requestAnimationFrame` scheduling is not modelled. `Tick` is one frame, and the model does not capture the repeated calls.
- `setupBalls` (balls.js:66-135) is not modelled: it reads the ball elements from the page. The constructor's `initial` registry stands for what it builds (balls evenly spaced along the top, at rest, with mass pi r^2 * 0.1), but that layout is not stated.
- `init` (balls.js:61-64) runs `setupBalls` and then `startAnimation`; only `startAnimation` is modelled.
- `resetSoft` and `resetHard` (balls.js:286-308) are not modelled: they stop the loop, empty the registry, then rebuild the page's elements after a timer.
- The scroll delta passed to `scatterBalls` comes from code outside balls.js and is a parameter here.
- `Resize.SepPair`: two balls with identical centres are never separated, because the pair block only acts on a positive distance (balls.js:355).
- The container's bounding rectangle is passed in as width, height and offset.
- `Collisions.Collide`: two balls with identical centres (distance 0) are skipped. The source's division by zero would yield NaN positions.
- Behaviours of the code a reader may not expect, all modelled as written:
  - collisions do not clamp the balls into the container (`Engine.CollisionMayLeaveContainer`);
  - a paused frame still runs the collision pass;
  - `handleResize` also zeroes the velocity of a dragged ball;
  - friction is applied before the wall bounce, so a ball hitting the left wall at vx = -2 leaves at 1.862 rather than 2 * 0.95 = 1.9;
  - when the dragged ball runs into a free ball, that ball's velocity is pushed towards the dragged ball while its position is nudged away from it (`Drag.DragPushDirections`).
- `Throw.ThrowBounded` and `Throw.ThrowCapped` state the cap as a length bound (`WithinLength`) on exact reals. The double rounding of the source can exceed 15 by an ulp.
