# Multiple-object-tracking motion engine, in Dafny

This project models the motion engine of the multiple-object-tracking (MOT)
stimulus in `neurobooth_os/tasks/MOT_s.py`. A field of disks of radius `r`
moves inside a square arena of side `S` (`paperSize`). The engine has three
parts:

- `setup` places the disks. It draws every centre uniformly in `[r, S - r)`
  and every heading uniformly in `[0, 2 pi)`. Then it re-draws disks
  1, 2, ... until each is more than `5 r` from at least one earlier disk.
- `moveCircles` advances the field by one frame. Each disk, in index order:
  - gets uniform heading noise;
  - aims one step of length `speed`;
  - turns by `+-0.05 pi` while the aimed centre is within `z r` of a
    neighbour, at most 10000 checks per neighbour;
  - bounces off the walls, each axis on its own;
  - stores its new centre and the heading `atan2(vy, vx)` of its final step.
  A disk's new position is written back before the next disk moves.
- `in_circle` tests whether a point lies strictly inside a disk.

## How the model is built

- A disk is a `Circle(x, y, d)` over `real`. A field is a `seq<Circle>`. The
  dictionary's scalars and the global arena side are gathered in `Config`
  (`scene.dfy`).
- `cos`, `sin` and `atan2` are supplied by the caller as a `Trig` value.
  - `polar(t)` returns `(cos t, sin t)`. Its type, `UnitVec`, carries the only
    facts used: both components lie in `[-1, 1]`, and `cos^2 + sin^2 = 1`.
  - Nothing is assumed of `atan2` beyond returning a real.
  - `Pi` is the shortest decimal form of `math.pi`, the double nearest to pi.
    It is not pi itself.
- `sqrt` never appears. Every distance test compares squared distances.
  `Geometry.SqrtComparisons` proves that this agrees with comparing the real
  square root.
- Randomness is one explicit generator, `Rng`, read at a position counter.
  - `unit(k)` is a `random.random()` value in `[0, 1)`.
  - `coin(k)` is a `random.choice([-1, 1])` value.
  - Each draw moves the counter by one. Draws are consumed in program order,
    and every function returns the position after its last draw.
- The uncapped placement loop gets `fuel` attempts per disk. A `None` result
  means the program would still be looping. `Placement.SetupFuel` proves that
  fuel only truncates: any result found with some fuel is the result for
  every larger fuel.
- The frame loop is stated once for any per-disk update (`Tick.Step`), so
  that its ordering facts do not depend on the physics. `Tick.Mover` is the
  update `moveCircles` performs.
- `moveCircles` loops over the global `numCircles`. `Tick.MoveCircles` takes
  it as the parameter `n` and requires `n == |field|`.
- The look-ahead loop only ever changes the heading and re-aims from the old
  centre, so its state is the heading alone. `Motion.Avoid` and
  `Motion.AvoidAll` take the proximity test as a parameter (`Proximity`);
  `Motion.Repels` is the program's test, and `Motion.StepCircle` passes it.
- The nudge `0.05 * math.pi` is written out as a decimal, `Motion.Nudge`, and
  `Motion.NudgeIsTwentiethOfPi` ties it to `Pi`. The wall check and the
  stored heading are one function, `Motion.Commit`. `Geometry.Scale` is the
  product `u * a` of a `random()` value and a width, with its range.

The model follows the code in these details:

- Draws land in `[r, S - r)`, not in the closed interval.
- Heading noise lies in `[-noise, +noise)`.
- A disk bounces when its aimed coordinate is ON a wall (`>=`, `<=`), not
  only past it.
- The placement loop has no retry cap.
- Placement needs only ONE earlier disk farther than `5 r`, not all of them.
  The program's own comment at MOT_s.py:38 says "all other circles".
  `Placement.AcceptanceIsExistential` exhibits a candidate that the code
  accepts although it is 10 pixels from disk 1.

## Model

| member | source | states |
|---|---|---|
| Geometry.SqrtComparisons | neurobooth_os/tasks/MOT_s.py:102-104 | for any non-negative root s of the squared distance, the squared tests decide `s <= lim` and `s < lim` exactly |
| Geometry.Scale | neurobooth_os/tasks/MOT_s.py:32-34 | a `random()` value times a positive width lies in [0, width), and is 0 for a zero width |
| Randomness.CoinSumBounded | neurobooth_os/tasks/MOT_s.py:106 | k draws of `choice([-1, 1])` sum to a value in [-k, k] |
| Scene.DefaultIsRoomy | neurobooth_os/tasks/MOT_s.py:12-24 | the configured values (r 15, z 4, noise 15 degrees, speed 2, side 500) leave room for a full step between the walls, give positive noise and a repulsion distance of 60 |
| Placement.Coordinate | neurobooth_os/tasks/MOT_s.py:32-33 | a coordinate drawn from `random()` lies in [r, S - r) when the arena is wider than one disk |
| Placement.InitialHeading | neurobooth_os/tasks/MOT_s.py:34 | an initial heading lies in [0, 2 pi) |
| Placement.Drawn | neurobooth_os/tasks/MOT_s.py:31-34 | a disk of the first pass has both coordinates in [r, S - r) and its heading in [0, 2 pi) when the arena is wider than one disk |
| Placement.InitialDraws | neurobooth_os/tasks/MOT_s.py:31-34 | the first pass yields n disks, and disk k is built from the three draws at pos + 3k, in order x, y, d |
| Placement.FirstFar | neurobooth_os/tasks/MOT_s.py:46-51 | the scan returns the least j < i farther than 5 r from the candidate; when it returns nothing, no earlier disk is far |
| Placement.ScanDecides | neurobooth_os/tasks/MOT_s.py:46-51 | the scan succeeds if and only if some earlier disk is farther than 5 r (`Accepted`, built on `Far`) |
| Placement.AcceptedOnPrefix | neurobooth_os/tasks/MOT_s.py:46-48 | the acceptance rule for disk i reads only disks 0 .. i-1: two fields that agree there accept the same candidates |
| Placement.FirstAccepted | neurobooth_os/tasks/MOT_s.py:40-51 | the re-draw loop stops at the first accepted candidate (`Attempt` t reads the draws at pos + 2t and pos + 2t + 1), and every earlier candidate was rejected; with no result, every attempt within the fuel was rejected |
| Placement.Reposition | neurobooth_os/tasks/MOT_s.py:37-51 | re-drawing disk i changes only disk i, keeps its heading, lands on the first accepted attempt t after 2 (t + 1) draws, and leaves disk i accepted against the disks before it |
| Placement.RepositionThenRest | neurobooth_os/tasks/MOT_s.py:37-51 | re-drawing disk i and then the disks after it is the second pass read back from disk i on: disk i is its first accepted attempt and the later disks follow without a gap in the draws |
| Placement.PlaceFrom | neurobooth_os/tasks/MOT_s.py:37-51 | the second pass leaves disks before i and every heading unchanged; every disk from i on is the first accepted re-draw of its own attempts, the draws are consumed from pos on without a gap up to the returned position, and each such disk is accepted against the disks before it |
| Placement.Setup | neurobooth_os/tasks/MOT_s.py:29-51 | n disks; disk 0 is the first-pass draw and is never moved; headings are the first-pass draws; every disk k >= 1 is the first accepted re-draw, with the second pass starting at pos + 3n; every such disk has an earlier disk farther than 5 r; every centre lies in [r, S - r) and every heading in [0, 2 pi) |
| Placement.RedrawnUnique | neurobooth_os/tasks/MOT_s.py:37-51 | the read-back description of the second pass pins it down: two fields that both satisfy it from the same position, with the same disks before k and the same headings, are equal and end at the same position |
| Placement.SetupInArena | neurobooth_os/tasks/MOT_s.py:31-43 | placed disks satisfy the arena bounds on both axes |
| Placement.DefaultSetup | neurobooth_os/tasks/MOT_s.py:170 | for the configured values and 10 disks, a placement that is found has 10 disks, all in [r, S - r] on both axes, and every disk after the first accepted against the disks before it |
| Placement.SetupFuel | neurobooth_os/tasks/MOT_s.py:40-51 | more retry fuel does not change a placement that was found |
| Placement.AcceptanceIsExistential | neurobooth_os/tasks/MOT_s.py:38-51 | a candidate close to disk 1 but far from disk 0 is accepted: the rule is existential |
| Motion.NoisyHeading | neurobooth_os/tasks/MOT_s.py:73-82 | the noisy heading lies in [d - noise, d + noise) with noise = noiseDeg pi / 180, and equals d when the noise is zero |
| Motion.Aim | neurobooth_os/tasks/MOT_s.py:85-90 | the aimed move keeps the heading, its velocity is `cos` and `sin` of the heading times `speed`, and its centre is the old centre plus the velocity |
| Motion.AimedFacts | neurobooth_os/tasks/MOT_s.py:85-90 | an aimed step starts at the old centre, has length exactly `speed`, and each component is at most `speed` in size |
| Motion.NudgeIsTwentiethOfPi | neurobooth_os/tasks/MOT_s.py:106 | the nudge constant is 0.05 pi |
| Motion.TurnTwice | neurobooth_os/tasks/MOT_s.py:106 | nudges add up: turning by a nudges and then by b nudges is turning by a + b |
| Motion.TurnBounded | neurobooth_os/tasks/MOT_s.py:106 | at most b nudges of either sign turn a heading by at most b times 0.05 pi |
| Motion.RepelsWhenStill | neurobooth_os/tasks/MOT_s.py:102-104 | a disk with zero speed whose neighbour sits on its centre is within the repulsion distance (`Collides`) at every heading |
| Motion.Avoid | neurobooth_os/tasks/MOT_s.py:98-114 | the loop counter never exceeds 10000 and grows on entry; it draws at most one coin per pass; the heading moves by exactly 0.05 pi times the sum of the coins drawn |
| Motion.AvoidOutcome | neurobooth_os/tasks/MOT_s.py:98-114 | the loop either ran to 10000 passes drawing a coin in every pass, or left at a heading clear of the neighbour after one pass more than it drew coins |
| Motion.AvoidNudgesOnlyCollisions | neurobooth_os/tasks/MOT_s.py:100-114 | the loop stops at the first clear heading: every heading it nudged away from was within the repulsion distance |
| Motion.AvoidTurnBounded | neurobooth_os/tasks/MOT_s.py:104-106 | the loop turns the heading by at most 0.05 pi per coin drawn |
| Motion.StuckRunsToCap | neurobooth_os/tasks/MOT_s.py:99-112 | when every heading is too close to the neighbour, the loop runs to exactly 10000 passes, draws 10000 coins, and then stops |
| Motion.AvoidAll | neurobooth_os/tasks/MOT_s.py:93-114 | the pass over all neighbours draws at most 10000 coins for each neighbour other than disk i, and turns the heading by 0.05 pi times the coin sum |
| Motion.AvoidAllSkipsSelf | neurobooth_os/tasks/MOT_s.py:93-97 | the pass never looks at disk i itself: replacing disk i by any disk gives the same outcome |
| Motion.AvoidAllStuck | neurobooth_os/tasks/MOT_s.py:93-114 | when every heading is too close to every other disk, the pass draws exactly 10000 coins for each neighbour other than disk i: the counter restarts per neighbour and disk i is skipped |
| Motion.StillPassDrawsCapEach | neurobooth_os/tasks/MOT_s.py:93-114 | a disk with zero speed and every other disk on its centre draws exactly 10000 (n - 1) coins in its collision pass |
| Motion.Reflect | neurobooth_os/tasks/MOT_s.py:116-125 | on or past a wall the velocity component is negated and the coordinate becomes old plus the negated component; otherwise both are kept and the coordinate lies strictly between the walls |
| Motion.ReflectKeepsStep | neurobooth_os/tasks/MOT_s.py:117-125 | after the wall check the coordinate moves by exactly the final velocity component, whose magnitude is unchanged |
| Motion.ReflectStaysInside | neurobooth_os/tasks/MOT_s.py:116-125 | from inside [r, S - r], a step of at most `speed` stays inside after the bounce, provided S - 2 r >= 2 speed |
| Motion.Commit | neurobooth_os/tasks/MOT_s.py:116-133 | the stored heading is `atan2` of the committed displacement; a disk inside the arena stays inside when there is room for a step; the committed centre is exactly `speed` from the old one |
| Motion.StepCircle | neurobooth_os/tasks/MOT_s.py:76-133 | the stored heading is `atan2` of the committed displacement; a disk inside the arena stays inside when there is room for a step; the step draws at least one value and at most 1 + 10000 (n - 1); `StepCircleDraws` ties those draws to the collision pass |
| Motion.StepCircleDraws | neurobooth_os/tasks/MOT_s.py:78-133 | the draws come in program order: the noise value at pos, then the collision pass of disk i against the program's repulsion test, run from pos + 1 on the noisy heading; the step ends where that pass ends, and the pass's coin sum turns the noisy heading into the heading of the committed step |
| Motion.StillStepDrawsCapEach | neurobooth_os/tasks/MOT_s.py:82-114 | the draw bound of a step is reached: a disk with zero speed and every other disk on its centre draws exactly 1 + 10000 (n - 1) values |
| Motion.StepLength | neurobooth_os/tasks/MOT_s.py:82-125 | noise, nudges and bounces change only direction: the committed centre is exactly `speed` from the old one |
| Tick.Advance | neurobooth_os/tasks/MOT_s.py:76-133 | the first k iterations of the frame loop keep the number of disks; their ordering is stated by the three lemmas below |
| Tick.AdvanceLeavesRest | neurobooth_os/tasks/MOT_s.py:76-133 | the first k iterations leave disks k and above untouched |
| Tick.AdvanceWritesOnce | neurobooth_os/tasks/MOT_s.py:128-133 | disk j, once written by iteration j, is not changed by later iterations |
| Tick.IterationSees | neurobooth_os/tasks/MOT_s.py:93-102 | iteration i reads this frame's final disks below i and last frame's disks from i on, and writes the step of disk i on that mixed field |
| Tick.MoveCircles | neurobooth_os/tasks/MOT_s.py:76-133 | the frame loop matches the iteration-by-iteration definition; every stored heading is `atan2` of that disk's displacement; the arena bounds are kept when there is room for a step; the frame draws at least one value per disk |
| Tick.FrameStepLength | neurobooth_os/tasks/MOT_s.py:82-125 | every disk ends a frame exactly `speed` away from where it started |
| Tick.MoverKeepsArena | neurobooth_os/tasks/MOT_s.py:116-129 | when S - 2 r >= 2 speed, the per-disk update of `moveCircles` (`Mover`) keeps a disk that starts in [r, S - r] on both axes inside |
| Tick.AdvanceKeepsArena | neurobooth_os/tasks/MOT_s.py:93-133 | with an arena-keeping per-disk update, any prefix of a frame keeps every disk in [r, S - r] on both axes |
| Tick.Run | neurobooth_os/tasks/MOT_s.py:176-178 | any number of frames keeps the number of disks |
| Tick.RunKeepsArena | neurobooth_os/tasks/MOT_s.py:176-178 | with an arena-keeping per-disk update, any number of frames keeps every disk in [r, S - r] on both axes |
| Tick.MotionKeepsArena | neurobooth_os/tasks/MOT_s.py:176-178 | when S - 2 r >= 2 speed, disks that start in the arena stay in [r, S - r] on both axes however many frames of `moveCircles` run |
| HitTest.InCircle | neurobooth_os/tasks/MOT_s.py:154-159 | true only for a positive radius; for a non-negative radius, true exactly when the squared distance is below the squared radius; false on the circumference |
| HitTest.InCircleIsDistanceTest | neurobooth_os/tasks/MOT_s.py:156 | the test is `sqrt(dx^2 + dy^2) < radius` for the true Euclidean distance |
| HitTest.CentreAndRim | neurobooth_os/tasks/MOT_s.py:156-159 | for a positive radius the centre is inside and a point on the rim is not |

## Left out

- Rendering. Creating the `visual.Circle` objects (MOT_s.py:54-57), setting
  `.pos`, `draw()` and `win.flip()` (136-138), and the module-level window and
  clock loop (161-182) are drawing and I/O. `Tick.Run` stands for the frame
  loop, with a frame count in place of the clock.
- `showMovingDots` (142-150) is an unfinished stub that only seeds the
  generator.
- The `print(dist)` side effect (49).
- Floating point, `random.seed` and the bit-level state of the generator.
  Coordinates are reals. `cos`, `sin` and `atan2` are abstract. The generator
  is an abstract stream. Which raw bits `random()` or `choice()` consume is
  not modelled, and neither is the signed zero of `atan2`.
- `setup` appends to lists that the program passes in empty. The model starts
  from empty lists.
- `moveCircles` reads the global `paperSize`, while `setup` takes it as an
  argument. The program passes the same value to both, and the model uses a
  single `Config.paperSize`.
- Placement.Setup: when no placement is found within the given fuel, the
  result is `None`. The program would keep looping instead, and the model
  says nothing about that case beyond the fact that every attempt was
  rejected.
- Motion.AvoidAll: the pass does not promise that the final step clears every
  neighbour (`Motion.AvoidOutcome` says so of each neighbour's own loop only). The program does not promise this either: a later neighbour's
  nudges can undo an earlier neighbour's clearance.
- Tick.MoveCircles: the arena bound is proved only when `S - 2 r >= 2 speed`.
  A narrower arena is outside what a single bounce can guarantee.
- `neurobooth_os/tasks/smooth_pursuit/pursuit_task.py` (eye-tracker session
  control and a floating-point sinusoid) and `server_acq.py` (a TCP command
  server for recording devices) are not part of this model.
