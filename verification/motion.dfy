/** One animation frame of `moveCircles` (MOT_s.py lines 61-139), without
    the drawing.

    Disks are advanced one at a time in index order and each new position is
    written back before the next disk moves, so disk i avoids the positions of
    disks j < i from this frame and of disks j > i from the previous frame.
    For disk i the frame
      1. perturbs its heading by uniform noise,
      2. aims one step of length `speed` from the old centre,
      3. for each other disk j, while the aimed centre is within the
         repulsion distance of j, turns the heading by +-0.05 pi and re-aims
         from the old centre, at most 10000 checks per neighbour,
      4. reflects each axis whose aimed coordinate is on or past a wall,
      5. stores the centre and the heading `atan2(vy, vx)` of the final step. */
module Motion {
  import opened Geometry
  import opened Randomness
  import opened Scene

  /** Iteration cap of the look-ahead loop per neighbour. */
  const Cap: nat := 10000

  /** Heading change of one collision nudge, 0.05 pi written out
      (`NudgeIsTwentiethOfPi`). */
  const Nudge: real := 0.15707963267948965

  lemma NudgeIsTwentiethOfPi()
    ensures Nudge == 0.05 * Pi
  {
  }

  /** Heading d turned by k nudges (k negative turns the other way). */
  function Turn(d: real, k: int): real { d + Nudge * (k as real) }

  lemma TurnTwice(d: real, a: int, b: int)
    ensures Turn(Turn(d, a), b) == Turn(d, a + b)
  {
  }

  /** Heading perturbed by the noise draw u: uniform in [d - noise, d + noise). */
  function NoisyHeading(cfg: Config, d: real, u: Unit): (nd: real)
    ensures Noise(cfg) > 0.0 ==> d - Noise(cfg) <= nd < d + Noise(cfg)
    ensures Noise(cfg) == 0.0 ==> nd == d
  {
    d + Scale(u, 2.0 * Noise(cfg)) - Noise(cfg)
  }

  /** A heading together with the step it produces from a fixed old centre. */
  datatype Move = Move(d: real, vx: real, vy: real, x: real, y: real)

  /** `m` is the step of length `speed` along heading m.d taken from (ox, oy). */
  predicate Aimed(trig: Trig, speed: real, ox: real, oy: real, m: Move) {
    && m.vx == Cos(trig, m.d) * speed
    && m.vy == Sin(trig, m.d) * speed
    && m.x == ox + m.vx
    && m.y == oy + m.vy
  }

  function Aim(trig: Trig, speed: real, ox: real, oy: real, d: real): (m: Move)
    ensures m.d == d && Aimed(trig, speed, ox, oy, m)
  {
    var vx := Cos(trig, d) * speed;
    var vy := Sin(trig, d) * speed;
    Move(d, vx, vy, ox + vx, oy + vy)
  }

  /** An aimed move is one step of length `speed` from the old centre. */
  lemma AimedFacts(trig: Trig, speed: real, ox: real, oy: real, m: Move)
    requires Aimed(trig, speed, ox, oy, m)
    ensures m.x == ox + m.vx && m.y == oy + m.vy
    ensures Sq(m.vx) + Sq(m.vy) == Sq(speed)
    ensures speed >= 0.0 ==> -speed <= m.vx <= speed && -speed <= m.vy <= speed
  {
    ScaledUnit(trig, m.d, speed);
  }

  /** The aimed centre is within the repulsion distance of `other`: the test
      of MOT_s.py lines 102-104. */
  predicate Collides(cfg: Config, m: Move, other: Circle) {
    DistAtMost(Dist2(m.x, m.y, other.x, other.y), Repulsion(cfg))
  }

  /** A proximity test: the step aimed at a heading ends too close to a
      neighbour. The look-ahead loop only ever changes the heading and
      re-aims from the old centre, so its state is the heading alone, and it
      is stated for any such test; `Repels` is the program's. */
  type Proximity = (real, Circle) -> bool

  /** The test of MOT_s.py lines 102-104 for a disk whose old centre is
      (ox, oy): the step along heading d ends within z r of the neighbour. */
  function Repels(cfg: Config, trig: Trig, ox: real, oy: real): Proximity {
    (d: real, other: Circle) => Collides(cfg, Aim(trig, cfg.speed, ox, oy, d), other)
  }

  /** A motionless disk is within the repulsion distance of a neighbour on its
      own centre, whatever its heading. */
  lemma RepelsWhenStill(cfg: Config, trig: Trig, ox: real, oy: real, other: Circle, d: real)
    requires cfg.speed == 0.0 && Repulsion(cfg) >= 0.0 && other.x == ox && other.y == oy
    ensures Repels(cfg, trig, ox, oy)(d, other)
  {
    var m := Aim(trig, cfg.speed, ox, oy, d);
    assert m.x == ox && m.y == oy;
    assert Dist2(m.x, m.y, other.x, other.y) == 0.0;
  }

  /** Outcome of the look-ahead loop: the final heading, the loop counter on
      exit, and the generator position after the last coin. */
  datatype Resolution = Resolution(heading: real, timeout: nat, next: nat)

  /** The look-ahead loop against one neighbour, entered with heading d and
      counter `timeout`. Each pass increments the counter; a heading `near`
      the neighbour is nudged by a coin-chosen +-Nudge, any other leaves the
      loop. The loop also ends when the counter reaches Cap, possibly right
      after a nudge that is never checked. It draws at most one coin per
      pass; `AvoidOutcome` says exactly how many. */
  function Avoid(rng: Rng, near: Proximity, other: Circle, d: real, timeout: nat, pos: nat): (res: Resolution)
    requires timeout <= Cap
    ensures timeout <= res.timeout <= Cap && pos <= res.next
    ensures res.next - pos <= res.timeout - timeout
    ensures res.heading == Turn(d, CoinSum(rng, pos, res.next))
    decreases Cap - timeout
  {
    if timeout < Cap then
      if near(d, other) then
        var r := Avoid(rng, near, other, Turn(d, rng.coin(pos)), timeout + 1, pos + 1);
        TurnTwice(d, rng.coin(pos), CoinSum(rng, pos + 1, r.next));
        r
      else
        Resolution(d, timeout + 1, pos)
    else
      Resolution(d, timeout, pos)
  }

  /** The two ways out of the loop: either it ran to the cap, drawing a coin
      in every pass, or it left at a clear heading after one pass more than
      it drew coins. */
  lemma {:induction false} AvoidOutcome(rng: Rng, near: Proximity, other: Circle, d: real,
                                        timeout: nat, pos: nat)
    requires timeout <= Cap
    ensures var res := Avoid(rng, near, other, d, timeout, pos);
      || (res.timeout == Cap && res.next - pos == Cap - timeout)
      || (!near(res.heading, other) && res.timeout - timeout == res.next - pos + 1)
    decreases Cap - timeout
  {
    if timeout < Cap && near(d, other) {
      AvoidOutcome(rng, near, other, Turn(d, rng.coin(pos)), timeout + 1, pos + 1);
    }
  }

  /** The loop stops at the first clear heading: every heading it nudged
      away from, the entry heading turned by the coins drawn so far, was
      near the neighbour. */
  lemma {:induction false} AvoidNudgesOnlyCollisions(rng: Rng, near: Proximity, other: Circle, d: real,
                                                     timeout: nat, pos: nat)
    requires timeout <= Cap
    ensures var res := Avoid(rng, near, other, d, timeout, pos);
      forall q :: pos <= q < res.next ==> near(Turn(d, CoinSum(rng, pos, q)), other)
    decreases Cap - timeout
  {
    if timeout < Cap && near(d, other) {
      var d1 := Turn(d, rng.coin(pos));
      AvoidNudgesOnlyCollisions(rng, near, other, d1, timeout + 1, pos + 1);
      var res := Avoid(rng, near, other, d, timeout, pos);
      forall q | pos <= q < res.next
        ensures near(Turn(d, CoinSum(rng, pos, q)), other)
      {
        if q > pos {
          TurnTwice(d, rng.coin(pos), CoinSum(rng, pos + 1, q));
        }
      }
    }
  }

  /** Each nudge turns the heading by 0.05 pi, so the loop turns it by at
      most 0.05 pi per coin drawn. */
  lemma AvoidTurnBounded(rng: Rng, near: Proximity, other: Circle, d: real, timeout: nat, pos: nat)
    requires timeout <= Cap
    ensures var res := Avoid(rng, near, other, d, timeout, pos);
      var k := (res.next - pos) as real;
      d - Nudge * k <= res.heading <= d + Nudge * k
  {
    var res := Avoid(rng, near, other, d, timeout, pos);
    CoinSumBounded(rng, pos, res.next);
    TurnBounded(d, CoinSum(rng, pos, res.next), res.next - pos);
  }

  /** k nudges of either sign, at most b of them, stay within b nudges. */
  lemma TurnBounded(d: real, k: int, b: nat)
    requires -(b as int) <= k <= b
    ensures d - Nudge * (b as real) <= Turn(d, k) <= d + Nudge * (b as real)
  {
  }

  /** Every heading is near `other`. */
  ghost predicate AlwaysNear(near: Proximity, other: Circle) {
    forall e: real :: near(e, other)
  }

  /** Every heading is near every disk of `field` but disk i. */
  ghost predicate StuckField(near: Proximity, field: seq<Circle>, i: nat) {
    forall k :: 0 <= k < |field| && k != i ==> AlwaysNear(near, field[k])
  }

  /** Deadlock: when every heading is near the neighbour (a disk that does
      not move and sits on its neighbour, `RepelsWhenStill`), the loop runs
      until the cap and draws one coin per iteration; it still terminates. */
  lemma {:induction false} StuckRunsToCap(rng: Rng, near: Proximity, other: Circle, d: real,
                                          timeout: nat, pos: nat)
    requires timeout <= Cap
    requires AlwaysNear(near, other)
    ensures var res := Avoid(rng, near, other, d, timeout, pos);
      res.timeout == Cap && res.next == pos + (Cap - timeout) && near(res.heading, other)
    decreases Cap - timeout
  {
    if timeout < Cap {
      StuckRunsToCap(rng, near, other, Turn(d, rng.coin(pos)), timeout + 1, pos + 1);
    }
  }

  /** Result of resolving disk i against all its neighbours. */
  datatype Avoided = Avoided(heading: real, next: nat)

  /** The number of neighbours among j, j+1, ..., n-1 when disk i is skipped. */
  function Others(n: nat, i: nat, j: nat): nat
    requires j <= n
  {
    if j <= i < n then n - j - 1 else n - j
  }

  /** The collision pass over neighbours j, j+1, ..., |field|-1, skipping i and
      restarting the loop counter at 0 for every neighbour, so that each
      neighbour other than i costs at most Cap coins. */
  function AvoidAll(rng: Rng, near: Proximity, field: seq<Circle>, i: nat, d: real, j: nat, pos: nat)
    : (res: Avoided)
    requires j <= |field|
    ensures pos <= res.next <= pos + Cap * Others(|field|, i, j)
    ensures res.heading == Turn(d, CoinSum(rng, pos, res.next))
    decreases |field| - j
  {
    if j == |field| then
      Avoided(d, pos)
    else if j == i then
      AvoidAll(rng, near, field, i, d, j + 1, pos)
    else
      var r := Avoid(rng, near, field[j], d, 0, pos);
      var rest := AvoidAll(rng, near, field, i, r.heading, j + 1, r.next);
      CoinSumSplit(rng, pos, r.next, rest.next);
      TurnTwice(d, CoinSum(rng, pos, r.next), CoinSum(rng, r.next, rest.next));
      rest
  }

  /** One neighbour of the pass: the loop against disk j, then the rest. */
  lemma AvoidAllAt(rng: Rng, near: Proximity, field: seq<Circle>, i: nat, d: real, j: nat, pos: nat)
    requires j < |field| && j != i
    ensures var r := Avoid(rng, near, field[j], d, 0, pos);
      AvoidAll(rng, near, field, i, d, j, pos) == AvoidAll(rng, near, field, i, r.heading, j + 1, r.next)
  {
  }

  lemma CapOneMore(o: nat)
    ensures Cap * (o + 1) == Cap * o + Cap
  {
  }

  /** The pass never looks at disk i itself: whatever disk i holds, the
      outcome is the same. */
  lemma {:induction false} AvoidAllSkipsSelf(rng: Rng, near: Proximity, field: seq<Circle>, i: nat, d: real,
                                             j: nat, pos: nat, c: Circle)
    requires j <= |field| && i < |field|
    ensures AvoidAll(rng, near, field[i := c], i, d, j, pos) == AvoidAll(rng, near, field, i, d, j, pos)
    decreases |field| - j
  {
    if j < |field| {
      var h, q := PassStepAlike(rng, near, field, i, d, j, pos, c);
      AvoidAllSkipsSelf(rng, near, field, i, h, j + 1, q, c);
    }
  }

  /** One step of the pass at j, taken alike whatever disk i holds: nothing
      for disk i itself, the same loop for any other neighbour. */
  lemma PassStepAlike(rng: Rng, near: Proximity, field: seq<Circle>, i: nat, d: real, j: nat, pos: nat,
                      c: Circle)
    returns (h: real, q: nat)
    requires j < |field| && i < |field|
    ensures AvoidAll(rng, near, field, i, d, j, pos) == AvoidAll(rng, near, field, i, h, j + 1, q)
    ensures AvoidAll(rng, near, field[i := c], i, d, j, pos) == AvoidAll(rng, near, field[i := c], i, h, j + 1, q)
  {
    var moved := field[i := c];
    if j == i {
      SkipSelfStep(rng, near, field, i, d, j, pos);
      SkipSelfStep(rng, near, moved, i, d, j, pos);
      h, q := d, pos;
    } else {
      assert moved[j] == field[j];
      AvoidAllAt(rng, near, field, i, d, j, pos);
      AvoidAllAt(rng, near, moved, i, d, j, pos);
      var r := Avoid(rng, near, field[j], d, 0, pos);
      h, q := r.heading, r.next;
    }
  }

  /** Deadlock over a whole pass: when every heading is near every disk but
      i, the loop runs to the cap once per neighbour, so the counter restarts
      for each neighbour and disk i is never checked against itself. */
  lemma {:induction false} AvoidAllStuck(rng: Rng, near: Proximity, field: seq<Circle>, i: nat, d: real,
                                         j: nat, pos: nat)
    requires j <= |field|
    requires StuckField(near, field, i)
    ensures AvoidAll(rng, near, field, i, d, j, pos).next == pos + Cap * Others(|field|, i, j)
    decreases |field| - j, 1
  {
    if j < |field| {
      StuckFrom(rng, near, field, i, d, j, pos);
    } else {
      PassEnd(rng, near, field, i, d, j, pos);
    }
  }

  /** The inductive step of `AvoidAllStuck`: neighbour j, then the rest. */
  lemma {:induction false} StuckFrom(rng: Rng, near: Proximity, field: seq<Circle>, i: nat, d: real,
                                     j: nat, pos: nat)
    requires j < |field|
    requires StuckField(near, field, i)
    ensures AvoidAll(rng, near, field, i, d, j, pos).next == pos + Cap * Others(|field|, i, j)
    decreases |field| - j, 0
  {
    var h, q := StuckStep(rng, near, field, i, d, j, pos);
    AvoidAllStuck(rng, near, field, i, h, j + 1, q);
    StuckCombine(rng, near, field, i, d, j, pos, h, q);
  }

  /** At the end of the field the pass draws nothing. */
  lemma PassEnd(rng: Rng, near: Proximity, field: seq<Circle>, i: nat, d: real, j: nat, pos: nat)
    requires j == |field|
    ensures AvoidAll(rng, near, field, i, d, j, pos).next == pos + Cap * Others(|field|, i, j)
  {
  }

  /** The count at j from the step at j and the count from j + 1. */
  lemma StuckCombine(rng: Rng, near: Proximity, field: seq<Circle>, i: nat, d: real, j: nat, pos: nat,
                     h: real, q: nat)
    requires j < |field|
    requires AvoidAll(rng, near, field, i, d, j, pos) == AvoidAll(rng, near, field, i, h, j + 1, q)
    requires q + Cap * Others(|field|, i, j + 1) == pos + Cap * Others(|field|, i, j)
    requires AvoidAll(rng, near, field, i, h, j + 1, q).next == q + Cap * Others(|field|, i, j + 1)
    ensures AvoidAll(rng, near, field, i, d, j, pos).next == pos + Cap * Others(|field|, i, j)
  {
  }

  /** One step of a stuck pass: disk i itself costs no draw, any other
      neighbour exactly Cap, and the pass goes on from there. */
  lemma StuckStep(rng: Rng, near: Proximity, field: seq<Circle>, i: nat, d: real, j: nat, pos: nat)
    returns (h: real, q: nat)
    requires j < |field| && StuckField(near, field, i)
    ensures AvoidAll(rng, near, field, i, d, j, pos) == AvoidAll(rng, near, field, i, h, j + 1, q)
    ensures q + Cap * Others(|field|, i, j + 1) == pos + Cap * Others(|field|, i, j)
  {
    if j == i {
      SkipSelfStep(rng, near, field, i, d, j, pos);
      h, q := d, pos;
    } else {
      h, q := StuckNeighbour(rng, near, field, i, d, j, pos);
    }
  }

  /** Disk i itself: no loop, no draw. */
  lemma SkipSelfStep(rng: Rng, near: Proximity, field: seq<Circle>, i: nat, d: real, j: nat, pos: nat)
    requires j < |field| && j == i
    ensures AvoidAll(rng, near, field, i, d, j, pos) == AvoidAll(rng, near, field, i, d, j + 1, pos)
    ensures Others(|field|, i, j + 1) == Others(|field|, i, j)
  {
  }

  /** A neighbour every heading is near: its loop runs to the cap. */
  lemma StuckNeighbour(rng: Rng, near: Proximity, field: seq<Circle>, i: nat, d: real, j: nat, pos: nat)
    returns (h: real, q: nat)
    requires j < |field| && j != i && StuckField(near, field, i)
    ensures AvoidAll(rng, near, field, i, d, j, pos) == AvoidAll(rng, near, field, i, h, j + 1, q)
    ensures q + Cap * Others(|field|, i, j + 1) == pos + Cap * Others(|field|, i, j)
  {
    StuckRunsToCap(rng, near, field[j], d, 0, pos);
    CapOneMore(Others(|field|, i, j + 1));
    AvoidAllAt(rng, near, field, i, d, j, pos);
    var r := Avoid(rng, near, field[j], d, 0, pos);
    h, q := r.heading, r.next;
  }

  /** A motionless disk with every other disk on its centre: the collision
      pass draws exactly Cap coins for each of the other |field| - 1 disks. */
  lemma StillPassDrawsCapEach(cfg: Config, trig: Trig, rng: Rng, field: seq<Circle>, i: nat, d: real, pos: nat)
    requires i < |field| && cfg.speed == 0.0 && Repulsion(cfg) >= 0.0
    requires forall k :: 0 <= k < |field| && k != i ==> field[k].x == field[i].x && field[k].y == field[i].y
    ensures AvoidAll(rng, Repels(cfg, trig, field[i].x, field[i].y), field, i, d, 0, pos).next
         == pos + Cap * (|field| - 1)
  {
    var near := Repels(cfg, trig, field[i].x, field[i].y);
    forall k | 0 <= k < |field| && k != i
      ensures AlwaysNear(near, field[k])
    {
      forall e: real
        ensures near(e, field[k])
      {
        RepelsWhenStill(cfg, trig, field[i].x, field[i].y, field[k], e);
      }
    }
    AvoidAllStuck(rng, near, field, i, d, 0, pos);
  }

  lemma {:induction false} CoinSumSplit(rng: Rng, a: nat, b: nat, c: nat)
    requires a <= b <= c
    ensures CoinSum(rng, a, c) == CoinSum(rng, a, b) + CoinSum(rng, b, c)
    decreases b - a
  {
    if a < b {
      CoinSumSplit(rng, a + 1, b, c);
    }
  }

  /** One axis after the wall check: velocity component and coordinate. */
  datatype Axis = Axis(vel: real, pos: real)

  /** Per-axis elastic boundary against walls lo and hi: on or past a wall the
      velocity component is negated and the coordinate recomputed from the old
      one; otherwise the aimed coordinate is kept, strictly between the walls. */
  function Reflect(start: real, vel: real, aimed: real, lo: real, hi: real): (a: Axis)
    ensures aimed >= hi || aimed <= lo ==> a.vel == -vel && a.pos == start + a.vel
    ensures lo < aimed < hi ==> a == Axis(vel, aimed)
    ensures a.vel == vel || a.vel == -vel
  {
    if aimed >= hi || aimed <= lo then Axis(-vel, start - vel) else Axis(vel, aimed)
  }

  /** A reflected axis moves exactly as far as the unreflected one would have. */
  lemma ReflectKeepsStep(start: real, vel: real, lo: real, hi: real)
    ensures var a := Reflect(start, vel, start + vel, lo, hi);
      a.pos - start == a.vel && Sq(a.vel) == Sq(vel)
  {
  }

  /** A step no longer than `speed` from inside [lo, hi] stays inside once
      reflected, provided the walls are at least two steps apart. */
  lemma ReflectStaysInside(start: real, vel: real, lo: real, hi: real, speed: real)
    requires lo <= start <= hi
    requires -speed <= vel <= speed
    requires hi - lo >= 2.0 * speed
    ensures lo <= Reflect(start, vel, start + vel, lo, hi).pos <= hi
  {
  }

  /** The stored heading of `c` is the direction of the step from `start`. */
  predicate HeadingOfStep(trig: Trig, start: Circle, c: Circle) {
    c.d == trig.atan2(c.y - start.y, c.x - start.x)
  }

  /** The wall check and the commit of MOT_s.py lines 116-133: each axis of
      the aimed move `m` from `start` is reflected on its own, and the disk
      stores the reflected centre and the heading of the reflected step. */
  function Commit(cfg: Config, trig: Trig, start: Circle, m: Move): (c: Circle)
    requires Aimed(trig, cfg.speed, start.x, start.y, m)
    ensures HeadingOfStep(trig, start, c)
    ensures Roomy(cfg) && InArena(cfg, start) ==> InArena(cfg, c)
    ensures cfg.speed >= 0.0 ==> Dist2(c.x, c.y, start.x, start.y) == Sq(cfg.speed)
  {
    var ax := Reflect(start.x, m.vx, m.x, Low(cfg), High(cfg));
    var ay := Reflect(start.y, m.vy, m.y, Low(cfg), High(cfg));
    AimedFacts(trig, cfg.speed, start.x, start.y, m);
    StepFacts(cfg, start, m.vx, m.vy, ax, ay);
    Circle(ax.pos, ay.pos, trig.atan2(ay.vel, ax.vel))
  }

  /** Moves disk i of the current field by one frame, starting its draws at
      generator position `pos`: one noise draw at `pos`, then the coins of
      the collision pass from pos + 1 on. Returns the committed disk and the
      position after the last draw. */
  function StepCircle(cfg: Config, trig: Trig, rng: Rng, field: seq<Circle>, i: nat, pos: nat)
    : (res: (Circle, nat))
    requires i < |field|
    ensures var c, start := res.0, field[i];
      && HeadingOfStep(trig, start, c)
      && (Roomy(cfg) && InArena(cfg, start) ==> InArena(cfg, c))
    ensures pos < res.1 <= pos + 1 + Cap * (|field| - 1)
  {
    var start := field[i];
    var d := NoisyHeading(cfg, start.d, rng.unit(pos));
    var av := AvoidAll(rng, Repels(cfg, trig, start.x, start.y), field, i, d, 0, pos + 1);
    (Commit(cfg, trig, start, Aim(trig, cfg.speed, start.x, start.y, av.heading)), av.next)
  }

  /** The draws of one disk in program order: the noise value at `pos`, then
      the coins of the collision pass of disk i against the program's own
      test, started at pos + 1 from the noisy heading; the step ends where
      that pass ends. The coins' sum turns the noisy heading into the
      heading of the step that is committed. */
  lemma StepCircleDraws(cfg: Config, trig: Trig, rng: Rng, field: seq<Circle>, i: nat, pos: nat)
    requires i < |field|
    ensures var res, start := StepCircle(cfg, trig, rng, field, i, pos), field[i];
      var nd := NoisyHeading(cfg, start.d, rng.unit(pos));
      && res.1 == AvoidAll(rng, Repels(cfg, trig, start.x, start.y), field, i, nd, 0, pos + 1).next
      && res.0 == Commit(cfg, trig, start, Aim(trig, cfg.speed, start.x, start.y, Turn(nd, CoinSum(rng, pos + 1, res.1))))
  {
  }

  /** The bound of `StepCircle` is reached: a disk with zero speed and every
      other disk on its centre draws its noise value and then exactly 10000
      coins for each of the other disks. */
  lemma StillStepDrawsCapEach(cfg: Config, trig: Trig, rng: Rng, field: seq<Circle>, i: nat, pos: nat)
    requires i < |field| && cfg.speed == 0.0 && Repulsion(cfg) >= 0.0
    requires forall k :: 0 <= k < |field| && k != i ==> field[k].x == field[i].x && field[k].y == field[i].y
    ensures StepCircle(cfg, trig, rng, field, i, pos).1 == pos + 1 + Cap * (|field| - 1)
  {
    StillPassDrawsCapEach(cfg, trig, rng, field, i, NoisyHeading(cfg, field[i].d, rng.unit(pos)), pos + 1);
  }

  /** Noise, nudges and reflections change only the direction of a step: the
      committed centre is exactly `speed` away from the old one. */
  lemma StepLength(cfg: Config, trig: Trig, rng: Rng, field: seq<Circle>, i: nat, pos: nat)
    requires i < |field| && cfg.speed >= 0.0
    ensures var c := StepCircle(cfg, trig, rng, field, i, pos).0;
      Dist2(c.x, c.y, field[i].x, field[i].y) == Sq(cfg.speed)
  {
  }

  /** The committed centre is the old centre plus the reflected velocity; its
      distance from the old centre and its place in the arena follow from the
      length of the aimed velocity. */
  lemma StepFacts(cfg: Config, start: Circle, vx: real, vy: real, ax: Axis, ay: Axis)
    requires ax == Reflect(start.x, vx, start.x + vx, Low(cfg), High(cfg))
    requires ay == Reflect(start.y, vy, start.y + vy, Low(cfg), High(cfg))
    requires cfg.speed >= 0.0 ==> Sq(vx) + Sq(vy) == Sq(cfg.speed)
    requires cfg.speed >= 0.0 ==> -cfg.speed <= vx <= cfg.speed && -cfg.speed <= vy <= cfg.speed
    ensures ax.pos - start.x == ax.vel && ay.pos - start.y == ay.vel
    ensures cfg.speed >= 0.0 ==> Dist2(ax.pos, ay.pos, start.x, start.y) == Sq(cfg.speed)
    ensures Roomy(cfg) && InArena(cfg, start) ==> InArena(cfg, Circle(ax.pos, ay.pos, 0.0))
  {
    ReflectKeepsStep(start.x, vx, Low(cfg), High(cfg));
    ReflectKeepsStep(start.y, vy, Low(cfg), High(cfg));
    if Roomy(cfg) && InArena(cfg, start) {
      ReflectStaysInside(start.x, vx, Low(cfg), High(cfg), cfg.speed);
      ReflectStaysInside(start.y, vy, Low(cfg), High(cfg), cfg.speed);
    }
  }
}
