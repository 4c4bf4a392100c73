/** The frame loop of `moveCircles`: disks 0, 1, ..., n-1 are stepped in
    order, and each new disk is written into the field before the next one
    moves.

    The loop's ordering does not depend on the physics of a single disk, so
    `Advance`, the reference definition of the first k iterations, is stated
    for any per-disk update `step`; `Mover` is the update of `moveCircles`.
    `MoveCircles` is the loop itself. */
module Tick {
  import opened Geometry
  import opened Randomness
  import opened Scene
  import opened Motion

  /** A per-disk update: from the current field, the index of the disk to
      move and the generator position, the new disk and the next position. */
  type Step = (seq<Circle>, nat, nat) -> (Circle, nat)

  /** The update `moveCircles` applies to disk i. An index outside the field
      never reaches it; that branch only makes the function total. */
  function Mover(cfg: Config, trig: Trig, rng: Rng): Step {
    (f: seq<Circle>, i: nat, p: nat) =>
      if i < |f| then StepCircle(cfg, trig, rng, f, i, p) else (Circle(0.0, 0.0, 0.0), p)
  }

  /** The field after iterations 0 .. k-1 of the frame loop. */
  function Advance(step: Step, field: seq<Circle>, k: nat, pos: nat): (f: Frame)
    requires k <= |field|
    ensures |f.field| == |field|
    decreases k
  {
    if k == 0 then Frame(field, pos)
    else
      var prev := Advance(step, field, k - 1, pos);
      var s := step(prev.field, k - 1, prev.next);
      Frame(prev.field[k - 1 := s.0], s.1)
  }

  /** Iterations before k have not touched disks k and above. */
  lemma {:induction false} AdvanceLeavesRest(step: Step, field: seq<Circle>, k: nat, pos: nat, j: nat)
    requires k <= j < |field|
    ensures Advance(step, field, k, pos).field[j] == field[j]
    decreases k
  {
    if k > 0 {
      AdvanceLeavesRest(step, field, k - 1, pos, j);
    }
  }

  /** Disk j is written by iteration j only: later iterations keep it. */
  lemma {:induction false} AdvanceWritesOnce(step: Step, field: seq<Circle>, k: nat, pos: nat, j: nat)
    requires j < k <= |field|
    ensures Advance(step, field, k, pos).field[j] == Advance(step, field, j + 1, pos).field[j]
    decreases k
  {
    if k > j + 1 {
      AdvanceWritesOnce(step, field, k - 1, pos, j);
    }
  }

  /** The field that iteration i reads holds this frame's final disks below i
      and last frame's disks from i on, and the disk it writes is the update
      of disk i on that field. */
  lemma IterationSees(step: Step, field: seq<Circle>, i: nat, pos: nat)
    requires i < |field|
    ensures var seen := Advance(step, field, i, pos);
      var last := Advance(step, field, |field|, pos);
      && (forall j :: 0 <= j < i ==> seen.field[j] == last.field[j])
      && (forall j :: i <= j < |field| ==> seen.field[j] == field[j])
      && last.field[i] == step(seen.field, i, seen.next).0
  {
    var n := |field|;
    forall j | 0 <= j < i
      ensures Advance(step, field, i, pos).field[j] == Advance(step, field, n, pos).field[j]
    {
      AdvanceWritesOnce(step, field, i, pos, j);
      AdvanceWritesOnce(step, field, n, pos, j);
    }
    forall j | i <= j < n
      ensures Advance(step, field, i, pos).field[j] == field[j]
    {
      AdvanceLeavesRest(step, field, i, pos, j);
    }
    AdvanceWritesOnce(step, field, n, pos, i);
  }

  /** One frame: `n` is the global disk count the program iterates over,
      which must be the length of the field. Returns the new field and the
      generator position after the frame's last draw. */
  method MoveCircles(cfg: Config, trig: Trig, rng: Rng, field: seq<Circle>, n: nat, pos: nat)
    returns (out: seq<Circle>, next: nat)
    requires n == |field|
    ensures Frame(out, next) == Advance(Mover(cfg, trig, rng), field, n, pos)
    ensures |out| == n
    ensures forall i :: 0 <= i < n ==> HeadingOfStep(trig, field[i], out[i])
    ensures Roomy(cfg) && AllInArena(cfg, field) ==> AllInArena(cfg, out)
    ensures pos + n <= next
  {
    out, next := field, pos;
    var i := 0;
    while i < n
      invariant i <= n && |out| == n && pos + i <= next
      invariant Frame(out, next) == Advance(Mover(cfg, trig, rng), field, i, pos)
      invariant forall j :: i <= j < n ==> out[j] == field[j]
      invariant forall j :: 0 <= j < i ==> HeadingOfStep(trig, field[j], out[j])
      invariant Roomy(cfg) && AllInArena(cfg, field) ==> AllInArena(cfg, out)
    {
      var step := StepCircle(cfg, trig, rng, out, i, next);
      MoveOne(cfg, trig, rng, field, i, pos, out, next);
      out, next := out[i := step.0], step.1;
      i := i + 1;
    }
  }

  /** One iteration of the frame loop keeps what the loop promises of the
      disks moved so far and of the disks still to move. */
  lemma MoveOne(cfg: Config, trig: Trig, rng: Rng, field: seq<Circle>, i: nat, pos: nat,
                out: seq<Circle>, next: nat)
    requires i < |field| && |out| == |field| && pos + i <= next
    requires Frame(out, next) == Advance(Mover(cfg, trig, rng), field, i, pos)
    requires forall j :: i <= j < |field| ==> out[j] == field[j]
    requires forall j :: 0 <= j < i ==> HeadingOfStep(trig, field[j], out[j])
    requires Roomy(cfg) && AllInArena(cfg, field) ==> AllInArena(cfg, out)
    ensures var step := StepCircle(cfg, trig, rng, out, i, next);
      var moved := out[i := step.0];
      && pos + i + 1 <= step.1
      && Frame(moved, step.1) == Advance(Mover(cfg, trig, rng), field, i + 1, pos)
      && (forall j :: i + 1 <= j < |field| ==> moved[j] == field[j])
      && (forall j :: 0 <= j < i + 1 ==> HeadingOfStep(trig, field[j], moved[j]))
      && (Roomy(cfg) && AllInArena(cfg, field) ==> AllInArena(cfg, moved))
  {
    var step := StepCircle(cfg, trig, rng, out, i, next);
    assert Mover(cfg, trig, rng)(out, i, next) == step;
    assert out[i] == field[i];
  }

  /** Every disk ends a frame exactly `speed` away from where it started. */
  lemma FrameStepLength(cfg: Config, trig: Trig, rng: Rng, field: seq<Circle>, pos: nat, i: nat)
    requires cfg.speed >= 0.0 && i < |field|
    ensures var out := Advance(Mover(cfg, trig, rng), field, |field|, pos).field;
      Dist2(out[i].x, out[i].y, field[i].x, field[i].y) == Sq(cfg.speed)
  {
    var seen := Advance(Mover(cfg, trig, rng), field, i, pos);
    IterationSees(Mover(cfg, trig, rng), field, i, pos);
    StepLength(cfg, trig, rng, seen.field, i, seen.next);
  }

  /** The update keeps the disk it moves inside the arena. */
  ghost predicate KeepsArena(cfg: Config, step: Step) {
    forall f: seq<Circle>, i: nat, p: nat :: i < |f| && InArena(cfg, f[i]) ==> InArena(cfg, step(f, i, p).0)
  }

  /** With room for a full step between the walls, the update of
      `moveCircles` keeps a disk in the arena. */
  lemma MoverKeepsArena(cfg: Config, trig: Trig, rng: Rng)
    requires Roomy(cfg)
    ensures KeepsArena(cfg, Mover(cfg, trig, rng))
  {
    forall f: seq<Circle>, i: nat, p: nat | i < |f| && InArena(cfg, f[i])
      ensures InArena(cfg, Mover(cfg, trig, rng)(f, i, p).0)
    {
      var s := StepCircle(cfg, trig, rng, f, i, p);
      assert Mover(cfg, trig, rng)(f, i, p) == s;
    }
  }

  /** The field after `ticks` whole frames. */
  function Run(step: Step, field: seq<Circle>, ticks: nat, pos: nat): (f: Frame)
    ensures |f.field| == |field|
    decreases ticks
  {
    if ticks == 0 then Frame(field, pos)
    else
      var one := Advance(step, field, |field|, pos);
      Run(step, one.field, ticks - 1, one.next)
  }

  /** The first k iterations of an arena-keeping update keep every disk in
      the arena. */
  lemma {:induction false} AdvanceKeepsArena(cfg: Config, step: Step, field: seq<Circle>, k: nat, pos: nat)
    requires k <= |field|
    requires KeepsArena(cfg, step) && AllInArena(cfg, field)
    ensures AllInArena(cfg, Advance(step, field, k, pos).field)
    decreases k
  {
    if k > 0 {
      AdvanceKeepsArena(cfg, step, field, k - 1, pos);
      var prev := Advance(step, field, k - 1, pos);
      assert InArena(cfg, prev.field[k - 1]);
    }
  }

  /** Boundary invariant: an arena-keeping update keeps every disk within
      [r, S - r] on both axes after any number of frames. `MoverKeepsArena`
      supplies the hypothesis for the update of `moveCircles`. */
  lemma {:induction false} RunKeepsArena(cfg: Config, step: Step, field: seq<Circle>, ticks: nat, pos: nat)
    requires KeepsArena(cfg, step) && AllInArena(cfg, field)
    ensures AllInArena(cfg, Run(step, field, ticks, pos).field)
    decreases ticks
  {
    if ticks > 0 {
      AdvanceKeepsArena(cfg, step, field, |field|, pos);
      var one := Advance(step, field, |field|, pos);
      RunKeepsArena(cfg, step, one.field, ticks - 1, one.next);
    }
  }

  /** The boundary invariant for the program's own update: under `Roomy`,
      disks that start in the arena stay there however many frames run. */
  lemma MotionKeepsArena(cfg: Config, trig: Trig, rng: Rng, field: seq<Circle>, ticks: nat, pos: nat)
    requires Roomy(cfg) && AllInArena(cfg, field)
    ensures AllInArena(cfg, Run(Mover(cfg, trig, rng), field, ticks, pos).field)
  {
    MoverKeepsArena(cfg, trig, rng);
    RunKeepsArena(cfg, Mover(cfg, trig, rng), field, ticks, pos);
  }
}
