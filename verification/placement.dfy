/** Initial placement, `setup` in MOT_s.py (lines 29-59) without the creation
    of the drawable circles.

    First every disk gets a centre drawn uniformly in [r, S - r) on each axis
    and a heading drawn uniformly in [0, 2 pi). Then disks 1, 2, ... are
    re-drawn in order: a candidate centre for disk i is accepted as soon as a
    scan of the disks j = 0, 1, ..., i-1 finds ONE of them more than 5 r away.
    The acceptance rule is existential; a candidate close to several earlier
    disks is still accepted when a single earlier disk is far enough. Disk 0 is
    never re-drawn, and re-drawing never touches a heading.

    The re-draw loop has no bound in the program. Here each disk gets `fuel`
    attempts and `None` stands for a loop that would still be running. */
module Placement {
  import opened Geometry
  import opened Randomness
  import opened Scene

  /** Placement separation as a multiple of the radius. */
  const Spread: real := 5.0

  /** An arena wide enough for a disk: draws then land in [r, S - r). */
  predicate Spacious(cfg: Config) {
    cfg.paperSize > 2.0 * cfg.r
  }

  /** A coordinate drawn from u in [0, 1). */
  function Coordinate(cfg: Config, u: Unit): (c: real)
    ensures Spacious(cfg) ==> Low(cfg) <= c < High(cfg)
  {
    Scale(u, cfg.paperSize - 2.0 * cfg.r) + cfg.r
  }

  /** A heading drawn from u in [0, 1). */
  function InitialHeading(u: Unit): (d: real)
    ensures 0.0 <= d < 2.0 * Pi
  {
    Scale(u, 2.0 * Pi)
  }

  /** Centre and heading lie in the ranges the initial draws produce. */
  predicate DrawRange(cfg: Config, c: Circle) {
    && Low(cfg) <= c.x < High(cfg)
    && Low(cfg) <= c.y < High(cfg)
    && 0.0 <= c.d < 2.0 * Pi
  }

  /** The disk of the first pass whose three draws start at position p. */
  function Drawn(cfg: Config, rng: Rng, p: nat): (c: Circle)
    ensures Spacious(cfg) ==> DrawRange(cfg, c)
  {
    Circle(Coordinate(cfg, rng.unit(p)), Coordinate(cfg, rng.unit(p + 1)), InitialHeading(rng.unit(p + 2)))
  }

  /** The first pass: disks 0 .. n-1 drawn in order, three draws each. */
  function InitialDraws(cfg: Config, rng: Rng, n: nat, pos: nat): (f: Frame)
    ensures |f.field| == n && f.next == pos + 3 * n
    ensures forall k :: 0 <= k < n ==> f.field[k] == Drawn(cfg, rng, pos + 3 * k)
    decreases n
  {
    if n == 0 then Frame([], pos)
    else
      var f := InitialDraws(cfg, rng, n - 1, pos);
      Frame(f.field + [Drawn(cfg, rng, pos + 3 * (n - 1))], f.next + 3)
  }

  /** The centres of a and b are more than 5 r apart. */
  predicate Far(cfg: Config, a: Circle, b: Circle) {
    !DistAtMost(Dist2(a.x, a.y, b.x, b.y), Spread * cfg.r)
  }

  /** The acceptance rule for a candidate for disk i: some earlier disk is far. */
  predicate Accepted(cfg: Config, field: seq<Circle>, i: nat, cand: Circle)
    requires i <= |field|
  {
    exists j :: 0 <= j < i && Far(cfg, cand, field[j])
  }

  /** Disk i of `field` satisfies the acceptance rule against the disks before it. */
  predicate Separated(cfg: Config, field: seq<Circle>, i: nat)
    requires i < |field|
  {
    Accepted(cfg, field, i, field[i])
  }

  /** The scan over j, j+1, ..., i-1 that stops at the first disk farther than
      5 r from the candidate. */
  function FirstFar(cfg: Config, field: seq<Circle>, i: nat, cand: Circle, j: nat): (r: Option<nat>)
    requires j <= i <= |field|
    ensures r.Some? ==> && j <= r.value < i
                        && Far(cfg, cand, field[r.value])
                        && forall k :: j <= k < r.value ==> !Far(cfg, cand, field[k])
    ensures r.None? ==> forall k :: j <= k < i ==> !Far(cfg, cand, field[k])
    decreases i - j
  {
    if j == i then None
    else if Far(cfg, cand, field[j]) then Some(j)
    else FirstFar(cfg, field, i, cand, j + 1)
  }

  /** The full scan finds a far disk exactly when the candidate is accepted. */
  lemma ScanDecides(cfg: Config, field: seq<Circle>, i: nat, cand: Circle)
    requires i <= |field|
    ensures FirstFar(cfg, field, i, cand, 0).Some? <==> Accepted(cfg, field, i, cand)
  {
    var r := FirstFar(cfg, field, i, cand, 0);
    if r.Some? {
      assert Far(cfg, cand, field[r.value]);
    }
  }

  /** Candidate number t for a disk with heading d, re-drawing from position pos. */
  function Attempt(cfg: Config, rng: Rng, pos: nat, t: nat, d: real): Circle {
    Circle(Coordinate(cfg, rng.unit(pos + 2 * t)), Coordinate(cfg, rng.unit(pos + 2 * t + 1)), d)
  }

  /** The re-draw loop for disk i from attempt t on, with `fuel` attempts left:
      the number of the first accepted attempt. */
  function FirstAccepted(cfg: Config, rng: Rng, field: seq<Circle>, i: nat, d: real,
                         pos: nat, t: nat, fuel: nat): (r: Option<nat>)
    requires i <= |field|
    ensures r.Some? ==> && t <= r.value < t + fuel
                        && Accepted(cfg, field, i, Attempt(cfg, rng, pos, r.value, d))
                        && forall u :: t <= u < r.value ==> !Accepted(cfg, field, i, Attempt(cfg, rng, pos, u, d))
    ensures r.None? ==> forall u :: t <= u < t + fuel ==> !Accepted(cfg, field, i, Attempt(cfg, rng, pos, u, d))
    decreases fuel
  {
    if fuel == 0 then None
    else
      var cand := Attempt(cfg, rng, pos, t, d);
      ScanDecides(cfg, field, i, cand);
      if FirstFar(cfg, field, i, cand, 0).Some? then Some(t)
      else FirstAccepted(cfg, rng, field, i, d, pos, t + 1, fuel - 1)
  }

  /** Re-draws disk i until the acceptance rule holds. Only disk i changes, it
      keeps its heading, and it lands on the first accepted candidate. */
  function Reposition(cfg: Config, rng: Rng, field: seq<Circle>, i: nat, pos: nat, fuel: nat)
    : (r: Option<Frame>)
    requires 1 <= i < |field|
    ensures r.Some? ==> exists t :: && 0 <= t < fuel
                                    && r.value.next == pos + 2 * (t + 1)
                                    && r.value.field == field[i := Attempt(cfg, rng, pos, t, field[i].d)]
                                    && (forall u :: 0 <= u < t ==>
                                          !Accepted(cfg, field, i, Attempt(cfg, rng, pos, u, field[i].d)))
    ensures r.Some? ==> Separated(cfg, r.value.field, i)
    ensures r.None? ==> forall u :: 0 <= u < fuel ==>
                          !Accepted(cfg, field, i, Attempt(cfg, rng, pos, u, field[i].d))
  {
    var d := field[i].d;
    match FirstAccepted(cfg, rng, field, i, d, pos, 0, fuel)
    case None => None
    case Some(t) =>
      var placed := field[i := Attempt(cfg, rng, pos, t, d)];
      AcceptedOnPrefix(cfg, field, placed, i, Attempt(cfg, rng, pos, t, d));
      Some(Frame(placed, pos + 2 * (t + 1)))
  }

  /** The rule reads only the disks before i. */
  lemma AcceptedOnPrefix(cfg: Config, a: seq<Circle>, b: seq<Circle>, i: nat, cand: Circle)
    requires i <= |a| && i <= |b| && a[..i] == b[..i]
    ensures Accepted(cfg, a, i, cand) <==> Accepted(cfg, b, i, cand)
  {
    if Accepted(cfg, a, i, cand) {
      var j :| 0 <= j < i && Far(cfg, cand, a[j]);
      assert a[j] == a[..i][j] == b[j];
    }
    if Accepted(cfg, b, i, cand) {
      var j :| 0 <= j < i && Far(cfg, cand, b[j]);
      assert b[j] == b[..i][j] == a[j];
    }
  }

  /** Disk k of `placed` is attempt t of the re-draw loop started at
      position p, and every earlier attempt was rejected against the disks
      before k. */
  ghost predicate FirstRedraw(cfg: Config, rng: Rng, placed: seq<Circle>, k: nat, p: nat, t: nat)
    requires k < |placed|
  {
    && placed[k] == Attempt(cfg, rng, p, t, placed[k].d)
    && forall u :: 0 <= u < t ==> !Accepted(cfg, placed, k, Attempt(cfg, rng, p, u, placed[k].d))
  }

  /** The second pass, read back from its result: from generator position
      p, disks k, k+1, ... are re-drawn in order, each one is its first
      accepted attempt, each attempt costs two draws, and the pass ends at
      position `next`. */
  ghost predicate RedrawnFrom(cfg: Config, rng: Rng, placed: seq<Circle>, k: nat, p: nat, next: nat)
    decreases |placed| - k
  {
    if k >= |placed| then next == p
    else exists t: nat :: && FirstRedraw(cfg, rng, placed, k, p, t)
                          && RedrawnFrom(cfg, rng, placed, k + 1, p + 2 * (t + 1), next)
  }

  /** The second pass over disks i, i+1, ..., |field|-1. Disks before i are
      left alone, headings are never changed, every disk from i on is the
      first accepted re-draw of its own attempts, consuming the generator
      from `pos` on without a gap, and so ends up accepted against the disks
      before it. */
  function PlaceFrom(cfg: Config, rng: Rng, field: seq<Circle>, i: nat, pos: nat, fuel: nat)
    : (r: Option<Frame>)
    requires 1 <= i
    ensures r.Some? ==> && |r.value.field| == |field|
                        && pos <= r.value.next
                        && (forall k :: 0 <= k < i && k < |field| ==> r.value.field[k] == field[k])
                        && (forall k :: 0 <= k < |field| ==> r.value.field[k].d == field[k].d)
                        && (forall k :: i <= k < |field| ==> Separated(cfg, r.value.field, k))
                        && RedrawnFrom(cfg, rng, r.value.field, i, pos, r.value.next)
    ensures r.Some? && Spacious(cfg) && (forall k :: 0 <= k < |field| ==> DrawRange(cfg, field[k])) ==>
              forall k :: 0 <= k < |field| ==> DrawRange(cfg, r.value.field[k])
    decreases |field| - i
  {
    if i >= |field| then Some(Frame(field, pos))
    else
      match Reposition(cfg, rng, field, i, pos, fuel)
      case None => None
      case Some(f) =>
        var r := PlaceFrom(cfg, rng, f.field, i + 1, f.next, fuel);
        if r.Some? then
          PlaceFromStep(cfg, rng, field, i, pos, fuel, f, r.value);
          r
        else r
  }

  /** One step of the pass: what re-drawing disk i and then the disks after
      it gives, read off the contracts of `Reposition` and of the rest. */
  lemma PlaceFromStep(cfg: Config, rng: Rng, field: seq<Circle>, i: nat, pos: nat, fuel: nat,
                      f: Frame, rest: Frame)
    requires 1 <= i < |field| && Reposition(cfg, rng, field, i, pos, fuel) == Some(f)
    requires && |rest.field| == |f.field|
             && f.next <= rest.next
             && (forall k :: 0 <= k < i + 1 && k < |f.field| ==> rest.field[k] == f.field[k])
             && (forall k :: 0 <= k < |f.field| ==> rest.field[k].d == f.field[k].d)
             && (forall k :: i + 1 <= k < |f.field| ==> Separated(cfg, rest.field, k))
             && RedrawnFrom(cfg, rng, rest.field, i + 1, f.next, rest.next)
    requires Spacious(cfg) && (forall k :: 0 <= k < |f.field| ==> DrawRange(cfg, f.field[k])) ==>
               forall k :: 0 <= k < |f.field| ==> DrawRange(cfg, rest.field[k])
    ensures && |rest.field| == |field|
            && pos <= rest.next
            && (forall k :: 0 <= k < i && k < |field| ==> rest.field[k] == field[k])
            && (forall k :: 0 <= k < |field| ==> rest.field[k].d == field[k].d)
            && (forall k :: i <= k < |field| ==> Separated(cfg, rest.field, k))
            && RedrawnFrom(cfg, rng, rest.field, i, pos, rest.next)
    ensures Spacious(cfg) && (forall k :: 0 <= k < |field| ==> DrawRange(cfg, field[k])) ==>
              forall k :: 0 <= k < |field| ==> DrawRange(cfg, rest.field[k])
  {
    var d := field[i].d;
    var t: nat :| && t < fuel
                  && f.next == pos + 2 * (t + 1)
                  && f.field == field[i := Attempt(cfg, rng, pos, t, d)];
    PlaceFromKeepsSeparation(cfg, f.field, rest.field, i);
    RepositionThenRest(cfg, rng, field, i, pos, fuel, f, rest.field, rest.next);
    if Spacious(cfg) && (forall k :: 0 <= k < |field| ==> DrawRange(cfg, field[k])) {
      assert DrawRange(cfg, f.field[i]);
      assert forall k :: 0 <= k < |f.field| ==> DrawRange(cfg, f.field[k]);
    }
  }

  /** Later placements leave disks 0..i alone, so disk i stays accepted. */
  lemma PlaceFromKeepsSeparation(cfg: Config, before: seq<Circle>, after: seq<Circle>, i: nat)
    requires i < |before| == |after|
    requires forall k :: 0 <= k < i + 1 ==> after[k] == before[k]
    requires Separated(cfg, before, i)
    ensures Separated(cfg, after, i)
  {
    assert before[..i] == after[..i];
    AcceptedOnPrefix(cfg, before, after, i, before[i]);
  }

  /** Re-drawing disk i and then the disks after it is the pass from disk i:
      the attempts rejected for disk i stay rejected, because the rule reads
      only the disks before i, which the later re-draws do not touch. */
  lemma RepositionThenRest(cfg: Config, rng: Rng, field: seq<Circle>, i: nat, pos: nat, fuel: nat,
                           f: Frame, placed: seq<Circle>, next: nat)
    requires 1 <= i < |field| && Reposition(cfg, rng, field, i, pos, fuel) == Some(f)
    requires |placed| == |field| && forall k :: 0 <= k < i + 1 ==> placed[k] == f.field[k]
    requires RedrawnFrom(cfg, rng, placed, i + 1, f.next, next)
    ensures RedrawnFrom(cfg, rng, placed, i, pos, next)
  {
    var d := field[i].d;
    var t: nat :| && t < fuel
                  && f.next == pos + 2 * (t + 1)
                  && f.field == field[i := Attempt(cfg, rng, pos, t, d)]
                  && (forall u :: 0 <= u < t ==> !Accepted(cfg, field, i, Attempt(cfg, rng, pos, u, d)));
    assert placed[i] == Attempt(cfg, rng, pos, t, d);
    assert field[..i] == placed[..i];
    forall u | 0 <= u < t
      ensures !Accepted(cfg, placed, i, Attempt(cfg, rng, pos, u, d))
    {
      AcceptedOnPrefix(cfg, field, placed, i, Attempt(cfg, rng, pos, u, d));
    }
    assert FirstRedraw(cfg, rng, placed, i, pos, t);
  }

  /** `setup`: n disks drawn and then separated, starting at generator
      position pos, with `fuel` attempts per re-drawn disk. */
  function Setup(cfg: Config, rng: Rng, n: nat, pos: nat, fuel: nat): (r: Option<Frame>)
    ensures r.Some? ==> |r.value.field| == n && pos + 3 * n <= r.value.next
    ensures r.Some? && n > 0 ==> r.value.field[0] == Drawn(cfg, rng, pos)
    ensures r.Some? ==> forall k :: 0 <= k < n ==>
              r.value.field[k].d == InitialHeading(rng.unit(pos + 3 * k + 2))
    ensures r.Some? ==> forall k :: 1 <= k < n ==> Separated(cfg, r.value.field, k)
    ensures r.Some? ==> RedrawnFrom(cfg, rng, r.value.field, 1, pos + 3 * n, r.value.next)
    ensures r.Some? && Spacious(cfg) ==> forall k :: 0 <= k < n ==> DrawRange(cfg, r.value.field[k])
  {
    var init := InitialDraws(cfg, rng, n, pos);
    var r := PlaceFrom(cfg, rng, init.field, 1, init.next, fuel);
    if r.Some? then
      SetupCarries(cfg, rng, n, pos, init, r.value);
      r
    else r
  }

  /** What the second pass keeps of the first, read off the two passes'
      contracts: the first disk and every heading as first drawn, every
      later disk accepted and re-drawn from the end of the first pass. */
  lemma SetupCarries(cfg: Config, rng: Rng, n: nat, pos: nat, init: Frame, placed: Frame)
    requires |init.field| == n && init.next == pos + 3 * n
    requires forall k :: 0 <= k < n ==> init.field[k] == Drawn(cfg, rng, pos + 3 * k)
    requires && |placed.field| == n
             && init.next <= placed.next
             && (forall k :: 0 <= k < 1 && k < n ==> placed.field[k] == init.field[k])
             && (forall k :: 0 <= k < n ==> placed.field[k].d == init.field[k].d)
             && (forall k :: 1 <= k < n ==> Separated(cfg, placed.field, k))
             && RedrawnFrom(cfg, rng, placed.field, 1, init.next, placed.next)
    requires Spacious(cfg) ==> forall k :: 0 <= k < n ==> DrawRange(cfg, placed.field[k])
    ensures pos + 3 * n <= placed.next
    ensures n > 0 ==> placed.field[0] == Drawn(cfg, rng, pos)
    ensures forall k :: 0 <= k < n ==> placed.field[k].d == InitialHeading(rng.unit(pos + 3 * k + 2))
    ensures RedrawnFrom(cfg, rng, placed.field, 1, pos + 3 * n, placed.next)
  {
    forall k | 0 <= k < n
      ensures placed.field[k].d == InitialHeading(rng.unit(pos + 3 * k + 2))
    {
      assert placed.field[k].d == init.field[k].d == Drawn(cfg, rng, pos + 3 * k).d;
    }
  }

  /** The description of the second pass fixes its outcome: two fields that
      agree before disk k and in every heading, and are both re-drawn from
      the same position with every disk from k on accepted, are the same
      field and end at the same position. */
  lemma {:induction false} RedrawnUnique(cfg: Config, rng: Rng, a: seq<Circle>, b: seq<Circle>, k: nat,
                                         p: nat, na: nat, nb: nat)
    requires |a| == |b| && k <= |a|
    requires forall j :: 0 <= j < k ==> a[j] == b[j]
    requires forall j :: 0 <= j < |a| ==> a[j].d == b[j].d
    requires forall j :: k <= j < |a| ==> Separated(cfg, a, j) && Separated(cfg, b, j)
    requires RedrawnFrom(cfg, rng, a, k, p, na) && RedrawnFrom(cfg, rng, b, k, p, nb)
    ensures a == b && na == nb
    decreases |a| - k
  {
    if k == |a| {
      assert a == b;
    } else {
      var ta := RedrawOf(cfg, rng, a, k, p, na);
      var tb := RedrawOf(cfg, rng, b, k, p, nb);
      assert a[..k] == b[..k];
      FirstRedrawUnique(cfg, rng, a, b, k, p, ta, tb);
      RedrawnUnique(cfg, rng, a, b, k + 1, p + 2 * (ta + 1), na, nb);
    }
  }

  /** The attempt at which disk k was accepted in a re-draw from p. */
  lemma RedrawOf(cfg: Config, rng: Rng, a: seq<Circle>, k: nat, p: nat, n: nat) returns (t: nat)
    requires k < |a| && RedrawnFrom(cfg, rng, a, k, p, n)
    ensures FirstRedraw(cfg, rng, a, k, p, t) && RedrawnFrom(cfg, rng, a, k + 1, p + 2 * (t + 1), n)
  {
    t :| FirstRedraw(cfg, rng, a, k, p, t) && RedrawnFrom(cfg, rng, a, k + 1, p + 2 * (t + 1), n);
  }

  /** Two re-draws of disk k from the same position, against the same
      earlier disks and with the same heading, stop at the same attempt. */
  lemma FirstRedrawUnique(cfg: Config, rng: Rng, a: seq<Circle>, b: seq<Circle>, k: nat, p: nat,
                          ta: nat, tb: nat)
    requires k < |a| == |b| && a[..k] == b[..k] && a[k].d == b[k].d
    requires Separated(cfg, a, k) && Separated(cfg, b, k)
    requires FirstRedraw(cfg, rng, a, k, p, ta) && FirstRedraw(cfg, rng, b, k, p, tb)
    ensures ta == tb && a[k] == b[k]
  {
    var d := a[k].d;
    if ta < tb {
      AcceptedOnPrefix(cfg, a, b, k, Attempt(cfg, rng, p, ta, d));
      assert false;
    } else if tb < ta {
      AcceptedOnPrefix(cfg, a, b, k, Attempt(cfg, rng, p, tb, d));
      assert false;
    }
  }

  /** Disks placed by `Setup` lie in the arena. */
  lemma SetupInArena(cfg: Config, rng: Rng, n: nat, pos: nat, fuel: nat)
    requires Spacious(cfg) && Setup(cfg, rng, n, pos, fuel).Some?
    ensures AllInArena(cfg, Setup(cfg, rng, n, pos, fuel).value.field)
  {
  }

  /** The program's own call, `setup` with the configured values and its 10
      disks: a placement that is found has every disk in the arena and every
      disk after the first accepted against the disks before it. */
  lemma DefaultSetup(rng: Rng, fuel: nat)
    requires Setup(Default, rng, DefaultCount, 0, fuel).Some?
    ensures var placed := Setup(Default, rng, DefaultCount, 0, fuel).value.field;
      && |placed| == DefaultCount
      && AllInArena(Default, placed)
      && forall k :: 1 <= k < DefaultCount ==> Separated(Default, placed, k)
  {
    SetupInArena(Default, rng, DefaultCount, 0, fuel);
  }

  /** Fuel only truncates the re-draw loop: an attempt accepted within some
      fuel is the one accepted with any larger fuel. */
  lemma {:induction false} FirstAcceptedFuel(cfg: Config, rng: Rng, field: seq<Circle>, i: nat, d: real,
                                             pos: nat, t: nat, fuel: nat, more: nat)
    requires i <= |field| && fuel <= more
    requires FirstAccepted(cfg, rng, field, i, d, pos, t, fuel).Some?
    ensures FirstAccepted(cfg, rng, field, i, d, pos, t, more) == FirstAccepted(cfg, rng, field, i, d, pos, t, fuel)
    decreases fuel
  {
    var cand := Attempt(cfg, rng, pos, t, d);
    if FirstFar(cfg, field, i, cand, 0).None? {
      FirstAcceptedFuel(cfg, rng, field, i, d, pos, t + 1, fuel - 1, more - 1);
    }
  }

  lemma RepositionFuel(cfg: Config, rng: Rng, field: seq<Circle>, i: nat, pos: nat, fuel: nat, more: nat)
    requires 1 <= i < |field| && fuel <= more
    requires Reposition(cfg, rng, field, i, pos, fuel).Some?
    ensures Reposition(cfg, rng, field, i, pos, more) == Reposition(cfg, rng, field, i, pos, fuel)
  {
    FirstAcceptedFuel(cfg, rng, field, i, field[i].d, pos, 0, fuel, more);
  }

  lemma {:induction false} PlaceFromFuel(cfg: Config, rng: Rng, field: seq<Circle>, i: nat, pos: nat,
                                         fuel: nat, more: nat)
    requires 1 <= i && fuel <= more
    requires PlaceFrom(cfg, rng, field, i, pos, fuel).Some?
    ensures PlaceFrom(cfg, rng, field, i, pos, more) == PlaceFrom(cfg, rng, field, i, pos, fuel)
    decreases |field| - i
  {
    if i < |field| {
      RepositionFuel(cfg, rng, field, i, pos, fuel, more);
      var f := Reposition(cfg, rng, field, i, pos, fuel).value;
      PlaceFromAt(cfg, rng, field, i, pos, fuel, f);
      PlaceFromAt(cfg, rng, field, i, pos, more, f);
      PlaceFromFuel(cfg, rng, f.field, i + 1, f.next, fuel, more);
    }
  }

  /** One disk of the pass: re-draw disk i, then place the rest. */
  lemma PlaceFromAt(cfg: Config, rng: Rng, field: seq<Circle>, i: nat, pos: nat, fuel: nat, f: Frame)
    requires 1 <= i < |field| && Reposition(cfg, rng, field, i, pos, fuel) == Some(f)
    ensures PlaceFrom(cfg, rng, field, i, pos, fuel) == PlaceFrom(cfg, rng, f.field, i + 1, f.next, fuel)
  {
  }

  /** A placement found with some retry budget is the placement the unbounded
      loop produces: more fuel gives the same field and generator position. */
  lemma SetupFuel(cfg: Config, rng: Rng, n: nat, pos: nat, fuel: nat, more: nat)
    requires fuel <= more && Setup(cfg, rng, n, pos, fuel).Some?
    ensures Setup(cfg, rng, n, pos, more) == Setup(cfg, rng, n, pos, fuel)
  {
    var init := InitialDraws(cfg, rng, n, pos);
    PlaceFromFuel(cfg, rng, init.field, 1, init.next, fuel, more);
  }

  /** The acceptance rule is "some earlier disk is far", not "every earlier
      disk is far": with the default parameters, a candidate for disk 2 that
      is 10 pixels from disk 1 is accepted because disk 0 is far away. */
  lemma AcceptanceIsExistential()
    ensures var field := [Circle(100.0, 100.0, 0.0), Circle(400.0, 400.0, 0.0), Circle(0.0, 0.0, 0.0)];
      var cand := Circle(400.0, 410.0, 0.0);
      && Accepted(Default, field, 2, cand)
      && !Far(Default, cand, field[1])
  {
    var field := [Circle(100.0, 100.0, 0.0), Circle(400.0, 400.0, 0.0), Circle(0.0, 0.0, 0.0)];
    var cand := Circle(400.0, 410.0, 0.0);
    assert Far(Default, cand, field[0]);
  }
}
