/** What the PTPv1 slave (IEEE 1588-2002, clause 8) makes of a paired Sync: the stages of
    acquisition, and where the t2 - t1 of a path-delay sample comes from.

    The epoch counts the steps of our own clock: a local stamp means something only
    together with stamps of the same epoch. */
module SlaveSpec {
  import opened Arith
  import opened LowEdge
  import opened ServoSpec
  import opened ServoLaws

  const SMALL_STEP_NS := 100000
  const SNAP_NS := 5000
  const PATH_MAX_NS := 10000000

  // ----- what a paired Sync does -------------------------------------------

  /** With the path delay known: one snap if the offset is large, else the servo. */
  function Following(was: Servo, offset: int, t2: int, snapped: bool, fit: Fit): Output
  {
    if !snapped && (offset > SNAP_NS || offset < -SNAP_NS) then Output(ClearFilter(was), -offset)
    else ServoSpec.Update(was, Sample(offset, t2, fit))
  }

  /** What a paired Sync does to the servo and to our clock, by stage of
      acquisition: the raw t2 - t1 goes in first; then nothing, until the path delay
      is known; then one snap; then the offset. A step of 0 is no step. */
  function Reaction(was: Servo, t1: int, t2: int, mean: int, isFresh: bool, snapped: bool, fit: Fit): Output
  {
    var raw := t2 - t1;
    var offset := raw - mean;
    if !was.estDone then ServoSpec.Update(was, Sample(raw, t2, fit))
    else if mean == 0 || !isFresh then Output(was, 0)
    else Following(was, offset, t2, snapped, fit)
  }

  /** What else it leaves behind: whether the snap has been made, whether the path delay
      was measured since the frequency fix, whether the average starts again, and
      whether the step counts as one the media clock re-anchors on. */
  datatype Stage = Stage(snapped: bool, isFresh: bool, reset: bool, counted: bool)

  predicate Big(step: int) { Abs(step) > SMALL_STEP_NS }

  function StageAfter(was: Servo, t1: int, t2: int, mean: int, isFresh: bool, snapped: bool, fit: Fit): Stage
  {
    var r := Reaction(was, t1, t2, mean, isFresh, snapped, fit);
    if !was.estDone then Stage(false, isFresh && r.step == 0 && !r.next.estDone, r.step != 0 || r.next.estDone, Big(r.step))
    else if mean == 0 || !isFresh then Stage(snapped, isFresh, false, false)
    else FollowedStage(was, t2 - t1 - mean, t2, snapped, fit)
  }

  function FollowedStage(was: Servo, offset: int, t2: int, snapped: bool, fit: Fit): Stage
  {
    var step := Following(was, offset, t2, snapped, fit).step;
    var snap := !snapped && Abs(offset) > SNAP_NS;
    Stage(true, snap || step == 0, !snap && step != 0, snap || Big(step))
  }

  /** What a paired Sync may change besides the servo: the path delay is fresh, there is a
      t3 and a t2 - t1, the samples averaged, the steps made, and those counted. */
  datatype Marks = Marks(isFresh: bool, haveT3: bool, haveMs: bool, batch: seq<int>, steps: seq<int>, counted: nat)

  /** Every step leaves no t3 and no t2 - t1 behind. */
  function Staged(m: Marks, stage: Stage, step: int): Marks
  {
    Marks(stage.isFresh, m.haveT3 && step == 0, m.haveMs && step == 0, if stage.reset then [] else m.batch,
          m.steps + StepLog(step), m.counted + if stage.counted then 1 else 0)
  }

  /** A step made by the servo drops the path delay as well. */
  function ByServo(m: Marks, step: int): Marks
  {
    Staged(m, Stage(true, m.isFresh && step == 0, step != 0, Big(step)), step)
  }

  lemma Unmarked(m: Marks, snapped: bool)
    ensures Staged(m, Stage(snapped, m.isFresh, false, false), 0) == m && ByServo(m, 0) == m
  {}

  /** With the path delay known, one of the two. */
  lemma FollowedMarks(m: Marks, was: Servo, offset: int, t2: int, snapped: bool, fit: Fit)
    requires m.isFresh
    ensures var r := Following(was, offset, t2, snapped, fit);
      Staged(m, FollowedStage(was, offset, t2, snapped, fit), r.step) ==
        if !snapped && Abs(offset) > SNAP_NS then Snapped(m, offset) else ByServo(m, r.step)
    ensures Following(was, offset, t2, snapped, fit) ==
      if !snapped && Abs(offset) > SNAP_NS then Output(ClearFilter(was), -offset) else ServoSpec.Update(was, Sample(offset, t2, fit))
  {
    hide ServoSpec.Update, Big;
  }

  function Snapped(m: Marks, offset: int): Marks
  {
    m.(haveT3 := false, haveMs := false, steps := m.steps + [-offset], counted := m.counted + 1)
  }

  function StepLog(step: int): seq<int> { if step == 0 then [] else [step] }

  /** The Sync is tracked: its offset goes to the servo in steady state and leaves it
      locked, so that the path delay is then paired with the filtered offset. */
  predicate Tracked(was: Servo, t1: int, t2: int, mean: int, isFresh: bool, snapped: bool, fit: Fit)
  {
    && was.estDone && mean != 0 && isFresh && snapped
    && var next := Reaction(was, t1, t2, mean, isFresh, snapped, fit).next;
       next.estDone && next.locked
  }

  /** The three stages of acquisition, one by one. */
  lemma WhileEstimating(was: Servo, t1: int, t2: int, mean: int, isFresh: bool, snapped: bool, fit: Fit)
    requires !was.estDone
    ensures var r := ServoSpec.Update(was, Sample(t2 - t1, t2, fit));
      && Reaction(was, t1, t2, mean, isFresh, snapped, fit) == r
      && StageAfter(was, t1, t2, mean, isFresh, snapped, fit) ==
         Stage(false, isFresh && r.step == 0 && !r.next.estDone, r.step != 0 || r.next.estDone, Big(r.step))
      && !Tracked(was, t1, t2, mean, isFresh, snapped, fit)
  {}

  lemma WhileCoasting(was: Servo, t1: int, t2: int, mean: int, isFresh: bool, snapped: bool, fit: Fit)
    requires was.estDone && (mean == 0 || !isFresh)
    ensures Reaction(was, t1, t2, mean, isFresh, snapped, fit) == Output(was, 0)
    ensures StageAfter(was, t1, t2, mean, isFresh, snapped, fit) == Stage(snapped, isFresh, false, false)
    ensures !Tracked(was, t1, t2, mean, isFresh, snapped, fit)
  {}

  lemma WhileFollowing(was: Servo, t1: int, t2: int, mean: int, isFresh: bool, snapped: bool, fit: Fit)
    requires was.estDone && mean != 0 && isFresh
    ensures var r := Following(was, t2 - t1 - mean, t2, snapped, fit);
      && Reaction(was, t1, t2, mean, isFresh, snapped, fit) == r
      && StageAfter(was, t1, t2, mean, isFresh, snapped, fit) == FollowedStage(was, t2 - t1 - mean, t2, snapped, fit)
      && (Tracked(was, t1, t2, mean, isFresh, snapped, fit) <==> snapped && r.next.estDone && r.next.locked)
  {}

  // ----- in numbers --------------------------------------------------------

  /** The clock is snapped: the first offset of more than 5 microseconds once the frequency
      and the path delay are known. */
  predicate Snapping(was: Servo, t1: int, t2: int, mean: int, isFresh: bool, snapped: bool)
  {
    was.estDone && mean != 0 && isFresh && !snapped && (t2 - t1 - mean > 5000 || t2 - t1 - mean < -5000)
  }

  /** With t2 - t1 the path delay and the offset o of our clock: what a paired Sync does is
      to take out o, once the frequency and the path delay are known; before that, of the
      raw difference, what one update does; in between, nothing. */
  lemma ReactionCorrects(was: Servo, t1: int, t2: int, mean: int, isFresh: bool, snapped: bool, fit: Fit, o: int)
    requires ServoSpec.Inv(was) && t2 - t1 == mean + o
    ensures var r := Reaction(was, t1, t2, mean, isFresh, snapped, fit);
      if !was.estDone then Corrects(was, Sample(t2 - t1, t2, fit), r.next, r.step)
      else if mean == 0 || !isFresh then r.next == was && r.step == 0
      else if Snapping(was, t1, t2, mean, isFresh, snapped) then o + r.step == 0 && r.next == was.(window := [], comp := 0)
      else Corrects(was, Sample(o, t2, fit), r.next, r.step)
  {
    UpdateCorrects(was, Sample(t2 - t1, t2, fit));
    UpdateCorrects(was, Sample(o, t2, fit));
    hide ServoSpec.Inv, ServoSpec.Update, Corrects;
    if was.estDone && mean != 0 && isFresh { WhileFollowing(was, t1, t2, mean, isFresh, snapped, fit); }
  }

  /** Which steps the media clock re-anchors on: a snap, and any beyond 100 microseconds. */
  lemma CountedExactly(was: Servo, t1: int, t2: int, mean: int, isFresh: bool, snapped: bool, fit: Fit)
    ensures var step := Reaction(was, t1, t2, mean, isFresh, snapped, fit).step;
      StageAfter(was, t1, t2, mean, isFresh, snapped, fit).counted <==>
        step > 100000 || step < -100000 || Snapping(was, t1, t2, mean, isFresh, snapped)
  {
    hide ServoSpec.Update;
  }

  /** What makes the path delay start again: a step that is no snap, and the frequency
      estimate. */
  lemma AverageRestarts(was: Servo, t1: int, t2: int, mean: int, isFresh: bool, snapped: bool, fit: Fit)
    ensures var r := Reaction(was, t1, t2, mean, isFresh, snapped, fit); var stage := StageAfter(was, t1, t2, mean, isFresh, snapped, fit);
      && (stage.reset <==> (r.step != 0 && !Snapping(was, t1, t2, mean, isFresh, snapped)) || (!was.estDone && r.next.estDone))
      && (stage.isFresh <==> isFresh && !stage.reset)
      && (stage.snapped <==> was.estDone && (snapped || (mean != 0 && isFresh)))
  {
    hide ServoSpec.Update;
  }

  // ----- where a t2 - t1 comes from ----------------------------------------

  /** One Sync with the originate stamp it was paired with, and the epoch of its local
      stamp. */
  datatype Sync = Sync(syncSeq: int, originSeq: int, t1: int, t2: int, epoch: nat)

  /** A Sync the filter has heard: with the path delay and the compensation of then. */
  datatype Heard = Heard(sync: Sync, mean: int, comp: int)

  /** A stored t2 - t1 is that of one Sync, or of the Syncs in the filter, newest first. */
  datatype Origin = OfSync(sync: Sync) | OfFilter(heard: seq<Heard>)

  function Value(h: Heard): int { h.sync.t2 - h.sync.t1 - h.mean - h.comp }

  function Values(hs: seq<Heard>): (vs: seq<int>)
    ensures |vs| == |hs|
  {
    seq(|hs|, i requires 0 <= i < |hs| => Value(hs[i]))
  }

  /** Paired with its own Follow_Up, and stamped in this epoch. */
  ghost predicate SyncOk(s: Sync, epoch: nat) { s.syncSeq == s.originSeq && s.epoch == epoch }

  ghost predicate AllOk(hs: seq<Heard>, epoch: nat)
  {
    forall i :: 0 <= i < |hs| ==> SyncOk(hs[i].sync, epoch)
  }

  /** ms is the t2 - t1 of the last Sync itself; or, if that one was tracked, the second
      lowest (lowest of one) of up to 32 paired offsets, the newest of them the last
      Sync's, brought forward to now and with the path delay put back. Every stamp in
      it is of this epoch. */
  ghost predicate OriginOk(o: Origin, ms: int, epoch: nat, last: Sync, tracked: bool)
  {
    match o
    case OfSync(s) => !tracked && s == last && SyncOk(s, epoch) && ms == s.t2 - s.t1
    case OfFilter(hs) =>
      && tracked && 1 <= |hs| <= 32 && hs[0].sync == last && AllOk(hs, epoch)
      && ms == SecondLowest(Values(hs)) + hs[0].comp + hs[0].mean
  }

  /** One path-delay sample that was accepted: the last Sync paired before it, whether
      that was tracked, where its t2 - t1 came from, and when t3 was taken. */
  datatype PathSample = PathSample(last: Sync, tracked: bool, origin: Origin, ms: int, t3: int, t4: int, d: int, t3Epoch: nat, epoch: nat)

  ghost predicate Sound(p: PathSample)
  {
    && OriginOk(p.origin, p.ms, p.epoch, p.last, p.tracked) && p.t3Epoch == p.epoch
    && p.d == TruncDiv(p.ms + (p.t4 - p.t3), 2) && 0 <= p.d <= 10000000
  }

  /** On a path of m nanoseconds either way, with our clock ahead by o when the Sync arrived
      and when the request left: the sample is m, whatever o. */
  lemma SymmetricPath(p: PathSample, m: int, o: int)
    requires Sound(p) && p.ms == m + o && p.t4 - p.t3 == m - o
    ensures p.d == m
  {}

  /** A clock drifting between the two, or a path longer one way, is in it by half. */
  lemma PathError(p: PathSample, there: int, back: int, o: int, later: int)
    requires Sound(p) && p.ms == there + o && p.t4 - p.t3 == back - later
    ensures -1 <= 2 * p.d - (there + back + o - later) <= 1
  {}

  /** The t2 - t1 used is the last Sync's own exactly when that Sync was not tracked, or
      its offset is itself the second lowest of those in the filter (or the only one):
      by count, at least two are at most it and at most one is below. */
  lemma OneSyncExactly(p: PathSample)
    requires Sound(p)
    ensures p.ms == p.last.t2 - p.last.t1 <==>
      (p.tracked ==>
        var vs := Values(p.origin.heard);
        LowCount(vs, vs[0]) >= Min(2, |vs|) && LowCount(vs, vs[0] - 1) < Min(2, |vs|))
  {
    if p.tracked {
      var vs := Values(p.origin.heard);
      SecondLowestExactly(vs, vs[0]);
    }
  }

  /** Otherwise it is that of another Sync in the filter, paired and of this epoch, with
      the path delay and the compensation of now for those of then. */
  lemma SomeSyncBehind(p: PathSample) returns (k: nat)
    requires Sound(p) && p.tracked
    ensures var hs := p.origin.heard;
      k < |hs| && SyncOk(hs[k].sync, p.epoch)
      && p.ms == (hs[k].sync.t2 - hs[k].sync.t1) + (hs[0].mean - hs[k].mean) + (hs[0].comp - hs[k].comp)
  {
    k := SecondLowestIsOne(Values(p.origin.heard));
  }

  /** While tracked, two paired offsets at most b (or the only one) keep the filtered one
      at most b, however late the others were. */
  lemma TrackedLowEdge(p: PathSample, b: int)
    requires Sound(p) && p.tracked
    ensures p.ms - p.origin.heard[0].comp - p.origin.heard[0].mean <= b <==>
      LowCount(Values(p.origin.heard), b) >= Min(2, |p.origin.heard|)
  {
    SecondLowestByCount(Values(p.origin.heard), b);
  }

  // ----- the Syncs behind the filter's window ------------------------------

  /** The window holds, sample for sample, the compensated offsets of these Syncs, all
      paired and all of this epoch. */
  ghost predicate FilterOk(window: seq<int>, hs: seq<Heard>, epoch: nat)
  {
    |window| == |hs| && AllOk(hs, epoch) && forall i :: 0 <= i < |hs| ==> window[i] == Value(hs[i])
  }

  /** After a paired Sync: every step of the clock empties the filter. */
  function Refiltered(hs: seq<Heard>, was: Servo, sync: Sync, mean: int, isFresh: bool, step: int): seq<Heard>
  {
    if step != 0 then []
    else if was.estDone && mean != 0 && isFresh then hs + [Heard(sync, mean, Compensated(was, sync.t2))]
    else hs
  }

  function NewestHeard(hs: seq<Heard>, n: nat): (r: seq<Heard>)
    requires n <= |hs|
    ensures |r| == n
  {
    seq(n, i requires 0 <= i < n => hs[|hs| - 1 - i])
  }

  function OriginAfter(hs: seq<Heard>, next: Servo, sync: Sync, tracked: bool): Origin
  {
    if tracked && Used(next) <= |hs| then OfFilter(NewestHeard(hs, Used(next))) else OfSync(sync)
  }

  /** The t2 - t1 that is stored once the servo has seen a Sync. */
  function StoredMs(next: Servo, raw: int, mean: int, tracked: bool): int
  {
    if tracked && next.window != [] then LowEdgeOf(next) + mean else raw
  }

  lemma Untracked(next: Servo, raw: int, mean: int)
    ensures StoredMs(next, raw, mean, false) == raw
  {}

  /** The window goes on being made of Syncs of the current epoch only. */
  lemma FilterKept(hs: seq<Heard>, was: Servo, sync: Sync, mean: int, isFresh: bool, snapped: bool, fit: Fit, epoch: nat)
    requires ServoSpec.Inv(was) && FilterOk(was.window, hs, epoch) && SyncOk(sync, epoch)
    ensures var r := Reaction(was, sync.t1, sync.t2, mean, isFresh, snapped, fit);
      FilterOk(r.next.window, Refiltered(hs, was, sync, mean, isFresh, r.step), epoch + |StepLog(r.step)|)
  {
    hide ServoSpec.Update, Compensated, Inv;
    var raw := sync.t2 - sync.t1;
    WindowAfter(was, Sample(raw, sync.t2, fit));
    WindowAfter(was, Sample(raw - mean, sync.t2, fit));
  }

  /** Of a Sync that did not step the clock: what is stored is what its origin says. */
  lemma OriginKept(hs: seq<Heard>, was: Servo, sync: Sync, mean: int, isFresh: bool, snapped: bool, fit: Fit, epoch: nat, ms: int)
    requires ServoSpec.Inv(was) && FilterOk(was.window, hs, epoch) && SyncOk(sync, epoch)
    requires var r := Reaction(was, sync.t1, sync.t2, mean, isFresh, snapped, fit);
      r.step == 0 && ms == StoredMs(r.next, sync.t2 - sync.t1, mean, Tracked(was, sync.t1, sync.t2, mean, isFresh, snapped, fit))
    ensures var r := Reaction(was, sync.t1, sync.t2, mean, isFresh, snapped, fit);
      var tracked := Tracked(was, sync.t1, sync.t2, mean, isFresh, snapped, fit);
      OriginOk(OriginAfter(Refiltered(hs, was, sync, mean, isFresh, 0), r.next, sync, tracked), ms, epoch, sync, tracked)
  {
    hide ServoSpec.Update, Compensated, Inv, SecondLowest;
    FilterKept(hs, was, sync, mean, isFresh, snapped, fit, epoch);
    if Tracked(was, sync.t1, sync.t2, mean, isFresh, snapped, fit) {
      var next := Reaction(was, sync.t1, sync.t2, mean, isFresh, snapped, fit).next;
      WindowAfter(was, Sample(sync.t2 - sync.t1 - mean, sync.t2, fit));
      var heard := NewestHeard(Refiltered(hs, was, sync, mean, isFresh, 0), Used(next));
      assert Values(heard) == Newest(next.window, Used(next));
    }
  }

  /** The first Sync after a shift is tracked, with a filter of its own: lock is kept and
      the window is empty. */
  lemma OwnAfterShift(was: Servo, sync: Sync, mean: int, fit: Fit)
    requires ServoSpec.Inv(was) && was.locked && was.window == []
    requires mean != 0 && Abs(sync.t2 - sync.t1 - mean) <= JUMP_NS
    ensures Tracked(was, sync.t1, sync.t2, mean, true, true, fit)
    ensures var next := Reaction(was, sync.t1, sync.t2, mean, true, true, fit).next;
      Used(next) == 1 && StoredMs(next, sync.t2 - sync.t1, mean, true) == sync.t2 - sync.t1
  {
    var x := Sample(sync.t2 - sync.t1 - mean, sync.t2, fit);
    var p := Pushed(was, x);
    WindowAfter(was, x);
    OneInUse(p);
    UpdateCounters(was, x);
    hide Compensated, Gains, Streaks;
  }

  lemma OneInUse(p: Servo)
    requires |p.window| == 1
    ensures Used(p) == 1 && LowEdgeOf(p) == p.window[0] + p.comp
  {}

  /** A Sync later than two others in use does not have its own t2 - t1 stored, but less. */
  lemma LateIsReplaced(was: Servo, sync: Sync, mean: int, fit: Fit, next: Servo, i: nat, j: nat)
    requires ServoSpec.Inv(was) && Tracked(was, sync.t1, sync.t2, mean, true, true, fit)
    requires Reaction(was, sync.t1, sync.t2, mean, true, true, fit) == Output(next, 0)
    requires 0 < i < j < Used(next) && LaterThan(next.window, i) && LaterThan(next.window, j)
    ensures StoredMs(next, sync.t2 - sync.t1, mean, true) < sync.t2 - sync.t1
  {
    var x := Sample(sync.t2 - sync.t1 - mean, sync.t2, fit);
    WindowAfter(was, x);
    hide ServoSpec.Update, Reaction, Tracked, Compensated, Used, LowEdgeOf, Inv, Coarse, Pushed;
    TrackedUpdates(was, sync, mean, fit);
    LateLowEdge(next, i, j);
  }

  /** The newest sample is later than the one i places before it. */
  predicate LaterThan(window: seq<int>, i: nat)
  {
    i < |window| && window[|window| - 1 - i] < window[|window| - 1]
  }

  lemma TrackedUpdates(was: Servo, sync: Sync, mean: int, fit: Fit)
    requires ServoSpec.Inv(was) && Tracked(was, sync.t1, sync.t2, mean, true, true, fit)
    ensures was.estDone && Reaction(was, sync.t1, sync.t2, mean, true, true, fit) ==
      ServoSpec.Update(was, Sample(sync.t2 - sync.t1 - mean, sync.t2, fit))
  {
    hide ServoSpec.Update, Inv;
  }

  lemma LateLowEdge(s: Servo, i: nat, j: nat)
    requires 0 < i < j < Used(s) <= |s.window| && LaterThan(s.window, i) && LaterThan(s.window, j)
    ensures LowEdgeOf(s) < s.window[|s.window| - 1] + s.comp
  {
    hide SecondLowest;
    var newest := Newest(s.window, Used(s));
    LateSamplesCannotRaise(newest, i, j, newest[0] - 1);
  }

  // ----- whole runs --------------------------------------------------------

  /** How far acquisition has got. */
  datatype Progress = Progress(servo: Servo, snapped: bool, isFresh: bool)

  /** A Sync is paired, or a path delay measured since the frequency fix is known. */
  datatype Turn = Paired(t1: int, t2: int, mean: int, fit: Fit) | Refreshed

  function Proceed(p: Progress, turn: Turn): Progress
  {
    match turn
    case Paired(t1, t2, mean, fit) =>
      var stage := StageAfter(p.servo, t1, t2, mean, p.isFresh, p.snapped, fit);
      Progress(Reaction(p.servo, t1, t2, mean, p.isFresh, p.snapped, fit).next, stage.snapped, stage.isFresh)
    case Refreshed => p.(isFresh := true)
  }

  function Proceeds(p: Progress, turns: seq<Turn>): Progress
  {
    if turns == [] then p else Proceed(Proceeds(p, turns[..|turns| - 1]), turns[|turns| - 1])
  }

  lemma ProceedsNext(p: Progress, turns: seq<Turn>)
    requires turns != []
    ensures Proceeds(p, turns) == Proceed(Proceeds(p, turns[..|turns| - 1]), turns[|turns| - 1])
  {}

  /** The clock is snapped in this turn. */
  predicate Snaps(p: Progress, turn: Turn)
  {
    && turn.Paired? && p.servo.estDone && turn.mean != 0 && p.isFresh
    && !p.snapped && Abs(turn.t2 - turn.t1 - turn.mean) > SNAP_NS
  }

  /** The frequency is estimated in this turn. */
  predicate Estimates(p: Progress, turn: Turn) { !p.servo.estDone && Proceed(p, turn).servo.estDone }

  function SnapCount(p: Progress, turns: seq<Turn>): nat
  {
    if turns == [] then 0
    else SnapCount(p, turns[..|turns| - 1]) + if Snaps(Proceeds(p, turns[..|turns| - 1]), turns[|turns| - 1]) then 1 else 0
  }

  function EstimateCount(p: Progress, turns: seq<Turn>): nat
  {
    if turns == [] then 0
    else EstimateCount(p, turns[..|turns| - 1]) + if Estimates(Proceeds(p, turns[..|turns| - 1]), turns[|turns| - 1]) then 1 else 0
  }

  /** A snap may still be made. */
  function Credit(p: Progress): nat { if p.servo.estDone && !p.snapped then 1 else 0 }

  lemma CreditKept(p: Progress, turn: Turn)
    ensures (if Snaps(p, turn) then 1 else 0) + Credit(Proceed(p, turn)) <= Credit(p) + if Estimates(p, turn) then 1 else 0
    ensures Snaps(p, turn) ==> Reaction(p.servo, turn.t1, turn.t2, turn.mean, p.isFresh, p.snapped, turn.fit).step == turn.mean - (turn.t2 - turn.t1)
  {
    hide ServoSpec.Update;
  }

  /** Over every run: no more snaps than frequency estimates, and one more only if the run
      begins with a snap still to be made. */
  lemma {:induction false} OneSnapPerEstimate(p: Progress, turns: seq<Turn>)
    ensures SnapCount(p, turns) + Credit(Proceeds(p, turns)) <= Credit(p) + EstimateCount(p, turns)
  {
    if turns != [] {
      OneSnapPerEstimate(p, turns[..|turns| - 1]);
      CreditKept(Proceeds(p, turns[..|turns| - 1]), turns[|turns| - 1]);
    }
  }

  /** The path delay is known to be fresh only if the average has not started again. */
  lemma FreshMeansKept(was: Servo, t1: int, t2: int, mean: int, isFresh: bool, snapped: bool, fit: Fit)
    ensures var stage := StageAfter(was, t1, t2, mean, isFresh, snapped, fit);
      stage.isFresh ==> isFresh && !stage.reset
  {
    hide ServoSpec.Update;
  }

  /** The bookkeeping of one paired Sync. */
  lemma Booked(hs: seq<Heard>, turns: seq<Turn>, was: Progress, sync: Sync, mean: int, fit: Fit, epoch: nat, ms: int)
    requires ServoSpec.Inv(was.servo) && FilterOk(was.servo.window, hs, epoch) && SyncOk(sync, epoch) && was == Proceeds(Start(), turns)
    ensures var turn := Paired(sync.t1, sync.t2, mean, fit);
      Proceeds(Start(), turns + [turn]) == Proceed(was, turn)
    ensures var r := Reaction(was.servo, sync.t1, sync.t2, mean, was.isFresh, was.snapped, fit);
      FilterOk(r.next.window, Refiltered(hs, was.servo, sync, mean, was.isFresh, r.step), epoch + |StepLog(r.step)|)
    ensures var r := Reaction(was.servo, sync.t1, sync.t2, mean, was.isFresh, was.snapped, fit);
      var tracked := Tracked(was.servo, sync.t1, sync.t2, mean, was.isFresh, was.snapped, fit);
      r.step == 0 && ms == StoredMs(r.next, sync.t2 - sync.t1, mean, tracked) ==>
        OriginOk(OriginAfter(Refiltered(hs, was.servo, sync, mean, was.isFresh, 0), r.next, sync, tracked), ms, epoch, sync, tracked)
  {
    hide Reaction, Tracked, OriginOk, FilterOk, Refiltered, OriginAfter, Inv;
    var turn := Paired(sync.t1, sync.t2, mean, fit);
    assert (turns + [turn])[..|turns|] == turns;
    FilterKept(hs, was.servo, sync, mean, was.isFresh, was.snapped, fit, epoch);
    var r := Reaction(was.servo, sync.t1, sync.t2, mean, was.isFresh, was.snapped, fit);
    var tracked := Tracked(was.servo, sync.t1, sync.t2, mean, was.isFresh, was.snapped, fit);
    if r.step == 0 && ms == StoredMs(r.next, sync.t2 - sync.t1, mean, tracked) {
      OriginKept(hs, was.servo, sync, mean, was.isFresh, was.snapped, fit, epoch, ms);
    }
  }

  function Start(): Progress { Progress(Initial(), false, false) }
}
