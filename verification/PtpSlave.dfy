/** The PTPv1 slave's state, updated in place: which timestamps are paired with which,
    when the clock is stepped, and what the path delay is measured from. */
module PtpSlave {
  import opened Arith
  import opened PathDelay
  import opened ServoSpec
  import opened SlaveSpec
  import opened ServoLaws
  import PtpServo

  class PtpSlave {
    const servo: PtpServo.PtpServo
    var t1: int
    var t2: int
    var t3: int
    var haveT1: bool
    var haveT2: bool
    var haveT3: bool
    var awaiting: bool
    var pendingSeq: int
    var pathAcc: int
    var pathN: nat
    var lastMs: int
    var snapped: bool
    var pathFresh: bool
    var haveMs: bool
    var meanPath: int
    var stepCount: nat
    var phaseShifts: nat

    ghost var steps: seq<int>           // every step our clock has taken
    ghost var t1Seq: int
    ghost var t2Seq: int
    ghost var t2Epoch: nat
    ghost var t3Epoch: nat
    ghost var lastSync: Sync            // the last Sync paired
    ghost var lastTracked: bool         // whether it was tracked
    ghost var msFrom: Origin
    ghost var filter: seq<Heard>        // the Syncs behind the samples in the servo's window
    ghost var turns: seq<Turn>          // every turn of acquisition so far
    ghost var batch: seq<int>           // samples accepted since the average was reset
    ghost var accepted: seq<PathSample> // every sample ever accepted

    ghost function Epoch(): nat
      reads `steps
    {
      |steps|
    }

    /** Pairing: a Sync stamp waits for its own Follow_Up, in the current epoch. */
    ghost predicate Pairing()
      reads `haveT1, `haveT2, `haveT3, `awaiting, `pendingSeq, `t1Seq, `t2Seq, `t2Epoch, `t3Epoch, `steps
    {
      && (haveT2 ==> t2Epoch == Epoch())
      && (awaiting ==> haveT2 && t2Seq == pendingSeq && !haveT1)
      && (haveT1 && haveT2 ==> t1Seq == t2Seq)
      && (haveT3 ==> t3Epoch == Epoch())
    }

    /** Where the stored t2 - t1 comes from, if there is one. */
    ghost predicate Stored()
      reads `haveMs, `lastMs, `msFrom, `lastSync, `lastTracked, `steps
    {
      haveMs ==> OriginOk(msFrom, lastMs, Epoch(), lastSync, lastTracked)
    }

    /** The mean is used only while it is fresh, and then it is the mean of the batch. */
    ghost predicate FreshMean()
      reads `pathFresh, `batch
    {
      pathFresh ==> |batch| >= PD_MIN_SAMPLES
    }

    ghost function Made(): Marks
      reads `pathFresh, `haveT3, `haveMs, `batch, `steps, `stepCount
    {
      Marks(pathFresh, haveT3, haveMs, batch, steps, stepCount)
    }

    ghost function Where(): Progress
      reads `snapped, `pathFresh, servo
    {
      Progress(servo.View(), snapped, pathFresh)
    }

    /** The average is that of the samples accepted since its last reset. */
    ghost predicate Averaging()
      reads `pathAcc, `pathN, `meanPath, `batch
    {
      && pathAcc == Acc(batch) && pathN == Count(batch)
      && (forall i :: 0 <= i < |batch| ==> 0 <= batch[i] <= PATH_MAX_NS)
      && (|batch| >= PD_MIN_SAMPLES ==> meanPath == Mean(batch))
    }

    /** The state is where the turns so far have led. */
    ghost predicate Running()
      reads `snapped, `pathFresh, `turns, servo
    {
      Where() == Proceeds(Start(), turns)
    }

    /** The servo's window is made of Syncs of this epoch. */
    ghost predicate Filtering()
      reads `filter, `steps, servo
    {
      FilterOk(servo.View().window, filter, Epoch())
    }

    /** Every sample ever accepted was sound. */
    ghost predicate History()
      reads `accepted
    {
      forall i :: 0 <= i < |accepted| ==> Sound(accepted[i])
    }

    /** All but the pairing of stamps. */
    ghost predicate Consistent()
      reads `pathFresh, `snapped, `haveMs, `lastMs, `msFrom, `lastSync, `lastTracked, `steps, `pathAcc, `pathN, `meanPath, `batch,
        `accepted, `filter, `turns, servo, servo.win
    {
      servo.Valid() && Running() && Filtering() && History() && Stored() && Averaging() && FreshMean()
    }

    ghost predicate Valid()
      reads this, servo, servo.win
    {
      Consistent() && Pairing()
    }

    constructor ()
      ensures Valid() && fresh(servo) && fresh(servo.win) && Where() == Start()
      ensures accepted == [] && steps == [] && turns == [] && !awaiting && !haveT1 && !haveT2
    {
      servo := new PtpServo.PtpServo();
      t1, t2, t3, lastMs, meanPath, pathAcc, pathN, stepCount, phaseShifts := 0, 0, 0, 0, 0, 0, 0, 0, 0;
      haveT1, haveT2, haveT3, haveMs, awaiting, snapped, pathFresh, pendingSeq := false, false, false, false, false, false, false, 0;
      steps, t1Seq, t2Seq, t2Epoch, t3Epoch, batch, accepted, filter, turns := [], 0, 0, 0, 0, [], [], [], [];
      lastSync, lastTracked := Sync(0, 0, 0, 0, 0), false;
      msFrom := OfSync(Sync(0, 0, 0, 0, 0));
    }

    method ResetAverage()
      modifies `pathAcc, `pathN, `batch
      ensures batch == [] && Averaging()
    {
      pathAcc, pathN, batch := 0, 0, [];
    }

    /** path_delay_invalidate: nothing measured before a step pairs with anything
        after it. */
    method PathDelayInvalidate()
      modifies `pathFresh, `haveT3, `haveMs, `pathAcc, `pathN, `batch
      ensures !pathFresh && !haveT3 && !haveMs && batch == [] && Averaging()
    {
      pathFresh, haveT3, haveMs := false, false, false;
      ResetAverage();
    }

    /** apply_servo: feed one offset; a step moves our clock into a new epoch and
        drops every stamp and average of the old one. */
    method ApplyServo(offset: int, fit: Fit) returns (ghost step: int)
      requires servo.Valid() && Averaging()
      modifies this`pathFresh, this`haveT3, this`haveMs, this`pathAcc, this`pathN, this`batch, this`stepCount, this`phaseShifts,
        this`steps, servo, servo.win
      ensures servo.Valid() && Averaging()
      ensures Output(servo.View(), step) == ServoSpec.Update(old(servo.View()), Sample(offset, t2, fit))
      ensures old(servo.estDone) && step == 0 ==> servo.hist != [] && servo.filteredNs == LowEdgeOf(servo.View())
      ensures Made() == ByServo(old(Made()), step)
    {
      servo.ViewFlags();
      hide ServoSpec.Update, Made, ByServo, Averaging, PtpServo.PtpServo.Valid, PtpServo.PtpServo.View, LowEdgeOf;
      Unmarked(Made(), true);
      var ppb, stepNs := servo.Update(Sample(offset, t2, fit));
      servo.ViewFlags();
      step := stepNs;
      if stepNs != 0 { StepClock(stepNs); }
    }

    /** The clock is stepped. */
    method StepClock(stepNs: int)
      requires stepNs != 0
      modifies `pathFresh, `haveT3, `haveMs, `pathAcc, `pathN, `batch, `stepCount, `phaseShifts, `steps
      ensures Averaging() && Made() == ByServo(old(Made()), stepNs)
    {
      steps := steps + [stepNs];
      PathDelayInvalidate();
      if stepNs > SMALL_STEP_NS || stepNs < -SMALL_STEP_NS {
        stepCount := stepCount + 1;
      } else {
        phaseShifts := phaseShifts + 1;
      }
    }

    /** The snap: one small step takes out what built up while the path delay was
        being measured. */
    method Snap(offset: int)
      requires servo.Valid()
      modifies `steps, `haveT3, `haveMs, `stepCount, servo
      ensures servo.Valid() && servo.View() == ClearFilter(old(servo.View()))
      ensures Made() == Snapped(old(Made()), offset)
    {
      steps := steps + [-offset];
      haveT3 := false;
      haveMs := false;
      servo.Forget();
      stepCount := stepCount + 1;
    }

    /** Until the frequency is known: the raw t2 - t1 goes to the servo, and path
        samples from before the frequency fix are dropped. */
    method Acquire(raw: int, fit: Fit) returns (ghost step: int)
      requires servo.Valid() && Averaging()
      modifies this`pathFresh, this`haveT3, this`haveMs, this`pathAcc, this`pathN, this`batch, this`stepCount, this`phaseShifts,
        this`steps, this`snapped, servo, servo.win
      ensures servo.Valid() && Averaging()
      ensures Output(servo.View(), step) == ServoSpec.Update(old(servo.View()), Sample(raw, t2, fit))
      ensures !snapped && var done := servo.View().estDone;
        Made() == Staged(old(Made()), Stage(false, old(pathFresh) && step == 0 && !done, step != 0 || done, Big(step)), step)
    {
      hide ServoSpec.Update, Averaging, PtpServo.PtpServo.View, LowEdgeOf;
      snapped := false;
      step := ApplyServo(raw, fit);
      servo.ViewFlags();
      if servo.estDone {
        ResetAverage();
        pathFresh := false;
      }
    }

    /** In steady state: the offset goes to the servo, and while locked the path
        delay is paired with the filtered t2 - t1, not with this Sync's. */
    method Track(offset: int, fit: Fit) returns (ghost step: int)
      requires servo.Valid() && Averaging() && servo.estDone
      modifies this`pathFresh, this`haveT3, this`haveMs, this`pathAcc, this`pathN, this`batch, this`stepCount, this`phaseShifts,
        this`steps, this`lastMs, servo, servo.win
      ensures servo.Valid() && Averaging()
      ensures Output(servo.View(), step) == ServoSpec.Update(old(servo.View()), Sample(offset, t2, fit))
      ensures Made() == ByServo(old(Made()), step)
      ensures step == 0 ==>
        servo.View().window != [] && lastMs == StoredMs(servo.View(), old(lastMs), meanPath, servo.View().estDone && servo.View().locked)
    {
      hide ServoSpec.Update, Averaging, PtpServo.PtpServo.View, LowEdgeOf;
      servo.ViewFlags();
      step := ApplyServo(offset, fit);
      servo.ViewFlags();
      if servo.estDone && servo.locked {
        lastMs := servo.filteredNs + meanPath;
      }
    }

    /** The first offset with the path delay known: a snap, or the servo. */
    method FirstOffset(offset: int, fit: Fit) returns (ghost step: int)
      requires servo.Valid() && Averaging() && !snapped
      modifies this`pathFresh, this`haveT3, this`haveMs, this`pathAcc, this`pathN, this`batch, this`stepCount, this`phaseShifts,
        this`steps, this`snapped, servo, servo.win
      ensures servo.Valid() && Averaging() && snapped
      ensures var large := Abs(offset) > SNAP_NS;
        && Output(servo.View(), step) == (if large then Output(ClearFilter(old(servo.View())), -offset)
                                          else ServoSpec.Update(old(servo.View()), Sample(offset, t2, fit)))
        && Made() == if large then Snapped(old(Made()), offset) else ByServo(old(Made()), step)
    {
      hide ServoSpec.Update, ServoSpec.ClearFilter, Snapped, ByServo, Made, Averaging, PtpServo.PtpServo.View, PtpServo.PtpServo.Valid;
      snapped := true;
      if offset > SNAP_NS || offset < -SNAP_NS {
        Snap(offset);
        step := -offset;
      } else {
        step := ApplyServo(offset, fit);
      }
    }

    /** With the path delay known: the snap, once, and then the servo. */
    method Follow(offset: int, fit: Fit, ghost was: Servo) returns (ghost step: int)
      requires servo.Valid() && Averaging() && was == servo.View() && was.estDone && pathFresh
      modifies this`pathFresh, this`haveT3, this`haveMs, this`pathAcc, this`pathN, this`batch, this`stepCount, this`phaseShifts,
        this`steps, this`snapped, this`lastMs, servo, servo.win
      ensures servo.Valid() && Averaging()
      ensures Output(servo.View(), step) == Following(was, offset, t2, old(snapped), fit)
      ensures snapped && Made() == Staged(old(Made()), FollowedStage(was, offset, t2, old(snapped), fit), step)
      ensures step == 0 ==>
        lastMs == StoredMs(servo.View(), old(lastMs), meanPath, old(snapped) && servo.View().estDone && servo.View().locked)
    {
      servo.ViewFlags();
      FollowedMarks(Made(), was, offset, t2, snapped, fit);
      hide ServoSpec.Update, ServoSpec.ClearFilter, Following, FollowedStage, Staged, ByServo, Snapped, Made, StoredMs, Averaging, LowEdgeOf,
        PtpServo.PtpServo.View, PtpServo.PtpServo.Valid;
      if snapped {
        step := Track(offset, fit);
      } else {
        step := FirstOffset(offset, fit);
        Untracked(servo.View(), lastMs, meanPath);
      }
    }

    /** What compute_offset decides, from `was` and `at`: the servo and the clock as the
        reaction says, the stage after it, and the t2 - t1 stored. */
    ghost predicate Acted(raw: int, fit: Fit, was: Progress, at: Marks, step: int)
      reads `pathFresh, `haveT3, `haveMs, `batch, `steps, `stepCount, `snapped, `lastMs, `t1, `t2, `meanPath, servo
    {
      var stage := StageAfter(was.servo, t1, t2, meanPath, was.isFresh, was.snapped, fit);
      && Output(servo.View(), step) == Reaction(was.servo, t1, t2, meanPath, was.isFresh, was.snapped, fit)
      && snapped == stage.snapped && Made() == Staged(at, stage, step)
      && (step == 0 ==> lastMs == StoredMs(servo.View(), raw, meanPath, Tracked(was.servo, t1, t2, meanPath, was.isFresh, was.snapped, fit)))
    }

    lemma Estimated(raw: int, fit: Fit, was: Progress, at: Marks, step: int)
      requires !was.servo.estDone && raw == t2 - t1 == lastMs && !snapped
      requires Output(servo.View(), step) == ServoSpec.Update(was.servo, Sample(raw, t2, fit))
      requires var done := servo.View().estDone;
        Made() == Staged(at, Stage(false, was.isFresh && step == 0 && !done, step != 0 || done, Big(step)), step)
      ensures Acted(raw, fit, was, at, step)
    {
      hide ServoSpec.Update, Reaction, StageAfter, Staged, Made, Tracked, StoredMs, Big, PtpServo.PtpServo.View;
      WhileEstimating(was.servo, t1, t2, meanPath, was.isFresh, was.snapped, fit);
      Untracked(servo.View(), raw, meanPath);
    }

    lemma Coasted(raw: int, fit: Fit, was: Progress, at: Marks)
      requires was.servo.estDone && (meanPath == 0 || !was.isFresh) && raw == t2 - t1 == lastMs && was == Where() && at == Made()
      ensures Acted(raw, fit, was, at, 0)
    {
      hide Reaction, StageAfter, Staged, Tracked, StoredMs, PtpServo.PtpServo.View;
      WhileCoasting(was.servo, t1, t2, meanPath, was.isFresh, was.snapped, fit);
      Unmarked(at, snapped);
      Untracked(servo.View(), raw, meanPath);
    }

    lemma Followed(raw: int, fit: Fit, was: Progress, at: Marks, step: int)
      requires was.servo.estDone && meanPath != 0 && was.isFresh && raw == t2 - t1 && snapped
      requires Output(servo.View(), step) == Following(was.servo, raw - meanPath, t2, was.snapped, fit)
      requires Made() == Staged(at, FollowedStage(was.servo, raw - meanPath, t2, was.snapped, fit), step)
      requires step == 0 ==>
        lastMs == StoredMs(servo.View(), raw, meanPath, was.snapped && servo.View().estDone && servo.View().locked)
      ensures Acted(raw, fit, was, at, step)
    {
      hide Following, Reaction, StageAfter, Staged, Made, Tracked, StoredMs, PtpServo.PtpServo.View;
      WhileFollowing(was.servo, t1, t2, meanPath, was.isFresh, was.snapped, fit);
    }

    /** The first stage, in terms of all of them. */
    method EstimateTurn(raw: int, fit: Fit, ghost was: Progress, ghost at: Marks) returns (ghost step: int)
      requires servo.Valid() && Averaging() && was == Where() && at == Made() && lastMs == raw == t2 - t1 && !was.servo.estDone
      modifies this`pathFresh, this`haveT3, this`haveMs, this`pathAcc, this`pathN, this`batch, this`stepCount, this`phaseShifts,
        this`steps, this`snapped, servo, servo.win
      ensures servo.Valid() && Averaging() && Acted(raw, fit, was, at, step)
    {
      hide ServoSpec.Update, Acted, Staged, Made, Big, Averaging, PtpServo.PtpServo.View, PtpServo.PtpServo.Valid;
      step := Acquire(raw, fit);
      Estimated(raw, fit, was, at, step);
    }

    /** And the last. */
    method FollowTurn(raw: int, fit: Fit, ghost was: Progress, ghost at: Marks) returns (ghost step: int)
      requires servo.Valid() && Averaging() && was == Where() && at == Made() && lastMs == raw == t2 - t1
      requires was.servo.estDone && meanPath != 0 && pathFresh
      modifies this`pathFresh, this`haveT3, this`haveMs, this`pathAcc, this`pathN, this`batch, this`stepCount, this`phaseShifts,
        this`steps, this`snapped, this`lastMs, servo, servo.win
      ensures servo.Valid() && Averaging() && Acted(raw, fit, was, at, step)
    {
      hide Following, FollowedStage, Acted, Staged, Made, StoredMs, Averaging, PtpServo.PtpServo.View, PtpServo.PtpServo.Valid;
      step := Follow(raw - meanPath, fit, was.servo);
      Followed(raw, fit, was, at, step);
    }

    /** The decisions of compute_offset. */
    method Act(raw: int, fit: Fit, ghost was: Progress, ghost at: Marks) returns (ghost step: int)
      requires servo.Valid() && Averaging() && was == Where() && at == Made() && lastMs == raw == t2 - t1
      modifies this`pathFresh, this`haveT3, this`haveMs, this`pathAcc, this`pathN, this`batch, this`stepCount, this`phaseShifts,
        this`steps, this`snapped, this`lastMs, servo, servo.win
      ensures servo.Valid() && Averaging() && Acted(raw, fit, was, at, step)
    {
      servo.ViewFlags();
      hide Acted, Made, Averaging, PtpServo.PtpServo.View, PtpServo.PtpServo.Valid;
      var pathKnown := meanPath != 0 && pathFresh;
      if !servo.estDone {
        step := EstimateTurn(raw, fit, was, at);
      } else if !pathKnown {
        // coasting on the estimate
        step := 0;
        Coasted(raw, fit, was, at);
      } else {
        step := FollowTurn(raw, fit, was, at);
      }
    }

    /** A paired Sync took one turn of the run, from `was`, and this is all it did. */
    ghost predicate Computed(was: Progress, sync: Sync, fit: Fit, turns0: seq<Turn>, steps0: seq<int>, count0: nat)
      reads `turns, `steps, `stepCount, `lastSync, `lastTracked, `snapped, `pathFresh, `meanPath, servo
    {
      && Moved(was, sync, fit, steps0, count0)
      && turns == turns0 + [Paired(sync.t1, sync.t2, meanPath, fit)]
      && lastSync == sync && lastTracked == Tracked(was.servo, sync.t1, sync.t2, meanPath, was.isFresh, was.snapped, fit)
    }

    ghost predicate Moved(was: Progress, sync: Sync, fit: Fit, steps0: seq<int>, count0: nat)
      reads `steps, `stepCount, `snapped, `pathFresh, `meanPath, servo
    {
      && Where() == Proceed(was, Paired(sync.t1, sync.t2, meanPath, fit))
      && steps == steps0 + StepLog(Reaction(was.servo, sync.t1, sync.t2, meanPath, was.isFresh, was.snapped, fit).step)
      && stepCount == count0
         + if StageAfter(was.servo, sync.t1, sync.t2, meanPath, was.isFresh, was.snapped, fit).counted then 1 else 0
    }

    /** In numbers: what the Sync made the servo and the clock do, and whether the media clock
        re-anchors on it. */
    lemma ComputedInNumbers(was: Progress, sync: Sync, fit: Fit, turns0: seq<Turn>, steps0: seq<int>, count0: nat)
      requires Computed(was, sync, fit, turns0, steps0, count0) && ServoSpec.Inv(was.servo)
      ensures |steps0| <= |steps| <= |steps0| + 1 && steps[..|steps0|] == steps0
      ensures var step := if |steps| > |steps0| then steps[|steps0|] else 0; var o := sync.t2 - sync.t1 - meanPath;
        var snap := Snapping(was.servo, sync.t1, sync.t2, meanPath, was.isFresh, was.snapped);
        && stepCount == count0 + (if step > 100000 || step < -100000 || snap then 1 else 0)
        && (!was.servo.estDone ==> Corrects(was.servo, Sample(sync.t2 - sync.t1, sync.t2, fit), servo.View(), step))
        && (snap ==> o + step == 0)
        && (was.servo.estDone && (meanPath == 0 || !was.isFresh) ==> servo.View() == was.servo && step == 0)
        && (was.servo.estDone && meanPath != 0 && was.isFresh && !snap ==> Corrects(was.servo, Sample(o, sync.t2, fit), servo.View(), step))
    {
      hide Corrects, ServoSpec.Inv, Reaction, StageAfter, PtpServo.PtpServo.View;
      var o := sync.t2 - sync.t1 - meanPath;
      ReactionCorrects(was.servo, sync.t1, sync.t2, meanPath, was.isFresh, was.snapped, fit, o);
      CountedExactly(was.servo, sync.t1, sync.t2, meanPath, was.isFresh, was.snapped, fit);
    }

    /** What compute_offset does, the bookkeeping of where stamps come from aside. */
    method Evaluate(fit: Fit, ghost was: Progress, ghost sync: Sync) returns (ghost step: int)
      requires servo.Valid() && Averaging() && FreshMean() && was == Where() && t1 == sync.t1 && t2 == sync.t2
      modifies this`pathFresh, this`haveT3, this`haveMs, this`pathAcc, this`pathN, this`batch, this`stepCount, this`phaseShifts,
        this`steps, this`snapped, this`lastMs, servo, servo.win
      ensures servo.Valid() && Averaging() && FreshMean() && Moved(was, sync, fit, old(steps), old(stepCount))
      ensures step == Reaction(was.servo, t1, t2, meanPath, was.isFresh, was.snapped, fit).step
      ensures step == 0 ==> haveT3 == old(haveT3)
      ensures step == 0 ==>
        lastMs == StoredMs(servo.View(), sync.t2 - sync.t1, meanPath, Tracked(was.servo, t1, t2, meanPath, was.isFresh, was.snapped, fit))
      ensures step != 0 ==> !haveT3 && !haveMs
      ensures Epoch() == old(Epoch()) + |StepLog(step)|
    {
      FreshMeansKept(was.servo, t1, t2, meanPath, was.isFresh, was.snapped, fit);
      hide ServoSpec.Update, Reaction, StageAfter, Tracked, LowEdgeOf, Averaging, PtpServo.PtpServo.View, PtpServo.PtpServo.Valid;
      var raw := t2 - t1;
      lastMs := raw;
      haveMs := true;
      step := Act(raw, fit, was, Made());
    }

    /** The bookkeeping: what the Sync was, and what now stands in the filter. */
    ghost method Book(was: Progress, sync: Sync, fit: Fit, step: int, steps0: seq<int>, count0: nat)
      requires ServoSpec.Inv(was.servo) && was == Proceeds(Start(), turns) && FilterOk(was.servo.window, filter, sync.epoch)
      requires sync.syncSeq == sync.originSeq && Moved(was, sync, fit, steps0, count0) && |steps0| == sync.epoch
      requires step == Reaction(was.servo, sync.t1, sync.t2, meanPath, was.isFresh, was.snapped, fit).step
      requires step == 0 ==>
        lastMs == StoredMs(servo.View(), sync.t2 - sync.t1, meanPath, Tracked(was.servo, sync.t1, sync.t2, meanPath, was.isFresh, was.snapped, fit))
      requires step != 0 ==> !haveMs
      modifies `lastSync, `lastTracked, `msFrom, `filter, `turns
      ensures Stored() && Filtering() && Running()
      ensures Computed(was, sync, fit, old(turns), steps0, count0)
    {
      hide Reaction, StageAfter, Tracked, OriginOk, OriginAfter, Refiltered, StoredMs, FilterOk, ServoSpec.Inv, Proceeds, PtpServo.PtpServo.View;
      Booked(filter, turns, was, sync, meanPath, fit, sync.epoch, lastMs);
      lastSync, lastTracked := sync, Tracked(was.servo, sync.t1, sync.t2, meanPath, was.isFresh, was.snapped, fit);
      filter := Refiltered(filter, was.servo, sync, meanPath, was.isFresh, step);
      msFrom := OriginAfter(filter, servo.View(), sync, lastTracked);
      turns := turns + [Paired(sync.t1, sync.t2, meanPath, fit)];
    }

    lemma Meaning()
      requires Consistent()
      ensures Where() == Proceeds(Start(), turns) && FilterOk(Where().servo.window, filter, Epoch()) && ServoSpec.Inv(Where().servo)
    {
      servo.ValidInv();
    }

    /** A paired Sync is evaluated, and that is put on record. */
    method Process(fit: Fit, ghost was: Progress, ghost sync: Sync)
      requires Consistent() && was == Where() && t1 == sync.t1 && t2 == sync.t2 && SyncOk(sync, Epoch())
      modifies this`pathFresh, this`haveT3, this`haveMs, this`pathAcc, this`pathN, this`batch, this`stepCount, this`phaseShifts,
        this`steps, this`snapped, this`lastMs, this`lastSync, this`lastTracked, this`msFrom, this`filter, this`turns, servo, servo.win
      ensures Consistent() && Computed(was, sync, fit, old(turns), old(steps), old(stepCount))
      ensures if Epoch() == sync.epoch then haveT3 == old(haveT3) else !haveT3 && !haveMs && Epoch() > sync.epoch
    {
      hide Reaction, StageAfter, Tracked, StoredMs, FilterOk, Averaging, FreshMean, Stored, Running, Filtering, History, ServoSpec.Inv,
        Proceeds, Proceed, Moved, Computed, PtpServo.PtpServo.View, PtpServo.PtpServo.Valid;
      Meaning();
      ghost var steps0, count0 := steps, stepCount;
      ghost var step := Evaluate(fit, was, sync);
      Book(was, sync, fit, step, steps0, count0);
    }

    /** compute_offset, once both stamps of a Sync are there. */
    method ComputeOffset(fit: Fit, ghost was: Progress, ghost sync: Sync)
      requires Valid() && !awaiting && haveT1 && haveT2 && was == Where() && sync == Sync(t2Seq, t1Seq, t1, t2, Epoch())
      modifies this, servo, servo.win
      ensures Valid() && !haveT1 && !haveT2 && !awaiting && accepted == old(accepted)
      ensures Computed(was, sync, fit, old(turns), old(steps), old(stepCount))
      ensures Epoch() > sync.epoch ==> !haveT3 && !haveMs
      ensures meanPath == old(meanPath) && t2 == sync.t2
    {
      hide Consistent, Computed;
      Process(fit, was, sync);
      haveT1, haveT2 := false, false;
    }

    /** A two-step Sync: its stamp waits for the Follow_Up with the same id. */
    method AwaitFollowUp(seqId: int, stamp: int)
      requires Pairing()
      modifies `t2, `haveT2, `t2Seq, `t2Epoch, `pendingSeq, `awaiting, `haveT1
      ensures Pairing() && awaiting && haveT2 && t2 == stamp && pendingSeq == t2Seq == seqId
    {
      t2, haveT2, t2Seq, t2Epoch := stamp, true, seqId, Epoch();
      pendingSeq := seqId;
      awaiting := true;
      haveT1 := false;
    }

    /** A one-step Sync carries both stamps. */
    method PairOneStep(seqId: int, stamp: int, origin: int)
      requires Pairing()
      modifies `t1, `t2, `haveT1, `haveT2, `t1Seq, `t2Seq, `t2Epoch, `awaiting
      ensures Pairing() && !awaiting && haveT1 && haveT2 && t1 == origin && t2 == stamp && t1Seq == t2Seq == seqId
    {
      t2, haveT2, t2Seq, t2Epoch := stamp, true, seqId, Epoch();
      t1, t1Seq, haveT1 := origin, seqId, true;
      awaiting := false;
    }

    /** The Follow_Up of the pending Sync brings the other stamp. */
    method PairTwoStep(assoc: int, origin: int)
      requires Pairing() && awaiting && assoc == pendingSeq
      modifies `t1, `haveT1, `t1Seq, `awaiting
      ensures Pairing() && !awaiting && haveT1 && haveT2 && t1 == origin && t1Seq == t2Seq == assoc
    {
      t1, t1Seq, haveT1 := origin, assoc, true;
      awaiting := false;
    }

    /** handle_sync. Without a hardware stamp nothing changes. */
    method HandleSync(seqId: int, tsValid: bool, stamp: int, assist: bool, origin: int, fit: Fit)
      requires Valid()
      modifies this, servo, servo.win
      ensures Valid() && accepted == old(accepted) && meanPath == old(meanPath)
      ensures !tsValid ==> unchanged(this) && unchanged(servo)
      ensures tsValid && assist ==> awaiting && haveT2 && t2 == stamp && pendingSeq == t2Seq == seqId
      ensures tsValid && assist ==> unchanged(servo) && steps == old(steps)
      ensures tsValid && !assist ==> !awaiting && !haveT1 && !haveT2 && t2 == stamp
      ensures tsValid && !assist ==>
        Computed(old(Where()), Sync(seqId, seqId, origin, stamp, old(Epoch())), fit, old(turns), old(steps), old(stepCount))
    {
      hide Pairing, Consistent, Computed;
      if !tsValid { return; }
      if assist {
        AwaitFollowUp(seqId, stamp);
      } else {
        PairOneStep(seqId, stamp, origin);
        ComputeOffset(fit, Where(), Sync(seqId, seqId, origin, stamp, Epoch()));
      }
    }

    /** handle_followup: only the answer to the pending Sync counts. */
    method HandleFollowUp(assoc: int, origin: int, fit: Fit)
      requires Valid()
      modifies this, servo, servo.win
      ensures Valid() && accepted == old(accepted) && meanPath == old(meanPath)
      ensures !old(awaiting) || assoc != old(pendingSeq) ==> unchanged(this) && unchanged(servo)
      ensures old(awaiting) && assoc == old(pendingSeq) ==> !awaiting && !haveT1 && !haveT2
      ensures old(awaiting) && assoc == old(pendingSeq) ==>
        Computed(old(Where()), Sync(assoc, assoc, origin, old(t2), old(Epoch())), fit, old(turns), old(steps), old(stepCount))
    {
      hide Pairing, Consistent, Computed;
      if !awaiting { return; }
      if assoc != pendingSeq { return; }
      PairTwoStep(assoc, origin);
      ComputeOffset(fit, Where(), Sync(assoc, assoc, origin, t2, Epoch()));
    }

    /** send_delay_req: t3 is stamped when the request leaves, if it does. */
    method SendDelayReq(sent: bool, stamp: int)
      requires Valid()
      modifies `t3, `haveT3, `t3Epoch
      ensures Valid()
      ensures if sent then haveT3 && t3 == stamp && t3Epoch == Epoch() else unchanged(this)
    {
      hide Consistent;
      if sent {
        t3 := stamp;
        haveT3 := true;
        t3Epoch := Epoch();
      }
    }

    /** handle_delay_resp: a response to a request of ours, whichever, completes one
        sample, if there is a t2 - t1 to go with it and the result is that of a LAN. */
    method HandleDelayResp(forUs: bool, t4: int)
      requires Valid()
      modifies `haveT3, `pathAcc, `pathN, `batch, `meanPath, `pathFresh, `accepted, `turns
      ensures Valid()
      ensures !forUs ==> unchanged(this)
      ensures forUs ==> !haveT3
      ensures var d := TruncDiv(lastMs + (t4 - t3), 2);
        if forUs && old(haveT3) && haveMs && 0 <= d <= 10000000 then
          batch == old(batch) + [d]
          && accepted == old(accepted) + [PathSample(lastSync, lastTracked, msFrom, lastMs, t3, t4, d, t3Epoch, Epoch())]
          && meanPath == (if Count(old(batch)) + 1 >= 4 then Mean(batch) else old(meanPath))
        else batch == old(batch) && accepted == old(accepted) && meanPath == old(meanPath)
      ensures pathFresh == (old(pathFresh) || (|batch| > |old(batch)| && Count(old(batch)) + 1 >= 4 && servo.estDone))
      ensures turns == old(turns) + if pathFresh != old(pathFresh) then [Refreshed] else []
    {
      hide Acc, Count, Mean, Consistent;
      if !forUs { return; }
      if !haveT3 { return; }
      haveT3 := false;
      if !haveMs { return; }
      var d := TruncDiv(lastMs + (t4 - t3), 2);
      if d < 0 || d > PATH_MAX_NS { return; }
      TakeSample(t4, d);
    }

    /** A sample is accepted and averaged. */
    method TakeSample(t4: int, d: int)
      requires Consistent() && haveMs && t3Epoch == Epoch() && d == TruncDiv(lastMs + (t4 - t3), 2) && 0 <= d <= PATH_MAX_NS
      modifies `pathAcc, `pathN, `batch, `meanPath, `pathFresh, `accepted, `turns
      ensures Consistent() && batch == old(batch) + [d]
      ensures accepted == old(accepted) + [PathSample(lastSync, lastTracked, msFrom, lastMs, t3, t4, d, t3Epoch, Epoch())]
      ensures meanPath == if Count(old(batch)) + 1 >= PD_MIN_SAMPLES then Mean(batch) else old(meanPath)
      ensures pathFresh == (old(pathFresh) || (Count(old(batch)) + 1 >= PD_MIN_SAMPLES && servo.estDone))
      ensures turns == old(turns) + if pathFresh != old(pathFresh) then [Refreshed] else []
    {
      hide Acc, Count, Mean, PtpServo.PtpServo.Valid, PtpServo.PtpServo.View, Averaging, FreshMean, Stored, Filtering, Running, History;
      Accept(t4, d);
      Accumulate(d);
    }

    /** The sample goes on record. */
    ghost method Accept(t4: int, d: int)
      requires Stored() && haveMs && History() && t3Epoch == Epoch() && d == TruncDiv(lastMs + (t4 - t3), 2) && 0 <= d <= PATH_MAX_NS
      modifies `accepted
      ensures History() && accepted == old(accepted) + [PathSample(lastSync, lastTracked, msFrom, lastMs, t3, t4, d, t3Epoch, Epoch())]
    {
      hide OriginOk;
      accepted := accepted + [PathSample(lastSync, lastTracked, msFrom, lastMs, t3, t4, d, t3Epoch, Epoch())];
    }

    /** The sliding average takes one sample. */
    method Accumulate(d: int)
      requires Averaging() && FreshMean() && Running() && 0 <= d <= PATH_MAX_NS
      modifies `pathAcc, `pathN, `batch, `meanPath, `pathFresh, `turns
      ensures Averaging() && FreshMean() && Running() && batch == old(batch) + [d]
      ensures meanPath == if Count(old(batch)) + 1 >= PD_MIN_SAMPLES then Mean(batch) else old(meanPath)
      ensures pathFresh == (old(pathFresh) || (Count(old(batch)) + 1 >= PD_MIN_SAMPLES && servo.estDone))
      ensures turns == old(turns) + if pathFresh != old(pathFresh) then [Refreshed] else []
    {
      hide Acc, Count, Mean, Running;
      CountRange(batch);
      Appended(batch, d);
      batch := batch + [d];
      pathAcc := pathAcc + d;
      pathN := pathN + 1;
      if pathN >= PD_MIN_SAMPLES {
        if servo.estDone && !pathFresh { Refresh(); }
        meanPath := pathAcc / pathN;
        if pathN > PD_SLIDE {
          pathAcc := pathAcc / 2;
          pathN := pathN / 2;
        }
      }
    }

    /** The path delay has been measured since the frequency fix. */
    method Refresh()
      requires Running() && !pathFresh
      modifies `pathFresh, `turns
      ensures Running() && pathFresh && turns == old(turns) + [Refreshed]
    {
      hide Proceeds, PtpServo.PtpServo.View;
      pathFresh := true;
      turns := turns + [Refreshed];
      ProceedsNext(Start(), turns);
    }

    /** Whenever compute_offset uses the mean, it lies between the smallest sample accepted
        since the average was reset and 10/9 of the largest. */
    lemma MeanIsBounded(lo: int, hi: int)
      requires Valid() && pathFresh && 0 <= lo <= hi && Within(batch, lo, hi)
      ensures lo <= meanPath && 9 * meanPath <= 10 * hi
    {
      MeanRange(batch, lo, hi);
    }

    /** Over everything this slave has done: the clock was snapped at most once for each
        frequency estimate. */
    lemma SnappedOncePerEstimate()
      requires Valid()
      ensures SnapCount(Start(), turns) <= EstimateCount(Start(), turns)
    {
      OneSnapPerEstimate(Start(), turns);
    }
  }
}
