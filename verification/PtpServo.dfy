/** The PTP servo's state, updated in place, with its circular window. */
module PtpServo {
  import opened Arith
  import opened LowEdge
  import opened ServoSpec
  import opened ServoLaws

  class PtpServo {
    var locked: bool
    var offsetNs: int
    var filteredNs: int
    var ratePpb: int
    var integralNs: int
    var appliedPpb: int
    const win: array<int>
    var winPos: nat
    var winCount: nat
    var winN4: nat
    var compNs: int
    var lastTNs: int
    var lockStreak: nat
    var unlockStreak: nat
    var jumpRun: nat
    var jumpStrikes: nat
    var lastJumpTNs: int
    var estDone: bool
    var estN: nat
    var estT0Ns: int

    ghost var hist: seq<int>            // every sample since the filter was cleared
    ghost var inputs: seq<Input>        // everything this servo was told

    /** Sample k is stored in place k mod 32: the array holds the newest 32. */
    ghost predicate Window()
      reads `winPos, `winCount, `hist, win
    {
      && win.Length == WIN_LOCKED && winPos < WIN_LOCKED
      && winCount == Min(|hist|, WIN_LOCKED)
      && winPos == Slot(|hist|)
      && forall k {:trigger hist[k]} :: |hist| - winCount <= k < |hist| ==> win[Slot(k)] == hist[k]
    }

    /** Where sample k goes. */
    static function Slot(k: nat): (i: nat)
      ensures i < WIN_LOCKED
    {
      k % WIN_LOCKED
    }

    ghost function View(): Servo
      reads `locked, `ratePpb, `integralNs, `appliedPpb, `hist, `winN4, `compNs, `lastTNs, `lockStreak, `unlockStreak,
        `jumpRun, `jumpStrikes, `lastJumpTNs, `estDone, `estN, `estT0Ns
    {
      Servo(locked, ratePpb, integralNs, appliedPpb, hist, winN4, compNs, lastTNs, lockStreak, unlockStreak,
            jumpRun, jumpStrikes, lastJumpTNs, estDone, estN, estT0Ns)
    }

    /** The state is where the inputs have led. */
    ghost predicate Running()
      reads this
    {
      View() == RunServo(Initial(), inputs)
    }

    ghost predicate Valid()
      reads this, win
    {
      Window() && Inv(View()) && Running()
    }

    /** The counters of this servo are what an observer of it has counted. */
    lemma CountersAreObserved()
      requires Valid() && Timed(inputs)
      ensures Tracks(View(), Observed(Initial(), inputs))
    {
      EveryRun(inputs);
    }

    lemma ViewFlags()
      ensures View().estDone == estDone && View().locked == locked && View().window == hist
    {}

    lemma ValidInv()
      requires Valid()
      ensures Inv(View())
    {}

    constructor ()
      ensures Valid() && View() == Initial() && fresh(win)
    {
      win := new int[WIN_LOCKED];
      locked, offsetNs, filteredNs, ratePpb, integralNs, appliedPpb := false, 0, 0, 0, 0, 0;
      winPos, winCount, winN4, compNs, lastTNs := 0, 0, 0, 0, 0;
      lockStreak, unlockStreak, jumpRun, jumpStrikes, lastJumpTNs := 0, 0, 0, 0, 0;
      estDone, estN, estT0Ns, hist, inputs := false, 0, 0, [], [];
      new;
      hide Inv;
      InitialInv();
    }

    /** The caller has stepped the clock itself: forget the window. */
    method Forget()
      requires Valid()
      modifies `winPos, `winCount, `compNs, `hist, `inputs
      ensures Valid() && View() == ServoSpec.ClearFilter(old(View())) && inputs == old(inputs) + [Input.Forget]
    {
      hide Window, RunServo;
      RunNext(Initial(), inputs, Input.Forget);
      ClearFilter();
      inputs := inputs + [Input.Forget];
    }

    /** ptp_servo_clear_filter. */
    method ClearFilter()
      requires Window()
      modifies `winPos, `winCount, `compNs, `hist
      ensures Window() && View() == ServoSpec.ClearFilter(old(View()))
    {
      winPos, winCount, compNs := 0, 0, 0;
      hist := [];
    }

    /** The circular store of one compensated sample. */
    method Store(v: int)
      requires Window()
      modifies `winPos, `winCount, `hist, win
      ensures Window() && hist == old(hist) + [v]
    {
      NextSlot(|hist|);
      OlderSlots(|hist|, winCount);
      hide Slot;
      win[winPos] := v;
      winPos := (winPos + 1) % WIN_LOCKED;
      if winCount < WIN_LOCKED { winCount := winCount + 1; }
      hist := hist + [v];
    }

    static lemma NextSlot(n: nat)
      ensures (Slot(n) + 1) % WIN_LOCKED == Slot(n + 1)
    {}

    /** The newest sample but 31 and those after it keep their places. */
    static lemma OlderSlots(n: nat, count: nat)
      requires count <= WIN_LOCKED && count <= n
      ensures forall k {:trigger Slot(k)} :: n - count < k < n ==> Slot(k) != Slot(n)
      ensures count < WIN_LOCKED ==> forall k {:trigger Slot(k)} :: n - count <= k < n ==> Slot(k) != Slot(n)
    {
      forall k | 0 <= k && n - WIN_LOCKED < k < n
        ensures Slot(k) != Slot(n)
      {
        ModInjective(k, n, WIN_LOCKED);
      }
    }

    /** Going back from the write position goes back in time. */
    static lemma SlotBack(n: nat, i: nat)
      requires i < WIN_LOCKED && i < n
      ensures (Slot(n) + WIN_LOCKED - 1 - i) % WIN_LOCKED == Slot(n - 1 - i)
    {
    }

    /** The n newest samples, newest first, in a scratch array. */
    method CopyNewest(n: nat) returns (tmp: array<int>)
      requires Window() && n <= winCount
      ensures fresh(tmp) && tmp.Length == WIN_LOCKED && tmp[..n] == Newest(hist, n)
    {
      hide Slot;
      tmp := new int[WIN_LOCKED](_ => 0);
      var i := 0;
      while i < n
        invariant 0 <= i <= n
        invariant forall k :: 0 <= k < i ==> tmp[k] == hist[|hist| - 1 - k]
      {
        SlotBack(|hist|, i);
        tmp[i] := win[(winPos + WIN_LOCKED - 1 - i) % WIN_LOCKED];
        i := i + 1;
      }
    }

    /** The window grows while locked and is short while acquiring. */
    method Widen()
      modifies `winN4
      ensures View() == old(View()).(n4 := NextN4(old(View())))
    {
      if locked {
        if winN4 < WIN_LOCKED * 4 { winN4 := winN4 + 1; }
      } else {
        winN4 := WIN_ACQ * 4;
      }
    }

    /** The low edge of the samples in use. */
    method TakeLowEdge() returns (f: int)
      requires Window() && hist != []
      ensures f == LowEdgeOf(View())
    {
      hide Sort, Newest, Window;
      var n := InUse();
      var tmp := CopyNewest(n);
      SortInPlace(tmp, n);
      assert Sort(Newest(hist, n)) == tmp[..n];
      f := tmp[..n][if n > 1 then 1 else n - 1] + compNs;
    }

    /** How many samples the filter looks at. */
    method InUse() returns (n: nat)
      requires Window() && hist != []
      ensures n == Used(View()) && 0 < n <= winCount
    {
      n := winN4 / 4;
      if n < WIN_ACQ { n := WIN_ACQ; }
      if n > winCount { n := winCount; }
    }

    /** window_push: store the sample, widen the window, take its low edge. */
    method WindowPush(offset: int) returns (f: int)
      requires Window()
      modifies `winPos, `winCount, `winN4, `hist, win
      ensures Window() && hist != []
      ensures View() == old(View()).(window := old(hist) + [offset - compNs], n4 := NextN4(old(View())))
      ensures f == LowEdgeOf(View())
    {
      hide SecondLowest, Newest, Sort;
      Store(offset - compNs);
      Widen();
      f := TakeLowEdge();
    }

    /** estimate: watch the drift unsteered, then seed the integral with it. */
    method Estimate(x: Sample) returns (ppb: int)
      requires !estDone
      modifies `estT0Ns, `estN, `integralNs, `ratePpb, `estDone, `appliedPpb
      ensures Output(View(), 0) == ServoSpec.Estimate(old(View()), x) && ppb == appliedPpb
    {
      if estN == 0 { estT0Ns := x.t; }
      estN := (estN + 1) % 256;
      var dt := x.t - estT0Ns;
      if dt < EST_MIN_NS || estN < EST_MIN_N || x.fit.NoFit? { return appliedPpb; }
      var total := appliedPpb - x.fit.ppb;
      if total > 100000 { total := 100000; }
      if total < -100000 { total := -100000; }
      integralNs := TruncDiv(-(total * KI_DEN), 40000);
      ratePpb := total;
      estDone := true;
      appliedPpb := total;
      ppb := appliedPpb;
    }

    /** The proportional-integral loop. */
    method Gains(f: int)
      modifies `integralNs, `ratePpb, `appliedPpb
      ensures View() == ServoSpec.Gains(old(View()), f)
    {
      hide TimesKi, TimesKp, TruncDiv;
      integralNs := integralNs + f;
      if integralNs > INTEGRAL_MAX { integralNs := INTEGRAL_MAX; }
      if integralNs < -INTEGRAL_MAX { integralNs := -INTEGRAL_MAX; }
      var integralPpb := TruncDiv(-TimesKi(integralNs, locked), KI_DEN);
      if integralPpb > 100000 { integralPpb := 100000; }
      if integralPpb < -100000 { integralPpb := -100000; }
      ratePpb := integralPpb;
      var propPpb := TruncDiv(-TimesKp(f, locked), 1000);
      if propPpb > 50000 { propPpb := 50000; }
      if propPpb < -50000 { propPpb := -50000; }
      var out := integralPpb + propPpb;
      if out > 200000 { out := 200000; }
      if out < -200000 { out := -200000; }
      appliedPpb := out;
    }

    /** The lock and unlock streaks; a gain switch rescales the integral. */
    method Streaks(f: int)
      modifies `integralNs, `locked, `lockStreak, `unlockStreak
      ensures View() == ServoSpec.Streaks(old(View()), f)
    {
      var mag := if f < 0 then -f else f;
      if !locked {
        if mag < LOCK_NS {
          lockStreak := lockStreak + 1;
          if lockStreak >= LOCK_STREAK {
            locked := true;
            unlockStreak := 0;
            integralNs := TruncDiv(-(ratePpb * KI_DEN), 20000);
          }
        } else {
          lockStreak := 0;
        }
      } else {
        if mag > UNLOCK_NS {
          unlockStreak := unlockStreak + 1;
          if unlockStreak >= UNLOCK_STREAK {
            locked := false;
            lockStreak := 0;
            integralNs := TruncDiv(-(ratePpb * KI_DEN), 40000);
          }
        } else {
          unlockStreak := 0;
        }
      }
    }

    /** The phase the P term moved the clock by since the last Sync. */
    method Compensate(t: int)
      modifies `compNs, `lastTNs
      ensures View() == old(View()).(comp := Compensated(old(View()), t), lastT := t)
    {
      hide TruncDiv;
      if lastTNs != 0 && t > lastTNs && t - lastTNs < 2000000000 {
        compNs := compNs + TruncDiv((appliedPpb - ratePpb) * (t - lastTNs), 1000000000);
      }
      lastTNs := t;
    }

    /** The jump detector. */
    method Jump(f: int, t: int) returns (verdict: Verdict)
      requires Window()
      modifies `jumpRun, `jumpStrikes, `lastJumpTNs, `appliedPpb, `locked, `lockStreak, `integralNs, `winPos, `winCount, `compNs, `hist
      ensures Window()
      ensures ServoSpec.Jump(old(View()), f, t) == Judged(View(), verdict)
    {
      hide TruncDiv, Window;
      if !locked { return Feed; }
      var m := if f < 0 then -f else f;
      if m <= JUMP_NS {
        jumpRun := 0;
        return Feed;
      }
      jumpRun := jumpRun + 1;
      if jumpRun < JUMP_N {
        appliedPpb := ratePpb;
        return Hold;
      }
      verdict := CompleteJump(t);
    }

    /** Note one jump, and how many have come in quick succession. */
    method Strike(t: int)
      modifies `jumpRun, `jumpStrikes, `lastJumpTNs
      ensures View() == old(View()).(jumpRun := 0, lastJumpT := t, jumpStrikes := StrikesAt(old(View()), t))
    {
      jumpRun := 0;
      if lastJumpTNs != 0 && t - lastJumpTNs < STRIKE_NS {
        jumpStrikes := jumpStrikes + 1;
      } else {
        jumpStrikes := 1;
      }
      lastJumpTNs := t;
    }

    /** The eighth such update in a row: shift the phase and keep the lock, or, on the
        third jump in quick succession, give it up. */
    method CompleteJump(t: int) returns (verdict: Verdict)
      requires Window() && locked
      modifies `jumpRun, `jumpStrikes, `lastJumpTNs, `appliedPpb, `locked, `lockStreak, `integralNs, `winPos, `winCount, `compNs, `hist
      ensures Window()
      ensures Jumped(old(View()), t) == Judged(View(), verdict)
    {
      hide TruncDiv, Window, StrikesAt;
      Strike(t);
      if jumpStrikes < JUMP_STRIKES {
        ClearFilter();
        appliedPpb := ratePpb;
        return Shift;
      }
      jumpStrikes := 0;
      locked := false;
      lockStreak := 0;
      integralNs := TruncDiv(-(ratePpb * KI_DEN), 40000);
      return Feed;
    }

    /** The steered part of the update: filter, jumps, PI. */
    method Steer(x: Sample) returns (ppb: int, stepNs: int)
      requires Window() && estDone
      modifies this, win
      ensures inputs == old(inputs)
      ensures Window() && Output(View(), stepNs) == ServoSpec.Steer(old(View()), x) && ppb == appliedPpb
      ensures offsetNs == old(offsetNs) && filteredNs == LowEdgeOf(Pushed(old(View()), x))
    {
      hide ServoSpec.Gains, ServoSpec.Streaks, ServoSpec.Jump, LowEdgeOf, Pushed, View, Window;
      var f := Filter(x);
      filteredNs := f;
      stepNs := 0;
      var verdict := Jump(f, x.t);
      match verdict {
        case Feed =>
          Gains(f);
          Streaks(f);
        case Hold =>
        case Shift =>
          stepNs := -f;
      }
      ppb := Command();
    }

    method Command() returns (ppb: int)
      ensures ppb == appliedPpb == View().applied
    {
      ppb := appliedPpb;
    }

    /** The filter takes the sample, less what the P term moved, and gives its low edge. */
    method Filter(x: Sample) returns (f: int)
      requires Window()
      modifies `compNs, `lastTNs, `winPos, `winCount, `winN4, `hist, win
      ensures Window() && View() == Pushed(old(View()), x) && hist != [] && f == LowEdgeOf(View())
    {
      hide LowEdgeOf, Compensated, Window;
      Compensate(x.t);
      f := WindowPush(x.offset);
    }

    /** Everything a coarse step forgets besides the filter; the rate stays. */
    method Restart()
      modifies `integralNs, `lastTNs, `locked, `lockStreak, `estDone, `estN, `appliedPpb
      ensures View() == old(View()).(integral := 0, lastT := 0, locked := false, lockStreak := 0,
                                     estDone := false, estN := 0, applied := old(View()).rate)
      ensures appliedPpb == ratePpb
    {
      integralNs := 0;
      lastTNs := 0;
      Unlock();
      RestartEstimate();
    }

    method Unlock()
      modifies `locked, `lockStreak
      ensures View() == old(View()).(locked := false, lockStreak := 0)
    {
      locked := false;
      lockStreak := 0;
    }

    method RestartEstimate()
      modifies `estDone, `estN, `appliedPpb
      ensures View() == old(View()).(estDone := false, estN := 0, applied := old(View()).rate) && appliedPpb == ratePpb
    {
      estDone := false;
      estN := 0;
      appliedPpb := ratePpb;
    }

    /** The coarse step of the update. */
    method CoarseStep(offset: int) returns (ppb: int, stepNs: int)
      requires Window()
      modifies `integralNs, `winPos, `winCount, `compNs, `hist, `lastTNs, `locked, `lockStreak, `estDone, `estN, `appliedPpb
      ensures Window() && Output(View(), stepNs) == ServoSpec.CoarseStep(old(View()), offset) && ppb == appliedPpb
    {
      hide Window;
      stepNs := -offset;
      ClearFilter();
      Restart();
      ppb := appliedPpb;
    }

    /** ptp_servo_update. */
    method Update(x: Sample) returns (ppb: int, stepNs: int)
      requires Valid()
      modifies this, win
      ensures Valid() && inputs == old(inputs) + [Measure(x)]
      ensures Corrects(old(View()), x, View(), stepNs)
      ensures Output(View(), stepNs) == ServoSpec.Update(old(View()), x) && ppb == appliedPpb
      ensures offsetNs == x.offset
      ensures old(estDone) && !Coarse(x) ==> filteredNs == LowEdgeOf(Pushed(old(View()), x))
      ensures !old(estDone) || Coarse(x) ==> filteredNs == old(filteredNs)
      ensures old(estDone) && stepNs == 0 ==> hist != [] && filteredNs == LowEdgeOf(View())
    {
      hide Inv, RunServo, Window, View, ServoSpec.Update, LowEdgeOf, Pushed, Coarse, Corrects;
      RunNext(Initial(), inputs, Measure(x));
      UpdateInv(View(), x);
      UpdateCorrects(View(), x);
      UsedLowEdge(x);
      ppb, stepNs := Measured(x);
      ViewFlags();
      inputs := inputs + [Measure(x)];
    }

    /** The low edge used is the one the window then has. */
    lemma UsedLowEdge(x: Sample)
      requires Inv(View())
      ensures var o := ServoSpec.Update(View(), x);
        estDone && o.step == 0 ==> !Coarse(x) && o.next.window != [] && LowEdgeOf(o.next) == LowEdgeOf(Pushed(View(), x))
    {
      WindowAfter(View(), x);
      hide ServoSpec.Update, LowEdgeOf, Pushed, Inv;
    }

    /** One measurement, by kind. */
    method Measured(x: Sample) returns (ppb: int, stepNs: int)
      requires Window()
      modifies this, win
      ensures Window() && inputs == old(inputs)
      ensures Output(View(), stepNs) == ServoSpec.Update(old(View()), x) && ppb == appliedPpb
      ensures offsetNs == x.offset
      ensures old(estDone) && !Coarse(x) ==> filteredNs == LowEdgeOf(Pushed(old(View()), x))
      ensures !old(estDone) || Coarse(x) ==> filteredNs == old(filteredNs)
    {
      hide Window, View, ServoSpec.Steer, ServoSpec.CoarseStep, ServoSpec.Estimate, LowEdgeOf, Pushed;
      ViewFlags();
      offsetNs := x.offset;
      if x.offset > STEP_NS || x.offset < -STEP_NS {
        ppb, stepNs := CoarseStep(x.offset);
      } else if !estDone {
        ppb := Estimate(x);
        stepNs := 0;
      } else {
        ppb, stepNs := Steer(x);
      }
    }
  }
}
