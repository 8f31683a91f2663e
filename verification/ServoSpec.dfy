/** The PTP servo as a state machine: low-edge filter, gain-switched PI loop, and
    the lock, jump and strike hysteresis. Times and offsets are nanoseconds. */
module ServoSpec {
  import opened Arith
  import opened LowEdge

  const LOCK_NS := 3000
  const UNLOCK_NS := 10000
  const LOCK_STREAK := 8
  const UNLOCK_STREAK := 8
  const WIN_LOCKED := 32
  const WIN_ACQ := 8
  const JUMP_NS := 8000
  const JUMP_N := 8
  const JUMP_STRIKES := 3
  const STRIKE_NS := 30000000000
  const STEP_NS := 1000000
  const INTEGRAL_MAX := 100000000
  const KI_DEN := 1000000
  const EST_MIN_NS := 4000000000
  const EST_MIN_N := 12

  datatype Servo = Servo(
    locked: bool,
    rate: int,              // the integral only: the rate estimate, ppb
    integral: int,
    applied: int,           // last command, ppb
    window: seq<int>,       // compensated samples since the filter was cleared
    n4: nat,                // window in use, x4
    comp: int,
    lastT: int,
    lockStreak: nat, unlockStreak: nat,
    jumpRun: nat, jumpStrikes: nat, lastJumpT: int,
    estDone: bool, estN: nat, estT0: int)

  function Initial(): Servo
  {
    Servo(false, 0, 0, 0, [], 0, 0, 0, 0, 0, 0, 0, 0, false, 0, 0)
  }

  /** One offset measurement; `fit` is the least-squares slope when there is one. */
  datatype Sample = Sample(offset: int, t: int, fit: Fit)

  datatype Fit = NoFit | Slope(ppb: int)

  datatype Output = Output(next: Servo, step: int)

  // ----- gains -------------------------------------------------------------

  /** x times the integral gain of a mode, in ppm. */
  function TimesKi(x: int, locked: bool): int { if locked then x * 20000 else x * 40000 }

  /** f times the proportional gain of a mode, in thousandths. */
  function TimesKp(f: int, locked: bool): int
  {
    var big := f > 1000 || f < -1000;
    if locked then (if big then f * 500 else f * 300) else (if big then f * 700 else f * 500)
  }

  /** The rate an integral stands for under the gain of a mode. */
  function RateOf(integral: int, locked: bool): int
  {
    Clamp(TruncDiv(-TimesKi(integral, locked), KI_DEN), -100000, 100000)
  }

  /** The phase term for a filtered offset. */
  function PhaseTerm(f: int, locked: bool): int
  {
    Clamp(TruncDiv(-TimesKp(f, locked), 1000), -50000, 50000)
  }

  /** The integral that stands for a rate in a mode: what a gain switch stores. */
  function Rescaled(rate: int, locked: bool): int
  {
    if locked then TruncDiv(-(rate * KI_DEN), 20000) else TruncDiv(-(rate * KI_DEN), 40000)
  }

  /** A gain switch changes the rate estimate by exactly nothing. */
  lemma GainSwitchKeepsRate(rate: int, locked: bool)
    requires -100000 <= rate <= 100000
    ensures RateOf(Rescaled(rate, locked), locked) == rate
    ensures Abs(Rescaled(rate, locked)) <= 5000000
  {
    assert Rescaled(rate, locked) == if locked then -(rate * 50) else -(rate * 25);
  }

  // ----- filter ------------------------------------------------------------

  function NextN4(s: Servo): nat
  {
    if s.locked then (if s.n4 < WIN_LOCKED * 4 then s.n4 + 1 else s.n4) else WIN_ACQ * 4
  }

  /** How many of the newest samples the filter looks at. */
  function WindowUse(n4: nat, stored: nat): nat
  {
    Min(Max(n4 / 4, WIN_ACQ), stored)
  }

  /** The n newest samples, newest first. */
  function Newest(w: seq<int>, n: nat): (r: seq<int>)
    requires n <= |w|
    ensures |r| == n
  {
    seq(n, i requires 0 <= i < n => w[|w| - 1 - i])
  }

  function Compensated(s: Servo, t: int): int
  {
    if s.lastT != 0 && t > s.lastT && t - s.lastT < 2000000000
    then s.comp + TruncDiv((s.applied - s.rate) * (t - s.lastT), 1000000000)
    else s.comp
  }

  /** The servo after the filter has taken a sample. */
  function Pushed(s: Servo, x: Sample): Servo
  {
    var comp := Compensated(s, x.t);
    s.(comp := comp, lastT := x.t, window := s.window + [x.offset - comp], n4 := NextN4(s))
  }

  function Used(s: Servo): nat
  {
    WindowUse(s.n4, Min(|s.window|, WIN_LOCKED))
  }

  /** The filtered offset: the low edge of the newest samples, as of now. */
  function LowEdgeOf(s: Servo): int
    requires s.window != []
  {
    SecondLowest(Newest(s.window, Used(s))) + s.comp
  }

  // ----- the update --------------------------------------------------------

  function ClearFilter(s: Servo): Servo { s.(window := [], comp := 0) }

  function CoarseStep(s: Servo, offset: int): Output
  {
    Output(ClearFilter(s).(integral := 0, lastT := 0, locked := false, lockStreak := 0,
                           estDone := false, estN := 0, applied := s.rate),
           -offset)
  }

  function Estimate(s: Servo, x: Sample): Output
  {
    var t0 := if s.estN == 0 then x.t else s.estT0;
    var n := (s.estN + 1) % 256;
    var u := s.(estT0 := t0, estN := n);
    if x.t - t0 < EST_MIN_NS || n < EST_MIN_N || x.fit.NoFit? then Output(u, 0)
    else
      var total := Clamp(s.applied - x.fit.ppb, -100000, 100000);
      Output(u.(integral := Rescaled(total, false), rate := total, estDone := true, applied := total), 0)
  }

  /** The PI loop proper. */
  function Gains(s: Servo, f: int): Servo
  {
    var integral := Clamp(s.integral + f, -INTEGRAL_MAX, INTEGRAL_MAX);
    var rate := RateOf(integral, s.locked);
    s.(integral := integral, rate := rate, applied := Clamp(rate + PhaseTerm(f, s.locked), -200000, 200000))
  }

  /** What the update says about locking. */
  function Streaks(s: Servo, f: int): Servo
  {
    if !s.locked then
      if Abs(f) < LOCK_NS then
        if s.lockStreak + 1 >= LOCK_STREAK
        then s.(lockStreak := s.lockStreak + 1, locked := true, unlockStreak := 0, integral := Rescaled(s.rate, true))
        else s.(lockStreak := s.lockStreak + 1)
      else s.(lockStreak := 0)
    else
      if Abs(f) > UNLOCK_NS then
        if s.unlockStreak + 1 >= UNLOCK_STREAK
        then s.(unlockStreak := s.unlockStreak + 1, locked := false, lockStreak := 0, integral := Rescaled(s.rate, false))
        else s.(unlockStreak := s.unlockStreak + 1)
      else s.(unlockStreak := 0)
  }

  function Pi(s: Servo, f: int): Servo { Streaks(Gains(s, f), f) }

  /** A completed jump: the strike count it makes. */
  function StrikesAt(s: Servo, t: int): nat
  {
    if s.lastJumpT != 0 && t - s.lastJumpT < STRIKE_NS then s.jumpStrikes + 1 else 1
  }

  /** What the jump detector decides about a filtered offset: feed it to the PI
      loop, hold the rate for now, or take it out as one small step. */
  datatype Verdict = Feed | Hold | Shift

  datatype Judged = Judged(next: Servo, verdict: Verdict)

  /** A jump: the run is complete. */
  function Jumped(p: Servo, t: int): Judged
  {
    var strikes := StrikesAt(p, t);
    var q := p.(jumpRun := 0, lastJumpT := t, jumpStrikes := strikes);
    if strikes < JUMP_STRIKES then Judged(ClearFilter(q).(applied := q.rate), Shift)
    else Judged(q.(jumpStrikes := 0, locked := false, lockStreak := 0, integral := Rescaled(q.rate, false)), Feed)
  }

  function Jump(p: Servo, f: int, t: int): Judged
  {
    if !p.locked then Judged(p, Feed)
    else if Abs(f) <= JUMP_NS then Judged(p.(jumpRun := 0), Feed)
    else if p.jumpRun + 1 < JUMP_N then Judged(p.(jumpRun := p.jumpRun + 1, applied := p.rate), Hold)
    else Jumped(p, t)
  }

  function Steer(s: Servo, x: Sample): Output
  {
    var p := Pushed(s, x);
    var f := LowEdgeOf(p);
    var j := Jump(p, f, x.t);
    match j.verdict
    case Feed => Output(Pi(j.next, f), 0)
    case Hold => Output(j.next, 0)
    case Shift => Output(j.next, -f)
  }

  predicate Coarse(x: Sample) { x.offset > STEP_NS || x.offset < -STEP_NS }

  function Update(s: Servo, x: Sample): Output
  {
    if Coarse(x) then CoarseStep(s, x.offset)
    else if !s.estDone then Estimate(s, x)
    else Steer(s, x)
  }

  // ----- what every state keeps --------------------------------------------

  ghost predicate Inv(s: Servo)
  {
    && -100000 <= s.rate <= 100000
    && -50000 <= s.applied - s.rate <= 50000
    && (s.estDone ==> s.rate == RateOf(s.integral, s.locked))
    && Abs(s.integral) <= INTEGRAL_MAX
    && (s.locked ==> s.estDone)
    && (!s.estDone ==> s.lockStreak == 0)
    && s.unlockStreak == 0
    && (!s.locked ==> s.lockStreak < LOCK_STREAK)
    && s.jumpRun < JUMP_N && s.jumpStrikes < JUMP_STRIKES
    && s.n4 <= WIN_LOCKED * 4
    && (s.locked ==> s.n4 >= WIN_ACQ * 4)
    && s.estN < 256
  }

  lemma InitialInv()
    ensures Inv(Initial())
  {
  }

  lemma PiInv(s: Servo, f: int)
    requires Inv(s) && s.estDone && s.n4 >= WIN_ACQ * 4
    requires s.locked ==> Abs(f) <= UNLOCK_NS
    ensures Inv(Pi(s, f))
  {
    GainSwitchKeepsRate(Gains(s, f).rate, true);
  }

  lemma JumpInv(p: Servo, f: int, t: int)
    requires Inv(p) && p.estDone && p.n4 >= WIN_ACQ * 4
    ensures var j := Jump(p, f, t);
      Inv(j.next) && j.next.estDone && j.next.n4 == p.n4 && (j.verdict.Feed? && j.next.locked ==> Abs(f) <= JUMP_NS)
  {
    GainSwitchKeepsRate(p.rate, false);
  }

  /** Every measurement keeps the rate estimate equal to the clamped integral times
      the gain of the mode it is in, and the unlock streak at zero. */
  lemma UpdateInv(s: Servo, x: Sample)
    requires Inv(s)
    ensures Inv(Update(s, x).next)
  {
    if Coarse(x) {
    } else if !s.estDone {
      if x.fit.Slope? { GainSwitchKeepsRate(Clamp(s.applied - x.fit.ppb, -100000, 100000), false); }
    } else {
      var p := Pushed(s, x);
      var f := LowEdgeOf(p);
      JumpInv(p, f, x.t);
      if Jump(p, f, x.t).verdict.Feed? { PiInv(Jump(p, f, x.t).next, f); }
    }
  }

  /** The command stays well inside the output clamp, which therefore never acts. */
  lemma CommandBounds(s: Servo, f: int)
    requires Inv(s)
    ensures Abs(s.applied) <= 150000
    ensures Pi(s, f).applied == Gains(s, f).rate + PhaseTerm(f, s.locked)
  {
  }

  /** The filter always looks at between 1 and 32 of the newest samples: 8 until
      locked, then a quarter sample more per update, never more than it has. */
  lemma WindowGrowth(s: Servo, x: Sample)
    requires Inv(s)
    ensures var p := Pushed(s, x);
      && 1 <= Used(p) <= 32 && Used(p) <= |p.window|
      && (!s.locked ==> Used(p) == Min(8, |p.window|))
      && (s.locked ==> Used(p) == Min(Min(s.n4 + 1, 128) / 4, Min(|p.window|, 32)))
  {
  }

  /** What an update leaves in the filter: nothing once it steps the clock; else, when it
      steers, one more sample, and the low edge it has just used. */
  lemma WindowAfter(s: Servo, x: Sample)
    requires Inv(s)
    ensures var o := Update(s, x);
      && (o.step != 0 ==> o.next.window == [])
      && (o.step == 0 && !s.estDone ==> o.next.window == s.window)
      && (o.step == 0 && s.estDone ==>
            && !Coarse(x) && o.next.window == s.window + [x.offset - Compensated(s, x.t)]
            && o.next.comp == Compensated(s, x.t) && 1 <= Used(o.next) <= WIN_LOCKED && Used(o.next) <= |o.next.window|
            && LowEdgeOf(o.next) == LowEdgeOf(Pushed(s, x)))
  {
    hide RateOf, PhaseTerm, Rescaled, Compensated, TruncDiv, Newest, SecondLowest;
  }

  // ----- whole runs, observed from outside ---------------------------------

  datatype Kind = Stepped | Estimating | Steered

  /** What an observer sees of one update. */
  datatype Obs = Obs(t: int, wasLocked: bool, kind: Kind, f: int)

  function Observe(s: Servo, x: Sample): Obs
  {
    if Coarse(x) then Obs(x.t, s.locked, Stepped, 0)
    else if !s.estDone then Obs(x.t, s.locked, Estimating, 0)
    else Obs(x.t, s.locked, Steered, LowEdgeOf(Pushed(s, x)))
  }

  predicate Beyond(o: Obs) { o.kind.Steered? && o.wasLocked && Abs(o.f) > 8000 }

  predicate CalmLocked(o: Obs) { o.kind.Steered? && o.wasLocked && Abs(o.f) <= 8000 }

  predicate CalmUnlocked(o: Obs) { o.kind.Steered? && !o.wasLocked && Abs(o.f) < 3000 }

  /** Consecutive calm updates, unlocked, up to now. */
  function CalmRun(obs: seq<Obs>): nat
  {
    if obs == [] || !CalmUnlocked(obs[|obs| - 1]) then 0 else CalmRun(obs[..|obs| - 1]) + 1
  }

  /** Locked updates beyond the jump threshold since the last calm locked one or
      the last completed jump; other updates in between do not matter. */
  function JumpRun(obs: seq<Obs>): nat
  {
    if obs == [] then 0
    else
      var r, o := JumpRun(obs[..|obs| - 1]), obs[|obs| - 1];
      if Beyond(o) then (if r + 1 < 8 then r + 1 else 0)
      else if CalmLocked(o) then 0
      else r
  }

  /** When jumps were completed. */
  function Jumps(obs: seq<Obs>): seq<int>
  {
    if obs == [] then []
    else
      var before, o := obs[..|obs| - 1], obs[|obs| - 1];
      if Completes(before, o) then Jumps(before) + [o.t] else Jumps(before)
  }

  /** How many of the latest jumps each came less than 30 s after the one before. */
  function Chain(jumps: seq<int>): nat
  {
    if jumps == [] then 0
    else
      var n := |jumps| - 1;
      if n > 0 && jumps[n] - jumps[n - 1] < 30000000000 then Chain(jumps[..n]) + 1 else 1
  }

  /** The jumps completed since the last one that cost the lock. */
  function SinceLoss(obs: seq<Obs>): seq<int>
  {
    if obs == [] then []
    else
      var before, o := obs[..|obs| - 1], obs[|obs| - 1];
      if !Completes(before, o) then SinceLoss(before)
      else if Chain(SinceLoss(before) + [o.t]) >= 3 then []
      else SinceLoss(before) + [o.t]
  }

  /** This update is the one that makes a jump. */
  predicate Completes(before: seq<Obs>, o: Obs) { Beyond(o) && JumpRun(before) + 1 >= 8 }

  /** The servo's counters agree with what an observer would count. */
  ghost predicate Tracks(s: Servo, obs: seq<Obs>)
  {
    && Inv(s)
    && (!s.locked ==> s.lockStreak == CalmRun(obs))
    && s.jumpRun == JumpRun(obs)
    && s.lastJumpT == (if Jumps(obs) == [] then 0 else Jumps(obs)[|Jumps(obs)| - 1])
    && (forall i :: 0 <= i < |Jumps(obs)| ==> Jumps(obs)[i] > 0)
    && s.jumpStrikes == Chain(SinceLoss(obs))
    && (SinceLoss(obs) != [] ==> s.lastJumpT != 0 && s.lastJumpT == SinceLoss(obs)[|SinceLoss(obs)| - 1])
  }

  lemma ObserveNext(obs: seq<Obs>, o: Obs)
    ensures var all := obs + [o];
      && all[..|all| - 1] == obs && all[|all| - 1] == o
      && CalmRun(all) == (if CalmUnlocked(o) then CalmRun(obs) + 1 else 0)
      && JumpRun(all) == (if Beyond(o) then (if JumpRun(obs) + 1 < JUMP_N then JumpRun(obs) + 1 else 0)
                          else if CalmLocked(o) then 0 else JumpRun(obs))
      && Jumps(all) == (if Completes(obs, o) then Jumps(obs) + [o.t] else Jumps(obs))
      && SinceLoss(all) == (if !Completes(obs, o) then SinceLoss(obs)
                            else if Chain(SinceLoss(obs) + [o.t]) >= JUMP_STRIKES then [] else SinceLoss(obs) + [o.t])
  {
    assert (obs + [o])[..|obs|] == obs;
  }

  lemma InvCounters(s: Servo)
    requires Inv(s)
    ensures s.jumpRun < JUMP_N && s.jumpStrikes < JUMP_STRIKES && s.unlockStreak == 0 && (s.locked ==> s.estDone)
    ensures (!s.estDone ==> s.lockStreak == 0) && (!s.locked ==> s.lockStreak < LOCK_STREAK)
  {}

  /** What one update does to the counters, by what is observed of it. */
  lemma UpdateCounters(s: Servo, x: Sample)
    requires Inv(s)
    ensures var o := Observe(s, x); var n := Update(s, x).next; var jump := Beyond(o) && s.jumpRun + 1 >= JUMP_N;
      && o.t == x.t
      && (!n.locked ==> n.lockStreak == if CalmUnlocked(o) then s.lockStreak + 1 else 0)
      && n.jumpRun == (if Beyond(o) then (if jump then 0 else s.jumpRun + 1) else if CalmLocked(o) then 0 else s.jumpRun)
      && n.lastJumpT == (if jump then x.t else s.lastJumpT)
      && n.jumpStrikes == (if !jump then s.jumpStrikes else if StrikesAt(s, x.t) < JUMP_STRIKES then StrikesAt(s, x.t) else 0)
      && (s.locked ==> (!n.locked <==> Coarse(x) || (jump && StrikesAt(s, x.t) >= JUMP_STRIKES)))
  {
    InvCounters(s);
    hide RateOf, LowEdgeOf, PhaseTerm, Rescaled, Compensated, NextN4, TruncDiv, Inv;
  }

  /** The strike count of a new jump is the length of the chain it ends. */
  lemma StrikeChains(s: Servo, obs: seq<Obs>, t: int)
    requires Tracks(s, obs)
    ensures StrikesAt(s, t) == Chain(SinceLoss(obs) + [t])
  {
    var js := SinceLoss(obs);
    assert (js + [t])[..|js|] == js;
  }

  /** One more update, and they still agree. Local receive times are positive. */
  lemma TracksNext(s: Servo, obs: seq<Obs>, x: Sample)
    requires Tracks(s, obs) && x.t > 0
    ensures Tracks(Update(s, x).next, obs + [Observe(s, x)])
  {
    UpdateInv(s, x);
    UpdateCounters(s, x);
    ObserveNext(obs, Observe(s, x));
    StrikeChains(s, obs, x.t);
    assert Chain([]) == 0;
    assert s.locked || !Beyond(Observe(s, x));
    assert !CalmUnlocked(Observe(s, x)) || !s.locked;
    hide Update, Observe, StrikesAt, Beyond, CalmLocked, CalmUnlocked, CalmRun, JumpRun, Jumps, SinceLoss, Chain, Inv;
  }

  /** Lock is gained exactly on the eighth calm update in a row. */
  lemma LockGained(s: Servo, obs: seq<Obs>, x: Sample)
    requires Tracks(s, obs) && !s.locked
    ensures Update(s, x).next.locked <==> CalmRun(obs + [Observe(s, x)]) == 8
  {
    ObserveNext(obs, Observe(s, x));
  }

  /** Lock is lost exactly by an offset beyond 1 ms, or by a jump that is the third,
      each less than 30 s after the one before, since a jump last cost the lock. */
  lemma LockLost(s: Servo, obs: seq<Obs>, x: Sample)
    requires Tracks(s, obs) && s.locked && x.t > 0
    ensures !Update(s, x).next.locked <==>
      Abs(x.offset) > 1000000 || (Completes(obs, Observe(s, x)) && Chain(SinceLoss(obs) + [x.t]) >= 3)
  {
    UpdateCounters(s, x);
    StrikeChains(s, obs, x.t);
    hide Update, Observe, StrikesAt, JumpRun, SinceLoss, Chain, Inv;
  }

  function BeyondCount(obs: seq<Obs>): nat
  {
    if obs == [] then 0 else BeyondCount(obs[..|obs| - 1]) + if Beyond(obs[|obs| - 1]) then 1 else 0
  }

  /** Behind a run of r lies a stretch with exactly r updates beyond the threshold
      and no calm locked update: the stretch a jump is made of. */
  lemma {:induction false} JumpNeedsRun(obs: seq<Obs>) returns (m: nat)
    ensures m <= |obs| && BeyondCount(obs[m..]) == JumpRun(obs)
    ensures forall i :: m <= i < |obs| ==> !CalmLocked(obs[i])
    decreases |obs|
  {
    if obs == [] { return 0; }
    var before, o := obs[..|obs| - 1], obs[|obs| - 1];
    if CalmLocked(o) || (Beyond(o) && JumpRun(before) + 1 >= JUMP_N) {
      m := |obs|;
    } else {
      m := JumpNeedsRun(before);
      assert obs[m..][..|obs| - m - 1] == before[m..];
    }
  }

  /** A jump is made of exactly eight locked updates beyond the threshold, with no calm
      locked one between. */
  lemma JumpIsEight(obs: seq<Obs>, o: Obs) returns (m: nat)
    requires |Jumps(obs + [o])| > |Jumps(obs)|
    ensures m <= |obs| && Beyond(o) && BeyondCount((obs + [o])[m..]) == 8
    ensures forall i :: m <= i < |obs| ==> !CalmLocked(obs[i])
  {
    var all := obs + [o];
    ObserveNext(obs, o);
    JumpRunBelow(obs);
    m := JumpNeedsRun(obs);
    assert all[m..][..|obs| - m] == obs[m..];
  }

  lemma {:induction false} JumpRunBelow(obs: seq<Obs>)
    ensures JumpRun(obs) < JUMP_N
  {
    if obs != [] { JumpRunBelow(obs[..|obs| - 1]); }
  }

  /** What the slave does to its servo: feed it, or forget the filter's window. */
  datatype Input = Measure(x: Sample) | Forget

  function Apply(s: Servo, i: Input): Servo
  {
    match i
    case Measure(x) => Update(s, x).next
    case Forget => ClearFilter(s)
  }

  function RunServo(s: Servo, ins: seq<Input>): Servo
    decreases |ins|
  {
    if ins == [] then s else RunServo(Apply(s, ins[0]), ins[1..])
  }

  lemma {:induction false} RunNext(s: Servo, ins: seq<Input>, i: Input)
    ensures RunServo(s, ins + [i]) == Apply(RunServo(s, ins), i)
    decreases |ins|
  {
    if ins != [] {
      RunNext(Apply(s, ins[0]), ins[1..], i);
      assert (ins + [i])[1..] == ins[1..] + [i];
    }
  }

  function Seen(s: Servo, i: Input): seq<Obs>
  {
    if i.Measure? then [Observe(s, i.x)] else []
  }

  function Observed(s: Servo, ins: seq<Input>): seq<Obs>
    decreases |ins|
  {
    if ins == [] then [] else Seen(s, ins[0]) + Observed(Apply(s, ins[0]), ins[1..])
  }

  ghost predicate Timed(ins: seq<Input>) { forall i :: 0 <= i < |ins| && ins[i].Measure? ==> ins[i].x.t > 0 }

  lemma TracksCleared(s: Servo, obs: seq<Obs>)
    requires Tracks(s, obs)
    ensures Tracks(ClearFilter(s), obs)
  {}

  /** Every reachable state of the servo. */
  lemma {:induction false} RunTracks(s: Servo, obs: seq<Obs>, ins: seq<Input>)
    requires Tracks(s, obs) && Timed(ins)
    ensures Tracks(RunServo(s, ins), obs + Observed(s, ins))
    decreases |ins|
  {
    hide Tracks, Update, ClearFilter, Observe;
    if ins == [] {
      assert obs + [] == obs;
    } else {
      var next := Apply(s, ins[0]);
      if ins[0].Measure? {
        TracksNext(s, obs, ins[0].x);
      } else {
        TracksCleared(s, obs);
        assert obs + [] == obs;
      }
      RunTracks(next, obs + Seen(s, ins[0]), ins[1..]);
      assert obs + Observed(s, ins) == (obs + Seen(s, ins[0])) + Observed(next, ins[1..]);
    }
  }

  lemma NothingSeen(none: seq<Obs>)
    requires |none| == 0
    ensures CalmRun(none) == JumpRun(none) == 0 && |Jumps(none)| == |SinceLoss(none)| == 0
  {}

  lemma NoChain(none: seq<int>)
    requires |none| == 0
    ensures Chain(none) == 0
  {}

  lemma StartTracks(none: seq<Obs>)
    requires |none| == 0
    ensures Tracks(Initial(), none)
  {
    InitialInv();
    NothingSeen(none);
    NoChain(SinceLoss(none));
    hide Inv, CalmRun, JumpRun, Jumps, SinceLoss, Chain;
  }

  lemma TracksBounds(s: Servo, obs: seq<Obs>)
    requires Tracks(s, obs)
    ensures s.unlockStreak == 0 && (s.estDone ==> s.rate == RateOf(s.integral, s.locked))
    ensures Abs(s.rate) <= 100000 && Abs(s.applied - s.rate) <= 50000 && Abs(s.applied) <= 150000
  {
    CommandBounds(s, 0);
  }

  /** Over every run from power-up: the counters are what an observer counts, the
      rate is the clamped integral times the current gain, and the unlock streak,
      whose threshold the jump branch always intercepts first, stays at zero. */
  lemma EveryRun(ins: seq<Input>)
    requires Timed(ins)
    ensures var s := RunServo(Initial(), ins);
      && Tracks(s, Observed(Initial(), ins)) && s.unlockStreak == 0
      && (s.estDone ==> s.rate == RateOf(s.integral, s.locked))
      && Abs(s.rate) <= 100000 && Abs(s.applied - s.rate) <= 50000 && Abs(s.applied) <= 150000
  {
    hide RunServo, Observed, Tracks, Inv, RateOf;
    var none: seq<Obs> := [];
    assert none + Observed(Initial(), ins) == Observed(Initial(), ins);
    StartTracks(none);
    RunTracks(Initial(), none, ins);
    TracksBounds(RunServo(Initial(), ins), Observed(Initial(), ins));
  }
}
