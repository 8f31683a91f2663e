/** What the media clock decides, tick by tick: when playout is re-anchored or
    stepped, and how the phase term of the rate moves. */
module MediaSpec {
  import opened Arith
  import opened Prelude

  const FF_MAX := 200000
  const PPB_CLAMP := 2000
  const TOTAL_MAX := FF_MAX + PPB_CLAMP
  const KP := 40
  const KI_NUM := 3
  const KI_DEN := 1000
  const INTEGRAL_MAX := 1000000
  const INTEGRAL_REACH := 653334   // what the integral can really get to
  const SLEW := 10                 // 100 ppb per second at 10 ticks per second
  const RESET_FRAMES := 480
  const BAND_MIN := 32
  const PERSIST := 5               // half a second of ticks

  datatype Clock = Clock(
    latency: nat,
    ff: int,
    applied: int,
    target: int,
    integral: int,
    armed: bool,
    anchored: bool,
    lastSteps: int,
    outOfBand: nat)

  /** What a tick finds: the PTP slave's state, the PTP time in samples if it can be
      read, and where playout is. */
  datatype Reading = Reading(locked: bool, rate: int, steps: int, now: Option<int>, ready: bool, playout: int)

  /** What it does to the jitter buffer. */
  datatype Action = Idle | Anchor(playout: int) | Shift(delta: int)

  /** A tick that got as far as judging the phase error. */
  datatype Eval = Eval(err: int, band: int, stepped: bool)

  datatype Outcome = Outcome(next: Clock, action: Action, log: seq<Eval>)

  function Initial(latency: nat): Clock { Clock(latency, 0, 0, 0, 0, false, false, 0, 0) }

  function Command(c: Clock): int { c.ff + c.applied }

  /** At most 10 ms, never more than half the latency, never under 32 frames. */
  function Band(latency: nat): int { Max(BAND_MIN, Min(RESET_FRAMES, latency / 2)) }

  predicate Hard(err: int) { Abs(err) > RESET_FRAMES }

  predicate Outside(e: Eval) { Abs(e.err) > e.band }

  // ----- the decisions -----------------------------------------------------

  function Anchoring(c: Clock, r: Reading): Outcome
  {
    if !r.ready || r.now.None? then Outcome(c, Idle, [])
    else Outcome(c.(integral := 0, anchored := true, lastSteps := r.steps), Anchor(r.now.value - c.latency), [])
  }

  function Arming(c: Clock, on: bool): Clock
  {
    if on then c.(armed := true) else c.(armed := false, applied := 0)
  }

  function Pi(integral: int, err: int): int { err * KP + TruncDiv(integral * KI_NUM, KI_DEN) }

  /** Integrate only while the output is inside the clamp. */
  function Wound(integral: int, err: int): int
  {
    if -PPB_CLAMP < Pi(integral, err) < PPB_CLAMP then Clamp(integral + err, -INTEGRAL_MAX, INTEGRAL_MAX) else integral
  }

  /** The armed phase loop: PI, clamp, slew. */
  function Regulate(c: Clock, err: int): Clock
  {
    var integral := Wound(c.integral, err);
    var target := Clamp(Pi(integral, err), -PPB_CLAMP, PPB_CLAMP);
    c.(integral := integral, target := target, applied := c.applied + Clamp(target - c.applied, -SLEW, SLEW))
  }

  /** A phase error that could be read: step, or regulate. */
  function Evaluate(c: Clock, err: int): Outcome
  {
    var band := Band(c.latency);
    var out := if Abs(err) > band then c.outOfBand + 1 else 0;
    if Hard(err) || out >= PERSIST then
      Outcome(c.(outOfBand := 0, integral := 0), Shift(err), [Eval(err, band, true)])
    else
      var d := c.(outOfBand := out);
      Outcome(if c.armed then Regulate(d, err) else d, Idle, [Eval(err, band, false)])
  }

  function Tick(c: Clock, r: Reading): Outcome
  {
    if !r.locked then Outcome(c, Idle, [])
    else
      var d := c.(ff := Clamp(r.rate, -FF_MAX, FF_MAX));
      if r.steps != c.lastSteps || !c.anchored then Anchoring(d, r)
      else if r.now.None? then Outcome(d, Idle, [])
      else Evaluate(d, r.now.value - c.latency - r.playout)
  }

  // ----- one step ----------------------------------------------------------

  ghost predicate Inv(c: Clock)
  {
    && Abs(c.applied) <= PPB_CLAMP && Abs(c.target) <= PPB_CLAMP && Abs(c.ff) <= FF_MAX
    && Abs(c.integral) <= INTEGRAL_REACH
    && c.outOfBand < PERSIST
    && (!c.armed ==> c.applied == 0)
  }

  lemma TickInv(c: Clock, r: Reading)
    requires Inv(c)
    ensures Inv(Tick(c, r).next)
  {
    hide Evaluate, Arming;
    if r.now.Some? { EvaluateInv(c.(ff := Clamp(r.rate, -FF_MAX, FF_MAX)), r.now.value - c.latency - r.playout); }
  }

  lemma EvaluateInv(c: Clock, err: int)
    requires Inv(c)
    ensures Inv(Evaluate(c, err).next)
  {
    hide Regulate;
    var d := c.(outOfBand := if Abs(err) > Band(c.latency) then c.outOfBand + 1 else 0);
    if c.armed && d.outOfBand < PERSIST { RegulateInv(d, err); }
  }

  lemma RegulateInv(c: Clock, err: int)
    requires Inv(c) && c.armed
    ensures Inv(Regulate(c, err))
  {}

  /** The integral's own limit never acts: the output clamp stops the integration
      well before. */
  lemma IntegralLimitIsIdle(c: Clock, err: int)
    requires Inv(c) && -PPB_CLAMP < Pi(c.integral, err) < PPB_CLAMP
    ensures Wound(c.integral, err) == c.integral + err
  {}

  /** The actuator's own clamp never acts. */
  lemma CommandFits(c: Clock)
    requires Inv(c)
    ensures Clamp(Command(c), -TOTAL_MAX, TOTAL_MAX) == Command(c)
  {}

  /** The phase term moves towards its target by at most the slew limit, and never
      past it. */
  lemma SlewTowardsTarget(c: Clock, err: int)
    requires Inv(c)
    ensures var d := Regulate(c, err);
      Abs(d.applied - c.applied) <= SLEW
      && Abs(d.target - d.applied) == Max(0, Abs(d.target - c.applied) - SLEW)
      && (c.applied <= d.applied <= d.target || d.target <= d.applied <= c.applied)
  {}

  /** One tick never moves the phase term by more than the slew limit. */
  lemma TickSlews(c: Clock, r: Reading)
    requires Inv(c)
    ensures Abs(Tick(c, r).next.applied - c.applied) <= SLEW
  {}

  /** Applying an action to a timeline leaves playout exactly one latency behind
      the PTP time of the reading. */
  lemma NoErrorAfterAction(c: Clock, r: Reading)
    requires r.now.Some?
    ensures match Tick(c, r).action
      case Idle => true
      case Anchor(playout) => playout == r.now.value - c.latency
      case Shift(delta) => r.playout + delta == r.now.value - c.latency
  {}

  // ----- anti-windup over a run --------------------------------------------

  function RegulateAll(c: Clock, errs: seq<int>): Clock
  {
    if errs == [] then c else Regulate(RegulateAll(c, errs[..|errs| - 1]), errs[|errs| - 1])
  }

  /** However long the loop asks for more than 2000 ppb, on either side, the integral is what
      it was before, while the phase term walks to that side at 10 ppb a tick and stays at
      2000. */
  lemma {:induction false} SaturationLeavesNoWindup(c: Clock, errs: seq<int>, up: bool)
    requires Inv(c)
    requires forall i :: 0 <= i < |errs| ==>
      var u := 40 * errs[i] + TruncDiv(3 * c.integral, 1000); if up then u >= 2000 else u <= -2000
    ensures RegulateAll(c, errs).integral == c.integral
    ensures RegulateAll(c, errs).applied ==
      if up then Min(c.applied + 10 * |errs|, 2000) else Max(c.applied - 10 * |errs|, -2000)
  {
    if errs != [] {
      SaturationLeavesNoWindup(c, errs[..|errs| - 1], up);
      var last := errs[|errs| - 1];
      assert last == errs[|errs| - 1];
      RegulateInNumbers(RegulateAll(c, errs[..|errs| - 1]), last);
    }
    hide Regulate, TruncDiv;
  }

  // ----- in numbers --------------------------------------------------------

  /** What the armed loop does about an error of `err` frames, playout being that much
      behind: 40 ppb a frame and 3 ppb a thousand of the integral, within
      2000; the integral takes the error only while that is not reached; and the phase term
      moves there by at most 10. */
  predicate Regulated(c: Clock, err: int, n: Clock)
  {
    var u := 40 * err + TruncDiv(3 * c.integral, 1000);
    && n.integral == (if -2000 < u < 2000 then c.integral + err else c.integral)
    && -2000 <= n.target <= 2000
    && (u >= 2000 ==> n.target == 2000) && (u <= -2000 ==> n.target == -2000)
    && (n.target < 2000 && u > -2000 ==> 40000 * err + 3 * n.integral < 1000 * n.target + 1000)
    && (n.target > -2000 && u < 2000 ==> 40000 * err + 3 * n.integral > 1000 * n.target - 1000)
    && (err > 0 && c.integral >= 0 ==> n.target > 0) && (err < 0 && c.integral <= 0 ==> n.target < 0)
    && -10 <= n.applied - c.applied <= 10
    && Abs(n.target - n.applied) == Max(0, Abs(n.target - c.applied) - 10)
    && (c.applied <= n.applied <= n.target || n.target <= n.applied <= c.applied)
  }

  lemma RegulateInNumbers(c: Clock, err: int)
    requires -INTEGRAL_REACH <= c.integral <= INTEGRAL_REACH && -2000 <= c.applied <= 2000
    ensures Regulated(c, err, Regulate(c, err))
  {
    IntegralFits(c, err);
  }

  lemma IntegralFits(c: Clock, err: int)
    requires -INTEGRAL_REACH <= c.integral <= INTEGRAL_REACH
    ensures Wound(c.integral, err) == if -2000 < 40 * err + TruncDiv(3 * c.integral, 1000) < 2000 then c.integral + err else c.integral
  {}

  /** The later playout is, the higher the target: it never falls as the error rises. */
  lemma TargetRises(c: Clock, a: int, b: int)
    requires Inv(c) && a <= b
    ensures Regulate(c, a).target <= Regulate(c, b).target
  {
    RegulateInNumbers(c, a);
    RegulateInNumbers(c, b);
    hide Regulate;
  }

  /** One tick: without PTP nothing moves; with it the rate is fed forward within 200 ppm.
      Not anchored to this timeline, playout is anchored one latency behind, as soon as it
      can be; else the error is judged against half the latency, between 32 and 480 frames:
      beyond 480, or the fifth time in a row beyond the band, playout is stepped by
      exactly the error, and otherwise the armed loop regulates. */
  predicate Ticks(c: Clock, r: Reading, n: Clock, action: Action)
  {
    if !r.locked then n == c && action == Idle
    else
      && -200000 <= n.ff <= 200000 && (-200000 <= r.rate <= 200000 ==> n.ff == r.rate)
      && (r.rate > 200000 ==> n.ff == 200000) && (r.rate < -200000 ==> n.ff == -200000)
      && n.latency == c.latency && n.armed == c.armed
      && if r.steps != c.lastSteps || !c.anchored then
           n.applied == c.applied && n.target == c.target && n.outOfBand == c.outOfBand
           && if r.ready && r.now.Some?
              then action == Anchor(r.now.value - c.latency) && n.anchored && n.lastSteps == r.steps && n.integral == 0
              else action == Idle && n.anchored == c.anchored && n.lastSteps == c.lastSteps && n.integral == c.integral
         else
           && n.anchored && n.lastSteps == c.lastSteps
           && if r.now.None? then action == Idle && n == c.(ff := n.ff)
              else Judges(c.(ff := n.ff), r.now.value - c.latency - r.playout, n, action)
  }

  predicate Judges(c: Clock, err: int, n: Clock, action: Action)
  {
    var half := if c.latency < 64 then 32 else if c.latency >= 960 then 480 else c.latency / 2;
    var out := if err > half || err < -half then c.outOfBand + 1 else 0;
    if err > 480 || err < -480 || out >= 5 then
      action == Shift(err) && n.outOfBand == 0 && n.integral == 0 && n.applied == c.applied && n.target == c.target
    else
      && action == Idle && n.outOfBand == out
      && if c.armed then Regulated(c, err, n) else n.applied == c.applied && n.integral == c.integral
  }

  lemma TickInNumbers(c: Clock, r: Reading)
    requires Inv(c)
    ensures Ticks(c, r, Tick(c, r).next, Tick(c, r).action)
  {
    if r.now.Some? { EvaluateInNumbers(c.(ff := Clamp(r.rate, -FF_MAX, FF_MAX)), r.now.value - c.latency - r.playout); }
    hide Evaluate, Judges;
  }

  lemma EvaluateInNumbers(c: Clock, err: int)
    requires Inv(c)
    ensures Judges(c, err, Evaluate(c, err).next, Evaluate(c, err).action)
    ensures var n := Evaluate(c, err).next;
      n.latency == c.latency && n.armed == c.armed && n.anchored == c.anchored && n.lastSteps == c.lastSteps && n.ff == c.ff
  {
    hide Band, Regulate, Regulated, Inv, Abs;
    BandInNumbers(c.latency);
    EvaluateUnfold(c, err);
    var d := c.(outOfBand := if err > Band(c.latency) || err < -Band(c.latency) then c.outOfBand + 1 else 0);
    RegulatedFrom(c, d, err);
    hide Evaluate;
  }

  lemma EvaluateUnfold(c: Clock, err: int)
    ensures var o := Evaluate(c, err);
      var d := c.(outOfBand := if err > Band(c.latency) || err < -Band(c.latency) then c.outOfBand + 1 else 0);
      if err > 480 || err < -480 || d.outOfBand >= 5 then o.next == c.(outOfBand := 0, integral := 0) && o.action == Shift(err)
      else o.next == (if c.armed then Regulate(d, err) else d) && o.action == Idle
  {
    hide Regulate, Band;
  }

  lemma RegulatedFrom(c: Clock, d: Clock, err: int)
    requires Inv(c) && d == c.(outOfBand := d.outOfBand)
    ensures var n := Regulate(d, err);
      && n.latency == c.latency && n.armed == c.armed && n.anchored == c.anchored && n.lastSteps == c.lastSteps && n.ff == c.ff
      && n.outOfBand == d.outOfBand && Regulated(c, err, n)
  {
    RegulateInNumbers(d, err);
    RegulateKeeps(c, d, err);
    hide Regulate, Regulated;
  }

  lemma BandInNumbers(latency: nat)
    ensures Band(latency) == if latency < 64 then 32 else if latency >= 960 then 480 else latency / 2
  {}

  /** Regulating changes nothing else, and does not look at it. */
  lemma RegulateKeeps(c: Clock, d: Clock, err: int)
    requires d == c.(outOfBand := d.outOfBand)
    ensures var n := Regulate(d, err);
      && n.latency == c.latency && n.armed == c.armed && n.anchored == c.anchored && n.lastSteps == c.lastSteps && n.ff == c.ff
      && n.outOfBand == d.outOfBand && (Regulated(d, err, n) ==> Regulated(c, err, n))
  {
    hide Wound, Pi, TruncDiv;
  }

  // ----- runs --------------------------------------------------------------

  datatype Event =
    | Ticked(r: Reading)
    | Arm(on: bool)
    | Reanchor(r: Reading)
    | Latency(frames: nat)

  datatype Trace = Trace(clock: Clock, log: seq<Eval>)

  function Apply(t: Trace, e: Event): Trace
  {
    match e
    case Ticked(r) => var o := Tick(t.clock, r); Trace(o.next, t.log + o.log)
    case Arm(on) => Trace(Arming(t.clock, on), t.log)
    case Reanchor(r) => Trace(Anchoring(t.clock, r).next, t.log)
    case Latency(frames) => Trace(t.clock.(latency := frames), t.log)
  }

  function Run(t: Trace, es: seq<Event>): Trace
  {
    if es == [] then t else Apply(Run(t, es[..|es| - 1]), es[|es| - 1])
  }

  /** How many of the latest evaluations were outside their band without a step. */
  function Trailing(log: seq<Eval>): nat
  {
    if log == [] then 0
    else
      var e := log[|log| - 1];
      if Outside(e) && !e.stepped then Trailing(log[..|log| - 1]) + 1 else 0
  }

  lemma {:induction false} TrailingAtLeast(log: seq<Eval>, k: nat)
    ensures Trailing(log) >= k <==> (k <= |log| && forall j :: |log| - k <= j < |log| ==> Outside(log[j]) && !log[j].stepped)
  {
    if k > 0 && log != [] {
      var before := log[..|log| - 1];
      TrailingAtLeast(before, k - 1);
      var e := log[|log| - 1];
      if k <= |log| && forall j :: |log| - k <= j < |log| ==> Outside(log[j]) && !log[j].stepped {
        assert log[|log| - 1] == e;
        forall j | |before| - (k - 1) <= j < |before|
          ensures Outside(before[j]) && !before[j].stepped
        {
          assert before[j] == log[j];
        }
      }
    }
  }

  /** Playout was stepped at the i-th evaluation for one of exactly two reasons. */
  ghost predicate StepRule(log: seq<Eval>, i: nat)
    requires i < |log|
  {
    log[i].stepped <==>
      (Hard(log[i].err)
       || (i >= PERSIST - 1 && Outside(log[i])
           && forall j :: i - (PERSIST - 1) <= j < i ==> Outside(log[j]) && !log[j].stepped))
  }

  ghost predicate TraceInv(t: Trace)
  {
    && Inv(t.clock)
    && t.clock.outOfBand == Trailing(t.log)
    && (forall i {:trigger t.log[i]} :: 0 <= i < |t.log| ==> BAND_MIN <= t.log[i].band <= RESET_FRAMES)
    && forall i: nat {:trigger StepRule(t.log, i)} :: i < |t.log| ==> StepRule(t.log, i)
  }

  /** One more evaluation, judged by the counter, obeys the rule by the log. */
  lemma RuleExtends(log: seq<Eval>, e: Eval)
    requires forall i: nat {:trigger StepRule(log, i)} :: i < |log| ==> StepRule(log, i)
    requires e.stepped <==> Hard(e.err) || (Outside(e) && Trailing(log) + 1 >= PERSIST)
    ensures forall i: nat {:trigger StepRule(log + [e], i)} :: i < |log| + 1 ==> StepRule(log + [e], i)
  {
    var longer := log + [e];
    forall i: nat | i < |longer|
      ensures StepRule(longer, i)
    {
      if i < |log| {
        assert StepRule(log, i);
        assert forall j :: 0 <= j <= i ==> longer[j] == log[j];
      } else {
        TrailingAtLeast(log, PERSIST - 1);
        assert forall j :: 0 <= j < |log| ==> longer[j] == log[j];
      }
    }
  }

  /** What a tick evaluates, if anything, and how it counts. */
  lemma TickLog(c: Clock, r: Reading)
    ensures var o := Tick(c, r);
      if o.log == [] then o.next.outOfBand == c.outOfBand
      else
        && |o.log| == 1 && BAND_MIN <= o.log[0].band <= RESET_FRAMES
        && (o.log[0].stepped <==> Hard(o.log[0].err) || (Outside(o.log[0]) && c.outOfBand + 1 >= PERSIST))
        && o.next.outOfBand == if Outside(o.log[0]) && !o.log[0].stepped then c.outOfBand + 1 else 0
  {
    hide Pi, Wound;
  }

  lemma TrailingNext(log: seq<Eval>, e: Eval)
    ensures Trailing(log + [e]) == if Outside(e) && !e.stepped then Trailing(log) + 1 else 0
  {
    assert (log + [e])[..|log|] == log;
  }

  lemma TickRule(t: Trace, r: Reading)
    requires TraceInv(t)
    ensures TraceInv(Apply(t, Ticked(r)))
  {
    hide Tick, Inv, StepRule, Trailing, Outside, Hard;
    TickInv(t.clock, r);
    TickLog(t.clock, r);
    var o := Tick(t.clock, r);
    if o.log == [] {
      assert t.log + o.log == t.log;
    } else {
      var e := o.log[0];
      assert t.log + o.log == t.log + [e];
      RuleExtends(t.log, e);
      TrailingNext(t.log, e);
    }
  }

  lemma LatencyKeeps(t: Trace, frames: nat, r: Reading)
    requires TraceInv(t)
    ensures var u := Apply(Apply(t, Latency(frames)), Reanchor(r));
      TraceInv(u) && u.clock == Anchoring(t.clock.(latency := frames), r).next
  {}

  /** Every run: the bounds hold in every state, and playout is stepped only for a
      hard error or on the fifth evaluated out-of-band tick in a row since the last
      step, whatever anchors, arming and latency changes came between. */
  lemma {:induction false} RunInv(t: Trace, es: seq<Event>)
    requires TraceInv(t)
    ensures TraceInv(Run(t, es))
  {
    if es != [] {
      var before := Run(t, es[..|es| - 1]);
      RunInv(t, es[..|es| - 1]);
      match es[|es| - 1]
      case Ticked(r) => TickRule(before, r);
      case Arm(on) =>
      case Reanchor(r) =>
      case Latency(frames) =>
    }
  }

  /** From power-on, in particular. */
  lemma EveryRun(latency: nat, es: seq<Event>)
    ensures TraceInv(Run(Trace(Initial(latency), []), es))
  {
    RunInv(Trace(Initial(latency), []), es);
  }

  // ----- the sample clock --------------------------------------------------

  /** mclk_now_samples: PTP time as a sample index. */
  function Samples(seconds: nat, nanoseconds: nat, hz: nat): nat { seconds * hz + nanoseconds * hz / 1000000000 }

  /** The index is the number of whole sample periods since the epoch, so it agrees
      with a transmitter that counts them from the top of each second. */
  lemma SamplesAreWholePeriods(seconds: nat, nanoseconds: nat, hz: nat)
    requires nanoseconds < 1000000000 && hz > 0
    ensures var n := Samples(seconds, nanoseconds, hz); var t := seconds * 1000000000 + nanoseconds;
      n * 1000000000 <= t * hz < (n + 1) * 1000000000
      && seconds * hz <= n < (seconds + 1) * hz
  {
    var part := nanoseconds * hz;
    var whole := part / 1000000000;
    assert whole * 1000000000 <= part < (whole + 1) * 1000000000;
    assert (seconds * 1000000000 + nanoseconds) * hz == (seconds * hz) * 1000000000 + part by {
      Distribute(seconds * 1000000000, nanoseconds, hz);
    }
    assert part < 1000000000 * hz by {
      Distribute(1000000000 - nanoseconds, nanoseconds, hz);
      Times(1000000000 - nanoseconds - 1, hz);
    }
    assert whole < hz;
    Distribute(seconds, 1, hz);
  }
}
