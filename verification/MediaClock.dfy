/** The media clock: playout kept one latency behind PTP time, by steps of the
    jitter buffer and by trimming the audio PLL. */
module MediaClock {
  import opened Arith
  import opened MediaSpec
  import JitterRing
  import MclkHw
  import opened Prelude

  const LATENCY_US_DEFAULT := 2000
  const LATENCY_US_MAX := 10000
  const LATENCY_MARGIN_US := 500
  const DMA_DEPTH := JitterRing.DMA_AHEAD + JitterRing.I2S_FIFO

  predicate RateSupported(hz: int) { hz == 48000 || hz == 96000 }

  /** The least latency a sample rate allows: what the DMA holds, and a margin. */
  function LatencyMinUs(hz: int): (us: nat)
    requires RateSupported(hz)
    ensures (us - 500) * hz == 24 * 1000000
  {
    DMA_DEPTH * 1000000 / hz + LATENCY_MARGIN_US
  }

  /** The latency in force: the larger of the controller's setting and the
      transmitters' demand, within the limits; a bench override only from below. */
  function Effective(hz: int, cfg: nat, floor: nat, force: nat): (us: nat)
    requires RateSupported(hz)
    ensures us >= LatencyMinUs(hz)
    ensures force == 0 ==> us <= 10000 && us >= Min(cfg, 10000) && us >= Min(floor, 10000)
    ensures force != 0 ==> us >= force && (us == force || us == LatencyMinUs(hz))
  {
    if force != 0 then Max(force, LatencyMinUs(hz))
    else Clamp(Max(cfg, floor), LatencyMinUs(hz), LATENCY_US_MAX)
  }

  /** And it is the least that meets them all, as far as 10 ms goes. */
  lemma EffectiveIsLeast(hz: int, cfg: nat, floor: nat, us: nat)
    requires RateSupported(hz) && (us - 500) * hz >= 24 * 1000000 && us >= Min(cfg, 10000) && us >= Min(floor, 10000)
    ensures Effective(hz, cfg, floor, 0) <= us
  {
    MinIsLeast(hz, us);
  }

  lemma MinIsLeast(hz: int, us: nat)
    requires RateSupported(hz) && (us - 500) * hz >= 24 * 1000000
    ensures LatencyMinUs(hz) <= us
  {}

  /** In particular: 1 ms is the least at 48 kHz and 750 microseconds at 96 kHz; what a
      controller stores of 2000 is 2 ms at either, 96 or 192 frames. */
  lemma DefaultLatency()
    ensures LatencyMinUs(48000) == 1000 && LatencyMinUs(96000) == 750
    ensures Effective(48000, 2000, 0, 0) == Effective(96000, 2000, 0, 0) == 2000
    ensures FramesFor(2000, 48000) == 96 && FramesFor(2000, 96000) == 192
  {}

  function FramesFor(us: nat, hz: nat): (frames: nat)
    ensures frames * 1000000 <= us * hz < (frames + 1) * 1000000
  {
    us * hz / 1000000
  }

  /** The fields of the media clock. What it wants of the jitter buffer is returned
      as an action, which Playout.Perform carries out. */
  class MediaClock {
    const hw: MclkHw.MclkHw
    const hz: nat
    var latencyUs: nat
    var cfgUs: nat
    var floorUs: nat
    var forceUs: nat
    var latencyFrames: nat
    var ppbFf: int
    var ppbApplied: int
    var ppbTarget: int
    var integral: int
    var armed: bool
    var anchored: bool
    var lastPtpSteps: int
    var outOfBand: nat

    ghost var trace: Trace

    ghost function View(): Clock
      reads `latencyFrames, `ppbFf, `ppbApplied, `ppbTarget, `integral, `armed, `anchored, `lastPtpSteps, `outOfBand
    {
      Clock(latencyFrames, ppbFf, ppbApplied, ppbTarget, integral, armed, anchored, lastPtpSteps, outOfBand)
    }

    /** What is commanded is what the actuator aims at, unclamped. */
    ghost predicate Commanded()
      reads `ppbFf, `ppbApplied, hw
    {
      hw.Valid() && hw.targetQ16 == MclkHw.Target(hw.base, ppbFf + ppbApplied)
    }

    ghost predicate Valid()
      reads this, hw
    {
      && RateSupported(hz) && Commanded()
      && trace.clock == View() && TraceInv(trace)
      && latencyUs == Effective(hz, cfgUs, floorUs, forceUs) && latencyFrames == FramesFor(latencyUs, hz)
    }

    /** mclk_init. */
    constructor (hw: MclkHw.MclkHw, hz: nat, stored: Option<nat>)
      requires RateSupported(hz) && hw.Valid() && hw.targetQ16 == MclkHw.Target(hw.base, 0)
      ensures Valid() && View() == Initial(latencyFrames) && trace.log == []
      ensures this.hw == hw && this.hz == hz
      ensures cfgUs == (if stored.Some? && stored.value != 0 then stored.value else 2000) && floorUs == forceUs == 0
    {
      hide MclkHw.Target, MclkHw.MclkHw.Valid, RateSupported;
      this.hw, this.hz := hw, hz;
      cfgUs := if stored.Some? && stored.value != 0 then stored.value else LATENCY_US_DEFAULT;
      floorUs, forceUs := 0, 0;
      ppbFf, ppbApplied, ppbTarget, integral := 0, 0, 0, 0;
      armed, anchored, lastPtpSteps, outOfBand := false, false, 0, 0;
      new;
      latencyUs := EffectiveUs();
      latencyFrames := latencyUs * hz / 1000000;
      trace := Trace(View(), []);
      EveryRun(latencyFrames, []);
    }

    method EffectiveUs() returns (us: nat)
      requires RateSupported(hz)
      ensures us == Effective(hz, cfgUs, floorUs, forceUs)
    {
      if forceUs != 0 {
        var f := forceUs;
        if f < LatencyMinUs(hz) { f := LatencyMinUs(hz); }
        return f;
      }
      us := if cfgUs > floorUs then cfgUs else floorUs;
      if us < LatencyMinUs(hz) { us := LatencyMinUs(hz); }
      if us > LATENCY_US_MAX { us := LATENCY_US_MAX; }
    }

    /** apply: feed-forward plus the phase term. */
    method Actuate()
      requires hw.Valid() && Abs(ppbFf + ppbApplied) <= TOTAL_MAX
      modifies hw`targetQ16, hw`events
      ensures Commanded()
    {
      hw.SetPpb(ppbFf + ppbApplied);
    }

    /** mclk_anchor: playout goes one latency behind PTP time, if the ring has
        learned its buffers and the time can be read. */
    method Anchor(r: Reading) returns (action: Action)
      modifies `integral, `anchored, `lastPtpSteps
      ensures View() == Anchoring(old(View()), r).next && action == Anchoring(old(View()), r).action
    {
      if !r.ready { return Idle; }
      if r.now.None? { return Idle; }
      var playout := r.now.value - latencyFrames;
      integral := 0;
      anchored := true;
      lastPtpSteps := r.steps;
      return Action.Anchor(playout);
    }

    /** The PI with anti-windup, and the clamp. */
    method NextTarget(err: int) returns (ppb: int)
      modifies `integral
      ensures integral == Wound(old(integral), err) && ppb == Clamp(Pi(integral, err), -PPB_CLAMP, PPB_CLAMP)
    {
      ppb := err * KP + TruncDiv(integral * KI_NUM, KI_DEN);
      if ppb < PPB_CLAMP && ppb > -PPB_CLAMP {
        integral := Clamp(integral + err, -INTEGRAL_MAX, INTEGRAL_MAX);
        ppb := err * KP + TruncDiv(integral * KI_NUM, KI_DEN);
      }
      if ppb > PPB_CLAMP { ppb := PPB_CLAMP; }
      if ppb < -PPB_CLAMP { ppb := -PPB_CLAMP; }
    }

    /** The armed loop: PI with anti-windup, clamp, slew. */
    method Regulate(err: int)
      requires Commanded() && MediaSpec.Inv(View()) && armed
      modifies `integral, `ppbTarget, `ppbApplied, hw`targetQ16, hw`events
      ensures Commanded() && View() == MediaSpec.Regulate(old(View()), err)
    {
      hide MclkHw.Target, MclkHw.MclkHw.Valid, Wound, Pi;
      ppbTarget := NextTarget(err);
      var d := ppbTarget - ppbApplied;
      if d > SLEW { d := SLEW; }
      if d < -SLEW { d := -SLEW; }
      ppbApplied := ppbApplied + d;
      Actuate();
    }

    /** A phase error that could be read: step playout, or regulate. */
    method Judge(err: int) returns (action: Action)
      requires Commanded() && MediaSpec.Inv(View())
      modifies `integral, `ppbTarget, `ppbApplied, `outOfBand, hw`targetQ16, hw`events
      ensures Commanded()
      ensures View() == Evaluate(old(View()), err).next && action == Evaluate(old(View()), err).action
    {
      hide MediaSpec.Regulate, MclkHw.Target, MclkHw.MclkHw.Valid;
      var band := RESET_FRAMES;
      if latencyFrames / 2 < band { band := latencyFrames / 2; }
      if band < BAND_MIN { band := BAND_MIN; }
      var hard := err > RESET_FRAMES || err < -RESET_FRAMES;
      if err > band || err < -band {
        outOfBand := outOfBand + 1;
      } else {
        outOfBand := 0;
      }
      if hard || outOfBand >= PERSIST {
        outOfBand := 0;
        integral := 0;
        return Shift(err);
      }
      if armed { Regulate(err); }
      return Idle;
    }

    /** mclk_tick, without the bookkeeping. */
    method Decide(r: Reading) returns (action: Action)
      requires Commanded() && MediaSpec.Inv(View())
      modifies `integral, `ppbTarget, `ppbApplied, `ppbFf, `outOfBand, `anchored, `lastPtpSteps, hw`targetQ16, hw`events
      ensures Commanded()
      ensures View() == MediaSpec.Tick(old(View()), r).next && action == MediaSpec.Tick(old(View()), r).action
    {
      hide Evaluate, Band, MclkHw.Target, MclkHw.MclkHw.Valid;
      if !r.locked { return Idle; }
      var ff := r.rate;
      if ff > FF_MAX { ff := FF_MAX; }
      if ff < -FF_MAX { ff := -FF_MAX; }
      ppbFf := ff;
      Actuate();
      if r.steps != lastPtpSteps || !anchored {
        action := Anchor(r);
        return;
      }
      if r.now.None? { return Idle; }
      var target := r.now.value - latencyFrames;
      action := Judge(target - r.playout);
    }

    /** mclk_tick is one step of the run. */
    method Tick(r: Reading) returns (action: Action)
      requires Valid()
      modifies this, hw`targetQ16, hw`events
      ensures Valid() && trace == Apply(old(trace), Ticked(r))
      ensures action == MediaSpec.Tick(old(View()), r).action && latencyFrames == old(latencyFrames)
      ensures Ticks(old(View()), r, View(), action)
    {
      hide Evaluate, Anchoring, Ticks, StepRule, Trailing, Effective, FramesFor, MclkHw.Target, MclkHw.MclkHw.Valid;
      TickRule(trace, r);
      TickInNumbers(trace.clock, r);
      action := Decide(r);
      trace := Apply(trace, Ticked(r));
    }

    /** What the actuator aims at: the nominal word times 1 + the feed-forward and the phase
        term in billionths, of the PLL's whole ratio. */
    lemma CommandReachesHardware()
      requires Valid()
      ensures var ppb := ppbFf + ppbApplied;
        -1000000000 < 1000000000 * (hw.targetQ16 - 65536 * hw.base) - ppb * (262144 + hw.base) * 65536 < 1000000000
    {
      MclkHw.TargetInNumbers(hw.base, ppbFf + ppbApplied);
      hide MclkHw.Target;
    }

    /** mclk_arm: disarming drops the phase term at once. */
    method Arm(on: bool)
      requires Valid()
      modifies `armed, `ppbApplied, `trace, hw`targetQ16, hw`events
      ensures Valid() && trace == Apply(old(trace), Event.Arm(on))
      ensures armed == on && ppbApplied == if on then old(ppbApplied) else 0
    {
      hide StepRule, Trailing, Effective, FramesFor, MclkHw.Target, MclkHw.MclkHw.Valid;
      armed := on;
      if !on {
        ppbApplied := 0;
        Actuate();
      }
      trace := Apply(trace, Event.Arm(on));
    }

    static method Frames(us: nat, hz: nat) returns (frames: nat)
      ensures frames == FramesFor(us, hz)
    {
      frames := us * hz / 1000000;
    }

    /** apply_latency: a change re-anchors, the same value does not. */
    method ApplyLatency(r: Reading) returns (action: Action)
      requires RateSupported(hz) && Commanded() && trace.clock == View() && TraceInv(trace)
      requires latencyFrames == FramesFor(latencyUs, hz)
      modifies `latencyUs, `latencyFrames, `integral, `anchored, `lastPtpSteps, `trace
      ensures Valid()
      ensures latencyUs == old(latencyUs) ==> trace == old(trace) && action == Idle
      ensures latencyUs != old(latencyUs) ==> trace == Apply(Apply(old(trace), Latency(latencyFrames)), Reanchor(r))
      ensures latencyUs != old(latencyUs) ==> action == if r.ready && r.now.Some? then Action.Anchor(r.now.value - latencyFrames) else Idle
    {
      hide Commanded, TraceInv, Effective, FramesFor, Apply;
      ghost var t := trace;
      var us := EffectiveUs();
      if us == latencyUs { return Idle; }
      latencyUs := us;
      latencyFrames := Frames(us, hz);
      LatencyKeeps(t, latencyFrames, r);
      action := Anchor(r);
      trace := Apply(Apply(t, Latency(latencyFrames)), Reanchor(r));
    }

    /** mclk_set_latency_us: the controller's setting, capped. */
    method SetLatencyUs(us: nat, r: Reading) returns (action: Action)
      requires Valid()
      modifies `cfgUs, `latencyUs, `latencyFrames, `integral, `anchored, `lastPtpSteps, `trace
      ensures Valid() && cfgUs == Min(us, 10000)
      ensures latencyUs == Effective(hz, Min(us, 10000), floorUs, forceUs)
      ensures latencyUs == old(latencyUs) ==> trace == old(trace) && action == Idle
      ensures latencyUs != old(latencyUs) ==> action == if r.ready && r.now.Some? then Action.Anchor(r.now.value - latencyFrames) else Idle
    {
      hide TraceInv, Effective, FramesFor, Commanded, MediaSpec.Apply, Anchoring;
      cfgUs := if us > LATENCY_US_MAX then LATENCY_US_MAX else us;
      action := ApplyLatency(r);
    }

    /** mclk_set_latency_floor_us: the transmitters' demand. */
    method SetLatencyFloorUs(us: nat, r: Reading) returns (action: Action)
      requires Valid()
      modifies `floorUs, `latencyUs, `latencyFrames, `integral, `anchored, `lastPtpSteps, `trace
      ensures Valid() && floorUs == us
      ensures latencyUs == Effective(hz, cfgUs, us, forceUs)
      ensures latencyUs == old(latencyUs) ==> trace == old(trace) && action == Idle
      ensures latencyUs != old(latencyUs) ==> action == if r.ready && r.now.Some? then Action.Anchor(r.now.value - latencyFrames) else Idle
    {
      hide TraceInv, Effective, FramesFor, Commanded, MediaSpec.Apply, Anchoring;
      floorUs := us;
      action := ApplyLatency(r);
    }

    /** mclk_force_latency_us: the bench override, 0 for none. */
    method ForceLatencyUs(us: nat, r: Reading) returns (action: Action)
      requires Valid()
      modifies `forceUs, `latencyUs, `latencyFrames, `integral, `anchored, `lastPtpSteps, `trace
      ensures Valid() && forceUs == us
      ensures latencyUs == Effective(hz, cfgUs, floorUs, us)
      ensures latencyUs == old(latencyUs) ==> trace == old(trace) && action == Idle
      ensures latencyUs != old(latencyUs) ==> action == if r.ready && r.now.Some? then Action.Anchor(r.now.value - latencyFrames) else Idle
    {
      hide TraceInv, Effective, FramesFor, Commanded, MediaSpec.Apply, Anchoring;
      forceUs := us;
      action := ApplyLatency(r);
    }
  }
}
