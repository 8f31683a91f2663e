/** What the servo does to the clock, in plain numbers: which way it pushes, how hard, and
    what is left afterwards. Offset is slave minus master, so a positive one asks for a
    slower clock. */
module ServoLaws {
  import opened Arith
  import opened LowEdge
  import opened ServoSpec

  /** The update is fed to the loop: unlocked, or within 8 microseconds, or the jump that
      costs the lock. */
  predicate Fed(s: Servo, f: int, t: int)
  {
    !s.locked || -8000 <= f <= 8000 || (s.jumpRun == 7 && s.jumpStrikes == 2 && s.lastJumpT != 0 && t - s.lastJumpT < 30000000000)
  }

  /** The proportional gain, in thousandths, and the integral gain, in parts per million, of
      a mode. */
  function Thousandths(locked: bool, f: int): int
  {
    if -1000 <= f <= 1000 then (if locked then 300 else 500) else if locked then 500 else 700
  }

  function PerMillion(locked: bool): int { if locked then 20000 else 40000 }

  /** The loop runs locked unless it was unlocked, or this jump has just cost the lock. */
  predicate RunsLocked(s: Servo, f: int) { s.locked && -8000 <= f <= 8000 }

  /** d is -g * f / 1000, toward zero, within 50000. */
  predicate Pushes(d: int, g: int, f: int)
  {
    && -50000 <= d <= 50000
    && (-50000 < d < 50000 ==> -1000 < 1000 * d + g * f < 1000)
    && (d == -50000 ==> g * f >= 50000000)
    && (d == 50000 ==> g * f <= -50000000)
    && (f >= 0 ==> d <= 0) && (f <= 0 ==> d >= 0)
  }

  lemma PhaseTermPushes(f: int, locked: bool)
    ensures Pushes(PhaseTerm(f, locked), Thousandths(locked, f), f)
  {
    var big := f > 1000 || f < -1000;
    assert TimesKp(f, locked) == Thousandths(locked, f) * f;
  }

  /** Which side the phase term is on, and that one second of it takes the offset down
      without carrying it past zero. */
  lemma PushesBack(d: int, locked: bool, f: int)
    requires Pushes(d, Thousandths(locked, f), f)
    ensures f > 3 ==> d < 0 && 0 < f + d < f
    ensures f < -3 ==> d > 0 && f < f + d < 0
    ensures -3 <= f <= 3 ==> -2 <= d <= 2
  {}

  /** rate is -k * integral / 1000000, toward zero, within 100000. */
  predicate Stands(rate: int, k: int, integral: int)
  {
    && -100000 <= rate <= 100000
    && (-100000 < rate < 100000 ==> -1000000 < 1000000 * rate + k * integral < 1000000)
    && (rate == -100000 ==> k * integral >= 100000000000)
    && (rate == 100000 ==> k * integral <= -100000000000)
  }

  lemma RateStands(integral: int, locked: bool)
    ensures Stands(RateOf(integral, locked), PerMillion(locked), integral)
  {
    assert TimesKi(integral, locked) == PerMillion(locked) * integral;
  }

  /** A larger integral never asks for a higher rate. */
  lemma RateFalls(a: int, b: int, locked: bool)
    requires a <= b
    ensures RateOf(b, locked) <= RateOf(a, locked)
  {
    RateStands(a, locked);
    RateStands(b, locked);
  }

  // ----- one update --------------------------------------------------------

  /** A fed update: the command leaves the rate on the side that takes the offset down, in
      proportion to it, and one second of that is never too much; the rate itself moves
      that way or not at all, and is what the integral stands for. */
  predicate Feeds(s: Servo, f: int, n: Servo)
  {
    var d := n.applied - n.rate;
    && Pushes(d, Thousandths(RunsLocked(s, f), f), f)
    && (f > 3 ==> n.applied < n.rate && 0 < f + d < f)
    && (f < -3 ==> n.applied > n.rate && f < f + d < 0)
    && (f >= 0 ==> n.rate <= s.rate) && (f <= 0 ==> n.rate >= s.rate)
    && (s.locked == RunsLocked(s, f) && -100000000 <= s.integral + f <= 100000000 ==>
          Stands(n.rate, PerMillion(s.locked), s.integral + f))
    && (n.locked && s.locked && -100000000 <= s.integral + f <= 100000000 ==> n.integral == s.integral + f)
    && (n.locked && !s.locked ==> n.integral + 50 * n.rate == 0)
    && -100000000 <= n.integral <= 100000000
  }

  /** The frequency estimate takes out the drift that was seen, `ppb` nanoseconds a second,
      within 100 ppm, and the integral stands for what it leaves. */
  predicate Estimates(s: Servo, x: Sample, n: Servo)
  {
    var t0 := if s.estN == 0 then x.t else s.estT0;
    var done := x.t - t0 >= 4000000000 && n.estN >= 12 && x.fit.Slope?;
    && n.estDone == done && n.window == s.window && !n.locked
    && n.estN == (if s.estN == 255 then 0 else s.estN + 1)
    && (done ==>
          && n.applied == n.rate && n.integral + 25 * n.rate == 0 && -100000 <= n.rate <= 100000
          && (-100000 < n.rate < 100000 ==> x.fit.ppb + (n.rate - s.applied) == 0)
          && (n.rate == 100000 ==> x.fit.ppb + (n.rate - s.applied) <= 0)
          && (n.rate == -100000 ==> x.fit.ppb + (n.rate - s.applied) >= 0))
    && (!done ==> n.rate == s.rate && n.applied == s.applied && n.integral == s.integral)
  }

  /** All of it: an offset beyond 1 ms is taken out by a step at the rate estimate; without
      an estimate one is made; a fed update pushes; a jump is taken out by a step with the
      lock kept, and until it is complete the clock is held at its rate. */
  predicate Corrects(s: Servo, x: Sample, n: Servo, step: int)
  {
    if x.offset > 1000000 || x.offset < -1000000 then
      && x.offset + step == 0 && n.applied == n.rate == s.rate && n.window == [] && n.comp == n.lastT == 0
      && !n.locked && !n.estDone && n.estN == n.integral == 0
    else if !s.estDone then
      step == 0 && Estimates(s, x, n)
    else
      var f := LowEdgeOf(Pushed(s, x));
      if Fed(s, f, x.t) then step == 0 && Feeds(s, f, n)
      else
        && n.applied == n.rate == s.rate && n.locked && n.integral == s.integral
        && if s.jumpRun == 7 then f + step == 0 && n.window == [] else step == 0
  }

  lemma UpdateCorrects(s: Servo, x: Sample)
    requires Inv(s)
    ensures Corrects(s, x, ServoSpec.Update(s, x).next, ServoSpec.Update(s, x).step)
  {
    InvCounters(s);
    if Coarse(x) {
    } else if !s.estDone {
      EstimateTakesOut(s, x);
    } else {
      SteerCorrects(s, x);
    }
    hide Inv, Estimate, Steer, Feeds, Estimates, LowEdgeOf, Pushed;
  }

  lemma EstimateTakesOut(s: Servo, x: Sample)
    requires Inv(s) && !s.estDone
    ensures Estimates(s, x, Estimate(s, x).next)
  {}

  lemma SteerCorrects(s: Servo, x: Sample)
    requires Inv(s) && s.estDone
    ensures var o := Steer(s, x); var f := LowEdgeOf(Pushed(s, x));
      if Fed(s, f, x.t) then o.step == 0 && Feeds(s, f, o.next)
      else
        && o.next.applied == o.next.rate == s.rate && o.next.locked && o.next.integral == s.integral
        && if s.jumpRun == 7 then f + o.step == 0 && o.next.window == [] else o.step == 0
  {
    hide Inv, Pushed, LowEdgeOf, Pi, Jump, Feeds, Fed;
    var p := Pushed(s, x);
    PushedSame(s, x);
    var f := LowEdgeOf(p);
    JumpFeeds(p, f, x.t);
    SameCase(s, p, f, x.t, Pi(Jump(p, f, x.t).next, f));
    if Fed(p, f, x.t) { FedFeeds(p, f, x.t); }
  }

  /** Taking a sample touches the filter only. */
  lemma PushedSame(s: Servo, x: Sample)
    requires Inv(s) && s.estDone
    ensures var p := Pushed(s, x);
      Inv(p) && p == s.(comp := p.comp, lastT := p.lastT, window := p.window, n4 := p.n4) && p.window != []
  {
    hide Compensated, RateOf;
  }

  lemma SameCase(s: Servo, p: Servo, f: int, t: int, n: Servo)
    requires p == s.(comp := p.comp, lastT := p.lastT, window := p.window, n4 := p.n4)
    ensures Fed(p, f, t) <==> Fed(s, f, t)
    ensures Feeds(p, f, n) <==> Feeds(s, f, n)
  {}

  lemma JumpFeeds(p: Servo, f: int, t: int)
    requires Inv(p) && p.estDone
    ensures var j := Jump(p, f, t);
      if Fed(p, f, t) then j.verdict == Feed
      else
        && j.next.applied == j.next.rate == p.rate && j.next.locked && j.next.integral == p.integral
        && if p.jumpRun == 7 then j.verdict == Shift && j.next.window == [] else j.verdict == Hold
  {}

  lemma FedFeeds(p: Servo, f: int, t: int)
    requires Inv(p) && p.estDone && Fed(p, f, t)
    ensures Feeds(p, f, Pi(Jump(p, f, t).next, f))
  {
    hide Inv, RateOf, PhaseTerm, Pushes, Stands, Jump, Gains, Streaks, TruncDiv;
    FedState(p, f, t);
    var q := Jump(p, f, t).next;
    GainsPush(q, f);
    StreaksKeep(Gains(q, f), f);
  }

  /** What the loop is fed with: the rate is untouched, in the gain of the mode it runs in. */
  lemma FedState(p: Servo, f: int, t: int)
    requires Inv(p) && p.estDone && Fed(p, f, t)
    ensures var q := Jump(p, f, t).next;
      && (q.lockStreak < 8 || q.locked) && q.rate == p.rate == RateOf(q.integral, q.locked) && q.locked == RunsLocked(p, f)
      && -100000000 <= q.integral <= 100000000 && -100000 <= q.rate <= 100000
      && (p.locked == q.locked ==> q.integral == p.integral) && (p.locked && !q.locked ==> q.lockStreak == 0)
  {
    GainSwitchKeepsRate(p.rate, false);
    hide RateOf;
  }

  lemma GainsPush(q: Servo, f: int)
    requires q.rate == RateOf(q.integral, q.locked) && -100000000 <= q.integral <= 100000000
    ensures var g := Gains(q, f); var d := g.applied - g.rate;
      && g.locked == q.locked && g.lockStreak == q.lockStreak && -100000 <= g.rate <= 100000 && -100000000 <= g.integral <= 100000000
      && Pushes(d, Thousandths(q.locked, f), f)
      && (f > 3 ==> d < 0 && 0 < f + d < f) && (f < -3 ==> d > 0 && f < f + d < 0)
      && (f >= 0 ==> g.rate <= q.rate) && (f <= 0 ==> g.rate >= q.rate)
      && (-100000000 <= q.integral + f <= 100000000 ==> g.integral == q.integral + f && Stands(g.rate, PerMillion(q.locked), q.integral + f))
  {
    var g := Gains(q, f);
    PhaseTermPushes(f, q.locked);
    PushesBack(PhaseTerm(f, q.locked), q.locked, f);
    RateStands(g.integral, q.locked);
    if f >= 0 { RateFalls(q.integral, g.integral, q.locked); }
    if f <= 0 { RateFalls(g.integral, q.integral, q.locked); }
    CommandIs(q, f);
    hide RateOf, PhaseTerm, Pushes, Stands, Thousandths;
  }

  lemma CommandIs(q: Servo, f: int)
    ensures Gains(q, f).applied == Gains(q, f).rate + PhaseTerm(f, q.locked)
  {}

  lemma StreaksKeep(g: Servo, f: int)
    requires (g.lockStreak < 8 || g.locked) && -100000 <= g.rate <= 100000 && -100000000 <= g.integral <= 100000000
    ensures var n := Streaks(g, f);
      && n.rate == g.rate && n.applied == g.applied && -100000000 <= n.integral <= 100000000
      && (n.locked == g.locked ==> n.integral == g.integral)
      && (n.locked && !g.locked ==> n.integral + 50 * n.rate == 0 && g.lockStreak == 7)
  {
    assert TruncDiv(-(g.rate * KI_DEN), 20000) == -(g.rate * 50);
    assert TruncDiv(-(g.rate * KI_DEN), 40000) == -(g.rate * 25);
  }

  // ----- the filter --------------------------------------------------------

  /** An older sample counts as it would read now: with what the phase term has moved the
      clock since, (applied - rate) nanoseconds a second, toward zero. */
  lemma CompensationIsMovement(s: Servo, t: int)
    ensures var moved := Compensated(s, t) - s.comp; var due := (s.applied - s.rate) * (t - s.lastT);
      if s.lastT != 0 && 0 < t - s.lastT < 2000000000
      then -1000000000 < 1000000000 * moved - due < 1000000000 && (due > 0 ==> moved >= 0) && (due < 0 ==> moved <= 0)
      else moved == 0
  {}

  /** What is filtered is the newest offset, or an older sample with all that has been moved
      up to now. */
  lemma EdgeIsASample(s: Servo, x: Sample) returns (k: nat)
    requires Inv(s)
    ensures var p := Pushed(s, x);
      k < Used(p) <= |s.window| + 1 && LowEdgeOf(p) == if k == 0 then x.offset else s.window[|s.window| - k] + Compensated(s, x.t)
  {
    hide Compensated, SecondLowest;
    var p := Pushed(s, x);
    WindowGrowth(s, x);
    k := SecondLowestIsOne(Newest(p.window, Used(p)));
  }

  /** Two samples after the filter was cleared: the first as it would read now, or the
      second, whichever is later. */
  lemma TwoSamples(s: Servo, x: Sample, y: Sample)
    requires Inv(s) && s.estDone && s.window == [] && -1000000 <= x.offset <= 1000000
    requires Fed(s, x.offset, x.t) && x.t != 0 && 0 < y.t - x.t < 2000000000
    ensures LowEdgeOf(Pushed(s, x)) == x.offset
    ensures var u := ServoSpec.Update(s, x).next; var moved := Compensated(u, y.t) - u.comp;
      && LowEdgeOf(Pushed(u, y)) == Max(x.offset + moved, y.offset)
      && -1000000000 < 1000000000 * moved - (u.applied - u.rate) * (y.t - x.t) < 1000000000
  {
    OnlyOne(Pushed(s, x));
    UpdateCorrects(s, x);
    WindowAfter(s, x);
    var u := ServoSpec.Update(s, x).next;
    AfterFirst(s, x);
    CompensationIsMovement(u, y.t);
    OnlyTwo(Pushed(u, y));
    hide ServoSpec.Update, Compensated, LowEdgeOf, Used, Inv, Feeds;
  }

  lemma AfterFirst(s: Servo, x: Sample)
    requires Inv(s) && s.estDone && -1000000 <= x.offset <= 1000000 && ServoSpec.Update(s, x).step == 0
    ensures ServoSpec.Update(s, x).next.lastT == x.t && ServoSpec.Update(s, x).next.comp == Compensated(s, x.t)
  {
    hide LowEdgeOf, Compensated, RateOf, PhaseTerm, Rescaled;
  }

  lemma OnlyOne(p: Servo)
    requires |p.window| == 1
    ensures Used(p) == 1 && LowEdgeOf(p) == p.window[0] + p.comp
  {}

  lemma OnlyTwo(p: Servo)
    requires |p.window| == 2
    ensures LowEdgeOf(p) == Max(p.window[0], p.window[1]) + p.comp
  {
    var w := Newest(p.window, 2);
    assert Used(p) == 2 && w == [p.window[1], p.window[0]];
    TwoSorted(w);
  }

  lemma CountOfTwo(w: seq<int>, b: int)
    requires |w| == 2
    ensures LowCount(w, b) == (if w[0] <= b then 1 else 0) + if w[1] <= b then 1 else 0
  {
    LowCountAppend([], w[0], b);
    LowCountAppend([w[0]], w[1], b);
    assert [] + [w[0]] == [w[0]] && [w[0]] + [w[1]] == w;
  }

  lemma TwoSorted(w: seq<int>)
    requires |w| == 2
    ensures SecondLowest(w) == Max(w[0], w[1])
  {
    var v := Max(w[0], w[1]);
    SecondLowestExactly(w, v);
    CountOfTwo(w, v);
    CountOfTwo(w, v - 1);
  }
}
