/** The media clock driving the jitter buffer: after every anchor and every step,
    playout is exactly one latency behind PTP time. */
module Playout {
  import opened Arith
  import opened MediaSpec
  import MediaClock
  import JitterBuffer
  import JitterRing
  import opened Prelude

  /** The PTP slave as the media clock sees it. */
  datatype Ptp = Ptp(locked: bool, rate: int, steps: int, now: Option<int>)

  /** An action of the clock, as an event of the playout ring. */
  function OnRing(s: JitterRing.State, action: Action, elapsed: nat): JitterRing.State
    requires |s.ring| == JitterRing.RING
  {
    match action
    case Idle => s
    case Anchor(playout) => JitterRing.Apply(s, JitterRing.Remap(playout, elapsed))
    case Shift(delta) => JitterRing.Apply(s, JitterRing.Step(delta))
  }

  /** Whatever a tick does to the ring, playout is then where the tick wanted it. */
  lemma ActionMeetsTarget(c: Clock, r: Reading, s: JitterRing.State, elapsed: nat)
    requires |s.ring| == JitterRing.RING && r.playout == JitterRing.PlayoutAt(s, elapsed)
    ensures var after := OnRing(s, Tick(c, r).action, elapsed);
      after != s ==> r.now.Some? && JitterRing.PlayoutAt(after, elapsed) == r.now.value - c.latency
  {
    if r.now.Some? { NoErrorAfterAction(c, r); }
  }

  class Playout {
    const jb: JitterBuffer.JitterBuffer
    const clock: MediaClock.MediaClock

    constructor (jb: JitterBuffer.JitterBuffer, clock: MediaClock.MediaClock)
      ensures this.jb == jb && this.clock == clock
    {
      this.jb, this.clock := jb, clock;
    }

    /** Both sides of the clock's view of the buffer. */
    method Read(ptp: Ptp, t: int) returns (r: Reading)
      requires jb.Valid()
      ensures r == Reading(ptp.locked, ptp.rate, ptp.steps, ptp.now, jb.ready, JitterRing.PlayoutAt(jb.run, jb.Elapsed(t)))
    {
      var playout := jb.PlayoutIdx(t);
      r := Reading(ptp.locked, ptp.rate, ptp.steps, ptp.now, jb.ready, playout);
    }

    /** jb_reset and jb_step_playout, as asked for. */
    method Perform(action: Action, t: int)
      requires jb.Valid() && (action.Anchor? ==> jb.ready)
      modifies jb`off, jb`rxHead, jb`anchored, jb`run, jb.hw
      ensures jb.Valid() && |old(jb.run).ring| == JitterRing.RING
      ensures jb.run == OnRing(old(jb.run), action, jb.Elapsed(t))
    {
      match action
      case Idle =>
      case Anchor(playout) => jb.Reset(playout, t);
      case Shift(delta) => jb.StepPlayout(delta);
    }

    /** One tick of the whole path: the run of the clock and the state of the ring both
        move by what the tick decides on the reading, and if playout moved it ends
        where it should be. */
    method Tick(ptp: Ptp, t: int) returns (ghost r: Reading)
      requires jb.Valid() && clock.Valid()
      modifies clock, clock.hw`targetQ16, clock.hw`events, jb`off, jb`rxHead, jb`anchored, jb`run, jb.hw
      ensures jb.Valid() && clock.Valid() && |old(jb.run).ring| == JitterRing.RING
      ensures r == Reading(ptp.locked, ptp.rate, ptp.steps, ptp.now, old(jb.ready), JitterRing.PlayoutAt(old(jb.run), old(jb.Elapsed(t))))
      ensures clock.trace == Apply(old(clock.trace), Ticked(r))
      ensures jb.run == OnRing(old(jb.run), MediaSpec.Tick(old(clock.View()), r).action, jb.Elapsed(t))
      ensures jb.run != old(jb.run) ==> ptp.now.Some? && JitterRing.PlayoutAt(jb.run, jb.Elapsed(t)) == ptp.now.value - clock.latencyFrames
    {
      hide JitterBuffer.JitterBuffer.Valid, JitterBuffer.JitterBuffer.Elapsed, MediaClock.MediaClock.Valid, JitterRing.PlayoutAt, OnRing;
      var reading := Read(ptp, t);
      r := reading;
      ghost var was, ring := clock.View(), jb.run;
      var action := clock.Tick(reading);
      Perform(action, t);
      ActionMeetsTarget(was, reading, ring, jb.Elapsed(t));
    }
  }
}
