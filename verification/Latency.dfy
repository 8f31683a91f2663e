/** The latency budget: how old a packet may be, and still be heard in full. */
module Latency {
  import opened Arith
  import opened JitterRing
  import opened MediaClock

  /** Half a millisecond of frames: what the latency margin buys. */
  function MarginFrames(hz: int): int { hz / 2000 }

  /** The latency in force, in frames, without the bench override. */
  function LatencyFrames(hz: nat, cfg: nat, floor: nat): nat
    requires RateSupported(hz)
  {
    FramesFor(Effective(hz, cfg, floor, 0), hz)
  }

  lemma LatencyRange(hz: nat, cfg: nat, floor: nat)
    requires RateSupported(hz)
    ensures MarginFrames(hz) + DMA_DEPTH <= LatencyFrames(hz, cfg, floor) <= hz / 100
  {
    var us := Effective(hz, cfg, floor, 0);
    MulMonotone(LatencyMinUs(hz), us, hz);
    MulMonotone(us, LATENCY_US_MAX, hz);
  }

  /** What the DMA may have fetched already is always the same 24 frames past the
      sample at the DAC. */
  lemma ReadHeadIsFixed(s: State, el: int)
    ensures ReadHead(s, el) == PlayoutAt(s, el) + DMA_DEPTH
  {}

  /** With no phase error, whatever the setting and the transmitters' demand, a packet
      stamped within the last half millisecond lands with every frame. */
  lemma FreshPacketIsWrittenInFull(s: State, hz: nat, cfg: nat, floor: nat, now: int, first: int, frames: seq<map<int, int>>, el: nat)
    requires |s.ring| == RING && s.anchored && RateSupported(hz)
    requires PlayoutAt(s, el) == now - LatencyFrames(hz, cfg, floor)
    requires now - MarginFrames(hz) <= first <= now && 0 < |frames| <= FUTURE_GUARD - hz / 100
    ensures Judge(first, |frames|, ReadHead(s, el)) == Landed
    ensures forall k, o :: 0 <= k < |frames| && o in frames[k] ==>
      Meant(Apply(s, Write(first, frames, el)), first + k, o) == frames[k][o]
  {
    LatencyRange(hz, cfg, floor);
    forall k, o | 0 <= k < |frames| && o in frames[k]
      ensures Meant(Apply(s, Write(first, frames, el)), first + k, o) == frames[k][o]
    {
      LandedPacketMeaning(s, first, frames, el, first + k, o);
    }
  }

  /** The budget is spent exactly: with the least latency, a packet is heard from its
      first frame on if and only if it is at most half a millisecond old. */
  lemma BudgetIsExact(s: State, hz: nat, now: int, first: int, el: nat)
    requires RateSupported(hz) && PlayoutAt(s, el) == now - LatencyFrames(hz, 0, 0)
    ensures ReadHead(s, el) <= first <==> now - first <= MarginFrames(hz)
  {
    assert Effective(hz, 0, 0, 0) == LatencyMinUs(hz);
  }

  /** While the phase error stays within the hard limit, no packet of up to 632 frames
      stamped no later than now is refused as too far ahead. */
  lemma NeverFuture(s: State, hz: nat, cfg: nat, floor: nat, now: int, first: int, n: nat, el: nat)
    requires RateSupported(hz) && Abs(now - LatencyFrames(hz, cfg, floor) - PlayoutAt(s, el)) <= 480
    requires first <= now && n <= 632
    ensures Judge(first, n, ReadHead(s, el)) != Future
  {
    LatencyRange(hz, cfg, floor);
  }

  /** 632 frames is the most: one more is refused at 96 kHz, the longest latency and
      the largest error. */
  lemma NeverFutureIsTight(s: State, now: int, el: nat)
    requires PlayoutAt(s, el) == now - LatencyFrames(96000, LATENCY_US_MAX, 0) - 480
    ensures Judge(now, 633, ReadHead(s, el)) == Future
  {
    assert Effective(96000, LATENCY_US_MAX, 0, 0) == LATENCY_US_MAX;
  }
}
