/** What the playout ring means: a state machine over unwrapped slots.

    The ring is the I2S driver's own DMA buffers. Slot s is frame s % RING of
    the ring; absolute sample a lives in slot a + off. `played` is where the DMA
    really is, `end` is what the TX interrupt has acknowledged (and the driver
    has zeroed); they differ while interrupts are pending or coalesced.
    `written` is the abstract content: the last value written for a sample and
    DAC output since the timeline was last mapped. */
module JitterRing {
  import opened Arith

  const NCH := 8
  const RING := 4096
  const FUTURE_GUARD := 2048
  const DMA_AHEAD := 16
  const I2S_FIFO := 8

  type Frame = f: seq<int> | |f| == NCH witness seq(NCH, _ => 0)

  const SILENCE: Frame := seq(NCH, _ => 0)

  /** Receive channel 0 plays on DAC output 7, and so on down. */
  function OutSlot(ch: int): int { NCH - 1 - ch }

  datatype State = State(
    ring: seq<Frame>,
    played: nat,
    end: nat,
    off: int,
    anchored: bool,
    written: map<(int, int), int>)

  datatype Event =
    | Play
    | Acknowledge(count: nat)
    | Write(first: int, frames: seq<map<int, int>>, elapsed: nat)
    | Remap(playout: int, elapsed: nat)
    | Step(delta: int)

  /** The most frames ahead of the acknowledged position a write may touch. */
  function Window(F: nat): nat { 2 * F + DMA_AHEAD + FUTURE_GUARD }

  /** The geometry audio_out sets up: F-frame buffers, the whole ring. */
  ghost predicate Geometry(F: nat) { 0 < F && Window(F) <= RING }

  // ----- playout arithmetic ------------------------------------------------

  /** The absolute sample at the DAC, when the DMA is `elapsed` frames past `end`. */
  function PlayoutAt(s: State, elapsed: int): int { s.end + elapsed - I2S_FIFO - s.off }

  /** The first absolute sample that can still be heard. */
  function ReadHead(s: State, elapsed: int): int { s.end + elapsed + DMA_AHEAD - s.off }

  datatype Verdict = Late | Future | Landed

  function Judge(first: int, n: nat, readHead: int): Verdict
  {
    var ahead := first - readHead;
    if ahead + n <= 0 then Late
    else if ahead + n > FUTURE_GUARD then Future
    else Landed
  }

  // ----- transitions -------------------------------------------------------

  function Overlay(f: Frame, vals: map<int, int>): Frame
  {
    seq(NCH, o requires 0 <= o < NCH => if o in vals then vals[o] else f[o])
  }

  function Note(w: map<(int, int), int>, a: int, vals: map<int, int>): map<(int, int), int>
  {
    w + map o | o in vals :: (a, o) := vals[o]
  }

  function Put(s: State, a: int, vals: map<int, int>): State
    requires |s.ring| == RING
  {
    var i := (a + s.off) % RING;
    s.(ring := s.ring[i := Overlay(s.ring[i], vals)], written := Note(s.written, a, vals))
  }

  /** Frames [f..] of the packet, those already past the read head skipped. */
  function PutFrom(s: State, first: int, frames: seq<map<int, int>>, readHead: int, f: nat): (r: State)
    requires |s.ring| == RING && f <= |frames|
    ensures |r.ring| == RING && r.end == s.end && r.off == s.off && r.played == s.played && r.anchored == s.anchored
    decreases |frames| - f
  {
    if f == |frames| then s
    else if first + f < readHead then PutFrom(s, first, frames, readHead, f + 1)
    else PutFrom(Put(s, first + f, frames[f]), first, frames, readHead, f + 1)
  }

  /** The same on the ring alone: what the buffers hold, without the history. */
  function RingFrom(ring: seq<Frame>, off: int, first: int, frames: seq<map<int, int>>, readHead: int, f: nat): (r: seq<Frame>)
    requires |ring| == RING && f <= |frames|
    ensures |r| == RING
    decreases |frames| - f
  {
    if f == |frames| then ring
    else if first + f < readHead then RingFrom(ring, off, first, frames, readHead, f + 1)
    else
      var i := (first + f + off) % RING;
      RingFrom(ring[i := Overlay(ring[i], frames[f])], off, first, frames, readHead, f + 1)
  }

  lemma RingFromNext(ring: seq<Frame>, off: int, first: int, frames: seq<map<int, int>>, readHead: int, f: nat)
    requires |ring| == RING && f <= |frames|
    ensures f == |frames| ==> RingFrom(ring, off, first, frames, readHead, f) == ring
    ensures f < |frames| && first + f < readHead ==>
      RingFrom(ring, off, first, frames, readHead, f) == RingFrom(ring, off, first, frames, readHead, f + 1)
    ensures var i := (first + f + off) % RING;
      f < |frames| && first + f >= readHead ==>
        RingFrom(ring, off, first, frames, readHead, f)
        == RingFrom(ring[i := Overlay(ring[i], frames[f])], off, first, frames, readHead, f + 1)
  {}

  lemma {:induction false} PutFromRing(s: State, first: int, frames: seq<map<int, int>>, readHead: int, f: nat)
    requires |s.ring| == RING && f <= |frames|
    ensures PutFrom(s, first, frames, readHead, f).ring == RingFrom(s.ring, s.off, first, frames, readHead, f)
    decreases |frames| - f
  {
    if f < |frames| {
      PutFromRing(if first + f < readHead then s else Put(s, first + f, frames[f]), first, frames, readHead, f + 1);
    }
  }

  predicate InLap(i: int, lo: nat, n: nat) { (i - lo) % RING < n }

  function Zeroed(ring: seq<Frame>, lo: nat, n: nat): seq<Frame>
    requires |ring| == RING
  {
    seq(RING, i requires 0 <= i < RING => if InLap(i, lo, n) then SILENCE else ring[i])
  }

  function AllSilent(): seq<Frame> { seq(RING, _ => SILENCE) }

  ghost predicate Enabled(s: State, e: Event, F: nat)
  {
    match e
    case Play => s.played < s.end + RING
    case Acknowledge(n) => 0 < n && s.end + n <= s.played
    case Write(_, _, el) => el <= 2 * F
    case Remap(_, el) => el <= 2 * F
    case Step(_) => true
  }

  function Apply(s: State, e: Event): (r: State)
    requires |s.ring| == RING
    ensures |r.ring| == RING
  {
    match e
    case Play => s.(played := s.played + 1)
    case Acknowledge(n) => s.(ring := Zeroed(s.ring, s.end, n), end := s.end + n)
    case Write(first, frames, el) =>
      if |frames| == 0 || !s.anchored || Judge(first, |frames|, ReadHead(s, el)) != Landed then s
      else PutFrom(s, first, frames, ReadHead(s, el), 0)
    case Remap(playout, el) =>
      s.(ring := AllSilent(), off := s.end + el - I2S_FIFO - playout, anchored := true, written := map[])
    case Step(delta) => s.(ring := AllSilent(), off := s.off - delta, written := map[])
  }

  // ----- meaning -----------------------------------------------------------

  /** What sample a should sound like on output o: the last value written, or silence. */
  function Meant(s: State, a: int, o: int): int
  {
    if (a, o) in s.written then s.written[(a, o)] else 0
  }

  ghost predicate Carries(s: State, slot: nat)
    requires |s.ring| == RING
  {
    forall o :: 0 <= o < NCH ==> s.ring[slot % RING][o] == Meant(s, slot - s.off, o)
  }

  /** The ring holds exactly one lap, starting at the acknowledged position, and
      nothing has been written beyond the window. */
  ghost predicate Inv(s: State, F: nat)
  {
    && |s.ring| == RING
    && s.end <= s.played <= s.end + RING
    && (!s.anchored ==> s.written == map[])
    && (forall k :: k in s.written ==> 0 <= k.1 < NCH && k.0 + s.off < s.end + Window(F))
    && (forall slot: nat {:trigger Carries(s, slot)} :: s.end <= slot < s.end + RING ==> Carries(s, slot))
  }

  ghost predicate FrameOk(vals: map<int, int>) { forall o :: o in vals ==> 0 <= o < NCH }

  ghost predicate EventOk(e: Event)
  {
    e.Write? ==> forall v :: v in e.frames ==> FrameOk(v)
  }

  function Start(): State { State(AllSilent(), 0, 0, 0, false, map[]) }

  lemma StartInv(F: nat)
    requires Geometry(F)
    ensures Inv(Start(), F)
  {
  }

  lemma PutCarries(s: State, a: int, vals: map<int, int>, slot: nat)
    requires |s.ring| == RING && Carries(s, slot)
    requires slot == a + s.off || (slot - RING < a + s.off < slot + RING)
    ensures Carries(Put(s, a, vals), slot)
  {
    if slot < a + s.off {
      ModInjective(slot, a + s.off, RING);
    } else if a + s.off < slot {
      ModInjective(a + s.off, slot, RING);
    }
  }

  /** Writing one frame inside the window changes the meaning of its own slot
      and of no other slot of the lap. */
  lemma PutInv(s: State, a: int, vals: map<int, int>, F: nat)
    requires Geometry(F) && Inv(s, F) && FrameOk(vals)
    requires s.anchored && s.end <= a + s.off < s.end + Window(F)
    ensures Inv(Put(s, a, vals), F)
  {
    forall slot: nat | s.end <= slot < s.end + RING
      ensures Carries(Put(s, a, vals), slot)
    {
      assert Carries(s, slot);
      PutCarries(s, a, vals, slot);
    }
  }

  lemma {:induction false} PutFromInv(s: State, first: int, frames: seq<map<int, int>>, readHead: int, f: nat, F: nat)
    requires Geometry(F) && Inv(s, F) && f <= |frames|
    requires forall v :: v in frames ==> FrameOk(v)
    requires s.anchored && s.end <= readHead + s.off && first + |frames| + s.off <= s.end + Window(F)
    ensures Inv(PutFrom(s, first, frames, readHead, f), F)
    decreases |frames| - f
  {
    assert |s.ring| == RING;
    hide Inv, FrameOk, Overlay, Note;
    if f < |frames| {
      if first + f < readHead {
        PutFromInv(s, first, frames, readHead, f + 1, F);
      } else {
        PutInv(s, first + f, frames[f], F);
        PutFromInv(Put(s, first + f, frames[f]), first, frames, readHead, f + 1, F);
      }
    }
  }

  lemma AcknowledgeInv(s: State, n: nat, F: nat)
    requires Geometry(F) && Inv(s, F) && Enabled(s, Acknowledge(n), F)
    ensures Inv(Apply(s, Acknowledge(n)), F)
  {
    var t := Apply(s, Acknowledge(n));
    forall slot: nat | t.end <= slot < t.end + RING
      ensures Carries(t, slot)
    {
      var i := slot % RING;
      AcknowledgedAt(s.end, slot);
      if slot < s.end + RING { assert Carries(s, slot); }
      assert t.ring[i] == if slot < s.end + RING then s.ring[i] else SILENCE;
    }
  }

  /** Where a slot of this lap or the next lies, from the acknowledged position on. */
  lemma AcknowledgedAt(end: nat, slot: nat)
    requires end <= slot < end + 2 * RING
    ensures (slot % RING - end) % RING == if slot < end + RING then slot - end else slot - end - RING
  {
    assert slot == (slot / RING) * RING + slot % RING;
  }

  /** Every step of the jitter buffer, the DMA and the interrupt keeps it. */
  lemma StepInv(s: State, e: Event, F: nat)
    requires Geometry(F) && Inv(s, F) && Enabled(s, e, F) && EventOk(e)
    ensures Inv(Apply(s, e), F)
  {
    match e
    case Play =>
      forall slot: nat | s.end <= slot < s.end + RING
        ensures Carries(Apply(s, e), slot)
      {
        assert Carries(s, slot);
      }
    case Acknowledge(n) => AcknowledgeInv(s, n, F);
    case Write(first, frames, el) =>
      if |frames| > 0 && s.anchored && Judge(first, |frames|, ReadHead(s, el)) == Landed {
        PutFromInv(s, first, frames, ReadHead(s, el), 0, F);
      }
    case Remap(_, _) =>
    case Step(_) =>
  }

  // ----- whole runs --------------------------------------------------------

  ghost predicate Legal(s: State, es: seq<Event>, F: nat)
    requires |s.ring| == RING
    decreases |es|
  {
    es == [] || (Enabled(s, es[0], F) && EventOk(es[0]) && Legal(Apply(s, es[0]), es[1..], F))
  }

  function Run(s: State, es: seq<Event>): (r: State)
    requires |s.ring| == RING
    ensures |r.ring| == RING
    decreases |es|
  {
    if es == [] then s else Run(Apply(s, es[0]), es[1..])
  }

  lemma {:induction false} RunInv(s: State, es: seq<Event>, F: nat)
    requires Geometry(F) && Inv(s, F) && Legal(s, es, F)
    ensures Inv(Run(s, es), F)
    decreases |es|
  {
    if es != [] {
      StepInv(s, es[0], F);
      RunInv(Apply(s, es[0]), es[1..], F);
    }
  }

  /** What the DMA puts out next. */
  function Heard(s: State): Frame
    requires |s.ring| == RING
  {
    s.ring[s.played % RING]
  }

  /** In every run, however interrupts, writes, anchors and steps interleave, the
      frame the DMA plays is, output by output, the last value written for that
      sample since the timeline was mapped, or silence. */
  lemma PlayedFrameIsLastWritten(es: seq<Event>, F: nat)
    requires Geometry(F) && Legal(Start(), es, F) && Enabled(Run(Start(), es), Play, F)
    ensures var s := Run(Start(), es);
      forall o :: 0 <= o < NCH ==> Heard(s)[o] == Meant(s, s.played - s.off, o)
  {
    StartInv(F);
    RunInv(Start(), es, F);
    assert Carries(Run(Start(), es), Run(Start(), es).played);
  }

  /** Nothing survives into the next lap: once the interrupt has acknowledged a
      slot, the slot one lap later is silent until it is written itself. */
  lemma OldAudioNeverReturns(s: State, n: nat, slot: nat, o: int, F: nat)
    requires Geometry(F) && Inv(s, F) && Enabled(s, Acknowledge(n), F)
    requires s.end <= slot < s.end + n
    ensures Apply(s, Acknowledge(n)).ring[(slot + RING) % RING] == SILENCE
    ensures (slot + RING - s.off, o) !in Apply(s, Acknowledge(n)).written
  {
    assert (slot % RING - s.end) % RING == slot - s.end;
  }

  /** A landed packet reaches the abstract timeline exactly: every frame at or
      past the read head carries its values, no other sample changes. */
  lemma {:induction false} PutFromMeaning(s: State, first: int, frames: seq<map<int, int>>, readHead: int, f: nat, a: int, o: int)
    requires |s.ring| == RING && f <= |frames|
    ensures var k := a - first;
      Meant(PutFrom(s, first, frames, readHead, f), a, o) ==
      if readHead <= a && f <= k < |frames| && o in frames[k] then frames[k][o] else Meant(s, a, o)
    decreases |frames| - f
  {
    hide Meant, Put;
    if f < |frames| {
      if first + f < readHead {
        PutFromMeaning(s, first, frames, readHead, f + 1, a, o);
      } else {
        PutMeaning(s, first + f, frames[f], a, o);
        PutFromMeaning(Put(s, first + f, frames[f]), first, frames, readHead, f + 1, a, o);
      }
    }
  }

  lemma PutMeaning(s: State, at: int, vals: map<int, int>, a: int, o: int)
    requires |s.ring| == RING
    ensures |Put(s, at, vals).ring| == RING
    ensures Meant(Put(s, at, vals), a, o) == if a == at && o in vals then vals[o] else Meant(s, a, o)
  {
    NoteMeaning(s.written, at, vals, (a, o));
    hide Note;
  }

  lemma NoteMeaning(w: map<(int, int), int>, a: int, vals: map<int, int>, k: (int, int))
    ensures k in Note(w, a, vals) <==> k in w || (k.0 == a && k.1 in vals)
    ensures k in Note(w, a, vals) ==>
      Note(w, a, vals)[k] == if k.0 == a && k.1 in vals then vals[k.1] else w[k]
  {
    var added := map o | o in vals :: (a, o) := vals[o];
    if k.0 == a && k.1 in vals {
      assert (a, k.1) in added;
    }
  }

  /** A packet changes the meaning of the samples it carries from the read head on, 16
      frames past the DMA, even if it is partly behind it; all of it is refused only if
      none is left, or if it reaches more than 2048 frames ahead. */
  lemma LandedPacketMeaning(s: State, first: int, frames: seq<map<int, int>>, el: nat, a: int, o: int)
    requires |s.ring| == RING && |frames| > 0
    ensures var head := s.end + el + 16 - s.off;
      Meant(Apply(s, Write(first, frames, el)), a, o) ==
      if s.anchored && 0 < first + |frames| - head <= 2048 && head <= a && 0 <= a - first < |frames| && o in frames[a - first]
      then frames[a - first][o] else Meant(s, a, o)
  {
    PutFromMeaning(s, first, frames, ReadHead(s, el), 0, a, o);
  }

  ghost predicate Quiet(es: seq<Event>) { forall e :: e in es ==> e.Play? || e.Acknowledge? }

  lemma {:induction false} QuietRunKeepsMeaning(s: State, es: seq<Event>)
    requires |s.ring| == RING && Quiet(es)
    ensures Run(s, es).written == s.written && Run(s, es).off == s.off
    decreases |es|
  {
    if es != [] {
      assert es[0] in es;
      assert forall e :: e in es[1..] ==> e in es;
      QuietRunKeepsMeaning(Apply(s, es[0]), es[1..]);
    }
  }

  /** A frame of a landed packet is heard: when the DMA gets to its slot, with no
      other packet or re-map in between, it plays exactly the packet's values. */
  lemma LandedFrameIsHeard(s: State, first: int, frames: seq<map<int, int>>, el: nat, es: seq<Event>, k: nat, o: int, F: nat)
    requires Geometry(F) && Inv(s, F) && Enabled(s, Write(first, frames, el), F) && EventOk(Write(first, frames, el))
    requires Legal(Apply(s, Write(first, frames, el)), es, F) && Quiet(es)
    requires s.anchored && k < |frames| && Judge(first, |frames|, ReadHead(s, el)) == Landed
    requires ReadHead(s, el) <= first + k && 0 <= o < NCH && o in frames[k]
    ensures var t := Run(Apply(s, Write(first, frames, el)), es);
      t.played == first + k + s.off && t.played < t.end + RING ==> Heard(t)[o] == frames[k][o]
  {
    var u := Apply(s, Write(first, frames, el));
    LandedPacketMeaning(s, first, frames, el, first + k, o);
    assert Meant(u, first + k, o) == frames[k][o];
    StepInv(s, Write(first, frames, el), F);
    QuietRunIsHeard(u, es, first + k, o, F);
  }

  lemma QuietRunIsHeard(u: State, es: seq<Event>, a: int, o: int, F: nat)
    requires Geometry(F) && Inv(u, F) && Legal(u, es, F) && Quiet(es) && 0 <= o < NCH
    ensures var t := Run(u, es);
      t.played == a + u.off && t.played < t.end + RING ==> Heard(t)[o] == Meant(u, a, o)
  {
    RunInv(u, es, F);
    QuietRunKeepsMeaning(u, es);
    var t := Run(u, es);
    if t.played == a + u.off && t.played < t.end + RING {
      assert Carries(t, t.played);
    }
  }
}
