/** The jitter buffer itself: the DMA buffers, learned from the TX interrupt and
    written in place, and the proof that they are the ring of JitterRing. */
module JitterBuffer {
  import opened Arith
  import opened JitterRing

  /** How many descriptors after descriptor `from` descriptor k comes round. */
  function Turn(k: int, from: int, N: nat): int
    requires N > 0
  {
    (k - from) % N
  }

  /** Frame i lies (turn of its buffer) * F + (place in it) after the first frame
      of descriptor `from`. */
  lemma LapPlace(i: nat, from: nat, F: nat, N: nat)
    requires 0 < F && 0 < N && N * F == RING && i < RING
    ensures (i - from * F) % RING == Turn(i / F, from, N) * F + i % F
  {
    DivBelow(i, N, F);
    var k, r, q, m := i / F, i % F, (i / F - from) / N, Turn(i / F, from, N);
    assert k - from == q * N + m;
    MulMonotone(m, N - 1, F);
    Times(N - 1, F);
    Spread(k, from, q, m, N, F);
    ModUnique(i - from * F, q, m * F + r, RING);
  }

  lemma Spread(k: int, from: int, q: int, m: int, N: int, F: int)
    requires k - from == q * N + m
    ensures k * F - from * F == q * (N * F) + m * F
  {
    assert (k - from) * F == (q * N) * F + m * F;
    assert (q * N) * F == q * (N * F);
  }

  /** Extending the cleared stretch by one descriptor adds that buffer's frames. */
  lemma LapGrows(i: nat, from: nat, j: nat, F: nat, N: nat)
    requires 0 < F && 0 < N && N * F == RING && i < RING && j < N
    ensures InLap(i, from * F, (j + 1) * F) <==> InLap(i, from * F, j * F) || i / F == (from + j) % N
  {
    DivBelow(i, N, F);
    LapPlace(i, from, F, N);
    NextTurn(i / F, from, j, N);
    var m := Turn(i / F, from, N);
    if m < j { MulMonotone(m + 1, j, F); } else { MulMonotone(j, m, F); }
    if m < j + 1 { MulMonotone(m + 1, j + 1, F); } else { MulMonotone(j + 1, m, F); }
    Times(m, F);
  }

  lemma NextTurn(k: nat, from: nat, j: nat, N: nat)
    requires k < N && j < N
    ensures Turn(k, from, N) < j + 1 <==> Turn(k, from, N) < j || k == (from + j) % N
  {
    var q, m := (k - from) / N, Turn(k, from, N);
    if m == j {
      ModUnique(from + j, -q, k, N);
    } else if k == (from + j) % N {
      var p := (from + j) / N;
      ModUnique(k - from, -p, j, N);
    }
  }

  lemma UnwrittenIsSilent(s: State, i: nat, F: nat)
    requires Geometry(F) && Inv(s, F) && i < RING && !s.anchored
    ensures s.ring[i] == SILENCE
  {
    var slot := s.end + (i - s.end) % RING;
    assert slot % RING == i;
    assert Carries(s, slot);
  }

  // ----- the first lap and coalesced interrupts ----------------------------

  /** An interrupt that covers d descriptors reports the buffer d - 1 places
      after the one expected; the search turns that back into exactly d. */
  lemma SearchIsExact(done: nat, d: nat, N: nat)
    requires 1 <= d <= N
    ensures var k, j := done % N, (done + d - 1) % N;
      (j + N - k) % N + 1 == d && (j + 1) % N == (done + d) % N
  {
    var k := done % N;
    ModAdd(done, d - 1, N);
    NextMod(done + d - 1, N);
    if k + d - 1 < N {
      ModUnique(k + d - 1, 0, k + d - 1, N);
      ModUnique(d - 1 + N, 1, d - 1, N);
    } else {
      ModUnique(k + d - 1, 1, k + d - 1 - N, N);
      ModUnique(d - 1, 0, d - 1, N);
    }
  }

  /** Descriptors finished after the first i interrupts. */
  function Finished(ds: seq<nat>, i: nat): nat
    requires i <= |ds|
  {
    if i == 0 then 0 else Finished(ds, i - 1) + ds[i - 1]
  }

  /** The buffer that actually finished last at interrupt i. */
  function TakenFor(ds: seq<nat>, N: nat, i: nat): int
    requires N > 0 && i < |ds|
  {
    (Finished(ds, i + 1) - 1) % N
  }

  /** During the first lap the i-th interrupt is taken for buffer i. */
  ghost predicate LearnsRing(ds: seq<nat>, N: nat)
    requires N > 0
  {
    forall i :: 0 <= i < |ds| ==> TakenFor(ds, N, i) == i
  }

  /** The map learned in the first lap is right exactly when no interrupt of that
      lap covered more than one descriptor: coalescing is only survivable later. */
  lemma {:induction false} FirstLapLearnsExactlyWhenUncoalesced(ds: seq<nat>, N: nat)
    requires 0 < N && |ds| <= N && forall i :: 0 <= i < |ds| ==> 1 <= ds[i] <= N
    ensures LearnsRing(ds, N) <==> forall i :: 0 <= i < |ds| ==> ds[i] == 1
  {
    if forall i :: 0 <= i < |ds| ==> ds[i] == 1 {
      forall i | 0 <= i < |ds|
        ensures TakenFor(ds, N, i) == i
      {
        OnesCount(ds, i + 1);
        ModUnique(i, 0, i, N);
      }
    }
    if LearnsRing(ds, N) {
      LearnedMeansOnes(ds, N, |ds|);
    }
  }

  lemma {:induction false} OnesCount(ds: seq<nat>, i: nat)
    requires i <= |ds| && forall j :: 0 <= j < i ==> ds[j] == 1
    ensures Finished(ds, i) == i
  {
    if i > 0 { OnesCount(ds, i - 1); }
  }

  lemma {:induction false} LearnedMeansOnes(ds: seq<nat>, N: nat, i: nat)
    requires 0 < N && i <= |ds| <= N && LearnsRing(ds, N)
    requires forall j :: 0 <= j < |ds| ==> 1 <= ds[j] <= N
    ensures forall j :: 0 <= j < i ==> ds[j] == 1
  {
    if i > 0 {
      LearnedMeansOnes(ds, N, i - 1);
      OnesCount(ds, i - 1);
      assert TakenFor(ds, N, i - 1) == i - 1;
      var x := i - 2 + ds[i - 1];
      if ds[i - 1] > 1 {
        ModUnique(i - 1, 0, i - 1, N);
        ModInjective(i - 1, x, N);
        assert false;
      }
    }
  }

  // ----- a packet ----------------------------------------------------------

  const UNITY := 65536

  /** One packet as the flow hands it over: nframes frames of |slotToCh| channels,
      three bytes each, most significant first. */
  datatype Packet = Packet(first: int, nframes: nat, slotToCh: seq<int>, be24: seq<int>)
  {
    ghost predicate WellFormed()
    {
      && |be24| == FrameAt(nframes, |slotToCh|)
      && forall i :: 0 <= i < |be24| ==> 0 <= be24[i] < 256
    }
  }

  /** The 24-bit sample, left-justified in a signed 32-bit word. */
  function Word32(b0: int, b1: int, b2: int): int
  {
    var u := b0 * 0x1000000 + b1 * 0x10000 + b2 * 0x100;
    if u < 0x80000000 then u else u - 0x100000000
  }

  /** Output gain in Q16, saturating: clip at full scale, never wrap. */
  function Scaled(v: int, gain: nat): int
  {
    if gain == UNITY then v else Clamp((v * gain) / UNITY, -0x80000000, 0x7fffffff)
  }

  /** Whatever the gain, the word fits the I2S slot, silence stays silence, mute
      is silence, and a louder sample never comes out quieter. */
  lemma ScaledIsSafe(v: int, w: int, gain: nat)
    requires -0x80000000 <= v <= w <= 0x7fffff00
    ensures -0x80000000 <= Scaled(v, gain) <= Scaled(w, gain) <= 0x7fffffff
    ensures Scaled(0, gain) == 0 && Scaled(v, 0) == 0 && Scaled(v, 65536) == v
  {
    assert v * gain <= w * gain by {
      assert (w - v) * gain >= 0;
    }
    DivMonotone(v * gain, w * gain);
  }

  lemma DivMonotone(a: int, b: int)
    requires a <= b
    ensures a / UNITY <= b / UNITY
  {
  }

  /** Where frame f starts: the source pointer advances n * 3 bytes a frame. */
  function FrameAt(f: nat, n: nat): nat
  {
    if f == 0 then 0 else FrameAt(f - 1, n) + n * 3
  }

  lemma {:induction false} FrameAtGrows(f: nat, g: nat, n: nat)
    requires f < g
    ensures FrameAt(f, n) + n * 3 <= FrameAt(g, n)
  {
    if f + 1 < g { FrameAtGrows(f, g - 1, n); }
  }

  lemma SampleInRange(p: Packet, f: nat, s: nat)
    requires p.WellFormed() && f < p.nframes && s < |p.slotToCh|
    ensures FrameAt(f, |p.slotToCh|) + s * 3 + 3 <= |p.be24|
  {
    FrameAtGrows(f, p.nframes, |p.slotToCh|);
  }

  function Sample(p: Packet, gain: nat, f: nat, s: nat): int
    requires p.WellFormed() && f < p.nframes && s < |p.slotToCh|
  {
    SampleInRange(p, f, s);
    var i := FrameAt(f, |p.slotToCh|) + s * 3;
    Scaled(Word32(p.be24[i], p.be24[i + 1], p.be24[i + 2]), gain)
  }

  /** What the first s wire slots of frame f put on the DAC outputs; a channel
      mapped twice takes the later slot. */
  function Outputs(p: Packet, gain: nat, f: nat, s: nat): (vals: map<int, int>)
    requires p.WellFormed() && f < p.nframes && s <= |p.slotToCh|
    ensures FrameOk(vals)
  {
    if s == 0 then map[]
    else
      var before := Outputs(p, gain, f, s - 1);
      var ch := p.slotToCh[s - 1];
      if 0 <= ch < NCH then before[OutSlot(ch) := Sample(p, gain, f, s - 1)] else before
  }

  /** Wire slot s is mapped to output o. */
  predicate Maps(p: Packet, s: nat, o: int)
    requires s < |p.slotToCh|
  {
    0 <= o < NCH && OutSlot(p.slotToCh[s]) == o
  }

  /** An output is written exactly when some slot is mapped to it, and then gets the
      sample of the last such slot. */
  lemma {:induction false} OutputIsLastMapped(p: Packet, gain: nat, f: nat, n: nat, o: int)
    requires p.WellFormed() && f < p.nframes && n <= |p.slotToCh|
    ensures o in Outputs(p, gain, f, n) <==> exists s :: 0 <= s < n && Maps(p, s, o)
    ensures forall s :: 0 <= s < n && Maps(p, s, o) && (forall j :: s < j < n ==> !Maps(p, j, o)) ==>
      Outputs(p, gain, f, n)[o] == Sample(p, gain, f, s)
  {
    if n > 0 {
      OutputIsLastMapped(p, gain, f, n - 1, o);
      if Maps(p, n - 1, o) {
        assert o in Outputs(p, gain, f, n);
      }
    }
  }

  lemma {:induction false} FrameAtIs(f: nat, n: nat)
    ensures FrameAt(f, n) == f * n * 3
  {
    if f > 0 {
      FrameAtIs(f - 1, n);
      Distribute(f - 1, 1, n);
    }
  }

  // ----- what was sent is what is heard ------------------------------------

  /** Slot s of frame f carries the signed 24-bit sample v: its three bytes, most
      significant first, in two's complement. */
  ghost predicate Carries24(p: Packet, f: nat, s: nat, v: int)
  {
    && f < p.nframes && s < |p.slotToCh| && -0x800000 <= v <= 0x7fffff
    && var i := (f * |p.slotToCh| + s) * 3;
       && 0 <= i && i + 3 <= |p.be24|
       && p.be24[i] * 65536 + p.be24[i + 1] * 256 + p.be24[i + 2] == if v < 0 then v + 0x1000000 else v
  }

  /** Slot s plays: its channel is one of ours, and no later slot is for the same one. */
  ghost predicate PlaysLast(p: Packet, s: nat)
  {
    s < |p.slotToCh| && 0 <= p.slotToCh[s] < 8 && forall j :: s < j < |p.slotToCh| ==> p.slotToCh[j] != p.slotToCh[s]
  }

  /** x is v, left-justified in 32 bits, times gain / 65536, rounded down and clipped. */
  ghost predicate Amplified(x: int, v: int, gain: nat)
  {
    && -0x80000000 <= x <= 0x7fffffff
    && (x > -0x80000000 ==> 256 * x <= v * gain)
    && (x < 0x7fffffff ==> v * gain < 256 * (x + 1))
  }

  /** That fixes x, and at 0 dB it is the sample itself. */
  lemma AmplifiedExactly(x: int, y: int, v: int, gain: nat)
    requires Amplified(x, v, gain) && Amplified(y, v, gain) && -0x800000 <= v <= 0x7fffff
    ensures x == y && (gain == 65536 ==> x == 256 * v)
  {}

  lemma AmplifiedIs(v: int, gain: nat)
    requires -0x800000 <= v <= 0x7fffff
    ensures Amplified(Scaled(256 * v, gain), v, gain)
  {
    assert (256 * v) * gain == 256 * (v * gain);
  }

  lemma WordOf(b0: int, b1: int, b2: int, v: int)
    requires 0 <= b0 < 256 && 0 <= b1 < 256 && 0 <= b2 < 256 && -0x800000 <= v <= 0x7fffff
    requires b0 * 65536 + b1 * 256 + b2 == if v < 0 then v + 0x1000000 else v
    ensures Word32(b0, b1, b2) == 256 * v
  {}

  /** The DAC output 7 - ch of a slot mapped to channel ch gets the sample sent in it. */
  lemma SentIsOutput(p: Packet, gain: nat, f: nat, s: nat, v: int)
    requires p.WellFormed() && Carries24(p, f, s, v) && PlaysLast(p, s)
    ensures var vals := Outputs(p, gain, f, |p.slotToCh|); var o := 7 - p.slotToCh[s];
      o in vals && Amplified(vals[o], v, gain)
  {
    var n := |p.slotToCh|;
    SampleIs(p, gain, f, s, v);
    var o := 7 - p.slotToCh[s];
    OutputIsLastMapped(p, gain, f, n, o);
    assert Maps(p, s, o);
    forall j | s < j < n ensures !Maps(p, j, o) { assert p.slotToCh[j] != p.slotToCh[s]; }
    hide Outputs, Amplified, Carries24;
  }

  lemma SampleIs(p: Packet, gain: nat, f: nat, s: nat, v: int)
    requires p.WellFormed() && Carries24(p, f, s, v)
    ensures Amplified(Sample(p, gain, f, s), v, gain)
  {
    var n := |p.slotToCh|;
    FrameAtIs(f, n);
    Distribute(f * n, s, 3);
    SampleInRange(p, f, s);
    hide FrameAt, Scaled, Amplified;
    var i := FrameAt(f, n) + s * 3;
    WordOf(p.be24[i], p.be24[i + 1], p.be24[i + 2], v);
    AmplifiedIs(v, gain);
  }

  /** A timeline on which all of the packet from absolute sample `from` on has arrived:
      every sample means, on its output, what was sent. */
  ghost predicate Arrived(run: State, p: Packet, gain: nat, from: int)
  {
    forall f: nat, s: nat, v: int {:trigger Carries24(p, f, s, v)} :: Carries24(p, f, s, v) && PlaysLast(p, s) && p.first + f >= from ==>
      Amplified(Meant(run, p.first + f, 7 - p.slotToCh[s]), v, gain)
  }

  lemma LandedArrives(was: State, p: Packet, gain: nat, el: nat)
    requires |was.ring| == RING && p.WellFormed() && p.nframes > 0 && was.anchored
    requires 0 < p.first + p.nframes - (was.end + el + 16 - was.off) <= 2048
    ensures Arrived(Apply(was, Write(p.first, FramesOf(p, gain), el)), p, gain, was.end + el + 16 - was.off)
  {
    hide Outputs, Amplified, Apply;
    var run := Apply(was, Write(p.first, FramesOf(p, gain), el));
    forall f: nat, s: nat, v: int | Carries24(p, f, s, v) && PlaysLast(p, s) && p.first + f >= was.end + el + 16 - was.off
      ensures Amplified(Meant(run, p.first + f, 7 - p.slotToCh[s]), v, gain)
    {
      SentIsOutput(p, gain, f, s, v);
      LandedPacketMeaning(was, p.first, FramesOf(p, gain), el, p.first + f, 7 - p.slotToCh[s]);
    }
  }

  lemma CarriedRange(p: Packet, f: nat, s: nat, v: int)
    requires Carries24(p, f, s, v) && PlaysLast(p, s)
    ensures s < |p.slotToCh| && -0x800000 <= v <= 0x7fffff && 0 <= 7 - p.slotToCh[s] < 8
  {}

  /** What was sent is what is heard: a sample of a packet that arrived, from the read head
      on, is what the DMA plays at its slot, unless something is written or mapped in
      between. */
  lemma SentIsHeard(run: State, p: Packet, gain: nat, from: int, es: seq<Event>, f: nat, s: nat, v: int, F: nat)
    requires Geometry(F) && Inv(run, F) && Legal(run, es, F) && Quiet(es) && Arrived(run, p, gain, from)
    requires Carries24(p, f, s, v) && PlaysLast(p, s) && p.first + f >= from
    ensures var t := Run(run, es);
      t.played == p.first + f + run.off && t.played < t.end + RING ==>
        Amplified(Heard(t)[7 - p.slotToCh[s]], v, gain)
        && (gain == 65536 ==> Heard(t)[7 - p.slotToCh[s]] == 256 * v)
  {
    hide Inv, Legal, Quiet, Run, Heard, Meant, Carries24, PlaysLast, Amplified;
    CarriedRange(p, f, s, v);
    var x := Meant(run, p.first + f, 7 - p.slotToCh[s]);
    AmplifiedExactly(x, x, v, gain);
    QuietRunIsHeard(run, es, p.first + f, 7 - p.slotToCh[s], F);
  }

  function FramesOf(p: Packet, gain: nat): (fs: seq<map<int, int>>)
    requires p.WellFormed()
    ensures |fs| == p.nframes && forall v :: v in fs ==> FrameOk(v)
  {
    seq(p.nframes, f requires 0 <= f < p.nframes => Outputs(p, gain, f, |p.slotToCh|))
  }

  // ----- the buffer --------------------------------------------------------

  class JitterBuffer {
    const F: nat
    const N: nat
    const hz: nat
    const hw: seq<array<int>>           // the driver's DMA buffers, in descriptor order

    var buf: seq<array<int>>            // the same, as learned so far
    var ready: bool
    var nextK: nat
    var dmaEnd: nat
    var tIsr: int
    var off: int
    var anchored: bool
    var rxHead: int

    var done: nat                       // the driver's count of finished descriptors
    var played: nat                     // hardware: the next slot the DMA reads
    ghost var run: State

    /** The DMA buffers make up the ring, and those learned so far are the first. */
    ghost predicate Shape()
      reads this
    {
      && 0 < F && 0 < N && N * F == RING && Geometry(F)
      && |hw| == N
      && (forall k :: 0 <= k < N ==> hw[k].Length == F * NCH)
      && (forall j, k :: 0 <= j < k < N ==> hw[j] != hw[k])
      && |buf| <= N && buf == hw[..|buf|]
      && (ready <==> |buf| == N)
    }

    /** The acknowledged position agrees with the hardware. */
    ghost predicate Wired()
      reads this
    {
      && Shape()
      && dmaEnd == done * F
      && nextK == done % N
      && (!ready ==> done == |buf|)
      && (anchored ==> ready)
    }

    static function Row(b: array<int>, r: nat): (f: Frame)
      requires r * NCH + NCH <= b.Length
      reads b
    {
      b[r * NCH..r * NCH + NCH]
    }

    /** Which buffer ring position i is in. */
    function BufOf(i: nat): (k: nat)
      requires 0 < F && N * F == RING && i < RING
      ensures k < N && i == k * F + i % F
    {
      DivBelow(i, N, F);
      i / F
    }

    lemma RowFits(r: nat)
      requires r < F
      ensures r * NCH + NCH <= F * NCH
    {
    }

    /** Frame i of the ring, in the DMA's memory. */
    ghost function Memory(i: nat): Frame
      requires Shape() && i < RING
      reads this, hw
    {
      RowFits(i % F);
      Row(hw[BufOf(i)], i % F)
    }

    ghost predicate Mirrors(ring: seq<Frame>)
      requires Shape() && |ring| == RING
      reads this, hw
    {
      forall i {:trigger Memory(i)} {:trigger ring[i]} :: 0 <= i < RING ==> Memory(i) == ring[i]
    }

    ghost predicate Valid()
      reads this, hw
    {
      && Wired()
      && Inv(run, F)
      && dmaEnd == run.end && played == run.played && off == run.off && anchored == run.anchored
      && Mirrors(run.ring)
    }

    /** jb_attach_dma: the driver has allocated its buffers, zeroed, and the DMA
        stands at descriptor 0. */
    constructor (F: nat, N: nat, hz: nat, hw: seq<array<int>>)
      requires 0 < F && 0 < N && N * F == RING && Geometry(F) && |hw| == N
      requires forall k :: 0 <= k < N ==> hw[k].Length == F * NCH && forall j :: 0 <= j < F * NCH ==> hw[k][j] == 0
      requires forall j, k :: 0 <= j < k < N ==> hw[j] != hw[k]
      ensures Valid() && run == Start() && !ready
      ensures this.F == F && this.N == N && this.hz == hz && this.hw == hw
    {
      this.F, this.N, this.hz, this.hw := F, N, hz, hw;
      buf, ready, nextK, dmaEnd, tIsr := [], false, 0, 0, 0;
      off, anchored, rxHead := 0, false, 0;
      done, played, run := 0, 0, Start();
      new;
      ModUnique(0, 0, 0, N);
      StartInv(F);
      forall i | 0 <= i < RING
        ensures Memory(i) == run.ring[i]
      {
        RowFits(i % F);
        assert Memory(i) == SILENCE;
      }
    }

    /** Frames the DMA has read since the last interrupt, as the timer tells it;
        clamped, so that a stalled interrupt cannot make it run away. */
    function Elapsed(now: int): (el: int)
      reads `tIsr
      ensures 0 <= el <= 2 * F
      ensures el > 0 ==> 1000000 * el <= (now - tIsr) * hz
      ensures el < 2 * F ==> (now - tIsr) * hz < 1000000 * (el + 1)
    {
      Clamp(TruncDiv((now - tIsr) * hz, 1000000), 0, 2 * F)
    }

    method DmaPosNow(now: int) returns (pos: int)
      ensures pos == dmaEnd + Elapsed(now)
    {
      var el := TruncDiv((now - tIsr) * hz, 1000000);
      if el < 0 { el := 0; }
      if el > 2 * F { el := 2 * F; }
      pos := dmaEnd + el;
    }

    method PlayoutIdx(now: int) returns (a: int)
      requires Valid()
      ensures a == PlayoutAt(run, Elapsed(now))
    {
      var pos := DmaPosNow(now);
      a := pos - I2S_FIFO - off;
    }

    /** Which descriptor finished, and how many since the last interrupt. */
    method Search(b: array<int>, d: nat) returns (k: nat, adv: nat)
      requires Wired() && ready && 1 <= d <= N && b == hw[(done + d - 1) % N]
      ensures k == (done + d - 1) % N && adv == d
    {
      SearchIsExact(done, d, N);
      k, adv := nextK, 1;
      if buf[k] != b {
        var j := 0;
        while j < N
          invariant 0 <= j <= N
          invariant forall i :: 0 <= i < j ==> buf[i] != b
        {
          if buf[j] == b {
            return j, (j + N - k) % N + 1;
          }
          j := j + 1;
        }
        assert false;
      } else if d > 1 {
        ModInjective(done, done + d - 1, N);
        assert false;
      }
    }

    /** The TX interrupt: b is the buffer that finished last, d descriptors after
        the previous interrupt. */
    method IsrSent(b: array<int>, now: int, d: nat)
      requires Wired() && 1 <= d <= N && b == hw[(done + d - 1) % N]
      requires !ready ==> d == 1
      modifies this`buf, this`ready, this`nextK, this`dmaEnd, this`tIsr, this`done
      ensures Wired() && done == old(done) + d
      ensures dmaEnd == old(dmaEnd) + d * F && tIsr == now
      ensures old(ready) ==> ready && buf == old(buf)
      ensures !old(ready) ==> buf == old(buf) + [b]
    {
      Distribute(done, d, F);
      if !ready {
        ModUnique(done, 0, done, N);
        buf := buf + [b];
        dmaEnd := dmaEnd + F;
        nextK := |buf| % N;
        if |buf| == N { ready := true; }
      } else {
        var k, adv := Search(b, d);
        SearchIsExact(done, d, N);
        dmaEnd := dmaEnd + adv * F;
        nextK := (k + 1) % N;
      }
      tIsr := now;
      done := done + d;
    }

    static method Zero(b: array<int>)
      modifies b
      ensures forall j :: 0 <= j < b.Length ==> b[j] == 0
    {
      forall j | 0 <= j < b.Length { b[j] := 0; }
    }

    ghost predicate Blank(k: nat)
      requires Shape() && k < N
      reads this, hw
    {
      forall j :: 0 <= j < hw[k].Length ==> hw[k][j] == 0
    }

    lemma BlankIsSilent(i: nat)
      requires Shape() && i < RING && Blank(BufOf(i))
      ensures Memory(i) == SILENCE
    {
      RowFits(i % F);
    }

    /** auto_clear of the j-th of the finished descriptors. */
    method ClearOne(ghost ring: seq<Frame>, from: nat, j: nat)
      requires Shape() && j < N && |ring| == RING
      requires Mirrors(Zeroed(ring, from * F, j * F))
      modifies hw
      ensures Mirrors(Zeroed(ring, from * F, (j + 1) * F))
    {
      ghost var before := Zeroed(ring, from * F, j * F);
      ghost var c := (from + j) % N;
      Zero(hw[(from + j) % N]);
      forall i | 0 <= i < RING
        ensures Memory(i) == Zeroed(ring, from * F, (j + 1) * F)[i]
      {
        LapGrows(i, from, j, F, N);
        assert old(Memory(i)) == before[i];
        if BufOf(i) == c {
          BlankIsSilent(i);
        } else {
          assert Memory(i) == old(Memory(i));
        }
      }
    }

    /** auto_clear of d descriptors, oldest first. */
    method AutoClear(ghost ring: seq<Frame>, from: nat, d: nat)
      requires Shape() && d <= N && |ring| == RING && Mirrors(ring)
      modifies hw
      ensures Mirrors(Zeroed(ring, from * F, d * F))
    {
      assert Zeroed(ring, from * F, 0) == ring;
      hide Zeroed;
      var j := 0;
      while j < d
        invariant 0 <= j <= d
        invariant Mirrors(Zeroed(ring, from * F, j * F))
      {
        ClearOne(ring, from, j);
        j := j + 1;
      }
    }

    /** The driver's on_sent callback, then its auto_clear of every descriptor
        that has finished: the buffer refines one Acknowledge step. */
    method OnSent(b: array<int>, now: int, d: nat)
      requires Valid() && 1 <= d <= N && b == hw[(done + d - 1) % N]
      requires !ready ==> d == 1
      requires Enabled(run, Acknowledge(d * F), F)
      modifies this`buf, this`ready, this`nextK, this`dmaEnd, this`tIsr, this`done, this`run, hw
      ensures Valid() && run == Apply(old(run), Acknowledge(d * F)) && tIsr == now && done == old(done) + d
    {
      ghost var next := Apply(run, Acknowledge(d * F));
      AcknowledgeInv(run, d * F, F);
      var from := done;
      IsrSent(b, now, d);
      AutoClear(run.ring, from, d);
      run := next;
    }

    /** The DMA reads the next frame. Between two interrupts it never laps the
        acknowledged position: an interrupt is late by less than the whole ring. */
    method DmaPlay() returns (heard: seq<int>)
      requires Valid() && Enabled(run, Play, F)
      modifies this`played, this`run
      ensures Valid() && run == Apply(old(run), Play)
      ensures |heard| == NCH && forall o :: 0 <= o < NCH ==> heard[o] == Meant(run, old(run.played) - off, o)
    {
      var i := played % RING;
      RowFits(i % F);
      heard := hw[BufOf(i)][(i % F) * NCH..(i % F) * NCH + NCH];
      assert heard == Memory(i) == run.ring[i];
      assert Carries(run, played);
      StepInv(run, Play, F);
      played := played + 1;
      run := Apply(run, Play);
    }

    method ClearRing()
      requires Shape()
      modifies buf
      ensures forall k :: 0 <= k < |buf| ==> Blank(k)
    {
      var k := 0;
      while k < |buf|
        invariant 0 <= k <= |buf|
        invariant forall j :: 0 <= j < k ==> Blank(j)
      {
        var b := buf[k];
        assert b == hw[k];
        label before:
        Zero(b);
        forall j | 0 <= j < k + 1
          ensures Blank(j)
        {
          if j < k {
            assert old@before(Blank(j));
            assert hw[j] != b;
          }
        }
        k := k + 1;
      }
    }

    /** jb_reset: playout_idx is at the DAC now. Ignored while the ring is still
        being learned. */
    method Reset(playoutIdx: int, now: int)
      requires Valid()
      modifies this`off, this`rxHead, this`anchored, this`run, hw
      ensures Valid()
      ensures !ready ==> run == old(run) && rxHead == old(rxHead)
      ensures ready ==> run == Apply(old(run), Remap(playoutIdx, Elapsed(now))) && rxHead == playoutIdx
    {
      if !ready { return; }
      var pos := DmaPosNow(now);
      StepInv(run, Remap(playoutIdx, Elapsed(now)), F);
      run := Apply(run, Remap(playoutIdx, Elapsed(now)));
      off := pos - I2S_FIFO - playoutIdx;
      rxHead := playoutIdx;
      anchored := true;
      ClearRing();
      forall i | 0 <= i < RING ensures Memory(i) == run.ring[i] { BlankIsSilent(i); }
    }

    /** jb_step_playout: move the sample at the DAC by delta, at the price of what
        was already written. */
    method StepPlayout(delta: int)
      requires Valid()
      modifies this`off, this`run, hw
      ensures Valid() && run == Apply(old(run), Step(delta))
    {
      ghost var was := run;
      StepInv(run, Step(delta), F);
      run := Apply(run, Step(delta));
      off := off - delta;
      ClearRing();
      forall i | 0 <= i < RING
        ensures Memory(i) == run.ring[i]
      {
        if BufOf(i) < |buf| {
          BlankIsSilent(i);
        } else {
          UnwrittenIsSilent(was, i, F);
        }
      }
    }

    static ghost predicate RowHolds(row: array<int>, r: nat, was: Frame, vals: map<int, int>)
      requires r * NCH + NCH <= row.Length
      reads row
    {
      forall o :: 0 <= o < NCH ==> row[r * NCH + o] == if o in vals then vals[o] else was[o]
    }

    /** One slot's sample goes to the output it is mapped to, if to any. */
    static method WriteSample(row: array<int>, r: nat, p: Packet, gain: nat, f: nat, at: nat, s: nat, ghost was: Frame)
      requires r * NCH + NCH <= row.Length && p.WellFormed() && f < p.nframes && s < |p.slotToCh|
      requires at == FrameAt(f, |p.slotToCh|) + s * 3
      requires RowHolds(row, r, was, Outputs(p, gain, f, s))
      modifies row
      ensures RowHolds(row, r, was, Outputs(p, gain, f, s + 1))
      ensures forall x :: 0 <= x < row.Length && !(r * NCH <= x < r * NCH + NCH) ==> row[x] == old(row[x])
    {
      SampleInRange(p, f, s);
      var ch := p.slotToCh[s];
      if 0 <= ch < NCH {
        var v := Word32(p.be24[at], p.be24[at + 1], p.be24[at + 2]);
        row[r * NCH + OutSlot(ch)] := Scaled(v, gain);
      }
    }

    /** Store frame f of the packet in row r of one DMA buffer. */
    static method WriteRow(row: array<int>, r: nat, p: Packet, gain: nat, f: nat, src: nat)
      requires r * NCH + NCH <= row.Length && p.WellFormed() && f < p.nframes
      requires src == FrameAt(f, |p.slotToCh|)
      modifies row
      ensures Row(row, r) == Overlay(old(Row(row, r)), Outputs(p, gain, f, |p.slotToCh|))
      ensures forall x: nat {:trigger Row(row, x)} :: x != r && x * NCH + NCH <= row.Length ==> Row(row, x) == old(Row(row, x))
    {
      var at, s := src, 0;
      while s < |p.slotToCh|
        invariant 0 <= s <= |p.slotToCh| && at == src + s * 3
        invariant RowHolds(row, r, old(Row(row, r)), Outputs(p, gain, f, s))
        invariant forall x :: 0 <= x < row.Length && !(r * NCH <= x < r * NCH + NCH) ==> row[x] == old(row[x])
      {
        WriteSample(row, r, p, gain, f, at, s, old(Row(row, r)));
        at := at + 3;
        s := s + 1;
      }
    }

    /** Two ring positions are in different buffers or in different rows. */
    lemma Elsewhere(i: nat, j: nat)
      requires Shape() && i < RING && j < RING && i != j
      ensures hw[BufOf(i)] != hw[BufOf(j)] || i % F != j % F
    {
    }

    /** Where ring position i is stored, once all buffers are known. */
    lemma BufIndex(i: nat)
      requires Shape() && ready && i < RING
      ensures (i / F) % N < |buf| && buf[(i / F) % N] == hw[BufOf(i)] && (i % F) * NCH + NCH <= hw[BufOf(i)].Length
    {
      DivBelow(i, N, F);
      ModUnique(i / F, 0, i / F, N);
      RowFits(i % F);
    }

    /** Store frame f of the packet in ring position i. */
    method WriteFrame(p: Packet, gain: nat, f: nat, src: nat, i: nat, ghost ring: seq<Frame>)
      requires Shape() && ready && p.WellFormed() && f < p.nframes && i < RING
      requires src == FrameAt(f, |p.slotToCh|)
      requires |ring| == RING && Mirrors(ring)
      modifies hw
      ensures Mirrors(ring[i := Overlay(ring[i], Outputs(p, gain, f, |p.slotToCh|))])
    {
      var k := (i / F) % N;
      BufIndex(i);
      assert Memory(i) == ring[i];
      WriteRow(buf[k], i % F, p, gain, f, src);
      forall j | 0 <= j < RING
        ensures Memory(j) == ring[i := Overlay(ring[i], Outputs(p, gain, f, |p.slotToCh|))][j]
      {
        assert old(Memory(j)) == ring[j];
        RowFits(j % F);
        if j != i { Elsewhere(i, j); }
      }
    }

    /** The loop of jb_write: every frame that has not passed the read head. */
    method WriteFrames(p: Packet, gain: nat, readA: int, ghost ring: seq<Frame>, ghost frames: seq<map<int, int>>)
      returns (ghost next: seq<Frame>)
      requires Shape() && ready && p.WellFormed() && |frames| == p.nframes
      requires forall f :: 0 <= f < p.nframes ==> frames[f] == Outputs(p, gain, f, |p.slotToCh|)
      requires |ring| == RING && Mirrors(ring)
      modifies hw
      ensures next == RingFrom(ring, off, p.first, frames, readA, 0) && Mirrors(next)
    {
      hide Outputs, Overlay, RingFrom;
      next := ring;
      var f: nat, src: nat := 0, 0;
      while f < p.nframes
        invariant 0 <= f <= p.nframes && src == FrameAt(f, |p.slotToCh|)
        invariant |next| == RING && Mirrors(next)
        invariant RingFrom(next, off, p.first, frames, readA, f) == RingFrom(ring, off, p.first, frames, readA, 0)
      {
        RingFromNext(next, off, p.first, frames, readA, f);
        if p.first + f >= readA {
          var i := (p.first + f + off) % RING;
          WriteFrame(p, gain, f, src, i, next);
          next := next[i := Overlay(next[i], frames[f])];
        }
        src := src + |p.slotToCh| * 3;
        f := f + 1;
      }
      RingFromNext(next, off, p.first, frames, readA, f);
    }

    /** jb_write: true exactly when the packet lands, and then the ring is changed
        exactly as one Write step says. */
    method Write(p: Packet, gain: nat, now: int) returns (landed: bool)
      requires Valid() && p.WellFormed()
      modifies this`rxHead, this`run, hw
      ensures Valid()
      ensures landed <==> (p.nframes > 0 && p.slotToCh != [] && anchored
                           && 0 < p.first + p.nframes - (old(dmaEnd) + Elapsed(now) + 16 - old(off)) <= 2048)
      ensures !landed ==> run == old(run) && rxHead == old(rxHead)
      ensures landed ==> run == Apply(old(run), JitterRing.Write(p.first, FramesOf(p, gain), Elapsed(now)))
      ensures landed ==> rxHead == Max(old(rxHead), p.first + p.nframes)
      ensures landed ==> Arrived(run, p, gain, old(dmaEnd) + Elapsed(now) + 16 - old(off))
    {
      hide Elapsed, PutFrom, RingFrom, Outputs, Arrived;
      if p.nframes == 0 || p.slotToCh == [] { return false; }
      if !ready || !anchored { return false; }
      var pos := DmaPosNow(now);
      var readA := pos + DMA_AHEAD - off;
      var ahead := p.first - readA;
      if ahead + p.nframes <= 0 { return false; }
      if ahead + p.nframes > FUTURE_GUARD { return false; }

      ghost var e := JitterRing.Write(p.first, FramesOf(p, gain), Elapsed(now));
      LandedArrives(run, p, gain, Elapsed(now));
      Land(p, gain, readA, e);
      var end := p.first + p.nframes;
      if end - rxHead > 0 { rxHead := end; }
      return true;
    }

    /** A packet in time is laid into the ring. */
    method Land(p: Packet, gain: nat, readA: int, ghost e: Event)
      requires Valid() && ready && anchored && p.WellFormed() && p.nframes > 0
      requires e.Write? && e.first == p.first && e.frames == FramesOf(p, gain) && EventOk(e) && Enabled(run, e, F)
      requires readA == ReadHead(run, e.elapsed) && Judge(p.first, p.nframes, readA) == Landed
      modifies this`run, hw
      ensures Valid() && run == Apply(old(run), e)
    {
      assert |run.ring| == RING;
      hide Inv, Enabled, EventOk, PutFrom, RingFrom, Outputs;
      StepInv(run, e, F);
      PutFromRing(run, p.first, e.frames, readA, 0);
      ghost var ring := WriteFrames(p, gain, readA, run.ring, e.frames);
      run := Apply(run, e);
    }
  }
}
