/** What arrives on the wire as the receive DMA writes it: segments, one per
    descriptor, and the frames they make up. */
module EmacFrames {
  import opened Arith
  import opened Prelude

  const BUFFER := 1600
  const CRC := 4
  const MAX_PACKET := 1522

  /** One filled descriptor: the status bits of RDES0 and the bytes stored. */
  datatype Seg = Seg(first: bool, last: bool, err: bool, length: nat, data: seq<Byte>)

  /** What the receive task did with one frame. */
  datatype Outcome =
    | Delivered(bytes: seq<Byte>)
    | DroppedError
    | DroppedNoMemory
    | DroppedTruncated

  function Bytes(frame: seq<Seg>): (b: seq<Byte>)
  {
    if frame == [] then [] else Bytes(frame[..|frame| - 1]) + frame[|frame| - 1].data
  }

  /** A frame as the MAC stores it: flags on its first and last segment only,
      and, unless an error is reported, full buffers up to the last one and a
      length that counts every byte including the CRC. */
  ghost predicate FrameOk(frame: seq<Seg>)
  {
    && frame != []
    && (forall i :: 0 <= i < |frame| ==> (frame[i].last <==> i == |frame| - 1))
    && (forall i :: 0 <= i < |frame| ==> (frame[i].first <==> i == 0))
    && var z := frame[|frame| - 1];
       z.err ||
       (&& (forall i :: 0 <= i < |frame| - 1 ==> |frame[i].data| == BUFFER)
        && 0 < |z.data| <= BUFFER
        && z.length == (|frame| - 1) * BUFFER + |z.data|
        && z.length > CRC)
  }

  /** What must become of a frame, given whether there is memory for it. */
  function Decide(frame: seq<Seg>, memory: bool): Outcome
    requires frame != []
  {
    var z := frame[|frame| - 1];
    if z.err then DroppedError
    else if !memory then DroppedNoMemory
    else if z.length > MAX_PACKET + CRC then DroppedTruncated
    else Delivered(Bytes(frame)[..Clamp(z.length - CRC, 0, |Bytes(frame)|)])
  }

  /** The last segment of the frame that starts at k; |w| while it is incomplete. */
  function EndOf(w: seq<Seg>, k: nat): (e: nat)
    requires k <= |w|
    ensures k <= e <= |w|
    ensures e < |w| ==> w[e].last
    decreases |w| - k
  {
    if k == |w| || w[k].last then k else EndOf(w, k + 1)
  }

  lemma {:induction false} EndIs(w: seq<Seg>, k: nat, e: nat)
    requires k <= e < |w| && w[e].last && forall i :: k <= i < e ==> !w[i].last
    ensures EndOf(w, k) == e
    decreases e - k
  {
    if k < e { EndIs(w, k + 1, e); }
  }

  /** The frame ends at the first Last bit from k on, or earlier. */
  lemma {:induction false} EndsBy(w: seq<Seg>, k: nat, i: nat)
    requires k <= i < |w| && w[i].last
    ensures EndOf(w, k) <= i
    decreases i - k
  {
    if k < i { EndsBy(w, k + 1, i); }
  }

  ghost predicate StartsFrame(w: seq<Seg>, k: nat)
    requires k <= |w|
  {
    k == 0 || w[k - 1].last
  }

  /** The frame that starts at k, once it is complete. */
  function FrameAt(w: seq<Seg>, k: nat): (frame: seq<Seg>)
    requires k <= |w| && EndOf(w, k) < |w|
    ensures frame != [] && frame[|frame| - 1] == w[EndOf(w, k)]
  {
    w[k..EndOf(w, k) + 1]
  }

  ghost predicate GoodFrameAt(w: seq<Seg>, k: nat)
    requires k <= |w|
  {
    StartsFrame(w, k) && EndOf(w, k) < |w| ==> FrameOk(FrameAt(w, k))
  }

  /** Segments arrive in order: a First bit exactly after a Last one, and every
      completed frame is as the MAC stores it. */
  ghost predicate Stream(w: seq<Seg>)
  {
    && (forall k {:trigger w[k].first} :: 0 <= k < |w| ==> (w[k].first <==> StartsFrame(w, k)))
    && (forall k {:trigger GoodFrameAt(w, k)} :: 0 <= k < |w| ==> GoodFrameAt(w, k))
  }

  /** The frames completed within w[from..to], in order. */
  function Frames(w: seq<Seg>, from: nat, to: nat): seq<seq<Seg>>
    requires from <= to <= |w|
    decreases |w| - from
  {
    var e := EndOf(w, from);
    if e >= to then [] else [FrameAt(w, from)] + Frames(w, e + 1, to)
  }

  /** Exactly once and in order: the i-th outcome is what became of the i-th frame. */
  ghost predicate Settled(frames: seq<seq<Seg>>, log: seq<Outcome>, memory: seq<bool>)
  {
    |log| == |frames| == |memory| && forall i :: 0 <= i < |log| ==> frames[i] != [] && log[i] == Decide(frames[i], memory[i])
  }

  lemma {:induction false} FramesNext(w: seq<Seg>, from: nat, to: nat)
    requires from <= to <= |w| && StartsFrame(w, to) && EndOf(w, to) < |w|
    ensures Frames(w, from, EndOf(w, to) + 1) == Frames(w, from, to) + [FrameAt(w, to)]
    decreases |w| - from
  {
    var e := EndOf(w, from);
    if from < to {
      EndsBy(w, from, to - 1);
      FramesNext(w, e + 1, to);
    } else {
      assert Frames(w, e + 1, e + 1) == [];
    }
  }

  lemma SettledNext(w: seq<Seg>, from: nat, to: nat, log: seq<Outcome>, memory: seq<bool>, m: bool)
    requires from <= to <= |w| && StartsFrame(w, to) && Settled(Frames(w, from, to), log, memory)
    requires EndOf(w, to) < |w|
    ensures Settled(Frames(w, from, EndOf(w, to) + 1), log + [Decide(FrameAt(w, to), m)], memory + [m])
  {
    FramesNext(w, from, to);
  }

  /** Last bits in w[from..to]: complete frames, as a descriptor walk counts them. */
  function FrameCount(w: seq<Seg>, from: nat, to: nat): nat
    requires from <= to <= |w|
    decreases |w| - from
  {
    if from == to then 0 else FrameCount(w, from + 1, to) + (if w[from].last then 1 else 0)
  }

  lemma {:induction false} FrameCountNext(w: seq<Seg>, from: nat, to: nat)
    requires from <= to < |w|
    ensures FrameCount(w, from, to + 1) == FrameCount(w, from, to) + if w[to].last then 1 else 0
    decreases |w| - from
  {
    if from < to { FrameCountNext(w, from + 1, to); }
  }

  /** A stretch holds a complete frame exactly when its first frame is complete. */
  lemma {:induction false} FirstFrameDecides(w: seq<Seg>, lo: nat, hi: nat)
    requires lo <= hi <= |w|
    ensures FrameCount(w, lo, hi) != 0 <==> EndOf(w, lo) < hi
    decreases |w| - lo
  {
    if lo < hi && !w[lo].last { FirstFrameDecides(w, lo + 1, hi); }
  }

  /** The walk that stops at its first Last bit has seen all it needs. */
  lemma StopsAtFirst(w: seq<Seg>, lo: nat, k: nat, hi: nat)
    requires lo <= k < hi <= |w| && w[k].last && FrameCount(w, lo, k) == 0
    ensures EndOf(w, lo) == k && FrameCount(w, lo, hi) >= 1
  {
    EndsBy(w, lo, k);
    FirstFrameDecides(w, lo, k);
    FirstFrameDecides(w, lo, hi);
  }

  lemma {:induction false} FramesCount(w: seq<Seg>, from: nat, to: nat)
    requires from <= to <= |w|
    ensures |Frames(w, from, to)| == FrameCount(w, from, to)
    decreases |w| - from
  {
    var e := EndOf(w, from);
    if e < to {
      FramesCount(w, e + 1, to);
      CountOfOne(w, from, to);
    } else {
      FirstFrameDecides(w, from, to);
    }
  }

  lemma {:induction false} CountOfOne(w: seq<Seg>, from: nat, to: nat)
    requires from <= to <= |w| && EndOf(w, from) < to
    ensures FrameCount(w, from, to) == 1 + FrameCount(w, EndOf(w, from) + 1, to)
    decreases |w| - from
  {
    if !w[from].last { CountOfOne(w, from + 1, to); }
  }

  // ----- bytes -------------------------------------------------------------

  lemma {:induction false} BytesPrefix(frame: seq<Seg>, j: nat)
    requires j <= |frame|
    ensures Bytes(frame[..j]) <= Bytes(frame)
    decreases |frame| - j
  {
    if j < |frame| {
      assert frame[..j + 1][..j] == frame[..j];
      BytesPrefix(frame, j + 1);
    } else {
      assert frame[..j] == frame;
    }
  }

  lemma {:induction false} FullBytes(frame: seq<Seg>, j: nat)
    requires j <= |frame| && forall i :: 0 <= i < j ==> |frame[i].data| == BUFFER
    ensures |Bytes(frame[..j])| == j * BUFFER
  {
    if j > 0 {
      assert frame[..j][..j - 1] == frame[..j - 1];
      FullBytes(frame, j - 1);
    }
  }

  /** A good frame holds exactly the bytes its length says. */
  lemma FrameLength(frame: seq<Seg>)
    requires FrameOk(frame) && !frame[|frame| - 1].err
    ensures |Bytes(frame)| == frame[|frame| - 1].length
  {
    FullBytes(frame, |frame| - 1);
  }

  // ----- the sender's view -------------------------------------------------

  /** How the DMA cuts the rest of a frame of `total` bytes into buffers. */
  function Cut(x: seq<Byte>, total: nat, first: bool): (frame: seq<Seg>)
    ensures frame != []
    decreases |x|
  {
    if |x| <= BUFFER then [Seg(first, true, false, total, x)]
    else [Seg(first, false, false, 0, x[..BUFFER])] + Cut(x[BUFFER..], total, false)
  }

  lemma {:induction false} CutIsOk(x: seq<Byte>, total: nat, first: bool)
    requires x != []
    ensures var f := Cut(x, total, first);
      && (forall i :: 0 <= i < |f| ==> (f[i].last <==> i == |f| - 1))
      && (forall i :: 0 <= i < |f| ==> (f[i].first <==> first && i == 0))
      && (forall i :: 0 <= i < |f| - 1 ==> |f[i].data| == BUFFER)
      && 0 < |f[|f| - 1].data| <= BUFFER
      && |x| == (|f| - 1) * BUFFER + |f[|f| - 1].data|
      && f[|f| - 1].length == total && !f[|f| - 1].err
    decreases |x|
  {
    if |x| > BUFFER { CutIsOk(x[BUFFER..], total, false); }
  }

  lemma BytesUnfold(f: seq<Seg>)
    ensures Bytes(f) == if f == [] then [] else Bytes(f[..|f| - 1]) + f[|f| - 1].data
  {}

  lemma {:induction false} BytesOfAppend(s: Seg, f: seq<Seg>)
    ensures Bytes([s] + f) == s.data + Bytes(f)
    decreases |f|
  {
    hide Bytes;
    BytesUnfold([s] + f);
    if f == [] {
      assert [s] + f == [s] && [s][..0] == [];
      BytesUnfold([s][..0]);
    } else {
      var n, all := |f| - 1, [s] + f;
      assert all[..|all| - 1] == [s] + f[..n] && all[|all| - 1] == f[n];
      BytesOfAppend(s, f[..n]);
      BytesUnfold(f);
    }
  }

  lemma {:induction false} CutBytes(x: seq<Byte>, total: nat, first: bool)
    ensures Bytes(Cut(x, total, first)) == x
    decreases |x|
  {
    if |x| > BUFFER {
      CutBytes(x[BUFFER..], total, false);
      BytesOfAppend(Seg(first, false, false, 0, x[..BUFFER]), Cut(x[BUFFER..], total, false));
    } else {
      assert Bytes(Cut(x, total, first)[..0]) == [];
    }
  }

  /** Round trip: the payload put on the wire with its CRC arrives as a good
      frame, and delivering that frame means delivering exactly the payload. */
  lemma WireRoundTrip(payload: seq<Byte>, crc: seq<Byte>)
    requires payload != [] && |crc| == CRC
    ensures var f := Cut(payload + crc, |payload| + CRC, true);
      FrameOk(f) && Decide(f, false) == DroppedNoMemory
      && Decide(f, true) == if |payload| <= MAX_PACKET then Delivered(payload) else DroppedTruncated
  {
    var x := payload + crc;
    CutIsOk(x, |x|, true);
    CutBytes(x, |x|, true);
    assert x[..|payload|] == payload;
  }

  // ----- end to end --------------------------------------------------------

  /** Frames on the wire, one after the other. */
  function Joined(fs: seq<seq<Seg>>): seq<Seg>
  {
    if fs == [] then [] else fs[0] + Joined(fs[1..])
  }

  ghost predicate Shaped(f: seq<Seg>)
  {
    f != [] && forall i :: 0 <= i < |f| ==> (f[i].last <==> i == |f| - 1)
  }

  lemma {:induction false} EndOfShift(f: seq<Seg>, w: seq<Seg>, k: nat)
    requires k <= |w|
    ensures EndOf(f + w, |f| + k) == |f| + EndOf(w, k)
    decreases |w| - k
  {
    if k < |w| && !w[k].last { EndOfShift(f, w, k + 1); }
  }

  lemma FrameAtShift(f: seq<Seg>, w: seq<Seg>, k: nat)
    requires k <= |w| && EndOf(w, k) < |w|
    ensures EndOf(f + w, |f| + k) < |f + w| && FrameAt(f + w, |f| + k) == FrameAt(w, k)
  {
    EndOfShift(f, w, k);
  }

  lemma FramesUnfold(w: seq<Seg>, from: nat, to: nat)
    requires from <= to <= |w|
    ensures Frames(w, from, to) ==
      if EndOf(w, from) >= to then [] else [FrameAt(w, from)] + Frames(w, EndOf(w, from) + 1, to)
  {}

  lemma {:induction false} FramesShift(f: seq<Seg>, w: seq<Seg>, from: nat, to: nat)
    requires from <= to <= |w|
    ensures Frames(f + w, |f| + from, |f| + to) == Frames(w, from, to)
    decreases |w| - from
  {
    hide Frames, FrameAt, EndOf;
    FramesUnfold(w, from, to);
    FramesUnfold(f + w, |f| + from, |f| + to);
    EndOfShift(f, w, from);
    var e := EndOf(w, from);
    if e < to {
      FrameAtShift(f, w, from);
      FramesShift(f, w, e + 1, to);
    }
  }

  lemma FrontFrame(f: seq<Seg>, w: seq<Seg>)
    requires Shaped(f)
    ensures EndOf(f + w, 0) == |f| - 1 && FrameAt(f + w, 0) == f
  {
    EndIs(f + w, 0, |f| - 1);
  }

  lemma FramesFront(f: seq<Seg>, w: seq<Seg>, to: nat)
    requires Shaped(f) && to <= |f + w|
    ensures Frames(f + w, 0, to) == if to < |f| then [] else [f] + Frames(w, 0, to - |f|)
  {
    hide Frames, EndOf, FrameAt;
    FrontFrame(f, w);
    FramesUnfold(f + w, 0, to);
    if |f| <= to { FramesShift(f, w, 0, to - |f|); }
  }

  lemma FrontIndex(f: seq<Seg>, w: seq<Seg>, to: nat, i: nat)
    requires Shaped(f) && to <= |f + w| && i < |Frames(f + w, 0, to)|
    ensures |f| <= to
    ensures i == 0 ==> Frames(f + w, 0, to)[i] == f
    ensures i > 0 ==> i - 1 < |Frames(w, 0, to - |f|)| && Frames(f + w, 0, to)[i] == Frames(w, 0, to - |f|)[i - 1]
  {
    FramesFront(f, w, to);
  }

  ghost predicate AllShaped(fs: seq<seq<Seg>>) { forall j :: 0 <= j < |fs| ==> Shaped(fs[j]) }

  lemma JoinedUnfold(fs: seq<seq<Seg>>)
    requires AllShaped(fs)
    ensures fs != [] ==> Shaped(fs[0]) && AllShaped(fs[1..]) && Joined(fs) == fs[0] + Joined(fs[1..])
    ensures fs == [] ==> Joined(fs) == [] && Frames(Joined(fs), 0, 0) == []
  {}

  /** Reading frames off the wire recovers the frames that were put on it. */
  lemma {:induction false} JoinedFrames(fs: seq<seq<Seg>>, to: nat, i: nat)
    requires AllShaped(fs) && to <= |Joined(fs)|
    requires i < |Frames(Joined(fs), 0, to)|
    ensures i < |fs| && Frames(Joined(fs), 0, to)[i] == fs[i]
    decreases |fs|
  {
    hide Frames, Joined, AllShaped, Shaped;
    JoinedUnfold(fs);
    if fs != [] {
      FrontIndex(fs[0], Joined(fs[1..]), to, i);
      if i > 0 { JoinedFrames(fs[1..], to - |fs[0]|, i - 1); }
    }
  }

  lemma {:induction false} JoinedCount(fs: seq<seq<Seg>>)
    requires forall j :: 0 <= j < |fs| ==> Shaped(fs[j])
    ensures |Frames(Joined(fs), 0, |Joined(fs)|)| == |fs|
    decreases |fs|
  {
    if fs != [] {
      assert Joined(fs) == fs[0] + Joined(fs[1..]);
      FramesFront(fs[0], Joined(fs[1..]), |Joined(fs)|);
      JoinedCount(fs[1..]);
    }
  }

  lemma FrontFirst(f: seq<Seg>, w: seq<Seg>, k: nat)
    requires FrameOk(f) && Stream(w) && k < |f + w|
    ensures (f + w)[k].first <==> StartsFrame(f + w, k)
  {
    if k >= |f| {
      assert (f + w)[k] == w[k - |f|];
      assert w[k - |f|].first <==> StartsFrame(w, k - |f|);
    }
  }

  lemma StartsShift(f: seq<Seg>, w: seq<Seg>, k: nat)
    requires Shaped(f) && k <= |f + w|
    ensures k < |f| ==> (StartsFrame(f + w, k) <==> k == 0)
    ensures k >= |f| ==> (StartsFrame(f + w, k) <==> StartsFrame(w, k - |f|))
  {}

  lemma LaterGood(f: seq<Seg>, w: seq<Seg>, m: nat)
    requires Shaped(f) && m <= |w| && GoodFrameAt(w, m)
    ensures GoodFrameAt(f + w, |f| + m)
  {
    hide FrameOk, EndOf, FrameAt, StartsFrame;
    StartsShift(f, w, |f| + m);
    EndOfShift(f, w, m);
    if EndOf(w, m) < |w| { FrameAtShift(f, w, m); }
  }

  lemma FrontGood(f: seq<Seg>, w: seq<Seg>, k: nat)
    requires FrameOk(f) && Shaped(f) && Stream(w) && k < |f + w|
    ensures GoodFrameAt(f + w, k)
  {
    hide FrameOk, StartsFrame, EndOf, FrameAt;
    StartsShift(f, w, k);
    if k == 0 {
      FrontFrame(f, w);
    } else if k >= |f| {
      LaterGood(f, w, k - |f|);
    }
  }

  /** Good frames one after the other are a stream the ring may be given. */
  lemma {:induction false} JoinedStream(fs: seq<seq<Seg>>)
    requires forall j :: 0 <= j < |fs| ==> FrameOk(fs[j])
    ensures Stream(Joined(fs))
    decreases |fs|
  {
    if fs != [] {
      JoinedStream(fs[1..]);
      var f, w := fs[0], Joined(fs[1..]);
      var all: seq<Seg> := f + w;
      forall k | 0 <= k < |all|
        ensures (all[k].first <==> StartsFrame(all, k)) && GoodFrameAt(all, k)
      {
        FrontFirst(f, w, k);
        FrontGood(f, w, k);
      }
    }
  }

  /** What comes in from the network: a payload with its own CRC, or a frame the MAC
      reports an error for. */
  datatype Wire = Payload(bytes: seq<Byte>, crc: seq<Byte>) | Broken(frame: seq<Seg>)

  ghost predicate WireOk(x: Wire)
  {
    match x
    case Payload(bytes, crc) => bytes != [] && |crc| == 4
    case Broken(frame) => FrameOk(frame) && frame[|frame| - 1].err
  }

  function AsFrame(x: Wire): seq<Seg>
  {
    match x
    case Payload(bytes, crc) => Cut(bytes + crc, |bytes| + CRC, true)
    case Broken(frame) => frame
  }

  function Incoming(ws: seq<Wire>): (fs: seq<seq<Seg>>)
    ensures |fs| == |ws| && forall j :: 0 <= j < |ws| ==> fs[j] == AsFrame(ws[j])
  {
    seq(|ws|, j requires 0 <= j < |ws| => AsFrame(ws[j]))
  }

  /** What has to become of it. */
  function Fate(x: Wire, memory: bool): Outcome
  {
    if x.Broken? then DroppedError
    else if !memory then DroppedNoMemory
    else if |x.bytes| <= 1522 then Delivered(x.bytes) else DroppedTruncated
  }

  lemma WireFate(x: Wire, memory: bool)
    requires WireOk(x)
    ensures FrameOk(AsFrame(x)) && Shaped(AsFrame(x)) && Decide(AsFrame(x), memory) == Fate(x, memory)
  {
    if x.Payload? { WireRoundTrip(x.bytes, x.crc); }
  }

  /** Whatever comes in is a stream the receive ring may be given. */
  lemma IncomingIsStream(ws: seq<Wire>)
    requires forall j :: 0 <= j < |ws| ==> WireOk(ws[j])
    ensures Stream(Joined(Incoming(ws)))
  {
    forall j | 0 <= j < |ws| ensures FrameOk(Incoming(ws)[j]) { WireFate(ws[j], true); }
    JoinedStream(Incoming(ws));
  }

  /** What is delivered is what was sent, in the order it was sent: the i-th outcome is
      about the i-th arrival, and is exactly that payload's delivery when there was
      memory for it and it is not longer than a packet may be; and once all of it has
      been taken there is an outcome for every one. */
  lemma DeliveredIsSent(ws: seq<Wire>, to: nat, log: seq<Outcome>, memory: seq<bool>)
    requires forall j :: 0 <= j < |ws| ==> WireOk(ws[j])
    requires to <= |Joined(Incoming(ws))| && Settled(Frames(Joined(Incoming(ws)), 0, to), log, memory)
    ensures |log| == |memory| <= |ws| && (to == |Joined(Incoming(ws))| ==> |log| == |ws|)
    ensures forall i :: 0 <= i < |log| ==> log[i] == Fate(ws[i], memory[i])
  {
    var fs := Incoming(ws);
    forall j | 0 <= j < |ws| ensures Shaped(fs[j]) { WireFate(ws[j], true); }
    JoinedCount(fs);
    if |log| > |ws| {
      JoinedFrames(fs, to, |ws|);
      assert false;
    }
    forall i | 0 <= i < |log|
      ensures log[i] == Fate(ws[i], memory[i])
    {
      JoinedFrames(fs, to, i);
      WireFate(ws[i], memory[i]);
    }
  }
}
