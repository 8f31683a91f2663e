/** The receive descriptor ring, shared bit by bit with a DMA that may run at any
    moment, and the receive loop that drains it. */
module EmacRx {
  import opened Arith
  import opened EmacFrames
  import opened Prelude

  datatype Desc = Desc(own: Owner, seg: Seg)

  const EMPTY_SEG := Seg(false, false, false, 0, [])

  /** A copy that needs more than one buffer is not at its last segment. */
  lemma FullSegment(frame: seq<Seg>, j: nat, copyLen: nat)
    requires FrameOk(frame) && !frame[|frame| - 1].err && j < |frame|
    requires j * BUFFER + copyLen <= frame[|frame| - 1].length - CRC && copyLen > BUFFER
    ensures j + 1 < |frame| && |frame[j].data| == BUFFER
    ensures Bytes(frame[..j + 1]) == Bytes(frame[..j]) + frame[j].data
  {
    assert frame[..j + 1][..j] == frame[..j];
  }

  /** The last piece of a copy lies inside one segment, CRC left behind. */
  lemma LastCopy(frame: seq<Seg>, j: nat, copyLen: nat)
    requires FrameOk(frame) && !frame[|frame| - 1].err && j < |frame|
    requires j * BUFFER + copyLen <= frame[|frame| - 1].length - CRC && copyLen <= BUFFER
    ensures copyLen <= |frame[j].data| && j * BUFFER + copyLen <= |Bytes(frame)|
    ensures Bytes(frame[..j]) + frame[j].data[..copyLen] == Bytes(frame)[..j * BUFFER + copyLen]
  {
    FrameLength(frame);
    WithinSegment(frame, j, copyLen);
    FullBytes(frame, j);
    BytesPrefix(frame, j + 1);
    assert Bytes(frame[..j + 1]) == Bytes(frame[..j]) + frame[j].data by { assert frame[..j + 1][..j] == frame[..j]; }
    hide FrameOk, Bytes;
  }

  lemma WithinSegment(frame: seq<Seg>, j: nat, copyLen: nat)
    requires FrameOk(frame) && !frame[|frame| - 1].err && j < |frame|
    requires j * BUFFER + copyLen <= frame[|frame| - 1].length - CRC && copyLen <= BUFFER
    ensures copyLen <= |frame[j].data| && forall i :: 0 <= i < j ==> |frame[i].data| == BUFFER
  {}

  /** A whole copy is the delivery of the frame; a shorter one means truncation. */
  lemma CopiedOutcome(frame: seq<Seg>, frameLen: nat, buffer: seq<Byte>)
    requires FrameOk(frame) && !frame[|frame| - 1].err && frameLen == frame[|frame| - 1].length - CRC
    requires Min(frameLen, MAX_PACKET) <= |Bytes(frame)| && buffer == Bytes(frame)[..Min(frameLen, MAX_PACKET)]
    ensures Decide(frame, true) == if frameLen > MAX_PACKET then DroppedTruncated else Delivered(buffer)
  {
    FrameLength(frame);
  }

  class RxRing {
    const N: nat
    const arrivals: seq<Seg>            // hardware: everything the wire will ever bring
    const desc: array<Desc>
    var rxDesc: nat                     // where the driver will look next
    var dmaDesc: nat                    // hardware: the DMA's current descriptor
    var filled: nat                     // hardware: segments stored so far
    ghost var taken: nat                // segments returned to the DMA so far
    ghost var log: seq<Outcome>
    ghost var memory: seq<bool>         // the allocator's answer for each of them

    /** The descriptor arrival k goes through. */
    ghost function At(k: nat): Desc
      requires 0 < N == desc.Length
      reads desc
    {
      desc[Place(k, N)]
    }

    /** CPU-owned descriptors are exactly the arrivals [lo..filled), in circular
        order; all the others are the DMA's. */
    ghost predicate Owned(lo: nat)
      reads `filled, `dmaDesc, desc
    {
      && 0 < N == desc.Length
      && lo <= filled <= |arrivals| && filled <= lo + N
      && dmaDesc == Place(filled, N)
      && (forall k: nat {:trigger At(k)} :: lo <= k < filled ==> At(k) == Desc(Cpu, arrivals[k]))
      && (forall k: nat {:trigger At(k)} :: filled <= k < lo + N ==> At(k).own == Dma)
    }

    /** The driver's pointer is at the first descriptor of the next frame. */
    ghost predicate AtHead()
      reads `filled, `dmaDesc, `rxDesc, `taken, desc
    {
      && Owned(taken)
      && rxDesc == Place(taken, N)
      && Stream(arrivals) && StartsFrame(arrivals, taken)
    }

    ghost predicate Valid()
      reads this, desc
    {
      AtHead() && Settled(Frames(arrivals, 0, taken), log, memory)
    }

    /** emac_esp_dma_reset: every receive descriptor belongs to the DMA. */
    constructor (n: nat, arrivals: seq<Seg>)
      requires n > 0 && Stream(arrivals)
      ensures Valid() && N == n && this.arrivals == arrivals && taken == 0 && log == [] && memory == []
      ensures fresh(desc)
    {
      N, this.arrivals := n, arrivals;
      var d := new Desc[n](_ => Desc(Dma, EMPTY_SEG));
      desc := d;
      rxDesc, dmaDesc, filled, taken, log, memory := 0, 0, 0, 0, [], [];
      new;
    }

    /** A full ring is all the CPU's: the DMA stops at its own bit. */
    lemma RoomToFill(lo: nat)
      requires Owned(lo) && desc[dmaDesc].own == Dma
      ensures filled < lo + N
    {
      assert At(lo) == desc[Place(lo, N)];
      if filled == lo + N {
        PlaceLap(lo, N);
        assert false;
      }
    }

    /** The DMA stores one segment in its next descriptor and hands it over. */
    method Fill(ghost lo: nat)
      requires Owned(lo) && filled < |arrivals| && desc[dmaDesc].own == Dma
      modifies this`filled, this`dmaDesc, desc
      ensures Owned(lo) && filled == old(filled) + 1
    {
      RoomToFill(lo);
      ghost var k0 := filled;
      desc[dmaDesc] := Desc(Cpu, arrivals[filled]);
      dmaDesc := Next(dmaDesc, N);
      filled := filled + 1;
      forall k: nat | lo <= k < lo + N
        ensures At(k) == if k == k0 then Desc(Cpu, arrivals[k]) else old(At(k))
      {
        if k < k0 { PlaceInjective(k, k0, N); } else if k0 < k { PlaceInjective(k0, k, N); }
      }
    }

    /** The DMA runs for a while: it fills descriptors in order, as far as it owns
        them, taking the arrivals in order. */
    method DmaRuns(ghost lo: nat)
      requires Owned(lo)
      modifies this`filled, this`dmaDesc, desc
      ensures Owned(lo) && filled >= old(filled)
    {
      var budget: nat := *;
      while budget > 0 && filled < |arrivals| && desc[dmaDesc].own == Dma
        invariant Owned(lo) && filled >= old(filled)
      {
        Fill(lo);
        budget := budget - 1;
      }
    }

    /** The CPU returns the oldest descriptor it holds. */
    method GiveBack(it: nat, ghost lo: nat)
      requires Owned(lo) && lo < filled && it == Place(lo, N)
      modifies desc
      ensures Owned(lo + 1)
    {
      desc[it] := desc[it].(own := Dma);
      PlaceLap(lo, N);
      forall k: nat | lo < k < lo + N
        ensures At(k) == old(At(k))
      {
        PlaceInjective(lo, k, N);
      }
      assert At(lo + N) == At(lo);
    }

    /** The frame at the head of the ring is complete, and ends at EndOf. */
    ghost predicate Complete()
      requires taken <= |arrivals|
      reads `taken, `filled
    {
      EndOf(arrivals, taken) < filled
    }

    ghost function Head(): (frame: seq<Seg>)
      requires taken <= |arrivals| && EndOf(arrivals, taken) < |arrivals|
      ensures frame != []
      reads `taken
    {
      FrameAt(arrivals, taken)
    }

    lemma HeadIsGood()
      requires AtHead() && Complete()
      ensures FrameOk(Head()) && Head()[|Head()| - 1] == arrivals[EndOf(arrivals, taken)]
    {
      assert GoodFrameAt(arrivals, taken);
    }

    lemma Bounds()
      requires Owned(taken)
      ensures taken <= filled <= |arrivals|
    {}

    /** Record what became of the frame at the head, its descriptors returned. */
    ghost method Settle(m: bool)
      requires Stream(arrivals) && taken <= |arrivals| && StartsFrame(arrivals, taken)
      requires EndOf(arrivals, taken) < |arrivals|
      requires Owned(EndOf(arrivals, taken) + 1) && rxDesc == Place(EndOf(arrivals, taken) + 1, N)
      requires Settled(Frames(arrivals, 0, taken), log, memory)
      modifies this`log, this`memory, this`taken
      ensures Valid() && taken == EndOf(arrivals, old(taken)) + 1
      ensures log == old(log) + [Decide(old(Head()), m)] && memory == old(memory) + [m]
    {
      hide Owned, Stream, Settled, Frames, Decide;
      SettledNext(arrivals, 0, taken, log, memory, m);
      taken, log, memory := EndOf(arrivals, taken) + 1, log + [Decide(Head(), m)], memory + [m];
    }

    /** Return one descriptor and follow the chain; the DMA runs in between. */
    method Return(it: nat, ghost at: nat) returns (next: nat)
      requires Owned(at) && at < filled && it == Place(at, N)
      modifies this`filled, this`dmaDesc, desc
      ensures Owned(at + 1) && filled >= old(filled) && next == Place(at + 1, N)
    {
      GiveBack(it, at);
      DmaRuns(at + 1);
      next := Next(it, N);
    }

    /** Return descriptors up to the end of the head frame: exactly its own. */
    method ReturnRest(it0: nat, ghost lo: nat, ghost e: nat)
      requires Owned(lo) && lo <= e < filled && it0 == Place(lo, N) && e == EndOf(arrivals, lo)
      modifies this`filled, this`dmaDesc, this`rxDesc, desc
      ensures Owned(e + 1) && rxDesc == Place(e + 1, N) && filled >= old(filled)
    {
      var it := it0;
      ghost var at := lo;
      assert At(at) == desc[it];
      while !desc[it].seg.last
        invariant at <= e < filled && Owned(at) && it == Place(at, N) && filled >= old(filled)
        invariant EndOf(arrivals, at) == e && desc[it].seg == arrivals[at]
        decreases e - at
      {
        it := Return(it, at);
        at := at + 1;
        assert At(at) == desc[it];
      }
      GiveBack(it, at);
      rxDesc := Next(it, N);
    }

    /** flush_recv_frame: drop the head frame without reading it. */
    method Flush(ghost m: bool)
      requires Valid() && Complete()
      modifies this, desc
      ensures Valid() && filled >= old(filled) && taken == EndOf(arrivals, old(taken)) + 1
      ensures log == old(log) + [Decide(old(Head()), m)] && memory == old(memory) + [m]
    {
      ReturnRest(rxDesc, taken, EndOf(arrivals, taken));
      Settle(m);
    }

    /** The walk of get_valid_recv_len: to the first Last bit, or to the first
        descriptor that is not the CPU's, the DMA running in between. */
    method WalkHead() returns (found: bool, it: nat)
      requires AtHead()
      modifies this`filled, this`dmaDesc, this`rxDesc, desc
      ensures AtHead() && it < desc.Length && filled >= old(filled)
      ensures found ==> Complete() && desc[it].seg == arrivals[EndOf(arrivals, taken)]
      ensures !found ==> !Complete()
    {
      hide Stream, StartsFrame;
      hide Place;
      DmaRuns(taken);
      it := rxDesc;
      var used := 0;
      while desc[it].own == Cpu && used < N
        invariant AtHead() && 0 <= used <= N && taken + used <= filled && it == Place(taken + used, N) && filled >= old(filled)
        invariant EndOf(arrivals, taken + used) == EndOf(arrivals, taken)
      {
        HeadSoFar(taken + used);
        if desc[it].seg.last {
          return true, it;
        }
        if desc[it].seg.first { rxDesc := it; }
        PlaceNext(taken + used, N);
        it := Next(it, N);
        used := used + 1;
        DmaRuns(taken);
      }
      assert At(taken + used) == desc[it];
      return false, it;
    }

    /** What one settled frame adds: nothing else is decided about it. */
    ghost predicate SettledOne(from: nat, was: seq<Outcome>, had: seq<bool>, m: bool)
      reads `taken, `log, `memory
    {
      && from <= |arrivals| && EndOf(arrivals, from) < |arrivals| && taken == EndOf(arrivals, from) + 1
      && log == was + [Decide(FrameAt(arrivals, from), m)] && memory == had + [m]
    }

    /** get_valid_recv_len. An incomplete frame reports length 0; a frame with an
        error is dropped on the spot. */
    method GetValidRecvLen(ghost m: bool) returns (ok: bool, retLen: nat)
      requires Valid()
      modifies this, desc
      ensures Valid() && filled >= old(filled)
      ensures ok ==> taken == old(taken) && log == old(log) && memory == old(memory)
      ensures ok && retLen == 0 ==> !Complete()
      ensures ok && retLen > 0 ==> Complete() && !Head()[|Head()| - 1].err && retLen == Head()[|Head()| - 1].length - CRC
      ensures !ok ==> retLen == 0 && SettledOne(old(taken), old(log), old(memory), m) && log == old(log) + [DroppedError]
    {
      var found, it := WalkHead();
      if !found { return true, 0; }
      HeadIsGood();
      hide Owned, Stream, StartsFrame, Settled, Frames, EndOf;
      if desc[it].seg.err {
        Flush(m);
        return false, 0;
      }
      return true, desc[it].seg.length - CRC;
    }

    /** While the frame at the head is incomplete, only its first segment carries
        the First bit, and the next descriptor is the CPU's only if filled. */
    lemma HeadSoFar(k: nat)
      requires AtHead() && taken <= k <= filled && k < taken + N && desc[Place(k, N)].own == Cpu
      requires k <= EndOf(arrivals, taken)
      ensures k < filled && desc[Place(k, N)].seg == arrivals[k] && (arrivals[k].first <==> k == taken)
    {
      OwnedIsFilled(k);
      HeadBits(k);
    }

    lemma HeadBits(k: nat)
      requires Stream(arrivals) && taken <= k < |arrivals| && StartsFrame(arrivals, taken) && k <= EndOf(arrivals, taken)
      ensures arrivals[k].first <==> k == taken
    {
      hide GoodFrameAt;
      if taken < k && arrivals[k - 1].last { EndsBy(arrivals, taken, k - 1); }
    }

    /** alloc_recv_buf: the size reported is the frame's, the buffer (when there is
        memory for one) holds at most `size` bytes. */
    method AllocRecvBuf(size: nat, m: bool) returns (copyLen: nat, retLen: nat)
      requires Valid() && size > 0
      modifies this, desc
      ensures Valid() && filled >= old(filled)
      ensures retLen == 0 ==> copyLen == 0
      ensures retLen == 0 && taken == old(taken) ==> !Complete() && log == old(log) && memory == old(memory)
      ensures retLen == 0 && taken != old(taken) ==> SettledOne(old(taken), old(log), old(memory), m) && log == old(log) + [DroppedError]
      ensures retLen > 0 ==> taken == old(taken) && log == old(log) && memory == old(memory) && Complete()
      ensures retLen > 0 ==> !Head()[|Head()| - 1].err && retLen == Head()[|Head()| - 1].length - CRC
      ensures retLen > 0 ==> copyLen == if m then Min(retLen, size) else 0
    {
      hide AtHead, Settled, Complete, Head, Decide;
      var ok, len := GetValidRecvLen(m);
      if !ok { return 0, 0; }
      copyLen := if len > size then size else len;
      if copyLen > 0 && !m { copyLen := 0; }
      retLen := len;
    }

    /** Read the descriptor of arrival `at`. */
    method Peek(it: nat, ghost at: nat) returns (data: seq<Byte>)
      requires Owned(at) && at < filled && it == Place(at, N)
      ensures data == arrivals[at].data
    {
      assert At(at) == desc[it];
      data := desc[it].seg.data;
    }

    /** The copy of receive_frame: exactly the first copyLen bytes of the frame,
        each descriptor returned as soon as it is read. */
    method CopyOut(copyLen0: nat, ghost frame: seq<Seg>, ghost e: nat) returns (buf: seq<Byte>, it: nat, ghost at: nat)
      requires Owned(taken) && rxDesc == Place(taken, N)
      requires taken <= e < filled && frame == arrivals[taken..e + 1]
      requires FrameOk(frame) && !frame[|frame| - 1].err
      requires 0 < copyLen0 <= frame[|frame| - 1].length - CRC
      modifies this`filled, this`dmaDesc, desc
      ensures taken <= at <= e < filled && Owned(at) && it == Place(at, N)
      ensures copyLen0 <= |Bytes(frame)| && buf == Bytes(frame)[..copyLen0]
    {
      assert |arrivals| >= filled;
      hide Owned, FrameOk, Bytes, Place;
      var copyLen;
      buf, it, at, copyLen := CopyFull(copyLen0, frame, e);
      LastCopy(frame, at - taken, copyLen);
      var data := Peek(it, at);
      buf := buf + data[..copyLen];
    }

    /** The buffers that are copied whole. */
    method CopyFull(copyLen0: nat, ghost frame: seq<Seg>, ghost e: nat)
      returns (buf: seq<Byte>, it: nat, ghost at: nat, copyLen: nat)
      requires Owned(taken) && rxDesc == Place(taken, N)
      requires taken <= e < filled <= |arrivals| && frame == arrivals[taken..e + 1]
      requires FrameOk(frame) && !frame[|frame| - 1].err
      requires 0 < copyLen0 <= frame[|frame| - 1].length - CRC
      modifies this`filled, this`dmaDesc, desc
      ensures taken <= at <= e < filled <= |arrivals| && Owned(at) && it == Place(at, N)
      ensures 0 < copyLen <= BUFFER && (at - taken) * BUFFER + copyLen == copyLen0 && buf == Bytes(frame[..at - taken])
    {
      hide FrameOk, Place;
      it, at, buf := rxDesc, taken, [];
      assert buf == Bytes(frame[..0]);
      hide Owned, Bytes;
      copyLen := copyLen0;
      ghost var j: nat := 0;
      while copyLen > BUFFER
        invariant at == taken + j <= e < filled <= |arrivals| && Owned(at) && it == Place(at, N)
        invariant 0 < copyLen && j * BUFFER + copyLen == copyLen0 && buf == Bytes(frame[..j])
        decreases copyLen
      {
        FullSegment(frame, j, copyLen);
        var data;
        data, it := CopySegment(it, at, e, frame[j]);
        buf := buf + data;
        copyLen := copyLen - BUFFER;
        j, at := j + 1, at + 1;
      }
    }

    /** One full buffer is read and returned; the DMA runs on. */
    method CopySegment(it: nat, ghost at: nat, ghost e: nat, ghost seg: Seg) returns (data: seq<Byte>, next: nat)
      requires Owned(at) && at < e < filled <= |arrivals| && it == Place(at, N) && arrivals[at] == seg
      modifies this`filled, this`dmaDesc, desc
      ensures e < filled <= |arrivals| && Owned(at + 1) && next == Place(at + 1, N) && data == seg.data
    {
      hide Place;
      data := Peek(it, at);
      next := Return(it, at);
    }

    /** Inside a good frame the frame still ends where it ends. */
    lemma InsideFrame(lo: nat, at: nat)
      requires lo <= at < |arrivals| && at <= EndOf(arrivals, lo) < |arrivals|
      ensures EndOf(arrivals, at) == EndOf(arrivals, lo)
      decreases at - lo
    {
      if lo < at { InsideFrame(lo + 1, at); }
    }

    /** receive_frame into a buffer from alloc_recv_buf: the frame is copied and
        every descriptor of it, and no other, goes back to the DMA. */
    method ReceiveFrame(copyLen: nat, ghost frame: seq<Seg>, ghost e: nat) returns (recvLen: nat, buf: seq<Byte>)
      requires Owned(taken) && rxDesc == Place(taken, N)
      requires taken <= e < filled && e == EndOf(arrivals, taken) && frame == arrivals[taken..e + 1]
      requires FrameOk(frame) && !frame[|frame| - 1].err
      requires 0 < copyLen <= frame[|frame| - 1].length - CRC
      modifies this`filled, this`dmaDesc, this`rxDesc, desc
      ensures recvLen == copyLen <= |Bytes(frame)| && buf == Bytes(frame)[..copyLen]
      ensures Owned(e + 1) && rxDesc == Place(e + 1, N)
    {
      assert e < filled <= |arrivals|;
      hide Owned, FrameOk, Bytes, Place, EndOf;
      var it;
      ghost var at;
      buf, it, at := CopyOut(copyLen, frame, e);
      InsideFrame(taken, at);
      ReturnRest(it, at, e);
      recvLen := copyLen;
    }

    /** get_remain_frames, as written (flowControl) and as patched (stop at the
        first complete frame): the patch answers min(1, full count). */
    method GetRemainFrames(flowControl: bool) returns (remain: nat, freeDescs: int)
      requires Owned(taken) && rxDesc == Place(taken, N)
      modifies this`filled, this`dmaDesc, desc
      ensures Owned(taken) && filled >= old(filled)
      ensures flowControl ==> remain == FrameCount(arrivals, taken, filled) && freeDescs == N - (filled - taken)
      ensures !flowControl ==> remain == Min(1, FrameCount(arrivals, taken, filled))
      ensures !flowControl && remain == 1 ==> freeDescs == N - (EndOf(arrivals, taken) + 1 - taken)
      ensures remain != 0 <==> Complete()
    {
      hide Place, EndOf;
      DmaRuns(taken);
      var it, used := rxDesc, 0;
      remain := 0;
      while desc[it].own == Cpu && used < N
        invariant Owned(taken) && filled >= old(filled) && 0 <= used <= N && taken + used <= filled && it == Place(taken + used, N)
        invariant remain == FrameCount(arrivals, taken, taken + used)
        invariant !flowControl ==> remain == 0
      {
        OwnedIsFilled(taken + used);
        FrameCountNext(arrivals, taken, taken + used);
        PlaceNext(taken + used, N);
        used := used + 1;
        if desc[it].seg.last {
          remain := remain + 1;
          if !flowControl {
            StopsAtFirst(arrivals, taken, taken + used - 1, filled);
            return remain, N - used;
          }
        }
        it := Next(it, N);
        DmaRuns(taken);
      }
      assert At(taken + used) == desc[it];
      FirstFrameDecides(arrivals, taken, filled);
      freeDescs := N - used;
    }

    lemma OwnedIsFilled(k: nat)
      requires Owned(taken) && taken <= k <= filled && k < taken + N && desc[Place(k, N)].own == Cpu
      ensures k < filled && desc[Place(k, N)].seg == arrivals[k]
    {
      assert At(k) == desc[Place(k, N)];
      hide Place;
    }

    lemma HeadStretch(e: nat, frame: seq<Seg>)
      requires AtHead() && Complete() && e == EndOf(arrivals, taken) && frame == Head()
      ensures taken <= e < filled <= |arrivals| && frame == arrivals[taken..e + 1] && FrameOk(frame)
    {
      HeadIsGood();
    }

    /** A buffer was allocated: copy the frame into it and pass it up, unless it was
        longer than the largest packet. */
    method Deliver(copyLen: nat, frameLen: nat, ghost frame: seq<Seg>) returns (up: Option<seq<Byte>>)
      requires Valid() && Complete() && frame == Head() && !frame[|frame| - 1].err
      requires frameLen == frame[|frame| - 1].length - CRC && 0 < copyLen == Min(frameLen, MAX_PACKET)
      modifies this, desc
      ensures Valid() && SettledOne(old(taken), old(log), old(memory), true)
      ensures Decide(frame, true) == if up.Some? then Delivered(up.value) else DroppedTruncated
    {
      ghost var e := EndOf(arrivals, taken);
      HeadStretch(e, frame);
      hide Stream, StartsFrame, FrameOk, Bytes, Decide, Settled, Frames, Owned, Place, EndOf, FrameAt;
      var recvLen, buffer := ReceiveFrame(copyLen, frame, e);
      CopiedOutcome(frame, frameLen, buffer);
      Settle(true);
      up := if frameLen > recvLen then None else Some(buffer);
    }

    /** One pass of the receive task's loop: a complete frame at the head is settled as
        its error flag, its length and the allocator's answer decide, and nothing else
        happens. */
    method RxOne(m: bool) returns (up: Option<seq<Byte>>)
      requires Valid()
      modifies this, desc
      ensures Valid()
      ensures if taken == old(taken) then log == old(log) && memory == old(memory) && !old(Complete()) && up.None?
              else SettledOne(old(taken), old(log), old(memory), m)
      ensures taken != old(taken) ==> |log| > 0 && (up.Some? <==> log[|log| - 1].Delivered?) && (up.Some? ==> log[|log| - 1].bytes == up.value)
    {
      hide Owned, Stream, StartsFrame, Settled, Frames, EndOf, FrameAt;
      up := None;
      var copyLen, frameLen := AllocRecvBuf(MAX_PACKET, m);
      Bounds();
      if copyLen > 0 {
        up := Deliver(copyLen, frameLen, Head());
      } else if frameLen > 0 {
        Flush(m);
      }
    }

    /** One round of the loop: at most one frame is settled, and one is if it is complete. */
    method Round(m: bool) returns (remain: nat)
      requires Valid()
      modifies this, desc
      ensures Valid() && taken <= |arrivals| && (remain != 0 <==> Complete())
      ensures if taken == old(taken) then log == old(log) && memory == old(memory) && !old(Complete())
              else taken > old(taken) && old(log) <= log && memory == old(memory) + [m]
    {
      hide Owned, Stream, StartsFrame, Settled, Frames, EndOf, FrameAt, Decide;
      var up := RxOne(m);
      Bounds();
      var freeDescs;
      remain, freeDescs := GetRemainFrames(false);
      Bounds();
    }

    /** The receive task, once notified: it drains the ring. Every frame that arrived is
        settled once, in order, and it sleeps only when no complete frame is
        left. With memory to be had throughout, no frame is dropped for want of it. */
    method RxTask(plenty: bool)
      requires Valid()
      modifies this, desc
      ensures Valid() && old(log) <= log && old(memory) <= memory && taken >= old(taken) && !Complete()
      ensures |log| == FrameCount(arrivals, 0, taken)
      ensures plenty ==> forall i :: |old(memory)| <= i < |memory| ==> memory[i]
    {
      Bounds();
      hide AtHead, Complete, Settled;
      var remain, first := 1, true;
      while remain != 0
        invariant Valid() && old(log) <= log && old(memory) <= memory && old(taken) <= taken <= |arrivals|
        invariant !first ==> (remain != 0 <==> Complete())
        invariant first ==> remain != 0
        invariant plenty ==> forall i :: |old(memory)| <= i < |memory| ==> memory[i]
        decreases |arrivals| - taken, if first then 1 else 0
      {
        var m: bool := *;
        remain := Round(plenty || m);
        first := false;
      }
      LogCount();
    }

    lemma LogCount()
      requires Valid()
      ensures taken <= |arrivals| && |log| == FrameCount(arrivals, 0, taken)
    {
      FramesCount(arrivals, 0, taken);
    }

    /** The receive ring and the wire together: whatever has come in, the log says of each
        arrival, in order, exactly what had to become of it. */
    lemma LogIsFate(ws: seq<Wire>)
      requires Valid() && arrivals == Joined(Incoming(ws)) && forall j :: 0 <= j < |ws| ==> WireOk(ws[j])
      ensures |log| == |memory| <= |ws| && (taken == |arrivals| ==> |log| == |ws|)
      ensures forall i :: 0 <= i < |log| ==> log[i] == Fate(ws[i], memory[i])
    {
      DeliveredIsSent(ws, taken, log, memory);
    }
  }

  /** From reset on: a ring given any arrivals, drained once the DMA has stored some of
      them, with memory to be had. Every payload stored whole by then that fits a packet
      is delivered byte for byte, in order. */
  method ReceiveAll(n: nat, ws: seq<Wire>) returns (ring: RxRing)
    requires n > 0 && forall j :: 0 <= j < |ws| ==> WireOk(ws[j])
    ensures fresh(ring) && ring.Valid() && ring.arrivals == Joined(Incoming(ws)) && !ring.Complete()
    ensures |ring.log| <= |ws| && forall i :: 0 <= i < |ring.log| ==> ring.log[i] == Fate(ws[i], true)
  {
    hide RxRing.Valid, RxRing.Complete, Stream;
    IncomingIsStream(ws);
    ring := new RxRing(n, Joined(Incoming(ws)));
    ring.RxTask(true);
    ring.LogIsFate(ws);
  }
}
