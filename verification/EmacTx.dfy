/** The two ways of putting a frame into the transmit descriptor ring: from one
    buffer, and gathered from several. */
module EmacTx {
  import opened Arith
  import opened EmacFrames
  import opened Prelude

  const FIRST_FLAGS: bv32 := 0x0FCC0000
  const LAST_FLAGS: bv32 := 0x40000000

  datatype Desc = Desc(own: Owner, first: bool, last: bool, size: nat, ctrl: bv32, buf: seq<Byte>)

  const IDLE_DESC: Desc := Desc(Cpu, false, false, BUFFER, 0, seq(BUFFER, _ => 0))

  // ----- the chain a frame should become -----------------------------------

  /** The frame cut into full descriptors and a remainder. */
  function Pieces(data: seq<Byte>): (ps: seq<seq<Byte>>)
    ensures data != [] <==> ps != []
  {
    if data == [] then []
    else if |data| <= BUFFER then [data]
    else [data[..BUFFER]] + Pieces(data[BUFFER..])
  }

  function Concat(bufs: seq<seq<Byte>>): seq<Byte>
  {
    if bufs == [] then [] else bufs[0] + Concat(bufs[1..])
  }

  /** The bytes end exactly at a descriptor boundary and the last buffer is empty. */
  predicate EmptyTail(bufs: seq<seq<Byte>>)
    requires bufs != []
  {
    |Concat(bufs)| % BUFFER == 0 && bufs[|bufs| - 1] == []
  }

  /** What the gathering sender makes of the same bytes: with an empty tail, one more
      descriptor. */
  function Gathered(bufs: seq<seq<Byte>>): seq<seq<Byte>>
    requires bufs != []
  {
    Pieces(Concat(bufs)) + if EmptyTail(bufs) then [[]] else []
  }

  /** The chain carries the frame, whole and in order. */
  lemma {:induction false} PiecesConcat(data: seq<Byte>)
    ensures Concat(Pieces(data)) == data
    decreases |data|
  {
    if |data| > BUFFER {
      PiecesConcat(data[BUFFER..]);
    } else if data != [] {
      assert [data][1..] == [];
    }
  }

  lemma TailSlice(data: seq<Byte>, k: nat, a: nat, b: nat)
    requires k <= |data| && a <= b <= |data| - k
    ensures data[k..][a..b] == data[k + a..k + b]
  {
  }

  function PieceCount(n: nat): nat { (n + BUFFER - 1) / BUFFER }

  lemma {:induction false} PieceAt(data: seq<Byte>, j: nat)
    requires j < PieceCount(|data|)
    ensures |Pieces(data)| == PieceCount(|data|)
    ensures Pieces(data)[j] == data[j * 1600..Min((j + 1) * 1600, |data|)]
    decreases |data|
  {
    if |data| > BUFFER {
      var rest := data[BUFFER..];
      if j > 0 {
        PieceAt(rest, j - 1);
        TailSlice(data, BUFFER, (j - 1) * BUFFER, Min(j * BUFFER, |rest|));
      } else {
        PieceAt(rest, 0);
      }
    }
  }

  /** What is left of the buffers at a cursor. */
  function Rest(bufs: seq<seq<Byte>>, bi: nat, off: nat): seq<Byte>
    requires Cursor(bufs, bi, off)
  {
    if bi == |bufs| then [] else bufs[bi][off..] + Concat(bufs[bi + 1..])
  }

  predicate Cursor(bufs: seq<seq<Byte>>, bi: nat, off: nat)
  {
    bi <= |bufs| && (off == 0 || (bi < |bufs| && off < |bufs[bi]|))
  }

  lemma RestNext(bufs: seq<seq<Byte>>, bi: nat)
    requires bi < |bufs|
    ensures Rest(bufs, bi + 1, 0) == Concat(bufs[bi + 1..])
  {
    if bi + 1 < |bufs| {
      assert bufs[bi + 1..][1..] == bufs[bi + 2..];
    }
  }

  lemma {:induction false} ConcatEmpty(bufs: seq<seq<Byte>>)
    requires bufs != [] && Concat(bufs) == []
    ensures bufs[|bufs| - 1] == []
  {
    if |bufs| > 1 { ConcatEmpty(bufs[1..]); }
  }

  /** Bytes run out before the buffers do only if the last buffer is empty. */
  lemma RestEmpty(bufs: seq<seq<Byte>>, bi: nat, off: nat)
    requires Cursor(bufs, bi, off) && bi < |bufs| && Rest(bufs, bi, off) == []
    ensures bufs[|bufs| - 1] == []
  {
    if bi + 1 < |bufs| { ConcatEmpty(bufs[bi + 1..]); }
  }

  lemma GatheredAt(bufs: seq<seq<Byte>>, c: nat)
    requires bufs != [] && c < |Gathered(bufs)|
    ensures c * BUFFER <= |Concat(bufs)|
    ensures Gathered(bufs)[c] == Concat(bufs)[c * BUFFER..Min((c + 1) * BUFFER, |Concat(bufs)|)]
  {
    var data := Concat(bufs);
    if data != [] { PieceAt(data, 0); }
    if c < PieceCount(|data|) { PieceAt(data, c); }
  }

  lemma GatheredCount(bufs: seq<seq<Byte>>)
    requires bufs != []
    ensures |Gathered(bufs)| == PieceCount(|Concat(bufs)|) + if EmptyTail(bufs) then 1 else 0
  {
    if Concat(bufs) != [] { PieceAt(Concat(bufs), 0); }
  }

  /** Filling descriptor c from the cursor makes piece c of the gathered chain, and
      the buffers are used up exactly when it is the last. */
  lemma GatherStep(bufs: seq<seq<Byte>>, c: nat, bi: nat, off: nat, piece: seq<Byte>)
    requires bufs != [] && Cursor(bufs, bi, off) && |piece| <= BUFFER
    requires c * BUFFER <= |Concat(bufs)| && Concat(bufs)[c * BUFFER..] == piece + Rest(bufs, bi, off)
    requires bi < |bufs| ==> |piece| == BUFFER
    requires bi == |bufs| && |piece| == BUFFER ==> bufs[|bufs| - 1] != []
    requires bi == |bufs| && piece == [] ==> bufs[|bufs| - 1] == []
    ensures c < |Gathered(bufs)| && Gathered(bufs)[c] == piece
    ensures bi == |bufs| <==> c == |Gathered(bufs)| - 1
    ensures bi < |bufs| ==> (c + 1) * BUFFER <= |Concat(bufs)| && Concat(bufs)[(c + 1) * BUFFER..] == Rest(bufs, bi, off)
  {
    var data, rest := Concat(bufs), Rest(bufs, bi, off);
    GatheredCount(bufs);
    assert |data| == c * BUFFER + |piece| + |rest|;
    if bi < |bufs| {
      if rest == [] { RestEmpty(bufs, bi, off); }
      DropStep(data, c, piece, rest);
    }
    GatheredAt(bufs, c);
    assert piece == data[c * BUFFER..][..|piece|];
  }

  /** Where the gathering sender of the chain ps stands after `count` descriptors. */
  ghost predicate Gathering(bufs: seq<seq<Byte>>, ps: seq<seq<Byte>>, count: nat, bi: nat, off: nat, sent: nat)
  {
    && Cursor(bufs, bi, off)
    && (bi < |bufs| ==>
          && count < |ps| && sent == count * BUFFER <= |Concat(bufs)|
          && Concat(bufs)[sent..] == Rest(bufs, bi, off))
    && (bi == |bufs| ==> count == |ps| && sent == |Concat(bufs)| <= count * BUFFER)
  }

  lemma GatheringStarts(bufs: seq<seq<Byte>>, ps: seq<seq<Byte>>)
    requires bufs != [] && ps == Gathered(bufs)
    ensures Gathering(bufs, ps, 0, 0, 0, 0)
  {
    GatheredCount(bufs);
    if Concat(bufs) == [] { ConcatEmpty(bufs); }
  }

  lemma GatheringStep(bufs: seq<seq<Byte>>, ps: seq<seq<Byte>>, count: nat, bi: nat, off: nat, sent: nat,
                      piece: seq<Byte>, bi': nat, off': nat)
    requires bufs != [] && ps == Gathered(bufs) && Gathering(bufs, ps, count, bi, off, sent) && bi < |bufs|
    requires Cursor(bufs, bi', off') && |piece| <= BUFFER && Rest(bufs, bi, off) == piece + Rest(bufs, bi', off')
    requires bi' < |bufs| ==> |piece| == BUFFER
    requires bi' == |bufs| && |piece| == BUFFER ==> bufs[|bufs| - 1] != []
    requires bi' == |bufs| && piece == [] ==> bufs[|bufs| - 1] == []
    ensures Gathering(bufs, ps, count + 1, bi', off', sent + |piece|)
    ensures count < |ps| && ps[count] == piece && (bi' == |bufs| <==> count == |ps| - 1)
  {
    GatherStep(bufs, count, bi', off', piece);
    if bi' == |bufs| { assert Rest(bufs, bi', off') == []; }
  }

  lemma DropStep(data: seq<Byte>, c: nat, piece: seq<Byte>, rest: seq<Byte>)
    requires |piece| == BUFFER && c * BUFFER <= |data| && data[c * BUFFER..] == piece + rest
    ensures (c + 1) * BUFFER <= |data| && data[(c + 1) * BUFFER..] == rest
  {
    assert data[(c + 1) * BUFFER..] == data[c * BUFFER..][BUFFER..];
  }

  lemma Regroup(a: seq<Byte>, b: seq<Byte>, c: seq<Byte>)
    ensures a + (b + c) == (a + b) + c
  {
  }

  /** Copying a stretch of the current buffer moves it from the rest to the piece. */
  lemma CopyStep(bufs: seq<seq<Byte>>, bi: nat, off: nat, n: nat)
    requires Cursor(bufs, bi, off) && bi < |bufs| && off + n <= |bufs[bi]|
    ensures var (bi', off') := if off + n == |bufs[bi]| then (bi + 1, 0) else (bi, off + n);
      Cursor(bufs, bi', off') && Rest(bufs, bi, off) == bufs[bi][off..off + n] + Rest(bufs, bi', off')
  {
    var b, tail := bufs[bi], Concat(bufs[bi + 1..]);
    assert b[off..] + tail == b[off..off + n] + (b[off + n..] + tail);
    if off + n == |b| {
      RestNext(bufs, bi);
      assert b[off + n..] + tail == tail;
    }
  }

  /** TDES0 control bits: the frame's flags replace the old ones, on the first
      and last descriptor only. */
  function Control(was: bv32, flags: bv32, first: bool, last: bool): bv32
  {
    var cleared := was & !(FIRST_FLAGS | LAST_FLAGS);
    var withFirst := if first then cleared | (flags & FIRST_FLAGS) else cleared;
    if last then withFirst | (flags & LAST_FLAGS) else withFirst
  }

  /** Descriptor d carries piece p of a frame (whoever owns it). */
  ghost predicate Loaded(d: Desc, was: Desc, p: seq<Byte>, flags: bv32, first: bool, last: bool)
  {
    && |d.buf| == BUFFER && |p| <= BUFFER
    && d.first == first && d.last == last && d.size == |p|
    && d.buf[..|p|] == p
    && d.ctrl == Control(was.ctrl, flags, first, last)
  }

  /** Bit by bit: the frame's flags of the first segment are on the first descriptor, that of
      the last on the last, neither anywhere else, and every other bit is what it was. */
  lemma ControlBits(was: bv32, flags: bv32, first: bool, last: bool)
    ensures Flagged(Control(was, flags, first, last), was, flags, first, last)
  {}

  predicate Flagged(ctrl: bv32, was: bv32, flags: bv32, first: bool, last: bool)
  {
    && ctrl & 0x0FCC0000 == (if first then flags & 0x0FCC0000 else 0)
    && ctrl & 0x40000000 == (if last then flags & 0x40000000 else 0)
    && ctrl & 0xB033FFFF == was & 0xB033FFFF
  }

  // ----- one lap of the ring, before and after a send -----------------------

  ghost predicate FreeIn(was: seq<Desc>, n: nat)
  {
    n <= |was| && forall j :: 0 <= j < n ==> was[j].own == Cpu
  }

  ghost predicate QueuedIn(was: seq<Desc>, now: seq<Desc>, ps: seq<seq<Byte>>, m: nat, flags: bv32)
  {
    && |now| == |was| && m <= |ps| && m <= |was|
    && (forall j :: 0 <= j < m ==> now[j].own == Dma && Loaded(now[j], was[j], ps[j], flags, j == 0, j == |ps| - 1))
    && (forall j :: m <= j < |was| ==> now[j] == was[j])
  }

  ghost predicate RefusedIn(was: seq<Desc>, now: seq<Desc>)
  {
    && |now| == |was|
    && forall j :: 0 <= j < |was| ==> now[j].own == was[j].own && (was[j].own == Dma ==> now[j] == was[j])
  }

  /** What the DMA would send from a descriptor. */
  function Content(d: Desc): seq<Byte> { d.buf[..Min(d.size, |d.buf|)] }

  /** What the DMA would send from several. */
  function Contents(ds: seq<Desc>): seq<seq<Byte>>
  {
    seq(|ds|, j requires 0 <= j < |ds| => Content(ds[j]))
  }

  /** Which descriptor of a frame this is, and the flags it carries. */
  ghost predicate Marked(d: Desc, was: Desc, flags: bv32, first: bool, last: bool)
  {
    d.first == first && d.last == last && Flagged(d.ctrl, was.ctrl, flags, first, last)
  }

  lemma LoadedMeans(d: Desc, was: Desc, p: seq<Byte>, flags: bv32, first: bool, last: bool)
    requires Loaded(d, was, p, flags, first, last)
    ensures Content(d) == p && Marked(d, was, flags, first, last)
  {
    hide Control, Flagged;
    ControlBits(was.ctrl, flags, first, last);
  }

  /** What goes on the wire is the frame: the chain queued for it holds exactly its bytes, all
      owned by the DMA, with the first bit on the first descriptor, the last on the last,
      and the frame's flags. */
  lemma QueuedIsSent(was: seq<Desc>, now: seq<Desc>, data: seq<Byte>, flags: bv32)
    requires QueuedIn(was, now, Pieces(data), |Pieces(data)|, flags)
    ensures var n := |Pieces(data)|;
      && Concat(Contents(now[..n])) == data
      && forall j :: 0 <= j < n ==> now[j].own == Dma && Marked(now[j], was[j], flags, j == 0, j == n - 1)
  {
    hide Pieces, Concat, Loaded, Content, Marked;
    var ps := Pieces(data);
    PiecesConcat(data);
    forall j | 0 <= j < |ps|
      ensures Content(now[j]) == ps[j] && now[j].own == Dma && Marked(now[j], was[j], flags, j == 0, j == |ps| - 1)
    {
      LoadedMeans(now[j], was[j], ps[j], flags, j == 0, j == |ps| - 1);
    }
    assert Contents(now[..|ps|]) == ps;
  }

  /** Two descriptors are the same to the DMA: the owner, and all it reads if it owns it. */
  ghost predicate Alike(d: Desc, e: Desc)
  {
    && d.own == e.own
    && (d.own == Dma ==>
          d.first == e.first && d.last == e.last && d.size == e.size && d.ctrl == e.ctrl && Content(d) == Content(e))
  }

  ghost predicate AllAlike(x: seq<Desc>, y: seq<Desc>)
  {
    |x| == |y| && forall j :: 0 <= j < |x| ==> Alike(x[j], y[j])
  }

  /** When the two senders do the same: the chain fits the ring and the buffers have no
      empty tail, or a descriptor that both need is the DMA's. */
  ghost predicate Agree(bufs: seq<seq<Byte>>, was: seq<Desc>)
    requires bufs != []
  {
    var n := |Pieces(Concat(bufs))|;
    (!EmptyTail(bufs) && n <= |was|) || !FreeIn(was, Min(Max(n, 1), |was|))
  }

  lemma LoadedAlike(d: Desc, e: Desc, was: Desc, p: seq<Byte>, flags: bv32, first: bool, last: bool)
    requires d.own == e.own && Loaded(d, was, p, flags, first, last) && Loaded(e, was, p, flags, first, last)
    ensures Alike(d, e)
  {
    assert d.buf[..|p|] == e.buf[..|p|];
  }

  lemma QueuedAlike(was: seq<Desc>, x: seq<Desc>, y: seq<Desc>, ps: seq<seq<Byte>>, m: nat, flags: bv32)
    requires QueuedIn(was, x, ps, m, flags) && QueuedIn(was, y, ps, m, flags)
    ensures AllAlike(x, y)
  {
    forall j | 0 <= j < |x|
      ensures Alike(x[j], y[j])
    {
      if j < m { LoadedAlike(x[j], y[j], was[j], ps[j], flags, j == 0, j == |ps| - 1); }
    }
  }

  lemma RefusedAlike(was: seq<Desc>, x: seq<Desc>, y: seq<Desc>)
    requires RefusedIn(was, x) && RefusedIn(was, y)
    ensures AllAlike(x, y)
  {}

  /** Nothing to send queues nothing. */
  lemma EmptyQueue(was: seq<Desc>, now: seq<Desc>, ps: seq<seq<Byte>>, flags: bv32)
    requires QueuedIn(was, now, ps, 0, flags)
    ensures RefusedIn(was, now)
  {}

  /** The chain of a whole frame ends in a last segment, a chain cut off does not. */
  lemma CutOffDiffers(was: seq<Desc>, x: seq<Desc>, y: seq<Desc>, ps: seq<seq<Byte>>, qs: seq<seq<Byte>>, flags: bv32)
    requires QueuedIn(was, x, ps, |ps|, flags) && QueuedIn(was, y, qs, |ps|, flags) && 0 < |ps| < |qs|
    ensures !AllAlike(x, y)
  {
    assert !Alike(x[|ps| - 1], y[|ps| - 1]);
  }

  lemma PiecesLength(data: seq<Byte>)
    ensures |Pieces(data)| == PieceCount(|data|) && (data == [] <==> |Pieces(data)| == 0)
    ensures |data| <= |Pieces(data)| * BUFFER && (|data| % BUFFER == 0 ==> |data| == |Pieces(data)| * BUFFER)
  {
    if data != [] { PieceAt(data, 0); }
  }

  /** From the same lap, the plain sender (x, pa, la) and the gathering one (y, pb, lb)
      answer, advance and leave the ring alike exactly when they agree. */
  lemma SendersAgreeExactly(bufs: seq<seq<Byte>>, was: seq<Desc>, flags: bv32, x: nat, pa: nat, la: seq<Desc>, y: nat, pb: nat, lb: seq<Desc>)
    requires bufs != [] && was != []
    requires var ps := Pieces(Concat(bufs));
      if FreeIn(was, |ps|) then x == |Concat(bufs)| && pa == |ps| && QueuedIn(was, la, ps, |ps|, flags)
      else x == 0 && pa == 0 && RefusedIn(was, la)
    requires var m := Min(|Gathered(bufs)|, |was|);
      if FreeIn(was, m) then y == Min(|Concat(bufs)|, |was| * BUFFER) && pb == m && QueuedIn(was, lb, Gathered(bufs), m, flags)
      else y == 0 && pb == 0 && RefusedIn(was, lb)
    ensures x == y && pa == pb && AllAlike(la, lb) <==> Agree(bufs, was)
  {
    hide QueuedIn, RefusedIn, AllAlike, Pieces, Concat;
    var data, ps, qs := Concat(bufs), Pieces(Concat(bufs)), Gathered(bufs);
    PiecesLength(data);
    var m := Min(|qs|, |was|);
    FreeLess(was, |ps|, m);
    if data == [] { ConcatEmpty(bufs); }
    if |ps| <= |was| { MulMonotone(|ps|, |was|, BUFFER); }
    if !EmptyTail(bufs) { assert qs == ps; }
    if !FreeIn(was, |ps|) && !FreeIn(was, m) {
      RefusedAlike(was, la, lb);
    } else if FreeIn(was, |ps|) && FreeIn(was, m) {
      if !EmptyTail(bufs) {
        QueuedAlike(was, la, lb, ps, |ps|, flags);
      } else if |ps| == |was| {
        CutOffDiffers(was, la, lb, ps, qs, flags);
      }
    } else if FreeIn(was, |ps|) {
      if ps == [] {
        EmptyQueue(was, la, ps, flags);
        RefusedAlike(was, la, lb);
      }
    }
  }

  /** Non-empty buffers that fit the ring together always go out as one buffer would. */
  lemma FittingBuffersAgree(bufs: seq<seq<Byte>>, was: seq<Desc>)
    requires bufs != [] && (forall i :: 0 <= i < |bufs| ==> bufs[i] != []) && |Concat(bufs)| <= |was| * BUFFER
    ensures Agree(bufs, was)
  {
    PiecesLength(Concat(bufs));
  }

  lemma FreeLess(was: seq<Desc>, n: nat, m: nat)
    requires m <= |was|
    ensures n <= m && FreeIn(was, m) ==> FreeIn(was, n)
  {}

  class TxRing {
    const N: nat
    const desc: array<Desc>
    var txDesc: nat
    var flags: bv32
    ghost var pos: nat                  // descriptors handed over so far

    ghost predicate Valid()
      reads `txDesc, `pos, desc
    {
      && 0 < N == desc.Length
      && txDesc == Place(pos, N)
      && forall k :: 0 <= k < N ==> |desc[k].buf| == BUFFER
    }

    /** emac_esp_dma_reset: every transmit descriptor belongs to the CPU. */
    constructor (n: nat, ctrl: bv32)
      requires n > 0
      ensures Valid() && N == n && flags == ctrl && pos == 0 && fresh(desc) && Free(n)
    {
      N, flags, txDesc, pos := n, ctrl, 0, 0;
      desc := new Desc[n](_ => IDLE_DESC);
      new;
      assert forall j: nat {:trigger At(0, j)} :: j < n ==> At(0, j) == IDLE_DESC;
    }

    /** The descriptor j places after the next one to be used. */
    ghost function At(from: nat, j: nat): Desc
      requires 0 < N == desc.Length
      reads desc
    {
      desc[Place(from + j, N)]
    }

    /** One lap of the ring, from the next descriptor to be used. */
    ghost function Lap(): (was: seq<Desc>)
      requires 0 < N == desc.Length
      ensures |was| == N && forall j: nat {:trigger At(pos, j)} :: j < N ==> was[j] == At(pos, j)
      reads this, desc
    {
      seq(N, j requires 0 <= j < N reads this, desc => At(pos, j))
    }

    /** The same lap of the ring, wherever the cursor now is. */
    ghost function LapFrom(from: nat): (was: seq<Desc>)
      requires 0 < N == desc.Length
      ensures |was| == N && forall j: nat {:trigger At(from, j)} :: j < N ==> was[j] == At(from, j)
      reads desc
    {
      seq(N, j requires 0 <= j < N reads desc => At(from, j))
    }

    lemma SameLap(other: TxRing)
      requires 0 < N == desc.Length == other.N == other.desc.Length && desc[..] == other.desc[..] && pos == other.pos
      ensures Lap() == other.Lap()
    {
      forall j: nat | j < N ensures At(pos, j) == other.At(pos, j) { assert desc[..][Place(pos + j, N)] == other.desc[..][Place(pos + j, N)]; }
    }

    lemma QueuedLap(was: seq<Desc>, from: nat, ps: seq<seq<Byte>>, m: nat)
      requires Queued(was, from, ps, m)
      ensures QueuedIn(was, LapFrom(from), ps, m, flags)
    {
      var now := LapFrom(from);
      forall j: nat | j < N ensures now[j] == At(from, j) {}
    }

    lemma RefusedLap(was: seq<Desc>, from: nat)
      requires Refused(was, from)
      ensures RefusedIn(was, LapFrom(from))
    {
      var now := LapFrom(from);
      forall j: nat | j < N ensures now[j] == At(pos, j) {}
    }

    ghost predicate Free(n: nat)
      requires 0 < N == desc.Length
      reads this, desc
    {
      n <= N && forall j :: 0 <= j < n ==> Lap()[j].own == Cpu
    }

    /** The first n descriptors of the lap `was`, all the CPU's, now carry the
        first n pieces; the others, and every Own bit, are as they were. */
    ghost predicate Loading(was: seq<Desc>, n: nat, ps: seq<seq<Byte>>)
      reads `txDesc, `pos, `flags, desc
    {
      && Valid() && |was| == N && n <= |ps| && n <= N
      && (forall j: nat {:trigger At(pos, j)} :: j < n ==>
            was[j].own == At(pos, j).own == Cpu && Loaded(At(pos, j), was[j], ps[j], flags, j == 0, j == |ps| - 1))
      && (forall j: nat {:trigger At(pos, j)} :: n <= j < N ==> At(pos, j) == was[j])
    }

    /** The first m descriptors of the lap `was` are now the DMA's, loaded with the
        pieces, the last one marked as such if the chain is whole. */
    ghost predicate Queued(was: seq<Desc>, from: nat, ps: seq<seq<Byte>>, m: nat)
      reads `pos, `flags, desc
    {
      && 0 < N == desc.Length && |was| == N && m <= |ps| && m <= N && pos == from + m
      && (forall j: nat {:trigger At(from, j)} :: j < m ==>
            At(from, j).own == Dma && Loaded(At(from, j), was[j], ps[j], flags, j == 0, j == |ps| - 1))
      && (forall j: nat {:trigger At(from, j)} :: m <= j < N ==> At(from, j) == was[j])
    }

    /** Nothing was sent: the ring stands where it stood, every Own bit too, and what the
        DMA owns is untouched. */
    ghost predicate Refused(was: seq<Desc>, from: nat)
      reads `pos, desc
    {
      && 0 < N == desc.Length && |was| == N && pos == from
      && forall j: nat {:trigger At(pos, j)} :: j < N ==>
           At(pos, j).own == was[j].own && (was[j].own == Dma ==> At(pos, j) == was[j])
    }

    /** Write one descriptor of the lap; the rest of the lap is untouched. */
    method Put(it: nat, d: Desc, ghost j: nat)
      requires Valid() && j < N && it == Place(pos + j, N) && |d.buf| == BUFFER
      modifies desc
      ensures Valid() && At(pos, j) == d
      ensures forall k: nat {:trigger At(pos, k)} :: k < N && k != j ==> At(pos, k) == old(At(pos, k))
    {
      desc[it] := d;
      forall k: nat | k < N && k != j
        ensures At(pos, k) == old(At(pos, k))
      {
        if k < j { PlaceInjective(pos + k, pos + j, N); } else { PlaceInjective(pos + j, pos + k, N); }
      }
    }

    /** Load the next piece of a frame into a descriptor the CPU owns. */
    method LoadNext(it: nat, piece: seq<Byte>, first: bool, last: bool, ghost was: seq<Desc>, ghost n: nat, ghost ps: seq<seq<Byte>>)
      requires Loading(was, n, ps) && n < |ps| && n < N && it == Place(pos + n, N) && desc[it].own == Cpu
      requires ps[n] == piece && |piece| <= BUFFER && first == (n == 0) && last == (n == |ps| - 1)
      modifies desc
      ensures Loading(was, n + 1, ps)
    {
      var d := desc[it];
      assert d == At(pos, n);
      Put(it, d.(first := first, last := last, size := |piece|, buf := piece + d.buf[|piece|..],
        ctrl := Control(d.ctrl, flags, first, last)), n);
    }

    lemma LoadingRefuses(was: seq<Desc>, n: nat, ps: seq<seq<Byte>>)
      requires Loading(was, n, ps)
      ensures Refused(was, pos) && forall j :: 0 <= j < n ==> was[j].own == Cpu
    {
      forall j: nat | j < n ensures was[j].own == Cpu { assert At(pos, j).own == Cpu; }
    }

    /** Set the Own bit of the first n descriptors: the DMA may now send them. */
    method HandOver(n: nat, ghost was: seq<Desc>, ghost ps: seq<seq<Byte>>)
      requires Loading(was, n, ps)
      modifies this`txDesc, this`pos, desc
      ensures Valid() && Queued(was, old(pos), ps, n)
    {
      var i := 0;
      while i < n
        invariant 0 <= i <= n && pos == old(pos) && txDesc == Place(pos + i, N) && 0 < N == desc.Length
        invariant forall k :: 0 <= k < N ==> |desc[k].buf| == BUFFER
        invariant forall j: nat {:trigger At(pos, j)} :: j < i ==> At(pos, j) == old(At(pos, j)).(own := Dma)
        invariant forall j: nat {:trigger At(pos, j)} :: i <= j < N ==> At(pos, j) == old(At(pos, j))
      {
        Own(txDesc, i);
        txDesc := Next(txDesc, N);
        i := i + 1;
      }
      pos := pos + n;
    }

    method Own(it: nat, ghost j: nat)
      requires 0 < N == desc.Length && j < N && it == Place(pos + j, N)
      requires forall k :: 0 <= k < N ==> |desc[k].buf| == BUFFER
      modifies desc
      ensures forall k :: 0 <= k < N ==> |desc[k].buf| == BUFFER
      ensures At(pos, j) == old(At(pos, j)).(own := Dma)
      ensures forall k: nat {:trigger At(pos, k)} :: k < N && k != j ==> At(pos, k) == old(At(pos, k))
    {
      desc[it] := desc[it].(own := Dma);
      forall k: nat | k < N && k != j
        ensures At(pos, k) == old(At(pos, k))
      {
        if k < j { PlaceInjective(pos + k, pos + j, N); } else { PlaceInjective(pos + j, pos + k, N); }
      }
    }

    /** transmit_frame: one buffer. All of it goes out as the chain Pieces(data),
        or, for want of a descriptor, nothing does. */
    method Transmit(data: seq<Byte>) returns (sent: nat)
      requires Valid()
      modifies this`txDesc, this`pos, desc
      ensures Valid()
      ensures if old(Free(|Pieces(data)|)) then sent == |data| && Queued(old(Lap()), old(pos), Pieces(data), |Pieces(data)|)
              else sent == 0 && Refused(old(Lap()), old(pos))
    {
      hide Place, Pieces, PieceCount;
      ghost var was, ps := Lap(), Pieces(data);
      var bufcount, lastlen := Count(data);
      if bufcount > N { return 0; }
      var it, i := txDesc, 0;
      sent := 0;
      while i < bufcount
        invariant pos == old(pos) && 0 <= i <= bufcount && it == Place(pos + i, N)
        invariant sent == Min(i * BUFFER, |data|)
        invariant Loading(was, i, ps)
      {
        assert At(pos, i) == desc[it];
        LoadingRefuses(was, i, ps);
        if desc[it].own != Cpu { return 0; }
        var n := LoadPiece(it, data, i, bufcount, lastlen, was);
        sent := sent + n;
        PlaceNext(pos + i, N);
        it := Next(it, N);
        i := i + 1;
      }
      LoadingRefuses(was, i, ps);
      HandOver(bufcount, was, ps);
    }

    /** The i-th piece goes into the next descriptor. */
    method LoadPiece(it: nat, data: seq<Byte>, i: nat, bufcount: nat, lastlen: nat, ghost was: seq<Desc>) returns (n: nat)
      requires Loading(was, i, Pieces(data)) && i < bufcount == |Pieces(data)| == PieceCount(|data|) && i < N
      requires it == Place(pos + i, N) && desc[it].own == Cpu
      requires |data| == (bufcount - 1) * BUFFER + lastlen && 0 < lastlen <= BUFFER
      modifies desc
      ensures Loading(was, i + 1, Pieces(data)) && i * BUFFER + n == Min((i + 1) * BUFFER, |data|)
    {
      hide Loading, Place, Pieces, PieceCount;
      PieceAt(data, i);
      var last := i == bufcount - 1;
      var piece := data[i * BUFFER..i * BUFFER + if last then lastlen else BUFFER];
      LoadNext(it, piece, i == 0, last, was, i, Pieces(data));
      n := |piece|;
    }

    static method Count(data: seq<Byte>) returns (bufcount: nat, lastlen: nat)
      ensures bufcount == |Pieces(data)| == PieceCount(|data|)
      ensures data != [] ==> |data| == (bufcount - 1) * BUFFER + lastlen && 0 < lastlen <= BUFFER
    {
      bufcount, lastlen := 0, |data|;
      while lastlen > BUFFER
        invariant |data| == bufcount * BUFFER + lastlen
        invariant data != [] ==> lastlen > 0
      {
        lastlen := lastlen - BUFFER;
        bufcount := bufcount + 1;
      }
      if lastlen > 0 {
        bufcount := bufcount + 1;
        PieceAt(data, 0);
      }
    }

    /** One memcpy of transmit_frame_ext: what fits of the current buffer. */
    static method TakeSome(bufs: seq<seq<Byte>>, bi0: nat, off0: nat, avail: nat) returns (chunk: seq<Byte>, bi: nat, off: nat)
      requires Cursor(bufs, bi0, off0) && bi0 < |bufs| && 0 < avail
      ensures Cursor(bufs, bi, off) && |chunk| <= avail
      ensures Rest(bufs, bi0, off0) == chunk + Rest(bufs, bi, off)
      ensures |chunk| < avail ==> bi == bi0 + 1
      ensures bi == |bufs| && chunk == [] ==> bufs[|bufs| - 1] == []
      ensures bi == |bufs| && chunk != [] ==> bufs[|bufs| - 1] != []
      ensures bi0 <= bi <= bi0 + 1
    {
      var lastlen := |bufs[bi0]| - off0;
      if lastlen < avail {
        CopyStep(bufs, bi0, off0, lastlen);
        chunk, bi, off := bufs[bi0][off0..off0 + lastlen], bi0 + 1, 0;
      } else {
        CopyStep(bufs, bi0, off0, avail);
        chunk := bufs[bi0][off0..off0 + avail];
        bi, off := if off0 + avail == |bufs[bi0]| then bi0 + 1 else bi0, if off0 + avail == |bufs[bi0]| then 0 else off0 + avail;
      }
    }

    /** The inner loop of transmit_frame_ext: fill one descriptor. */
    static method FillOne(bufs: seq<seq<Byte>>, bi0: nat, off0: nat) returns (piece: seq<Byte>, bi: nat, off: nat)
      requires Cursor(bufs, bi0, off0) && bi0 < |bufs|
      ensures Cursor(bufs, bi, off) && |piece| <= BUFFER
      ensures Rest(bufs, bi0, off0) == piece + Rest(bufs, bi, off)
      ensures bi < |bufs| ==> |piece| == BUFFER
      ensures bi == |bufs| && |piece| == BUFFER ==> bufs[|bufs| - 1] != []
      ensures bi == |bufs| && piece == [] ==> bufs[|bufs| - 1] == []
    {
      piece, bi, off := [], bi0, off0;
      while bi < |bufs| && |piece| < BUFFER
        invariant Cursor(bufs, bi, off) && |piece| <= BUFFER
        invariant Rest(bufs, bi0, off0) == piece + Rest(bufs, bi, off)
        invariant bi == |bufs| && |piece| == BUFFER ==> bufs[|bufs| - 1] != []
        invariant bi == |bufs| && piece == [] ==> bufs[|bufs| - 1] == []
        decreases |bufs| - bi, BUFFER - |piece|
      {
        var chunk;
        chunk, bi, off := TakeSome(bufs, bi, off, BUFFER - |piece|);
        Regroup(piece, chunk, Rest(bufs, bi, off));
        piece := piece + chunk;
      }
    }

    /** Filling the next descriptor makes the next piece of the chain. */
    static method FillNext(bufs: seq<seq<Byte>>, ghost ps: seq<seq<Byte>>, ghost count: nat, bi0: nat, off0: nat, ghost sent: nat)
      returns (piece: seq<Byte>, bi: nat, off: nat)
      requires bufs != [] && ps == Gathered(bufs) && bi0 < |bufs| && Gathering(bufs, ps, count, bi0, off0, sent)
      ensures |piece| <= BUFFER && Gathering(bufs, ps, count + 1, bi, off, sent + |piece|)
      ensures count < |ps| && ps[count] == piece && (bi == |bufs| <==> count == |ps| - 1)
    {
      piece, bi, off := FillOne(bufs, bi0, off0);
      GatheringStep(bufs, ps, count, bi0, off0, sent, piece, bi, off);
    }

    /** One turn of the outer loop of transmit_frame_ext: fill a descriptor and load it. */
    method GatherOne(bufs: seq<seq<Byte>>, it: nat, count: nat, bi0: nat, off0: nat, sent: nat, ghost was: seq<Desc>, ghost ps: seq<seq<Byte>>)
      returns (size: nat, bi: nat, off: nat)
      requires bufs != [] && ps == Gathered(bufs) && Loading(was, count, ps) && Gathering(bufs, ps, count, bi0, off0, sent)
      requires count < N && bi0 < |bufs| && it == Place(pos + count, N) && desc[it].own == Cpu
      modifies desc
      ensures Loading(was, count + 1, ps) && Gathering(bufs, ps, count + 1, bi, off, sent + size)
    {
      hide Gathered, Concat, Gathering;
      var piece;
      piece, bi, off := FillNext(bufs, ps, count, bi0, off0, sent);
      LoadNext(it, piece, count == 0, bi == |bufs|, was, count, ps);
      size := |piece|;
    }

    /** The outer loop of transmit_frame_ext: load descriptors until the buffers or
        the ring run out, or one is still the DMA's. */
    method Gather(bufs: seq<seq<Byte>>, ghost was: seq<Desc>, ghost ps: seq<seq<Byte>>) returns (ok: bool, count: nat, sent: nat)
      requires bufs != [] && ps == Gathered(bufs) && Loading(was, 0, ps)
      modifies desc
      ensures ok ==> Loading(was, count, ps) && count == Min(|ps|, N)
      ensures ok ==> sent == Min(|Concat(bufs)|, N * BUFFER)
      ensures !ok ==> Valid() && Refused(was, pos)
      ensures !ok ==> exists j :: 0 <= j < Min(|ps|, N) && was[j].own == Dma
    {
      hide Gathered, Concat;
      var it: nat, bi: nat, off: nat := txDesc, 0, 0;
      count, sent := 0, 0;
      ghost var from := pos;
      GatheringStarts(bufs, ps);
      while count < N && bi < |bufs|
        invariant 0 <= count <= N && pos == from && it == Place(from + count, N)
        invariant Gathering(bufs, ps, count, bi, off, sent) && Loading(was, count, ps)
        decreases N - count
      {
        assert At(pos, count) == desc[it];
        if desc[it].own != Cpu {
          LoadingRefuses(was, count, ps);
          return false, count, 0;
        }
        var size;
        size, bi, off := GatherOne(bufs, it, count, bi, off, sent, was, ps);
        PlaceNext(from + count, N);
        sent := sent + size;
        it := Next(it, N);
        count := count + 1;
      }
      ok := true;
    }

    /** transmit_frame_ext: several buffers. Within the ring it queues the chain
        Gathered(bufs); beyond it, the first N pieces with no last segment. */
    method TransmitExt(bufs: seq<seq<Byte>>) returns (sent: nat)
      requires Valid() && bufs != []
      modifies this`txDesc, this`pos, desc
      ensures Valid()
      ensures var m := Min(|Gathered(bufs)|, N);
        if old(Free(m)) then sent == Min(|Concat(bufs)|, N * BUFFER) && Queued(old(Lap()), old(pos), Gathered(bufs), m)
        else sent == 0 && Refused(old(Lap()), old(pos))
    {
      ghost var was := Lap();
      var ok, count;
      ok, count, sent := Gather(bufs, was, Gathered(bufs));
      if !ok { return 0; }
      LoadingRefuses(was, count, Gathered(bufs));
      HandOver(count, was, Gathered(bufs));
    }
  }

  /** The two senders side by side, on two rings in the same state: they return the same,
      advance alike and hand the DMA the same, descriptor for descriptor, exactly when
      they agree. */
  method SendBoth(a: TxRing, b: TxRing, bufs: seq<seq<Byte>>) returns (x: nat, y: nat)
    requires a != b && a.desc != b.desc && a.Valid() && b.Valid() && bufs != []
    requires a.N == b.N && a.pos == b.pos && a.flags == b.flags && a.desc[..] == b.desc[..]
    modifies a`txDesc, a`pos, a.desc, b`txDesc, b`pos, b.desc
    ensures a.Valid() && b.Valid()
    ensures (x == y && a.pos == b.pos && a.txDesc == b.txDesc && AllAlike(a.LapFrom(old(a.pos)), b.LapFrom(old(a.pos))))
      <==> Agree(bufs, old(a.Lap()))
  {
    ghost var was, from, flags := a.Lap(), a.pos, a.flags;
    a.SameLap(b);
    hide Pieces, Concat, Gathered, QueuedIn, RefusedIn, AllAlike, Agree, TxRing.Queued, TxRing.Refused;
    x := Plain(a, Concat(bufs), was);
    y := Several(b, bufs, was);
    SendersAgreeExactly(bufs, was, flags, x, a.pos - from, a.LapFrom(from), y, b.pos - from, b.LapFrom(from));
  }

  /** transmit_frame, said of the lap. */
  method Plain(a: TxRing, data: seq<Byte>, ghost was: seq<Desc>) returns (x: nat)
    requires a.Valid() && was == a.Lap()
    modifies a`txDesc, a`pos, a.desc
    ensures a.Valid() && a.pos >= old(a.pos)
    ensures var ps := Pieces(data); var now := a.LapFrom(old(a.pos));
      if FreeIn(was, |ps|) then x == |data| && a.pos == old(a.pos) + |ps| && QueuedIn(was, now, ps, |ps|, a.flags)
      else x == 0 && a.pos == old(a.pos) && RefusedIn(was, now)
  {
    ghost var from := a.pos;
    x := a.Transmit(data);
    if FreeIn(was, |Pieces(data)|) {
      a.QueuedLap(was, from, Pieces(data), |Pieces(data)|);
    } else {
      a.RefusedLap(was, from);
    }
  }

  /** transmit_frame_ext, said of the lap. */
  method Several(b: TxRing, bufs: seq<seq<Byte>>, ghost was: seq<Desc>) returns (y: nat)
    requires b.Valid() && bufs != [] && was == b.Lap()
    modifies b`txDesc, b`pos, b.desc
    ensures b.Valid() && b.pos >= old(b.pos)
    ensures var m := Min(|Gathered(bufs)|, |was|); var now := b.LapFrom(old(b.pos));
      if FreeIn(was, m) then y == Min(|Concat(bufs)|, |was| * BUFFER) && b.pos == old(b.pos) + m && QueuedIn(was, now, Gathered(bufs), m, b.flags)
      else y == 0 && b.pos == old(b.pos) && RefusedIn(was, now)
  {
    ghost var from := b.pos;
    y := b.TransmitExt(bufs);
    ghost var m := Min(|Gathered(bufs)|, |was|);
    if FreeIn(was, m) {
      b.QueuedLap(was, from, Gathered(bufs), m);
    } else {
      b.RefusedLap(was, from);
    }
  }
}
