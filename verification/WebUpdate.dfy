/** The firmware upload: received in chunks of any size, hashed and written as it
    comes, checked once its header is there, and judged at the end. */
module WebUpdate {
  import opened Arith
  import opened Prelude

  const CHUNK := 4096
  const TRAILER := 128
  const DESC_END := 288            // image header 24, segment header 8, app descriptor 256
  const IMAGE_MAGIC := 0xE9
  const LAST_MARK := DESC_END - 1 + CHUNK
  const MAX_TIMEOUTS := 3
  const FW_MAGIC: seq<Byte> := [0x4E, 0x53, 0x46, 0x57, 0x53, 0x49, 0x47, 0x31] // "NSFWSIG1"

  datatype Reason = Busy | NoSlot | BadSize | NoMemory | CannotOpen | Interrupted | NotFirmware | WrongChip | FlashFailed
    | BadSignature | ImageCheckFailed | CannotSelect

  datatype Verdict = Accepted | Refused(why: Reason)

  /** The checks on the 288 bytes of image header and app descriptor. */
  datatype Check = Fine | OtherProject | OtherChip

  /** What one call of the receive function does: some bytes, a timeout, or the end
      of the connection. It returns at least one byte and at most what was asked. */
  datatype Recv = Data(offered: nat) | Timeout | Closed

  /** What the device answers: the slot, the flash (a first byte that cannot be
      written, if any), the checks on the header, the signature and the image. */
  datatype Device = Device(
    hasSlot: bool,
    slotSize: nat,
    memory: bool,
    openOk: bool,
    fault: Option<nat>,
    headerCheck: seq<Byte> -> Check,
    verify: (seq<Byte>, seq<Byte>) -> bool,
    endOk: bool,
    selectOk: bool,
    eraseOk: bool)

  function Took(offered: nat, left: nat): (n: nat)
    requires left > 0
    ensures 1 <= n <= CHUNK && n <= left
  {
    Clamp(offered, 1, Min(left, CHUNK))
  }

  // ----- what the verdict should depend on ---------------------------------

  /** signature_ok: the trailer names its own length. */
  function SignatureOk(d: Device, image: seq<Byte>, trailer: seq<Byte>): bool
    requires |trailer| == TRAILER
  {
    trailer[..8] == FW_MAGIC
    && var n: int := trailer[8] as int + 256 * (trailer[9] as int);
       0 < n <= TRAILER - 10 && d.verify(image, trailer[10..10 + n])
  }

  function HeaderVerdict(d: Device, head: seq<Byte>): (why: Option<Reason>)
    requires |head| == DESC_END
    ensures why in {None, Some(NotFirmware), Some(WrongChip)}
    ensures why.None? <==> head[0] == IMAGE_MAGIC && d.headerCheck(head) == Fine
  {
    if head[0] != IMAGE_MAGIC then Some(NotFirmware)
    else
      match d.headerCheck(head)
      case Fine => None
      case OtherProject => Some(NotFirmware)
      case OtherChip => Some(WrongChip)
  }

  predicate SizeOk(d: Device, total: nat) { 4096 + TRAILER <= total && total - TRAILER <= d.slotSize }

  predicate FlashOk(d: Device, n: nat) { d.fault.Some? ==> d.fault.value >= n }

  /** After the last byte: signature, image check, selection. */
  function Closing(d: Device, image: seq<Byte>, trailer: seq<Byte>): Option<Reason>
    requires |trailer| == TRAILER
  {
    if !SignatureOk(d, image, trailer) then Some(BadSignature)
    else if !d.endOk then Some(ImageCheckFailed)
    else if !d.selectOk then Some(CannotSelect)
    else None
  }

  /** What is wrong with the bytes as they come in, when the chunk that completes the
      header ends at `mark`: the first byte, the flash up to there, the header, the rest
      of the flash, in that order. */
  function Wrong(d: Device, file: seq<Byte>, mark: nat): (why: Option<Reason>)
    requires SizeOk(d, |file|)
    ensures why in {None, Some(NotFirmware), Some(WrongChip), Some(FlashFailed)}
  {
    var len := |file| - TRAILER;
    var header := HeaderVerdict(d, file[..DESC_END]);
    if file[0] != IMAGE_MAGIC then Some(NotFirmware)
    else if !FlashOk(d, Min(mark, len)) then Some(FlashFailed)
    else if header.Some? then header
    else if !FlashOk(d, len) then Some(FlashFailed)
    else None
  }

  /** What the chunk from `from` to `from + n` brings to light, in the order the handler
      looks. */
  function TakeWrong(d: Device, file: seq<Byte>, from: nat, n: nat): Option<Reason>
    requires SizeOk(d, |file|)
  {
    if from == 0 && file[0] != IMAGE_MAGIC then Some(NotFirmware)
    else if !FlashOk(d, Min(from + n, |file| - TRAILER)) then Some(FlashFailed)
    else if from < DESC_END <= from + n then HeaderVerdict(d, file[..DESC_END])
    else None
  }

  /** The verdict on a complete upload. */
  function Judged(d: Device, file: seq<Byte>, mark: nat): Verdict
    requires SizeOk(d, |file|)
  {
    var len := |file| - TRAILER;
    var wrong := Wrong(d, file, mark);
    var closing := Closing(d, file[..len], file[len..]);
    if wrong.Some? then Refused(wrong.value) else if closing.Some? then Refused(closing.value) else Accepted
  }

  /** Acceptable: nothing is wrong with the file or the flash. No word about chunks. */
  predicate Acceptable(d: Device, file: seq<Byte>)
    requires SizeOk(d, |file|)
  {
    var len := |file| - TRAILER;
    HeaderVerdict(d, file[..DESC_END]).None? && FlashOk(d, len) && Closing(d, file[..len], file[len..]).None?
  }

  /** The 128 bytes after the image sign it: they begin with NSFWSIG1, the length n of the
      signature, low byte first, and a signature of n bytes that verifies the whole image. */
  predicate Signed(d: Device, file: seq<Byte>)
    requires |file| >= 4224
  {
    var len := |file| - 128;
    && file[len..len + 8] == [0x4E, 0x53, 0x46, 0x57, 0x53, 0x49, 0x47, 0x31]
    && var n: int := file[len + 8] as int + 256 * (file[len + 9] as int);
       0 < n <= 118 && d.verify(file[..len], file[len + 10..len + 10 + n])
  }

  /** What an accepted file is, byte by byte: the image magic, a header that passes, no flash
      fault in the image, and a signature of the whole image. */
  predicate Genuine(d: Device, file: seq<Byte>)
    requires |file| >= 4224
  {
    var len := |file| - 128;
    && file[0] == 0xE9 && d.headerCheck(file[..288]) == Fine
    && (d.fault.Some? ==> d.fault.value >= len)
    && Signed(d, file)
    && d.endOk && d.selectOk
  }

  lemma GenuineExactly(d: Device, file: seq<Byte>)
    requires SizeOk(d, |file|)
    ensures Acceptable(d, file) <==> Genuine(d, file)
  {
    SignedExactly(d, file);
    assert file[..288][0] == file[0];
    hide SignatureOk;
  }

  lemma SignedExactly(d: Device, file: seq<Byte>)
    requires |file| >= 4224
    ensures SignatureOk(d, file[..|file| - 128], file[|file| - 128..]) <==> Signed(d, file)
  {
    var len := |file| - 128;
    var trailer := file[len..];
    assert trailer[..8] == file[len..len + 8] && trailer[8] == file[len + 8] && trailer[9] == file[len + 9];
    var n: int := file[len + 8] as int + 256 * (file[len + 9] as int);
    if 0 < n <= 118 { assert trailer[10..10 + n] == file[len + 10..len + 10 + n]; }
  }

  /** Why a complete upload is refused, in order: the first byte; the flash up to where the
      chunk with the end of the header ends; the header; the rest of the flash; and then
      the signature, the image check and the selection. */
  lemma RefusedBecause(d: Device, file: seq<Byte>, mark: nat)
    requires SizeOk(d, |file|) && 288 <= mark
    ensures var len := |file| - 128; var header := d.headerCheck(file[..288]);
      Judged(d, file, mark) ==
        if file[0] != 0xE9 then Refused(NotFirmware)
        else if d.fault.Some? && d.fault.value < len && d.fault.value < mark then Refused(FlashFailed)
        else if header == OtherProject then Refused(NotFirmware)
        else if header == OtherChip then Refused(WrongChip)
        else if d.fault.Some? && d.fault.value < len then Refused(FlashFailed)
        else if !Signed(d, file) then Refused(BadSignature)
        else if !d.endOk then Refused(ImageCheckFailed)
        else if !d.selectOk then Refused(CannotSelect)
        else Accepted
  {
    SignedExactly(d, file);
    assert file[..288][0] == file[0];
    hide SignatureOk;
  }

  lemma AcceptedIgnoresChunks(d: Device, file: seq<Byte>, mark: nat)
    requires SizeOk(d, |file|)
    ensures Judged(d, file, mark) == Accepted <==> Acceptable(d, file)
  {}

  /** The connection gives out before the last byte: it closes, or the third timeout
      in a row. */
  function Breaks(events: seq<Recv>, left: nat, timeouts: nat): bool
    decreases |events|
  {
    if left == 0 then false
    else if events == [] then true
    else
      match events[0]
      case Data(offered) => Breaks(events[1..], left - Took(offered, left), 0)
      case Timeout => timeouts + 1 >= MAX_TIMEOUTS || Breaks(events[1..], left, timeouts + 1)
      case Closed => true
  }

  /** Where the chunk ends that completes the header. */
  function Mark(events: seq<Recv>, got: nat, total: nat): (mark: nat)
    requires got <= total
    ensures got <= mark <= total
    decreases |events|
  {
    if got >= DESC_END || events == [] then (if got >= DESC_END then got else total)
    else if events[0].Data? && got < total then Mark(events[1..], got + Took(events[0].offered, total - got), total)
    else Mark(events[1..], got, total)
  }

  /** What an upload of `events` has come to after i of them. */
  ghost predicate Left(events: seq<Recv>, i: nat, got: nat, total: nat, timeouts: nat, mark: nat)
    requires i <= |events| && got <= total
  {
    && Breaks(events[i..], total - got, timeouts) == Breaks(events, total, 0)
    && if got < DESC_END then Mark(events[i..], got, total) == mark else mark <= got
  }

  lemma LeftAll(events: seq<Recv>, total: nat)
    requires DESC_END <= total
    ensures Left(events, 0, 0, total, 0, Mark(events, 0, total))
  {
    assert events[0..] == events;
  }

  lemma LeftNone(events: seq<Recv>, i: nat, total: nat, timeouts: nat, mark: nat)
    requires i <= |events| && Left(events, i, total, total, timeouts, mark)
    ensures !Breaks(events, total, 0)
  {}

  /** One more of them; where a chunk ends bears on the header as `mark` says. */
  lemma LeftNext(events: seq<Recv>, i: nat, got: nat, total: nat, timeouts: nat, mark: nat)
    requires i <= |events| && got < total && Left(events, i, got, total, timeouts, mark)
    ensures i == |events| ==> Breaks(events, total, 0)
    ensures i < |events| ==>
      match events[i]
      case Closed => Breaks(events, total, 0)
      case Timeout =>
        if timeouts + 1 >= MAX_TIMEOUTS then Breaks(events, total, 0) else Left(events, i + 1, got, total, timeouts + 1, mark)
      case Data(offered) =>
        var to := got + Took(offered, total - got);
        && Left(events, i + 1, to, total, 0, mark)
        && (if got >= DESC_END then mark <= got else if to >= DESC_END then mark == to else mark >= to)
  {
    if i < |events| {
      assert events[i..][0] == events[i] && events[i..][1..] == events[i + 1..];
      BreaksNext(events[i..], total - got, timeouts);
      MarkNext(events[i..], got, total);
      hide Breaks, Mark;
    }
  }

  lemma BreaksNext(events: seq<Recv>, left: nat, timeouts: nat)
    requires events != [] && left > 0
    ensures Breaks(events, left, timeouts) ==
      match events[0]
      case Data(offered) => Breaks(events[1..], left - Took(offered, left), 0)
      case Timeout => timeouts + 1 >= MAX_TIMEOUTS || Breaks(events[1..], left, timeouts + 1)
      case Closed => true
  {}

  lemma MarkNext(events: seq<Recv>, got: nat, total: nat)
    requires events != [] && got < total
    ensures Mark(events, got, total) ==
      if got >= DESC_END then got
      else if events[0].Data? then Mark(events[1..], got + Took(events[0].offered, total - got), total)
      else Mark(events[1..], got, total)
    ensures events[0].Data? ==>
      var to := got + Took(events[0].offered, total - got);
      if to >= DESC_END then Mark(events[1..], to, total) == to else Mark(events[1..], to, total) >= to
  {}

  /** Only so far: no chunk is longer than 4096 bytes, and it starts inside the header. */
  lemma {:induction false} MarkRange(events: seq<Recv>, got: nat, total: nat, timeouts: nat)
    requires got < DESC_END <= total && !Breaks(events, total - got, timeouts)
    ensures 288 <= Mark(events, got, total) <= Min(4383, total)
    decreases |events|
  {
    if events != [] {
      match events[0]
      case Data(offered) =>
        var next := got + Took(offered, total - got);
        if next < DESC_END { MarkRange(events[1..], next, total, 0); }
      case Timeout => MarkRange(events[1..], got, total, timeouts + 1);
      case Closed =>
    }
  }

  // ----- when an upload is interrupted -------------------------------------

  /** How much has come in after the first i calls. */
  function GotAfter(events: seq<Recv>, total: nat, i: nat): (got: nat)
    requires i <= |events|
    ensures got <= total
  {
    if i == 0 then 0
    else
      var got := GotAfter(events, total, i - 1);
      if events[i - 1].Data? && got < total then got + Took(events[i - 1].offered, total - got) else got
  }

  /** How many of the calls just before the i-th timed out. */
  function TimedOut(events: seq<Recv>, i: nat): nat
    requires i <= |events|
  {
    if i == 0 || !events[i - 1].Timeout? then 0 else TimedOut(events, i - 1) + 1
  }

  /** The upload is still short at call i, and that is the end of the connection, or a
      timeout right after two others. */
  predicate GivesOut(events: seq<Recv>, total: nat, i: nat)
    requires i <= |events|
  {
    GotAfter(events, total, i) < total
    && (i == |events| || events[i].Closed? || (i >= 2 && events[i].Timeout? && events[i - 1].Timeout? && events[i - 2].Timeout?))
  }

  lemma {:induction false} GotGrows(events: seq<Recv>, total: nat, i: nat, j: nat)
    requires i <= j <= |events|
    ensures GotAfter(events, total, i) <= GotAfter(events, total, j)
  {
    if i < j { GotGrows(events, total, i, j - 1); }
  }

  lemma {:induction false} BreaksFrom(events: seq<Recv>, total: nat, i: nat)
    requires i <= |events| && TimedOut(events, i) <= 2
    ensures Breaks(events[i..], total - GotAfter(events, total, i), TimedOut(events, i)) <==>
      exists j :: i <= j <= |events| && GivesOut(events, total, j)
    decreases |events| - i
  {
    hide Breaks, GivesOut, Took, TimedOut;
    var left := total - GotAfter(events, total, i);
    NoneLeft(events[i..], left, TimedOut(events, i));
    if left == 0 {
      forall j | i <= j <= |events| ensures !GivesOut(events, total, j) {
        GotGrows(events, total, i, j);
        WholeByThen(events, total, j);
      }
    } else if i == |events| {
      EndsShort(events, total);
    } else {
      assert events[i..][0] == events[i] && events[i..][1..] == events[i + 1..];
      BreaksNext(events[i..], left, TimedOut(events, i));
      OneMoreCall(events, total, i);
      if !GivesOut(events, total, i) { BreaksFrom(events, total, i + 1); }
    }
  }

  lemma NoneLeft(events: seq<Recv>, left: nat, timeouts: nat)
    ensures left == 0 ==> !Breaks(events, left, timeouts)
    ensures left > 0 && events == [] ==> Breaks(events, left, timeouts)
  {}

  lemma WholeByThen(events: seq<Recv>, total: nat, j: nat)
    requires j <= |events| && GotAfter(events, total, j) >= total
    ensures !GivesOut(events, total, j)
  {}

  lemma EndsShort(events: seq<Recv>, total: nat)
    requires GotAfter(events, total, |events|) < total
    ensures GivesOut(events, total, |events|)
  {}

  lemma OneMoreCall(events: seq<Recv>, total: nat, i: nat)
    requires i < |events| && GotAfter(events, total, i) < total && TimedOut(events, i) <= 2
    ensures GivesOut(events, total, i) <==> events[i].Closed? || (events[i].Timeout? && TimedOut(events, i) == 2)
    ensures TimedOut(events, i + 1) == if events[i].Timeout? then TimedOut(events, i) + 1 else 0
    ensures GotAfter(events, total, i + 1) == GotAfter(events, total, i)
      + if events[i].Data? then Took(events[i].offered, total - GotAfter(events, total, i)) else 0
  {}

  /** An upload is interrupted exactly when, with bytes still to come, the connection ends or
      three calls in a row time out. */
  lemma BreaksExactly(events: seq<Recv>, total: nat)
    ensures Breaks(events, total, 0) <==> exists i :: 0 <= i <= |events| && GivesOut(events, total, i)
  {
    BreaksFrom(events, total, 0);
    assert events[0..] == events;
  }

  function Pieces(events: seq<Recv>): nat
  {
    if events == [] then 0 else Pieces(events[1..]) + if events[0].Data? then 1 else 0
  }

  /** The connection stays open and never times out three times in a row. */
  predicate Patient(events: seq<Recv>, timeouts: nat)
    decreases |events|
  {
    events == []
    || match events[0]
       case Data(_) => Patient(events[1..], 0)
       case Timeout => timeouts + 1 < MAX_TIMEOUTS && Patient(events[1..], timeouts + 1)
       case Closed => false
  }

  /** Such a connection gets every file through, however small the pieces. */
  lemma {:induction false} PatientUploadCompletes(events: seq<Recv>, left: nat, timeouts: nat)
    requires Patient(events, timeouts) && Pieces(events) >= left
    ensures !Breaks(events, left, timeouts)
    decreases |events|
  {
    if left > 0 && events != [] {
      match events[0]
      case Data(offered) =>
        PatientUploadCompletes(events[1..], left - Took(offered, left), 0);
      case Timeout => PatientUploadCompletes(events[1..], left, timeouts + 1);
      case Closed =>
    }
  }

  function Chunks(n: nat): seq<Recv> { seq(n, _ => Data(CHUNK)) }

  lemma {:induction false} ChunksComplete(n: nat, left: nat)
    requires n >= left
    ensures !Breaks(Chunks(n), left, 0)
    decreases n
  {
    if left > 0 {
      assert Chunks(n)[1..] == Chunks(n - 1);
      ChunksComplete(n - 1, left - Took(CHUNK, left));
    }
  }

  /** Where the chunks decide what is reported: a good first byte, a bad header, and a
      flash fault that the chunk completing the header may or may not reach. */
  predicate ChunksDecide(d: Device, file: seq<Byte>)
    requires SizeOk(d, |file|)
  {
    && file[0] == IMAGE_MAGIC && HeaderVerdict(d, file[..DESC_END]).Some?
    && d.fault.Some? && DESC_END <= d.fault.value < Min(LAST_MARK, |file| - TRAILER)
  }

  /** The header in a chunk of its own, and then the rest. */
  function Short(total: nat): seq<Recv> { [Data(DESC_END)] + Chunks(total) }

  /** The header all but its last byte, and then the longest chunks. */
  function Long(total: nat): seq<Recv> { [Data(DESC_END - 1)] + Chunks(total) }

  lemma ShortAndLong(total: nat)
    requires 4096 + TRAILER <= total
    ensures !Breaks(Short(total), total, 0) && Mark(Short(total), 0, total) == DESC_END
    ensures !Breaks(Long(total), total, 0) && Mark(Long(total), 0, total) == Min(LAST_MARK, total)
  {
    ChunksComplete(total, total - DESC_END);
    ChunksComplete(total, total - (DESC_END - 1));
    assert Short(total)[1..] == Chunks(total) && Long(total)[1..] == Chunks(total);
    assert Chunks(total)[0] == Data(CHUNK);
    assert Mark(Chunks(total), DESC_END - 1, total) == Min(LAST_MARK, total);
  }

  /** Two ways of cutting one such file, and two verdicts. */
  lemma TwoVerdicts(d: Device, file: seq<Byte>)
    requires SizeOk(d, |file|) && ChunksDecide(d, file)
    ensures Judged(d, file, Mark(Short(|file|), 0, |file|)) == Refused(HeaderVerdict(d, file[..DESC_END]).value)
    ensures Judged(d, file, Mark(Long(|file|), 0, |file|)) == Refused(FlashFailed)
  {
    ShortAndLong(|file|);
  }

  lemma OneVerdict(d: Device, file: seq<Byte>, a: nat, b: nat)
    requires SizeOk(d, |file|) && !ChunksDecide(d, file)
    requires DESC_END <= a <= Min(LAST_MARK, |file|) && DESC_END <= b <= Min(LAST_MARK, |file|)
    ensures Judged(d, file, a) == Judged(d, file, b)
  {}

  /** The verdict on a complete upload depends on the file alone, exactly outside those
      cases. */
  lemma VerdictIgnoresChunksExactly(d: Device, file: seq<Byte>)
    requires SizeOk(d, |file|)
    ensures !ChunksDecide(d, file) <==>
      (forall x, y :: !Breaks(x, |file|, 0) && !Breaks(y, |file|, 0) ==>
        Judged(d, file, Mark(x, 0, |file|)) == Judged(d, file, Mark(y, 0, |file|)))
  {
    hide Judged, Mark, Breaks;
    if ChunksDecide(d, file) {
      TwoVerdicts(d, file);
      ShortAndLong(|file|);
    } else {
      forall x, y | !Breaks(x, |file|, 0) && !Breaks(y, |file|, 0)
        ensures Judged(d, file, Mark(x, 0, |file|)) == Judged(d, file, Mark(y, 0, |file|))
      {
        MarkRange(x, 0, |file|, 0);
        MarkRange(y, 0, |file|, 0);
        OneVerdict(d, file, Mark(x, 0, |file|), Mark(y, 0, |file|));
      }
    }
  }

  // ----- receiving ---------------------------------------------------------

  method Copy(dst: array<Byte>, at: nat, src: seq<Byte>)
    requires at + |src| <= dst.Length
    modifies dst
    ensures dst[..] == old(dst[..at]) + src + old(dst[at + |src|..])
  {
    forall i | 0 <= i < |src| { dst[at + i] := src[i]; }
  }

  lemma Glue(s: seq<Byte>, lo: nat, mid: nat, hi: nat)
    requires lo <= mid <= hi <= |s|
    ensures s[lo..mid] + s[mid..hi] == s[lo..hi]
  {}

  /** One upload in progress. */
  class Upload {
    const device: Device
    const total: nat
    const imgLen: nat
    const head: array<Byte>
    const trailer: array<Byte>
    var sha: seq<Byte>             // everything hashed
    var flash: seq<Byte>           // everything written
    var got: nat
    var headerChecks: nat

    ghost predicate Shape()
      reads this
    {
      && SizeOk(device, total) && imgLen == total - TRAILER && got <= total
      && head.Length == DESC_END && trailer.Length == TRAILER && head != trailer
    }

    /** The header buffer holds the first n bytes of the file, as far as it goes. */
    ghost predicate HeadHolds(file: seq<Byte>, n: nat)
      requires Shape() && |file| == total && n <= total
      reads this, head
    {
      head[..Min(n, DESC_END)] == file[..Min(n, DESC_END)]
    }

    /** The first n bytes of the file, hashed and written if image, kept if trailer. */
    ghost predicate BodyHolds(file: seq<Byte>, n: nat)
      requires Shape() && |file| == total && n <= total
      reads this, trailer
    {
      && sha == flash == file[..Min(n, imgLen)]
      && trailer[..Max(n - imgLen, 0)] == file[imgLen..Max(n, imgLen)]
    }

    /** After `got` bytes of the file, however they were cut: the image so far is
        hashed and written, the rest is in the trailer, the header buffer holds
        the prefix and has been checked as soon as it was full. */
    ghost predicate Holds(file: seq<Byte>)
      reads this, head, trailer
    {
      && Shape() && |file| == total
      && HeadHolds(file, got) && BodyHolds(file, got)
      && headerChecks == (if got >= DESC_END then 1 else 0)
    }

    /** Nothing found wrong so far. */
    ghost predicate Clean(file: seq<Byte>)
      requires Shape() && |file| == total
      reads this
    {
      && FlashOk(device, Min(got, imgLen))
      && (got > 0 ==> file[0] == IMAGE_MAGIC)
      && (got >= DESC_END ==> HeaderVerdict(device, file[..DESC_END]).None?)
    }

    constructor (device: Device, total: nat)
      requires SizeOk(device, total)
      ensures Shape() && got == 0 && sha == flash == [] && headerChecks == 0
      ensures this.device == device && this.total == total && fresh(head) && fresh(trailer)
    {
      this.device, this.total, imgLen := device, total, total - TRAILER;
      head := new Byte[DESC_END];
      trailer := new Byte[TRAILER];
      sha, flash, got, headerChecks := [], [], 0, 0;
    }

    /** A chunk goes to the header buffer as far as it belongs there. */
    method FillHeader(ghost file: seq<Byte>, buf: seq<Byte>)
      requires Shape() && |file| == total && got + |buf| <= total && buf == file[got..got + |buf|]
      requires HeadHolds(file, got)
      modifies head
      ensures HeadHolds(file, got + |buf|)
    {
      if got < DESC_END {
        ghost var was := head[..got];
        var part := buf[..Min(DESC_END - got, |buf|)];
        Copy(head, got, part);
        assert head[..got + |part|] == was + part == file[..got + |part|];
      } else {
        assert Min(got + |buf|, DESC_END) == Min(got, DESC_END) == DESC_END;
      }
    }

    /** The image part of a chunk is hashed and written. */
    method StoreImage(ghost file: seq<Byte>, part: seq<Byte>) returns (ok: bool)
      requires Shape() && |file| == total && part != [] && got + |part| <= imgLen && part == file[got..got + |part|]
      requires BodyHolds(file, got)
      modifies `sha, `flash
      ensures ok <==> FlashOk(device, got + |part|)
      ensures ok ==> sha == flash == file[..got + |part|] && BodyHolds(file, got + |part|)
    {
      Glue(file, 0, got, got + |part|);
      sha := sha + part;
      if device.fault.Some? && device.fault.value < got + |part| { return false; }
      flash := flash + part;
      return true;
    }

    /** The rest of it is kept. */
    method KeepTrailer(ghost file: seq<Byte>, at: nat, part: seq<Byte>)
      requires Shape() && |file| == total && imgLen <= at && at + |part| <= total && part == file[at..at + |part|]
      requires BodyHolds(file, at)
      modifies trailer
      ensures BodyHolds(file, at + |part|)
    {
      ghost var was := trailer[..at - imgLen];
      Copy(trailer, at - imgLen, part);
      Glue(file, imgLen, at, at + |part|);
      assert trailer[..at + |part| - imgLen] == was + part;
    }

    method Store(ghost file: seq<Byte>, buf: seq<Byte>) returns (ok: bool)
      requires Shape() && |file| == total && got + |buf| <= total && buf == file[got..got + |buf|]
      requires BodyHolds(file, got) && FlashOk(device, Min(got, imgLen))
      modifies `sha, `flash, trailer
      ensures ok <==> FlashOk(device, Min(got + |buf|, imgLen))
      ensures ok ==> BodyHolds(file, got + |buf|)
    {
      hide BodyHolds, FlashOk;
      var imgN := if got < imgLen then Min(imgLen - got, |buf|) else 0;
      if imgN != 0 {
        ok := StoreImage(file, buf[..imgN]);
        if !ok { return; }
      }
      if |buf| > imgN {
        KeepTrailer(file, got + imgN, buf[imgN..]);
      }
      return true;
    }

    /** A chunk that brings something to light decides the verdict. */
    lemma TakeDecides(file: seq<Byte>, from: nat, n: nat, mark: nat)
      requires Shape() && |file| == total && got == from && Clean(file) && from + n <= total
      requires if from >= DESC_END then mark <= from else if from + n >= DESC_END then mark == from + n else mark >= from + n
      ensures TakeWrong(device, file, from, n).Some? ==> TakeWrong(device, file, from, n) == Wrong(device, file, mark)
    {}

    lemma HeaderThere(file: seq<Byte>, n: nat)
      requires Shape() && |file| == total && DESC_END <= n <= total && HeadHolds(file, n)
      ensures head[..] == file[..DESC_END]
    {
      assert head[..] == head[..DESC_END];
    }

    /** The next chunk: what it brings to light is what is wrong with the file. */
    method TakeNext(file: seq<Byte>, n: nat, ghost mark: nat) returns (err: Option<Reason>)
      requires Holds(file) && Clean(file) && 0 < n && got + n <= total
      requires if got >= DESC_END then mark <= got else if got + n >= DESC_END then mark == got + n else mark >= got + n
      modifies `sha, `flash, `got, `headerChecks, head, trailer
      ensures Shape() && headerChecks <= 1
      ensures err.Some? ==> err == Wrong(device, file, mark) && err != Some(Interrupted)
      ensures err.None? ==> Holds(file) && Clean(file) && got == old(got) + n
    {
      TakeDecides(file, got, n, mark);
      hide Clean, HeadHolds, BodyHolds, Wrong, FlashOk, HeaderVerdict;
      err := Take(file, file[got..got + n]);
    }

    /** One chunk of the file. */
    method Take(ghost file: seq<Byte>, buf: seq<Byte>) returns (err: Option<Reason>)
      requires Holds(file) && Clean(file) && buf != [] && got + |buf| <= total && buf == file[got..got + |buf|]
      modifies `sha, `flash, `got, `headerChecks, head, trailer
      ensures Shape() && headerChecks <= 1
      ensures err == TakeWrong(device, file, old(got), |buf|)
      ensures err.None? ==> Holds(file) && Clean(file) && got == old(got) + |buf|
    {
      assert buf[0] == file[got];
      hide HeadHolds, BodyHolds, FlashOk, HeaderVerdict;
      if got == 0 && buf[0] != IMAGE_MAGIC { return Some(NotFirmware); }
      FillHeader(file, buf);
      var ok := Store(file, buf);
      if !ok { return Some(FlashFailed); }
      got := got + |buf|;
      err := CheckHeader(file, |buf|);
    }

    /** The header is checked as soon as it is whole. */
    method CheckHeader(ghost file: seq<Byte>, n: nat) returns (err: Option<Reason>)
      requires Shape() && |file| == total && n <= got && HeadHolds(file, got)
      modifies `headerChecks
      ensures err == if got - n < DESC_END <= got then HeaderVerdict(device, file[..DESC_END]) else None
      ensures headerChecks == old(headerChecks) + if got - n < DESC_END <= got then 1 else 0
    {
      hide HeadHolds, HeaderVerdict;
      if got >= DESC_END && got - n < DESC_END {
        HeaderThere(file, got);
        headerChecks := headerChecks + 1;
        err := HeaderVerdict(device, head[..]);
      } else {
        err := None;
      }
    }

    /** The receive loop. Whatever the chunks, an upload that gets through leaves the
        image hashed and written, the trailer kept, and the header checked once. */
    method Receive(file: seq<Byte>, events: seq<Recv>) returns (err: Option<Reason>)
      requires Shape() && |file| == total && got == 0 && sha == flash == [] && headerChecks == 0
      modifies `sha, `flash, `got, `headerChecks, head, trailer
      ensures Shape() && headerChecks <= 1
      ensures err.None? ==>
        && !Breaks(events, total, 0) && Clean(file) && got == total && headerChecks == 1
        && sha == flash == file[..imgLen] && trailer[..] == file[imgLen..] && head[..] == file[..DESC_END]
      ensures err == Some(Interrupted) ==> Breaks(events, total, 0)
      ensures err != Some(Interrupted) ==> err == Wrong(device, file, Mark(events, 0, total))
    {
      ghost var mark := Mark(events, 0, total);
      LeftAll(events, total);
      Fresh(file);
      hide Holds, Shape, Clean, HeadHolds, BodyHolds, FlashOk, HeaderVerdict, Wrong, TakeWrong, Left, Breaks, Mark;
      var i, timeouts := 0, 0;
      while got < total
        invariant Shape() && |file| == total && Holds(file) && Clean(file) && headerChecks <= 1
        invariant 0 <= i <= |events| && got <= total && |file| == total
        invariant Left(events, i, got, total, timeouts, mark)
        decreases |events| - i
      {
        LeftNext(events, i, got, total, timeouts, mark);
        if i == |events| { return Some(Interrupted); }
        var e := events[i];
        i := i + 1;
        if e == Timeout {
          timeouts := timeouts + 1;
          if timeouts < MAX_TIMEOUTS { continue; }
        }
        if !e.Data? { return Some(Interrupted); }
        timeouts := 0;
        var n := Took(e.offered, total - got);
        err := TakeNext(file, n, mark);
        if err.Some? { return; }
      }
      LeftNone(events, i, total, timeouts, mark);
      Whole(file);
      NothingWrong(file, mark);
      err := None;
    }

    lemma Fresh(file: seq<Byte>)
      requires Shape() && |file| == total && got == 0 && sha == flash == [] && headerChecks == 0
      ensures Holds(file) && Clean(file)
    {}

    lemma NothingWrong(file: seq<Byte>, mark: nat)
      requires Shape() && |file| == total && got == total && Clean(file) && mark <= total
      ensures Wrong(device, file, mark) == None
    {}

    lemma Whole(file: seq<Byte>)
      requires Holds(file) && got == total
      ensures headerChecks == 1
      ensures sha == flash == file[..imgLen] && trailer[..] == file[imgLen..] && head[..] == file[..DESC_END]
    {
      assert head[..] == head[..DESC_END] && trailer[..] == trailer[..TRAILER];
    }
  }

  /** The update handler, and the slot it writes to. */
  class Updater {
    var updating: bool
    var muted: bool
    var slot: seq<Byte>            // what the spare slot holds
    var bootable: bool             // whether it still starts with an image header
    var selected: bool             // whether it is what boots next

    /** Refused before anything is touched. */
    function Early(d: Device, total: nat): Option<Reason>
      reads `updating
    {
      if updating then Some(Busy)
      else if !d.hasSlot then Some(NoSlot)
      else if !SizeOk(d, total) then Some(BadSize)
      else if !d.memory then Some(NoMemory)
      else None
    }

    /** Open the slot, receive, and check the whole file. */
    method Try(d: Device, file: seq<Byte>, events: seq<Recv>) returns (err: Option<Reason>)
      requires SizeOk(d, |file|)
      modifies `slot, `bootable
      ensures err.None? <==> d.openOk && !Breaks(events, |file|, 0) && Acceptable(d, file)
      ensures err == Some(Interrupted) ==> Breaks(events, |file|, 0)
      ensures d.openOk && !Breaks(events, |file|, 0) ==>
        Judged(d, file, Mark(events, 0, |file|)) == if err.None? then Accepted else Refused(err.value)
      ensures !d.openOk ==> slot == old(slot) && bootable == old(bootable)
      ensures err.None? ==> slot == file[..|file| - TRAILER] && bootable
    {
      if !d.openOk { return Some(CannotOpen); }
      var u := new Upload(d, |file|);
      err := u.Receive(file, events);
      if u.flash != [] { slot, bootable := u.flash, true; }
      if err.Some? { return; }
      assert u.sha == file[..|file| - TRAILER] && u.trailer[..] == file[|file| - TRAILER..];
      AcceptedIgnoresChunks(d, file, Mark(events, 0, |file|));
      if !SignatureOk(d, u.sha, u.trailer[..]) { return Some(BadSignature); }
      if !d.endOk { return Some(ImageCheckFailed); }
      if !d.selectOk { return Some(CannotSelect); }
    }

    /** update_post: a complete upload is accepted or refused by what is in the file,
        never by how it was cut; and a refused one does not stay bootable. */
    method UpdatePost(d: Device, file: seq<Byte>, events: seq<Recv>) returns (v: Verdict)
      modifies this
      ensures old(Early(d, |file|)).Some? ==> unchanged(this) && v == Refused(old(Early(d, |file|)).value)
      ensures old(Early(d, |file|)).None? ==>
        (v == Accepted <==> d.openOk && !Breaks(events, |file|, 0) && |file| >= 4224 && Genuine(d, file))
      ensures !old(updating) && d.hasSlot && (|file| < 4224 || |file| > d.slotSize + 128) ==> v == Refused(BadSize)
      ensures v == Accepted ==> !old(updating) && d.hasSlot && d.memory && 4224 <= |file| <= d.slotSize + 128
      ensures old(Early(d, |file|)).None? && d.openOk && !Breaks(events, |file|, 0) ==> v == Judged(d, file, Mark(events, 0, |file|))
      ensures v == Refused(Interrupted) ==> Breaks(events, |file|, 0)
      ensures v == Accepted ==> slot == file[..|file| - TRAILER] && bootable && selected && updating && muted
      ensures v != Accepted ==> selected == old(selected) && updating == old(updating)
      ensures v != Accepted && old(Early(d, |file|)).None? ==> !muted && (d.eraseOk ==> !bootable)
    {
      if SizeOk(d, |file|) { GenuineExactly(d, file); }
      hide Judged, Breaks, Acceptable, Genuine, Mark;
      if updating { return Refused(Busy); }
      if !d.hasSlot { return Refused(NoSlot); }
      if !SizeOk(d, |file|) { return Refused(BadSize); }
      if !d.memory { return Refused(NoMemory); }
      updating := true;
      muted := true;
      var err := Try(d, file, events);
      if err.None? {
        selected := true;
        return Accepted;
      }
      if d.eraseOk { bootable := false; }
      muted := false;
      updating := false;
      return Refused(err.value);
    }
  }
}
