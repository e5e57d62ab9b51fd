/** What ymodem_receive tells storage, on every input. */
module YmodemTrace {
  import opened Serial
  import opened Checks
  import opened Metadata
  import opened Numerals
  import opened XmodemFrames
  import opened YmodemBlock0
  import opened YmodemReceiver
  import Link = YmodemLink

  /** Storage's view: no file open; a file open and the offset after its last block; or a call that
      does not fit. */
  datatype Track = Idle | Open(info: FileInfo, next: nat) | Broken

  /** A block that begins here has length zero and is not passed on: just at the announced size (and
      again every 2^64 bytes later). */
  predicate Skipped(size: nat, n: nat) {
    size > 0 && n >= size && (n - size) % (SIZE_MAX + 1) == 0
  }

  /** Where the block after offset `n` may be: there, or one skipped block further. */
  predicate Follows(info: FileInfo, n: nat, offset: nat) {
    offset == n || (Skipped(info.size, n) && (offset == n + 128 || offset == n + 1024))
  }

  /** A data call that fits: a whole block at the running offset, with the length that the announced
      size leaves for it. */
  predicate Fits(info: FileInfo, n: nat, block: seq<byte>, len: nat, offset: nat) {
    && (|block| == 128 || |block| == 1024)
    && Follows(info, n, offset)
    && 0 < len == WriteLength(info.size, offset, |block|)
  }

  function Follow(t: Track, c: Call): Track {
    match (t, c)
    case (Idle, FileStart(info)) => if info.size <= SIZE_MAX then Open(info, 0) else Broken
    case (Open(info, n), Data(block, len, offset)) =>
      if Fits(info, n, block, len, offset) then Open(info, offset + |block|) else Broken
    case (Open(info, _), FileEnd(info', _)) => if info' == info then Idle else Broken
    case _ => Broken
  }

  function TrackOf(calls: seq<Call>): Track {
    if calls == [] then Idle else Follow(TrackOf(calls[..|calls| - 1]), calls[|calls| - 1])
  }

  lemma TrackAppend(calls: seq<Call>, c: Call)
    ensures TrackOf(calls + [c]) == Follow(TrackOf(calls), c)
  {
    assert (calls + [c])[..|calls|] == calls;
  }

  /** What storage has seen while the receiver waits at a point. */
  predicate Expected(at: Point, t: Track) {
    match at
    case AwaitHeader(_) => t == Idle
    case AwaitPacket(info, _, offset, _) => t.Open? && t.info == info && Follows(info, t.next, offset)
    case AwaitSecondEot(info) => t.Open? && t.info == info
  }

  predicate InStep(r: RxStep) {
    if r.Continue? then Expected(r.at, TrackOf(r.w.calls)) else TrackOf(r.w.calls) == Idle
  }

  lemma Opposite(x: int)
    ensures x % (SIZE_MAX + 1) == 0 <==> (-x) % (SIZE_MAX + 1) == 0
  {
    var q: int, p: int := x / (SIZE_MAX + 1), (-x) / (SIZE_MAX + 1);
    assert x == (SIZE_MAX + 1) * q + x % (SIZE_MAX + 1);
    assert -x == (SIZE_MAX + 1) * p + (-x) % (SIZE_MAX + 1);
  }

  /** The subtraction comes to nothing only where blocks are skipped. */
  lemma ZeroLength(size: nat, offset: nat, block: nat)
    requires size <= SIZE_MAX && 0 < block
    ensures WriteLength(size, offset, block) == 0 <==> Skipped(size, offset)
  {
    if offset >= size {
      Opposite(offset - size);
    } else {
      assert (size - offset) % (SIZE_MAX + 1) == size - offset;
    }
  }

  /** Two blocks in a row are never both skipped. */
  lemma NoSecondSkip(size: nat, n: nat, block: nat)
    requires Skipped(size, n) && (block == 128 || block == 1024)
    ensures !Skipped(size, n + block)
  {
  }

  /** A block is passed on, or skipped. */
  lemma StoredInStep(info: FileInfo, payload: seq<byte>, offset: nat, w: World<Call>)
    requires |payload| == 128 || |payload| == 1024
    requires var t := TrackOf(w.calls); t.Open? && t.info == info && Follows(info, t.next, offset)
    requires info.size <= SIZE_MAX
    ensures var t := TrackOf(Store(info, payload, offset, w).calls);
      t.Open? && t.info == info && Follows(info, t.next, offset + |payload|)
  {
    hide TrackOf, WriteLength, Skipped;
    var n := TrackOf(w.calls).next;
    TrackAppend(w.calls, Data(payload, WriteLength(info.size, offset, |payload|), offset));
    ZeroLength(info.size, offset, |payload|);
    if offset != n {
      NoSecondSkip(info.size, n, offset - n);
    }
  }

  lemma OnBlockInStep(at: Point, num: byte, payload: seq<byte>, w: World<Call>)
    requires at.AwaitPacket? && Expected(at, TrackOf(w.calls)) && at.info.size <= SIZE_MAX
    requires |payload| == 128 || |payload| == 1024
    ensures InStep(OnBlock(at, num, payload, w))
  {
    hide TrackOf, Follows, Store;
    TrackAppend(w.calls, FileEnd(at.info, OutOfSequence));
    StoredInStep(at.info, payload, at.offset, w);
  }

  /** The sizes that Block 0 can announce. */
  predicate Sized(at: Point) {
    match at
    case AwaitPacket(info, _, _, _) => info.size <= SIZE_MAX
    case _ => true
  }

  lemma PacketInStep(step: CrcStep, at: Point, w: World<Call>)
    requires at.AwaitPacket? && Expected(at, TrackOf(w.calls)) && Sized(at)
    ensures var r := PacketStep(step, at, w); InStep(r) && (r.Continue? ==> Sized(r.at))
  {
    hide TrackOf, ReadBlock, OnBlock, Purge, Follows;
    TrackAppend(w.calls, FileEnd(at.info, Cancelled));
    TrackAppend(w.calls, FileEnd(at.info, TimedOut));
    var header := Head(w.script);
    if header.Byte? {
      match ReadBlock(step, SizeFor(header.value), Tail(w.script))
      case Good(num, payload, rest) =>
        OnBlockInStep(at, num, payload, w.Leaves(rest));
        SameInfo(at, num, payload, w.Leaves(rest));
      case Bad(_) =>
    }
  }

  lemma SameInfo(at: Point, num: byte, payload: seq<byte>, w: World<Call>)
    requires at.AwaitPacket?
    ensures var r := OnBlock(at, num, payload, w); r.Continue? ==> r.at.AwaitPacket? && r.at.info == at.info
  {
  }

  lemma HeaderInStep(step: CrcStep, retries: nat, w: World<Call>)
    requires TrackOf(w.calls) == Idle
    ensures var r := HeaderStep(step, retries, w); InStep(r) && (r.Continue? ==> Sized(r.at))
  {
    hide TrackOf, ReadBlock, Purge, ParseBlock0;
    var header := Head(w.script);
    if header.Byte? {
      match ReadBlock(step, SizeFor(header.value), Tail(w.script))
      case Good(num, payload, rest) =>
        ParsedSize(payload[..BLOCK0]);
        TrackAppend(w.calls, FileStart(ParseBlock0(payload[..BLOCK0])));
      case Bad(_) =>
    }
  }

  lemma ParsedSize(p: seq<byte>)
    requires p != []
    ensures ParseBlock0(p).size <= SIZE_MAX
  {
  }

  lemma StepInStep(step: CrcStep, at: Point, w: World<Call>)
    requires Expected(at, TrackOf(w.calls)) && Sized(at)
    ensures var r := Step(step, at, w); InStep(r) && (r.Continue? ==> Sized(r.at))
  {
    hide TrackOf, HeaderStep, PacketStep, Follows;
    match at {
      case AwaitHeader(retries) => HeaderInStep(step, retries, w);
      case AwaitPacket(_, _, _, _) => PacketInStep(step, at, w);
      case AwaitSecondEot(info) => TrackAppend(w.calls, FileEnd(info, Ok));
    }
  }

  lemma {:induction false} RunInStep(step: CrcStep, at: Point, w: World<Call>)
    requires Expected(at, TrackOf(w.calls)) && Sized(at)
    ensures TrackOf(Run(step, at, w).1.calls) == Idle
    decreases |w.script|, Patience(at)
  {
    hide TrackOf, Step, Follows;
    StepProgress(step, at, w);
    StepInStep(step, at, w);
    var r := Step(step, at, w);
    if r.Continue? {
      RunInStep(step, r.at, r.w);
    }
  }

  /** On every input ymodem_receive returns having called on_file_start and on_file_end in strict
      alternation, with on_data only in between, each time with a whole block at the running offset
      and the length that the announced size leaves for it, and with every opened file closed. */
  lemma ReceiveOnAnyInput(step: CrcStep, script: seq<Event>)
    ensures TrackOf(Receive(step, World(script, [], [])).1.calls) == Idle
  {
    RunInStep(step, AwaitHeader(0), NextFile(World(script, [], [])).w);
  }

  // ----- lengths -----

  /** The length given to on_data stays within the block exactly when the announced size is zero
      or the blocks before it have not passed that size: past it the subtraction wraps. */
  lemma WriteLengthWithinBlock(size: nat, offset: nat, block: nat)
    requires size <= SIZE_MAX && block <= 1024 && offset + block <= SIZE_MAX
    ensures WriteLength(size, offset, block) <= block <==> size == 0 || offset <= size
  {
  }

  lemma {:induction false} PrefixFits(calls: seq<Call>, i: nat)
    requires TrackOf(calls) != Broken && i <= |calls|
    ensures TrackOf(calls[..i]) != Broken
    ensures i < |calls| ==> Follow(TrackOf(calls[..i]), calls[i]) != Broken
    ensures TrackOf(calls[..i]).Open? ==> TrackOf(calls[..i]).info.size <= SIZE_MAX
    decreases |calls| - i
  {
    hide Follow, TrackOf;
    if i == |calls| {
      assert calls[..i] == calls;
      OpenSized(calls);
    } else {
      PrefixFits(calls, i + 1);
      assert calls[..i + 1] == calls[..i] + [calls[i]];
      TrackAppend(calls[..i], calls[i]);
      BrokenStays(calls[i]);
      OpenSized(calls[..i]);
    }
  }

  lemma BrokenStays(c: Call)
    ensures Follow(Broken, c) == Broken
  {
  }

  lemma {:induction false} OpenSized(calls: seq<Call>)
    ensures TrackOf(calls).Open? ==> TrackOf(calls).info.size <= SIZE_MAX
    decreases |calls|
  {
    hide Fits;
    if calls != [] {
      OpenSized(calls[..|calls| - 1]);
    }
  }

  /** On every input, each length given to on_data stays within its block if and only if no size was
      announced for the file or the blocks before it have not passed that size. */
  lemma LengthsOnAnyInput(step: CrcStep, script: seq<Event>, i: nat)
    ensures var calls := Receive(step, World(script, [], [])).1.calls;
      i < |calls| && calls[i].Data? && calls[i].offset + |calls[i].block| <= SIZE_MAX ==>
        var t := TrackOf(calls[..i]);
        && t.Open?
        && (calls[i].len <= |calls[i].block| <==> t.info.size == 0 || calls[i].offset <= t.info.size)
  {
    hide TrackOf, Receive, WriteLength;
    var calls := Receive(step, World(script, [], [])).1.calls;
    ReceiveOnAnyInput(step, script);
    if i < |calls| && calls[i].Data? && calls[i].offset + |calls[i].block| <= SIZE_MAX {
      PrefixFits(calls, i);
      WriteLengthWithinBlock(TrackOf(calls[..i]).info.size, calls[i].offset, |calls[i].block|);
    }
  }

  // ----- a peer that sends past the announced size -----

  /** Three well-formed blocks: a file of fewer than 128 bytes is announced and two data blocks are
      sent. */
  function Surplus(step: CrcStep, f: File, p: seq<byte>, q: seq<byte>): seq<Event> {
    Bytes(Frame(step, true, 0, Block0(f))) + (Bytes(Frame(step, true, 1, p)) + Bytes(Frame(step, true, 2, q)))
  }

  lemma {:induction false} RunGrows(step: CrcStep, at: Point, w: World<Call>)
    ensures w.calls <= Run(step, at, w).1.calls
    decreases |w.script|, Patience(at)
  {
    StepProgress(step, at, w);
    StepGrows(step, at, w);
    hide Step;
    var r := Step(step, at, w);
    if r.Continue? {
      RunGrows(step, r.at, r.w);
    }
  }

  lemma StepGrows(step: CrcStep, at: Point, w: World<Call>)
    ensures w.calls <= Step(step, at, w).w.calls
  {
    hide ReadBlock, Purge, ParseBlock0;
  }

  /** Then on_data is told that the second block holds 2^64 + size - 128 bytes, in every such run. */
  lemma LengthWraps(step: CrcStep, f: File, p: seq<byte>, q: seq<byte>, more: seq<Event>)
    requires Sendable([f]) && 0 < |f.content| < 128 && |p| == |q| == 128
    ensures var calls := Receive(step, World(Surplus(step, f, p, q) + more, [], [])).1.calls;
      [FileStart(InfoOf(f)), Data(p, |f.content|, 0), Data(q, SIZE_MAX + 1 + |f.content| - 128, 128)] <= calls
  {
    hide Frame, Block0, ParseBlock0, InfoOf, Step, Run;
    var info, first, second := InfoOf(f), Bytes(Frame(step, true, 1, p)), Bytes(Frame(step, true, 2, q));
    var at1, at2 := AwaitPacket(info, 1, 0, 0), AwaitPacket(info, 2, 128, 0);
    SizeOf(f);
    var w0 := NextFile(World(Surplus(step, f, p, q) + more, [], [])).w;
    assert Surplus(step, f, p, q) + more == Bytes(Frame(step, true, 0, Block0(f))) + (first + (second + more));
    HeaderRun(step, f, first + (second + more), w0.sent);
    var w1 := World(first + (second + more), w0.sent + [ACK, CRC_REQUEST], [] + [FileStart(info)]);
    Link.HearFrameThen(step, at1, w1.calls, 1, p, second + more, w1.sent);
    StepProgress(step, at1, w1);
    StepRuns(step, at1, w1);
    var w2 := World(second + more, w1.sent + [ACK], w1.calls + [Data(p, |f.content|, 0)]);
    assert Step(step, at1, w1) == Continue(at2, w2);
    Link.HearFrameThen(step, at2, w2.calls, 2, q, more, w2.sent);
    StepRuns(step, at2, w2);
    var w3 := Step(step, at2, w2).w;
    RunGrows(step, Step(step, at2, w2).at, w3);
  }

  lemma SizeOf(f: File)
    ensures InfoOf(f).size == |f.content|
  {
  }

  lemma StepRuns(step: CrcStep, at: Point, w: World<Call>)
    ensures var r := Step(step, at, w); r.Continue? ==> Run(step, at, w) == Run(step, r.at, r.w)
  {
    hide Step;
    StepProgress(step, at, w);
  }

  lemma HeaderRun(step: CrcStep, f: File, more: seq<Event>, sent: seq<byte>)
    requires Sendable([f])
    ensures var w := World(Bytes(Frame(step, true, 0, Block0(f))) + more, sent, []);
      Run(step, AwaitHeader(0), w)
      == Run(step, AwaitPacket(InfoOf(f), 1, 0, 0), World(more, sent + [ACK, CRC_REQUEST], [] + [FileStart(InfoOf(f))]))
  {
    hide Frame, Block0, ParseBlock0, Step, Run;
    var w := World(Bytes(Frame(step, true, 0, Block0(f))) + more, sent, []);
    SendableName([f], 0);
    Block0RoundTrip(f);
    Link.HearFrameThen(step, AwaitHeader(0), [], 0, Block0(f), more, sent);
    assert Block0(f)[..BLOCK0] == Block0(f) && InfoOf(f).name != [];
    StepRuns(step, AwaitHeader(0), w);
  }
}
