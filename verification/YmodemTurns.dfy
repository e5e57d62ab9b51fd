/** Every turn of ymodem_receive on every input, said in terms of what is on the line: which blocks it
    takes, when it asks again, when a file ends, and what each of its returns means. */
module YmodemTurns {
  import opened Serial
  import opened Checks
  import opened Metadata
  import opened Numerals
  import opened XmodemFrames
  import opened YmodemBlock0
  import opened YmodemReceiver
  import Trace = YmodemTrace
  import Link = YmodemLink

  /** ymodem_receive after at most `n` turns. */
  function Turns(step: CrcStep, at: Point, w: World<Call>, n: nat): RxStep
    decreases n
  {
    if n == 0 then Continue(at, w)
    else match Step(step, at, w)
      case Continue(at', w') => Turns(step, at', w', n - 1)
      case Return(status, w') => Return(status, w')
  }

  function At(step: CrcStep, script: seq<Event>, n: nat): RxStep {
    Turns(step, AwaitHeader(0), World(script, [CRC_REQUEST], []), n)
  }

  // ----- what a turn may be -----

  /** A whole block with this number, any complement, and a CRC that matches comes next. */
  predicate Ahead(step: CrcStep, s: seq<Event>, num: byte, inverse: byte, payload: seq<byte>, rest: seq<Event>) {
    && (|payload| == 128 || |payload| == 1024)
    && s == Bytes(Link.LooseFrame(step, num, inverse, payload)) + rest
  }

  /** A cancel request, or a CAN, comes next. */
  predicate CancelAhead(s: seq<Event>) {
    Head(s) == Cancel || Head(s) == Byte(CAN)
  }

  /** Only a cancel request is answered. */
  function CancelReply(s: seq<Event>): seq<byte> {
    if Head(s) == Cancel then [CAN, CAN] else []
  }

  /** What is left where nothing is taken: after a failed read what follows it, otherwise what a purge
      leaves behind the broken block or the byte that opens none. */
  function Dropped(step: CrcStep, s: seq<Event>): seq<Event> {
    if !Head(s).Byte? then Tail(s)
    else if Head(s).value == 0x02 then Purge(ReadBlock(step, 1024, Tail(s)).rest)
    else if Head(s).value == 0x01 then Purge(ReadBlock(step, 128, Tail(s)).rest)
    else Purge(Tail(s))
  }

  /** While Block 0 is awaited: the end of the batch, a file, another request, or the end of patience. */
  ghost predicate HeaderTurn(step: CrcStep, retries: nat, w: World<Call>, r: RxStep) {
    || (r == Return(Cancelled, World(Tail(w.script), w.sent + CancelReply(w.script), w.calls)) && CancelAhead(w.script))
    || (exists inverse, payload ::
          && Ahead(step, w.script, 0, inverse, payload, r.w.script)
          && if payload[0] == 0 then r == Return(Ok, World(r.w.script, w.sent + [ACK], w.calls))
             else var info := ParseBlock0(payload[..128]);
               r == Continue(AwaitPacket(info, 1, 0, retries),
                             World(r.w.script, w.sent + [ACK, CRC_REQUEST], w.calls + [FileStart(info)])))
    || (&& !CancelAhead(w.script)
        && (forall inverse, payload, rest :: !Ahead(step, w.script, 0, inverse, payload, rest))
        && r == if retries + 1 < 10 then
                  Continue(AwaitHeader(retries + 1), World(Dropped(step, w.script), w.sent + [CRC_REQUEST], w.calls))
                else Return(TimedOut, World(Dropped(step, w.script), w.sent + [CRC_REQUEST, CAN], w.calls)))
  }

  /** What a block that is taken adds to the record. */
  function Told(info: FileInfo, payload: seq<byte>, offset: nat): seq<Call> {
    var len := WriteLength(info.size, offset, |payload|);
    if len == 0 then [] else [Data(payload, len, offset)]
  }

  /** While a packet is awaited: the next block or the last one again, any other block, the first EOT, a
      cancel, silence, or something broken. */
  ghost predicate PacketTurn(step: CrcStep, at: Point, w: World<Call>, r: RxStep)
    requires at.AwaitPacket?
  {
    || (CancelAhead(w.script)
        && r == Return(Cancelled, World(Tail(w.script), w.sent + CancelReply(w.script),
                                        w.calls + [FileEnd(at.info, Cancelled)])))
    || (Head(w.script) == Byte(EOT)
        && r == Continue(AwaitSecondEot(at.info), World(Tail(w.script), w.sent + [NAK], w.calls)))
    || (exists num, inverse, payload ::
          Ahead(step, w.script, num, inverse, payload, r.w.script) && BlockTurn(at, num, payload, w, r))
    || (&& !CancelAhead(w.script) && Head(w.script) != Byte(EOT)
        && (forall num, inverse, payload, rest :: !Ahead(step, w.script, num, inverse, payload, rest))
        && r == if Head(w.script) != Timeout then
                  Continue(at, World(Dropped(step, w.script), w.sent + [NAK], w.calls))
                else if at.retries < 10 then
                  Continue(AwaitPacket(at.info, at.expected, at.offset, at.retries + 1),
                           World(Tail(w.script), w.sent + [NAK], w.calls))
                else Return(TimedOut, World(Tail(w.script), w.sent + [CAN], w.calls + [FileEnd(at.info, TimedOut)])))
  }

  predicate BlockTurn(at: Point, num: byte, payload: seq<byte>, w: World<Call>, r: RxStep)
    requires at.AwaitPacket?
  {
    r == if num == at.expected then
           Continue(AwaitPacket(at.info, (at.expected + 1) % 256, at.offset + |payload|, 0),
                    World(r.w.script, w.sent + [ACK], w.calls + Told(at.info, payload, at.offset)))
         else if (num + 1) % 256 == at.expected then
           Continue(at, World(r.w.script, w.sent + [ACK], w.calls))
         else
           Return(OutOfSequence, World(r.w.script, w.sent + [CAN], w.calls + [FileEnd(at.info, OutOfSequence)]))
  }

  ghost predicate Reported(step: CrcStep, at: Point, w: World<Call>, r: RxStep) {
    match at
    case AwaitHeader(retries) => HeaderTurn(step, retries, w, r)
    case AwaitPacket(_, _, _, _) => PacketTurn(step, at, w, r)
    case AwaitSecondEot(info) =>
      r == Continue(AwaitHeader(0), World(Tail(w.script), w.sent + [ACK, CRC_REQUEST], w.calls + [FileEnd(info, Ok)]))
  }

  // ----- the proof -----

  /** A whole block is read. */
  lemma AheadReads(step: CrcStep, s: seq<Event>, num: byte, inverse: byte, payload: seq<byte>, rest: seq<Event>)
    requires Ahead(step, s, num, inverse, payload, rest)
    ensures Head(s) == Byte(if |payload| == 1024 then STX else SOH)
    ensures ReadBlock(step, |payload|, Tail(s)) == Good(num, payload, rest)
  {
    hide ReadBlock, Trailer, Bytes;
    var header := if |payload| == 1024 then STX else SOH;
    BytesHead(header, [num, inverse] + payload + Trailer(step, true, payload), rest);
    Link.BlockReads(step, num, inverse, payload, rest);
  }

  /** And nothing else is. */
  lemma ReadAhead(step: CrcStep, header: byte, s: seq<Event>) returns (inverse: byte)
    requires Head(s) == Byte(header) && (header == SOH || header == STX)
    requires ReadBlock(step, SizeFor(header), Tail(s)).Good?
    ensures var r := ReadBlock(step, SizeFor(header), Tail(s)); Ahead(step, s, r.num, inverse, r.payload, r.rest)
  {
    hide ReadBlock, Bytes, Trailer;
    var r := ReadBlock(step, SizeFor(header), Tail(s));
    Link.GoodWasThere(step, SizeFor(header), Tail(s));
    inverse := Head(Tail(Tail(s))).value;
    BytesPrepend(s, header, [r.num, inverse] + r.payload + Trailer(step, true, r.payload), r.rest);
  }

  lemma HeaderReported(step: CrcStep, retries: nat, w: World<Call>)
    ensures HeaderTurn(step, retries, w, HeaderStep(step, retries, w))
  {
    hide ReadBlock, Purge, ParseBlock0, Ahead;
    var e := Head(w.script);
    if e == Byte(SOH) || e == Byte(STX) {
      var read := ReadBlock(step, SizeFor(e.value), Tail(w.script));
      if read.Good? {
        var inverse := ReadAhead(step, e.value, w.script);
        if read.num == 0 {
          NameOf(read.payload[..BLOCK0]);
        }
      }
    }
    forall inverse, payload, rest | Ahead(step, w.script, 0, inverse, payload, rest)
      ensures e == Byte(SOH) || e == Byte(STX)
      ensures ReadBlock(step, SizeFor(e.value), Tail(w.script)) == Good(0, payload, rest)
    {
      AheadReads(step, w.script, 0, inverse, payload, rest);
      AheadSize(step, w.script, 0, inverse, payload, rest);
    }
    assert w.sent + [CRC_REQUEST] + [CAN] == w.sent + [CRC_REQUEST, CAN];
  }

  lemma AheadSize(step: CrcStep, s: seq<Event>, num: byte, inverse: byte, payload: seq<byte>, rest: seq<Event>)
    requires Ahead(step, s, num, inverse, payload, rest)
    ensures |payload| == 128 || |payload| == 1024
  {
  }

  lemma NameOf(p: seq<byte>)
    requires |p| == BLOCK0
    ensures ParseBlock0(p).name == [] <==> p[0] == 0
  {
    hide Strtoul;
  }

  lemma BlockReported(step: CrcStep, at: Point, num: byte, inverse: byte, payload: seq<byte>, rest: seq<Event>,
                      w: World<Call>)
    requires at.AwaitPacket? && Ahead(step, w.script, num, inverse, payload, rest)
    ensures PacketTurn(step, at, w, OnBlock(at, num, payload, w.Leaves(rest)))
  {
    hide Ahead, WriteLength;
    var r := OnBlock(at, num, payload, w.Leaves(rest));
    assert num == Dec(at.expected) <==> (num + 1) % 256 == at.expected;
    assert w.calls + [] == w.calls;
    assert Ahead(step, w.script, num, inverse, payload, r.w.script) && BlockTurn(at, num, payload, w, r);
  }

  lemma PacketReported(step: CrcStep, at: Point, w: World<Call>)
    requires at.AwaitPacket?
    ensures PacketTurn(step, at, w, PacketStep(step, at, w))
  {
    var e := Head(w.script);
    if e == Byte(SOH) || e == Byte(STX) {
      hide ReadBlock, Purge, Ahead, OnBlock, PacketTurn;
      var read := ReadBlock(step, SizeFor(e.value), Tail(w.script));
      if read.Good? {
        var inverse := ReadAhead(step, e.value, w.script);
        BlockReported(step, at, read.num, inverse, read.payload, read.rest, w);
      } else {
        NoneAhead(step, w.script);
        BrokenReported(step, at, w, e.value);
      }
    } else {
      hide ReadBlock, Purge, Ahead, OnBlock;
      NoneAhead(step, w.script);
    }
  }

  lemma NoneAhead(step: CrcStep, s: seq<Event>)
    requires Head(s) in {Byte(SOH), Byte(STX)} ==> ReadBlock(step, SizeFor(Head(s).value), Tail(s)).Bad?
    ensures forall num, inverse, payload, rest :: !Ahead(step, s, num, inverse, payload, rest)
  {
    hide ReadBlock, Ahead;
    forall num, inverse, payload, rest ensures !Ahead(step, s, num, inverse, payload, rest) {
      if Ahead(step, s, num, inverse, payload, rest) {
        AheadReads(step, s, num, inverse, payload, rest);
        AheadSize(step, s, num, inverse, payload, rest);
      }
    }
  }

  lemma BrokenReported(step: CrcStep, at: Point, w: World<Call>, header: byte)
    requires at.AwaitPacket? && Head(w.script) == Byte(header) && (header == SOH || header == STX)
    requires ReadBlock(step, SizeFor(header), Tail(w.script)).Bad?
    requires forall num, inverse, payload, rest :: !Ahead(step, w.script, num, inverse, payload, rest)
    ensures PacketTurn(step, at, w, PacketStep(step, at, w))
  {
    hide ReadBlock, Purge, Ahead, OnBlock;
  }

  lemma TurnReported(step: CrcStep, at: Point, w: World<Call>)
    ensures Reported(step, at, w, Step(step, at, w))
  {
    hide HeaderStep, PacketStep, HeaderTurn, PacketTurn;
    match at
    case AwaitHeader(retries) => HeaderReported(step, retries, w);
    case AwaitPacket(_, _, _, _) => PacketReported(step, at, w);
    case AwaitSecondEot(_) => assert w.sent + [ACK] + [CRC_REQUEST] == w.sent + [ACK, CRC_REQUEST];
  }

  lemma {:induction false} TurnsNext(step: CrcStep, at: Point, w: World<Call>, n: nat)
    ensures Turns(step, at, w, n + 1) == match Turns(step, at, w, n)
                                         case Return(status, w') => Return(status, w')
                                         case Continue(at', w') => Step(step, at', w')
    decreases n
  {
    hide Step;
    if n == 0 {
      assert forall at', w' :: Turns(step, at', w', 0) == Continue(at', w');
      assert Turns(step, at, w, 1) == Step(step, at, w);
    } else {
      match Step(step, at, w)
      case Continue(at', w') => TurnsNext(step, at', w', n - 1);
      case Return(_, _) =>
    }
  }

  /** On every input, every turn is one of those. */
  lemma EveryTurn(step: CrcStep, script: seq<Event>, n: nat)
    requires At(step, script, n).Continue?
    ensures var r := At(step, script, n); Reported(step, r.at, r.w, At(step, script, n + 1))
  {
    hide Step, Reported, Turns;
    TurnsNext(step, AwaitHeader(0), World(script, [CRC_REQUEST], []), n);
    TurnReported(step, At(step, script, n).at, At(step, script, n).w);
  }

  // ----- returns -----

  lemma {:induction false} RunIsTurns(step: CrcStep, at: Point, w: World<Call>) returns (n: nat)
    ensures var out := Run(step, at, w);
      Turns(step, at, w, n + 1) == Return(out.0, out.1) && Turns(step, at, w, n).Continue?
    decreases |w.script|, Patience(at)
  {
    hide Step;
    StepProgress(step, at, w);
    match Step(step, at, w)
    case Return(status, w') =>
      n := 0;
      TurnsNext(step, at, w, 0);
    case Continue(at', w') =>
      var m := RunIsTurns(step, at', w');
      n := m + 1;
  }

  lemma {:induction false} AlwaysExpected(step: CrcStep, script: seq<Event>, n: nat)
    requires At(step, script, n).Continue?
    ensures var r := At(step, script, n); Trace.Expected(r.at, Trace.TrackOf(r.w.calls)) && Trace.Sized(r.at)
  {
    hide Step, Turns, Trace.Follows;
    if n == 0 {
      NoTurns(step, script);
    } else {
      TurnsNext(step, AwaitHeader(0), World(script, [CRC_REQUEST], []), n - 1);
      AlwaysExpected(step, script, n - 1);
      Trace.StepInStep(step, At(step, script, n - 1).at, At(step, script, n - 1).w);
    }
  }

  lemma NoTurns(step: CrcStep, script: seq<Event>)
    ensures At(step, script, 0) == Continue(AwaitHeader(0), World(script, [CRC_REQUEST], []))
  {
  }

  /** The Block 0 that ends a batch. */
  predicate EndAhead(step: CrcStep, s: seq<Event>, inverse: byte, payload: seq<byte>, rest: seq<Event>) {
    Ahead(step, s, 0, inverse, payload, rest) && payload[0] == 0
  }

  /** Why ymodem_receive returned: its last turn. OK means a checked Block 0 with an empty name, and no
      file open; a return inside a file is a failure and closes the file with the status returned; a
      cancel is one heard on the line. */
  ghost predicate Justified(step: CrcStep, at: Point, w: World<Call>, status: Status, w': World<Call>) {
    && Reported(step, at, w, Return(status, w'))
    && (status == Ok ==> exists inverse, payload :: EndAhead(step, w.script, inverse, payload, w'.script))
    && (status == Cancelled <==> CancelAhead(w.script))
    && match Trace.TrackOf(w.calls)
       case Open(info, _) => status != Ok && w'.calls == w.calls + [FileEnd(info, status)]
       case Idle => w'.calls == w.calls
       case Broken => false
  }

  lemma EndSeen(step: CrcStep, retries: nat, w: World<Call>, w': World<Call>)
    requires HeaderTurn(step, retries, w, Return(Ok, w'))
    ensures exists inverse, payload :: EndAhead(step, w.script, inverse, payload, w'.script)
    ensures !CancelAhead(w.script)
  {
    hide ParseBlock0;
    var inverse, payload :| Ahead(step, w.script, 0, inverse, payload, w'.script)
      && (payload[0] == 0 ==> Return(Ok, w') == Return(Ok, World(w'.script, w.sent + [ACK], w.calls)))
      && payload[0] == 0;
    AheadReads(step, w.script, 0, inverse, payload, w'.script);
    assert EndAhead(step, w.script, inverse, payload, w'.script);
  }

  lemma ReturnJustified(step: CrcStep, at: Point, w: World<Call>, status: Status, w': World<Call>)
    requires Trace.Expected(at, Trace.TrackOf(w.calls)) && Reported(step, at, w, Return(status, w'))
    ensures Justified(step, at, w, status, w')
  {
    hide Trace.TrackOf, Trace.Follows, Ahead, ParseBlock0, WriteLength;
    if at.AwaitPacket? && status == OutOfSequence {
      var num, inverse, payload :|
        Ahead(step, w.script, num, inverse, payload, w'.script) && BlockTurn(at, num, payload, w, Return(status, w'));
      AheadReads(step, w.script, num, inverse, payload, w'.script);
    }
    if at.AwaitHeader? && status == Ok {
      EndSeen(step, at.retries, w, w');
    }
  }

  /** On every input ymodem_receive returns, and only so. */
  lemma ReturnsBecause(step: CrcStep, script: seq<Event>) returns (n: nat)
    ensures var (status, w) := Receive(step, World(script, [], []));
      && At(step, script, n).Continue? && At(step, script, n + 1) == Return(status, w)
      && Justified(step, At(step, script, n).at, At(step, script, n).w, status, w)
  {
    hide Run, Turns, Justified, Reported;
    n := RunIsTurns(step, AwaitHeader(0), World(script, [CRC_REQUEST], []));
    assert [] + [CRC_REQUEST] == [CRC_REQUEST];
    EveryTurn(step, script, n);
    AlwaysExpected(step, script, n);
    var (status, w) := Receive(step, World(script, [], []));
    ReturnJustified(step, At(step, script, n).at, At(step, script, n).w, status, w);
  }
}
