/** ymodem_receive (src/ymodem.c:73-301) as a state machine over the points where it waits for a
    packet, its run over a finite event script, and the nested loops that compute it. */
module YmodemReceiver {
  import opened Serial
  import opened Checks
  import opened Metadata
  import opened Numerals
  import opened XmodemFrames
  import opened YmodemBlock0

  const MAX_RETRIES: nat := 10

  datatype Status = Ok | TimedOut | Cancelled | OutOfSequence

  /** The storage callbacks. on_data is given the block buffer, a length and an offset. */
  datatype Call =
    | FileStart(info: FileInfo)
    | Data(block: seq<byte>, len: nat, offset: nat)
    | FileEnd(info: FileInfo, status: Status)

  /** Waiting for Block 0, for a packet of a file, or for what follows the first EOT. */
  datatype Point =
    | AwaitHeader(retries: nat)
    | AwaitPacket(info: FileInfo, expected: byte, offset: nat, retries: nat)
    | AwaitSecondEot(info: FileInfo)

  datatype RxStep = Continue(at: Point, w: World<Call>) | Return(status: Status, w: World<Call>)

  // ----- blocks -----

  datatype BlockRead = Good(num: byte, payload: seq<byte>, rest: seq<Event>) | Bad(rest: seq<Event>)

  /** Number, complement (not looked at), payload and CRC. After a broken payload the CRC bytes
      are read all the same; a failed read skips the second of a pair. */
  function ReadBlock(step: CrcStep, size: nat, s: seq<Event>): (r: BlockRead)
    ensures |r.rest| <= |s|
    ensures r.Good? ==> |r.payload| == size
  {
    var e1, s1 := Head(s), Tail(s);
    if !e1.Byte? then Bad(s1)
    else
      var e2, s2 := Head(s1), Tail(s1);
      if !e2.Byte? then Bad(s2)
      else
        var filled := Fill(s2, size, []);
        var e3, s3 := Head(filled.rest), Tail(filled.rest);
        if !e3.Byte? then Bad(s3)
        else
          var e4, s4 := Head(s3), Tail(s3);
          if !e4.Byte? || filled.Broke? || Join(e3.value, e4.value) != Crc16(step, filled.bytes) then Bad(s4)
          else Good(e1.value, filled.bytes, s4)
  }

  function SizeFor(header: byte): nat {
    if header == STX then 1024 else 128
  }

  // ----- the header loop -----

  /** The head of the outer loop. */
  function NextFile(w: World<Call>): RxStep {
    Continue(AwaitHeader(0), w.Sends([CRC_REQUEST]))
  }

  function AskAgain(retries: nat, w: World<Call>): RxStep {
    var w' := w.Sends([CRC_REQUEST]);
    if retries + 1 < MAX_RETRIES then Continue(AwaitHeader(retries + 1), w')
    else Return(TimedOut, w'.Sends([CAN]))
  }

  /** An accepted Block 0: the end of the batch, or a file. */
  function OnBlock0(retries: nat, payload: seq<byte>, w: World<Call>): RxStep
    requires |payload| >= BLOCK0
  {
    var info := ParseBlock0(payload[..BLOCK0]);
    if info.name == [] then Return(Ok, w.Sends([ACK]))
    else Continue(AwaitPacket(info, 1, 0, retries), w.Sends([ACK, CRC_REQUEST]).Makes(FileStart(info)))
  }

  function HeaderStep(step: CrcStep, retries: nat, w: World<Call>): RxStep {
    var w1 := w.Leaves(Tail(w.script));
    match Head(w.script)
    case Cancel => Return(Cancelled, w1.Sends([CAN, CAN]))
    case Timeout => AskAgain(retries, w1)
    case Byte(header) =>
      if header == CAN then Return(Cancelled, w1)
      else if header != SOH && header != STX then AskAgain(retries, w1.Leaves(Purge(w1.script)))
      else
        match ReadBlock(step, SizeFor(header), w1.script)
        case Bad(rest) => AskAgain(retries, w.Leaves(Purge(rest)))
        case Good(num, payload, rest) =>
          if num != 0 then AskAgain(retries, w.Leaves(Purge(rest)))
          else OnBlock0(retries, payload, w.Leaves(rest))
  }

  // ----- the packet loop -----

  /** How many bytes of a block belong to the file; the difference is taken modulo 2^64. */
  function WriteLength(size: nat, offset: nat, block: nat): nat {
    if size > 0 && offset + block > size then (size - offset) % (SIZE_MAX + 1) else block
  }

  function Store(info: FileInfo, payload: seq<byte>, offset: nat, w: World<Call>): World<Call> {
    var len := WriteLength(info.size, offset, |payload|);
    if len > 0 then w.Makes(Data(payload, len, offset)) else w
  }

  function OnBlock(at: Point, num: byte, payload: seq<byte>, w: World<Call>): RxStep
    requires at.AwaitPacket?
  {
    if num == at.expected then
      Continue(at.(expected := Inc(at.expected), offset := at.offset + |payload|, retries := 0),
               Store(at.info, payload, at.offset, w).Sends([ACK]))
    else if num == Dec(at.expected) then Continue(at, w.Sends([ACK]))
    else Return(OutOfSequence, w.Sends([CAN]).Makes(FileEnd(at.info, OutOfSequence)))
  }

  function PacketStep(step: CrcStep, at: Point, w: World<Call>): RxStep
    requires at.AwaitPacket?
  {
    var w1 := w.Leaves(Tail(w.script));
    match Head(w.script)
    case Cancel => Return(Cancelled, w1.Sends([CAN, CAN]).Makes(FileEnd(at.info, Cancelled)))
    case Timeout =>
      if at.retries + 1 > MAX_RETRIES then Return(TimedOut, w1.Sends([CAN]).Makes(FileEnd(at.info, TimedOut)))
      else Continue(at.(retries := at.retries + 1), w1.Sends([NAK]))
    case Byte(header) =>
      if header == EOT then Continue(AwaitSecondEot(at.info), w1.Sends([NAK]))
      else if header == CAN then Return(Cancelled, w1.Makes(FileEnd(at.info, Cancelled)))
      else if header != SOH && header != STX then Continue(at, w1.Leaves(Purge(w1.script)).Sends([NAK]))
      else
        match ReadBlock(step, SizeFor(header), w1.script)
        case Bad(rest) => Continue(at, w.Leaves(Purge(rest)).Sends([NAK]))
        case Good(num, payload, rest) => OnBlock(at, num, payload, w.Leaves(rest))
  }

  /** Whatever answers the NAK to the first EOT, the file is done. */
  function EotStep(info: FileInfo, w: World<Call>): RxStep {
    NextFile(w.Leaves(Tail(w.script)).Sends([ACK]).Makes(FileEnd(info, Ok)))
  }

  function Step(step: CrcStep, at: Point, w: World<Call>): RxStep {
    match at
    case AwaitHeader(retries) => HeaderStep(step, retries, w)
    case AwaitPacket(_, _, _, _) => PacketStep(step, at, w)
    case AwaitSecondEot(info) => EotStep(info, w)
  }

  /** Turns left in silence. */
  function Patience(at: Point): nat {
    match at
    case AwaitSecondEot(_) => 20
    case AwaitHeader(retries) => if retries > MAX_RETRIES then 0 else MAX_RETRIES - retries
    case AwaitPacket(_, _, _, retries) => if retries > MAX_RETRIES then 0 else MAX_RETRIES + 1 - retries
  }

  lemma StepProgress(step: CrcStep, at: Point, w: World<Call>)
    ensures var r := Step(step, at, w);
      r.Continue? ==> |r.w.script| < |w.script| || (r.w.script == w.script && Patience(r.at) < Patience(at))
  {
    hide ReadBlock, Purge, ParseBlock0;
  }

  /** ymodem_receive from a waiting point; it returns on every script. */
  function Run(step: CrcStep, at: Point, w: World<Call>): (Status, World<Call>)
    decreases |w.script|, Patience(at)
  {
    StepProgress(step, at, w);
    match Step(step, at, w)
    case Return(status, w') => (status, w')
    case Continue(at', w') => Run(step, at', w')
  }

  function Proceed(step: CrcStep, r: RxStep): (Status, World<Call>) {
    match r
    case Return(status, w) => (status, w)
    case Continue(at, w) => Run(step, at, w)
  }

  /** ymodem_receive. */
  function Receive(step: CrcStep, w: World<Call>): (Status, World<Call>) {
    Proceed(step, NextFile(w))
  }

  // ----- the C loops -----

  method ReadBlockInto(port: Port<Call>, step: CrcStep, buf: array<byte>, size: nat) returns (ok: bool, num: byte)
    requires size <= buf.Length
    modifies port`script, buf
    ensures var r := ReadBlock(step, size, old(port.script));
      && port.script == r.rest && ok == r.Good?
      && (ok ==> r == Good(num, buf[..size], port.script))
  {
    var e1 := port.ReadByte();
    if !e1.Byte? {
      return false, 0;
    }
    num := e1.value;
    var e2 := port.ReadByte();
    if !e2.Byte? {
      return false, num;
    }
    var filled, _ := port.FillBuffer(buf, size);
    var e3 := port.ReadByte();
    if !e3.Byte? {
      return false, num;
    }
    var e4 := port.ReadByte();
    if !e4.Byte? || !filled {
      return false, num;
    }
    ok := Join(e3.value, e4.value) == Crc16(step, buf[..size]);
  }

  /** Of a longer Block 0 only the first 128 bytes are parsed. */
  lemma OnlyFirstBytes(retries: nat, short: seq<byte>, long: seq<byte>, w: World<Call>)
    requires |short| >= BLOCK0 && short <= long
    ensures OnBlock0(retries, short, w) == OnBlock0(retries, long, w)
  {
    assert short[..BLOCK0] == long[..BLOCK0];
  }

  /** Step 1: request and read Block 0. */
  method ReceiveHeader(port: Port<Call>, step: CrcStep, buf: array<byte>)
    returns (failed: Option<Status>, retries: nat)
    requires buf.Length == 1024
    modifies port, buf
    ensures Proceed(step, NextFile(old(port.W()))) ==
      match failed
      case Some(status) => (status, port.W())
      case None => Proceed(step, OnBlock0(retries, buf[..1024], port.W()))
    ensures |port.script| <= |old(port.script)|
    ensures failed.None? ==> |port.script| < |old(port.script)|
  {
    hide ReadBlock, Purge, OnBlock0, PacketStep, EotStep;
    port.Write([CRC_REQUEST]);
    retries := 0;
    while retries < MAX_RETRIES
      invariant Proceed(step, NextFile(old(port.W()))) ==
        if retries < MAX_RETRIES then Run(step, AwaitHeader(retries), port.W())
        else (TimedOut, port.W().Sends([CAN]))
      invariant |port.script| <= |old(port.script)|
    {
      var e := port.ReadByte();
      if e == Cancel {
        port.Write([CAN, CAN]);
        return Some(Cancelled), retries;
      }
      if e == Byte(CAN) {
        return Some(Cancelled), retries;
      }
      if e.Byte? && (e.value == SOH || e.value == STX) {
        var ok, num := ReadBlockInto(port, step, buf, SizeFor(e.value));
        if ok && num == 0 {
          OnlyFirstBytes(retries, buf[..SizeFor(e.value)], buf[..1024], port.W());
          return None, retries;
        }
      }
      if e.Byte? {
        port.PurgeInput();
      }
      port.Write([CRC_REQUEST]);
      retries := retries + 1;
    }
    port.Write([CAN]);
    return Some(TimedOut), retries;
  }

  /** One pass of the packet loop ends the loop, ends the function, or goes around again. */
  datatype Turn = Again(at: Point) | FileDone | Done(status: Status) {
    predicate Matches(r: RxStep, w: World<Call>) {
      match this
      case Again(at) => r == Continue(at, w)
      case FileDone => r == NextFile(w)
      case Done(status) => r == Return(status, w)
    }
  }

  /** A packet that is neither a control byte nor a failed read. */
  method TakeBlock(port: Port<Call>, step: CrcStep, at: Point, header: byte, buf: array<byte>) returns (r: Turn)
    requires at.AwaitPacket? && buf.Length == 1024 && (header == SOH || header == STX)
    modifies port, buf
    ensures r.Matches(match ReadBlock(step, SizeFor(header), old(port.script))
                      case Bad(rest) => Continue(at, old(port.W()).Leaves(Purge(rest)).Sends([NAK]))
                      case Good(num, payload, rest) => OnBlock(at, num, payload, old(port.W()).Leaves(rest)),
                      port.W())
    ensures !r.FileDone? && |port.script| <= |old(port.script)|
    ensures r.Again? ==> r.at.AwaitPacket? && r.at.info == at.info
  {
    hide ReadBlock, Purge;
    var size := SizeFor(header);
    var ok, num := ReadBlockInto(port, step, buf, size);
    if !ok {
      port.PurgeInput();
      port.Write([NAK]);
      return Again(at);
    }
    if num == at.expected {
      var len := WriteLength(at.info.size, at.offset, size);
      if len > 0 {
        port.Call(Data(buf[..size], len, at.offset));
      }
      port.Write([ACK]);
      return Again(at.(expected := Inc(at.expected), offset := at.offset + size, retries := 0));
    } else if num == Dec(at.expected) {
      port.Write([ACK]);
      return Again(at);
    } else {
      port.Write([CAN]);
      port.Call(FileEnd(at.info, OutOfSequence));
      return Done(OutOfSequence);
    }
  }

  /** The double-EOT handshake. */
  method TakeEot(port: Port<Call>, step: CrcStep, info: FileInfo)
    modifies port
    ensures Proceed(step, NextFile(port.W()))
         == Run(step, AwaitSecondEot(info), old(port.W()).Sends([NAK]))
    ensures |port.script| <= |old(port.script)|
  {
    hide NextFile;
    port.Write([NAK]);
    var e := port.ReadByte();
    port.Write([ACK]);
    port.Call(FileEnd(info, Ok));
  }

  /** Step 2: the packets of one file. */
  method ReceiveFile(port: Port<Call>, step: CrcStep, info: FileInfo, retries: nat, buf: array<byte>)
    returns (failed: Option<Status>)
    requires buf.Length == 1024
    modifies port, buf
    ensures Run(step, AwaitPacket(info, 1, 0, retries), old(port.W())) ==
      match failed
      case Some(status) => (status, port.W())
      case None => Proceed(step, NextFile(port.W()))
    ensures |port.script| <= |old(port.script)|
  {
    hide ReadBlock, Purge, OnBlock, NextFile, EotStep, HeaderStep;
    var at := AwaitPacket(info, 1, 0, retries);
    while true
      invariant at.AwaitPacket? && at.info == info
      invariant Run(step, AwaitPacket(info, 1, 0, retries), old(port.W())) == Run(step, at, port.W())
      invariant |port.script| <= |old(port.script)|
      decreases |port.script|, Patience(at)
    {
      StepProgress(step, at, port.W());
      var e := port.ReadByte();
      if e == Cancel {
        port.Write([CAN, CAN]);
        port.Call(FileEnd(info, Cancelled));
        return Some(Cancelled);
      } else if !e.Byte? {
        if at.retries + 1 > MAX_RETRIES {
          port.Write([CAN]);
          port.Call(FileEnd(info, TimedOut));
          return Some(TimedOut);
        }
        port.Write([NAK]);
        at := at.(retries := at.retries + 1);
      } else if e.value == EOT {
        TakeEot(port, step, info);
        return None;
      } else if e.value == CAN {
        port.Call(FileEnd(info, Cancelled));
        return Some(Cancelled);
      } else if e.value != SOH && e.value != STX {
        port.PurgeInput();
        port.Write([NAK]);
      } else {
        var turn := TakeBlock(port, step, at, e.value, buf);
        match turn
        case Done(status) => return Some(status);
        case Again(next) => at := next;
      }
    }
  }

  method YmodemReceive(port: Port<Call>, step: CrcStep) returns (status: Status)
    modifies port
    ensures (status, port.W()) == Receive(step, old(port.W()))
  {
    hide NextFile, ParseBlock0, Step;
    var payload := new byte[1024];
    while true
      invariant Receive(step, old(port.W())) == Proceed(step, NextFile(port.W()))
      decreases |port.script|
    {
      var failed, retries := ReceiveHeader(port, step, payload);
      if failed.Some? {
        return failed.value;
      }
      assert payload[..1024][..BLOCK0] == payload[..BLOCK0];
      var info := ParseBlock0(payload[..BLOCK0]);
      if info.name == [] {
        port.Write([ACK]);
        return Ok;
      }
      ghost var before := port.sent;
      port.Write([ACK]);
      port.Write([CRC_REQUEST]);
      assert port.sent == before + [ACK, CRC_REQUEST];
      port.Call(FileStart(info));
      failed := ReceiveFile(port, step, info, retries, payload);
      if failed.Some? {
        return failed.value;
      }
    }
  }
}
