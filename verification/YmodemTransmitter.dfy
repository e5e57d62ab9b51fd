/** ymodem_transmit (src/ymodem.c:303-429) as a state machine over the points where it waits for
    a reply, its run over a finite event script, and the nested loops that compute it. */
module YmodemTransmitter {
  import opened Serial
  import opened Checks
  import opened Metadata
  import opened XmodemFrames
  import opened YmodemBlock0

  const MAX_RETRIES: nat := 10

  datatype Status = Ok | TimedOut | Cancelled

  /** Waiting for 'C', for the answer to Block 0, for the second 'C', for the answer to a data
      block, for the answers to the two EOTs, or returned. */
  datatype Point =
    | AwaitC(idx: nat, retries: nat)
    | AwaitAck0(idx: nat)
    | AwaitC2(idx: nat)
    | AwaitAck(idx: nat, offset: nat, block: byte, retries: nat)
    | AwaitNak(idx: nat)
    | AwaitLast(idx: nat)
    | Finished(status: Status)

  /** The transmitter's side of the line: unread replies and bytes written. */
  type Wire = World<()>

  type Situation = (Point, Wire)

  /** Block 0 of a file, or the all-zero block that ends the batch. */
  function HeaderBlock(files: seq<File>, idx: nat): (b: seq<byte>)
    ensures |b| == BLOCK0
  {
    if BatchOver(files, idx) then END_OF_BATCH else Block0(files[idx])
  }

  /** 1024 bytes while more than 128 remain, else 128. */
  function BlockSize(remaining: nat): nat {
    if remaining > 128 then 1024 else 128
  }

  /** The block at an offset: file bytes, padded with 0x1A. */
  function BlockAt(content: seq<byte>, offset: nat): (p: seq<byte>)
    requires offset < |content|
    ensures |p| == BlockSize(|content| - offset)
  {
    var size := BlockSize(|content| - offset);
    var n := Min(|content| - offset, size);
    content[offset..offset + n] + Repeat(size - n, PADDING)
  }

  /** The head of the retransmission loop. */
  function SendBlock(step: CrcStep, files: seq<File>, idx: nat, offset: nat, block: byte, retries: nat, w: Wire)
    : (r: Situation)
    requires idx < |files| && offset < |files[idx].content|
    ensures Sensible(files, r.0) && r.1.script == w.script
  {
    if retries < MAX_RETRIES then
      (AwaitAck(idx, offset, block, retries),
       w.Sends(Frame(step, true, block, BlockAt(files[idx].content, offset))))
    else (Finished(TimedOut), w)
  }

  /** The head of the data loop. */
  function NextBlock(step: CrcStep, files: seq<File>, idx: nat, offset: nat, block: byte, w: Wire): (r: Situation)
    requires idx < |files|
    ensures Sensible(files, r.0) && r.1.script == w.script
  {
    if offset < |files[idx].content| then SendBlock(step, files, idx, offset, block, 0, w)
    else (AwaitNak(idx), w.Sends([EOT]))
  }

  /** Points that can occur for these files. */
  predicate Sensible(files: seq<File>, at: Point) {
    match at
    case AwaitC2(idx) => idx < |files|
    case AwaitAck(idx, offset, _, _) => idx < |files| && offset < |files[idx].content|
    case _ => true
  }

  /** The transmitter's reaction to the reply it was waiting for. */
  function Step(step: CrcStep, files: seq<File>, at: Point, e: Event, w: Wire): (r: Situation)
    requires Sensible(files, at)
    ensures Sensible(files, r.0) && r.1.script == w.script
  {
    match at
    case AwaitC(idx, retries) =>
      if e == Byte(CRC_REQUEST) then
        (AwaitAck0(idx), w.Sends(Frame(step, true, 0, HeaderBlock(files, idx))))
      else if e == Byte(CAN) then (Finished(Cancelled), w)
      else if retries + 1 < MAX_RETRIES then (AwaitC(idx, retries + 1), w)
      else (Finished(TimedOut), w)
    case AwaitAck0(idx) =>
      if e != Byte(ACK) then (Finished(TimedOut), w)
      else if BatchOver(files, idx) then (Finished(Ok), w)
      else (AwaitC2(idx), w)
    case AwaitC2(idx) =>
      if e != Byte(CRC_REQUEST) then (Finished(TimedOut), w)
      else NextBlock(step, files, idx, 0, 1, w)
    case AwaitAck(idx, offset, block, retries) =>
      if e == Byte(ACK) then
        var remaining := |files[idx].content| - offset;
        NextBlock(step, files, idx, offset + Min(remaining, BlockSize(remaining)), Inc(block), w)
      else if e == Byte(CAN) then (Finished(Cancelled), w)
      else SendBlock(step, files, idx, offset, block, retries + 1, w)
    case AwaitNak(idx) =>
      if e == Byte(NAK) then (AwaitLast(idx), w.Sends([EOT])) else (AwaitC(idx + 1, 0), w)
    case AwaitLast(idx) => (AwaitC(idx + 1, 0), w)
    case Finished(_) => (at, w)
  }

  /** Reads left in silence. */
  function Patience(at: Point): nat {
    match at
    case AwaitC(_, retries) => if retries > MAX_RETRIES then 1 else MAX_RETRIES + 1 - retries
    case AwaitAck(_, _, _, retries) => if retries > MAX_RETRIES then 1 else MAX_RETRIES + 1 - retries
    case AwaitAck0(_) => 1
    case AwaitC2(_) => 1
    case AwaitNak(_) => 20
    case AwaitLast(_) => 20
    case Finished(_) => 0
  }

  lemma SilenceEnds(step: CrcStep, files: seq<File>, at: Point, w: Wire)
    requires Sensible(files, at) && !at.Finished?
    ensures Patience(Step(step, files, at, Timeout, w).0) < Patience(at)
  {
  }

  /** The transmission from a waiting point to its return. */
  function Run(step: CrcStep, files: seq<File>, at: Point, w: Wire): (Status, Wire)
    requires Sensible(files, at)
    decreases |w.script|, Patience(at)
  {
    if at.Finished? then (at.status, w)
    else
      SilenceEnds(step, files, at, w.Leaves(Tail(w.script)));
      var (at', w') := Step(step, files, at, Head(w.script), w.Leaves(Tail(w.script)));
      Run(step, files, at', w')
  }

  /** ymodem_transmit. */
  function Transmit(step: CrcStep, files: seq<File>, w: Wire): (Status, Wire) {
    Run(step, files, AwaitC(0, 0), w)
  }

  function Settle(step: CrcStep, files: seq<File>, s: Situation): (Status, Wire)
    requires Sensible(files, s.0)
  {
    Run(step, files, s.0, s.1)
  }

  lemma FinishedRun(step: CrcStep, files: seq<File>, status: Status, w: Wire)
    ensures Run(step, files, Finished(status), w) == (status, w)
  {
  }

  // ----- the C loops -----

  method WriteFrame(port: Port<()>, step: CrcStep, block: byte, payload: seq<byte>)
    modifies port`sent
    ensures port.sent == old(port.sent) + Frame(step, true, block, payload)
  {
    port.Write([if |payload| == 1024 then STX else SOH]);
    port.Write([block]);
    port.Write([Not(block)]);
    port.Write(payload);
    var crc := Crc16(step, payload);
    port.Write([High(crc), Low(crc)]);
  }

  /** Waits for 'C', then sends Block 0 and waits for its ACK. */
  method SendHeader(port: Port<()>, step: CrcStep, files: seq<File>, idx: nat) returns (failed: Option<Status>)
    modifies port
    ensures Run(step, files, AwaitC(idx, 0), old(port.W())) ==
      match failed
      case Some(status) => (status, port.W())
      case None => if BatchOver(files, idx) then (Ok, port.W()) else Run(step, files, AwaitC2(idx), port.W())
    ensures |port.script| <= |old(port.script)|
  {
    hide HeaderBlock, Frame, BatchOver, NextBlock, SendBlock;
    var retries, gotC := 0, false;
    while retries < MAX_RETRIES
      invariant !gotC
      invariant Run(step, files, AwaitC(idx, 0), old(port.W())) ==
        if retries < MAX_RETRIES then Run(step, files, AwaitC(idx, retries), port.W())
        else (TimedOut, port.W())
      invariant |port.script| <= |old(port.script)|
    {
      var e := port.ReadByte();
      if e == Byte(CRC_REQUEST) {
        gotC := true;
        break;
      } else if e == Byte(CAN) {
        FinishedRun(step, files, Cancelled, port.W());
        return Some(Cancelled);
      }
      retries := retries + 1;
      FinishedRun(step, files, TimedOut, port.W());
    }
    if !gotC {
      return Some(TimedOut);
    }
    WriteFrame(port, step, 0, HeaderBlock(files, idx));
    var e := port.ReadByte();
    FinishedRun(step, files, TimedOut, port.W());
    FinishedRun(step, files, Ok, port.W());
    if e != Byte(ACK) {
      return Some(TimedOut);
    }
    return None;
  }

  /** Fills the block buffer: padding, then what read_data serves. */
  method FillBlock(content: seq<byte>, offset: nat, buf: array<byte>) returns (size: nat)
    requires offset < |content| && buf.Length == 1024
    modifies buf
    ensures size == BlockSize(|content| - offset) && buf[..size] == BlockAt(content, offset)
  {
    var remaining := |content| - offset;
    size := if remaining > 128 then 1024 else 128;
    forall i | 0 <= i < size {
      buf[i] := PADDING;
    }
    var readBytes := if remaining > size then size else remaining;
    forall i | 0 <= i < readBytes {
      buf[i] := content[offset + i];
    }
  }

  /** Sends one block until it is acknowledged. */
  method SendUntilAcked(port: Port<()>, step: CrcStep, files: seq<File>, idx: nat, offset: nat, block: byte,
                        payload: seq<byte>)
    returns (failed: Option<Status>)
    requires idx < |files| && offset < |files[idx].content| && payload == BlockAt(files[idx].content, offset)
    modifies port
    ensures Settle(step, files, SendBlock(step, files, idx, offset, block, 0, old(port.W()))) ==
      match failed
      case Some(status) => (status, port.W())
      case None =>
        var remaining := |files[idx].content| - offset;
        Settle(step, files,
          NextBlock(step, files, idx, offset + Min(remaining, BlockSize(remaining)), Inc(block), port.W()))
    ensures |port.script| <= |old(port.script)|
  {
    hide NextBlock, Frame, BlockAt;
    var retries := 0;
    while retries < MAX_RETRIES
      invariant Settle(step, files, SendBlock(step, files, idx, offset, block, 0, old(port.W())))
             == Settle(step, files, SendBlock(step, files, idx, offset, block, retries, port.W()))
      invariant |port.script| <= |old(port.script)|
    {
      WriteFrame(port, step, block, payload);
      var e := port.ReadByte();
      if e == Byte(ACK) {
        return None;
      } else if e == Byte(CAN) {
        FinishedRun(step, files, Cancelled, port.W());
        return Some(Cancelled);
      }
      retries := retries + 1;
    }
    return Some(TimedOut);
  }

  /** The EOT handshake; its outcome is not looked at. */
  method EndFile(port: Port<()>, step: CrcStep, files: seq<File>, idx: nat)
    modifies port
    ensures Run(step, files, AwaitNak(idx), old(port.W()).Sends([EOT]))
         == Run(step, files, AwaitC(idx + 1, 0), port.W())
  {
    hide NextBlock, SendBlock;
    port.Write([EOT]);
    var e := port.ReadByte();
    if e == Byte(NAK) {
      port.Write([EOT]);
      assert Run(step, files, AwaitNak(idx), old(port.W()).Sends([EOT]))
          == Run(step, files, AwaitLast(idx), port.W());
      var _ := port.ReadByte();
    }
  }

  /** The contents of one file and the EOT handshake. */
  method SendContents(port: Port<()>, step: CrcStep, files: seq<File>, idx: nat) returns (failed: Option<Status>)
    requires idx < |files|
    modifies port
    ensures Settle(step, files, NextBlock(step, files, idx, 0, 1, old(port.W()))) ==
      match failed
      case Some(status) => (status, port.W())
      case None => Run(step, files, AwaitC(idx + 1, 0), port.W())
  {
    hide SendBlock, BlockAt;
    var content := files[idx].content;
    var offset, block: byte := 0, 1;
    var payload := new byte[1024];
    while offset < |content|
      invariant Settle(step, files, NextBlock(step, files, idx, 0, 1, old(port.W())))
             == Settle(step, files, NextBlock(step, files, idx, offset, block, port.W()))
      decreases |content| - offset
    {
      var size := FillBlock(content, offset, payload);
      failed := SendUntilAcked(port, step, files, idx, offset, block, payload[..size]);
      if failed.Some? {
        return;
      }
      offset := offset + Min(|content| - offset, size);
      block := Inc(block);
    }
    EndFile(port, step, files, idx);
    return None;
  }

  method YmodemTransmit(port: Port<()>, step: CrcStep, files: seq<File>) returns (status: Status)
    modifies port
    ensures (status, port.W()) == Transmit(step, files, old(port.W()))
  {
    hide NextBlock, HeaderBlock;
    var idx := 0;
    while true
      invariant Transmit(step, files, old(port.W())) == Run(step, files, AwaitC(idx, 0), port.W())
      decreases if idx > |files| then 0 else |files| + 1 - idx
    {
      var failed := SendHeader(port, step, files, idx);
      if failed.Some? {
        return failed.value;
      }
      if BatchOver(files, idx) {
        return Ok;
      }
      var e := port.ReadByte();
      FinishedRun(step, files, TimedOut, port.W());
      if e != Byte(CRC_REQUEST) {
        return TimedOut;
      }
      failed := SendContents(port, step, files, idx);
      if failed.Some? {
        return failed.value;
      }
      idx := idx + 1;
    }
  }
}
