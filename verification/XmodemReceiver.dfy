/** xmodem_receive (src/xmodem.c:45-248): the receiving end as a step function, its run over a
    finite event script, and the loop that computes it. */
module XmodemReceiver {
  import opened Serial
  import opened Checks
  import opened XmodemFrames

  datatype Mode = Standard | Crc | OneK

  datatype Config = Config(mode: Mode, maxRetries: byte)

  /** Return codes; on success `total` is what *total_received is set to. */
  datatype Status = Ok(total: nat) | Error | TimedOut | Cancelled | OutOfSequence | IoError

  /** What happens to validated blocks: data_cb took it, data_cb failed on it, or it repeated
      the previous block and was only acknowledged again. */
  datatype Call =
    | Stored(block: byte, payload: seq<byte>)
    | Refused(block: byte, payload: seq<byte>)
    | Repeated(block: byte, payload: seq<byte>)

  /** The surroundings of one transfer: configuration, Zephyr's CRC step, and whether data_cb
      succeeds when `n` callbacks have been recorded. */
  datatype Env = Env(cfg: Config, step: CrcStep, stores: nat -> bool)

  /** The local variables of xmodem_receive. */
  datatype RxState = RxState(expected: byte, total: nat, retries: byte, crcMode: bool, req: byte)

  datatype RxStep = Continue(st: RxState, w: World<Call>) | Return(status: Status, w: World<Call>)

  function Start(cfg: Config): RxState {
    var crcMode := cfg.mode != Standard;
    RxState(1, 0, 0, crcMode, if crcMode then CRC_REQUEST else NAK)
  }

  /** A failed read of the header byte. */
  function OnTimeout(cfg: Config, st: RxState, w: World<Call>): RxStep {
    var retries := Inc(st.retries);
    if retries > cfg.maxRetries then Return(TimedOut, w.Sends([CAN, CAN]))
    else
      var fallback := st.total == 0 && retries > cfg.maxRetries / 2 && st.crcMode && cfg.mode != Crc;
      var st' := if fallback then st.(retries := retries, crcMode := false, req := NAK)
                 else st.(retries := retries);
      Continue(st', w.Sends([if st.total == 0 then st'.req else NAK]))
  }

  /** A header byte that opens nothing. */
  function OnUnknown(cfg: Config, st: RxState, w: World<Call>): RxStep {
    var w' := w.Leaves(Purge(w.script));
    var retries := Inc(st.retries);
    if retries > cfg.maxRetries then Return(Error, w'.Sends([CAN]))
    else Continue(st.(retries := retries), w'.Sends([NAK]))
  }

  /** A block that passed its checks. */
  function OnAccepted(env: Env, st: RxState, block: byte, payload: seq<byte>, w: World<Call>): RxStep {
    if block == st.expected then
      if env.stores(|w.calls|) then
        Continue(st.(expected := Inc(st.expected), total := st.total + |payload|, retries := 0, req := ACK),
                 w.Makes(Stored(block, payload)).Sends([ACK]))
      else
        Return(IoError, w.Makes(Refused(block, payload)).Sends([CAN, CAN]))
    else if block == Dec(st.expected) then
      Continue(st, w.Makes(Repeated(block, payload)).Sends([ACK]))
    else
      Return(OutOfSequence, w.Sends([CAN, CAN]))
  }

  /** A block of `len` payload bytes, its header byte already read. The retry counter is bumped
      unchecked here and wraps at 256. */
  function OnBlock(env: Env, st: RxState, len: nat, w: World<Call>): RxStep {
    match ReadFrame(env.step, st.crcMode, len, w.script)
    case Aborted(rest) => Return(Cancelled, w.Leaves(rest).Sends([CAN, CAN]))
    case Rejected(rest) =>
      Continue(st.(retries := Inc(st.retries)), w.Leaves(Purge(rest)).Sends([NAK]))
    case Accepted(block, payload, rest) => OnAccepted(env, st, block, payload, w.Leaves(rest))
  }

  /** One turn of the reception loop. */
  function Step(env: Env, st: RxState, w: World<Call>): (r: RxStep)
    ensures r.Continue? && w.script != [] ==> |r.w.script| < |w.script|
    ensures r.Continue? && w.script == [] ==>
      r.w.script == [] && r.st.retries == Inc(st.retries) && r.st.retries <= env.cfg.maxRetries
  {
    var w1 := w.Leaves(Tail(w.script));
    match Head(w.script)
    case Cancel => Return(Cancelled, w1.Sends([CAN, CAN]))
    case Timeout => OnTimeout(env.cfg, st, w1)
    case Byte(header) =>
      if header == EOT then Return(Ok(st.total), w1.Sends([ACK]))
      else if header == CAN then Return(Cancelled, w1.Leaves(Tail(w1.script)))
      else if header == SOH then OnBlock(env, st, 128, w1)
      else if header == STX then OnBlock(env, st, 1024, w1)
      else OnUnknown(env.cfg, st, w1)
  }

  /** The loop from a given state on. Unread events bound the turns that read something; in the
      silence after them the retry counter climbs to its limit, wrapping at most once from 255 to
      0, unless the limit is 255, which an 8-bit counter cannot pass. */
  function Run(env: Env, st: RxState, w: World<Call>): Outcome<Status, Call>
    decreases |w.script|, st.retries == 255, env.cfg.maxRetries - st.retries
  {
    if w.script == [] && env.cfg.maxRetries == 255 then Never
    else match Step(env, st, w)
      case Return(status, w') => Returned(status, w')
      case Continue(st', w') => Run(env, st', w')
  }

  /** xmodem_receive: the handshake byte, then the loop. */
  function Receive(env: Env, w: World<Call>): Outcome<Status, Call> {
    Run(env, Start(env.cfg), w.Sends([Start(env.cfg).req]))
  }

  // ----- the C loops -----

  /** How a pass through the loop body ends: around again, or out of the function. */
  datatype Turn = Again(st: RxState) | Done(status: Status) {
    predicate Matches(r: RxStep, w: World<Call>) {
      r == match this
           case Again(st) => Continue(st, w)
           case Done(status) => Return(status, w)
    }
  }

  method ReadTrailerBytes(port: Port<Call>, step: CrcStep, crcMode: bool, block: byte, buf: array<byte>, len: nat)
    returns (ok: bool, aborted: bool)
    requires len <= buf.Length
    modifies port`script
    ensures port.script == ReadTrailer(step, crcMode, block, buf[..len], old(port.script)).rest
    ensures ok == ReadTrailer(step, crcMode, block, buf[..len], old(port.script)).Accepted?
    ensures aborted == ReadTrailer(step, crcMode, block, buf[..len], old(port.script)).Aborted?
  {
    if crcMode {
      var e1 := port.ReadByte();
      var e2 := port.ReadByte();
      if e1 == Cancel || e2 == Cancel {
        return false, true;
      }
      ok := e1.Byte? && e2.Byte? && Join(e1.value, e2.value) == Crc16(step, buf[..len]);
    } else {
      var e := port.ReadByte();
      if e == Cancel {
        return false, true;
      }
      var sum := Checksum8(buf, len);
      ok := e.Byte? && e.value == sum;
    }
    aborted := false;
  }

  /** Reads a block into `buf` after its header byte. */
  method ReadBlock(port: Port<Call>, step: CrcStep, crcMode: bool, buf: array<byte>, len: nat)
    returns (ok: bool, aborted: bool, block: byte)
    requires len <= buf.Length
    modifies port`script, buf
    ensures var r := ReadFrame(step, crcMode, len, old(port.script));
      && port.script == r.rest && ok == r.Accepted? && aborted == r.Aborted?
      && (ok ==> r == Accepted(block, buf[..len], port.script))
  {
    block := 0;
    var e1 := port.ReadByte();
    var e2 := port.ReadByte();
    if e1 == Cancel || e2 == Cancel {
      return false, true, 0;
    }
    if !e1.Byte? || !e2.Byte? || (e1.value + e2.value) % 256 != 0xFF {
      return false, false, 0;
    }
    block := e1.value;
    var filled, why := port.FillBuffer(buf, len);
    if !filled {
      return false, why == Cancel, block;
    }
    ok, aborted := ReadTrailerBytes(port, step, crcMode, block, buf, len);
  }

  /** Step 2a: no header byte in time. */
  method GiveUpOrAskAgain(port: Port<Call>, cfg: Config, st: RxState) returns (r: Turn)
    modifies port`sent
    ensures r.Matches(OnTimeout(cfg, st, old(port.W())), port.W())
  {
    var next := st.(retries := Inc(st.retries));
    if next.retries > cfg.maxRetries {
      port.Write([CAN, CAN]);
      return Done(TimedOut);
    }
    if next.total == 0 && next.retries > cfg.maxRetries / 2 && next.crcMode && cfg.mode != Crc {
      next := next.(crcMode := false, req := NAK);
    }
    port.Write([if next.total == 0 then next.req else NAK]);
    return Again(next);
  }

  /** Step 2d: a byte that is not a header. */
  method SkipUnknown(port: Port<Call>, cfg: Config, st: RxState) returns (r: Turn)
    modifies port`script, port`sent
    ensures r.Matches(OnUnknown(cfg, st, old(port.W())), port.W())
  {
    port.PurgeInput();
    var next := st.(retries := Inc(st.retries));
    if next.retries > cfg.maxRetries {
      port.Write([CAN]);
      return Done(Error);
    }
    port.Write([NAK]);
    return Again(next);
  }

  /** Step 2h: a validated block is new, a repeat, or out of sequence. */
  method Deliver(port: Port<Call>, env: Env, st: RxState, block: byte, payload: seq<byte>) returns (r: Turn)
    modifies port`sent, port`calls
    ensures r.Matches(OnAccepted(env, st, block, payload, old(port.W())), port.W())
  {
    if block == st.expected {
      if !env.stores(|port.calls|) {
        port.Call(Refused(block, payload));
        port.Write([CAN, CAN]);
        return Done(IoError);
      }
      port.Call(Stored(block, payload));
      port.Write([ACK]);
      var total := st.total + |payload|;
      return Again(st.(expected := Inc(st.expected), total := total, retries := 0, req := ACK));
    }
    if block == Dec(st.expected) {
      port.Call(Repeated(block, payload));
      port.Write([ACK]);
      return Again(st);
    }
    port.Write([CAN, CAN]);
    return Done(OutOfSequence);
  }

  /** Steps 2e to 2g: one block of `len` bytes after its header byte. */
  method TakeBlock(port: Port<Call>, env: Env, st: RxState, buf: array<byte>, len: nat) returns (r: Turn)
    requires len <= buf.Length
    modifies port, buf
    ensures r.Matches(OnBlock(env, st, len, old(port.W())), port.W())
  {
    var ok, aborted, block := ReadBlock(port, env.step, st.crcMode, buf, len);
    if aborted {
      port.Write([CAN, CAN]);
      return Done(Cancelled);
    }
    if !ok {
      port.PurgeInput();
      port.Write([NAK]);
      return Again(st.(retries := Inc(st.retries)));
    }
    r := Deliver(port, env, st, block, buf[..len]);
  }

  /** One pass through the body of the reception loop. */
  method LoopBody(port: Port<Call>, env: Env, st: RxState, buf: array<byte>) returns (r: Turn)
    requires buf.Length == 1024
    modifies port, buf
    ensures r.Matches(Step(env, st, old(port.W())), port.W())
  {
    var header := port.ReadByte();
    if header == Cancel {
      port.Write([CAN, CAN]);
      return Done(Cancelled);
    }
    if !header.Byte? {
      r := GiveUpOrAskAgain(port, env.cfg, st);
    } else if header.value == EOT {
      port.Write([ACK]);
      return Done(Ok(st.total));
    } else if header.value == CAN {
      var _ := port.ReadByte();
      return Done(Cancelled);
    } else if header.value == SOH {
      r := TakeBlock(port, env, st, buf, 128);
    } else if header.value == STX {
      r := TakeBlock(port, env, st, buf, 1024);
    } else {
      r := SkipUnknown(port, env.cfg, st);
    }
  }

  /** Called where the C function returns (ReturnsExactlyWhen in XmodemTrace says where that is). */
  method XmodemReceive(port: Port<Call>, env: Env) returns (status: Status)
    requires Receive(env, port.W()).Returned?
    modifies port
    ensures Returned(status, port.W()) == Receive(env, old(port.W()))
  {
    hide Step;
    var st := Start(env.cfg);
    port.Write([st.req]);
    var payload := new byte[1024];
    while true
      invariant Run(env, st, port.W()) == Receive(env, old(port.W()))
      decreases |port.script|, st.retries == 255, env.cfg.maxRetries - st.retries
    {
      var turn := LoopBody(port, env, st, payload);
      match turn
      case Done(result) => return result;
      case Again(next) => st := next;
    }
  }
}
