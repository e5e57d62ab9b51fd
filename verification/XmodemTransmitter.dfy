/** xmodem_transmit (src/xmodem.c:250-370): the sending end as a state machine whose states are
    the points where it waits for an answer, its run over a finite event script, and the nested
    loops that compute it. */
module XmodemTransmitter {
  import opened Serial
  import opened Checks
  import opened XmodemFrames
  import opened XmodemReceiver

  /** One data_cb answer: its return code and the bytes it wrote over the padded buffer. */
  datatype Chunk = Chunk(code: int, data: seq<byte>)

  /** The surroundings of one transfer. `source(k)` is what data_cb answers for the k-th block,
      counted from 0; `totalLen` is 0 when the length is not known in advance. */
  datatype TxEnv = TxEnv(cfg: Config, step: CrcStep, totalLen: nat, source: nat -> Chunk)

  datatype TxStatus = Delivered | GaveUp | PeerCancelled | ReadFailed

  /** Where xmodem_transmit waits: for the start byte, for the answer to a block, for the answer
      to EOT, or no more. */
  datatype Phase =
    | AwaitStart(retries: byte)
    | AwaitAck(crcMode: bool, retries: byte)
    | AwaitEotAck(retries: byte)
    | Finished(status: TxStatus)

  /** `acked` blocks have been acknowledged; bytes_sent is that many whole blocks. */
  datatype TxState = TxState(acked: nat, phase: Phase)

  /** data_cb was asked for a block. */
  datatype Fetch = Fetch(block: byte, size: nat)

  function BlockSize(cfg: Config): nat {
    if cfg.mode == OneK then 1024 else 128
  }

  /** A block's payload: the data over a buffer filled with 0x1A. */
  function Padded(size: nat, data: seq<byte>): (p: seq<byte>)
    ensures |p| == size
  {
    if |data| >= size then data[..size] else data + Repeat(size - |data|, PADDING)
  }

  function Payload(env: TxEnv, k: nat): (p: seq<byte>)
    ensures |p| == BlockSize(env.cfg)
  {
    Padded(BlockSize(env.cfg), env.source(k).data)
  }

  type Situation = (TxState, World<Fetch>)

  /** The head of the retransmission loop. */
  function SendBlock(env: TxEnv, acked: nat, crcMode: bool, retries: byte, w: World<Fetch>): Situation {
    if retries < env.cfg.maxRetries then
      (TxState(acked, AwaitAck(crcMode, retries)),
       w.Sends(Frame(env.step, crcMode, Num(acked + 1), Payload(env, acked))))
    else
      (TxState(acked, Finished(GaveUp)), w.Sends([CAN]))
  }

  /** The head of the EOT loop. */
  function SendEot(env: TxEnv, acked: nat, retries: byte, w: World<Fetch>): Situation {
    if retries < env.cfg.maxRetries then (TxState(acked, AwaitEotAck(retries)), w.Sends([EOT]))
    else (TxState(acked, Finished(GaveUp)), w)
  }

  /** The head of the block loop: fetch and send the next block, or end the transmission. */
  function NextBlock(env: TxEnv, acked: nat, crcMode: bool, w: World<Fetch>): Situation {
    if env.totalLen == 0 || acked * BlockSize(env.cfg) < env.totalLen then
      var w' := w.Makes(Fetch(Num(acked + 1), BlockSize(env.cfg)));
      var code := env.source(acked).code;
      if code < 0 then (TxState(acked, Finished(ReadFailed)), w'.Sends([CAN]))
      else if code == 0 && env.totalLen == 0 && acked > 0 then SendEot(env, acked, 0, w')
      else SendBlock(env, acked, crcMode, 0, w')
    else SendEot(env, acked, 0, w)
  }

  /** The transmitter's reaction to the answer it was waiting for. */
  function TxStep(env: TxEnv, st: TxState, e: Event, w: World<Fetch>): (r: Situation)
    ensures r.1.script == w.script
  {
    match st.phase
    case AwaitStart(retries) =>
      if e == Byte(CRC_REQUEST) then NextBlock(env, st.acked, true, w)
      else if e == Byte(NAK) then NextBlock(env, st.acked, false, w)
      else if e == Byte(CAN) then (st.(phase := Finished(PeerCancelled)), w)
      else if Inc(retries) > env.cfg.maxRetries then (st.(phase := Finished(GaveUp)), w)
      else (st.(phase := AwaitStart(Inc(retries))), w)
    case AwaitAck(crcMode, retries) =>
      if e == Cancel then (st.(phase := Finished(PeerCancelled)), w.Sends([CAN, CAN]))
      else if e == Byte(ACK) then NextBlock(env, st.acked + 1, crcMode, w)
      else if e == Byte(CAN) then (st.(phase := Finished(PeerCancelled)), w)
      else SendBlock(env, st.acked, crcMode, Inc(retries), w)
    case AwaitEotAck(retries) =>
      if e == Byte(ACK) then (st.(phase := Finished(Delivered)), w)
      else SendEot(env, st.acked, Inc(retries), w)
    case Finished(_) => (st, w)
  }

  function Retries(phase: Phase): int {
    if phase.Finished? then 0 else phase.retries
  }

  /** In silence a waiting transmitter only counts its retries. */
  lemma SilenceCounts(env: TxEnv, st: TxState, w: World<Fetch>)
    requires env.cfg.maxRetries < 255 || !st.phase.AwaitStart?
    ensures var p := TxStep(env, st, Timeout, w).0.phase;
      || p.Finished?
      || (&& (p.AwaitStart? ==> st.phase.AwaitStart?)
          && Retries(p) == Inc(Retries(st.phase)) && Retries(p) <= env.cfg.maxRetries && Retries(p) < 255)
  {
  }

  /** The transmission from a waiting point on. The wait for the start byte is the loop that does
      not end in silence when max_retries is 255. */
  function TxRun(env: TxEnv, st: TxState, w: World<Fetch>): Outcome<TxStatus, Fetch>
    decreases |w.script|, !st.phase.Finished?, Retries(st.phase) == 255, env.cfg.maxRetries - Retries(st.phase)
  {
    if st.phase.Finished? then Returned(st.phase.status, w)
    else if w.script == [] && env.cfg.maxRetries == 255 && st.phase.AwaitStart? then Never
    else
      var (st', w') := TxStep(env, st, Head(w.script), w.Leaves(Tail(w.script)));
      if w.script == [] then
        SilenceCounts(env, st, w.Leaves(Tail(w.script)));
        TxRun(env, st', w')
      else TxRun(env, st', w')
  }

  function Settle(env: TxEnv, at: Situation): Outcome<TxStatus, Fetch> {
    TxRun(env, at.0, at.1)
  }

  /** xmodem_transmit. */
  function Transmit(env: TxEnv, w: World<Fetch>): Outcome<TxStatus, Fetch> {
    TxRun(env, TxState(0, AwaitStart(0)), w)
  }

  lemma FinishedRun(env: TxEnv, acked: nat, status: TxStatus, w: World<Fetch>)
    ensures TxRun(env, TxState(acked, Finished(status)), w) == Returned(status, w)
  {
  }

  // ----- termination -----

  /** The transmission after at most `n` answers. */
  function TxTurns(env: TxEnv, st: TxState, w: World<Fetch>, n: nat): Situation
    decreases n
  {
    if n == 0 || st.phase.Finished? then (st, w)
    else
      var (st', w') := TxStep(env, st, Head(w.script), w.Leaves(Tail(w.script)));
      TxTurns(env, st', w', n - 1)
  }

  ghost predicate TransmitReturns(env: TxEnv, w: World<Fetch>) {
    exists n: nat :: TxTurns(env, TxState(0, AwaitStart(0)), w, n).0.phase.Finished?
  }

  /** TxRun says what the turns come to. */
  lemma {:induction false} TxRunIsTurns(env: TxEnv, st: TxState, w: World<Fetch>) returns (n: nat)
    ensures var out := TxRun(env, st, w);
      out.Returned? ==>
        (var at := TxTurns(env, st, w, n); at.0.phase == Finished(out.status) && at.1 == out.w)
    decreases |w.script|, !st.phase.Finished?, Retries(st.phase) == 255, env.cfg.maxRetries - Retries(st.phase)
  {
    hide NextBlock, SendBlock, SendEot;
    n := 0;
    if !st.phase.Finished? && !(w.script == [] && env.cfg.maxRetries == 255 && st.phase.AwaitStart?) {
      var (st', w') := TxStep(env, st, Head(w.script), w.Leaves(Tail(w.script)));
      if w.script == [] {
        SilenceCounts(env, st, w.Leaves(Tail(w.script)));
        assert w' == w.Leaves(Tail(w.script)).(sent := w'.sent, calls := w'.calls);
      }
      var m := TxRunIsTurns(env, st', w');
      n := m + 1;
    }
  }

  lemma {:induction false} TxNeverIsForever(env: TxEnv, st: TxState, w: World<Fetch>, n: nat)
    requires TxRun(env, st, w).Never?
    ensures !TxTurns(env, st, w, n).0.phase.Finished?
    decreases n
  {
    hide NextBlock, SendBlock, SendEot;
    if n > 0 {
      var (st', w') := TxStep(env, st, Head(w.script), w.Leaves(Tail(w.script)));
      TxNeverIsForever(env, st', w', n - 1);
    }
  }

  /** The function Transmit is honest about returning. */
  lemma TransmitReturnsExactlyWhen(env: TxEnv, w: World<Fetch>)
    ensures TransmitReturns(env, w) <==> Transmit(env, w).Returned?
  {
    hide TxStep, TxTurns, TxRun;
    var st := TxState(0, AwaitStart(0));
    if TxRun(env, st, w).Never? {
      forall n: nat ensures !TxTurns(env, st, w, n).0.phase.Finished? {
        TxNeverIsForever(env, st, w, n);
      }
    } else {
      var n := TxRunIsTurns(env, st, w);
    }
  }

  lemma {:induction false} ShortCounterTransmits(env: TxEnv, st: TxState, w: World<Fetch>)
    requires env.cfg.maxRetries <= 254
    ensures TxRun(env, st, w).Returned?
    decreases |w.script|, !st.phase.Finished?, Retries(st.phase) == 255, env.cfg.maxRetries - Retries(st.phase)
  {
    hide TxStep;
    if !st.phase.Finished? {
      var (st', w') := TxStep(env, st, Head(w.script), w.Leaves(Tail(w.script)));
      if w.script == [] {
        SilenceCounts(env, st, w.Leaves(Tail(w.script)));
      }
      ShortCounterTransmits(env, st', w');
    }
  }

  /** xmodem_transmit, too, returns on every finite script followed by silence exactly when
      max_retries is at most 254; the one loop that can go on for ever is the wait for the start
      byte. */
  lemma TransmitReturnsOnEveryScript(env: TxEnv)
    ensures (forall script :: TransmitReturns(env, World(script, [], []))) <==> env.cfg.maxRetries <= 254
  {
    hide TransmitReturns;
    if env.cfg.maxRetries <= 254 {
      forall script ensures TransmitReturns(env, World(script, [], [])) {
        ShortCounterTransmits(env, TxState(0, AwaitStart(0)), World(script, [], []));
        TransmitReturnsExactlyWhen(env, World(script, [], []));
      }
    } else {
      TransmitReturnsExactlyWhen(env, World([], [], []));
      assert !TransmitReturns(env, World([], [], []));
    }
  }

  // ----- the C loops -----

  /** Step 1: wait for 'C' or NAK. */
  method WaitForStart(port: Port<Fetch>, env: TxEnv) returns (crcMode: bool, failed: Option<TxStatus>)
    requires Transmit(env, port.W()).Returned?
    modifies port
    ensures Transmit(env, old(port.W())) ==
      match failed
      case Some(status) => Returned(status, port.W())
      case None => Settle(env, NextBlock(env, 0, crcMode, port.W()))
  {
    hide NextBlock;
    var retries: byte := 0;
    while true
      invariant Transmit(env, old(port.W())) == TxRun(env, TxState(0, AwaitStart(retries)), port.W())
      decreases |port.script|, retries == 255, env.cfg.maxRetries - retries
    {
      var e := port.ReadByte();
      if e == Byte(CRC_REQUEST) {
        return true, None;
      } else if e == Byte(NAK) {
        return false, None;
      } else if e == Byte(CAN) {
        return false, Some(PeerCancelled);
      }
      retries := Inc(retries);
      if retries > env.cfg.maxRetries {
        return false, Some(GaveUp);
      }
    }
  }

  /** Fills the block buffer with padding and lets data_cb write over it. */
  method FetchBlock(port: Port<Fetch>, env: TxEnv, k: nat, buf: array<byte>) returns (code: int)
    requires buf.Length == 1024
    modifies port`calls, buf
    ensures code == env.source(k).code
    ensures buf[..BlockSize(env.cfg)] == Payload(env, k)
    ensures port.calls == old(port.calls) + [Fetch(Num(k + 1), BlockSize(env.cfg))]
  {
    var size, data := BlockSize(env.cfg), env.source(k).data;
    forall i | 0 <= i < size {
      buf[i] := PADDING;
    }
    forall i | 0 <= i < size && i < |data| {
      buf[i] := data[i];
    }
    port.Call(Fetch(Num(k + 1), size));
    code := env.source(k).code;
  }

  method WriteFrame(port: Port<Fetch>, env: TxEnv, crcMode: bool, block: byte, buf: array<byte>, size: nat)
    requires size <= buf.Length
    modifies port`sent
    ensures port.sent == old(port.sent) + Frame(env.step, crcMode, block, buf[..size])
  {
    port.Write([if size == 1024 then STX else SOH]);
    port.Write([block]);
    port.Write([Not(block)]);
    port.Write(buf[..size]);
    if crcMode {
      var crc := Crc16(env.step, buf[..size]);
      port.Write([High(crc), Low(crc)]);
    } else {
      var sum := Checksum8(buf, size);
      port.Write([sum]);
    }
  }

  /** Steps 2: send one fetched block until it is acknowledged or the retries run out. */
  method SendUntilAcked(port: Port<Fetch>, env: TxEnv, acked: nat, crcMode: bool, buf: array<byte>)
    returns (failed: Option<TxStatus>)
    requires buf.Length == 1024 && buf[..BlockSize(env.cfg)] == Payload(env, acked)
    modifies port
    ensures Settle(env, SendBlock(env, acked, crcMode, 0, old(port.W()))) ==
      match failed
      case Some(status) => Returned(status, port.W())
      case None => Settle(env, NextBlock(env, acked + 1, crcMode, port.W()))
    ensures failed.None? ==> |port.script| < |old(port.script)|
  {
    hide NextBlock, Frame;
    var retries: byte := 0;
    while retries < env.cfg.maxRetries
      invariant Settle(env, SendBlock(env, acked, crcMode, 0, old(port.W())))
             == Settle(env, SendBlock(env, acked, crcMode, retries, port.W()))
      invariant |port.script| <= |old(port.script)|
      decreases env.cfg.maxRetries - retries
    {
      WriteFrame(port, env, crcMode, Num(acked + 1), buf, BlockSize(env.cfg));
      var e := port.ReadByte();
      if e == Cancel {
        port.Write([CAN, CAN]);
        FinishedRun(env, acked, PeerCancelled, port.W());
        return Some(PeerCancelled);
      } else if e == Byte(ACK) {
        return None;
      } else if e == Byte(CAN) {
        FinishedRun(env, acked, PeerCancelled, port.W());
        return Some(PeerCancelled);
      }
      retries := Inc(retries);
    }
    port.Write([CAN]);
    return Some(GaveUp);
  }

  /** Step 3: send EOT until it is acknowledged or the retries run out. */
  method EndTransmission(port: Port<Fetch>, env: TxEnv, acked: nat) returns (status: TxStatus)
    modifies port
    ensures Returned(status, port.W()) == Settle(env, SendEot(env, acked, 0, old(port.W())))
  {
    var retries: byte := 0;
    while retries < env.cfg.maxRetries
      invariant Settle(env, SendEot(env, acked, 0, old(port.W())))
             == Settle(env, SendEot(env, acked, retries, port.W()))
      decreases env.cfg.maxRetries - retries
    {
      port.Write([EOT]);
      var e := port.ReadByte();
      if e == Byte(ACK) {
        FinishedRun(env, acked, Delivered, port.W());
        return Delivered;
      }
      retries := Inc(retries);
    }
    return GaveUp;
  }

  /** Called where the C function returns (TransmitReturnsExactlyWhen says where that is). */
  method XmodemTransmit(port: Port<Fetch>, env: TxEnv) returns (status: TxStatus)
    requires Transmit(env, port.W()).Returned?
    modifies port
    ensures Returned(status, port.W()) == Transmit(env, old(port.W()))
  {
    hide TxRun, TxStep;
    var crcMode, failed := WaitForStart(port, env);
    if failed.Some? {
      return failed.value;
    }
    var acked, size := 0, BlockSize(env.cfg);
    var buf := new byte[1024];
    while env.totalLen == 0 || acked * size < env.totalLen
      invariant Transmit(env, old(port.W())) == Settle(env, NextBlock(env, acked, crcMode, port.W()))
      decreases |port.script|
    {
      var code := FetchBlock(port, env, acked, buf);
      if code < 0 {
        port.Write([CAN]);
        FinishedRun(env, acked, ReadFailed, port.W());
        return ReadFailed;
      }
      if code == 0 && env.totalLen == 0 && acked > 0 {
        break;
      }
      failed := SendUntilAcked(port, env, acked, crcMode, buf);
      if failed.Some? {
        return failed.value;
      }
      acked := acked + 1;
    }
    status := EndTransmission(port, env, acked);
  }
}
