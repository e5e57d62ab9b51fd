/** XMODEM over a lossy line: xmodem_transmit and xmodem_receive run against each other in
    rounds. In a round the transmitter takes the answer it is waiting for (or times out) and
    sends; the packet arrives intact, arrives detectably damaged, or is lost; the receiver takes
    one turn of its loop on what arrived, followed by silence; its reply is delivered or lost.
    The transmitter's mode decides the block size, the receiver's the check. */
module XmodemLink {
  import opened Serial
  import opened Checks
  import opened XmodemFrames
  import opened XmodemReceiver
  import opened XmodemTransmitter
  import opened XmodemTrace

  datatype Fate = Intact | Damaged(noise: seq<byte>) | Lost

  datatype Round = Round(fate: Fate, replied: bool)

  datatype Ends = Ends(tx: TxEnv, rx: Env)

  /** The receiving end: still in its loop, or returned. */
  datatype Ear = Listening(st: RxState) | Closed(status: Status)

  /** `inbox` holds the reply bytes the transmitter has not read yet. */
  datatype Link = Link(tx: TxState, ear: Ear, inbox: seq<byte>, calls: seq<Call>)

  /** Both ends compute the same CRC; every combination of modes is compatible. */
  ghost predicate Compatible(ends: Ends) {
    ends.tx.step == ends.rx.step
  }

  /** The handshake byte that asks for a check. */
  function Request(crcMode: bool): byte {
    if crcMode then CRC_REQUEST else NAK
  }

  /** The check that the receiver's first handshake byte asks for. */
  function CrcMode(ends: Ends): bool {
    ends.rx.cfg.mode != Standard
  }

  function StartByte(ends: Ends): byte {
    Request(CrcMode(ends))
  }

  /** A receiver that looks for a checksum can tell the first block with its CRC from one with a
      matching checksum. */
  ghost predicate FirstTells(ends: Ends) {
    Differs(ends.rx.step, Payload(ends.tx, 0))
  }

  /** The bytes in the first `k` blocks. */
  function Upto(env: TxEnv, k: nat): nat {
    k * BlockSize(env.cfg)
  }

  lemma {:induction false} UptoZero(env: TxEnv, k: nat)
    ensures Upto(env, k) == 0 <==> k == 0
  {
    if k > 0 {
      UptoNext(env, k - 1);
    }
  }

  lemma {:induction false} UptoGrows(env: TxEnv, j: nat, k: nat)
    requires j < k
    ensures Upto(env, j) < Upto(env, k)
    decreases k - j
  {
    UptoNext(env, j);
    if j + 1 < k {
      UptoGrows(env, j + 1, k);
    }
  }

  lemma UptoOrder(env: TxEnv, j: nat, k: nat)
    ensures Upto(env, j) < Upto(env, k) <==> j < k
  {
    hide Upto;
    if j < k {
      UptoGrows(env, j, k);
    } else if k < j {
      UptoGrows(env, k, j);
    }
  }

  lemma UptoNext(env: TxEnv, k: nat)
    ensures Upto(env, k + 1) == Upto(env, k) + BlockSize(env.cfg) && Upto(env, 0) == 0
  {
  }

  /** Noise that a receiver using this check catches: it does not begin like an end or a cancel, and
      no well-formed block starts it. */
  ghost predicate Detectable(step: CrcStep, crcMode: bool, noise: seq<byte>) {
    && noise != [] && noise[0] != EOT && noise[0] != CAN
    && forall block, payload | |payload| == 128 || |payload| == 1024 ::
         !(Frame(step, crcMode, block, payload) <= noise)
  }

  /** What a block becomes when its payload or its check is altered so that they no longer match. */
  function Altered(block: byte, payload: seq<byte>, check: seq<byte>): seq<byte> {
    [if |payload| == 1024 then STX else SOH, block, Not(block)] + payload + check
  }

  lemma FrameParts(step: CrcStep, crcMode: bool, block: byte, payload: seq<byte>)
    ensures Frame(step, crcMode, block, payload)
         == [if |payload| == 1024 then STX else SOH, block, Not(block)] + payload + Trailer(step, crcMode, payload)
  {
    hide Trailer;
  }

  /** Such damage is detectable, and so is a stray byte. */
  lemma DamageDetectable(step: CrcStep, crcMode: bool, block: byte, payload: seq<byte>, check: seq<byte>)
    requires |payload| == 128 || |payload| == 1024
    requires |check| == (if crcMode then 2 else 1) && check != Trailer(step, crcMode, payload)
    ensures Detectable(step, crcMode, Altered(block, payload, check)) && Detectable(step, crcMode, [0])
  {
    hide Frame, Crc16, High, Low, Sum8;
    var noise := Altered(block, payload, check);
    forall b, p | |p| == 128 || |p| == 1024 ensures !(Frame(step, crcMode, b, p) <= noise) {
      FrameParts(step, crcMode, b, p);
      var frame := Frame(step, crcMode, b, p);
      if frame <= noise {
        assert frame[0] == noise[0];
        SameParts([frame[0], b, Not(b)], p, Trailer(step, crcMode, p), [noise[0], block, Not(block)], payload, check);
      }
    }
    forall b, p | |p| == 128 || |p| == 1024 ensures !(Frame(step, crcMode, b, p) <= [0]) {
      FrameParts(step, crcMode, b, p);
    }
  }

  /** Damage that the receiver's present check catches. */
  ghost predicate Plausible(ends: Ends, l: Link, r: Round) {
    r.fate.Damaged? && l.ear.Listening? ==> Detectable(ends.rx.step, l.ear.st.crcMode, r.fate.noise)
  }

  function Arrival(sent: seq<byte>, fate: Fate): seq<Event> {
    if sent == [] then []
    else match fate
      case Intact => Bytes(sent)
      case Damaged(noise) => Bytes(noise)
      case Lost => []
  }

  /** The receiver's turn on an arrival: its new state, its reply and its record. */
  function Hear(env: Env, ear: Ear, calls: seq<Call>, arrival: seq<Event>): (Ear, seq<byte>, seq<Call>) {
    match ear
    case Closed(_) => (ear, [], calls)
    case Listening(st) =>
      match Step(env, st, World(arrival, [], calls))
      case Continue(st', w) => (Listening(st'), w.sent, w.calls)
      case Return(status, w) => (Closed(status), w.sent, w.calls)
  }

  function Answer(inbox: seq<byte>): Event {
    if inbox == [] then Timeout else Byte(inbox[0])
  }

  function Rest(inbox: seq<byte>): seq<byte> {
    if inbox == [] then [] else inbox[1..]
  }

  function Play(ends: Ends, l: Link, r: Round): Link {
    var (tx, w) := TxStep(ends.tx, l.tx, Answer(l.inbox), World([], [], []));
    var (ear, reply, calls) := Hear(ends.rx, l.ear, l.calls, Arrival(w.sent, r.fate));
    Link(tx, ear, Rest(l.inbox) + (if r.replied then reply else []), calls)
  }

  function PlayAll(ends: Ends, l: Link, rounds: seq<Round>): Link {
    if rounds == [] then l
    else Play(ends, PlayAll(ends, l, rounds[..|rounds| - 1]), rounds[|rounds| - 1])
  }

  /** Both ends have been started; the receiver's handshake byte was delivered or lost. */
  function Opened(ends: Ends, delivered: bool): Link {
    Link(TxState(0, AwaitStart(0)), Listening(Start(ends.rx.cfg)),
         if delivered then [StartByte(ends)] else [], [])
  }

  // ----- the receiver's turn on each kind of arrival -----

  lemma HearFrame(env: Env, st: RxState, calls: seq<Call>, block: byte, payload: seq<byte>)
    requires |payload| == 128 || |payload| == 1024
    ensures Step(env, st, World(Bytes(Frame(env.step, st.crcMode, block, payload)), [], calls))
         == OnAccepted(env, st, block, payload, World([], [], calls))
  {
    hide ReadFrame, OnAccepted;
    var header := if |payload| == 1024 then STX else SOH;
    var body := Body(env.step, st.crcMode, block, payload);
    BytesHead(header, body, []);
    FrameReads(env.step, st.crcMode, block, payload, []);
    assert Bytes([header] + body) + [] == Bytes([header] + body);
  }

  /** A block with its CRC at a receiver that wants a checksum. */
  lemma HearCrcFrame(env: Env, st: RxState, calls: seq<Call>, block: byte, payload: seq<byte>)
    requires |payload| == 128 || |payload| == 1024
    requires !st.crcMode && Differs(env.step, payload)
    ensures Step(env, st, World(Bytes(Frame(env.step, true, block, payload)), [], calls))
         == Continue(st.(retries := Inc(st.retries)), World([], [NAK], calls))
  {
    hide ReadFrame, Body, Differs, Crc16, Low;
    var header := if |payload| == 1024 then STX else SOH;
    var body := Body(env.step, true, block, payload);
    BytesHead(header, body, []);
    assert Bytes([header] + body) + [] == Bytes([header] + body) && Bytes(body) + [] == Bytes(body);
    CrcBlockRejected(env.step, block, payload);
    var lo := Low(Crc16(env.step, payload));
    assert Bytes([lo]) == [Byte(lo)];
    assert [] + [NAK] == [NAK];
  }

  lemma ReadFrameOnlyBytes(step: CrcStep, crcMode: bool, len: nat, s: seq<Event>)
    requires OnlyBytes(s)
    ensures var r := ReadFrame(step, crcMode, len, s); OnlyBytes(r.rest) && !r.Aborted?
  {
    hide Fill;
    assert forall t :: OnlyBytes(t) ==> (OnlyBytes(Tail(t)) && Head(t) != Cancel) by {
      forall t | OnlyBytes(t) ensures OnlyBytes(Tail(t)) && Head(t) != Cancel {
        assert t != [] ==> t[0] in t;
      }
    }
    FillOnlyBytes(Tail(Tail(s)), len, []);
  }

  lemma AcceptedIsPrefix(step: CrcStep, crcMode: bool, len: nat, bs: seq<byte>)
    requires bs != [] && (bs[0], len) in {(SOH, 128), (STX, 1024)}
    requires ReadFrame(step, crcMode, len, Bytes(bs[1..])).Accepted?
    ensures var r := ReadFrame(step, crcMode, len, Bytes(bs[1..]));
      |r.payload| == len && Frame(step, crcMode, r.block, r.payload) <= bs
  {
    hide ReadFrame;
    var s := Bytes(bs[1..]);
    var r := ReadFrame(step, crcMode, len, s);
    AcceptedWasThere(step, crcMode, len, s);
    var body := Body(step, crcMode, r.block, r.payload);
    BytesAt(bs[1..]);
    BytesAt(body);
    forall i | 0 <= i < |body| ensures body[i] == bs[1..][i] {
      assert s[i] == Bytes(body)[i];
    }
  }

  lemma NoFrameInNoise(step: CrcStep, crcMode: bool, noise: seq<byte>, len: nat)
    requires Detectable(step, crcMode, noise) && (noise[0], len) in {(SOH, 128), (STX, 1024)}
    ensures var r := ReadFrame(step, crcMode, len, Bytes(noise[1..]));
      r.Rejected? && OnlyBytes(r.rest)
  {
    hide ReadFrame;
    BytesAt(noise[1..]);
    ReadFrameOnlyBytes(step, crcMode, len, Bytes(noise[1..]));
    if ReadFrame(step, crcMode, len, Bytes(noise[1..])).Accepted? {
      AcceptedIsPrefix(step, crcMode, len, noise);
    }
  }

  /** Noise is answered with NAK and stores nothing; the retry counter moves, and only an unknown
      header byte can make the receiver give up. */
  lemma HearNoise(env: Env, st: RxState, calls: seq<Call>, noise: seq<byte>)
    requires Detectable(env.step, st.crcMode, noise)
    ensures Step(env, st, World(Bytes(noise), [], calls))
         == if noise[0] != SOH && noise[0] != STX && Inc(st.retries) > env.cfg.maxRetries
            then Return(Error, World([], [CAN], calls))
            else Continue(st.(retries := Inc(st.retries)), World([], [NAK], calls))
  {
    hide ReadFrame, Purge, Detectable;
    NoiseHeader(env.step, st.crcMode, noise);
    var header, tail := noise[0], noise[1..];
    assert Head(Bytes(noise)) == Byte(header) && Tail(Bytes(noise)) == Bytes(tail);
    assert OnlyBytes(Bytes(tail)) by { BytesAt(tail); }
    if header == SOH || header == STX {
      var len := if header == SOH then 128 else 1024;
      NoFrameInNoise(env.step, st.crcMode, noise, len);
      PurgeOnlyBytes(ReadFrame(env.step, st.crcMode, len, Bytes(tail)).rest);
    } else {
      PurgeOnlyBytes(Bytes(tail));
    }
  }

  lemma NoiseHeader(step: CrcStep, crcMode: bool, noise: seq<byte>)
    requires Detectable(step, crcMode, noise)
    ensures noise != [] && noise[0] != EOT && noise[0] != CAN
  {
  }

  /** EOT ends the reception, CAN cancels it, and silence runs the timeout branch. */
  lemma HearControl(env: Env, st: RxState, calls: seq<Call>, more: seq<byte>)
    ensures Step(env, st, World(Bytes([EOT]), [], calls)) == Return(Ok(st.total), World([], [ACK], calls))
    ensures var r := Step(env, st, World(Bytes([CAN] + more), [], calls));
      r.Return? && r.status == Cancelled && r.w.sent == [] && r.w.calls == calls
    ensures Step(env, st, World([], [], calls)) == OnTimeout(env.cfg, st, World([], [], calls))
  {
    hide OnBlock, OnUnknown, Purge;
    assert Bytes([EOT]) == [Byte(EOT)];
    BytesHead(CAN, more, []);
    assert Bytes([CAN] + more) + [] == Bytes([CAN] + more);
  }

  // ----- safety -----

  /** The receiver holds the first |ds| blocks of the transmitter, each stored once. */
  predicate Faithful(ends: Ends, ds: seq<Call>) {
    forall i :: 0 <= i < |ds| ==> ds[i] == Stored(Num(i + 1), Payload(ends.tx, i))
  }

  /** A receiver uses the check it first asked for or has fallen back from it, as only mode 1K
      does, and asks accordingly until it has stored a block. */
  predicate EarInv(ends: Ends, ear: Ear, calls: seq<Call>) {
    var ds := Deliveries(calls);
    && Faithful(ends, ds)
    && match ear
       case Listening(st) =>
         && st.expected == Num(|ds| + 1)
         && (st.crcMode != CrcMode(ends) ==> ends.rx.cfg.mode == OneK)
         && st.total == Upto(ends.tx, |ds|)
         && (ds == [] ==> st.req == Request(st.crcMode))
       case Closed(status) =>
         status.Ok? ==> status.total == Upto(ends.tx, |ds|)
  }

  /** All blocks have been acknowledged, and no more blocks than the file has. */
  predicate AllSent(env: TxEnv, acked: nat) {
    env.totalLen > 0 ==> acked > 0 && Upto(env, acked - 1) < env.totalLen <= Upto(env, acked)
  }

  predicate OkClosed(ear: Ear) {
    ear.Closed? && ear.status.Ok?
  }

  /** The transmitter sends CRCs and the receiver wants a checksum. */
  predicate Split(l: Link) {
    l.tx.phase.AwaitAck? && l.ear.Listening? && l.tx.phase.crcMode != l.ear.st.crcMode
  }

  /** A byte that a waiting transmitter may find before it has started. */
  predicate Calls(ear: Ear, b: byte) {
    b == CAN || (ear.Listening? && b == ear.st.req)
  }

  /** What the transmitter's waiting point says about the receiver, the blocks delivered and the
      reply on its way: an ACK can only be for the block in flight, and the ends can only disagree
      on the check before the first block has been stored. */
  predicate TxInv(ends: Ends, l: Link, delivered: nat) {
    match l.tx.phase
    case AwaitStart(_) =>
      && delivered == 0 && l.tx.acked == 0 && ACK !in l.inbox && !OkClosed(l.ear)
      && forall b :: b in l.inbox ==> Calls(l.ear, b)
    case AwaitAck(crcMode, _) =>
      && (Split(l) ==> crcMode && delivered == 0)
      && (ends.tx.totalLen > 0 ==> Upto(ends.tx, l.tx.acked) < ends.tx.totalLen)
      && (ACK in l.inbox ==> delivered == l.tx.acked + 1)
      && !OkClosed(l.ear)
    case AwaitEotAck(_) =>
      && delivered == l.tx.acked
      && AllSent(ends.tx, l.tx.acked)
      && (ACK in l.inbox ==> OkClosed(l.ear))
    case Finished(status) =>
      status == Delivered ==>
        && delivered == l.tx.acked
        && AllSent(ends.tx, l.tx.acked)
        && OkClosed(l.ear)
  }

  /** At most one answer is outstanding while the receiver listens; once it has returned, only
      its last words are left. */
  predicate InboxInv(l: Link) {
    && (l.ear.Listening? ==> |l.inbox| <= 1)
    && (ACK in l.inbox ==> |l.inbox| == 1)
  }

  predicate Inv(ends: Ends, l: Link) {
    var delivered := |Deliveries(l.calls)|;
    && EarInv(ends, l.ear, l.calls)
    && (delivered == l.tx.acked || delivered == l.tx.acked + 1)
    && TxInv(ends, l, delivered)
    && InboxInv(l)
  }

  /** What the transmitter puts on the line while it waits at each point. */
  predicate Outgoing(ends: Ends, tx: TxState, sent: seq<byte>) {
    match tx.phase
    case AwaitStart(_) => sent == []
    case AwaitAck(crcMode, _) =>
      sent == Frame(ends.rx.step, crcMode, Num(tx.acked + 1), Payload(ends.tx, tx.acked))
    case AwaitEotAck(_) => sent == [EOT]
    case Finished(_) => sent == [] || sent == [CAN]
  }

  /** The link between the two halves of a round. */
  function AfterTx(ends: Ends, l: Link): Link {
    Link(TxStep(ends.tx, l.tx, Answer(l.inbox), World([], [], [])).0, l.ear, Rest(l.inbox), l.calls)
  }

  function TxOutput(ends: Ends, l: Link): seq<byte> {
    TxStep(ends.tx, l.tx, Answer(l.inbox), World([], [], [])).1.sent
  }

  lemma NextBlockKeepsInv(ends: Ends, l: Link, acked: nat, crcMode: bool)
    requires Compatible(ends) && EarInv(ends, l.ear, l.calls) && InboxInv(l)
    requires |Deliveries(l.calls)| == acked && !OkClosed(l.ear) && ACK !in Rest(l.inbox)
    requires l.ear.Listening? ==> l.ear.st.crcMode == crcMode
    requires acked == 0 || ends.tx.totalLen == 0 || Upto(ends.tx, acked - 1) < ends.tx.totalLen
    ensures var (tx, w) := NextBlock(ends.tx, acked, crcMode, World([], [], []));
      var l' := Link(tx, l.ear, Rest(l.inbox), l.calls);
      Inv(ends, l') && Outgoing(ends, tx, w.sent) && !Split(l')
  {
    hide Deliveries, Faithful, Frame;
    assert Upto(ends.tx, acked) == acked * BlockSize(ends.tx.cfg);
    hide Upto;
    UptoNext(ends.tx, 0);
  }

  /** Whatever answer arrives, the first half of a round keeps the invariant, and the
      acknowledgement it may have consumed was for the block in flight. */
  lemma TxHalf(ends: Ends, l: Link)
    requires Compatible(ends) && Inv(ends, l)
    ensures Inv(ends, AfterTx(ends, l))
    ensures Outgoing(ends, AfterTx(ends, l).tx, TxOutput(ends, l))
    ensures ACK !in Rest(l.inbox) && (Split(AfterTx(ends, l)) ==> Split(l))
  {
    hide Deliveries, Faithful, Frame, NextBlock, Upto;
    var e := Answer(l.inbox);
    assert l.inbox != [] ==> l.inbox[0] in l.inbox;
    assert forall b :: b in Rest(l.inbox) ==> b in l.inbox;
    if l.tx.phase.AwaitStart? && (e == Byte(CRC_REQUEST) || e == Byte(NAK)) {
      NextBlockKeepsInv(ends, l, 0, e == Byte(CRC_REQUEST));
    } else if l.tx.phase.AwaitAck? && e == Byte(ACK) {
      NextBlockKeepsInv(ends, l, l.tx.acked + 1, l.tx.phase.crcMode);
    }
  }

  /** Silence: the receiver asks again, perhaps for the other check, or gives up. */
  lemma QuietKeepsInv(ends: Ends, st: RxState, calls: seq<Call>)
    requires EarInv(ends, Listening(st), calls)
    ensures var (ear, reply, calls') := Hear(ends.rx, Listening(st), calls, []);
      && EarInv(ends, ear, calls') && calls' == calls && !OkClosed(ear)
      && (ear.Listening? ==>
            && |reply| == 1
            && (ear.st.crcMode != st.crcMode ==> st.crcMode && Deliveries(calls) == []))
      && ACK !in reply
      && (Deliveries(calls) == [] ==> forall b :: b in reply ==> Calls(ear, b))
  {
    hide Step, Deliveries, Faithful, Upto;
    UptoZero(ends.tx, |Deliveries(calls)|);
    HearControl(ends.rx, st, calls, []);
  }

  lemma NoiseKeepsInv(ends: Ends, st: RxState, calls: seq<Call>, noise: seq<byte>)
    requires EarInv(ends, Listening(st), calls) && Detectable(ends.rx.step, st.crcMode, noise)
    ensures var (ear, reply, calls') := Hear(ends.rx, Listening(st), calls, Bytes(noise));
      && EarInv(ends, ear, calls') && calls' == calls && !OkClosed(ear)
      && (ear.Listening? ==> |reply| == 1 && ear.st.crcMode == st.crcMode)
      && ACK !in reply
  {
    hide Step, Deliveries, Faithful, Detectable, Upto;
    NoiseHeader(ends.rx.step, st.crcMode, noise);
    HearNoise(ends.rx, st, calls, noise);
  }

  /** Appending a stored block to a record that lacks just that block. */
  lemma StoredKeepsInv(ends: Ends, st: RxState, calls: seq<Call>)
    requires EarInv(ends, Listening(st), calls)
    ensures var k := |Deliveries(calls)|;
      var c := Stored(Num(k + 1), Payload(ends.tx, k));
      var st' := RxState(Inc(st.expected), st.total + BlockSize(ends.tx.cfg), 0, st.crcMode, ACK);
      && |Deliveries(calls + [c])| == k + 1
      && EarInv(ends, Listening(st'), calls + [c])
  {
    hide Deliveries, Num, Payload, Upto;
    UptoNext(ends.tx, |Deliveries(calls)|);
    var k := |Deliveries(calls)|;
    DeliveriesAppend(calls, Stored(Num(k + 1), Payload(ends.tx, k)));
    NumSteps(k + 1);
  }

  /** A call that stores nothing changes nothing that the invariant speaks about. */
  lemma OtherCallKeepsInv(ends: Ends, st: RxState, calls: seq<Call>, c: Call)
    requires EarInv(ends, Listening(st), calls) && !c.Stored?
    ensures Deliveries(calls + [c]) == Deliveries(calls)
    ensures EarInv(ends, Listening(st), calls + [c])
    ensures EarInv(ends, Closed(IoError), calls + [c])
  {
    hide Deliveries, Faithful, Num, Upto;
    DeliveriesAppend(calls, c);
  }

  /** An intact block with the check the receiver wants is stored if it is new and acknowledged
      either way. */
  lemma FrameKeepsInv(ends: Ends, st: RxState, calls: seq<Call>, k: nat)
    requires EarInv(ends, Listening(st), calls)
    requires |Deliveries(calls)| == k || |Deliveries(calls)| == k + 1
    ensures var frame := Frame(ends.rx.step, st.crcMode, Num(k + 1), Payload(ends.tx, k));
      var (ear, reply, calls') := Hear(ends.rx, Listening(st), calls, Bytes(frame));
      && EarInv(ends, ear, calls') && !OkClosed(ear)
      && (if ear.Listening? then |Deliveries(calls')| == k + 1 && reply == [ACK] && ear.st.crcMode == st.crcMode
          else |Deliveries(calls')| == |Deliveries(calls)| && ACK !in reply)
  {
    hide Step, Deliveries, Frame, EarInv, Num, Payload, Upto;
    var block, payload := Num(k + 1), Payload(ends.tx, k);
    ListeningMeans(ends, st, calls);
    HearFrame(ends.rx, st, calls, block, payload);
    NumSteps(k + 1);
    if |Deliveries(calls)| == k {
      StoredKeepsInv(ends, st, calls);
      OtherCallKeepsInv(ends, st, calls, Refused(block, payload));
    } else {
      OtherCallKeepsInv(ends, st, calls, Repeated(block, payload));
    }
  }

  lemma ListeningMeans(ends: Ends, st: RxState, calls: seq<Call>)
    requires EarInv(ends, Listening(st), calls)
    ensures st.expected == Num(|Deliveries(calls)| + 1)
  {
  }

  /** The first block with its CRC at a receiver that wants a checksum stores nothing. */
  lemma SplitKeepsInv(ends: Ends, st: RxState, calls: seq<Call>)
    requires EarInv(ends, Listening(st), calls) && !st.crcMode && FirstTells(ends)
    ensures var frame := Frame(ends.rx.step, true, Num(1), Payload(ends.tx, 0));
      var (ear, reply, calls') := Hear(ends.rx, Listening(st), calls, Bytes(frame));
      && EarInv(ends, ear, calls') && calls' == calls && !OkClosed(ear)
      && (ear.Listening? ==> |reply| == 1 && !ear.st.crcMode)
      && ACK !in reply
  {
    hide Step, Deliveries, Faithful, Frame, Num, Upto, Differs, Payload;
    HearCrcFrame(ends.rx, st, calls, Num(1), Payload(ends.tx, 0));
  }

  /** The end marker closes the receiver with all it has stored, a cancel with nothing claimed. */
  lemma ControlKeepsInv(ends: Ends, st: RxState, calls: seq<Call>)
    requires EarInv(ends, Listening(st), calls)
    ensures var (ear, reply, calls') := Hear(ends.rx, Listening(st), calls, Bytes([EOT]));
      EarInv(ends, ear, calls') && calls' == calls && OkClosed(ear) && reply == [ACK]
    ensures var (ear, reply, calls') := Hear(ends.rx, Listening(st), calls, Bytes([CAN]));
      EarInv(ends, ear, calls') && calls' == calls && ear.Closed? && !OkClosed(ear) && reply == []
  {
    hide Step, Deliveries, Faithful, Upto;
    HearControl(ends.rx, st, calls, []);
    assert [CAN] + [] == [CAN];
  }

  /** What the receiver's turn may do while the transmitter waits at its point. */
  predicate Answered(ends: Ends, l: Link, ear: Ear, reply: seq<byte>, calls: seq<Call>) {
    var before, after := |Deliveries(l.calls)|, |Deliveries(calls)|;
    && EarInv(ends, ear, calls)
    && (ear.Listening? || ACK in reply ==> |reply| == 1)
    && match l.tx.phase
       case AwaitStart(_) =>
         after == before && !OkClosed(ear) && ACK !in reply && forall b :: b in reply ==> Calls(ear, b)
       case AwaitAck(crcMode, _) =>
         && !OkClosed(ear) && (after == before || after == l.tx.acked + 1)
         && (ACK in reply ==> after == l.tx.acked + 1)
         && (ear.Listening? && ear.st.crcMode != crcMode ==> crcMode && after == 0)
       case AwaitEotAck(_) => after == before && (ACK in reply ==> OkClosed(ear))
       case Finished(_) => after == before
  }

  lemma AnsweredKeepsInv(ends: Ends, l: Link, ear: Ear, reply: seq<byte>, calls: seq<Call>, replied: bool)
    requires Inv(ends, l) && l.ear.Listening? && l.inbox == []
    requires Answered(ends, l, ear, reply, calls)
    ensures Inv(ends, Link(l.tx, ear, l.inbox + (if replied then reply else []), calls))
  {
    hide Deliveries, EarInv, AllSent, Upto, Calls;
    assert l.inbox + reply == reply && l.inbox + [] == [];
  }

  /** Every answer of a listening receiver is one the transmitter's waiting point allows. */
  lemma TurnAnswers(ends: Ends, l: Link, sent: seq<byte>, r: Round)
    requires Compatible(ends) && Inv(ends, l) && Plausible(ends, l, r) && l.ear.Listening?
    requires Outgoing(ends, l.tx, sent) && (Split(l) ==> FirstTells(ends))
    ensures var (ear, reply, calls) := Hear(ends.rx, l.ear, l.calls, Arrival(sent, r.fate));
      Answered(ends, l, ear, reply, calls)
  {
    hide Hear, Deliveries, Frame, Detectable, EarInv, AllSent, InboxInv, Upto, Calls, FirstTells;
    var st := l.ear.st;
    if sent == [] || r.fate == Lost {
      QuietKeepsInv(ends, st, l.calls);
    } else if r.fate.Damaged? {
      NoiseKeepsInv(ends, st, l.calls, r.fate.noise);
    } else if Split(l) {
      SplitKeepsInv(ends, st, l.calls);
    } else if l.tx.phase.AwaitAck? {
      FrameKeepsInv(ends, st, l.calls, l.tx.acked);
    } else {
      ControlKeepsInv(ends, st, l.calls);
    }
  }

  /** The second half of a round keeps the invariant. */
  lemma RxHalf(ends: Ends, l: Link, sent: seq<byte>, r: Round)
    requires Compatible(ends) && Inv(ends, l) && Plausible(ends, l, r)
    requires Outgoing(ends, l.tx, sent) && ACK !in l.inbox && (l.ear.Listening? ==> l.inbox == [])
    requires Split(l) ==> FirstTells(ends)
    ensures var (ear, reply, calls) := Hear(ends.rx, l.ear, l.calls, Arrival(sent, r.fate));
      Inv(ends, Link(l.tx, ear, l.inbox + (if r.replied then reply else []), calls))
  {
    hide Inv, Answered, Outgoing, Step, FirstTells, Split;
    var (ear, reply, calls) := Hear(ends.rx, l.ear, l.calls, Arrival(sent, r.fate));
    if l.ear.Closed? {
      assert l.inbox + [] == l.inbox;
    } else {
      TurnAnswers(ends, l, sent, r);
      AnsweredKeepsInv(ends, l, ear, reply, calls, r.replied);
    }
  }

  lemma PlayKeepsInv(ends: Ends, l: Link, r: Round)
    requires Compatible(ends) && Inv(ends, l) && Plausible(ends, l, r)
    requires Split(l) ==> FirstTells(ends)
    ensures Inv(ends, Play(ends, l, r))
  {
    hide TxStep, Hear, EarInv, TxInv, Outgoing, Detectable, FirstTells, Split;
    TxHalf(ends, l);
    RxHalf(ends, AfterTx(ends, l), TxOutput(ends, l), r);
  }

  lemma OpenedInv(ends: Ends, delivered: bool)
    ensures Inv(ends, Opened(ends, delivered))
  {
    hide Upto;
    UptoNext(ends.tx, 0);
  }

  // ----- runs -----

  /** The link after a run from the start. */
  function After(ends: Ends, heard: bool, rounds: seq<Round>): Link {
    PlayAll(ends, Opened(ends, heard), rounds)
  }

  ghost predicate PlausibleRun(ends: Ends, heard: bool, rounds: seq<Round>) {
    forall i :: 0 <= i < |rounds| ==> Plausible(ends, After(ends, heard, rounds[..i]), rounds[i])
  }

  ghost predicate NeverSplit(ends: Ends, heard: bool, rounds: seq<Round>) {
    forall i :: 0 <= i <= |rounds| ==> !Split(After(ends, heard, rounds[..i]))
  }

  lemma PrefixRun(ends: Ends, heard: bool, rounds: seq<Round>)
    requires rounds != []
    ensures var before := rounds[..|rounds| - 1];
      && (PlausibleRun(ends, heard, rounds) <==>
            PlausibleRun(ends, heard, before) && Plausible(ends, After(ends, heard, before), rounds[|rounds| - 1]))
      && (NeverSplit(ends, heard, rounds) <==>
            NeverSplit(ends, heard, before) && !Split(After(ends, heard, rounds)))
  {
    hide PlausibleRun, NeverSplit;
    PrefixPlausible(ends, heard, rounds);
    PrefixNeverSplit(ends, heard, rounds);
  }

  lemma PrefixPlausible(ends: Ends, heard: bool, rounds: seq<Round>)
    requires rounds != []
    ensures var before := rounds[..|rounds| - 1];
      PlausibleRun(ends, heard, rounds) <==>
        PlausibleRun(ends, heard, before) && Plausible(ends, After(ends, heard, before), rounds[|rounds| - 1])
  {
    hide After, Plausible;
    var before := rounds[..|rounds| - 1];
    assert forall i :: 0 <= i <= |before| ==> before[..i] == rounds[..i];
    assert forall i :: 0 <= i < |before| ==> before[i] == rounds[i];
  }

  lemma PrefixNeverSplit(ends: Ends, heard: bool, rounds: seq<Round>)
    requires rounds != []
    ensures var before := rounds[..|rounds| - 1];
      NeverSplit(ends, heard, rounds) <==> NeverSplit(ends, heard, before) && !Split(After(ends, heard, rounds))
  {
    hide After, Split;
    var before := rounds[..|rounds| - 1];
    assert rounds[..|rounds|] == rounds;
    assert forall i :: 0 <= i <= |before| ==> before[..i] == rounds[..i];
  }

  lemma UnfoldAfter(ends: Ends, heard: bool, rounds: seq<Round>)
    requires rounds != []
    ensures After(ends, heard, rounds)
         == Play(ends, After(ends, heard, rounds[..|rounds| - 1]), rounds[|rounds| - 1])
  {
  }

  lemma {:induction false} RunKeepsInv(ends: Ends, heard: bool, rounds: seq<Round>)
    requires Compatible(ends) && PlausibleRun(ends, heard, rounds)
    requires FirstTells(ends) || NeverSplit(ends, heard, rounds)
    ensures Inv(ends, After(ends, heard, rounds))
    decreases |rounds|
  {
    hide Inv, Plausible, Play, PlausibleRun, NeverSplit, Split, FirstTells;
    if rounds == [] {
      OpenedInv(ends, heard);
    } else {
      var before := rounds[..|rounds| - 1];
      PrefixRun(ends, heard, rounds);
      UnfoldAfter(ends, heard, rounds);
      RunKeepsInv(ends, heard, before);
      if NeverSplit(ends, heard, before) {
        LastNotSplit(ends, heard, before);
      }
      PlayKeepsInv(ends, After(ends, heard, before), rounds[|rounds| - 1]);
    }
  }

  lemma LastNotSplit(ends: Ends, heard: bool, rounds: seq<Round>)
    requires NeverSplit(ends, heard, rounds)
    ensures !Split(After(ends, heard, rounds))
  {
    assert rounds[..|rounds|] == rounds;
  }
}
