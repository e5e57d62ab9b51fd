/** Which check the ends of a lossy XMODEM run use, read off the faults alone. Until its first block
    is stored a receiver in mode 1K falls back from CRCs to checksums on the first turn that brings it
    nothing and has max_retries / 2 or more turns before it (src/xmodem.c:82-96). */
module XmodemCourse {
  import opened Serial
  import opened XmodemFrames
  import opened XmodemReceiver
  import opened XmodemTransmitter
  import opened XmodemTrace
  import opened XmodemLink

  // ----- the faults -----

  /** The transmitter has been sent a handshake byte that arrived. */
  function Asked(heard: bool, rounds: seq<Round>): bool {
    if rounds == [] then heard else Asked(heard, rounds[..|rounds| - 1]) || rounds[|rounds| - 1].replied
  }

  /** The rounds that began with that byte at hand. */
  function Packets(heard: bool, rounds: seq<Round>): (n: nat)
    ensures n <= |rounds|
  {
    if rounds == [] then 0
    else Packets(heard, rounds[..|rounds| - 1]) + if Asked(heard, rounds[..|rounds| - 1]) then 1 else 0
  }

  /** What the transmitter sends in the next round, as long as nothing has been stored: nothing, its
      first block, or the CAN with which it gives up. */
  datatype Packet = Nothing | Block | Stop

  /** `s` rounds of waiting for the start byte exhaust the transmitter's patience. */
  predicate OutOfPatience(env: TxEnv, s: nat) {
    env.cfg.maxRetries < 255 && s > env.cfg.maxRetries
  }

  function Outbound(env: TxEnv, asked: bool, s: nat, p: nat): Packet {
    if !asked || OutOfPatience(env, s) then Nothing
    else if env.source(0).code < 0 then (if p == 0 then Stop else Nothing)
    else if p < env.cfg.maxRetries then Block
    else if p == env.cfg.maxRetries then Stop
    else Nothing
  }

  /** Undecided: no block stored, still asking for a CRC. Kept: a block was stored, or the receiver
      returned, before it could fall back. Fell: it fell back while the transmitter was not sending.
      Parted: it fell back while the transmitter was repeating its first block with a CRC. */
  datatype Course = Undecided | Kept | Fell | Parted

  /** The `n`-th turn of an undecided receiver. */
  function TurnCourse(cfg: Config, packet: Packet, fate: Fate, n: byte): Course {
    if packet == Nothing || fate == Lost then
      if n > cfg.maxRetries then Kept
      else if cfg.mode == OneK && n > cfg.maxRetries / 2 then (if packet == Block then Parted else Fell)
      else Undecided
    else match fate
      case Damaged(noise) =>
        if noise != [] && noise[0] != SOH && noise[0] != STX && n > cfg.maxRetries then Kept else Undecided
      case _ => Kept
  }

  function CourseOf(ends: Ends, heard: bool, rounds: seq<Round>): Course
    decreases |rounds|
  {
    if rounds == [] then Undecided
    else
      var before, r := rounds[..|rounds| - 1], rounds[|rounds| - 1];
      match CourseOf(ends, heard, before)
      case Undecided =>
        var p := Packets(heard, before);
        TurnCourse(ends.rx.cfg, Outbound(ends.tx, Asked(heard, before), |before| - p, p), r.fate, |rounds| % 256)
      case c => c
  }

  lemma CourseNext(ends: Ends, heard: bool, before: seq<Round>, r: Round)
    ensures var p := Packets(heard, before);
      CourseOf(ends, heard, before + [r])
      == if CourseOf(ends, heard, before) == Undecided
         then
           var packet := Outbound(ends.tx, Asked(heard, before), |before| - p, p);
           TurnCourse(ends.rx.cfg, packet, r.fate, (|before| + 1) % 256)
         else CourseOf(ends, heard, before)
  {
    hide TurnCourse, Outbound;
    assert (before + [r])[..|before|] == before;
  }

  // ----- the states they lead to -----

  /** The receiver uses the check of its first handshake byte. */
  predicate Agreed(ends: Ends, ear: Ear) {
    ear.Listening? ==> ear.st.crcMode == CrcMode(ends)
  }

  /** After every round of the run. */
  ghost predicate InAgreement(ends: Ends, heard: bool, rounds: seq<Round>) {
    forall i :: 0 <= i <= |rounds| ==> Agreed(ends, After(ends, heard, rounds[..i]).ear)
  }

  predicate Stopped(phase: Phase) {
    phase.Finished? && phase.status != Delivered
  }

  /** Where the transmitter waits after `s` rounds without and `p` rounds with a handshake byte. */
  predicate Waits(ends: Ends, asked: bool, s: nat, p: nat, phase: Phase) {
    if OutOfPatience(ends.tx, s) then Stopped(phase)
    else if !asked || p == 0 then phase == AwaitStart(s % 256)
    else if ends.tx.source(0).code < 0 || p > ends.tx.cfg.maxRetries then Stopped(phase)
    else phase == AwaitAck(CrcMode(ends), p - 1)
  }

  /** No verdict is on its way, and a transmitter yet to start has its start byte exactly if it has
      been asked. */
  predicate Pending(ends: Ends, asked: bool, s: nat, p: nat, inbox: seq<byte>) {
    && |inbox| <= 1 && ACK !in inbox && CAN !in inbox
    && (p == 0 && !OutOfPatience(ends.tx, s) ==> inbox == if asked then [StartByte(ends)] else [])
  }

  predicate Prelude(ends: Ends, asked: bool, n: nat, p: nat, l: Link)
    requires p <= n
  {
    && l.calls == [] && l.tx.acked == 0
    && l.ear == Listening(RxState(1, 0, n % 256, CrcMode(ends), StartByte(ends)))
    && Waits(ends, asked, n - p, p, l.tx.phase)
    && Pending(ends, asked, n - p, p, l.inbox)
    && (!asked ==> p == 0)
  }

  lemma PreludeSends(ends: Ends, asked: bool, n: nat, p: nat, l: Link)
    requires Compatible(ends) && p <= n && Prelude(ends, asked, n, p, l)
    ensures var m, wire := AfterTx(ends, l), TxOutput(ends, l);
      var p' := if asked then p + 1 else p;
      && m.tx.acked == 0 && m.inbox == []
      && Waits(ends, asked, n + 1 - p', p', m.tx.phase)
      && match Outbound(ends.tx, asked, n - p, p)
         case Nothing => wire == []
         case Stop => wire == [CAN] && Stopped(m.tx.phase)
         case Block => m.tx.phase.AwaitAck? && wire == Frame(ends.rx.step, CrcMode(ends), Num(1), Payload(ends.tx, 0))
  {
    hide Frame, Payload, TxStep;
    var e := Answer(l.inbox);
    assert l.inbox != [] ==> l.inbox[0] in l.inbox;
    if l.tx.phase.AwaitStart? {
      WaitingSends(ends.tx, CrcMode(ends), n - p, e);
    } else if l.tx.phase.AwaitAck? {
      RepeatingSends(ends.tx, CrcMode(ends), p, e);
    } else {
      StoppedSends(ends.tx, l.tx, e);
    }
  }

  lemma WaitingSends(env: TxEnv, crcMode: bool, s: nat, e: Event)
    requires !OutOfPatience(env, s) && (e == Timeout || e == Byte(Request(crcMode)))
    ensures var (tx, w) := TxStep(env, TxState(0, AwaitStart(s % 256)), e, World([], [], []));
      tx.acked == 0 && w.sent ==
        (if e == Timeout then [] else if env.source(0).code < 0 || env.cfg.maxRetries == 0 then [CAN]
         else Frame(env.step, crcMode, Num(1), Payload(env, 0)))
    ensures var (tx, w) := TxStep(env, TxState(0, AwaitStart(s % 256)), e, World([], [], []));
      if e == Timeout then
        (if OutOfPatience(env, s + 1) then Stopped(tx.phase) else tx.phase == AwaitStart((s + 1) % 256))
      else if env.source(0).code < 0 || env.cfg.maxRetries == 0 then Stopped(tx.phase)
      else tx.phase == AwaitAck(crcMode, 0)
  {
    hide NextBlock;
    FirstSends(env, crcMode);
  }

  lemma RepeatingSends(env: TxEnv, crcMode: bool, p: nat, e: Event)
    requires 1 <= p <= env.cfg.maxRetries && e != Byte(ACK) && e != Byte(CAN) && e != Cancel
    ensures var (tx, w) := TxStep(env, TxState(0, AwaitAck(crcMode, p - 1)), e, World([], [], []));
      if p < env.cfg.maxRetries
      then tx == TxState(0, AwaitAck(crcMode, p)) && w.sent == Frame(env.step, crcMode, Num(1), Payload(env, 0))
      else tx == TxState(0, Finished(GaveUp)) && w.sent == [CAN]
  {
    hide Frame, Payload, NextBlock;
    assert forall bs: seq<byte> :: [] + bs == bs;
  }

  lemma StoppedSends(env: TxEnv, tx: TxState, e: Event)
    requires Stopped(tx.phase)
    ensures TxStep(env, tx, e, World([], [], [])) == (tx, World([], [], []))
  {
  }

  /** The transmission begins with the first block, if there is one and it may be sent at all. */
  lemma FirstSends(env: TxEnv, crcMode: bool)
    ensures var (tx, w) := NextBlock(env, 0, crcMode, World([], [], []));
      if env.source(0).code < 0 then tx == TxState(0, Finished(ReadFailed)) && w.sent == [CAN]
      else if env.cfg.maxRetries == 0 then tx == TxState(0, Finished(GaveUp)) && w.sent == [CAN]
      else tx == TxState(0, AwaitAck(crcMode, 0)) && w.sent == Frame(env.step, crcMode, Num(1), Payload(env, 0))
  {
    hide Frame, Payload;
    assert forall bs: seq<byte> :: [] + bs == bs;
  }

  /** A settled receiver has stored a block or returned. */
  predicate Settled(ends: Ends, ear: Ear) {
    ear.Listening? ==> ear.st.crcMode == CrcMode(ends) && ear.st.total > 0
  }

  predicate Fallen(ear: Ear) {
    ear.Listening? ==> !ear.st.crcMode
  }

  /** What may be on the line. */
  predicate Carries(ends: Ends, packet: Packet, wire: seq<byte>) {
    match packet
    case Nothing => wire == []
    case Stop => wire == [CAN]
    case Block => wire == Frame(ends.rx.step, CrcMode(ends), Num(1), Payload(ends.tx, 0))
  }

  lemma FrameArrives(ends: Ends, packet: Packet, wire: seq<byte>, fate: Fate)
    requires Carries(ends, packet, wire)
    ensures Arrival(wire, fate) == if packet == Nothing || fate == Lost then []
                                   else if fate.Damaged? then Bytes(fate.noise) else Bytes(wire)
  {
  }

  /** The receiver's first turn of a kind: silence, noise, the first block, or a cancel. */
  lemma FirstTurn(ends: Ends, st: RxState, noise: seq<byte>)
    requires st == RxState(1, 0, st.retries, CrcMode(ends), StartByte(ends))
    ensures var (ear, reply, calls) := Hear(ends.rx, Listening(st), [], []);
      && calls == []
      && if Inc(st.retries) > ends.rx.cfg.maxRetries then ear.Closed?
         else ear.Listening? && (if ends.rx.cfg.mode == OneK && Inc(st.retries) > ends.rx.cfg.maxRetries / 2
                                 then !ear.st.crcMode && CrcMode(ends)
                                 else ear.st == st.(retries := Inc(st.retries)) && reply == [StartByte(ends)])
    ensures Detectable(ends.rx.step, st.crcMode, noise) ==>
      Hear(ends.rx, Listening(st), [], Bytes(noise))
      == if noise[0] != SOH && noise[0] != STX && Inc(st.retries) > ends.rx.cfg.maxRetries
         then (Closed(Error), [CAN], []) else (Listening(st.(retries := Inc(st.retries))), [NAK], [])
    ensures Settled(ends, Hear(ends.rx, Listening(st), [], Bytes([CAN])).0)
  {
    hide Step, Detectable;
    HearControl(ends.rx, st, [], []);
    assert [CAN] + [] == [CAN];
    if Detectable(ends.rx.step, st.crcMode, noise) {
      NoiseHeader(ends.rx.step, st.crcMode, noise);
      HearNoise(ends.rx, st, [], noise);
    }
  }

  lemma FirstBlock(ends: Ends, st: RxState)
    requires st == RxState(1, 0, st.retries, CrcMode(ends), StartByte(ends))
    ensures var wire := Frame(ends.rx.step, CrcMode(ends), Num(1), Payload(ends.tx, 0));
      Settled(ends, Hear(ends.rx, Listening(st), [], Bytes(wire)).0)
  {
    hide Step, Frame, Payload;
    HearFrame(ends.rx, st, [], Num(1), Payload(ends.tx, 0));
  }

  /** What the receiver's turn comes to. */
  lemma PreludeHears(ends: Ends, n: nat, packet: Packet, wire: seq<byte>, fate: Fate)
    requires Carries(ends, packet, wire)
    requires fate.Damaged? ==> Detectable(ends.rx.step, CrcMode(ends), fate.noise)
    ensures var st := RxState(1, 0, n % 256, CrcMode(ends), StartByte(ends));
      var (ear, reply, calls) := Hear(ends.rx, Listening(st), [], Arrival(wire, fate));
      match TurnCourse(ends.rx.cfg, packet, fate, (n + 1) % 256)
      case Undecided =>
        && ear == Listening(st.(retries := (n + 1) % 256)) && calls == []
        && reply == [if packet == Nothing || fate == Lost then StartByte(ends) else NAK]
      case Kept => Settled(ends, ear)
      case Fell => ear.Listening? && !ear.st.crcMode && CrcMode(ends)
      case Parted => ear.Listening? && !ear.st.crcMode && CrcMode(ends)
  {
    hide Frame, Hear, Payload, Detectable, Arrival;
    var st := RxState(1, 0, n % 256, CrcMode(ends), StartByte(ends));
    FrameArrives(ends, packet, wire, fate);
    FirstTurn(ends, st, if fate.Damaged? then fate.noise else []);
    FirstBlock(ends, st);
    if fate.Damaged? {
      NoiseHeader(ends.rx.step, CrcMode(ends), fate.noise);
    }
  }

  /** One round of an undecided run. */
  lemma PreludePlays(ends: Ends, asked: bool, n: nat, p: nat, l: Link, r: Round)
    requires Compatible(ends) && p <= n && Prelude(ends, asked, n, p, l) && Plausible(ends, l, r)
    ensures var l' := Play(ends, l, r);
      match TurnCourse(ends.rx.cfg, Outbound(ends.tx, asked, n - p, p), r.fate, (n + 1) % 256)
      case Undecided => Prelude(ends, asked || r.replied, n + 1, if asked then p + 1 else p, l')
      case Kept => Settled(ends, l'.ear)
      case Fell => Fallen(l'.ear) && !Agreed(ends, l'.ear) && !Split(l')
      case Parted => !Agreed(ends, l'.ear) && Split(l')
  {
    hide Frame, Payload, Hear, TxStep, Detectable, Waits, OutOfPatience;
    PreludeSends(ends, asked, n, p, l);
    var wire := TxOutput(ends, l);
    PreludeHears(ends, n, Outbound(ends.tx, asked, n - p, p), wire, r.fate);
    FellWaits(ends, asked, n, p, AfterTx(ends, l).tx.phase);
    var p' := if asked then p + 1 else p;
    WaitsOn(ends, asked, r.replied, n + 1 - p', p', AfterTx(ends, l).tx.phase);
    assert forall bs: seq<byte> :: [] + bs == bs;
  }

  /** Nothing is sent by a transmitter that has not started or has stopped; a block is sent by one
      that waits for its answer. */
  lemma FellWaits(ends: Ends, asked: bool, n: nat, p: nat, phase: Phase)
    requires p <= n && (!asked ==> p == 0)
    requires Waits(ends, asked, n + 1 - (if asked then p + 1 else p), if asked then p + 1 else p, phase)
    ensures Outbound(ends.tx, asked, n - p, p) != Block ==> phase.AwaitStart? || Stopped(phase)
    ensures Outbound(ends.tx, asked, n - p, p) == Block ==> phase == AwaitAck(CrcMode(ends), p)
  {
  }

  /** An arriving handshake byte changes the waiting point only in the next round. */
  lemma WaitsOn(ends: Ends, asked: bool, replied: bool, s: nat, p: nat, phase: Phase)
    requires Waits(ends, asked, s, p, phase) && (asked ==> p > 0) && (!asked ==> p == 0)
    ensures Waits(ends, asked || replied, s, p, phase)
  {
  }

  // ----- what does not change any more -----

  lemma StepKeepsSettled(env: Env, st: RxState, w: World<Call>)
    ensures var r := Step(env, st, w);
      r.Continue? ==>
        && (st.total > 0 ==> r.st.total > 0 && r.st.crcMode == st.crcMode)
        && (!st.crcMode ==> !r.st.crcMode)
  {
    hide ReadFrame, Purge;
  }

  lemma HearKeepsSettled(ends: Ends, ear: Ear, calls: seq<Call>, arrival: seq<Event>)
    ensures var ear' := Hear(ends.rx, ear, calls, arrival).0;
      && (Settled(ends, ear) ==> Settled(ends, ear'))
      && (Fallen(ear) ==> Fallen(ear'))
  {
    hide Step;
    if ear.Listening? {
      StepKeepsSettled(ends.rx, ear.st, World(arrival, [], calls));
    }
  }

  /** The ends of a settled run cannot come to disagree, nor those of a fallen one. */
  lemma StaysUnsplit(ends: Ends, l: Link, r: Round)
    requires Compatible(ends) && Inv(ends, l) && Plausible(ends, l, r) && !Split(l)
    ensures var l' := Play(ends, l, r);
      && (Settled(ends, l.ear) ==> Settled(ends, l'.ear) && !Split(l'))
      && (Fallen(l.ear) ==> Fallen(l'.ear) && !Split(l'))
  {
    hide TxStep, Hear, Inv, Outgoing, Detectable;
    PlayKeepsInv(ends, l, r);
    TxHalf(ends, l);
    HearKeepsSettled(ends, l.ear, l.calls, Arrival(TxOutput(ends, l), r.fate));
    if Settled(ends, l.ear) {
      SettledUnsplit(ends, Play(ends, l, r));
    }
  }

  lemma SettledUnsplit(ends: Ends, l: Link)
    requires Inv(ends, l) && Settled(ends, l.ear)
    ensures !Split(l)
  {
    hide Faithful, Upto;
    UptoZero(ends.tx, |Deliveries(l.calls)|);
  }

  lemma SettledAgrees(ends: Ends, ear: Ear)
    requires Settled(ends, ear)
    ensures Agreed(ends, ear)
  {
  }

  // ----- the course decides -----

  ghost predicate CourseMeans(ends: Ends, heard: bool, rounds: seq<Round>) {
    var l := After(ends, heard, rounds);
    match CourseOf(ends, heard, rounds)
    case Undecided => Prelude(ends, Asked(heard, rounds), |rounds|, Packets(heard, rounds), l)
    case Kept => Settled(ends, l.ear)
    case Fell => Fallen(l.ear)
    case Parted => true
  }

  lemma PreludeAgrees(ends: Ends, asked: bool, n: nat, p: nat, l: Link)
    requires p <= n && Prelude(ends, asked, n, p, l)
    ensures Agreed(ends, l.ear) && !Split(l)
  {
  }

  lemma AgreementPrefix(ends: Ends, heard: bool, rounds: seq<Round>)
    requires rounds != []
    ensures InAgreement(ends, heard, rounds)
       <==> InAgreement(ends, heard, rounds[..|rounds| - 1]) && Agreed(ends, After(ends, heard, rounds).ear)
  {
    hide After, Agreed;
    var before := rounds[..|rounds| - 1];
    assert rounds[..|rounds|] == rounds;
    assert forall i :: 0 <= i <= |before| ==> before[..i] == rounds[..i];
  }

  lemma {:induction false} CourseDecides(ends: Ends, heard: bool, rounds: seq<Round>)
    requires Compatible(ends) && PlausibleRun(ends, heard, rounds)
    ensures CourseMeans(ends, heard, rounds)
    ensures NeverSplit(ends, heard, rounds) <==> CourseOf(ends, heard, rounds) != Parted
    ensures InAgreement(ends, heard, rounds) <==> CourseOf(ends, heard, rounds) in {Undecided, Kept}
    decreases |rounds|
  {
    hide PlausibleRun, NeverSplit, InAgreement, Plausible, Split, Agreed, Play, TurnCourse, Outbound, Prelude, Settled,
      Fallen, Inv;
    if rounds == [] {
      CourseStarts(ends, heard);
    } else {
      var before, r := rounds[..|rounds| - 1], rounds[|rounds| - 1];
      var l, p := After(ends, heard, before), Packets(heard, before);
      PrefixRun(ends, heard, rounds);
      AgreementPrefix(ends, heard, rounds);
      UnfoldAfter(ends, heard, rounds);
      CourseDecides(ends, heard, before);
      match CourseOf(ends, heard, before)
      case Undecided =>
        PreludePlays(ends, Asked(heard, before), |before|, p, l, r);
        CourseTurns(ends, heard, rounds);
      case Kept => LaterRound(ends, heard, before, r);
      case Fell => LaterRound(ends, heard, before, r);
      case Parted =>
    }
  }

  lemma CourseStarts(ends: Ends, heard: bool)
    ensures CourseMeans(ends, heard, []) && NeverSplit(ends, heard, []) && InAgreement(ends, heard, [])
  {
    var none: seq<Round> := [];
    assert none[..0] == none;
  }

  /** From the round's outcome to the run's. */
  lemma CourseTurns(ends: Ends, heard: bool, rounds: seq<Round>)
    requires Compatible(ends) && rounds != []
    requires var before := rounds[..|rounds| - 1];
      && CourseOf(ends, heard, before) == Undecided
      && PlausibleRun(ends, heard, before) && NeverSplit(ends, heard, before)
      && Plausible(ends, After(ends, heard, before), rounds[|rounds| - 1])
    requires var before, r, l' := rounds[..|rounds| - 1], rounds[|rounds| - 1], After(ends, heard, rounds);
      var asked, p := Asked(heard, before), Packets(heard, before);
      match TurnCourse(ends.rx.cfg, Outbound(ends.tx, asked, |before| - p, p), r.fate, |rounds| % 256)
      case Undecided => Prelude(ends, asked || r.replied, |rounds|, if asked then p + 1 else p, l')
      case Kept => Settled(ends, l'.ear)
      case Fell => Fallen(l'.ear) && !Agreed(ends, l'.ear) && !Split(l')
      case Parted => !Agreed(ends, l'.ear) && Split(l')
    ensures CourseMeans(ends, heard, rounds)
    ensures var c, l' := CourseOf(ends, heard, rounds), After(ends, heard, rounds);
      && (!Split(l') <==> c != Parted)
      && (Agreed(ends, l'.ear) <==> c in {Undecided, Kept})
  {
    hide PlausibleRun, NeverSplit, Plausible, Split, Agreed, Play, TurnCourse, Outbound, Prelude, Settled, Fallen, Inv,
      After;
    var before, l' := rounds[..|rounds| - 1], After(ends, heard, rounds);
    match CourseOf(ends, heard, rounds)
    case Undecided => PreludeAgrees(ends, Asked(heard, rounds), |rounds|, Packets(heard, rounds), l');
    case Kept =>
      RunKeepsInv(ends, heard, before);
      LastNotSplit(ends, heard, before);
      PlayKeepsInv(ends, After(ends, heard, before), rounds[|rounds| - 1]);
      UnfoldAfter(ends, heard, rounds);
      SettledUnsplit(ends, l');
      SettledAgrees(ends, l'.ear);
    case Fell =>
    case Parted =>
  }

  lemma LaterRound(ends: Ends, heard: bool, before: seq<Round>, r: Round)
    requires Compatible(ends) && PlausibleRun(ends, heard, before) && NeverSplit(ends, heard, before)
    requires Plausible(ends, After(ends, heard, before), r)
    ensures var l, l' := After(ends, heard, before), Play(ends, After(ends, heard, before), r);
      && (Settled(ends, l.ear) ==> Settled(ends, l'.ear) && Agreed(ends, l'.ear) && !Split(l'))
      && (Fallen(l.ear) ==> Fallen(l'.ear) && !Split(l'))
  {
    hide PlausibleRun, NeverSplit, Plausible, Split, Agreed, Play, Settled, Fallen, Inv, After;
    RunKeepsInv(ends, heard, before);
    LastNotSplit(ends, heard, before);
    StaysUnsplit(ends, After(ends, heard, before), r);
    if Settled(ends, Play(ends, After(ends, heard, before), r).ear) {
      SettledAgrees(ends, Play(ends, After(ends, heard, before), r).ear);
    }
  }

  /** Modes CRC and STANDARD never change the check, whatever the line does. */
  lemma {:induction false} NeverFallsBack(ends: Ends, heard: bool, rounds: seq<Round>)
    requires ends.rx.cfg.mode != OneK
    ensures CourseOf(ends, heard, rounds) in {Undecided, Kept}
  {
    if rounds != [] {
      NeverFallsBack(ends, heard, rounds[..|rounds| - 1]);
    }
  }
}
