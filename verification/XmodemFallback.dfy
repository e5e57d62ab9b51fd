/** Mode 1K, the default: what the receiver's fallback to checksums (src/xmodem.c:89-93) costs. A
    receiver that falls back while the transmitter repeats its first block with a CRC never stores a
    block, however good the line becomes. This and the loss of the final ACK are the only ways in which
    a transfer within its retry limits fails. */
module XmodemFallback {
  import opened Serial
  import opened Checks
  import opened XmodemFrames
  import opened XmodemReceiver
  import opened XmodemTransmitter
  import opened XmodemTrace
  import opened XmodemLink
  import opened XmodemCourse
  import opened XmodemDelivery
  import opened XmodemFinalAck
  import opened XmodemScripts
  import opened XmodemRuns

  // ----- nothing is stored any more -----

  /** The transmitter repeats its first block with a CRC or has stopped, the receiver wants a
      checksum or has stopped, and nothing on the way back acknowledges anything. */
  predicate Stuck(l: Link) {
    && ACK !in l.inbox
    && (if l.tx.phase.AwaitAck? then l.tx.phase.crcMode && l.tx.acked == 0 else Stopped(l.tx.phase))
    && (if l.ear.Listening? then Wants(l.ear.st) else !l.ear.status.Ok?)
  }

  predicate Wants(st: RxState) {
    !st.crcMode && st.req != ACK
  }

  /** What a stuck transmitter may send. */
  predicate Futile(ends: Ends, wire: seq<byte>) {
    wire == [] || wire == [CAN] || wire == Frame(ends.rx.step, true, Num(1), Payload(ends.tx, 0))
  }

  lemma StuckSends(ends: Ends, l: Link)
    requires Compatible(ends) && Stuck(l)
    ensures Futile(ends, TxOutput(ends, l)) && Stuck(AfterTx(ends, l))
  {
    hide Frame, Payload, NextBlock;
    assert l.inbox != [] ==> l.inbox[0] in l.inbox;
    assert forall bs: seq<byte> :: [] + bs == bs;
  }

  lemma StuckHears(ends: Ends, st: RxState, calls: seq<Call>, wire: seq<byte>, fate: Fate)
    requires Wants(st) && Futile(ends, wire) && FirstTells(ends)
    requires fate.Damaged? ==> Detectable(ends.rx.step, false, fate.noise)
    ensures var (ear, reply, calls') := Hear(ends.rx, Listening(st), calls, Arrival(wire, fate));
      && calls' == calls && ACK !in reply
      && (if ear.Listening? then Wants(ear.st) else !ear.status.Ok?)
  {
    hide Step, Frame, Differs, Payload, Detectable;
    HearControl(ends.rx, st, calls, []);
    if fate.Damaged? {
      NoiseHeader(ends.rx.step, false, fate.noise);
      HearNoise(ends.rx, st, calls, fate.noise);
    }
    HearCrcFrame(ends.rx, st, calls, Num(1), Payload(ends.tx, 0));
    assert [CAN] + [] == [CAN];
  }

  lemma StuckPlays(ends: Ends, l: Link, r: Round)
    requires Compatible(ends) && Stuck(l) && FirstTells(ends) && Plausible(ends, l, r)
    ensures Stuck(Play(ends, l, r)) && Play(ends, l, r).calls == l.calls
  {
    hide TxStep, Futile, Step, FirstTells, Detectable, Arrival;
    StuckSends(ends, l);
    if l.ear.Listening? {
      StuckHears(ends, l.ear.st, l.calls, TxOutput(ends, l), r.fate);
    }
  }

  /** Ends that have just parted. */
  lemma SplitIsStuck(ends: Ends, l: Link)
    requires Inv(ends, l) && Split(l)
    ensures Stuck(l) && Deliveries(l.calls) == []
  {
    hide Faithful, Upto, Deliveries;
    assert |Deliveries(l.calls)| == 0;
  }

  /** Once the ends have parted nothing is ever stored and neither of them reports success, whatever
      the rounds bring. */
  lemma {:induction false} FallbackStalls(ends: Ends, heard: bool, rounds: seq<Round>)
    requires Compatible(ends) && PlausibleRun(ends, heard, rounds) && FirstTells(ends)
    requires CourseOf(ends, heard, rounds) == Parted
    ensures var l := After(ends, heard, rounds);
      && Stuck(l) && Deliveries(l.calls) == []
      && l.tx.phase != Finished(Delivered) && !OkClosed(l.ear)
    decreases |rounds|
  {
    hide After, PlausibleRun, Plausible, Play, Stuck, Deliveries, FirstTells, TurnCourse, NeverSplit, Inv, Split;
    var before, l := rounds[..|rounds| - 1], After(ends, heard, rounds);
    PrefixRun(ends, heard, rounds);
    UnfoldAfter(ends, heard, rounds);
    if CourseOf(ends, heard, before) == Parted {
      FallbackStalls(ends, heard, before);
      StuckPlays(ends, After(ends, heard, before), rounds[|rounds| - 1]);
    } else {
      CourseDecides(ends, heard, before);
      CourseDecides(ends, heard, rounds);
      RunKeepsInv(ends, heard, rounds);
      SplitIsStuck(ends, l);
    }
    StuckFails(l);
  }

  lemma StuckFails(l: Link)
    requires Stuck(l)
    ensures l.tx.phase != Finished(Delivered) && !OkClosed(l.ear)
  {
  }

  /** Exactly when a transfer within its retry limits, with enough good rounds, ends in XMODEM_OK:
      when its faults do not part the ends before the first block (in modes CRC and STANDARD they
      never do, in mode 1K when no block is lost on a turn after max_retries / 2 or more others) and
      do not take the reply to an EOT that arrives. */
  lemma CompletesExactlyWhen(ends: Ends, heard: bool, rounds: seq<Round>, f: nat, n: nat)
    requires Covered(ends, n, f) && Fair(ends, heard, rounds, f) && Tellable(ends, heard, rounds)
    requires Goods(rounds) >= n + if heard then 2 else 3
    ensures After(ends, heard, rounds).tx.phase == Finished(Delivered)
       <==> CourseOf(ends, heard, rounds) != Parted && FinalAckHeard(ends, heard, rounds)
  {
    hide After, PlausibleRun, FirstTells, CourseOf, Stuck, Goods, Streak, FinalAckArrives, Tellable;
    FairIsPlausible(ends, heard, rounds, f);
    if CourseOf(ends, heard, rounds) == Parted {
      PartedTells(ends, heard, rounds);
      FallbackStalls(ends, heard, rounds);
    } else if i: nat :| i < |rounds| && !FinalAckArrives(ends, After(ends, heard, rounds[..i]), rounds[i]) {
      LostFinalAck(ends, heard, rounds, i);
    } else {
      TransferCompletes(ends, heard, rounds, f, n);
    }
  }

  lemma PartedTells(ends: Ends, heard: bool, rounds: seq<Round>)
    requires Tellable(ends, heard, rounds) && CourseOf(ends, heard, rounds) == Parted
    ensures FirstTells(ends)
  {
  }

  // ----- blocks lost at the start -----

  function LostRounds(j: nat): seq<Round> {
    if j == 0 then [] else LostRounds(j - 1) + [Round(Lost, false)]
  }

  lemma {:induction false} LostShape(j: nat)
    ensures |LostRounds(j)| == j
    ensures forall i :: 0 <= i < j ==> LostRounds(j)[i] == Round(Lost, false)
  {
    if j > 0 {
      LostShape(j - 1);
    }
  }

  lemma {:induction false} LostPrefix(j: nat, i: nat)
    requires i <= j
    ensures |LostRounds(j)| == j && LostRounds(j)[..i] == LostRounds(i)
    decreases j
  {
    LostShape(j);
    if i < j {
      LostPrefix(j - 1, i);
      assert LostRounds(j)[..i] == LostRounds(j - 1)[..i];
    }
  }

  lemma OneMoreLost(j: nat)
    requires j > 0
    ensures LostRounds(j) == LostRounds(j - 1) + [Round(Lost, false)]
  {
  }

  lemma {:induction false} LostCounts(j: nat)
    ensures Streak(true, LostRounds(j)) == j && Goods(LostRounds(j)) == 0
    ensures Asked(true, LostRounds(j)) && Packets(true, LostRounds(j)) == j
  {
    if j > 0 {
      hide Streak, Goods, Asked, Packets, LostRounds;
      LostCounts(j - 1);
      OneMore(LostRounds(j - 1));
      OneMoreLost(j);
    }
  }

  lemma OneMore(before: seq<Round>)
    ensures var rounds := before + [Round(Lost, false)];
      && Streak(true, rounds) == Streak(true, before) + 1 && Goods(rounds) == Goods(before)
      && Asked(true, rounds) == Asked(true, before)
      && Packets(true, rounds) == Packets(true, before) + if Asked(true, before) then 1 else 0
  {
    assert (before + [Round(Lost, false)])[..|before|] == before;
  }

  /** The turn on the j-th loss of the first block. */
  lemma LossTurn(cfg: Config, j: nat)
    requires cfg.mode == OneK && cfg.maxRetries > 0 && 0 < j <= 255 && j - 1 <= cfg.maxRetries / 2
    ensures TurnCourse(cfg, Block, Lost, j % 256) == if j <= cfg.maxRetries / 2 then Undecided else Parted
  {
    assert j % 256 == j;
  }

  lemma NextLoss(ends: Ends, j: nat)
    requires 0 < j <= ends.tx.cfg.maxRetries && ends.tx.source(0).code >= 0
    ensures CourseOf(ends, true, LostRounds(j))
         == if CourseOf(ends, true, LostRounds(j - 1)) == Undecided
            then TurnCourse(ends.rx.cfg, Block, Lost, j % 256) else CourseOf(ends, true, LostRounds(j - 1))
  {
    hide CourseOf, TurnCourse, Asked, Packets, Streak, Goods;
    var before := LostRounds(j - 1);
    LostShape(j - 1);
    LostCounts(j - 1);
    CourseNext(ends, true, before, Round(Lost, false));
    assert LostRounds(j) == before + [Round(Lost, false)];
    assert Outbound(ends.tx, true, 0, j - 1) == Block;
  }

  /** A receiver in mode 1K stays undecided for max_retries / 2 losses of the first block and parts
      with the transmitter on the next. */
  lemma {:induction false} LostCourse(ends: Ends, j: nat)
    requires ends.rx.cfg.mode == OneK && ends.rx.cfg.maxRetries > 0
    requires ends.tx.source(0).code >= 0 && j <= ends.tx.cfg.maxRetries
    ensures CourseOf(ends, true, LostRounds(j)) == if j <= ends.rx.cfg.maxRetries / 2 then Undecided else Parted
    decreases j
  {
    if j > 0 {
      hide CourseOf, TurnCourse, LostRounds;
      LostCourse(ends, j - 1);
      NextLoss(ends, j);
      if j - 1 <= ends.rx.cfg.maxRetries / 2 {
        LossTurn(ends.rx.cfg, j);
      }
    }
  }

  lemma {:induction false} CourseExtends(ends: Ends, heard: bool, a: seq<Round>, b: seq<Round>)
    requires CourseOf(ends, heard, a) != Undecided
    ensures CourseOf(ends, heard, a + b) == CourseOf(ends, heard, a)
    decreases |b|
  {
    if b == [] {
      assert a + b == a;
    } else {
      CourseExtends(ends, heard, a, b[..|b| - 1]);
      assert (a + b)[..|a + b| - 1] == a + b[..|b| - 1];
    }
  }

  lemma {:induction false} MixedStreak(j: nat, goods: seq<Round>)
    requires forall r :: r in goods ==> Good(r)
    ensures Streak(true, LostRounds(j) + goods) == if goods == [] then j else 0
    ensures Goods(LostRounds(j) + goods) == |goods|
    decreases |goods|
  {
    var rounds := LostRounds(j) + goods;
    if goods == [] {
      LostCounts(j);
      assert rounds == LostRounds(j);
    } else {
      MixedStreak(j, goods[..|goods| - 1]);
      assert rounds[..|rounds| - 1] == LostRounds(j) + goods[..|goods| - 1];
      assert rounds[|rounds| - 1] == goods[|goods| - 1] && Good(goods[|goods| - 1]);
    }
  }

  lemma MixedIsFair(ends: Ends, j: nat, goods: seq<Round>)
    requires forall r :: r in goods ==> Good(r)
    ensures Fair(ends, true, LostRounds(j) + goods, j) && FinalAckHeard(ends, true, LostRounds(j) + goods)
  {
    hide After, AfterTx, Streak, Detectable;
    var rounds := LostRounds(j) + goods;
    LostShape(j);
    forall i | 0 <= i <= |rounds| ensures Streak(true, rounds[..i]) <= j {
      if i <= j {
        LostPrefix(j, i);
        assert rounds[..i] == LostRounds(j)[..i];
        LostCounts(i);
      } else {
        MixedStreak(j, goods[..i - j]);
        assert rounds[..i] == LostRounds(j) + goods[..i - j];
      }
    }
    assert forall i :: 0 <= i < |rounds| ==> rounds[i] == Round(Lost, false) || Good(rounds[i]);
  }

  /** What a good round settles: the receiver was still asking for CRCs. */
  lemma GoodSettles(ends: Ends, j: nat, goods: seq<Round>)
    requires ends.rx.cfg.mode == OneK && ends.rx.cfg.maxRetries > 0 && goods != []
    requires forall r :: r in goods ==> Good(r)
    requires ends.tx.source(0).code >= 0 && j < ends.tx.cfg.maxRetries
    ensures CourseOf(ends, true, LostRounds(j) + goods) == if j <= ends.rx.cfg.maxRetries / 2 then Kept else Parted
  {
    hide CourseOf, Asked, Packets, LostRounds;
    LostCourse(ends, j);
    if j <= ends.rx.cfg.maxRetries / 2 {
      LostShape(j);
      LostCounts(j);
      assert Good(goods[0]);
      CourseNext(ends, true, LostRounds(j), goods[0]);
      CourseExtends(ends, true, LostRounds(j) + [goods[0]], goods[1..]);
      assert LostRounds(j) + goods == LostRounds(j) + [goods[0]] + goods[1..];
    } else {
      CourseExtends(ends, true, LostRounds(j), goods);
    }
  }

  /** A receiver without retries gives up on the first loss. */
  lemma {:induction false} ImpatientCloses(ends: Ends, rounds: seq<Round>)
    requires ends.rx.cfg.maxRetries == 0 && rounds != [] && rounds[0].fate == Lost
    ensures After(ends, true, rounds).ear == Closed(TimedOut)
    decreases |rounds|
  {
    hide TxStep, Step;
    var before := rounds[..|rounds| - 1];
    UnfoldAfter(ends, true, rounds);
    if before == [] {
      HearControl(ends.rx, Start(ends.rx.cfg), [], []);
    } else {
      ImpatientCloses(ends, before);
    }
  }

  /** The exact limit: a heard handshake, then `j` lost blocks, then enough good rounds end in
      XMODEM_OK if and only if j is at most max_retries / 2 (five with the default settings). */
  lemma LossesExactly(ends: Ends, j: nat, goods: seq<Round>, n: nat)
    requires Compatible(ends) && ends.rx.cfg.mode == OneK && FirstTells(ends)
    requires Blocks(ends.tx, n, ends.tx.totalLen) && j < ends.tx.cfg.maxRetries
    requires (forall k: nat :: k < n ==> ends.tx.source(k).code >= 0) && (forall k: nat :: ends.rx.stores(k))
    requires (forall r :: r in goods ==> Good(r)) && |goods| >= n + 2
    ensures After(ends, true, LostRounds(j) + goods).tx.phase == Finished(Delivered)
       <==> j <= ends.rx.cfg.maxRetries / 2
  {
    hide After, PlausibleRun, FirstTells, Goods, Streak, Fair, FinalAckHeard, Inv, Upto;
    var rounds := LostRounds(j) + goods;
    MixedIsFair(ends, j, goods);
    FairIsPlausible(ends, true, rounds, j);
    MixedStreak(j, goods);
    if ends.rx.cfg.maxRetries > 0 {
      GoodSettles(ends, j, goods);
      if j <= ends.rx.cfg.maxRetries / 2 {
        TransferCompletes(ends, true, rounds, j, n);
      } else {
        FallbackStalls(ends, true, rounds);
      }
    } else if j == 0 {
      NoLossCourse(ends, goods);
      assert rounds == goods;
      TransferCompletes(ends, true, rounds, 0, n);
    } else {
      LostShape(j);
      ImpatientCloses(ends, rounds);
      RunKeepsInv(ends, true, rounds);
      DeliveredNeedsOk(ends, After(ends, true, rounds));
    }
  }

  lemma DeliveredNeedsOk(ends: Ends, l: Link)
    requires Inv(ends, l) && !OkClosed(l.ear)
    ensures l.tx.phase != Finished(Delivered)
  {
  }

  lemma {:induction false} NoLossCourse(ends: Ends, goods: seq<Round>)
    requires forall r :: r in goods ==> Good(r)
    requires ends.tx.source(0).code >= 0 && ends.tx.cfg.maxRetries > 0
    ensures CourseOf(ends, true, goods) == if goods == [] then Undecided else Kept
    decreases |goods|
  {
    if goods != [] {
      assert Good(goods[|goods| - 1]);
      NoLossCourse(ends, goods[..|goods| - 1]);
    }
  }

  // ----- the failing runs as runs of the C functions -----

  lemma {:induction false} SilentReceiver(env: Env, st: RxState, w: World<Call>)
    requires w.script == []
    ensures var out := Run(env, st, w); out.Returned? ==> out.status == TimedOut && out.w.calls == w.calls
    decreases st.retries == 255, env.cfg.maxRetries - st.retries
  {
    if env.cfg.maxRetries < 255 {
      hide OnBlock, OnUnknown;
      var r := Step(env, st, w);
      if r.Continue? {
        SilentReceiver(env, r.st, r.w);
      }
    }
  }

  lemma {:induction false} SilentTransmitter(env: TxEnv, st: TxState, w: World<Fetch>)
    requires w.script == [] && st.phase.AwaitAck?
    ensures var out := TxRun(env, st, w); out.Returned? ==> out.status != Delivered
    decreases st.phase.retries == 255, env.cfg.maxRetries - st.phase.retries
  {
    hide NextBlock, Frame;
    var (st', w') := TxStep(env, st, Timeout, w);
    assert w.Leaves(Tail(w.script)) == w;
    if st'.phase.Finished? {
      FinishedRun(env, st'.acked, st'.phase.status, w');
    } else {
      SilentTransmitter(env, st', w');
    }
  }

  /** For every run whose faults part the ends there are two scripts, made of what the rounds bring
      and failed reads and followed by silence, on which neither C function returns XMODEM_OK and
      nothing is stored. */
  lemma FallbackOnScripts(ends: Ends, heard: bool, rounds: seq<Round>) returns (script: seq<Event>)
    requires Compatible(ends) && PlausibleRun(ends, heard, rounds) && FirstTells(ends)
    requires CourseOf(ends, heard, rounds) == Parted
    ensures Spells(script, Carried(ends, heard, rounds))
    ensures var out := Receive(ends.rx, World(script, [], []));
      out.Returned? ==> !out.status.Ok? && Deliveries(out.w.calls) == []
    ensures var out := Transmit(ends.tx, World(Answers(ends, heard, rounds), [], []));
      out.Returned? ==> out.status != Delivered
  {
    hide After, PlausibleRun, FirstTells, CourseOf, Receive, Transmit, Said, Wrote, Carried, Answers, Spells,
      NeverSplit, Run, TxRun, Deliveries;
    var l := After(ends, heard, rounds);
    FallbackStalls(ends, heard, rounds);
    script := RoundsAreReceive(ends, heard, rounds, []);
    assert script + [] == script;
    RoundsAreTransmit(ends, heard, rounds, []);
    var answers := Answers(ends, heard, rounds);
    assert answers + [] == answers;
    if l.ear.Listening? {
      SilentReceiver(ends.rx, l.ear.st, World([], Said(ends, heard, rounds), l.calls));
    }
    if l.tx.phase.AwaitAck? {
      SilentTransmitter(ends.tx, l.tx, World([], Wrote(ends, heard, rounds), Fetched(ends, heard, rounds)));
    }
  }

  /** So on a line that turns perfect after max_retries / 2 + 1 lost blocks: the intact blocks that
      then arrive are all in the receiver's script. */
  lemma LossesOnScripts(ends: Ends, goods: seq<Round>) returns (script: seq<Event>)
    requires Compatible(ends) && ends.rx.cfg.mode == OneK && FirstTells(ends)
    requires 0 < ends.rx.cfg.maxRetries && ends.rx.cfg.maxRetries / 2 < ends.tx.cfg.maxRetries
    requires ends.tx.source(0).code >= 0 && forall r :: r in goods ==> Good(r)
    ensures var rounds := LostRounds(ends.rx.cfg.maxRetries / 2 + 1) + goods;
      && Spells(script, Carried(ends, true, rounds))
      && (var out := Receive(ends.rx, World(script, [], []));
          out.Returned? ==> !out.status.Ok? && Deliveries(out.w.calls) == [])
      && (var out := Transmit(ends.tx, World(Answers(ends, true, rounds), [], []));
          out.Returned? ==> out.status != Delivered)
  {
    hide After, PlausibleRun, FirstTells, Receive, Transmit, Carried, Answers, Spells, Deliveries, Fair;
    var j := ends.rx.cfg.maxRetries / 2 + 1;
    MixedIsFair(ends, j, goods);
    FairIsPlausible(ends, true, LostRounds(j) + goods, j);
    LostCourse(ends, j);
    CourseExtends(ends, true, LostRounds(j), goods);
    script := FallbackOnScripts(ends, true, LostRounds(j) + goods);
  }

  // ----- why the first block must tell -----

  lemma ChanceFrame(step: CrcStep, block: byte, payload: seq<byte>)
    requires !Differs(step, payload)
    ensures Frame(step, true, block, payload) == Frame(step, false, block, payload) + [Low(Crc16(step, payload))]
  {
    hide Crc16, Sum8, High, Low;
  }

  /** If by chance the checksum of a block is the first byte of its CRC, a receiver that has fallen
      back stores it and takes the second CRC byte for a header. If that byte is EOT, it returns
      XMODEM_OK after this one block, however long the file is. */
  lemma ChanceMatchEnds(env: Env, st: RxState, payload: seq<byte>, more: seq<Event>, sent: seq<byte>, calls: seq<Call>)
    requires |payload| == 128 || |payload| == 1024
    requires !st.crcMode && env.stores(|calls|)
    requires !Differs(env.step, payload) && Low(Crc16(env.step, payload)) == EOT
    ensures Run(env, st, World(Bytes(Frame(env.step, true, st.expected, payload)) + more, sent, calls))
         == Returned(Ok(st.total + |payload|),
                     World(more, sent + [ACK] + [ACK], calls + [Stored(st.expected, payload)]))
  {
    hide Frame, Differs, Crc16, Low, Step;
    var frame := Frame(env.step, false, st.expected, payload);
    ChanceFrame(env.step, st.expected, payload);
    var script := Bytes(frame) + (Bytes([EOT]) + more);
    BytesAppend(frame, [EOT], more);
    HearFrame(env, st, calls, st.expected, payload);
    FrameSegment(env, st, calls, st.expected, payload, Bytes([EOT]) + more, sent);
    var st' := st.(expected := Inc(st.expected), total := st.total + |payload|, retries := 0, req := ACK);
    var w' := World(Bytes([EOT]) + more, sent + [ACK], calls + [Stored(st.expected, payload)]);
    assert [] + [ACK] == [ACK];
    EotEnds(env, st', more, w'.sent, w'.calls);
    RunOn(env, st, World(script, sent, calls));
  }

  lemma EotEnds(env: Env, st: RxState, more: seq<Event>, sent: seq<byte>, calls: seq<Call>)
    ensures Run(env, st, World(Bytes([EOT]) + more, sent, calls))
         == Returned(Ok(st.total), World(more, sent + [ACK], calls))
  {
    BytesHead(EOT, [], more);
    BytesNone([], more);
    assert [EOT] + [] == [EOT];
  }

  lemma RunOn(env: Env, st: RxState, w: World<Call>)
    requires w.script != []
    ensures var r := Step(env, st, w); r.Continue? ==> Run(env, st, w) == Run(env, r.st, r.w)
  {
    hide Step;
  }
}
