/** The rounds of XmodemLink are runs of the two C functions: for every run of rounds there is an
    event script on which xmodem_receive, and one on which xmodem_transmit, does from its first to
    its last line exactly what the rounds say, and the scripts bring just what the rounds deliver. */
module XmodemRuns {
  import opened Serial
  import opened XmodemFrames
  import opened XmodemReceiver
  import opened XmodemTransmitter
  import opened XmodemTrace
  import opened XmodemLink
  import opened XmodemCourse
  import opened XmodemDelivery
  import opened XmodemScripts

  // ----- what goes over the line in a run -----

  /** What the receiver sends in a round. */
  function Reply(ends: Ends, l: Link, r: Round): seq<byte> {
    Hear(ends.rx, l.ear, l.calls, Arrival(TxOutput(ends, l), r.fate)).1
  }

  /** What reaches a receiver that still listens: an intact packet, the noise a damaged one has
      become, or nothing. */
  function Reached(ends: Ends, l: Link, r: Round): seq<byte> {
    if l.ear.Listening? then Reaching(TxOutput(ends, l), r.fate) else []
  }

  /** The whole of what one end sends or is sent: `Said` by the receiver, `Brought` to the
      transmitter, `Wrote` by the transmitter, `Carried` to the receiver. */
  function Said(ends: Ends, heard: bool, rounds: seq<Round>): seq<byte> {
    if rounds == [] then [StartByte(ends)]
    else
      var before := rounds[..|rounds| - 1];
      Said(ends, heard, before) + Reply(ends, After(ends, heard, before), rounds[|rounds| - 1])
  }

  function Brought(ends: Ends, heard: bool, rounds: seq<Round>): seq<byte> {
    if rounds == [] then if heard then [StartByte(ends)] else []
    else
      var before, r := rounds[..|rounds| - 1], rounds[|rounds| - 1];
      Brought(ends, heard, before) + if r.replied then Reply(ends, After(ends, heard, before), r) else []
  }

  function Wrote(ends: Ends, heard: bool, rounds: seq<Round>): seq<byte> {
    if rounds == [] then []
    else
      var before := rounds[..|rounds| - 1];
      Wrote(ends, heard, before) + TxOutput(ends, After(ends, heard, before))
  }

  /** The blocks that the transmitter has asked data_cb for. */
  function Fetched(ends: Ends, heard: bool, rounds: seq<Round>): seq<Fetch> {
    if rounds == [] then []
    else
      var before := rounds[..|rounds| - 1];
      Fetched(ends, heard, before) + TxFetches(ends, After(ends, heard, before))
  }

  function TxFetches(ends: Ends, l: Link): seq<Fetch> {
    TxStep(ends.tx, l.tx, Answer(l.inbox), World([], [], [])).1.calls
  }

  function Carried(ends: Ends, heard: bool, rounds: seq<Round>): seq<byte> {
    if rounds == [] then []
    else
      var before := rounds[..|rounds| - 1];
      Carried(ends, heard, before) + Reached(ends, After(ends, heard, before), rounds[|rounds| - 1])
  }

  // ----- the receiver's run -----

  /** Where xmodem_receive is: still to run from `st` on `more`, or returned. */
  ghost predicate ReceiverAt(ends: Ends, ear: Ear, sent: seq<byte>, calls: seq<Call>,
                             more: seq<Event>, out: Outcome<Status, Call>)
  {
    match ear
    case Listening(st) => out == Run(ends.rx, st, World(more, sent, calls))
    case Closed(status) => out.Returned? && out.status == status && out.w.sent == sent && out.w.calls == calls
  }

  /** A script for one round: nothing is read once the receiver has returned. */
  predicate Plays(ends: Ends, l: Link, r: Round, seg: seq<Event>, more: seq<Event>, sent: seq<byte>) {
    match l.ear
    case Closed(_) => seg == []
    case Listening(st) =>
      && seg != []
      && Same(Step(ends.rx, st, World(seg + more, sent, l.calls)),
              Step(ends.rx, st, World(Arrival(TxOutput(ends, l), r.fate), [], l.calls)), more, sent)
  }

  /** An intact packet for a receiver that can read it, or a receiver that has returned. */
  predicate Clear(ends: Ends, l: Link, r: Round) {
    l.ear.Listening? ==> r.fate.Intact? && TxOutput(ends, l) != [] && !Split(l)
  }

  lemma RoundSegment(ends: Ends, l: Link, r: Round, more: seq<Event>, sent: seq<byte>) returns (seg: seq<Event>)
    requires Compatible(ends) && Inv(ends, l) && Plausible(ends, l, r) && (Split(l) ==> FirstTells(ends))
    ensures Plays(ends, l, r, seg, more, sent)
    ensures Spells(seg, Reached(ends, l, r))
    ensures Clear(ends, l, r) ==> seg == Bytes(Reached(ends, l, r))
  {
    hide TxStep, Inv, Outgoing, Step, Same, Split, FirstTells, Detectable;
    TxHalf(ends, l);
    if l.ear.Closed? {
      seg := [];
    } else {
      seg := TurnSegment(ends, AfterTx(ends, l), TxOutput(ends, l), r, more, sent);
    }
  }

  /** One round moves the receiver along its run. */
  lemma RoundIsTurn(ends: Ends, l: Link, r: Round, seg: seq<Event>, more: seq<Event>, sent: seq<byte>,
                    out: Outcome<Status, Call>)
    requires Plays(ends, l, r, seg, more, sent)
    requires ReceiverAt(ends, l.ear, sent, l.calls, seg + more, out)
    ensures var l' := Play(ends, l, r);
      ReceiverAt(ends, l'.ear, sent + Reply(ends, l, r), l'.calls, more, out)
  {
    hide TxStep, Step;
    assert sent + [] == sent && (seg == [] ==> seg + more == more);
  }

  ghost predicate AllClear(ends: Ends, heard: bool, rounds: seq<Round>) {
    forall i :: 0 <= i < |rounds| ==> Clear(ends, After(ends, heard, rounds[..i]), rounds[i])
  }

  lemma ClearPrefix(ends: Ends, heard: bool, rounds: seq<Round>)
    requires rounds != [] && AllClear(ends, heard, rounds)
    ensures AllClear(ends, heard, rounds[..|rounds| - 1])
    ensures Clear(ends, After(ends, heard, rounds[..|rounds| - 1]), rounds[|rounds| - 1])
  {
    hide After, Clear;
    var before := rounds[..|rounds| - 1];
    assert forall i :: 0 <= i < |before| ==> before[..i] == rounds[..i] && before[i] == rounds[i];
  }

  /** For every run of rounds there is a script on which xmodem_receive makes exactly the replies
      and storage calls of the rounds and is then where the rounds leave it: returned with that
      status, or about to go on from that state with whatever follows. The bytes of the script are,
      in order, those that the rounds bring to the receiver: the packets that arrive intact and the
      noise of damaged ones; all else in it are failed reads, and there are none of these when
      every packet arrives. */
  lemma {:induction false} RoundsAreReceive(ends: Ends, heard: bool, rounds: seq<Round>, more: seq<Event>)
    returns (script: seq<Event>)
    requires Compatible(ends) && PlausibleRun(ends, heard, rounds)
    requires FirstTells(ends) || NeverSplit(ends, heard, rounds)
    ensures var l := After(ends, heard, rounds);
      ReceiverAt(ends, l.ear, Said(ends, heard, rounds), l.calls, more, Receive(ends.rx, World(script + more, [], [])))
    ensures Spells(script, Carried(ends, heard, rounds))
    ensures AllClear(ends, heard, rounds) ==> script == Bytes(Carried(ends, heard, rounds))
    decreases |rounds|
  {
    hide Inv, Plausible, PlausibleRun, Play, ReceiverAt, Reply, Receive, Plays, Split, FirstTells, NeverSplit, After,
      Spells, Reached, AllClear, Clear;
    if rounds == [] {
      script := [];
      ReceiveOpens(ends, heard, more);
    } else {
      var before, r := rounds[..|rounds| - 1], rounds[|rounds| - 1];
      PrefixRun(ends, heard, rounds);
      UnfoldAfter(ends, heard, rounds);
      RunKeepsInv(ends, heard, before);
      if NeverSplit(ends, heard, before) {
        LastNotSplit(ends, heard, before);
      }
      var l, said, carried := After(ends, heard, before), Said(ends, heard, before), Carried(ends, heard, before);
      var seg := RoundSegment(ends, l, r, more, said);
      script := RoundsAreReceive(ends, heard, before, seg + more);
      SpellsConcat(script, carried, seg, Reached(ends, l, r));
      if AllClear(ends, heard, rounds) {
        ClearPrefix(ends, heard, rounds);
        BytesConcat(carried, Reached(ends, l, r));
      }
      assert script + (seg + more) == script + seg + more;
      script := script + seg;
      RoundIsTurn(ends, l, r, seg, more, said, Receive(ends.rx, World(script + more, [], [])));
    }
  }

  lemma ReceiveOpens(ends: Ends, heard: bool, more: seq<Event>)
    ensures var l := After(ends, heard, []);
      ReceiverAt(ends, l.ear, [StartByte(ends)], l.calls, more, Receive(ends.rx, World([] + more, [], [])))
    ensures Spells([], [])
  {
    hide Run;
    assert [] + more == more;
    assert [] + [StartByte(ends)] == [StartByte(ends)];
  }

  // ----- the transmitter's run -----

  /** The answers the transmitter reads, round by round. */
  function Answers(ends: Ends, heard: bool, rounds: seq<Round>): seq<Event> {
    if rounds == [] then []
    else
      var before := rounds[..|rounds| - 1];
      Answers(ends, heard, before) + [Answer(After(ends, heard, before).inbox)]
  }

  /** They are the receiver's bytes that were not lost, in order and up to those still unread, and
      otherwise failed reads. */
  lemma {:induction false} AnswersSpell(ends: Ends, heard: bool, rounds: seq<Round>) returns (read: seq<byte>)
    ensures Spells(Answers(ends, heard, rounds), read)
    ensures read + After(ends, heard, rounds).inbox == Brought(ends, heard, rounds)
    decreases |rounds|
  {
    hide After, Spells, Reply;
    if rounds == [] {
      read := [];
      NothingAnswered(ends, heard);
    } else {
      var before, r := rounds[..|rounds| - 1], rounds[|rounds| - 1];
      var l := After(ends, heard, before);
      var sofar := AnswersSpell(ends, heard, before);
      AnswerSpells(l.inbox);
      var next := if l.inbox == [] then [] else [l.inbox[0]];
      SpellsConcat(Answers(ends, heard, before), sofar, [Answer(l.inbox)], next);
      read := sofar + next;
      InboxMoves(ends, heard, rounds);
      var reply := if r.replied then Reply(ends, l, r) else [];
      assert sofar + next + (Rest(l.inbox) + reply) == sofar + l.inbox + reply;
    }
  }

  lemma AnswerSpells(inbox: seq<byte>)
    ensures Spells([Answer(inbox)], if inbox == [] then [] else [inbox[0]])
  {
    var s := [Answer(inbox)];
    assert s[1..] == [];
  }

  lemma NothingAnswered(ends: Ends, heard: bool)
    ensures Spells([], []) && [] + After(ends, heard, []).inbox == Brought(ends, heard, [])
  {
  }

  lemma InboxMoves(ends: Ends, heard: bool, rounds: seq<Round>)
    requires rounds != []
    ensures var l, r := After(ends, heard, rounds[..|rounds| - 1]), rounds[|rounds| - 1];
      After(ends, heard, rounds).inbox == Rest(l.inbox) + if r.replied then Reply(ends, l, r) else []
  {
    hide Hear, TxStep;
  }

  predicate TransmitterAt(ends: Ends, tx: TxState, sent: seq<byte>, fetched: seq<Fetch>, more: seq<Event>,
                          out: Outcome<TxStatus, Fetch>)
  {
    if tx.phase.Finished? then
      out.Returned? && out.status == tx.phase.status && out.w.sent == sent && out.w.calls == fetched
    else out == TxRun(ends.tx, tx, World(more, sent, fetched))
  }

  /** `at` is the situation `at0` with `w` written and fetched before it. */
  predicate Shifted(at: Situation, at0: Situation, w: World<Fetch>) {
    at == (at0.0, World(w.script, w.sent + at0.1.sent, w.calls + at0.1.calls))
  }

  lemma NextBlockShifts(env: TxEnv, acked: nat, crcMode: bool, w: World<Fetch>)
    ensures Shifted(NextBlock(env, acked, crcMode, w), NextBlock(env, acked, crcMode, World([], [], [])), w)
  {
    hide Frame;
    assert forall bs: seq<byte> :: [] + bs == bs && bs + [] == bs;
    assert forall cs: seq<Fetch> :: [] + cs == cs && cs + [] == cs;
  }

  lemma TxStepShifts(env: TxEnv, st: TxState, e: Event, w: World<Fetch>)
    ensures Shifted(TxStep(env, st, e, w), TxStep(env, st, e, World([], [], [])), w)
  {
    hide Frame, NextBlock;
    NextBlockShifts(env, st.acked, true, w);
    NextBlockShifts(env, st.acked, false, w);
    if st.phase.AwaitAck? {
      NextBlockShifts(env, st.acked + 1, st.phase.crcMode, w);
    }
    assert forall bs: seq<byte> :: [] + bs == bs && bs + [] == bs;
    assert forall cs: seq<Fetch> :: [] + cs == cs && cs + [] == cs;
  }

  lemma RoundIsAnswer(ends: Ends, l: Link, r: Round, more: seq<Event>, sent: seq<byte>, fetched: seq<Fetch>,
                      out: Outcome<TxStatus, Fetch>)
    requires TransmitterAt(ends, l.tx, sent, fetched, [Answer(l.inbox)] + more, out)
    ensures TransmitterAt(ends, Play(ends, l, r).tx, sent + TxOutput(ends, l), fetched + TxFetches(ends, l), more, out)
  {
    hide Hear;
    if l.tx.phase.Finished? {
      assert sent + [] == sent && fetched + [] == fetched;
    } else {
      hide TxStep;
      var e := Answer(l.inbox);
      var w := World(more, sent, fetched);
      assert World([e] + more, sent, fetched).Leaves(Tail([e] + more)) == w;
      TxStepShifts(ends.tx, l.tx, e, w);
      var (st', w') := TxStep(ends.tx, l.tx, e, w);
      assert out == TxRun(ends.tx, st', w');
      if st'.phase.Finished? {
        FinishedRun(ends.tx, st'.acked, st'.phase.status, w');
      }
    }
  }

  /** On the answers of a run of rounds xmodem_transmit writes the packets and fetches the blocks
      that the rounds say and waits where they leave it. */
  lemma {:induction false} RoundsAreTransmit(ends: Ends, heard: bool, rounds: seq<Round>, more: seq<Event>)
    ensures var l := After(ends, heard, rounds);
      TransmitterAt(ends, l.tx, Wrote(ends, heard, rounds), Fetched(ends, heard, rounds), more,
                    Transmit(ends.tx, World(Answers(ends, heard, rounds) + more, [], [])))
    decreases |rounds|
  {
    hide Play, TxStep, TxRun;
    if rounds == [] {
      assert [] + more == more;
    } else {
      hide TransmitterAt, Transmit, After;
      var before := rounds[..|rounds| - 1];
      var l := After(ends, heard, before);
      var e := Answer(l.inbox);
      RoundsAreTransmit(ends, heard, before, [e] + more);
      UnfoldAfter(ends, heard, rounds);
      var answers := Answers(ends, heard, before);
      assert answers + ([e] + more) == answers + [e] + more;
      RoundIsAnswer(ends, l, rounds[|rounds| - 1], more, Wrote(ends, heard, before), Fetched(ends, heard, before),
                    Transmit(ends.tx, World(answers + [e] + more, [], [])));
    }
  }

  /** The two functions together: whenever the rounds end with the transmitter content, there are
      two scripts on which both return XMODEM_OK, the receiver with the whole file, padded, in
      storage. The transmitter's brings the receiver's bytes that the rounds do not lose, the
      receiver's the packets that they bring, intact or as noise; all else are failed reads. */
  lemma RunsDeliver(ends: Ends, heard: bool, rounds: seq<Round>, file: seq<byte>) returns (script: seq<Event>)
    requires Compatible(ends) && PlausibleRun(ends, heard, rounds) && Tellable(ends, heard, rounds)
    requires file != [] && Serves(ends.tx, file)
    requires After(ends, heard, rounds).tx.phase == Finished(Delivered)
    ensures var out := Transmit(ends.tx, World(Answers(ends, heard, rounds), [], []));
      && out.Returned? && out.status == Delivered
      && out.w.sent == Wrote(ends, heard, rounds) && out.w.calls == Fetched(ends, heard, rounds)
    ensures exists read :: Spells(Answers(ends, heard, rounds), read) && read <= Brought(ends, heard, rounds)
    ensures var out := Receive(ends.rx, World(script, [], []));
      && out.Returned? && out.w.sent == Said(ends, heard, rounds)
      && var n := |Deliveries(out.w.calls)|;
      && Blocks(ends.tx, n, |file|)
      && out.status == Ok(Upto(ends.tx, n))
      && Contents(Deliveries(out.w.calls)) == PaddedFile(file, Upto(ends.tx, n))
    ensures Spells(script, Carried(ends, heard, rounds))
  {
    hide After, Receive, Transmit, Deliveries, Serves, PlausibleRun, Said, Answers, Wrote, Fetched, Brought, Carried,
      Upto, Spells, FirstTells, NeverSplit, CourseOf;
    SuccessDelivers(ends, heard, rounds, file);
    CourseDecides(ends, heard, rounds);
    script := RoundsAreReceive(ends, heard, rounds, []);
    assert script + [] == script;
    RoundsAreTransmit(ends, heard, rounds, []);
    assert Answers(ends, heard, rounds) + [] == Answers(ends, heard, rounds);
    var read := AnswersSpell(ends, heard, rounds);
  }

  // ----- a line without faults -----

  function GoodRounds(k: nat): seq<Round> {
    if k == 0 then [] else GoodRounds(k - 1) + [Round(Intact, true)]
  }

  lemma {:induction false} AllGood(k: nat)
    ensures |GoodRounds(k)| == k && (forall r :: r in GoodRounds(k) ==> r == Round(Intact, true))
    ensures k > 0 ==> GoodRounds(k)[..k - 1] == GoodRounds(k - 1) && GoodRounds(k)[k - 1] == Round(Intact, true)
  {
    if k > 0 {
      AllGood(k - 1);
    }
  }

  /** A transfer without faults that has not ended: an answer is at hand, and a packet goes out that
      a listening receiver can read. */
  predicate Busy(ends: Ends, l: Link) {
    && l.inbox != []
    && Clear(ends, l, Round(Intact, true))
    && (l.ear.Closed? ==> TxOutput(ends, l) == [])
  }

  lemma LiveIsBusy(ends: Ends, l: Link)
    requires Compatible(ends) && Inv(ends, l) && Live(ends, l, 0, 0) && !Split(l)
    requires !l.tx.phase.Finished? && ends.tx.cfg.maxRetries > 0
    ensures Busy(ends, l)
  {
    hide EarInv, Deliveries, Frame, NextBlock;
    RequestPending(ends, l);
    NextBlockSpeaks(ends.tx, 0, true);
    NextBlockSpeaks(ends.tx, 0, false);
    if l.tx.phase.AwaitAck? {
      NextBlockSpeaks(ends.tx, l.tx.acked + 1, l.tx.phase.crcMode);
    }
  }

  lemma NextBlockSpeaks(env: TxEnv, acked: nat, crcMode: bool)
    requires env.cfg.maxRetries > 0
    ensures NextBlock(env, acked, crcMode, World([], [], [])).1.sent != []
  {
  }

  /** The first rounds of a faultless transfer. */
  lemma GoodRoundBusy(ends: Ends, file: seq<byte>, n: nat, k: nat)
    requires Compatible(ends) && Serves(ends.tx, file) && Blocks(ends.tx, n, |file|)
    requires ends.tx.cfg.maxRetries > 0 && forall k: nat :: ends.rx.stores(k)
    requires !After(ends, true, GoodRounds(k)).tx.phase.Finished?
    ensures Busy(ends, After(ends, true, GoodRounds(k)))
  {
    hide After, Inv, Serves, Blocks, Fair, Covered, CourseOf, Live, PlausibleRun, NeverSplit, Busy, Split;
    var rounds := GoodRounds(k);
    AllGood(k);
    PerfectlyPlausible(ends, rounds);
    GoodIsFair(ends, rounds);
    NoStreak(rounds);
    FileCovered(ends, file, n);
    GoodCourse(ends, rounds, file, n);
    CourseDecides(ends, true, rounds);
    RunLives(ends, true, rounds, 0, n);
    LastNotSplit(ends, true, rounds);
    LiveIsBusy(ends, After(ends, true, rounds));
  }

  /** The round in which a faultless transfer ends. */
  lemma {:induction false} LastRound(ends: Ends, k: nat) returns (last: nat)
    requires After(ends, true, GoodRounds(k)).tx.phase.Finished?
    ensures last <= k
    ensures After(ends, true, GoodRounds(last)).tx.phase.Finished?
    ensures forall i: nat :: i < last ==> !After(ends, true, GoodRounds(i)).tx.phase.Finished?
    decreases k
  {
    hide After;
    if i: nat :| i < k && After(ends, true, GoodRounds(i)).tx.phase.Finished? {
      last := LastRound(ends, i);
    } else {
      last := k;
    }
  }

  /** What the two ends exchange while the transfer lasts. */
  lemma {:induction false} BusyAnswers(ends: Ends, k: nat)
    requires forall i: nat :: i < k ==> Busy(ends, After(ends, true, GoodRounds(i)))
    ensures OnlyBytes(Answers(ends, true, GoodRounds(k)))
    decreases k
  {
    hide After, Busy;
    AllGood(k);
    if k > 0 {
      BusyAnswers(ends, k - 1);
      BusyRound(ends, After(ends, true, GoodRounds(k - 1)));
    }
  }

  lemma {:induction false} NothingLost(ends: Ends, k: nat)
    ensures Brought(ends, true, GoodRounds(k)) == Said(ends, true, GoodRounds(k))
    decreases k
  {
    hide After, Reply;
    AllGood(k);
    if k > 0 {
      NothingLost(ends, k - 1);
    }
  }

  lemma {:induction false} AllCarried(ends: Ends, k: nat)
    requires forall i: nat :: i < k ==> Busy(ends, After(ends, true, GoodRounds(i)))
    ensures Carried(ends, true, GoodRounds(k)) == Wrote(ends, true, GoodRounds(k))
    decreases k
  {
    hide After, Busy, Reached, TxOutput;
    AllGood(k);
    if k > 0 {
      AllCarried(ends, k - 1);
      BusyRound(ends, After(ends, true, GoodRounds(k - 1)));
    }
  }

  lemma BusyRound(ends: Ends, l: Link)
    requires Busy(ends, l)
    ensures Answer(l.inbox).Byte? && Reached(ends, l, Round(Intact, true)) == TxOutput(ends, l)
  {
    hide TxStep;
  }

  lemma BusyIsClear(ends: Ends, k: nat)
    requires forall i: nat :: i < k ==> Busy(ends, After(ends, true, GoodRounds(i)))
    ensures AllClear(ends, true, GoodRounds(k))
  {
    hide After, TxStep, Split;
    AllGood(k);
    forall i | 0 <= i < k ensures Clear(ends, After(ends, true, GoodRounds(k)[..i]), GoodRounds(k)[i]) {
      GoodPrefix(k, i);
      assert GoodRounds(k)[i] in GoodRounds(k);
    }
  }

  lemma {:induction false} GoodPrefix(k: nat, i: nat)
    requires i <= k
    ensures |GoodRounds(k)| == k && GoodRounds(k)[..i] == GoodRounds(i)
    decreases k
  {
    AllGood(k);
    if i < k {
      GoodPrefix(k - 1, i);
      assert GoodRounds(k)[..i] == GoodRounds(k)[..k - 1][..i];
    }
  }

  /** Fed `down`, xmodem_transmit sends `up` and returns XMODEM_OK; fed `up`, xmodem_receive sends
      `down` and returns XMODEM_OK, with the file, padded to whole blocks, in storage. */
  predicate Exchanged(ends: Ends, file: seq<byte>, n: nat, up: seq<byte>, down: seq<byte>)
    requires |file| <= Upto(ends.tx, n)
  {
    var tx := Transmit(ends.tx, World(Bytes(down), [], []));
    var rx := Receive(ends.rx, World(Bytes(up), [], []));
    && tx.Returned? && tx.status == Delivered && tx.w.sent == up
    && rx.Returned? && rx.status == Ok(Upto(ends.tx, n)) && rx.w.sent == down
    && Contents(Deliveries(rx.w.calls)) == PaddedFile(file, Upto(ends.tx, n))
  }

  /** For every file and every combination of modes there are two byte strings that the two C
      functions send each other. */
  lemma ClosedLoop(ends: Ends, file: seq<byte>, n: nat) returns (up: seq<byte>, down: seq<byte>)
    requires Compatible(ends) && Serves(ends.tx, file) && Blocks(ends.tx, n, |file|)
    requires ends.tx.cfg.maxRetries > 0 && forall k: nat :: ends.rx.stores(k)
    ensures Exchanged(ends, file, n, up, down)
  {
    hide After, Receive, Transmit, Deliveries, Contents, Serves, Blocks, PlausibleRun, Said, Answers, Wrote, Brought,
      Carried, Upto, Spells, FirstTells, NeverSplit, CourseOf, Busy, AllClear, OnlyBytes;
    AllGood(n + 2);
    PerfectlyDelivered(ends, GoodRounds(n + 2), file, n);
    var k := LastRound(ends, n + 2);
    var rounds := GoodRounds(k);
    forall i: nat | i < k ensures Busy(ends, After(ends, true, GoodRounds(i))) {
      GoodRoundBusy(ends, file, n, i);
    }
    up, down := Wrote(ends, true, rounds), Said(ends, true, rounds);
    FaultlessScripts(ends, file, n, k);
  }

  lemma FaultlessScripts(ends: Ends, file: seq<byte>, n: nat, k: nat)
    requires Compatible(ends) && Serves(ends.tx, file) && Blocks(ends.tx, n, |file|)
    requires ends.tx.cfg.maxRetries > 0 && forall k: nat :: ends.rx.stores(k)
    requires After(ends, true, GoodRounds(k)).tx.phase.Finished?
    requires forall i: nat :: i < k ==> Busy(ends, After(ends, true, GoodRounds(i)))
    ensures var rounds := GoodRounds(k);
      Exchanged(ends, file, n, Wrote(ends, true, rounds), Said(ends, true, rounds))
  {
    hide After, Receive, Transmit, Deliveries, Contents, Serves, Blocks, PlausibleRun, Said, Answers, Wrote, Brought,
      Carried, Upto, Spells, FirstTells, NeverSplit, CourseOf, Busy, AllClear, OnlyBytes;
    var rounds := GoodRounds(k);
    AllGood(k);
    BusyAnswers(ends, k);
    NothingLost(ends, k);
    AllCarried(ends, k);
    BusyIsClear(ends, k);
    FinishedDelivers(ends, file, n, k);
    PerfectlyPlausible(ends, rounds);
    GoodCourse(ends, rounds, file, n);
    CourseDecides(ends, true, rounds);
    var script := RoundsAreReceive(ends, true, rounds, []);
    assert script + [] == script;
    var inbox := After(ends, true, rounds).inbox;
    RoundsAreTransmit(ends, true, rounds, Bytes(inbox));
    var read := AnswersSpell(ends, true, rounds);
    AnswersAreBytes(Answers(ends, true, rounds), read);
    BytesConcat(read, inbox);
  }

  lemma AnswersAreBytes(s: seq<Event>, bs: seq<byte>)
    requires OnlyBytes(s) && Spells(s, bs)
    ensures s == Bytes(bs)
  {
    BytesOfEvents(s);
  }

  /** A faultless transfer that has ended has delivered the file. */
  lemma FinishedDelivers(ends: Ends, file: seq<byte>, n: nat, k: nat)
    requires Compatible(ends) && Serves(ends.tx, file) && Blocks(ends.tx, n, |file|)
    requires ends.tx.cfg.maxRetries > 0 && forall k: nat :: ends.rx.stores(k)
    requires After(ends, true, GoodRounds(k)).tx.phase.Finished?
    ensures var l := After(ends, true, GoodRounds(k));
      && l.tx.phase == Finished(Delivered)
      && l.ear == Closed(Ok(Upto(ends.tx, n)))
      && Contents(Deliveries(l.calls)) == PaddedFile(file, Upto(ends.tx, n))
  {
    hide After, Inv, Serves, Blocks, Fair, Covered, CourseOf, Live, PlausibleRun, NeverSplit, Upto, Deliveries,
      Contents;
    var rounds := GoodRounds(k);
    AllGood(k);
    PerfectlyPlausible(ends, rounds);
    GoodIsFair(ends, rounds);
    NoStreak(rounds);
    FileCovered(ends, file, n);
    GoodCourse(ends, rounds, file, n);
    CourseDecides(ends, true, rounds);
    RunLives(ends, true, rounds, 0, n);
    LiveDelivers(ends, After(ends, true, rounds), 0, 0);
    FileNotEmpty(ends.tx, file, n);
    SuccessDelivers(ends, true, rounds, file);
    BlocksUnique(ends.tx, n, |Deliveries(After(ends, true, rounds).calls)|, |file|);
  }
}
