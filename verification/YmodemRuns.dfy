/** The rounds of YmodemLink are runs of the two C functions: for every run of rounds there are scripts,
    bringing just what the rounds bring, on which ymodem_receive and ymodem_transmit do exactly what
    the rounds say. */
module YmodemRuns {
  import opened Serial
  import opened Checks
  import opened Metadata
  import opened XmodemFrames
  import opened YmodemBlock0
  import opened YmodemStorage
  import opened YmodemLink
  import opened YmodemCourse
  import opened YmodemDelivery
  import opened YmodemScripts
  import R = YmodemReceiver
  import T = YmodemTransmitter

  // ----- what goes over the line in a run -----

  function Reply(step: CrcStep, l: Link, r: Round): seq<byte> {
    Hear(step, l.rx, l.calls, Arrival(l.wire, r.fate)).1
  }

  /** All that the receiver sends. */
  function Said(step: CrcStep, files: seq<File>, heard: bool, rounds: seq<Round>): seq<byte> {
    if rounds == [] then [CRC_REQUEST]
    else
      var before := rounds[..|rounds| - 1];
      Said(step, files, heard, before) + Reply(step, PlayAll(step, files, heard, before), rounds[|rounds| - 1])
  }

  /** What of it arrives, altered or not, ... */
  function Brought(step: CrcStep, files: seq<File>, heard: bool, rounds: seq<Round>): seq<byte> {
    if rounds == [] then if heard then [CRC_REQUEST] else []
    else
      var before, r := rounds[..|rounds| - 1], rounds[|rounds| - 1];
      Brought(step, files, heard, before) + Heard(Reply(step, PlayAll(step, files, heard, before), r), r)
  }

  /** ... and the answers to the transmitter's reads: these bytes, and a failed read for a round of
      which it hears nothing. */
  function Read(step: CrcStep, files: seq<File>, heard: bool, rounds: seq<Round>): seq<Event> {
    if rounds == [] then if heard then [Byte(CRC_REQUEST)] else []
    else
      var before, r := rounds[..|rounds| - 1], rounds[|rounds| - 1];
      Read(step, files, heard, before) + Answers(Heard(Reply(step, PlayAll(step, files, heard, before), r), r))
  }

  /** All that the transmitter sends. */
  function Wrote(step: CrcStep, files: seq<File>, heard: bool, rounds: seq<Round>): seq<byte> {
    if rounds == [] then Opened(step, files, heard).wire
    else Wrote(step, files, heard, rounds[..|rounds| - 1]) + PlayAll(step, files, heard, rounds).wire
  }

  /** What of it reaches the receiver, as noise or intact. */
  function Carried(step: CrcStep, files: seq<File>, heard: bool, rounds: seq<Round>): seq<byte> {
    if rounds == [] then []
    else
      var before := rounds[..|rounds| - 1];
      Carried(step, files, heard, before) + Reached(PlayAll(step, files, heard, before), rounds[|rounds| - 1])
  }

  lemma {:induction false} ReadSpells(step: CrcStep, files: seq<File>, heard: bool, rounds: seq<Round>)
    ensures Spells(Read(step, files, heard, rounds), Brought(step, files, heard, rounds))
    decreases |rounds|
  {
    hide PlayAll, Spells, Reply, Heard;
    if rounds == [] {
      OpeningSpells(heard);
    } else {
      var before, r := rounds[..|rounds| - 1], rounds[|rounds| - 1];
      var reply := Heard(Reply(step, PlayAll(step, files, heard, before), r), r);
      ReadSpells(step, files, heard, before);
      AnswersSpell(reply);
      SpellsConcat(Read(step, files, heard, before), Brought(step, files, heard, before), Answers(reply), reply);
    }
  }

  lemma OpeningSpells(heard: bool)
    ensures Spells(if heard then [Byte(CRC_REQUEST)] else [], if heard then [CRC_REQUEST] else [])
  {
  }

  lemma AnswersSpell(heard: seq<byte>)
    ensures Spells(Answers(heard), heard)
  {
    if heard == [] {
      SilenceSpells([Timeout]);
    } else {
      BytesSpell(heard);
    }
  }

  // ----- the receiver's run -----

  /** Where ymodem_receive is: still to run from a point on `more`, or returned. */
  ghost predicate ReceiverAt(step: CrcStep, rx: Ear, sent: seq<byte>, calls: seq<R.Call>,
                             more: seq<Event>, out: (R.Status, World<R.Call>))
  {
    match rx
    case Listening(at) => out == R.Run(step, at, World(more, sent, calls))
    case Closed(status) => out.0 == status && out.1.sent == sent && out.1.calls == calls
  }

  /** What arrives intact. */
  lemma IntactSegment(step: CrcStep, files: seq<File>, at: Course, l: Link, r: Round, more: seq<Event>, sent: seq<byte>)
    requires Means(step, files, at, l) && l.rx.Listening? && l.wire != [] && r.fate == Intact
    ensures Carries(step, l, r, Bytes(l.wire), more, sent)
  {
    hide R.Step, Frame, T.HeaderBlock, T.BlockAt, BatchCalls, Begun, InfoOf, Bytes, Num;
    match at
    case Heading(i, _) => FrameSegment(step, l.rx.at, l.calls, 0, T.HeaderBlock(files, i), more, sent);
    case Sending(i, k, _, _, _) =>
      FrameSegment(step, l.rx.at, l.calls, Num(k + 1), T.BlockAt(files[i].content, 1024 * k), more, sent);
    case Ending(_, _) => EotSegment(step, l.rx.at, l.calls, more, sent);
    case Missed(_, _) => EotSegment(step, l.rx.at, l.calls, more, sent);
    case Closing(_) => EotSegment(step, l.rx.at, l.calls, more, sent);
    case _ =>
  }

  lemma SecondEotWire(step: CrcStep, files: seq<File>, at: Course, l: Link)
    requires Means(step, files, at, l) && l.rx.Listening? && l.wire != [] && l.rx.at.AwaitSecondEot?
    ensures l.wire == [EOT]
  {
    hide Frame, T.HeaderBlock, T.BlockAt, BatchCalls, Begun, InfoOf, Num;
  }

  /** Some script makes the receiver take its turn and leaves the rest unread; for an intact packet it is
      the packet. */
  lemma RoundSegment(step: CrcStep, files: seq<File>, at: Course, l: Link, r: Round, more: seq<Event>, sent: seq<byte>)
    returns (seg: seq<Event>)
    requires Means(step, files, at, l) && Plausible(step, l, r)
    ensures Carries(step, l, r, seg, more, sent) && Spells(seg, Reached(l, r))
    ensures Plain(l, r) ==> seg == Bytes(Reached(l, r))
  {
    hide R.Step, Means, Plausible, Spells, Bytes;
    if l.rx.Closed? {
      seg := [];
      BytesSpell([]);
      assert Bytes([]) == [] by { BytesNone([], []); }
    } else if l.wire == [] || r.fate == Lost {
      SilenceSegment(step, l.rx.at, l.calls, more, sent);
      seg := [Timeout];
      AnswersSpell([]);
    } else if r.fate == Intact {
      IntactSegment(step, files, at, l, r, more, sent);
      seg := Bytes(l.wire);
      BytesSpell(l.wire);
    } else {
      if l.rx.at.AwaitSecondEot? {
        SecondEotWire(step, files, at, l);
      }
      seg := DamageSegment(step, l, r, more, sent);
    }
  }

  /** A round whose packet arrives intact, or comes after the receiver has returned. */
  predicate Plain(l: Link, r: Round) {
    l.rx.Listening? ==> l.wire != [] && r.fate == Intact
  }

  ghost predicate AllPlain(step: CrcStep, files: seq<File>, heard: bool, rounds: seq<Round>) {
    forall i :: 0 <= i < |rounds| ==> Plain(PlayAll(step, files, heard, rounds[..i]), rounds[i])
  }

  lemma PlainPrefix(step: CrcStep, files: seq<File>, heard: bool, rounds: seq<Round>)
    requires rounds != []
    ensures var before := rounds[..|rounds| - 1];
      AllPlain(step, files, heard, rounds) ==>
        AllPlain(step, files, heard, before) && Plain(PlayAll(step, files, heard, before), rounds[|rounds| - 1])
  {
    hide PlayAll, Plain;
    var before := rounds[..|rounds| - 1];
    assert forall i :: 0 <= i < |before| ==> before[..i] == rounds[..i] && before[i] == rounds[i];
  }

  /** One round moves the receiver along its run. */
  lemma RoundIsTurn(step: CrcStep, files: seq<File>, l: Link, r: Round, seg: seq<Event>, more: seq<Event>,
                    sent: seq<byte>, out: (R.Status, World<R.Call>))
    requires T.Sensible(files, l.tx) && Carries(step, l, r, seg, more, sent)
    requires ReceiverAt(step, l.rx, sent, l.calls, seg + more, out)
    ensures var l' := Play(step, files, l, r);
      ReceiverAt(step, l'.rx, sent + Reply(step, l, r), l'.calls, more, out)
  {
    hide R.Step, Feed, Heard;
    if l.rx.Closed? {
      assert sent + [] == sent && seg + more == more;
    } else {
      R.StepProgress(step, l.rx.at, World(seg + more, sent, l.calls));
    }
  }

  /** For every run of rounds there is a script, whose bytes are just those that reach the receiver, on
      which ymodem_receive makes exactly the replies and storage calls of the rounds and is then where
      the rounds leave it; if every packet arrives intact the script is what the transmitter wrote. */
  lemma {:induction false} RoundsAreReceive(step: CrcStep, files: seq<File>, heard: bool, rounds: seq<Round>,
                                            more: seq<Event>)
    returns (script: seq<Event>)
    requires Sendable(files) && PlausibleRun(step, files, heard, rounds)
    ensures var l := PlayAll(step, files, heard, rounds);
      ReceiverAt(step, l.rx, Said(step, files, heard, rounds), l.calls, more,
                 R.Receive(step, World(script + more, [], [])))
    ensures Spells(script, Carried(step, files, heard, rounds))
    ensures AllPlain(step, files, heard, rounds) ==> script == Bytes(Carried(step, files, heard, rounds))
    decreases |rounds|
  {
    hide Means, Play, Plausible, PlausibleRun, ReceiverAt, Reply, R.Receive, Carries, Sendable, Spells, Reached, Bytes,
      AllPlain, Plain, Opened, CourseOf;
    if rounds == [] {
      script := [];
      ReceiveOpens(step, files, heard, more);
      BytesSpell([]);
      assert Bytes([]) == [] by { BytesNone([], []); }
    } else {
      var before, r := rounds[..|rounds| - 1], rounds[|rounds| - 1];
      PlausiblePrefix(step, files, heard, rounds);
      PlainPrefix(step, files, heard, rounds);
      CourseDecides(step, files, heard, before);
      var l, said := PlayAll(step, files, heard, before), Said(step, files, heard, before);
      var carried := Carried(step, files, heard, before);
      var seg := RoundSegment(step, files, CourseOf(BlockCounts(files), heard, before), l, r, more, said);
      script := RoundsAreReceive(step, files, heard, before, seg + more);
      SpellsConcat(script, carried, seg, Reached(l, r));
      BytesConcat(carried, Reached(l, r));
      assert script + (seg + more) == script + seg + more;
      script := script + seg;
      RoundIsTurn(step, files, l, r, seg, more, said, R.Receive(step, World(script + more, [], [])));
    }
  }

  lemma ReceiveOpens(step: CrcStep, files: seq<File>, heard: bool, more: seq<Event>)
    ensures var l := Opened(step, files, heard);
      ReceiverAt(step, l.rx, [CRC_REQUEST], l.calls, more, R.Receive(step, World([] + more, [], [])))
  {
    hide R.Run, Feed;
    assert [] + more == more && [] + [CRC_REQUEST] == [CRC_REQUEST];
  }

  // ----- the transmitter's run -----

  ghost predicate TransmitterAt(step: CrcStep, files: seq<File>, tx: T.Point, sent: seq<byte>, more: seq<Event>,
                                out: (T.Status, T.Wire))
    requires T.Sensible(files, tx)
  {
    if tx.Finished? then out.0 == tx.status && out.1.sent == sent
    else out == T.Run(step, files, tx, World(more, sent, []))
  }

  lemma NextBlockShifts(step: CrcStep, files: seq<File>, i: nat, offset: nat, block: byte, w: T.Wire)
    requires i < |files|
    ensures var (at0, w0) := T.NextBlock(step, files, i, offset, block, World([], [], []));
      T.NextBlock(step, files, i, offset, block, w) == (at0, World(w.script, w.sent + w0.sent, w.calls))
  {
    hide Frame, T.BlockAt;
    assert forall bs: seq<byte> :: [] + bs == bs && bs + [] == bs;
  }

  lemma StepShifts(step: CrcStep, files: seq<File>, at: T.Point, e: Event, w: T.Wire)
    requires T.Sensible(files, at)
    ensures var (at0, w0) := T.Step(step, files, at, e, World([], [], []));
      T.Step(step, files, at, e, w) == (at0, World(w.script, w.sent + w0.sent, w.calls))
  {
    hide Frame, T.BlockAt, T.HeaderBlock, T.NextBlock;
    if at.AwaitC2? {
      NextBlockShifts(step, files, at.idx, 0, 1, w);
    } else if at.AwaitAck? {
      var remaining := |files[at.idx].content| - at.offset;
      NextBlockShifts(step, files, at.idx, at.offset + Min(remaining, T.BlockSize(remaining)), Inc(at.block), w);
    }
    assert forall bs: seq<byte> :: [] + bs == bs && bs + [] == bs;
  }

  /** Reading one answer. */
  lemma AnswerIsStep(step: CrcStep, files: seq<File>, tx: T.Point, e: Event, sent: seq<byte>, more: seq<Event>,
                     out: (T.Status, T.Wire))
    requires T.Sensible(files, tx) && TransmitterAt(step, files, tx, sent, [e] + more, out)
    ensures var (tx', w) := T.Step(step, files, tx, e, World([], [], []));
      TransmitterAt(step, files, tx', sent + w.sent, more, out)
  {
    if tx.Finished? {
      assert sent + [] == sent;
    } else {
      hide T.Step;
      var w := World(more, sent, []);
      assert World([e] + more, sent, []).Leaves(Tail([e] + more)) == w;
      StepShifts(step, files, tx, e, w);
      var (tx', w') := T.Step(step, files, tx, e, w);
      assert out == T.Run(step, files, tx', w');
    }
  }

  lemma {:induction false} FeedIsRun(step: CrcStep, files: seq<File>, tx: T.Point, answers: seq<Event>, sent: seq<byte>,
                                     more: seq<Event>, out: (T.Status, T.Wire))
    requires T.Sensible(files, tx) && TransmitterAt(step, files, tx, sent, answers + more, out)
    ensures var (tx', wire) := Feed(step, files, tx, answers);
      TransmitterAt(step, files, tx', sent + wire, more, out)
    decreases |answers|
  {
    hide T.Step, TransmitterAt;
    if answers == [] {
      assert answers + more == more && sent + [] == sent;
    } else {
      var (tx1, w1) := T.Step(step, files, tx, answers[0], World([], [], []));
      var (tx2, wire2) := Feed(step, files, tx1, answers[1..]);
      assert answers + more == [answers[0]] + (answers[1..] + more);
      AnswerIsStep(step, files, tx, answers[0], sent, answers[1..] + more, out);
      FeedIsRun(step, files, tx1, answers[1..], sent + w1.sent, more, out);
      assert sent + w1.sent + wire2 == sent + (w1.sent + wire2);
    }
  }

  /** On the answers of a run of rounds ymodem_transmit writes exactly what the rounds put on the line and
      waits where they say. */
  lemma {:induction false} RoundsAreTransmit(step: CrcStep, files: seq<File>, heard: bool, rounds: seq<Round>,
                                             more: seq<Event>)
    ensures var l := PlayAll(step, files, heard, rounds);
      TransmitterAt(step, files, l.tx, Wrote(step, files, heard, rounds), more,
                    T.Transmit(step, files, World(Read(step, files, heard, rounds) + more, [], [])))
    decreases |rounds|
  {
    hide TransmitterAt, T.Transmit, Hear, Feed, Heard, Answers, Opened;
    if rounds == [] {
      TransmitOpens(step, files, heard, more);
    } else {
      var before, r := rounds[..|rounds| - 1], rounds[|rounds| - 1];
      var l := PlayAll(step, files, heard, before);
      var read, answers := Read(step, files, heard, before), Answers(Heard(Reply(step, l, r), r));
      RoundsAreTransmit(step, files, heard, before, answers + more);
      assert read + (answers + more) == read + answers + more;
      FeedIsRun(step, files, l.tx, answers, Wrote(step, files, heard, before), more,
                T.Transmit(step, files, World(read + answers + more, [], [])));
    }
  }

  lemma TransmitOpens(step: CrcStep, files: seq<File>, heard: bool, more: seq<Event>)
    ensures var l := Opened(step, files, heard);
      TransmitterAt(step, files, l.tx, l.wire, more,
                    T.Transmit(step, files, World((if heard then [Byte(CRC_REQUEST)] else []) + more, [], [])))
  {
    hide Feed, TransmitterAt;
    var answers := if heard then [Byte(CRC_REQUEST)] else [];
    var out := T.Transmit(step, files, World(answers + more, [], []));
    assert TransmitterAt(step, files, T.AwaitC(0, 0), [], answers + more, out) by {
      StartsWaiting(step, files, answers + more);
    }
    FeedIsRun(step, files, T.AwaitC(0, 0), answers, [], more, out);
    var wire := Opened(step, files, heard).wire;
    assert [] + wire == wire;
  }

  lemma StartsWaiting(step: CrcStep, files: seq<File>, script: seq<Event>)
    ensures TransmitterAt(step, files, T.AwaitC(0, 0), [], script, T.Transmit(step, files, World(script, [], [])))
  {
  }

  /** In silence ymodem_transmit never returns OK. */
  lemma {:induction false} SilentTransmitter(step: CrcStep, files: seq<File>, tx: T.Point, w: T.Wire)
    requires T.Sensible(files, tx) && w.script == [] && tx != T.Finished(T.Ok)
    ensures T.Run(step, files, tx, w).0 != T.Ok
    decreases T.Patience(tx)
  {
    if !tx.Finished? {
      hide Frame, T.BlockAt, T.HeaderBlock;
      assert w.Leaves(Tail(w.script)) == w;
      T.SilenceEnds(step, files, tx, w);
      var (tx', w') := T.Step(step, files, tx, Timeout, w);
      SilentTransmitter(step, files, tx', w');
    }
  }

  /** The two functions together, on the scripts of a run with enough good rounds, followed by silence:
      ymodem_transmit returns OK if and only if the faults do not fail the batch, and then so does
      ymodem_receive, with every file of the batch in storage. The scripts bring just the bytes that
      the rounds bring, of those that the other function sends. */
  lemma RunsDeliver(step: CrcStep, files: seq<File>, heard: bool, rounds: seq<Round>) returns (script: seq<Event>)
    requires Sendable(files) && PlausibleRun(step, files, heard, rounds)
    requires Goods(rounds) >= Needed(BlockCounts(files), heard)
    ensures Spells(script, Carried(step, files, heard, rounds))
    ensures Spells(Read(step, files, heard, rounds), Brought(step, files, heard, rounds))
    ensures var survives := CourseOf(BlockCounts(files), heard, rounds) != Failed;
      && (T.Transmit(step, files, World(Read(step, files, heard, rounds), [], [])).0 == T.Ok <==> survives)
      && (survives ==> Exchanged(step, files, script, Read(step, files, heard, rounds),
                                 Said(step, files, heard, rounds), Wrote(step, files, heard, rounds)))
    ensures AllPlain(step, files, heard, rounds) ==> script == Bytes(Carried(step, files, heard, rounds))
  {
    hide PlayAll, R.Receive, T.Transmit, Said, Read, Brought, Carried, Wrote, CourseOf, PlausibleRun, Spells,
      BatchCalls, Needed, AllPlain, Goods;
    ReadSpells(step, files, heard, rounds);
    DeliveredExactlyWhen(step, files, heard, rounds);
    script := RoundsAreReceive(step, files, heard, rounds, []);
    RoundsAreTransmit(step, files, heard, rounds, []);
    var read, wrote := Read(step, files, heard, rounds), Wrote(step, files, heard, rounds);
    assert script + [] == script && read + [] == read;
    var l := PlayAll(step, files, heard, rounds);
    if l.tx != T.Finished(T.Ok) {
      SilentTransmitter(step, files, l.tx, World([], wrote, []));
    }
  }

  /** On `down` ymodem_receive says `said` and returns OK with the batch in storage, on `up`
      ymodem_transmit writes `wrote` and returns OK. */
  predicate Exchanged(step: CrcStep, files: seq<File>, down: seq<Event>, up: seq<Event>, said: seq<byte>,
                      wrote: seq<byte>)
  {
    var (rxStatus, rx) := R.Receive(step, World(down, [], []));
    var (txStatus, tx) := T.Transmit(step, files, World(up, [], []));
    && rxStatus == R.Ok && rx.sent == said && rx.calls == AllCalls(files)
    && txStatus == T.Ok && tx.sent == wrote
  }

  // ----- a line without faults -----

  function GoodRounds(n: nat): seq<Round> {
    if n == 0 then [] else GoodRounds(n - 1) + [Round(Intact, [])]
  }

  /** The points that a batch without faults comes through. */
  predicate Straight(at: Course) {
    match at
    case Heading(_, h) => h == 0
    case Sending(_, _, t, c, held) => t == 0 && c == 0 && !held
    case Ending(_, c) => c == 0
    case Closing(_) => true
    case Done => true
    case _ => false
  }

  /** Without faults every round brings the batch exactly one round closer to its end. */
  lemma {:induction false} StraightCourse(blocks: seq<nat>, n: nat)
    requires n <= BatchRounds(blocks, 0)
    ensures var at := CourseOf(blocks, true, GoodRounds(n));
      && Straight(at) && Sound(blocks, at) && RoundsLeft(blocks, at) == BatchRounds(blocks, 0) - n
      && (at == Done <==> n == BatchRounds(blocks, 0))
  {
    hide BatchRounds, CourseOf, RoundsLeft, Sound, Straight, Next;
    if n == 0 {
      StraightStarts(blocks);
    } else {
      StraightCourse(blocks, n - 1);
      CourseGoesOn(blocks, n);
      StraightNext(blocks, CourseOf(blocks, true, GoodRounds(n - 1)));
    }
  }

  lemma StraightStarts(blocks: seq<nat>)
    ensures var at := CourseOf(blocks, true, GoodRounds(0));
      Straight(at) && Sound(blocks, at) && RoundsLeft(blocks, at) == BatchRounds(blocks, 0) && at != Done
  {
  }

  lemma CourseGoesOn(blocks: seq<nat>, n: nat)
    requires n > 0
    ensures CourseOf(blocks, true, GoodRounds(n))
         == Next(blocks, CourseOf(blocks, true, GoodRounds(n - 1)), Round(Intact, []))
  {
    hide Next;
    assert GoodRounds(n)[..|GoodRounds(n)| - 1] == GoodRounds(n - 1);
  }

  lemma StraightNext(blocks: seq<nat>, at: Course)
    requires Straight(at) && Sound(blocks, at) && at != Done
    ensures var at' := Next(blocks, at, Round(Intact, []));
      && Straight(at') && Sound(blocks, at') && RoundsLeft(blocks, at') + 1 == RoundsLeft(blocks, at)
      && (at' == Done <==> RoundsLeft(blocks, at') == 0)
  {
  }

  lemma {:induction false} GoodCount(n: nat)
    ensures |GoodRounds(n)| == n && Goods(GoodRounds(n)) == n
  {
    if n > 0 {
      GoodCount(n - 1);
      assert GoodRounds(n)[..|GoodRounds(n)| - 1] == GoodRounds(n - 1);
    }
  }

  lemma {:induction false} GoodPrefix(n: nat, i: nat)
    requires i <= n
    ensures |GoodRounds(n)| == n && GoodRounds(n)[..i] == GoodRounds(i)
    ensures i < n ==> GoodRounds(n)[i] == Round(Intact, [])
    decreases n
  {
    if n > 0 {
      GoodPrefix(n - 1, if i < n then i else n - 1);
      if i < n {
        assert GoodRounds(n)[..i] == GoodRounds(n - 1)[..i];
      }
    }
  }

  lemma GoodPlausible(step: CrcStep, files: seq<File>, n: nat)
    ensures PlausibleRun(step, files, true, GoodRounds(n))
  {
    hide PlayAll, Plausible, GoodRounds;
    var rounds := GoodRounds(n);
    GoodPrefix(n, n);
    forall i | 0 <= i < |rounds| ensures Plausible(step, PlayAll(step, files, true, rounds[..i]), rounds[i]) {
      GoodPrefix(n, i);
      FaultlessPlausible(step, PlayAll(step, files, true, rounds[..i]));
    }
  }

  lemma FaultlessPlausible(step: CrcStep, l: Link)
    ensures Plausible(step, l, Round(Intact, []))
  {
    hide Detectable;
  }

  /** On the straight course a packet is on the line until the batch is done, and it is answered. */
  lemma StraightReplies(step: CrcStep, files: seq<File>, at: Course, l: Link)
    requires Sendable(files) && Means(step, files, at, l) && Straight(at) && at != Done
    ensures l.rx.Listening? && l.wire != [] && Reply(step, l, Round(Intact, [])) != []
  {
    hide Hear, Frame, T.BlockAt, T.HeaderBlock, BatchCalls, Begun, InfoOf, Block0, Num;
    match at
    case Heading(i, h) =>
      FrameOccurs(step, 0, T.HeaderBlock(files, i));
      HeadingReplies(step, files, i, l.calls);
    case Sending(i, k, _, _, _) =>
      FrameOccurs(step, Num(k + 1), T.BlockAt(files[i].content, 1024 * k));
      BlockArrives(step, files, at, l);
    case Ending(_, _) => EotHeard(step, l.rx.at, l.calls);
    case Closing(_) => EotHeard(step, l.rx.at, l.calls);
  }

  lemma HeadingReplies(step: CrcStep, files: seq<File>, i: nat, calls: seq<R.Call>)
    requires Sendable(files) && i <= |files|
    ensures Hear(step, Listening(R.AwaitHeader(0)), calls, Bytes(Frame(step, true, 0, T.HeaderBlock(files, i)))).1 != []
  {
    hide Hear, Frame, Block0, InfoOf;
    SendableName(files, i);
    if i < |files| {
      assert files[i] in files;
      HeaderHeard(step, files[i], 0, calls);
    } else {
      EndHeard(step, 0, calls);
    }
  }

  lemma HeardClearly(reply: seq<byte>)
    ensures Heard(reply, Round(Intact, [])) == reply
  {
    if reply != [] {
      HeardClearly(reply[..|reply| - 1]);
      assert reply == reply[..|reply| - 1] + [reply[|reply| - 1]];
    }
  }

  /** Each function reads just what the other one writes. */
  ghost predicate Undisturbed(step: CrcStep, files: seq<File>, rounds: seq<Round>) {
    && AllPlain(step, files, true, rounds)
    && Read(step, files, true, rounds) == Bytes(Said(step, files, true, rounds))
    && Wrote(step, files, true, rounds) == Carried(step, files, true, rounds) + PlayAll(step, files, true, rounds).wire
  }

  lemma UndisturbedOn(step: CrcStep, files: seq<File>, before: seq<Round>)
    requires Undisturbed(step, files, before)
    requires var l := PlayAll(step, files, true, before);
      l.rx.Listening? && l.wire != [] && Reply(step, l, Round(Intact, [])) != []
    ensures Undisturbed(step, files, before + [Round(Intact, [])])
  {
    hide PlayAll, Reply, Heard, Opened, AllPlain, Bytes;
    var l, r := PlayAll(step, files, true, before), Round(Intact, []);
    assert (before + [r])[..|before|] == before;
    HeardClearly(Reply(step, l, r));
    BytesConcat(Said(step, files, true, before), Reply(step, l, r));
    PlainExtends(step, files, before, r);
  }

  lemma OpenedUndisturbed(step: CrcStep, files: seq<File>)
    ensures Undisturbed(step, files, [])
  {
    hide Opened;
    var wire := Opened(step, files, true).wire;
    assert [] + wire == wire;
    assert Bytes([CRC_REQUEST]) == [Byte(CRC_REQUEST)];
  }

  lemma {:induction false} StraightLine(step: CrcStep, files: seq<File>, n: nat)
    requires Sendable(files) && n <= BatchRounds(BlockCounts(files), 0)
    ensures Undisturbed(step, files, GoodRounds(n))
  {
    hide Means, PlayAll, Reply, CourseOf, BatchRounds, Straight, Undisturbed, RoundsLeft, Sound, PlausibleRun;
    if n == 0 {
      OpenedUndisturbed(step, files);
    } else {
      var before := GoodRounds(n - 1);
      StraightLine(step, files, n - 1);
      GoodPlausible(step, files, n - 1);
      CourseDecides(step, files, true, before);
      StraightCourse(BlockCounts(files), n - 1);
      StraightReplies(step, files, CourseOf(BlockCounts(files), true, before), PlayAll(step, files, true, before));
      UndisturbedOn(step, files, before);
    }
  }

  lemma PlainExtends(step: CrcStep, files: seq<File>, before: seq<Round>, r: Round)
    requires AllPlain(step, files, true, before) && Plain(PlayAll(step, files, true, before), r)
    ensures AllPlain(step, files, true, before + [r])
  {
    hide PlayAll, Plain;
    var rounds := before + [r];
    forall i | 0 <= i < |rounds| ensures Plain(PlayAll(step, files, true, rounds[..i]), rounds[i]) {
      assert rounds[..i] == before[..i];
      assert before[..|before|] == before;
    }
  }

  /** For every batch there are two byte strings that the two C functions send each other: given what the
      other sends, each sends its own and returns OK, and the batch is in storage. */
  lemma ClosedLoop(step: CrcStep, files: seq<File>) returns (up: seq<byte>, down: seq<byte>)
    requires Sendable(files)
    ensures Exchanged(step, files, Bytes(down), Bytes(up), up, down)
  {
    hide PlayAll, Said, Read, Wrote, Carried, CourseOf, PlausibleRun, Spells, BatchCalls, AllPlain, Goods, Exchanged,
      BatchRounds, GoodRounds;
    var n := BatchRounds(BlockCounts(files), 0);
    var rounds := GoodRounds(n);
    GoodCount(n);
    GoodPlausible(step, files, n);
    StraightLine(step, files, n);
    StraightCourse(BlockCounts(files), n);
    CourseDecides(step, files, true, rounds);
    up, down := Said(step, files, true, rounds), Wrote(step, files, true, rounds);
    var script := RunsDeliver(step, files, true, rounds);
    var carried := Carried(step, files, true, rounds);
    assert carried + [] == carried;
  }
}
