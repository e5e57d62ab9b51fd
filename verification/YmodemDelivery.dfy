/** When a YMODEM batch is delivered over a faulty line: the course of the faults says where the two
    functions are and what storage has been told, and so whether both return OK. */
module YmodemDelivery {
  import opened Serial
  import opened Checks
  import opened Metadata
  import opened Numerals
  import opened XmodemFrames
  import opened YmodemBlock0
  import opened YmodemStorage
  import opened YmodemLink
  import opened YmodemCourse
  import R = YmodemReceiver
  import T = YmodemTransmitter

  // ----- what a course means -----

  function BlockCounts(files: seq<File>): (blocks: seq<nat>)
    ensures |blocks| == |files| && forall i :: 0 <= i < |files| ==> blocks[i] == Blocks(files[i].content)
  {
    seq(|files|, i requires 0 <= i < |files| => Blocks(files[i].content))
  }

  predicate AtFile(files: seq<File>, i: nat, c: nat, rx: Ear) {
    && i < |files| && c <= R.MAX_RETRIES
    && rx.Listening? && rx.at.AwaitPacket? && rx.at.info == InfoOf(files[i]) && rx.at.retries == c
  }

  /** The receiver before block `k` of a file, or when it holds that block. */
  function Ready(f: File, k: nat, c: nat, held: bool): Ear
    requires 1024 * k < |f.content|
  {
    if held then
      Listening(R.AwaitPacket(InfoOf(f), Num(k + 2), 1024 * k + |T.BlockAt(f.content, 1024 * k)|, c))
    else Listening(R.AwaitPacket(InfoOf(f), Num(k + 1), 1024 * k, c))
  }

  /** The link at a point of its course: both ends, the line, and what storage has been told. In
      particular both ends are in the same file, and before each block the receiver either expects
      it, at just this offset, or holds it. */
  predicate Means(step: CrcStep, files: seq<File>, at: Course, l: Link) {
    match at
    case Asking(i, t, h) =>
      && i <= |files| && t < T.MAX_RETRIES && h < R.MAX_RETRIES
      && l == Link(T.AwaitC(i, t), [], Listening(R.AwaitHeader(h)), BatchCalls(files, i))
    case Unsure(i) =>
      && 0 < i <= |files|
      && l == Link(T.AwaitC(i, 0), [], Listening(R.AwaitSecondEot(InfoOf(files[i - 1]))), Complete(files, i - 1))
    case Heading(i, h) =>
      && i <= |files| && h < R.MAX_RETRIES
      && l == Link(T.AwaitAck0(i), Frame(step, true, 0, T.HeaderBlock(files, i)), Listening(R.AwaitHeader(h)),
                   BatchCalls(files, i))
    case Sending(i, k, t, c, held) =>
      && i < |files| && 1024 * k < |files[i].content| && t < T.MAX_RETRIES && c <= R.MAX_RETRIES
      && var f := files[i];
      && l == Link(T.AwaitAck(i, 1024 * k, Num(k + 1), t),
                   Frame(step, true, Num(k + 1), T.BlockAt(f.content, 1024 * k)),
                   Ready(f, k, c, held), BatchCalls(files, i) + Begun(f, if held then k + 1 else k))
    case Ending(i, c) =>
      AtFile(files, i, c, l.rx) && l.tx == T.AwaitNak(i) && l.wire == [EOT] && l.calls == Complete(files, i)
    case Missed(i, c) =>
      AtFile(files, i, c, l.rx) && l.tx == T.AwaitLast(i) && l.wire == [EOT] && l.calls == Complete(files, i)
    case Closing(i) =>
      && i < |files|
      && l == Link(T.AwaitLast(i), [EOT], Listening(R.AwaitSecondEot(InfoOf(files[i]))), Complete(files, i))
    case Done => l == Link(T.Finished(T.Ok), [], Closed(R.Ok), AllCalls(files))
    case Failed => Hopeless(l) && Told(files, l)
  }

  /** What storage has been told is true of the batch: a prefix of its calls, followed at most by the
      end of a file with an error. */
  predicate Told(files: seq<File>, l: Link) {
    match l.rx
    case Closed(_) =>
      || l.calls <= AllCalls(files)
      || (&& l.calls != [] && l.calls[..|l.calls| - 1] <= AllCalls(files)
          && l.calls[|l.calls| - 1].FileEnd? && l.calls[|l.calls| - 1].status != R.Ok)
    case Listening(at) =>
      (if at.AwaitSecondEot? then l.calls + [R.FileEnd(at.info, R.Ok)] else l.calls) <= AllCalls(files)
  }

  /** The transmitter has not returned OK, and nothing is on the line any more that could still help:
      one end has returned, or the transmitter waits for a 'C' while the receiver waits for a
      packet. */
  predicate Hopeless(l: Link) {
    && l.tx != T.Finished(T.Ok)
    && (l.rx.Closed?
        || (l.wire == [] && (l.tx.Finished? || ((l.tx.AwaitC? || l.tx.AwaitC2?) && l.rx.at.AwaitPacket?))))
  }

  /** The round takes the link where it takes the course. */
  ghost predicate Follows(step: CrcStep, files: seq<File>, at: Course, l: Link, r: Round)
    requires T.Sensible(files, l.tx)
  {
    Means(step, files, Next(BlockCounts(files), at, r), Play(step, files, l, r))
  }

  lemma AlteredEchoes(step: CrcStep, l: Link, r: Round)
    requires Plausible(step, l, r)
    ensures forall k: nat {:trigger EchoAt(r, k)} :: EchoAt(r, k).Altered? ==>
              EchoAt(r, k).b != ACK && EchoAt(r, k).b != CRC_REQUEST
  {
    hide Detectable;
  }

  /** What a reply of one byte, or of two, makes of the link. */
  lemma PlayOne(step: CrcStep, files: seq<File>, l: Link, r: Round, rx: Ear, b: byte, calls: seq<R.Call>)
    requires T.Sensible(files, l.tx)
    requires Hear(step, l.rx, l.calls, Arrival(l.wire, r.fate)) == (rx, [b], calls)
    ensures var (tx, w) := T.Step(step, files, l.tx, AnswerTo(b, EchoAt(r, 0)), World([], [], []));
      Play(step, files, l, r) == Link(tx, w.sent, rx, calls)
  {
    hide T.Step, Hear, Feed, Heard, Answers;
    OneAnswer(b, r);
    FeedOne(step, files, l.tx, AnswerTo(b, EchoAt(r, 0)));
  }

  lemma PlayTwo(step: CrcStep, files: seq<File>, l: Link, r: Round, rx: Ear, a: byte, b: byte, calls: seq<R.Call>)
    requires T.Sensible(files, l.tx)
    requires Hear(step, l.rx, l.calls, Arrival(l.wire, r.fate)) == (rx, [a, b], calls)
    ensures var first, second := EchoAt(r, 0), EchoAt(r, 1);
      var l' := Play(step, files, l, r);
      && l'.rx == rx && l'.calls == calls
      && if first == Gone || second == Gone then
           var e := if first == Gone then AnswerTo(b, second) else AnswerTo(a, first);
           var (tx, w) := T.Step(step, files, l.tx, e, World([], [], []));
           l'.tx == tx && l'.wire == w.sent
         else
           var (tx1, w1) := T.Step(step, files, l.tx, AnswerTo(a, first), World([], [], []));
           var (tx2, w2) := T.Step(step, files, tx1, AnswerTo(b, second), World([], [], []));
           l'.tx == tx2 && l'.wire == w1.sent + w2.sent
  {
    hide T.Step, Hear, Feed, Heard, Answers;
    var first, second := EchoAt(r, 0), EchoAt(r, 1);
    TwoAnswers(a, b, r);
    FeedOne(step, files, l.tx, AnswerTo(a, first));
    FeedOne(step, files, l.tx, AnswerTo(b, second));
    FeedTwo(step, files, l.tx, AnswerTo(a, first), AnswerTo(b, second));
  }

  /** The transmitter's reactions while it waits for 'C', and to the answers to its EOTs. */
  lemma WaitingStep(step: CrcStep, files: seq<File>, i: nat, t: nat, e: Event)
    ensures var wire := Frame(step, true, 0, T.HeaderBlock(files, i));
      T.Step(step, files, T.AwaitC(i, t), e, World([], [], []))
      == if e == Byte(CRC_REQUEST) then (T.AwaitAck0(i), World([], wire, []))
         else (if e == Byte(CAN) then T.Finished(T.Cancelled)
               else if t + 1 < T.MAX_RETRIES then T.AwaitC(i, t + 1) else T.Finished(T.TimedOut), World([], [], []))
  {
    hide Frame, T.HeaderBlock;
    var wire := Frame(step, true, 0, T.HeaderBlock(files, i));
    assert [] + wire == wire;
  }

  lemma FinishedStep(step: CrcStep, files: seq<File>, status: T.Status, e: Event)
    ensures T.Step(step, files, T.Finished(status), e, World([], [], [])) == (T.Finished(status), World([], [], []))
  {
  }

  lemma NothingBefore(wire: seq<byte>)
    ensures [] + wire == wire
  {
  }

  lemma EotStep(step: CrcStep, files: seq<File>, i: nat, e: Event)
    ensures T.Step(step, files, T.AwaitNak(i), e, World([], [], []))
         == if e == Byte(NAK) then (T.AwaitLast(i), World([], [EOT], [])) else (T.AwaitC(i + 1, 0), World([], [], []))
    ensures T.Step(step, files, T.AwaitLast(i), e, World([], [], [])) == (T.AwaitC(i + 1, 0), World([], [], []))
  {
    assert [] + [EOT] == [EOT];
  }

  lemma BatchTold(files: seq<File>, i: nat)
    requires i <= |files|
    ensures BatchCalls(files, i) <= AllCalls(files)
  {
    hide BatchCalls;
    BatchPrefix(files, i, |files|);
  }

  // ----- rounds while the transmitter waits for 'C' -----

  /** The receiver asks for a header that the transmitter is not sending. */
  lemma AskingRound(step: CrcStep, files: seq<File>, at: Course, l: Link, r: Round)
    requires Means(step, files, at, l) && Plausible(step, l, r) && at.Asking?
    ensures Follows(step, files, at, l, r)
  {
    hide Frame, T.HeaderBlock, Hear, Play, Detectable, BatchCalls, Begun, AllCalls, EchoAt, InfoOf, R.Step;
    UnheardTurn(step, l, r);
    AlteredEchoes(step, l, r);
    BatchTold(files, at.i);
    if at.h + 1 >= R.MAX_RETRIES {
      PlayTwo(step, files, l, r, Closed(R.TimedOut), CRC_REQUEST, CAN, l.calls);
    } else {
      hide T.Step;
      PlayOne(step, files, l, r, Listening(R.AwaitHeader(at.h + 1)), CRC_REQUEST, l.calls);
      WaitingStep(step, files, at.i, at.t, AnswerTo(CRC_REQUEST, EchoAt(r, 0)));
    }
  }

  /** Where two answers, or one, take a transmitter that begins to wait for 'C'. */
  lemma FreshReads(step: CrcStep, files: seq<File>, i: nat, a: Event, b: Event)
    ensures var wire := Frame(step, true, 0, T.HeaderBlock(files, i));
      var (tx1, w1) := T.Step(step, files, T.AwaitC(i, 0), a, World([], [], []));
      var (tx2, w2) := T.Step(step, files, tx1, b, World([], [], []));
      a != Byte(CRC_REQUEST) ==>
        && w1.sent == []
        && (tx2, w2.sent) == if a == Byte(CAN) then (T.Finished(T.Cancelled), [])
                             else if b == Byte(CRC_REQUEST) then (T.AwaitAck0(i), wire)
                             else if b == Byte(CAN) then (T.Finished(T.Cancelled), [])
                             else (T.AwaitC(i, 2), [])
  {
    hide Frame, T.HeaderBlock, T.Step;
    WaitingStep(step, files, i, 0, a);
    WaitingStep(step, files, i, 1, b);
    FinishedStep(step, files, T.Cancelled, b);
  }

  /** Nothing follows the first EOT: the receiver takes the silence for the second. */
  lemma UnsurePlays(step: CrcStep, files: seq<File>, at: Course, l: Link, r: Round)
    requires Means(step, files, at, l) && Plausible(step, l, r) && at.Unsure?
    ensures var i, l' := at.i, Play(step, files, l, r);
      && l'.rx == Listening(R.AwaitHeader(0)) && l'.calls == BatchCalls(files, i)
      && (l'.tx, l'.wire) == match Next(BlockCounts(files), at, r)
                             case Heading(_, _) => (T.AwaitAck0(i), Frame(step, true, 0, T.HeaderBlock(files, i)))
                             case Asking(_, t, _) => (T.AwaitC(i, t), [])
                             case _ => (T.Finished(T.Cancelled), [])
  {
    hide Frame, T.HeaderBlock, Hear, Play, Detectable, BatchCalls, Begun, AllCalls, EchoAt, InfoOf, T.Step, R.Step;
    var first, second := AnswerTo(ACK, EchoAt(r, 0)), AnswerTo(CRC_REQUEST, EchoAt(r, 1));
    UnheardTurn(step, l, r);
    AlteredEchoes(step, l, r);
    BatchGrows(files, at.i - 1);
    PlayTwo(step, files, l, r, Listening(R.AwaitHeader(0)), ACK, CRC_REQUEST, BatchCalls(files, at.i));
    WaitingStep(step, files, at.i, 0, first);
    WaitingStep(step, files, at.i, 0, second);
    FreshReads(step, files, at.i, first, second);
    NothingBefore(Frame(step, true, 0, T.HeaderBlock(files, at.i)));
  }

  lemma UnsureRound(step: CrcStep, files: seq<File>, at: Course, l: Link, r: Round)
    requires Means(step, files, at, l) && Plausible(step, l, r) && at.Unsure?
    ensures Follows(step, files, at, l, r)
  {
    hide Frame, T.HeaderBlock, Play, Plausible, BatchCalls, Begun, AllCalls, EchoAt, InfoOf;
    UnsurePlays(step, files, at, l, r);
    BatchTold(files, at.i);
  }

  // ----- Block 0 -----

  /** The receiver's turn on the Block 0 of a file. */
  lemma HeaderHeard(step: CrcStep, f: File, retries: nat, calls: seq<R.Call>)
    requires Sendable([f])
    ensures Hear(step, Listening(R.AwaitHeader(retries)), calls, Bytes(Frame(step, true, 0, Block0(f))))
      == (Listening(R.AwaitPacket(InfoOf(f), 1, 0, retries)), [ACK, CRC_REQUEST], calls + [R.FileStart(InfoOf(f))])
  {
    hide Frame, Block0, ParseBlock0, R.Step;
    SendableName([f], 0);
    Block0RoundTrip(f);
    HearFrame(step, R.AwaitHeader(retries), calls, 0, Block0(f));
    assert Block0(f)[..BLOCK0] == Block0(f) && InfoOf(f).name != [];
    assert [] + [ACK, CRC_REQUEST] == [ACK, CRC_REQUEST];
  }

  lemma EndHeard(step: CrcStep, retries: nat, calls: seq<R.Call>)
    ensures Hear(step, Listening(R.AwaitHeader(retries)), calls, Bytes(Frame(step, true, 0, END_OF_BATCH)))
         == (Closed(R.Ok), [ACK], calls)
  {
    hide Frame, R.Step;
    HearFrame(step, R.AwaitHeader(retries), calls, 0, END_OF_BATCH);
    assert END_OF_BATCH[..BLOCK0] == END_OF_BATCH;
    assert [] + [ACK] == [ACK];
  }

  lemma FileBegins(f: File, calls: seq<R.Call>)
    ensures calls + [R.FileStart(InfoOf(f))] == calls + Begun(f, 0)
    ensures f.content == [] ==> Blocks(f.content) == 0
  {
  }

  /** The transmitter's reactions to the two answers to the Block 0 of a file. */
  lemma HeaderReads(step: CrcStep, files: seq<File>, i: nat, a: Event, b: Event)
    requires i < |files| && !BatchOver(files, i)
    ensures T.Step(step, files, T.AwaitAck0(i), a, World([], [], []))
         == (if a == Byte(ACK) then T.AwaitC2(i) else T.Finished(T.TimedOut), World([], [], []))
    ensures T.Step(step, files, T.AwaitC2(i), b, World([], [], []))
         == if b == Byte(CRC_REQUEST) then T.NextBlock(step, files, i, 0, 1, World([], [], []))
            else (T.Finished(T.TimedOut), World([], [], []))
  {
    hide T.NextBlock;
  }

  /** A Block 0 that arrives, and its two replies. */
  lemma HeaderArrives(step: CrcStep, files: seq<File>, at: Course, l: Link, r: Round)
    requires Sendable(files) && Means(step, files, at, l) && Plausible(step, l, r)
    requires at.Heading? && at.i < |files| && r.fate == Intact
    ensures Follows(step, files, at, l, r)
  {
    hide Frame, Block0, Hear, Play, Detectable, BatchCalls, Begun, AllCalls, EchoAt, T.NextBlock, InfoOf, R.Step,
      T.Step, BatchOver;
    var i, f := at.i, files[at.i];
    var first, second := AnswerTo(ACK, EchoAt(r, 0)), AnswerTo(CRC_REQUEST, EchoAt(r, 1));
    assert f in files;
    SendableName(files, i);
    HeaderHeard(step, f, at.h, l.calls);
    AlteredEchoes(step, l, r);
    FileBegins(f, BatchCalls(files, i));
    BegunPrefix(files, i, 0);
    FirstBlock(step, files, i);
    PlayTwo(step, files, l, r, Listening(R.AwaitPacket(InfoOf(f), 1, 0, at.h)), ACK, CRC_REQUEST,
            BatchCalls(files, i) + Begun(f, 0));
    HeaderReads(step, files, i, first, second);
    HeaderReads(step, files, i, second, second);
    FinishedStep(step, files, T.TimedOut, second);
    NothingBefore(T.NextBlock(step, files, i, 0, 1, World([], [], [])).1.sent);
    assert Num(1) == 1;
  }

  /** The Block 0 that ends the batch. */
  lemma EndArrives(step: CrcStep, files: seq<File>, at: Course, l: Link, r: Round)
    requires Sendable(files) && Means(step, files, at, l) && Plausible(step, l, r)
    requires at.Heading? && at.i == |files| && r.fate == Intact
    ensures Follows(step, files, at, l, r)
  {
    hide Frame, Hear, Play, Detectable, BatchCalls, EchoAt;
    SendableName(files, |files|);
    EndHeard(step, at.h, l.calls);
    AlteredEchoes(step, l, r);
    PlayOne(step, files, l, r, Closed(R.Ok), ACK, l.calls);
  }

  /** A Block 0 that does not arrive: the transmitter takes the receiver's 'C', or silence, for a refusal. */
  lemma HeaderLost(step: CrcStep, files: seq<File>, at: Course, l: Link, r: Round)
    requires Means(step, files, at, l) && Plausible(step, l, r) && at.Heading? && r.fate != Intact
    ensures Follows(step, files, at, l, r)
  {
    hide Frame, T.HeaderBlock, Hear, Play, Detectable, BatchCalls, Begun, AllCalls, EchoAt, InfoOf, R.Step;
    UnheardTurn(step, l, r);
    AlteredEchoes(step, l, r);
    BatchTold(files, at.i);
    FrameOccurs(step, 0, T.HeaderBlock(files, at.i));
    if at.h + 1 >= R.MAX_RETRIES {
      PlayTwo(step, files, l, r, Closed(R.TimedOut), CRC_REQUEST, CAN, l.calls);
    } else {
      PlayOne(step, files, l, r, Listening(R.AwaitHeader(at.h + 1)), CRC_REQUEST, l.calls);
    }
  }

  /** A receiver of a file that is not sent an intact packet tells storage nothing or an error. */
  lemma ShrugTold(files: seq<File>, at: R.Point, calls: seq<R.Call>, silence: bool, l: Link)
    requires at.AwaitPacket? && calls <= AllCalls(files)
    requires var (rx, _, calls') := Shrug(at, calls, silence); l.rx == rx && l.calls == calls'
    ensures Told(files, l)
  {
    hide AllCalls;
  }

  lemma FrameOccurs(step: CrcStep, block: byte, payload: seq<byte>)
    ensures Frame(step, true, block, payload) != []
  {
  }

  // ----- data blocks -----

  /** A block that the receiver expects is written at the offset both ends agree on, cut to the
      file's size. */
  lemma BlockHeard(step: CrcStep, f: File, k: nat, retries: nat, calls: seq<R.Call>)
    requires 1024 * k < |f.content| <= SIZE_MAX
    ensures var payload := T.BlockAt(f.content, 1024 * k);
      Hear(step, Listening(R.AwaitPacket(InfoOf(f), Num(k + 1), 1024 * k, retries)), calls,
           Bytes(Frame(step, true, Num(k + 1), payload)))
      == (Listening(R.AwaitPacket(InfoOf(f), Num(k + 2), 1024 * k + |payload|, 0)), [ACK],
          calls + [DataCall(f.content, k)])
  {
    hide Frame, T.BlockAt, R.Step, R.Store, InfoOf;
    var at := R.AwaitPacket(InfoOf(f), Num(k + 1), 1024 * k, retries);
    HearFrame(step, at, calls, Num(k + 1), T.BlockAt(f.content, 1024 * k));
    BlockStored(f, k, calls);
    NumSteps(k + 1);
    assert [] + [ACK] == [ACK];
  }

  /** A block that it holds is acknowledged again. */
  lemma RepeatHeard(step: CrcStep, at: R.Point, block: byte, payload: seq<byte>, calls: seq<R.Call>)
    requires at.AwaitPacket? && at.expected == Inc(block) && (|payload| == 128 || |payload| == 1024)
    ensures Hear(step, Listening(at), calls, Bytes(Frame(step, true, block, payload))) == (Listening(at), [ACK], calls)
  {
    hide Frame, R.Step, R.Store;
    HearFrame(step, at, calls, block, payload);
    assert [] + [ACK] == [ACK];
  }

  /** After an intact block the receiver holds it, whether it did before or not. */
  lemma BlockArrives(step: CrcStep, files: seq<File>, at: Course, l: Link)
    requires Sendable(files) && Means(step, files, at, l) && at.Sending?
    ensures var f := files[at.i];
      Hear(step, l.rx, l.calls, Bytes(l.wire))
      == (Ready(f, at.k, if at.held then at.c else 0, true), [ACK], BatchCalls(files, at.i) + Begun(f, at.k + 1))
  {
    hide Frame, T.BlockAt, Hear, InfoOf, Begun, DataCall, BatchCalls, Num;
    var f := files[at.i];
    assert f in files;
    NumSteps(at.k + 1);
    if at.held {
      RepeatHeard(step, l.rx.at, Num(at.k + 1), T.BlockAt(f.content, 1024 * at.k), l.calls);
    } else {
      BlockHeard(step, f, at.k, at.c, l.calls);
      BegunGrows(f, at.k, BatchCalls(files, at.i));
    }
  }

  lemma NextThousand(k: nat, size: nat)
    ensures (1024 * (k + 1)) / 1024 == k + 1
    ensures 1024 * k < size <= 1024 * (k + 1) ==> (size + 1023) / 1024 == k + 1
  {
  }

  lemma FullBlock(content: seq<byte>, k: nat)
    requires 1024 * k < |content|
    ensures 1024 * (k + 1) < |content| ==> |T.BlockAt(content, 1024 * k)| == 1024
  {
  }

  lemma BlockTold(files: seq<File>, i: nat, k: nat)
    requires i < |files| && 1024 * k < |files[i].content|
    ensures BatchCalls(files, i) + Begun(files[i], k) <= AllCalls(files)
    ensures BatchCalls(files, i) + Begun(files[i], k + 1) <= AllCalls(files)
  {
    hide BatchCalls, Begun, AllCalls;
    BegunPrefix(files, i, k);
    BegunPrefix(files, i, k + 1);
  }

  /** An acknowledgement makes the transmitter send what follows the block. */
  lemma BlockAcked(step: CrcStep, files: seq<File>, at: Course, l: Link, r: Round)
    requires Sendable(files) && Means(step, files, at, l) && Plausible(step, l, r)
    requires at.Sending? && r.fate == Intact && EchoAt(r, 0) == Clear
    ensures Follows(step, files, at, l, r)
  {
    hide Frame, T.BlockAt, Hear, Play, InfoOf, Begun, BatchCalls, Num, T.NextBlock, EchoAt, Detectable, R.Step;
    var i, k, c := at.i, at.k, if at.held then at.c else 0;
    BlockArrives(step, files, at, l);
    FollowingBlock(step, files, i, k);
    PlayOne(step, files, l, r, Ready(files[i], k, c, true), ACK, BatchCalls(files, i) + Begun(files[i], k + 1));
    NextThousand(k, |files[i].content|);
    FullBlock(files[i].content, k);
  }

  /** Without it the transmitter repeats the block, as long as it may. */
  lemma BlockRepeated(step: CrcStep, files: seq<File>, at: Course, l: Link, r: Round, rx: Ear, b: byte,
                      calls: seq<R.Call>)
    requires Means(step, files, at, l) && at.Sending? && AnswerTo(b, EchoAt(r, 0)) != Byte(ACK)
    requires Hear(step, l.rx, l.calls, Arrival(l.wire, r.fate)) == (rx, [b], calls)
    ensures Play(step, files, l, r) ==
      if AnswerTo(b, EchoAt(r, 0)) == Byte(CAN) then Link(T.Finished(T.Cancelled), [], rx, calls)
      else if at.t + 1 < T.MAX_RETRIES then
        Link(T.AwaitAck(at.i, 1024 * at.k, Num(at.k + 1), at.t + 1), l.wire, rx, calls)
      else Link(T.Finished(T.TimedOut), [], rx, calls)
  {
    hide Frame, T.BlockAt, Hear, Play, InfoOf, Begun, BatchCalls, Num, EchoAt, T.NextBlock;
    PlayOne(step, files, l, r, rx, b, calls);
    assert forall bs: seq<byte> :: [] + bs == bs;
  }

  /** An intact block whose acknowledgement does not come through. */
  lemma AckLost(step: CrcStep, files: seq<File>, at: Course, l: Link, r: Round)
    requires Sendable(files) && Means(step, files, at, l) && Plausible(step, l, r)
    requires at.Sending? && r.fate == Intact && EchoAt(r, 0) != Clear
    ensures Follows(step, files, at, l, r)
  {
    hide Frame, T.BlockAt, Hear, Play, InfoOf, Begun, BatchCalls, Num, EchoAt, Detectable, AllCalls, T.Step, R.Step;
    AlteredEchoes(step, l, r);
    BlockTold(files, at.i, at.k);
    BlockArrives(step, files, at, l);
    BlockRepeated(step, files, at, l, r, Ready(files[at.i], at.k, if at.held then at.c else 0, true), ACK,
                  BatchCalls(files, at.i) + Begun(files[at.i], at.k + 1));
  }

  /** A block that does not arrive intact. */
  lemma BlockLost(step: CrcStep, files: seq<File>, at: Course, l: Link, r: Round)
    requires Sendable(files) && Means(step, files, at, l) && Plausible(step, l, r) && at.Sending? && r.fate != Intact
    ensures Follows(step, files, at, l, r)
  {
    hide Frame, T.BlockAt, Hear, Play, InfoOf, Begun, BatchCalls, Num, EchoAt, Detectable, AllCalls, Told, T.Step,
      R.Step;
    AlteredEchoes(step, l, r);
    BlockTold(files, at.i, at.k);
    UnheardTurn(step, l, r);
    FrameOccurs(step, Num(at.k + 1), T.BlockAt(files[at.i].content, 1024 * at.k));
    var (rx, reply, calls) := Shrug(l.rx.at, l.calls, r.fate == Lost);
    BlockRepeated(step, files, at, l, r, rx, reply[0], calls);
    ShrugTold(files, l.rx.at, l.calls, r.fate == Lost, Play(step, files, l, r));
  }

  // ----- the ends of a file -----

  /** An EOT at a receiver that has had none. */
  lemma EotArrives(step: CrcStep, files: seq<File>, at: Course, l: Link, r: Round)
    requires Means(step, files, at, l) && Plausible(step, l, r) && (at.Ending? || at.Missed?) && r.fate == Intact
    ensures Follows(step, files, at, l, r)
  {
    hide Frame, Hear, Play, InfoOf, Complete, EchoAt, Detectable, AllCalls, T.Step, R.Step;
    AlteredEchoes(step, l, r);
    EotStep(step, files, at.i, AnswerTo(NAK, EchoAt(r, 0)));
    EotHeard(step, l.rx.at, l.calls);
    PlayOne(step, files, l, r, Listening(R.AwaitSecondEot(InfoOf(files[at.i]))), NAK, l.calls);
  }

  /** An EOT that does not arrive intact: the NAK for it is the one that the transmitter waits for after
      the first, and ignores after the second. */
  lemma EotLost(step: CrcStep, files: seq<File>, at: Course, l: Link, r: Round)
    requires Means(step, files, at, l) && Plausible(step, l, r) && (at.Ending? || at.Missed?) && r.fate != Intact
    ensures Follows(step, files, at, l, r)
  {
    hide Frame, Hear, Play, InfoOf, Complete, EchoAt, Detectable, AllCalls, Told, T.Step, R.Step;
    AlteredEchoes(step, l, r);
    CompleteTold(files, at.i);
    UnheardTurn(step, l, r);
    var (rx, reply, calls) := Shrug(l.rx.at, l.calls, r.fate == Lost);
    PlayOne(step, files, l, r, rx, reply[0], calls);
    EotStep(step, files, at.i, AnswerTo(reply[0], EchoAt(r, 0)));
    ShrugTold(files, l.rx.at, l.calls, r.fate == Lost, Play(step, files, l, r));
  }

  lemma CompleteTold(files: seq<File>, i: nat)
    requires i < |files|
    ensures Complete(files, i) <= AllCalls(files)
  {
    hide BatchCalls, Begun, AllCalls;
    BegunPrefix(files, i, Blocks(files[i].content));
  }

  /** The second EOT after the first: whatever becomes of it, the receiver ends the file. */
  lemma ClosingHeard(step: CrcStep, files: seq<File>, at: Course, l: Link, r: Round)
    requires Means(step, files, at, l) && Plausible(step, l, r) && at.Closing?
    ensures Hear(step, l.rx, l.calls, Arrival(l.wire, r.fate))
         == (Listening(R.AwaitHeader(0)), [ACK, CRC_REQUEST], BatchCalls(files, at.i + 1))
  {
    hide Hear, InfoOf, Begun, BatchCalls, EchoAt, Detectable, R.Step;
    BatchGrows(files, at.i);
    if r.fate == Intact {
      EotHeard(step, l.rx.at, l.calls);
    } else {
      UnheardTurn(step, l, r);
    }
  }

  lemma ClosingRound(step: CrcStep, files: seq<File>, at: Course, l: Link, r: Round)
    requires Means(step, files, at, l) && Plausible(step, l, r) && at.Closing?
    ensures Follows(step, files, at, l, r)
  {
    hide Frame, T.HeaderBlock, Hear, Play, InfoOf, Begun, BatchCalls, EchoAt, Detectable, AllCalls, Arrival, T.Step,
      R.Step;
    var i := at.i;
    var first, second := AnswerTo(ACK, EchoAt(r, 0)), AnswerTo(CRC_REQUEST, EchoAt(r, 1));
    AlteredEchoes(step, l, r);
    BatchTold(files, i + 1);
    ClosingHeard(step, files, at, l, r);
    PlayTwo(step, files, l, r, Listening(R.AwaitHeader(0)), ACK, CRC_REQUEST, BatchCalls(files, i + 1));
    EotStep(step, files, i, first);
    EotStep(step, files, i, second);
    WaitingStep(step, files, i + 1, 0, second);
    NothingBefore(Frame(step, true, 0, T.HeaderBlock(files, i + 1)));
  }

  // ----- when it is over -----

  lemma DoneRound(step: CrcStep, files: seq<File>, l: Link, r: Round)
    requires l.tx.Finished? && l.rx.Closed? && l.wire == []
    ensures Play(step, files, l, r) == l
  {
    hide Heard;
    OneAnswer(ACK, r);
    FeedOne(step, files, l.tx, Timeout);
    assert Heard([], r) == [] by { HeardParts(ACK, ACK, r); }
  }

  lemma ClosedRound(step: CrcStep, files: seq<File>, l: Link, r: Round)
    requires T.Sensible(files, l.tx) && l.rx.Closed? && l.tx != T.Finished(T.Ok)
    ensures var l' := Play(step, files, l, r); l'.rx == l.rx && l'.calls == l.calls && l'.tx != T.Finished(T.Ok)
  {
    hide Frame, T.BlockAt, T.HeaderBlock, T.NextBlock, Heard;
    OneAnswer(ACK, r);
    FeedOne(step, files, l.tx, Timeout);
    TimeoutFails(step, files, l.tx);
  }

  lemma TimeoutFails(step: CrcStep, files: seq<File>, tx: T.Point)
    requires T.Sensible(files, tx) && tx != T.Finished(T.Ok)
    ensures T.Step(step, files, tx, Timeout, World([], [], [])).0 != T.Finished(T.Ok)
  {
    hide Frame, T.BlockAt, T.HeaderBlock;
  }

  /** What a receiver that hears nothing tells storage is still true. */
  lemma SilenceTold(files: seq<File>, l: Link, l': Link)
    requires Told(files, l) && l.rx.Listening?
    requires var (rx, _, calls) := Shrug(l.rx.at, l.calls, true); l'.rx == rx && l'.calls == calls
    ensures Told(files, l')
  {
    hide AllCalls;
  }

  /** A transmitter that waits for 'C' and does not get it sends nothing. */
  lemma WaitsInVain(step: CrcStep, files: seq<File>, tx: T.Point, e: Event)
    requires T.Sensible(files, tx) && (tx.AwaitC? || tx.AwaitC2?) && e != Byte(CRC_REQUEST)
    ensures var (tx', w) := T.Step(step, files, tx, e, World([], [], []));
      w.sent == [] && (tx'.AwaitC? || (tx'.Finished? && tx'.status != T.Ok))
  {
  }

  /** The transmission is over for good. */
  lemma HopelessRound(step: CrcStep, files: seq<File>, l: Link, r: Round)
    requires T.Sensible(files, l.tx) && Hopeless(l) && Told(files, l) && Plausible(step, l, r)
    ensures var l' := Play(step, files, l, r); Hopeless(l') && Told(files, l')
  {
    hide Play, Hear, T.Step, EchoAt, Detectable, AllCalls;
    if l.rx.Closed? {
      ClosedRound(step, files, l, r);
    } else {
      var (rx, reply, calls) := Shrug(l.rx.at, l.calls, true);
      UnheardTurn(step, l, r);
      SilenceTold(files, l, Link(l.tx, [], rx, calls));
      if l.tx.Finished? {
        FinishedPlays(step, files, l, r, rx, reply, calls);
      } else {
        AlteredEchoes(step, l, r);
        PlayOne(step, files, l, r, rx, reply[0], calls);
        WaitsInVain(step, files, l.tx, AnswerTo(reply[0], EchoAt(r, 0)));
      }
    }
  }

  lemma {:induction false} FinishedFeeds(step: CrcStep, files: seq<File>, tx: T.Point, answers: seq<Event>)
    requires tx.Finished?
    ensures Feed(step, files, tx, answers) == (tx, [])
    decreases |answers|
  {
    if answers != [] {
      var none: seq<byte> := [];
      assert none + none == none;
      FinishedFeeds(step, files, tx, answers[1..]);
    }
  }

  lemma FinishedPlays(step: CrcStep, files: seq<File>, l: Link, r: Round, rx: Ear, reply: seq<byte>, calls: seq<R.Call>)
    requires l.tx.Finished? && Hear(step, l.rx, l.calls, Arrival(l.wire, r.fate)) == (rx, reply, calls)
    ensures Play(step, files, l, r) == Link(l.tx, [], rx, calls)
  {
    hide Hear, Heard, Answers;
    FinishedFeeds(step, files, l.tx, Answers(Heard(reply, r)));
  }

  // ----- runs -----

  /** Every round takes the link where it takes the course. */
  lemma PlayFollows(step: CrcStep, files: seq<File>, at: Course, l: Link, r: Round)
    requires Sendable(files) && T.Sensible(files, l.tx) && Means(step, files, at, l) && Plausible(step, l, r)
    ensures Follows(step, files, at, l, r)
  {
    hide Play, Plausible, Means;
    match at
    case Asking(_, _, _) => AskingRound(step, files, at, l, r);
    case Unsure(_) => UnsureRound(step, files, at, l, r);
    case Heading(i, _) =>
      if r.fate != Intact {
        HeaderLost(step, files, at, l, r);
      } else if i < |files| {
        HeaderArrives(step, files, at, l, r);
      } else {
        HeadingWhere(step, files, at, l);
        EndArrives(step, files, at, l, r);
      }
    case Sending(_, _, _, _, _) =>
      if r.fate != Intact {
        BlockLost(step, files, at, l, r);
      } else if EchoAt(r, 0) != Clear {
        AckLost(step, files, at, l, r);
      } else {
        BlockAcked(step, files, at, l, r);
      }
    case Ending(_, _) => EndingRound(step, files, at, l, r);
    case Missed(_, _) => EndingRound(step, files, at, l, r);
    case Closing(_) => ClosingRound(step, files, at, l, r);
    case Done => OverRound(step, files, at, l, r);
    case Failed => OverRound(step, files, at, l, r);
  }

  lemma HeadingWhere(step: CrcStep, files: seq<File>, at: Course, l: Link)
    requires Means(step, files, at, l) && at.Heading?
    ensures at.i <= |files|
  {
  }

  lemma EndingRound(step: CrcStep, files: seq<File>, at: Course, l: Link, r: Round)
    requires Means(step, files, at, l) && Plausible(step, l, r) && (at.Ending? || at.Missed?)
    ensures Follows(step, files, at, l, r)
  {
    hide Play, Plausible;
    if r.fate == Intact {
      EotArrives(step, files, at, l, r);
    } else {
      EotLost(step, files, at, l, r);
    }
  }

  lemma OverRound(step: CrcStep, files: seq<File>, at: Course, l: Link, r: Round)
    requires T.Sensible(files, l.tx)
    requires Means(step, files, at, l) && Plausible(step, l, r) && at in {Done, Failed}
    ensures Follows(step, files, at, l, r)
  {
    hide Play, Plausible, Hopeless, Told, AllCalls;
    if at == Done {
      DoneRound(step, files, l, r);
    } else {
      HopelessRound(step, files, l, r);
    }
  }

  lemma OpenedMeans(step: CrcStep, files: seq<File>, heard: bool)
    ensures Means(step, files, CourseOf(BlockCounts(files), heard, []), Opened(step, files, heard))
  {
    hide Frame, T.HeaderBlock;
    FeedOne(step, files, T.AwaitC(0, 0), Byte(CRC_REQUEST));
    assert forall bs: seq<byte> :: [] + bs == bs;
  }

  ghost predicate PlausibleRun(step: CrcStep, files: seq<File>, heard: bool, rounds: seq<Round>) {
    forall i :: 0 <= i < |rounds| ==> Plausible(step, PlayAll(step, files, heard, rounds[..i]), rounds[i])
  }

  lemma PlausiblePrefix(step: CrcStep, files: seq<File>, heard: bool, rounds: seq<Round>)
    requires PlausibleRun(step, files, heard, rounds) && rounds != []
    ensures var before := rounds[..|rounds| - 1];
      && PlausibleRun(step, files, heard, before)
      && Plausible(step, PlayAll(step, files, heard, before), rounds[|rounds| - 1])
  {
    hide Plausible, PlayAll;
    var before := rounds[..|rounds| - 1];
    assert forall i :: 0 <= i < |before| ==> before[..i] == rounds[..i] && before[i] == rounds[i];
  }

  /** The course of the faults says where every run has come to. */
  lemma {:induction false} CourseDecides(step: CrcStep, files: seq<File>, heard: bool, rounds: seq<Round>)
    requires Sendable(files) && PlausibleRun(step, files, heard, rounds)
    ensures Means(step, files, CourseOf(BlockCounts(files), heard, rounds), PlayAll(step, files, heard, rounds))
    decreases |rounds|
  {
    hide Play, Means, Plausible, PlausibleRun, Next, Opened;
    if rounds == [] {
      OpenedMeans(step, files, heard);
    } else {
      var before, r := rounds[..|rounds| - 1], rounds[|rounds| - 1];
      PlausiblePrefix(step, files, heard, rounds);
      CourseDecides(step, files, heard, before);
      PlayFollows(step, files, CourseOf(BlockCounts(files), heard, before), PlayAll(step, files, heard, before), r);
    }
  }

  /** Exactly when a batch is delivered: after enough good rounds ymodem_transmit has returned OK if
      and only if the faults, by themselves, do not fail the batch. Then ymodem_receive has returned OK
      too, and storage has been told each file's name (cut to 100 bytes) and size, its blocks at the
      agreed offsets and cut to exactly the file, and its end, in order. */
  lemma DeliveredExactlyWhen(step: CrcStep, files: seq<File>, heard: bool, rounds: seq<Round>)
    requires Sendable(files) && PlausibleRun(step, files, heard, rounds)
    requires Goods(rounds) >= Needed(BlockCounts(files), heard)
    ensures var l := PlayAll(step, files, heard, rounds);
      && (l.tx == T.Finished(T.Ok) <==> CourseOf(BlockCounts(files), heard, rounds) != Failed)
      && (l.tx == T.Finished(T.Ok) ==> l.rx == Closed(R.Ok) && l.calls == BatchCalls(files, |files|))
    ensures forall i :: 0 <= i < |files| ==> Kept(FileCalls(files[i])) == files[i].content
  {
    hide PlayAll, PlausibleRun, CourseOf, Kept, FileCalls, Needed, Goods, BatchCalls;
    forall i | 0 <= i < |files| ensures Kept(FileCalls(files[i])) == files[i].content {
      FileKept(files[i]);
    }
    CourseDecides(step, files, heard, rounds);
    EnoughRounds(BlockCounts(files), heard, rounds);
  }

  /** Whatever the faults do, storage is told nothing that is not true of the batch: the calls made are
      the first of those that the whole batch makes, but for an error that may end a file. */
  lemma StorageToldTruly(step: CrcStep, files: seq<File>, heard: bool, rounds: seq<Round>)
    requires Sendable(files) && PlausibleRun(step, files, heard, rounds)
    ensures Told(files, PlayAll(step, files, heard, rounds))
  {
    hide PlayAll, PlausibleRun, CourseOf, Told, Means;
    CourseDecides(step, files, heard, rounds);
    MeansTold(step, files, CourseOf(BlockCounts(files), heard, rounds), PlayAll(step, files, heard, rounds));
  }

  lemma MeansTold(step: CrcStep, files: seq<File>, at: Course, l: Link)
    requires Means(step, files, at, l)
    ensures Told(files, l)
  {
    hide Frame, T.BlockAt, T.HeaderBlock, BatchCalls, Begun, AllCalls, InfoOf, Num;
    match at
    case Asking(i, _, _) => BatchTold(files, i);
    case Unsure(i) => BegunPrefix(files, i - 1, 0);
    case Heading(i, _) => BatchTold(files, i);
    case Sending(i, k, _, _, _) => BlockTold(files, i, k);
    case Ending(i, _) => CompleteTold(files, i);
    case Missed(i, _) => CompleteTold(files, i);
    case Closing(i) => BegunPrefix(files, i, 0);
    case Done =>
    case Failed =>
  }

  /** Before every data block, sent for the first time or again, the receiver is in the same file and
      either expects this block at this offset or has stored it. */
  lemma OffsetsAgree(step: CrcStep, files: seq<File>, heard: bool, rounds: seq<Round>)
    requires Sendable(files) && PlausibleRun(step, files, heard, rounds)
    requires CourseOf(BlockCounts(files), heard, rounds) != Failed
    ensures var l := PlayAll(step, files, heard, rounds);
      l.tx.AwaitAck? ==>
        && l.rx.Listening? && l.rx.at.AwaitPacket? && l.rx.at.info == InfoOf(files[l.tx.idx])
        && var (i, k) := (l.tx.idx, l.tx.offset / 1024);
        && l.tx.offset == 1024 * k && l.tx.block == Num(k + 1)
        && ((l.rx.at.expected == l.tx.block && l.rx.at.offset == l.tx.offset
             && l.calls == BatchCalls(files, i) + Begun(files[i], k))
            || (l.rx.at.expected == Inc(l.tx.block)
                && l.calls == BatchCalls(files, i) + Begun(files[i], k + 1)))
  {
    hide PlayAll, PlausibleRun, CourseOf, Begun, BatchCalls, InfoOf, Frame;
    CourseDecides(step, files, heard, rounds);
    var l := PlayAll(step, files, heard, rounds);
    if l.tx.AwaitAck? {
      NumSteps(l.tx.offset / 1024 + 1);
    }
  }
}
