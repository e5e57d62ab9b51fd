/** YMODEM end to end: ymodem_transmit and ymodem_receive run against each other on an in-order
    link. A round carries what the transmitter has put on the line to the receiver, intact,
    detectably damaged, or not at all; the receiver takes one turn, and each byte of its reply goes
    back to the transmitter unless it is lost or altered; a transmitter that hears nothing times
    out. */
module YmodemLink {
  import opened Serial
  import opened Checks
  import opened Metadata
  import opened XmodemFrames
  import R = YmodemReceiver
  import T = YmodemTransmitter

  datatype Ear = Listening(at: R.Point) | Closed(status: R.Status)

  /** `wire` is what the transmitter has sent since the receiver last listened. */
  datatype Link = Link(tx: T.Point, wire: seq<byte>, rx: Ear, calls: seq<R.Call>)

  datatype Fate = Intact | Damaged(noise: seq<byte>) | Lost

  /** What becomes of one byte of a reply. */
  datatype Echo = Clear | Gone | Altered(b: byte)

  /** The fate of the packet and of the bytes of the reply, which arrive as sent where nothing else is
      said. */
  datatype Round = Round(fate: Fate, echoes: seq<Echo>)

  function EchoAt(r: Round, k: nat): Echo {
    if k < |r.echoes| then r.echoes[k] else Clear
  }

  predicate Good(r: Round) {
    r.fate == Intact && forall e :: e in r.echoes ==> e == Clear
  }

  function Arrival(wire: seq<byte>, fate: Fate): seq<Event> {
    if wire == [] then []
    else match fate
      case Intact => Bytes(wire)
      case Damaged(noise) => Bytes(noise)
      case Lost => []
  }

  function Hear(step: CrcStep, rx: Ear, calls: seq<R.Call>, arrival: seq<Event>): (Ear, seq<byte>, seq<R.Call>) {
    match rx
    case Closed(_) => (rx, [], calls)
    case Listening(at) =>
      match R.Step(step, at, World(arrival, [], calls))
      case Continue(at', w) => (Listening(at'), w.sent, w.calls)
      case Return(status, w) => (Closed(status), w.sent, w.calls)
  }

  /** One byte of a reply as it arrives. */
  function Arriving(b: byte, echo: Echo): seq<byte> {
    match echo
    case Clear => [b]
    case Gone => []
    case Altered(c) => [c]
  }

  /** The reply as it arrives. */
  function Heard(reply: seq<byte>, r: Round): seq<byte> {
    if reply == [] then []
    else Heard(reply[..|reply| - 1], r) + Arriving(reply[|reply| - 1], EchoAt(r, |reply| - 1))
  }

  /** What the transmitter's reads then answer. */
  function Answers(heard: seq<byte>): seq<Event> {
    if heard == [] then [Timeout] else Bytes(heard)
  }

  /** The transmitter takes these answers; what it writes on the way is the next wire. */
  function Feed(step: CrcStep, files: seq<File>, tx: T.Point, answers: seq<Event>): (r: (T.Point, seq<byte>))
    requires T.Sensible(files, tx)
    ensures T.Sensible(files, r.0)
    decreases |answers|
  {
    if answers == [] then (tx, [])
    else
      var (tx', w) := T.Step(step, files, tx, answers[0], World([], [], []));
      var (end, more) := Feed(step, files, tx', answers[1..]);
      (end, w.sent + more)
  }

  function Play(step: CrcStep, files: seq<File>, l: Link, r: Round): (l': Link)
    requires T.Sensible(files, l.tx)
    ensures T.Sensible(files, l'.tx)
  {
    var (rx, reply, calls) := Hear(step, l.rx, l.calls, Arrival(l.wire, r.fate));
    var (tx, wire) := Feed(step, files, l.tx, Answers(Heard(reply, r)));
    Link(tx, wire, rx, calls)
  }

  /** The link after a run; `heard` says whether the receiver's first 'C' arrived. */
  function PlayAll(step: CrcStep, files: seq<File>, heard: bool, rounds: seq<Round>): (l: Link)
    ensures T.Sensible(files, l.tx)
    decreases |rounds|
  {
    if rounds == [] then Opened(step, files, heard)
    else Play(step, files, PlayAll(step, files, heard, rounds[..|rounds| - 1]), rounds[|rounds| - 1])
  }

  /** The receiver has asked for the first Block 0; if that was heard the transmitter has sent it. */
  function Opened(step: CrcStep, files: seq<File>, heard: bool): (l: Link)
    ensures T.Sensible(files, l.tx)
  {
    var (tx, wire) := Feed(step, files, T.AwaitC(0, 0), if heard then [Byte(CRC_REQUEST)] else []);
    Link(tx, wire, Listening(R.AwaitHeader(0)), [])
  }

  // ----- damage -----

  /** A block as the receiver accepts it: any number, any complement, a matching CRC. */
  function LooseFrame(step: CrcStep, num: byte, inverse: byte, payload: seq<byte>): seq<byte> {
    [if |payload| == 1024 then STX else SOH] + ([num, inverse] + payload + Trailer(step, true, payload))
  }

  /** Noise that the receiver can tell from a block, an end and a cancel. */
  ghost predicate Detectable(step: CrcStep, noise: seq<byte>) {
    && noise != [] && noise[0] != EOT && noise[0] != CAN
    && forall num, inverse, payload | |payload| == 128 || |payload| == 1024 ::
         !(LooseFrame(step, num, inverse, payload) <= noise)
  }

  /** A block whose payload or CRC was altered so that they no longer match is detectable damage. */
  lemma DamageDetectable(step: CrcStep, num: byte, inverse: byte, payload: seq<byte>, check: seq<byte>)
    requires |payload| == 128 || |payload| == 1024
    requires |check| == 2 && check != Trailer(step, true, payload)
    ensures Detectable(step, [if |payload| == 1024 then STX else SOH, num, inverse] + payload + check)
  {
    hide LooseFrame, Crc16, High, Low;
    var noise := [if |payload| == 1024 then STX else SOH, num, inverse] + payload + check;
    forall n, i, p | |p| == 128 || |p| == 1024 ensures !(LooseFrame(step, n, i, p) <= noise) {
      FrameParts(step, n, i, p);
      var frame := LooseFrame(step, n, i, p);
      if frame <= noise {
        assert frame[0] == noise[0];
        SameParts([frame[0], n, i], p, Trailer(step, true, p), [noise[0], num, inverse], payload, check);
      }
    }
  }

  lemma FrameParts(step: CrcStep, num: byte, inverse: byte, payload: seq<byte>)
    ensures LooseFrame(step, num, inverse, payload)
         == [if |payload| == 1024 then STX else SOH, num, inverse] + payload + Trailer(step, true, payload)
  {
    hide Trailer;
  }

  /** Faults that the ends can notice: damage is detectable and does not lengthen an EOT, and no reply
      is altered into one of the two bytes that let the transmitter go on. */
  ghost predicate Plausible(step: CrcStep, l: Link, r: Round) {
    && (r.fate.Damaged? && l.rx.Listening? && l.wire != [] ==>
          Detectable(step, r.fate.noise) && (l.wire == [EOT] ==> |r.fate.noise| == 1))
    && (forall e :: e in r.echoes && e.Altered? ==> e.b != ACK && e.b != CRC_REQUEST)
  }

  // ----- reading blocks -----

  lemma BlockReads(step: CrcStep, num: byte, inverse: byte, payload: seq<byte>, rest: seq<Event>)
    ensures R.ReadBlock(step, |payload|, Bytes([num, inverse] + payload + Trailer(step, true, payload)) + rest)
         == R.Good(num, payload, rest)
  {
    hide Crc16, High, Low, Join, Fill, Bytes, Trailer;
    var check := Trailer(step, true, payload);
    NumbersFirst(num, inverse, payload, check);
    BytesHead(num, [inverse] + (payload + check), rest);
    BytesHead(inverse, payload + check, rest);
    FillFront(payload, check, rest);
    CheckReads(step, payload, rest);
  }

  lemma NumbersFirst(num: byte, inverse: byte, payload: seq<byte>, check: seq<byte>)
    ensures [num, inverse] + payload + check == [num] + ([inverse] + (payload + check))
  {
  }

  lemma CheckReads(step: CrcStep, payload: seq<byte>, rest: seq<Event>)
    ensures var s, crc := Bytes(Trailer(step, true, payload)) + rest, Crc16(step, payload);
      && Head(s).Byte? && Head(Tail(s)).Byte? && Tail(Tail(s)) == rest
      && Join(Head(s).value, Head(Tail(s)).value) == crc
  {
    hide Crc16, High, Low, Join, Bytes;
    var crc := Crc16(step, payload);
    var hi, lo := High(crc), Low(crc);
    assert Trailer(step, true, payload) == [hi] + [lo] && [lo] == [lo] + [];
    BytesHead(hi, [lo], rest);
    BytesHead(lo, [], rest);
    BytesNone([], rest);
    JoinSplit(crc);
  }

  lemma TwoBytes(t: seq<Event>, hi: byte, lo: byte)
    requires Head(t) == Byte(hi) && Head(Tail(t)) == Byte(lo)
    ensures t == Bytes([hi, lo]) + Tail(Tail(t))
  {
    hide Bytes;
    var rest := Tail(Tail(t));
    assert [hi] + [lo] == [hi, lo] && [lo] + [] == [lo];
    BytesNone([], rest);
    BytesPrepend(Tail(t), lo, [], rest);
    BytesPrepend(t, hi, [lo], rest);
  }

  lemma WholeBlock(s: seq<Event>, num: byte, inverse: byte, payload: seq<byte>, check: seq<byte>, rest: seq<Event>)
    requires Head(s) == Byte(num) && Head(Tail(s)) == Byte(inverse)
    requires Tail(Tail(s)) == Bytes(payload) + (Bytes(check) + rest)
    ensures s == Bytes([num, inverse] + payload + check) + rest
  {
    hide Bytes;
    BytesAppend(payload, check, rest);
    BytesPrepend(Tail(s), inverse, payload + check, rest);
    BytesPrepend(s, num, [inverse] + (payload + check), rest);
    assert [num] + ([inverse] + (payload + check)) == [num, inverse] + payload + check;
  }

  lemma GoodWasThere(step: CrcStep, size: nat, s: seq<Event>)
    requires R.ReadBlock(step, size, s).Good?
    ensures var r := R.ReadBlock(step, size, s);
      && Head(Tail(s)).Byte?
      && s == Bytes([r.num, Head(Tail(s)).value] + r.payload + Trailer(step, true, r.payload)) + r.rest
  {
    hide Bytes, Fill, Crc16;
    var r := R.ReadBlock(step, size, s);
    var s2 := Tail(Tail(s));
    var t := Fill(s2, size, []).rest;
    var hi, lo := Head(t).value, Head(Tail(t)).value;
    FillWasThere(s2, size, []);
    SplitJoin(hi, lo);
    TwoBytes(t, hi, lo);
    assert r.payload[0..] == r.payload;
    WholeBlock(s, r.num, Head(Tail(s)).value, r.payload, [hi, lo], r.rest);
  }

  lemma GoodIsPrefix(step: CrcStep, size: nat, bs: seq<byte>) returns (inverse: byte)
    requires bs != [] && (bs[0], size) in {(SOH, 128), (STX, 1024)}
    requires R.ReadBlock(step, size, Bytes(bs[1..])).Good?
    ensures var r := R.ReadBlock(step, size, Bytes(bs[1..]));
      |r.payload| == size && LooseFrame(step, r.num, inverse, r.payload) <= bs
  {
    hide R.ReadBlock;
    var s := Bytes(bs[1..]);
    var r := R.ReadBlock(step, size, s);
    GoodWasThere(step, size, s);
    inverse := Head(Tail(s)).value;
    var body := [r.num, inverse] + r.payload + Trailer(step, true, r.payload);
    BytesAt(bs[1..]);
    BytesAt(body);
    forall i | 0 <= i < |body| ensures body[i] == bs[1..][i] {
      assert s[i] == Bytes(body)[i];
    }
  }

  lemma ReadBlockOnlyBytes(step: CrcStep, size: nat, s: seq<Event>)
    requires OnlyBytes(s)
    ensures OnlyBytes(R.ReadBlock(step, size, s).rest)
  {
    hide Fill;
    assert forall t :: OnlyBytes(t) ==> OnlyBytes(Tail(t));
    FillOnlyBytes(Tail(Tail(s)), size, []);
  }

  // ----- the receiver's turn -----

  /** The receiver's turn on anything but an intact packet: it asks again, and of silence (not of
      damage) a file's packets are waited for only so often. A second EOT is not insisted on. */
  function Shrug(at: R.Point, calls: seq<R.Call>, silence: bool): (Ear, seq<byte>, seq<R.Call>) {
    match at
    case AwaitHeader(retries) =>
      if retries + 1 < R.MAX_RETRIES then (Listening(R.AwaitHeader(retries + 1)), [CRC_REQUEST], calls)
      else (Closed(R.TimedOut), [CRC_REQUEST, CAN], calls)
    case AwaitPacket(info, _, _, retries) =>
      if !silence then (Listening(at), [NAK], calls)
      else if retries + 1 <= R.MAX_RETRIES then (Listening(at.(retries := retries + 1)), [NAK], calls)
      else (Closed(R.TimedOut), [CAN], calls + [R.FileEnd(info, R.TimedOut)])
    case AwaitSecondEot(info) =>
      (Listening(R.AwaitHeader(0)), [ACK, CRC_REQUEST], calls + [R.FileEnd(info, R.Ok)])
  }

  lemma SilenceHeard(step: CrcStep, at: R.Point, calls: seq<R.Call>)
    ensures Hear(step, Listening(at), calls, []) == Shrug(at, calls, true)
  {
    assert forall bs: seq<byte> :: [] + bs == bs;
    assert [ACK] + [CRC_REQUEST] == [ACK, CRC_REQUEST] && [CRC_REQUEST] + [CAN] == [CRC_REQUEST, CAN];
  }

  /** Damage is answered and changes nothing that storage is told. */
  lemma NoiseHeard(step: CrcStep, at: R.Point, calls: seq<R.Call>, noise: seq<byte>)
    requires Detectable(step, noise)
    ensures Hear(step, Listening(at), calls, Bytes(noise)) == Shrug(at, calls, false)
  {
    hide R.ReadBlock, Purge;
    var header, tail := noise[0], noise[1..];
    assert forall bs: seq<byte> :: [] + bs == bs;
    assert [ACK] + [CRC_REQUEST] == [ACK, CRC_REQUEST] && [CRC_REQUEST] + [CAN] == [CRC_REQUEST, CAN];
    assert Head(Bytes(noise)) == Byte(header) && Tail(Bytes(noise)) == Bytes(tail);
    assert OnlyBytes(Bytes(tail)) by { BytesAt(tail); }
    if header == SOH || header == STX {
      var size := R.SizeFor(header);
      var r := R.ReadBlock(step, size, Bytes(tail));
      ReadBlockOnlyBytes(step, size, Bytes(tail));
      PurgeOnlyBytes(r.rest);
      if r.Good? {
        var inverse := GoodIsPrefix(step, size, noise);
      }
    } else {
      PurgeOnlyBytes(Bytes(tail));
    }
  }

  /** A round that brings nothing intact. */
  lemma UnheardTurn(step: CrcStep, l: Link, r: Round)
    requires l.rx.Listening? && Plausible(step, l, r) && (r.fate != Intact || l.wire == [])
    ensures Hear(step, l.rx, l.calls, Arrival(l.wire, r.fate))
         == Shrug(l.rx.at, l.calls, r.fate == Lost || l.wire == [])
  {
    hide Hear, Detectable, Shrug;
    SilenceHeard(step, l.rx.at, l.calls);
    if r.fate.Damaged? && l.wire != [] {
      NoiseHeard(step, l.rx.at, l.calls, r.fate.noise);
    }
  }

  /** The receiver's turn on an intact block, whatever follows it. */
  lemma HearFrameThen(step: CrcStep, at: R.Point, calls: seq<R.Call>, num: byte, payload: seq<byte>,
                      more: seq<Event>, sent: seq<byte>)
    requires (at.AwaitHeader? && num == 0) || at.AwaitPacket?
    requires |payload| == 128 || |payload| == 1024
    ensures var frame := Frame(step, true, num, payload);
      R.Step(step, at, World(Bytes(frame) + more, sent, calls))
      == if at.AwaitHeader? then R.OnBlock0(at.retries, payload, World(more, sent, calls))
         else R.OnBlock(at, num, payload, World(more, sent, calls))
  {
    hide R.ReadBlock, R.OnBlock0, R.OnBlock, R.AskAgain, Purge, Trailer, Bytes;
    var header := if |payload| == 1024 then STX else SOH;
    BytesHead(header, Body(step, true, num, payload), more);
    BlockReads(step, num, Not(num), payload, more);
    assert Body(step, true, num, payload) == [num, Not(num)] + payload + Trailer(step, true, payload);
  }

  lemma HearFrame(step: CrcStep, at: R.Point, calls: seq<R.Call>, num: byte, payload: seq<byte>)
    requires (at.AwaitHeader? && num == 0) || at.AwaitPacket?
    requires |payload| == 128 || |payload| == 1024
    ensures var frame := Frame(step, true, num, payload);
      R.Step(step, at, World(Bytes(frame), [], calls))
      == if at.AwaitHeader? then R.OnBlock0(at.retries, payload, World([], [], calls))
         else R.OnBlock(at, num, payload, World([], [], calls))
  {
    hide R.Step, R.OnBlock0, R.OnBlock, Frame;
    HearFrameThen(step, at, calls, num, payload, [], []);
    assert Bytes(Frame(step, true, num, payload)) + [] == Bytes(Frame(step, true, num, payload));
  }

  /** EOT, the first and the second. */
  lemma EotHeard(step: CrcStep, at: R.Point, calls: seq<R.Call>)
    requires !at.AwaitHeader?
    ensures Hear(step, Listening(at), calls, Bytes([EOT]))
         == if at.AwaitPacket? then (Listening(R.AwaitSecondEot(at.info)), [NAK], calls)
            else Shrug(at, calls, true)
  {
    assert Bytes([EOT]) == [Byte(EOT)];
    assert [ACK] + [CRC_REQUEST] == [ACK, CRC_REQUEST];
    assert forall bs: seq<byte> :: [] + bs == bs;
  }

  // ----- the transmitter's turn -----

  lemma FeedOne(step: CrcStep, files: seq<File>, tx: T.Point, e: Event)
    requires T.Sensible(files, tx)
    ensures var (tx', w) := T.Step(step, files, tx, e, World([], [], []));
      Feed(step, files, tx, [e]) == (tx', w.sent)
  {
    var (tx', w) := T.Step(step, files, tx, e, World([], [], []));
    assert [e][1..] == [] && w.sent + [] == w.sent;
  }

  lemma FeedTwo(step: CrcStep, files: seq<File>, tx: T.Point, a: Event, b: Event)
    requires T.Sensible(files, tx)
    ensures var (tx1, w1) := T.Step(step, files, tx, a, World([], [], []));
      var (tx2, w2) := T.Step(step, files, tx1, b, World([], [], []));
      Feed(step, files, tx, [a, b]) == (tx2, w1.sent + w2.sent)
  {
    hide T.Step;
    assert [a, b][1..] == [b];
    FeedOne(step, files, T.Step(step, files, tx, a, World([], [], [])).0, b);
  }

  /** The answers to the replies that occur: one byte, two bytes, or none. */
  function AnswerTo(b: byte, echo: Echo): Event {
    match echo
    case Clear => Byte(b)
    case Gone => Timeout
    case Altered(c) => Byte(c)
  }

  lemma HeardParts(a: byte, b: byte, r: Round)
    ensures Heard([], r) == [] && Heard([a], r) == Arriving(a, EchoAt(r, 0))
    ensures Heard([a, b], r) == Arriving(a, EchoAt(r, 0)) + Arriving(b, EchoAt(r, 1))
  {
    assert [a][..0] == [] && [a, b][..1] == [a];
    assert forall bs: seq<byte> :: [] + bs == bs;
  }

  lemma AnswersAre(a: byte, b: byte)
    ensures Answers([]) == [Timeout] && Answers([a]) == [Byte(a)] && Answers([a, b]) == [Byte(a), Byte(b)]
  {
    BytesAt([a]);
    BytesAt([a, b]);
    assert Bytes([a]) == [Byte(a)] && Bytes([a, b]) == [Byte(a), Byte(b)];
  }

  lemma OneAnswer(b: byte, r: Round)
    ensures Answers(Heard([b], r)) == [AnswerTo(b, EchoAt(r, 0))]
    ensures Answers(Heard([], r)) == [Timeout]
  {
    hide Answers, Heard;
    HeardParts(b, b, r);
    AnswersAre(b, b);
    if EchoAt(r, 0).Altered? {
      AnswersAre(EchoAt(r, 0).b, b);
    }
  }

  lemma TwoAnswers(a: byte, b: byte, r: Round)
    ensures var first, second := EchoAt(r, 0), EchoAt(r, 1);
      Answers(Heard([a, b], r)) == if first == Gone then [AnswerTo(b, second)]
                                   else if second == Gone then [AnswerTo(a, first)]
                                   else [AnswerTo(a, first), AnswerTo(b, second)]
  {
    hide Answers, Heard;
    var first, second := EchoAt(r, 0), EchoAt(r, 1);
    HeardParts(a, b, r);
    var x := if first.Altered? then first.b else a;
    var y := if second.Altered? then second.b else b;
    AnswersAre(x, y);
    AnswersAre(y, x);
    assert [x] + [y] == [x, y] && [] + [y] == [y] && [x] + [] == [x];
  }

  /** The first data block, or EOT for an empty file. */
  lemma FirstBlock(step: CrcStep, files: seq<File>, i: nat)
    requires i < |files|
    ensures var (tx, w) := T.NextBlock(step, files, i, 0, 1, World([], [], []));
      if files[i].content == [] then tx == T.AwaitNak(i) && w.sent == [EOT]
      else tx == T.AwaitAck(i, 0, 1, 0) && w.sent == Frame(step, true, 1, T.BlockAt(files[i].content, 0))
  {
    hide Frame, T.BlockAt;
    assert forall bs: seq<byte> :: [] + bs == bs;
  }

  /** The block after the one at offset 1024 k, or EOT after the last. */
  lemma FollowingBlock(step: CrcStep, files: seq<File>, i: nat, k: nat)
    requires i < |files| && 1024 * k < |files[i].content|
    ensures var content := files[i].content;
      var remaining := |content| - 1024 * k;
      var next := 1024 * k + Min(remaining, T.BlockSize(remaining));
      var (tx, w) := T.NextBlock(step, files, i, next, Inc(Num(k + 1)), World([], [], []));
      if 1024 * (k + 1) < |content| then
        && tx == T.AwaitAck(i, 1024 * (k + 1), Num(k + 2), 0)
        && w.sent == Frame(step, true, Num(k + 2), T.BlockAt(content, 1024 * (k + 1)))
      else tx == T.AwaitNak(i) && w.sent == [EOT]
  {
    hide Frame, T.BlockAt;
    NumSteps(k + 1);
    assert forall bs: seq<byte> :: [] + bs == bs;
  }
}
