/** Whatever arrives in a round of YmodemLink, some piece of script makes ymodem_receive take that turn
    inside any longer script. */
module YmodemScripts {
  import opened Serial
  import opened Checks
  import opened Metadata
  import opened XmodemFrames
  import opened YmodemBlock0
  import opened YmodemLink
  import R = YmodemReceiver

  /** `r` is the turn `r0` with `more` still to be read and `sent` written before it. */
  predicate Same(r: R.RxStep, r0: R.RxStep, more: seq<Event>, sent: seq<byte>) {
    match r0
    case Continue(at, w) => r == R.Continue(at, World(more, sent + w.sent, w.calls))
    case Return(status, w) => r.Return? && r.status == status && r.w.sent == sent + w.sent && r.w.calls == w.calls
  }

  // ----- damaged blocks -----

  /** The part of a block after its number bytes. */
  function AfterNumbers(step: CrcStep, num: byte, filled: Filled): R.BlockRead {
    var e3, s3 := Head(filled.rest), Tail(filled.rest);
    if !e3.Byte? then R.Bad(s3)
    else
      var e4, s4 := Head(s3), Tail(s3);
      if !e4.Byte? || filled.Broke? || Join(e3.value, e4.value) != Crc16(step, filled.bytes) then R.Bad(s4)
      else R.Good(num, filled.bytes, s4)
  }

  lemma NumbersRead(step: CrcStep, size: nat, b1: byte, b2: byte, t: seq<Event>)
    ensures R.ReadBlock(step, size, [Byte(b1)] + ([Byte(b2)] + t)) == AfterNumbers(step, b1, Fill(t, size, []))
  {
    hide Fill, Crc16, Join;
    var s := [Byte(b1)] + ([Byte(b2)] + t);
    assert Tail(s) == [Byte(b2)] + t && Tail(Tail(s)) == t;
  }

  lemma AfterNumbersPadded(step: CrcStep, num: byte, size: nat, t: seq<Event>, more: seq<Event>)
    returns (pad: seq<Event>)
    requires OnlyBytes(t) && AfterNumbers(step, num, Fill(t, size, [])).Bad?
    ensures Silent(pad)
    ensures AfterNumbers(step, num, Fill(t + pad + more, size, []))
         == R.Bad(AfterNumbers(step, num, Fill(t, size, [])).rest + more)
  {
    hide Fill, Crc16, Join;
    FillOnlyBytes(t, size, []);
    match Fill(t, size, [])
    case Broke(_, _) =>
      pad := [Timeout, Timeout];
      FillPadded(t, size, [], [Timeout] + more);
      assert t + [Timeout] + ([Timeout] + more) == t + pad + more;
      assert [] + more == more;
    case Got(payload, rest) =>
      pad := if |rest| < 2 then [Timeout] else [];
      FillPadded(t, size, [], pad + more);
      assert t + (pad + more) == t + pad + more;
      TwoReads(rest, more);
  }

  /** The reads of two CRC bytes. */
  lemma TwoReads(rest: seq<Event>, more: seq<Event>)
    ensures rest == [] ==> rest + ([Timeout] + more) == [Timeout] + more && [] + more == more
    ensures |rest| == 1 ==> rest + ([Timeout] + more) == [rest[0]] + ([Timeout] + more) && [] + more == more
    ensures |rest| >= 2 ==> rest + ([] + more) == [rest[0]] + ([rest[1]] + (rest[2..] + more))
  {
  }

  /** Fewer than two number bytes. */
  lemma CutShort(step: CrcStep, size: nat, s: seq<Event>, more: seq<Event>)
    requires OnlyBytes(s) && |s| < 2
    ensures R.ReadBlock(step, size, s) == R.Bad([])
    ensures R.ReadBlock(step, size, s + [Timeout] + more) == R.Bad(more)
  {
    hide Fill, Crc16, Join;
    if s == [] {
      assert s + [Timeout] + more == [Timeout] + more;
    } else {
      assert s[0] in s;
      assert s + [Timeout] + more == [s[0]] + ([Timeout] + more);
    }
  }

  lemma TwoNumbers(s: seq<Event>) returns (b1: byte, b2: byte, t: seq<Event>)
    requires OnlyBytes(s) && |s| >= 2
    ensures s == [Byte(b1)] + ([Byte(b2)] + t) && OnlyBytes(t)
  {
    assert s[0] in s && s[1] in s;
    b1, b2, t := s[0].value, s[1].value, s[2..];
  }

  lemma ReadBlockPadded(step: CrcStep, size: nat, s: seq<Event>, more: seq<Event>) returns (pad: seq<Event>)
    requires OnlyBytes(s) && R.ReadBlock(step, size, s).Bad?
    ensures Silent(pad)
    ensures R.ReadBlock(step, size, s + pad + more) == R.Bad(R.ReadBlock(step, size, s).rest + more)
  {
    hide R.ReadBlock, AfterNumbers, OnlyBytes, Fill;
    if |s| < 2 {
      pad := [Timeout];
      CutShort(step, size, s, more);
      assert [] + more == more;
    } else {
      var b1, b2, t := TwoNumbers(s);
      NumbersRead(step, size, b1, b2, t);
      pad := AfterNumbersPadded(step, b1, size, t, more);
      NumbersRead(step, size, b1, b2, t + pad + more);
      assert s + pad + more == [Byte(b1)] + ([Byte(b2)] + (t + pad + more));
    }
  }

  /** A damaged block behind its header byte, and the purge that follows. */
  lemma DamagedBlockPadded(step: CrcStep, noise: seq<byte>, size: nat, more: seq<Event>) returns (pad: seq<Event>)
    requires Detectable(step, noise) && (noise[0], size) in {(SOH, 128), (STX, 1024)}
    ensures Silent(pad)
    ensures var r := R.ReadBlock(step, size, Bytes(noise[1..]) + pad + ([Timeout] + more));
      r.Bad? && Purge(r.rest) == more
  {
    hide R.ReadBlock, Purge;
    var tail := Bytes(noise[1..]);
    assert OnlyBytes(tail) by { BytesAt(noise[1..]); }
    ReadBlockOnlyBytes(step, size, tail);
    if R.ReadBlock(step, size, tail).Good? {
      var inverse := GoodIsPrefix(step, size, noise);
      assert false;
    } else {
      pad := ReadBlockPadded(step, size, tail, [Timeout] + more);
      var rest := R.ReadBlock(step, size, tail).rest;
      PurgePadded(rest, more);
      assert rest + [Timeout] + more == rest + ([Timeout] + more);
    }
  }

  /** Damage at a receiver that waits for a block. */
  lemma NoiseSegment(step: CrcStep, at: R.Point, calls: seq<R.Call>, noise: seq<byte>, more: seq<Event>,
                     sent: seq<byte>)
    returns (seg: seq<Event>)
    requires !at.AwaitSecondEot? && Detectable(step, noise)
    ensures R.Step(step, at, World(seg + more, sent, calls))
         == if at.AwaitPacket? then R.Continue(at, World(more, sent + [NAK], calls))
            else R.AskAgain(at.retries, World(more, sent, calls))
    ensures Spells(seg, noise)
  {
    hide R.ReadBlock, Purge, R.OnBlock, R.OnBlock0, R.AskAgain, Spells, Silent, Bytes;
    var header, tail := noise[0], Bytes(noise[1..]);
    var pad := [];
    assert Silent(pad) by { NoReads(); }
    if header == SOH || header == STX {
      pad := DamagedBlockPadded(step, noise, R.SizeFor(header), more);
    } else {
      assert OnlyBytes(tail) by { BytesAt(noise[1..]); }
      PurgePadded(tail, more);
      assert tail + [] + ([Timeout] + more) == tail + [Timeout] + more;
    }
    SegmentSpells(noise, pad, more);
    seg := Bytes(noise) + (pad + [Timeout]);
  }

  lemma NoReads()
    ensures Silent([])
  {
  }

  lemma EotShifts(info: FileInfo, e: Event, calls: seq<R.Call>, more: seq<Event>, sent: seq<byte>)
    ensures R.EotStep(info, World([e] + more, sent, calls))
         == R.Continue(R.AwaitHeader(0), World(more, sent + [ACK] + [CRC_REQUEST], calls + [R.FileEnd(info, R.Ok)]))
    ensures Same(R.EotStep(info, World([e] + more, sent, calls)), R.EotStep(info, World([e], [], calls)), more, sent)
  {
    assert ([e] + more)[1..] == more;
    assert sent + [ACK] + [CRC_REQUEST] == sent + ([] + [ACK] + [CRC_REQUEST]);
  }

  /** One byte of damage in place of the second EOT. */
  lemma EotNoiseSegment(step: CrcStep, at: R.Point, calls: seq<R.Call>, noise: seq<byte>, more: seq<Event>,
                        sent: seq<byte>)
    requires at.AwaitSecondEot? && |noise| == 1
    ensures Same(R.Step(step, at, World(Bytes(noise) + more, sent, calls)),
                 R.Step(step, at, World(Bytes(noise), [], calls)), more, sent)
  {
    hide R.HeaderStep, R.PacketStep;
    BytesAt(noise);
    assert Bytes(noise) == [Byte(noise[0])];
    EotShifts(at.info, Byte(noise[0]), calls, more, sent);
    assert Bytes(noise) + [] == Bytes(noise);
  }

  // ----- silence and what arrives intact -----

  lemma SilenceSegment(step: CrcStep, at: R.Point, calls: seq<R.Call>, more: seq<Event>, sent: seq<byte>)
    ensures Same(R.Step(step, at, World([Timeout] + more, sent, calls)),
                 R.Step(step, at, World([], [], calls)), more, sent)
  {
    hide R.ReadBlock, R.OnBlock, R.OnBlock0, Purge;
    assert [Timeout] + more == [Timeout] + more && ([Timeout] + more)[1..] == more;
    assert forall bs: seq<byte> :: [] + bs == bs;
    assert sent + [ACK] + [CRC_REQUEST] == sent + ([ACK] + [CRC_REQUEST]);
    assert sent + [CRC_REQUEST] + [CAN] == sent + ([CRC_REQUEST] + [CAN]);
  }

  lemma FrameSegment(step: CrcStep, at: R.Point, calls: seq<R.Call>, num: byte, payload: seq<byte>,
                     more: seq<Event>, sent: seq<byte>)
    requires (at.AwaitHeader? && num == 0) || at.AwaitPacket?
    requires |payload| == 128 || |payload| == 1024
    ensures var frame := Frame(step, true, num, payload);
      Same(R.Step(step, at, World(Bytes(frame) + more, sent, calls)),
           R.Step(step, at, World(Bytes(frame), [], calls)), more, sent)
  {
    hide R.Step, Frame, ParseBlock0, R.WriteLength;
    HearFrame(step, at, calls, num, payload);
    HearFrameThen(step, at, calls, num, payload, more, sent);
    assert forall bs: seq<byte> :: [] + bs == bs;
  }

  lemma EotSegment(step: CrcStep, at: R.Point, calls: seq<R.Call>, more: seq<Event>, sent: seq<byte>)
    requires !at.AwaitHeader?
    ensures Same(R.Step(step, at, World(Bytes([EOT]) + more, sent, calls)),
                 R.Step(step, at, World(Bytes([EOT]), [], calls)), more, sent)
  {
    hide R.ReadBlock, R.OnBlock, Purge;
    assert Bytes([EOT]) == [Byte(EOT)];
    assert [Byte(EOT)] + more == [Byte(EOT)] + more;
    assert forall bs: seq<byte> :: [] + bs == bs;
    assert sent + [ACK] + [CRC_REQUEST] == sent + ([ACK] + [CRC_REQUEST]);
  }

  // ----- a round -----

  /** What reaches a receiver that still listens: an intact packet, the noise a damaged one has become,
      or nothing. */
  function Reached(l: Link, r: Round): seq<byte> {
    if l.rx.Closed? || l.wire == [] then []
    else match r.fate
      case Intact => l.wire
      case Damaged(noise) => noise
      case Lost => []
  }

  /** A piece of script for a round: nothing is read once the receiver has returned. */
  predicate Carries(step: CrcStep, l: Link, r: Round, seg: seq<Event>, more: seq<Event>, sent: seq<byte>) {
    match l.rx
    case Closed(_) => seg == []
    case Listening(at) =>
      Same(R.Step(step, at, World(seg + more, sent, l.calls)),
           R.Step(step, at, World(Arrival(l.wire, r.fate), [], l.calls)), more, sent)
  }

  lemma DamageSegment(step: CrcStep, l: Link, r: Round, more: seq<Event>, sent: seq<byte>) returns (seg: seq<Event>)
    requires l.rx.Listening? && l.wire != [] && r.fate.Damaged? && Plausible(step, l, r)
    requires l.rx.at.AwaitSecondEot? ==> l.wire == [EOT]
    ensures Carries(step, l, r, seg, more, sent) && Spells(seg, Reached(l, r))
  {
    hide R.Step, Detectable, Spells;
    var at, noise := l.rx.at, r.fate.noise;
    if at.AwaitSecondEot? {
      EotNoiseSegment(step, at, l.calls, noise, more, sent);
      seg := Bytes(noise);
      BytesSpell(noise);
    } else {
      seg := NoiseSegment(step, at, l.calls, noise, more, sent);
      NoiseSame(step, at, l.calls, noise, R.Step(step, at, World(seg + more, sent, l.calls)), more, sent);
    }
  }

  lemma NoiseSame(step: CrcStep, at: R.Point, calls: seq<R.Call>, noise: seq<byte>, r: R.RxStep, more: seq<Event>,
                  sent: seq<byte>)
    requires !at.AwaitSecondEot? && Detectable(step, noise)
    requires r == if at.AwaitPacket? then R.Continue(at, World(more, sent + [NAK], calls))
                  else R.AskAgain(at.retries, World(more, sent, calls))
    ensures Same(r, R.Step(step, at, World(Bytes(noise), [], calls)), more, sent)
  {
    hide R.Step, Detectable;
    NoiseHeard(step, at, calls, noise);
    assert sent + [CRC_REQUEST] + [CAN] == sent + [CRC_REQUEST, CAN];
  }
}
