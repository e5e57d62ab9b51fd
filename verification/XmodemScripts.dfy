/** The turns of XmodemLink inside a longer script: whatever arrives in a round, there is a piece of
    script that brings just those bytes and makes xmodem_receive take just that turn. */
module XmodemScripts {
  import opened Serial
  import opened Checks
  import opened XmodemFrames
  import opened XmodemReceiver
  import opened XmodemTransmitter
  import opened XmodemTrace
  import opened XmodemLink

  /** `r` is the turn `r0` with `more` still to be read and `sent` written before it. */
  predicate Same(r: RxStep, r0: RxStep, more: seq<Event>, sent: seq<byte>) {
    match r0
    case Continue(st, w) => r == Continue(st, World(more, sent + w.sent, w.calls))
    case Return(status, w) => r.Return? && r.status == status && r.w.sent == sent + w.sent && r.w.calls == w.calls
  }

  // ----- rejected blocks -----

  /** A rejected block is rejected in the same way when the silence after it is written out. */
  lemma TrailerPadded(step: CrcStep, crcMode: bool, block: byte, payload: seq<byte>, s: seq<Event>, more: seq<Event>)
    returns (pad: seq<Event>)
    requires OnlyBytes(s) && ReadTrailer(step, crcMode, block, payload, s).Rejected?
    ensures Silent(pad)
    ensures ReadTrailer(step, crcMode, block, payload, s + pad + more)
         == Rejected(ReadTrailer(step, crcMode, block, payload, s).rest + more)
  {
    hide Crc16, Sum8, Join;
    if s == [] {
      pad := if crcMode then [Timeout, Timeout] else [Timeout];
      assert s + pad + more == [Timeout] + (pad[1..] + more);
      assert crcMode ==> pad[1..] + more == [Timeout] + more;
    } else if |s| == 1 && crcMode {
      pad := [Timeout];
      assert s + pad + more == [s[0]] + ([Timeout] + more);
    } else {
      pad := [];
      assert s + pad + more == [s[0]] + (s[1..] + more);
      assert |s| > 1 ==> s[1..] + more == [s[1]] + (s[2..] + more);
    }
  }

  lemma AfterNumbersPadded(step: CrcStep, crcMode: bool, len: nat, b1: byte, b2: byte, t: seq<Event>, more: seq<Event>)
    returns (pad: seq<Event>)
    requires OnlyBytes(t) && AfterNumbers(step, crcMode, len, b1, b2, t).Rejected?
    ensures Silent(pad)
    ensures AfterNumbers(step, crcMode, len, b1, b2, t + pad + more)
         == Rejected(AfterNumbers(step, crcMode, len, b1, b2, t).rest + more)
  {
    hide Fill, ReadTrailer;
    pad := [];
    assert t + [] + more == t + more;
    if (b1 + b2) % 256 == 0xFF {
      FillPadded(t, len, [], more);
      FillOnlyBytes(t, len, []);
      match Fill(t, len, [])
      case Broke(_, _) =>
        pad := [Timeout];
        assert [] + more == more;
      case Got(payload, rest) =>
        pad := TrailerPadded(step, crcMode, b1, payload, rest, more);
        FillPadded(t, len, [], pad + more);
        assert rest + (pad + more) == rest + pad + more && t + (pad + more) == t + pad + more;
    }
  }

  /** Fewer than two number bytes. */
  lemma CutShort(step: CrcStep, crcMode: bool, len: nat, s: seq<Event>, more: seq<Event>) returns (pad: seq<Event>)
    requires OnlyBytes(s) && |s| < 2
    ensures Silent(pad) && ReadFrame(step, crcMode, len, s) == Rejected([])
    ensures ReadFrame(step, crcMode, len, s + pad + more) == Rejected(more)
  {
    hide Fill, ReadTrailer;
    if s == [] {
      pad := [Timeout, Timeout];
      assert s + pad + more == [Timeout] + ([Timeout] + more);
    } else {
      assert s[0] in s;
      pad := [Timeout];
      assert s + pad + more == [s[0]] + ([Timeout] + more);
    }
  }

  lemma ReadFramePadded(step: CrcStep, crcMode: bool, len: nat, s: seq<Event>, more: seq<Event>)
    returns (pad: seq<Event>)
    requires OnlyBytes(s) && ReadFrame(step, crcMode, len, s).Rejected?
    ensures Silent(pad)
    ensures ReadFrame(step, crcMode, len, s + pad + more)
         == Rejected(ReadFrame(step, crcMode, len, s).rest + more)
  {
    hide AfterNumbers, ReadFrame;
    if |s| < 2 {
      pad := CutShort(step, crcMode, len, s, more);
      assert [] + more == more;
    } else {
      var t := s[2..];
      assert s[0] in s && s[1] in s && OnlyBytes(t);
      var b1, b2 := s[0].value, s[1].value;
      assert s == [Byte(b1)] + ([Byte(b2)] + t);
      NumbersRead(step, crcMode, len, b1, b2, t);
      pad := AfterNumbersPadded(step, crcMode, len, b1, b2, t, more);
      NumbersRead(step, crcMode, len, b1, b2, t + pad + more);
      assert s + pad + more == [Byte(b1)] + ([Byte(b2)] + (t + pad + more));
    }
  }

  /** A rejected block behind its header byte, and the purge that follows. */
  lemma RejectedPadded(step: CrcStep, crcMode: bool, len: nat, tail: seq<Event>, more: seq<Event>)
    returns (pad: seq<Event>)
    requires OnlyBytes(tail) && ReadFrame(step, crcMode, len, tail).Rejected?
    ensures Silent(pad)
    ensures Purge(ReadFrame(step, crcMode, len, tail).rest) == []
    ensures var r := ReadFrame(step, crcMode, len, tail + pad + ([Timeout] + more));
      r.Rejected? && Purge(r.rest) == more
  {
    hide ReadFrame, Purge;
    ReadFrameOnlyBytes(step, crcMode, len, tail);
    pad := ReadFramePadded(step, crcMode, len, tail, [Timeout] + more);
    var rest := ReadFrame(step, crcMode, len, tail).rest;
    PurgePadded(rest, more);
    PurgeOnlyBytes(rest);
    assert rest + [Timeout] + more == rest + ([Timeout] + more);
  }

  /** A block that is rejected, whether damaged or sent with the wrong check. */
  lemma RejectedSegment(env: Env, st: RxState, calls: seq<Call>, bs: seq<byte>, more: seq<Event>, sent: seq<byte>)
    returns (seg: seq<Event>)
    requires bs != [] && (bs[0] == SOH || bs[0] == STX)
    requires ReadFrame(env.step, st.crcMode, if bs[0] == SOH then 128 else 1024, Bytes(bs[1..])).Rejected?
    ensures Spells(seg, bs)
    ensures Same(Step(env, st, World(seg + more, sent, calls)), Step(env, st, World(Bytes(bs), [], calls)), more, sent)
  {
    hide ReadFrame, Purge, OnAccepted, Spells;
    var tail := Bytes(bs[1..]);
    assert OnlyBytes(tail) by { BytesAt(bs[1..]); }
    var pad := RejectedPadded(env.step, st.crcMode, if bs[0] == SOH then 128 else 1024, tail, more);
    seg := Bytes(bs) + (pad + [Timeout]);
    SegmentSpells(bs, pad, more);
    assert [] + [NAK] == [NAK];
  }

  lemma PurgedTail(tail: seq<Event>, more: seq<Event>)
    requires OnlyBytes(tail)
    ensures Purge(tail) == [] && Purge(tail + [] + ([Timeout] + more)) == more
  {
    hide Purge;
    PurgePadded(tail, more);
    PurgeOnlyBytes(tail);
    assert tail + [] + ([Timeout] + more) == tail + [Timeout] + more;
  }

  /** The turn on a byte that is no header. */
  lemma UnknownTurn(env: Env, st: RxState, header: byte, tail: seq<Event>, w: World<Call>)
    requires header !in {SOH, STX, EOT, CAN} && w.script == [Byte(header)] + tail
    ensures Step(env, st, w) == OnUnknown(env.cfg, st, w.Leaves(tail))
  {
    hide OnUnknown;
  }

  /** A byte that is no header, and what follows it. */
  lemma UnknownSegment(env: Env, st: RxState, calls: seq<Call>, bs: seq<byte>, more: seq<Event>, sent: seq<byte>)
    returns (seg: seq<Event>)
    requires bs != [] && bs[0] !in {SOH, STX, EOT, CAN}
    ensures Spells(seg, bs)
    ensures Same(Step(env, st, World(seg + more, sent, calls)), Step(env, st, World(Bytes(bs), [], calls)), more, sent)
  {
    hide Step, Purge, Spells, OnlyBytes;
    var tail := Bytes(bs[1..]);
    AllBytes(bs[1..]);
    PurgedTail(tail, more);
    seg := Bytes(bs) + ([] + [Timeout]);
    NoSilence();
    SegmentSpells(bs, [], more);
    UnknownTurn(env, st, bs[0], tail, World(Bytes(bs), [], calls));
    UnknownTurn(env, st, bs[0], tail + [] + ([Timeout] + more), World(seg + more, sent, calls));
    assert [] + [NAK] == [NAK] && [] + [CAN] == [CAN];
  }

  lemma AllBytes(bs: seq<byte>)
    ensures OnlyBytes(Bytes(bs))
  {
    BytesAt(bs);
  }

  lemma NoSilence()
    ensures Silent([])
  {
  }

  lemma NoiseSegment(env: Env, st: RxState, calls: seq<Call>, noise: seq<byte>, more: seq<Event>, sent: seq<byte>)
    returns (seg: seq<Event>)
    requires Detectable(env.step, st.crcMode, noise)
    ensures Spells(seg, noise)
    ensures Same(Step(env, st, World(seg + more, sent, calls)),
                 Step(env, st, World(Bytes(noise), [], calls)), more, sent)
  {
    hide ReadFrame, Step, Detectable, Same, Spells;
    NoiseHeader(env.step, st.crcMode, noise);
    if noise[0] == SOH || noise[0] == STX {
      NoFrameInNoise(env.step, st.crcMode, noise, if noise[0] == SOH then 128 else 1024);
      seg := RejectedSegment(env, st, calls, noise, more, sent);
    } else {
      seg := UnknownSegment(env, st, calls, noise, more, sent);
    }
  }

  /** A block with its CRC at a receiver that wants a checksum. */
  lemma CrcFrameSegment(env: Env, st: RxState, calls: seq<Call>, block: byte, payload: seq<byte>,
                        more: seq<Event>, sent: seq<byte>)
    returns (seg: seq<Event>)
    requires |payload| == 128 || |payload| == 1024
    requires !st.crcMode && Differs(env.step, payload)
    ensures var frame := Frame(env.step, true, block, payload);
      && Spells(seg, frame)
      && Same(Step(env, st, World(seg + more, sent, calls)), Step(env, st, World(Bytes(frame), [], calls)), more, sent)
  {
    hide ReadFrame, Step, Body, Differs, Same, Spells;
    var frame := Frame(env.step, true, block, payload);
    assert frame[1..] == Body(env.step, true, block, payload);
    CrcBlockRejected(env.step, block, payload);
    seg := RejectedSegment(env, st, calls, frame, more, sent);
  }

  // ----- the other turns -----

  lemma QuietSegment(env: Env, st: RxState, calls: seq<Call>, more: seq<Event>, sent: seq<byte>)
    ensures Spells([Timeout], [])
    ensures Same(Step(env, st, World([Timeout] + more, sent, calls)), Step(env, st, World([], [], calls)), more, sent)
  {
    hide OnBlock, OnUnknown;
    assert forall bs: seq<byte> :: [] + bs == bs;
  }

  lemma AcceptedSegment(env: Env, st: RxState, calls: seq<Call>, block: byte, payload: seq<byte>,
                        more: seq<Event>, sent: seq<byte>)
    ensures Same(OnAccepted(env, st, block, payload, World(more, sent, calls)),
                 OnAccepted(env, st, block, payload, World([], [], calls)), more, sent)
  {
    assert forall bs: seq<byte> :: [] + bs == bs;
  }

  lemma FrameSegment(env: Env, st: RxState, calls: seq<Call>, block: byte, payload: seq<byte>,
                     more: seq<Event>, sent: seq<byte>)
    requires |payload| == 128 || |payload| == 1024
    ensures var frame := Frame(env.step, st.crcMode, block, payload);
      Same(Step(env, st, World(Bytes(frame) + more, sent, calls)),
           Step(env, st, World(Bytes(frame), [], calls)), more, sent)
  {
    hide ReadFrame, Purge, Body, OnAccepted, Same;
    HearFrame(env, st, calls, block, payload);
    var body := Body(env.step, st.crcMode, block, payload);
    BytesHead(if |payload| == 1024 then STX else SOH, body, more);
    FrameReads(env.step, st.crcMode, block, payload, more);
    AcceptedSegment(env, st, calls, block, payload, more, sent);
  }

  lemma ControlSegment(env: Env, st: RxState, calls: seq<Call>, more: seq<Event>, sent: seq<byte>)
    ensures Same(Step(env, st, World(Bytes([EOT]) + more, sent, calls)),
                 Step(env, st, World(Bytes([EOT]), [], calls)), more, sent)
    ensures Same(Step(env, st, World(Bytes([CAN]) + more, sent, calls)),
                 Step(env, st, World(Bytes([CAN]), [], calls)), more, sent)
  {
    hide OnBlock, OnUnknown, OnTimeout;
    HearControl(env, st, calls, []);
    BytesHead(EOT, [], more);
    BytesHead(CAN, [], more);
    assert [EOT] + [] == [EOT] && [CAN] + [] == [CAN];
    assert forall bs: seq<byte> :: [] + bs == bs;
    assert forall bs: seq<byte> :: bs + [] == bs;
  }

  // ----- every turn -----

  /** The bytes that reach the receiver in a round. */
  function Reaching(wire: seq<byte>, fate: Fate): seq<byte> {
    if wire == [] then []
    else match fate
      case Intact => wire
      case Damaged(noise) => noise
      case Lost => []
  }

  /** Whatever arrives in a round, some piece of script brings just those bytes, makes the receiver
      take that turn and leaves the rest unread; an intact packet of the receiver's kind is itself
      that piece. */
  lemma TurnSegment(ends: Ends, l: Link, wire: seq<byte>, r: Round, more: seq<Event>, sent: seq<byte>)
    returns (seg: seq<Event>)
    requires Compatible(ends) && Inv(ends, l) && Plausible(ends, l, r) && l.ear.Listening?
    requires Outgoing(ends, l.tx, wire) && (Split(l) ==> FirstTells(ends))
    ensures seg != [] && Spells(seg, Reaching(wire, r.fate))
    ensures Same(Step(ends.rx, l.ear.st, World(seg + more, sent, l.calls)),
                 Step(ends.rx, l.ear.st, World(Arrival(wire, r.fate), [], l.calls)), more, sent)
    ensures r.fate.Intact? && wire != [] && !Split(l) ==> seg == Bytes(wire)
  {
    hide Step, Deliveries, Frame, Detectable, Same, Faithful, Spells, Payload, Differs, Upto;
    var st := l.ear.st;
    if wire == [] || r.fate == Lost {
      seg := [Timeout];
      QuietSegment(ends.rx, st, l.calls, more, sent);
    } else if r.fate.Damaged? {
      seg := NoiseSegment(ends.rx, st, l.calls, r.fate.noise, more, sent);
      SpellsSomething(seg, r.fate.noise);
      NoiseHeader(ends.rx.step, st.crcMode, r.fate.noise);
    } else if Split(l) {
      seg := CrcFrameSegment(ends.rx, st, l.calls, Num(1), Payload(ends.tx, 0), more, sent);
      SpellsSomething(seg, wire);
    } else {
      seg := Bytes(wire);
      BytesSpell(wire);
      SpellsSomething(seg, wire);
      if l.tx.phase.AwaitAck? {
        FrameSegment(ends.rx, st, l.calls, Num(l.tx.acked + 1), Payload(ends.tx, l.tx.acked), more, sent);
      } else {
        ControlSegment(ends.rx, st, l.calls, more, sent);
      }
    }
  }

  lemma SpellsSomething(seg: seq<Event>, bs: seq<byte>)
    requires Spells(seg, bs)
    ensures bs != [] ==> seg != []
  {
  }
}
