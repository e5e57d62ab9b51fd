/** zmodem_receive as a flat state machine: one turn for each header or subpacket that it reads, in
    terms of the protocol's frame types and frame ends. The nested loops of the C code take exactly these
    turns. */
module ZmodemTurns {
  import opened Serial
  import opened Metadata
  import opened ZmodemFrames
  import opened ZmodemReceiver

  /** What is read next: a header outside a file, the subpacket that names a file, a header inside a
      file, or data. `crc32` says which check a subpacket carries. */
  datatype Point =
    | Outside
    | Naming(crc32: bool)
    | Inside(info: FileInfo, offset: nat)
    | Receiving(info: FileInfo, offset: nat, crc32: bool)

  datatype Turn = Goes(at: Point, w: World<Call>) | Returns(status: Status, w: World<Call>)

  /** A HEX header without position or flags. */
  function Plain(z: Crcs, frame: byte): seq<byte> {
    HexHeader(z.step, frame, [0, 0, 0, 0])
  }

  /** A header: ZFIN ends the session, with "OO" unless a file is open; ZRQINIT is answered with ZRINIT
      and ZFILE opens a file, both only outside a file; ZDATA announces data and ZEOF ends the file, both
      only inside one; all others are passed over. Without a header the session times out. */
  function OnHeader(z: Crcs, at: Point, w: World<Call>): Turn
    requires at.Outside? || at.Inside?
  {
    match ReadHeader(z, true, w.script)
    case NoHeader(rest) =>
      if at.Outside? then Returns(TimedOut, World(rest, w.sent, w.calls))
      else Returns(TimedOut, World(rest, w.sent, w.calls + [FileEnd(at.info, TimedOut)]))
    case Found(frame, _, crc32, rest) =>
      if frame == 8 then
        Returns(Ok, World(rest, w.sent + Plain(z, 8) + (if at.Outside? then [0x4F, 0x4F] else []), w.calls))
      else match at
        case Outside =>
          if frame == 0 then Goes(Outside, World(rest, w.sent + Plain(z, 1), w.calls))
          else if frame == 4 then Goes(Naming(crc32), World(rest, w.sent, w.calls))
          else Goes(Outside, World(rest, w.sent, w.calls))
        case Inside(info, offset) =>
          if frame == 10 then Goes(Receiving(info, offset, crc32), World(rest, w.sent, w.calls))
          else if frame == 11 then Goes(Outside, World(rest, w.sent + Plain(z, 1), w.calls + [FileEnd(info, Ok)]))
          else Goes(at, World(rest, w.sent, w.calls))
  }

  /** A subpacket of at most 1024 bytes: a file's name and size, which opens it and asks for position 0,
      or its data, which is stored unless empty, and after which 'h' (ZCRCE) and 'k' (ZCRCW) announce a
      header, 'i' (ZCRCG) and 'j' (ZCRCQ) more data. */
  function OnSubpacket(z: Crcs, at: Point, w: World<Call>): Turn
    requires at.Naming? || at.Receiving?
  {
    match ReadSubpacket(z, at.crc32, 1024, w.script, [])
    case BadSub(rest) =>
      if at.Naming? then Returns(IoError, World(rest, w.sent, w.calls))
      else Returns(IoError, World(rest, w.sent, w.calls + [FileEnd(at.info, IoError)]))
    case Sub(data, ender, rest) =>
      match at
      case Naming(_) =>
        var info := ParseInfo(data);
        Goes(Inside(info, 0), World(rest, w.sent + Plain(z, 9), w.calls + [FileStart(info)]))
      case Receiving(info, offset, crc32) =>
        var calls := if data == [] then w.calls else w.calls + [Data(data, offset)];
        var next := if ender == 0x68 || ender == 0x6B then Inside(info, offset + |data|)
                    else Receiving(info, offset + |data|, crc32);
        Goes(next, World(rest, w.sent, calls))
  }

  function Next(z: Crcs, at: Point, w: World<Call>): Turn {
    if at.Outside? || at.Inside? then OnHeader(z, at, w) else OnSubpacket(z, at, w)
  }

  /** The session after at most `n` turns. */
  function Turns(z: Crcs, at: Point, w: World<Call>, n: nat): Turn
    decreases n
  {
    if n == 0 then Goes(at, w)
    else match Next(z, at, w)
      case Goes(at', w') => Turns(z, at', w', n - 1)
      case Returns(status, w') => Returns(status, w')
  }

  // ----- the nested loops take these turns -----

  /** The C code from a point on. */
  function Rest(z: Crcs, at: Point, w: World<Call>): (Status, World<Call>) {
    match at
    case Outside => Session(z, w)
    case Naming(crc32) =>
      (match ReadSubpacket(z, crc32, BUFFER, w.script, [])
       case BadSub(rest) => (IoError, w.Leaves(rest))
       case Sub(sub, _, rest) =>
         var info := ParseInfo(sub);
         InFile(z, info, 0, w.Leaves(rest).Makes(FileStart(info)).Sends(HexHeader(z.step, ZRPOS, ZERO_FLAGS))))
    case Inside(info, offset) => InFile(z, info, offset, w)
    case Receiving(info, offset, crc32) => InData(z, info, offset, crc32, w)
  }

  lemma OneTurn(z: Crcs, at: Point, w: World<Call>)
    ensures match Next(z, at, w)
            case Returns(status, w') => Rest(z, at, w) == (status, w')
            case Goes(at', w') => Rest(z, at, w) == Rest(z, at', w') && |w'.script| < |w.script|
  {
    hide ReadHeader, ReadSubpacket, ParseInfo, HexHeader;
    match at
    case Outside =>
      var sent := w.sent + HexHeader(z.step, ZFIN, ZERO_FLAGS);
      assert ZERO_FLAGS == [0, 0, 0, 0] && OVER_AND_OUT == [0x4F, 0x4F];
    case Naming(_) =>
    case Inside(_, _) =>
      var sent := w.sent + HexHeader(z.step, ZFIN, ZERO_FLAGS);
      assert sent + [] == sent;
    case Receiving(_, _, _) =>
  }

  lemma {:induction false} RestIsTurns(z: Crcs, at: Point, w: World<Call>) returns (n: nat)
    ensures Turns(z, at, w, n) == Returns(Rest(z, at, w).0, Rest(z, at, w).1)
    decreases |w.script|
  {
    hide Next, Rest;
    OneTurn(z, at, w);
    n := 1;
    var turn := Next(z, at, w);
    if turn.Goes? {
      var m := RestIsTurns(z, turn.at, turn.w);
      n := m + 1;
    } else {
      assert Turns(z, at, w, 1) == turn;
    }
  }

  /** On every input zmodem_receive sends ZRINIT, takes these turns and returns as they do. */
  lemma ReceiveIsTurns(z: Crcs, script: seq<Event>) returns (n: nat)
    ensures var (status, w) := Receive(z, World(script, [], []));
      Turns(z, Outside, World(script, Plain(z, 1), []), n) == Returns(status, w)
  {
    hide Session, Turns, HexHeader;
    var hello := HexHeader(z.step, ZRINIT, ZERO_FLAGS);
    assert [] + hello == hello;
    n := RestIsTurns(z, Outside, World(script, hello, []));
  }
}
