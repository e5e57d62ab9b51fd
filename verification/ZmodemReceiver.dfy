/** zmodem_receive (src/zmodem.c:387-482): the nested session loops as mutually recursive
    functions over the event script, and the loops that compute them. */
module ZmodemReceiver {
  import opened Serial
  import opened Metadata
  import opened Numerals
  import opened ZmodemFrames
  import opened ZmodemLine

  datatype Status = Ok | TimedOut | IoError

  /** The storage callbacks. */
  datatype Call =
    | FileStart(info: FileInfo)
    | Data(bytes: seq<byte>, offset: nat)
    | FileEnd(info: FileInfo, status: Status)

  const ZERO_FLAGS: seq<byte> := [0, 0, 0, 0]
  const OVER_AND_OUT: seq<byte> := [0x4F, 0x4F]  // "OO"
  const BUFFER: nat := 1024

  /** The ZFILE subpacket: a name of at most 255 bytes, NUL, and a decimal size. */
  function ParseInfo(sub: seq<byte>): FileInfo {
    var n := if Length(sub) >= 256 then 255 else Length(sub);
    FileInfo(sub[..n], if n + 1 < |sub| then Strtoul(sub[n + 1..]) else 0)
  }

  /** The outer loop. */
  function Session(z: Crcs, w: World<Call>): (Status, World<Call>)
    decreases |w.script|
  {
    match ReadHeader(z, true, w.script)
    case NoHeader(rest) => (TimedOut, w.Leaves(rest))
    case Found(frame, _, crc32, rest) =>
      var w1 := w.Leaves(rest);
      if frame == ZRQINIT then Session(z, w1.Sends(HexHeader(z.step, ZRINIT, ZERO_FLAGS)))
      else if frame == ZFILE then
        match ReadSubpacket(z, crc32, BUFFER, rest, [])
        case BadSub(rest') => (IoError, w.Leaves(rest'))
        case Sub(sub, _, rest') =>
          var info := ParseInfo(sub);
          InFile(z, info, 0,
            w.Leaves(rest').Makes(FileStart(info)).Sends(HexHeader(z.step, ZRPOS, ZERO_FLAGS)))
      else if frame == ZFIN then
        (Ok, w1.Sends(HexHeader(z.step, ZFIN, ZERO_FLAGS)).Sends(OVER_AND_OUT))
      else Session(z, w1)
  }

  /** The loop over the headers of one file. */
  function InFile(z: Crcs, info: FileInfo, offset: nat, w: World<Call>): (Status, World<Call>)
    decreases |w.script|
  {
    match ReadHeader(z, true, w.script)
    case NoHeader(rest) => (TimedOut, w.Leaves(rest).Makes(FileEnd(info, TimedOut)))
    case Found(frame, _, crc32, rest) =>
      var w1 := w.Leaves(rest);
      if frame == ZDATA then InData(z, info, offset, crc32, w1)
      else if frame == ZEOF then
        Session(z, w1.Makes(FileEnd(info, Ok)).Sends(HexHeader(z.step, ZRINIT, ZERO_FLAGS)))
      else if frame == ZFIN then (Ok, w1.Sends(HexHeader(z.step, ZFIN, ZERO_FLAGS)))
      else InFile(z, info, offset, w1)
  }

  /** One received data subpacket handed to storage. */
  function Store(w: World<Call>, sub: seq<byte>, offset: nat): World<Call> {
    if sub == [] then w else w.Makes(Data(sub, offset))
  }

  predicate EndsFrame(ender: byte) {
    ender == ZCRCE || ender == ZCRCW
  }

  /** The loop over the subpackets of one ZDATA frame. */
  function InData(z: Crcs, info: FileInfo, offset: nat, crc32: bool, w: World<Call>): (Status, World<Call>)
    decreases |w.script|
  {
    match ReadSubpacket(z, crc32, BUFFER, w.script, [])
    case BadSub(rest) => (IoError, w.Leaves(rest).Makes(FileEnd(info, IoError)))
    case Sub(sub, ender, rest) =>
      var w1 := Store(w.Leaves(rest), sub, offset);
      if EndsFrame(ender) then InFile(z, info, offset + |sub|, w1)
      else InData(z, info, offset + |sub|, crc32, w1)
  }

  /** zmodem_receive. */
  function Receive(z: Crcs, w: World<Call>): (Status, World<Call>) {
    Session(z, w.Sends(HexHeader(z.step, ZRINIT, ZERO_FLAGS)))
  }

  // ----- the C loops -----

  /** The `while (!data_done)` loop. */
  method ReceiveData(port: Port<Call>, z: Crcs, info: FileInfo, offset: nat, crc32: bool, buf: array<byte>)
    returns (end: nat, failed: Option<Status>)
    requires buf.Length == BUFFER
    modifies port, buf
    ensures InData(z, info, offset, crc32, old(port.W())) ==
      match failed
      case Some(status) => (status, port.W())
      case None => InFile(z, info, end, port.W())
    ensures |port.script| <= |old(port.script)|
  {
    hide ReadSubpacket, InFile;
    end := offset;
    while true
      invariant InData(z, info, offset, crc32, old(port.W())) == InData(z, info, end, crc32, port.W())
      invariant |port.script| <= |old(port.script)|
      decreases |port.script|
    {
      var ok, len, ender := ReadSubpacketInto(port, z, buf, crc32);
      if !ok {
        port.Call(FileEnd(info, IoError));
        return end, Some(IoError);
      }
      if len > 0 {
        port.Call(Data(buf[..len], end));
      }
      end := end + len;
      if ender == ZCRCE || ender == ZCRCW {
        return end, None;
      }
    }
  }

  /** The loop over the headers of one file. */
  method ReceiveFile(port: Port<Call>, z: Crcs, info: FileInfo, buf: array<byte>) returns (done: Option<Status>)
    requires buf.Length == BUFFER
    modifies port, buf
    ensures InFile(z, info, 0, old(port.W())) ==
      match done
      case Some(status) => (status, port.W())
      case None => Session(z, port.W())
    ensures |port.script| <= |old(port.script)|
  {
    hide ReadHeader, Session, InData;
    var offset := 0;
    while true
      invariant InFile(z, info, 0, old(port.W())) == InFile(z, info, offset, port.W())
      invariant |port.script| <= |old(port.script)|
      decreases |port.script|
    {
      var r := ReadFrameHeader(port, z, true);
      if r.NoHeader? {
        port.Call(FileEnd(info, TimedOut));
        return Some(TimedOut);
      }
      if r.frame == ZDATA {
        var end, failed := ReceiveData(port, z, info, offset, r.crc32, buf);
        if failed.Some? {
          return failed;
        }
        offset := end;
      } else if r.frame == ZEOF {
        port.Call(FileEnd(info, Ok));
        SendHexHeader(port, z.step, ZRINIT, ZERO_FLAGS);
        return None;
      } else if r.frame == ZFIN {
        SendHexHeader(port, z.step, ZFIN, ZERO_FLAGS);
        return Some(Ok);
      }
    }
  }

  /** A ZFILE header: its subpacket, then the file. */
  method AcceptFile(port: Port<Call>, z: Crcs, crc32: bool) returns (done: Option<Status>)
    modifies port
    ensures (match ReadSubpacket(z, crc32, BUFFER, old(port.script), [])
             case BadSub(rest) => (IoError, old(port.W()).Leaves(rest))
             case Sub(sub, _, rest) =>
               var info := ParseInfo(sub);
               InFile(z, info, 0, old(port.W()).Leaves(rest).Makes(FileStart(info))
                                    .Sends(HexHeader(z.step, ZRPOS, ZERO_FLAGS)))) ==
      match done
      case Some(status) => (status, port.W())
      case None => Session(z, port.W())
    ensures |port.script| <= |old(port.script)|
  {
    hide ReadSubpacket, InFile, ParseInfo, Session;
    var buf := new byte[1024];
    var ok, len, _ := ReadSubpacketInto(port, z, buf, crc32);
    if !ok {
      return Some(IoError);
    }
    var info := ParseInfo(buf[..len]);
    port.Call(FileStart(info));
    SendHexHeader(port, z.step, ZRPOS, ZERO_FLAGS);
    done := ReceiveFile(port, z, info, buf);
  }

  method ZmodemReceive(port: Port<Call>, z: Crcs) returns (status: Status)
    modifies port
    ensures (status, port.W()) == Receive(z, old(port.W()))
  {
    hide ReadHeader, InFile, ReadSubpacket, ParseInfo;
    SendHexHeader(port, z.step, ZRINIT, ZERO_FLAGS);
    while true
      invariant Receive(z, old(port.W())) == Session(z, port.W())
      decreases |port.script|
    {
      var r := ReadFrameHeader(port, z, true);
      if r.NoHeader? {
        return TimedOut;
      }
      if r.frame == ZRQINIT {
        SendHexHeader(port, z.step, ZRINIT, ZERO_FLAGS);
      } else if r.frame == ZFILE {
        var done := AcceptFile(port, z, r.crc32);
        if done.Some? {
          return done.value;
        }
      } else if r.frame == ZFIN {
        SendHexHeader(port, z.step, ZFIN, ZERO_FLAGS);
        port.Write(OVER_AND_OUT);
        return Ok;
      }
    }
  }
}
