/** zmodem_transmit (src/zmodem.c:524-609): what it writes and where it stops, for every script of
    replies, and the loops that do it. */
module ZmodemTransmitter {
  import opened Serial
  import opened Checks
  import opened Metadata
  import opened Numerals
  import opened ZmodemFrames
  import opened ZmodemLine
  import R = ZmodemReceiver

  const NAME_LIMIT: nat := 200
  const CHUNK: nat := 1024

  /** The ZFILE subpacket: at most 200 bytes of name, NUL, the decimal size, NUL. */
  function InfoBytes(f: File): seq<byte> {
    Cut(CString(f.name), NAME_LIMIT) + [0] + Decimal(|f.content|) + [0]
  }

  /** The low 32 bits of an offset, low byte first. */
  function OffsetFlags(n: nat): (flags: seq<byte>)
    ensures |flags| == 4
  {
    [n % 256, (n / 0x100) % 256, (n / 0x1_0000) % 256, (n / 0x100_0000) % 256]
  }

  /** The data subpackets from `offset` to the end of the file; only the last one ends the frame. */
  function DataSubpackets(step: CrcStep, content: seq<byte>, offset: nat): seq<byte>
    decreases |content| - offset
  {
    if offset >= |content| then []
    else
      var next := offset + Min(|content| - offset, CHUNK);
      Subpacket(step, content[offset..next], if next >= |content| then ZCRCW else ZCRCG)
      + DataSubpackets(step, content, next)
  }

  /** Waits for the header `frame`; returns its flags. */
  function Expect(z: Crcs, frame: byte, s: seq<Event>): (r: (Option<seq<byte>>, seq<Event>))
    ensures r.0.Some? ==> |r.0.value| == 4
  {
    match ReadHeader(z, false, s)
    case NoHeader(rest) => (None, rest)
    case Found(got, flags, _, rest) => (if got == frame then Some(flags) else None, rest)
  }

  type Outcome = (R.Status, World<()>)

  /** The end of the batch. */
  function Finish(z: Crcs, w: World<()>): Outcome {
    var w1 := w.Sends(HexHeader(z.step, ZFIN, R.ZERO_FLAGS));
    var (flags, rest) := Expect(z, ZFIN, w1.script);
    var w2 := w1.Leaves(rest);
    (R.Ok, if flags.Some? then w2.Sends(R.OVER_AND_OUT) else w2)
  }

  function FileHeader(z: Crcs, f: File): seq<byte> {
    BinHeader(z.step, ZFILE, R.ZERO_FLAGS) + Subpacket(z.step, InfoBytes(f), ZCRCW)
  }

  /** ZDATA from the offset the receiver asked for, the data, and ZEOF. */
  function FileBody(z: Crcs, f: File, offset: nat): seq<byte> {
    BinHeader(z.step, ZDATA, OffsetFlags(offset))
    + DataSubpackets(z.step, f.content, offset)
    + HexHeader(z.step, ZEOF, OffsetFlags(|f.content|))
  }

  /** The batch from file `idx` on. */
  function Batch(z: Crcs, files: seq<File>, idx: nat, w: World<()>): Outcome
    decreases |files| - idx
  {
    if BatchOver(files, idx) then Finish(z, w)
    else
      var w1 := w.Sends(FileHeader(z, files[idx]));
      var (position, rest) := Expect(z, ZRPOS, w1.script);
      if position.None? then (R.TimedOut, w1.Leaves(rest))
      else
        var w2 := w1.Leaves(rest).Sends(FileBody(z, files[idx], LittleEndian(position.value)));
        var (ready, rest') := Expect(z, ZRINIT, rest);
        if ready.None? then (R.TimedOut, w2.Leaves(rest'))
        else Batch(z, files, idx + 1, w2.Leaves(rest'))
  }

  /** zmodem_transmit. */
  function Transmit(z: Crcs, files: seq<File>, w: World<()>): Outcome {
    var w1 := w.Sends(HexHeader(z.step, ZRQINIT, R.ZERO_FLAGS));
    var (ready, rest) := Expect(z, ZRINIT, w1.script);
    if ready.None? then (R.TimedOut, w1.Leaves(rest)) else Batch(z, files, 0, w1.Leaves(rest))
  }

  // ----- the C loops -----

  method Await(port: Port<()>, z: Crcs, frame: byte) returns (flags: Option<seq<byte>>)
    modifies port`script
    ensures (flags, port.script) == Expect(z, frame, old(port.script))
    ensures flags.Some? ==> |flags.value| == 4
  {
    hide ReadHeader;
    var r := ReadFrameHeader(port, z, false);
    if r.Found? && r.frame == frame {
      return Some(r.flags);
    }
    return None;
  }

  /** The file contents from `start` on, in chunks read into a 1024-byte buffer. */
  method SendData(port: Port<()>, z: Crcs, content: seq<byte>, start: nat)
    modifies port`sent
    ensures port.sent == old(port.sent) + DataSubpackets(z.step, content, start)
  {
    hide Subpacket;
    var dataBuf := new byte[1024];
    var offset := start;
    while offset < |content|
      invariant port.sent + DataSubpackets(z.step, content, offset)
             == old(port.sent) + DataSubpackets(z.step, content, start)
      decreases |content| - offset
    {
      var chunk := |content| - offset;
      if chunk > 1024 {
        chunk := 1024;
      }
      forall i | 0 <= i < chunk {
        dataBuf[i] := content[offset + i];
      }
      assert dataBuf[..chunk] == content[offset..offset + chunk];
      ghost var before, from := port.sent, offset;
      offset := offset + chunk;
      var ender := if offset >= |content| then ZCRCW else ZCRCG;
      SendSubpacket(port, z.step, dataBuf[..chunk], ender);
      assert before + DataSubpackets(z.step, content, from)
          == port.sent + DataSubpackets(z.step, content, offset);
    }
  }

  /** One file: header and metadata, the wait for ZRPOS, data and ZEOF, the wait for ZRINIT. */
  method SendFile(port: Port<()>, z: Crcs, files: seq<File>, idx: nat) returns (ok: bool)
    requires !BatchOver(files, idx)
    modifies port
    ensures Batch(z, files, idx, old(port.W())) ==
            if ok then Batch(z, files, idx + 1, port.W()) else (R.TimedOut, port.W())
  {
    hide BinHeader, Subpacket, HexHeader, DataSubpackets, Expect, InfoBytes, OffsetFlags, LittleEndian;
    var f := files[idx];
    SendBinaryHeader(port, z.step, ZFILE, R.ZERO_FLAGS);
    SendSubpacket(port, z.step, InfoBytes(f), ZCRCW);
    assert port.sent == old(port.sent) + FileHeader(z, f);
    var position := Await(port, z, ZRPOS);
    if position.None? {
      return false;
    }
    ghost var sent := port.sent;
    var offset := LittleEndian(position.value);
    SendBinaryHeader(port, z.step, ZDATA, OffsetFlags(offset));
    SendData(port, z, f.content, offset);
    SendHexHeader(port, z.step, ZEOF, OffsetFlags(|f.content|));
    assert port.sent == sent + FileBody(z, f, offset);
    var ready := Await(port, z, ZRINIT);
    ok := ready.Some?;
  }

  method ZmodemTransmit(port: Port<()>, z: Crcs, files: seq<File>) returns (status: R.Status)
    modifies port
    ensures (status, port.W()) == Transmit(z, files, old(port.W()))
  {
    hide HexHeader, Expect, FileHeader, FileBody;
    SendHexHeader(port, z.step, ZRQINIT, R.ZERO_FLAGS);
    var ready := Await(port, z, ZRINIT);
    if ready.None? {
      return R.TimedOut;
    }
    var idx := 0;
    while !BatchOver(files, idx)
      invariant Transmit(z, files, old(port.W())) == Batch(z, files, idx, port.W())
      decreases |files| - idx
    {
      var ok := SendFile(port, z, files, idx);
      if !ok {
        return R.TimedOut;
      }
      idx := idx + 1;
    }
    SendHexHeader(port, z.step, ZFIN, R.ZERO_FLAGS);
    var closed := Await(port, z, ZFIN);
    if closed.Some? {
      port.Write(R.OVER_AND_OUT);
    }
    return R.Ok;
  }
}
