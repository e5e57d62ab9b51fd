/** The loops that write and read ZMODEM frames byte by byte. The receiving and the transmitting
    engine of the source each have their own copy; the copies differ only in the callback struct
    and in the two rubout codes. */
module ZmodemLine {
  import opened Serial
  import opened Checks
  import opened ZmodemFrames

  lemma {:induction false} HexDigitsAppend(bs: seq<byte>, b: byte)
    ensures HexDigits(bs + [b]) == HexDigits(bs) + [HexDigit(b / 16), HexDigit(b % 16)]
  {
    if bs == [] {
      assert bs + [b] == [b];
    } else {
      HexDigitsAppend(bs[1..], b);
      assert (bs + [b])[1..] == bs[1..] + [b];
    }
  }

  lemma {:induction false} EscapeAllAppend(bs: seq<byte>, b: byte)
    ensures EscapeAll(bs + [b]) == EscapeAll(bs) + Escape(b)
  {
    hide Escape;
    if bs == [] {
      assert bs + [b] == [b];
    } else {
      EscapeAllAppend(bs[1..], b);
      assert (bs + [b])[1..] == bs[1..] + [b];
    }
  }

  lemma {:induction false} HexDigitsLength(bs: seq<byte>)
    ensures |HexDigits(bs)| == 2 * |bs|
  {
    if bs != [] {
      HexDigitsLength(bs[1..]);
    }
  }

  /** Puts the hexadecimal form of `bs` into `buf` from `start` on. */
  method PutHex(buf: array<byte>, start: nat, bs: seq<byte>) returns (pos: nat)
    requires start + 2 * |bs| <= buf.Length
    modifies buf
    ensures pos == start + 2 * |bs|
    ensures buf[..pos] == old(buf[..start]) + HexDigits(bs)
  {
    pos := start;
    for i := 0 to |bs|
      invariant pos == start + 2 * i
      invariant buf[..pos] == old(buf[..start]) + HexDigits(bs[..i])
    {
      var b := bs[i];
      buf[pos] := HexDigit(b / 16);
      buf[pos + 1] := HexDigit(b % 16);
      HexDigitsAppend(bs[..i], b);
      assert bs[..i + 1] == bs[..i] + [b];
      assert buf[..pos + 2] == buf[..pos] + [HexDigit(b / 16), HexDigit(b % 16)];
      pos := pos + 2;
    }
    assert bs[..|bs|] == bs;
  }

  /** send_hex_header. The buffer has the 21 bytes that a frame with XON needs. */
  method SendHexHeader<C>(port: Port<C>, step: CrcStep, frame: byte, flags: seq<byte>)
    requires |flags| == 4
    modifies port`sent
    ensures port.sent == old(port.sent) + HexHeader(step, frame, flags)
  {
    var buf := new byte[21];
    buf[0], buf[1], buf[2], buf[3] := ZPAD, ZPAD, ZDLE, ZHEX;
    assert buf[..4] == [ZPAD, ZPAD, ZDLE, ZHEX];
    var hbuf := [frame] + flags;
    var crc := Crc16(step, hbuf);
    var pos := PutHex(buf, 4, hbuf + CrcBytes(crc));
    buf[pos], buf[pos + 1] := 0x0D, 0x0A;
    assert buf[..pos + 2] == buf[..pos] + [0x0D, 0x0A];
    pos := pos + 2;
    if frame != ZFIN && frame != ZACK {
      buf[pos] := XON;
      assert buf[..pos + 1] == buf[..pos] + [XON];
      pos := pos + 1;
    }
    assert buf[..pos] == HexCore(step, frame, flags) + HexTail(frame);
    port.Write(buf[..pos]);
  }

  /** send_zdle_byte_tx. */
  method SendZdleByte<C>(port: Port<C>, b: byte)
    modifies port`sent
    ensures port.sent == old(port.sent) + Escape(b)
  {
    if b == ZDLE || b == 0x11 || b == 0x13 || b == 0x81 || b == 0x83 {
      port.Write([ZDLE, Flip40(b)]);
    } else {
      port.Write([b]);
    }
  }

  method SendEscaped<C>(port: Port<C>, bs: seq<byte>)
    modifies port`sent
    ensures port.sent == old(port.sent) + EscapeAll(bs)
  {
    for i := 0 to |bs|
      invariant port.sent == old(port.sent) + EscapeAll(bs[..i])
    {
      SendZdleByte(port, bs[i]);
      EscapeAllAppend(bs[..i], bs[i]);
      assert bs[..i + 1] == bs[..i] + [bs[i]];
    }
    assert bs[..|bs|] == bs;
  }

  /** send_binary_header_tx. */
  method SendBinaryHeader<C>(port: Port<C>, step: CrcStep, frame: byte, flags: seq<byte>)
    modifies port`sent
    ensures port.sent == old(port.sent) + BinHeader(step, frame, flags)
  {
    port.Write([ZPAD, ZDLE, ZBIN]);
    var hbuf := [frame] + flags;
    SendEscaped(port, hbuf + CrcBytes(Crc16(step, hbuf)));
  }

  /** send_subpacket_tx. */
  method SendSubpacket<C>(port: Port<C>, step: CrcStep, data: seq<byte>, ender: byte)
    modifies port`sent
    ensures port.sent == old(port.sent) + Subpacket(step, data, ender)
  {
    SendEscaped(port, data);
    port.Write([ZDLE, ender]);
    var crc := Fold(step, Crc16(step, data), [ender]);
    SendEscaped(port, CrcBytes(crc));
  }

  /** read_zdle_byte_rx and read_zdle_byte_tx. */
  method ReadZdleByte<C>(port: Port<C>, rubouts: bool) returns (r: int, b: byte)
    modifies port`script
    ensures match ReadZdle(rubouts, old(port.script))
            case Plain(c, rest) => r == 0 && b == c && port.script == rest
            case Ender(c, rest) => r == 1 && b == c && port.script == rest
            case Unread(cancelled, rest) => r == (if cancelled then -2 else -1) && port.script == rest
  {
    var e := port.ReadByte();
    if e == Cancel {
      return -2, 0;
    }
    if !e.Byte? {
      return -1, 0;
    }
    if e.value != ZDLE {
      return 0, e.value;
    }
    e := port.ReadByte();
    if !e.Byte? {
      return -1, 0;
    }
    if IsEnder(e.value) {
      return 1, e.value;
    }
    if e.value == ZDLEE {
      return 0, ZDLE;
    }
    if rubouts && e.value == ZRUB0 {
      return 0, 0x7F;
    }
    if rubouts && e.value == ZRUB1 {
      return 0, 0xFF;
    }
    return 0, Flip40(e.value);
  }

  method ReadEscapedBytes<C>(port: Port<C>, rubouts: bool, n: nat) returns (ok: bool, bs: seq<byte>)
    modifies port`script
    ensures var r := ReadEscaped(rubouts, old(port.script), n, []);
      port.script == r.rest && ok == r.Got? && (ok ==> bs == r.bytes)
  {
    hide ReadZdle;
    bs := [];
    for i := 0 to n
      invariant |bs| == i
      invariant ReadEscaped(rubouts, old(port.script), n, []) == ReadEscaped(rubouts, port.script, n, bs)
    {
      var r, b := ReadZdleByte(port, rubouts);
      if r < 0 {
        return false, [];
      }
      bs := bs + [b];
    }
    ok := true;
  }

  /** The body of a header in one of the three formats. */
  method ReadHeaderBody<C>(port: Port<C>, z: Crcs, rubouts: bool, format: byte) returns (r: HeaderRead)
    requires format == ZHEX || format == ZBIN || format == ZBIN32
    modifies port`script
    ensures port.script == r.rest
    ensures r == if format == ZHEX then ReadHexBody(z, old(port.script))
                 else if format == ZBIN then ReadBinBody(z, rubouts, old(port.script))
                 else ReadBin32Body(z, rubouts, old(port.script))
  {
    if format == ZHEX {
      var hexbuf := new byte[14];
      var ok, _ := port.FillBuffer(hexbuf, 14);
      if !ok || !AllHex(hexbuf[..14]) {
        return NoHeader(port.script);
      }
      var bs := Unhex(hexbuf[..14]);
      return CheckHeader(bs[..5], false, Join(bs[5], bs[6]) == Crc16(z.step, bs[..5]), port.script);
    } else if format == ZBIN {
      var ok, bs := ReadEscapedBytes(port, rubouts, 7);
      if !ok {
        return NoHeader(port.script);
      }
      return CheckHeader(bs[..5], false, Join(bs[5], bs[6]) == Crc16(z.step, bs[..5]), port.script);
    } else {
      var ok, bs := ReadEscapedBytes(port, rubouts, 9);
      if !ok {
        return NoHeader(port.script);
      }
      return CheckHeader(bs[..5], true, LittleEndian(bs[5..]) == z.crc32(bs[..5]), port.script);
    }
  }

  /** read_header_rx and read_header_tx. */
  method ReadFrameHeader<C>(port: Port<C>, z: Crcs, rubouts: bool) returns (r: HeaderRead)
    modifies port`script
    ensures r == ReadHeader(z, rubouts, old(port.script)) && port.script == r.rest
  {
    hide ReadHexBody, ReadBinBody, ReadBin32Body;
    while true
      invariant ReadHeader(z, rubouts, old(port.script)) == ReadHeader(z, rubouts, port.script)
      decreases |port.script|
    {
      var e := port.ReadByte();
      if !e.Byte? {
        return NoHeader(port.script);
      }
      if e.value == ZPAD {
        e := port.ReadByte();
        if !e.Byte? {
          return NoHeader(port.script);
        }
        if e.value == ZPAD || e.value == ZDLE {
          if e.value == ZPAD {
            e := port.ReadByte();
            if !e.Byte? {
              return NoHeader(port.script);
            }
          }
          if e.value == ZDLE {
            e := port.ReadByte();
            if !e.Byte? {
              return NoHeader(port.script);
            }
            if e.value == ZHEX || e.value == ZBIN || e.value == ZBIN32 {
              r := ReadHeaderBody(port, z, rubouts, e.value);
              return;
            }
          }
        }
      }
    }
  }

  /** read_subpacket_rx: fills `buf`; returns the payload length and the ender. */
  method ReadSubpacketInto<C>(port: Port<C>, z: Crcs, buf: array<byte>, crc32: bool)
    returns (ok: bool, len: nat, ender: byte)
    modifies port`script, buf
    ensures len <= buf.Length
    ensures var r := ReadSubpacket(z, crc32, buf.Length, old(port.script), []);
      && port.script == r.rest && ok == r.Sub?
      && (ok ==> r == Sub(buf[..len], ender, port.script))
  {
    hide ReadZdle;
    var pos := 0;
    assert buf[..0] == [];
    while true
      invariant 0 <= pos <= buf.Length
      invariant ReadSubpacket(z, crc32, buf.Length, old(port.script), [])
             == ReadSubpacket(z, crc32, buf.Length, port.script, buf[..pos])
      decreases |port.script|
    {
      var r, b := ReadZdleByte(port, true);
      if r < 0 {
        return false, pos, 0;
      }
      if r == 1 {
        var got, c := ReadEscapedBytes(port, true, if crc32 then 4 else 2);
        if !got {
          return false, pos, b;
        }
        var matches := if crc32
          then LittleEndian(c) == 0xFFFF_FFFF - Fold32(z.step32, Fold32(z.step32, 0xFFFF_FFFF, buf[..pos]), [b])
          else Join(c[0], c[1]) == Fold(z.step, Crc16(z.step, buf[..pos]), [b]);
        return matches, pos, b;
      }
      if pos == buf.Length {
        return false, pos, 0;
      }
      buf[pos] := b;
      assert buf[..pos + 1] == buf[..pos] + [b];
      pos := pos + 1;
    }
  }
}
