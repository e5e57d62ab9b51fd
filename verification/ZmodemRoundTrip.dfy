/** Writing and reading ZMODEM frames undo each other, for every CRC. */
module ZmodemRoundTrip {
  import opened Serial
  import opened Checks
  import opened ZmodemFrames

  // ----- escaping -----

  /** Escape codes collide with no ender and no rubout code, and flip back. */
  lemma EscapeCodes(b: byte)
    requires MustEscape(b)
    ensures !IsEnder(Flip40(b)) && Flip40(b) != ZRUB0 && Flip40(b) != ZRUB1
    ensures Flip40(b) == ZDLEE <==> b == ZDLE
    ensures Flip40(Flip40(b)) == b
  {
  }

  lemma EscapeReads(rubouts: bool, b: byte, rest: seq<Event>)
    ensures ReadZdle(rubouts, Bytes(Escape(b)) + rest) == Plain(b, rest)
  {
    hide Flip40;
    if MustEscape(b) {
      EscapeCodes(b);
      assert Escape(b) == [ZDLE] + [Flip40(b)] && [Flip40(b)] == [Flip40(b)] + [];
      BytesHead(ZDLE, [Flip40(b)], rest);
      BytesHead(Flip40(b), [], rest);
    } else {
      assert Escape(b) == [b] + [];
      BytesHead(b, [], rest);
    }
    assert Bytes([]) + rest == rest;
  }

  lemma NothingEscaped(rest: seq<Event>)
    ensures Bytes(EscapeAll([])) + rest == rest
  {
  }

  lemma EscapeAllSplit(bs: seq<byte>, rest: seq<Event>)
    requires bs != []
    ensures Bytes(EscapeAll(bs)) + rest == Bytes(Escape(bs[0])) + (Bytes(EscapeAll(bs[1..])) + rest)
  {
    BytesAppend(Escape(bs[0]), EscapeAll(bs[1..]), rest);
  }

  lemma {:induction false} EscapeAllReads(rubouts: bool, bs: seq<byte>, rest: seq<Event>, acc: seq<byte>)
    ensures ReadEscaped(rubouts, Bytes(EscapeAll(bs)) + rest, |acc| + |bs|, acc) == Got(acc + bs, rest)
    decreases |bs|
  {
    hide Bytes, EscapeAll, ReadZdle;
    if bs == [] {
      NothingEscaped(rest);
      assert acc + bs == acc;
    } else {
      var b, more := bs[0], bs[1..];
      EscapeAllSplit(bs, rest);
      EscapeReads(rubouts, b, Bytes(EscapeAll(more)) + rest);
      EscapeAllReads(rubouts, more, rest, acc + [b]);
      assert acc + bs == acc + [b] + more;
    }
  }

  // ----- subpackets -----

  lemma OneByteReads(z: Crcs, max: nat, b: byte, s: seq<Event>, data: seq<byte>)
    requires |data| < max
    ensures ReadSubpacket(z, false, max, Bytes(Escape(b)) + s, data)
         == ReadSubpacket(z, false, max, s, data + [b])
  {
    hide ReadZdle, ReadSubpacketEnd, Escape;
    EscapeReads(true, b, s);
  }

  lemma {:induction false} DataReads(z: Crcs, max: nat, bs: seq<byte>, s: seq<Event>, data: seq<byte>)
    requires |data| + |bs| <= max
    ensures ReadSubpacket(z, false, max, Bytes(EscapeAll(bs)) + s, data)
         == ReadSubpacket(z, false, max, s, data + bs)
    decreases |bs|
  {
    hide Bytes, EscapeAll, ReadSubpacket;
    if bs == [] {
      NothingEscaped(s);
      assert data + bs == data;
    } else {
      var b, more := bs[0], bs[1..];
      EscapeAllSplit(bs, s);
      OneByteReads(z, max, b, Bytes(EscapeAll(more)) + s, data);
      DataReads(z, max, more, s, data + [b]);
      assert data + bs == data + [b] + more;
    }
  }

  lemma EnderReads(z: Crcs, max: nat, data: seq<byte>, ender: byte, rest: seq<Event>)
    requires IsEnder(ender)
    ensures var tail := [ZDLE, ender] + EscapeAll(CrcBytes(SubpacketCrc(z.step, data, ender)));
      ReadSubpacket(z, false, max, Bytes(tail) + rest, data) == Sub(data, ender, rest)
  {
    hide EscapeAll, SubpacketCrc;
    var crc := CrcBytes(SubpacketCrc(z.step, data, ender));
    assert [ZDLE, ender] + EscapeAll(crc) == [ZDLE] + ([ender] + EscapeAll(crc));
    BytesHead(ZDLE, [ender] + EscapeAll(crc), rest);
    BytesHead(ender, EscapeAll(crc), rest);
    EscapeAllReads(true, crc, rest, []);
    assert [] + crc == crc;
    JoinSplit(SubpacketCrc(z.step, data, ender));
  }

  /** Subpackets are lossless and self-delimiting: reading one returns the payload and ender,
      accepts the CRC and leaves exactly what follows. */
  lemma SubpacketReads(z: Crcs, max: nat, data: seq<byte>, ender: byte, rest: seq<Event>)
    requires |data| <= max && IsEnder(ender)
    ensures ReadSubpacket(z, false, max, Bytes(Subpacket(z.step, data, ender)) + rest, [])
         == Sub(data, ender, rest)
  {
    hide EscapeAll, SubpacketCrc, ReadSubpacket;
    var tail := [ZDLE, ender] + EscapeAll(CrcBytes(SubpacketCrc(z.step, data, ender)));
    BytesAppend(EscapeAll(data), tail, rest);
    DataReads(z, max, data, Bytes(tail) + rest, []);
    assert [] + data == data;
    EnderReads(z, max, data, ender, rest);
  }

  /** The CRC that closes a subpacket is the CRC of the payload with the ender appended. */
  lemma SubpacketCrcCoversEnder(step: CrcStep, data: seq<byte>, ender: byte)
    ensures SubpacketCrc(step, data, ender) == Crc16(step, data + [ender])
  {
    FoldChains(step, 0xFFFF, data, [ender]);
  }

  predicate FlowSafe(bs: seq<byte>) {
    forall b :: b in bs ==> b != 0x11 && b != 0x13 && b != 0x81 && b != 0x83
  }

  lemma {:induction false} EscapeAllFlowSafe(bs: seq<byte>)
    ensures FlowSafe(EscapeAll(bs))
  {
    if bs != [] {
      EscapeAllFlowSafe(bs[1..]);
      assert FlowSafe(Escape(bs[0]));
    }
  }

  /** No bare 0x11, 0x13, 0x81 or 0x83 appears in a subpacket. */
  lemma SubpacketFlowSafe(step: CrcStep, data: seq<byte>, ender: byte)
    requires IsEnder(ender)
    ensures FlowSafe(Subpacket(step, data, ender))
  {
    hide EscapeAll, SubpacketCrc;
    EscapeAllFlowSafe(data);
    EscapeAllFlowSafe(CrcBytes(SubpacketCrc(step, data, ender)));
  }

  // ----- headers -----

  lemma {:induction false} HexReads(bs: seq<byte>)
    ensures |HexDigits(bs)| == 2 * |bs| && AllHex(HexDigits(bs)) && Unhex(HexDigits(bs)) == bs
  {
    if bs != [] {
      var h, more := HexDigits(bs), HexDigits(bs[1..]);
      HexReads(bs[1..]);
      assert h[2..] == more;
      assert forall i :: 2 <= i < |h| ==> h[i] == more[i - 2];
      assert AllHex(h);
      assert 16 * (bs[0] / 16) + bs[0] % 16 == bs[0];
    }
  }

  /** Bytes before a frame start are skipped. */
  lemma {:induction false} NoiseSkipped(z: Crcs, rubouts: bool, noise: seq<byte>, s: seq<Event>)
    requires ZPAD !in noise
    ensures ReadHeader(z, rubouts, Bytes(noise) + s) == ReadHeader(z, rubouts, s)
  {
    if noise == [] {
      assert Bytes(noise) + s == s;
    } else {
      hide ReadFormat;
      BytesHead(noise[0], noise[1..], s);
      assert noise == [noise[0]] + noise[1..];
      NoiseSkipped(z, rubouts, noise[1..], s);
    }
  }

  /** The seven header bytes that carry a header and its CRC. */
  function Sealed(step: CrcStep, frame: byte, flags: seq<byte>): seq<byte> {
    [frame] + flags + CrcBytes(Crc16(step, [frame] + flags))
  }

  lemma SealedAccepted(z: Crcs, frame: byte, flags: seq<byte>, rest: seq<Event>)
    requires |flags| == 4
    ensures var bs := Sealed(z.step, frame, flags);
      && |bs| == 7
      && CheckHeader(bs[..5], false, Join(bs[5], bs[6]) == Crc16(z.step, bs[..5]), rest)
         == Found(frame, flags, false, rest)
  {
    var bs := Sealed(z.step, frame, flags);
    assert bs[..5] == [frame] + flags && bs[..5][1..] == flags;
    JoinSplit(Crc16(z.step, [frame] + flags));
  }

  lemma HexCoreReads(z: Crcs, rubouts: bool, frame: byte, flags: seq<byte>, rest: seq<Event>)
    requires |flags| == 4
    ensures ReadHeader(z, rubouts, Bytes(HexCore(z.step, frame, flags)) + rest)
         == Found(frame, flags, false, rest)
  {
    hide HexDigits, Crc16, Unhex, ReadBinBody, ReadBin32Body, Fill;
    var bs := Sealed(z.step, frame, flags);
    var h := HexDigits(bs);
    HexReads(bs);
    SealedAccepted(z, frame, flags, rest);
    assert HexCore(z.step, frame, flags) == [ZPAD] + ([ZPAD] + ([ZDLE] + ([ZHEX] + h)));
    BytesHead(ZPAD, [ZPAD] + ([ZDLE] + ([ZHEX] + h)), rest);
    BytesHead(ZPAD, [ZDLE] + ([ZHEX] + h), rest);
    BytesHead(ZDLE, [ZHEX] + h, rest);
    BytesHead(ZHEX, h, rest);
    FillReads(h, rest, []);
    assert [] + h == h;
  }

  /** A HEX header is found after any bytes free of ZPAD; the reader stops before its CR LF XON
      tail, which is itself free of ZPAD. Both header readers do this. */
  lemma HexHeaderReads(z: Crcs, rubouts: bool, noise: seq<byte>, frame: byte, flags: seq<byte>, rest: seq<Event>)
    requires ZPAD !in noise && |flags| == 4
    ensures ZPAD !in HexTail(frame)
    ensures ReadHeader(z, rubouts, Bytes(noise + HexHeader(z.step, frame, flags)) + rest)
         == Found(frame, flags, false, Bytes(HexTail(frame)) + rest)
  {
    hide ReadHeader, HexCore;
    BytesAppend(noise, HexHeader(z.step, frame, flags), rest);
    NoiseSkipped(z, rubouts, noise, Bytes(HexHeader(z.step, frame, flags)) + rest);
    BytesAppend(HexCore(z.step, frame, flags), HexTail(frame), rest);
    HexCoreReads(z, rubouts, frame, flags, Bytes(HexTail(frame)) + rest);
  }

  lemma BinHeaderAtStart(z: Crcs, rubouts: bool, frame: byte, flags: seq<byte>, rest: seq<Event>)
    requires |flags| == 4
    ensures ReadHeader(z, rubouts, Bytes(BinHeader(z.step, frame, flags)) + rest)
         == Found(frame, flags, false, rest)
  {
    hide EscapeAll, Crc16, ReadHexBody, ReadBin32Body, ReadEscaped;
    var bs := Sealed(z.step, frame, flags);
    SealedAccepted(z, frame, flags, rest);
    var h := EscapeAll(bs);
    assert BinHeader(z.step, frame, flags) == [ZPAD] + ([ZDLE] + ([ZBIN] + h));
    BytesHead(ZPAD, [ZDLE] + ([ZBIN] + h), rest);
    BytesHead(ZDLE, [ZBIN] + h, rest);
    BytesHead(ZBIN, h, rest);
    EscapeAllReads(rubouts, bs, rest, []);
    assert [] + bs == bs;
  }

  /** A BIN16 header is found after any bytes free of ZPAD and consumed exactly. */
  lemma BinHeaderReads(z: Crcs, rubouts: bool, noise: seq<byte>, frame: byte, flags: seq<byte>, rest: seq<Event>)
    requires ZPAD !in noise && |flags| == 4
    ensures ReadHeader(z, rubouts, Bytes(noise + BinHeader(z.step, frame, flags)) + rest)
         == Found(frame, flags, false, rest)
  {
    hide ReadHeader, BinHeader;
    BytesAppend(noise, BinHeader(z.step, frame, flags), rest);
    NoiseSkipped(z, rubouts, noise, Bytes(BinHeader(z.step, frame, flags)) + rest);
    BinHeaderAtStart(z, rubouts, frame, flags, rest);
  }

  /** A HEX frame fits the source's buffer of 20 bytes exactly if it carries no XON. */
  lemma HexHeaderLength(step: CrcStep, frame: byte, flags: seq<byte>)
    requires |flags| == 4
    ensures |HexHeader(step, frame, flags)| <= 20 <==> frame == ZFIN || frame == ZACK
    ensures |HexHeader(step, frame, flags)| <= 21
  {
    hide Crc16, HexDigits;
    HexReads([frame] + flags + CrcBytes(Crc16(step, [frame] + flags)));
  }

  // ----- the bytes of a frame -----

  /** A HEX frame byte by byte: two ZPADs, ZDLE and 'B'; fourteen lower-case hexadecimal digits for type,
      flags and CRC; CR, LF and, except after ZFIN and ZACK, XON. */
  lemma HexHeaderLayout(step: CrcStep, frame: byte, flags: seq<byte>)
    requires |flags| == 4
    ensures var h := HexHeader(step, frame, flags);
      && |h| >= 20 && h[..4] == [0x2A, 0x2A, 0x18, 0x42]
      && (forall i :: 4 <= i < 18 ==> 0x30 <= h[i] <= 0x39 || 0x61 <= h[i] <= 0x66)
      && AllHex(h[4..18]) && Unhex(h[4..18]) == [frame] + flags + CrcBytes(Crc16(step, [frame] + flags))
      && h[18..] == if frame == 8 || frame == 3 then [0x0D, 0x0A] else [0x0D, 0x0A, 0x11]
  {
    hide Crc16, Unhex;
    var bs := [frame] + flags + CrcBytes(Crc16(step, [frame] + flags));
    HexReads(bs);
    LowerCase(bs);
    var h, d := HexHeader(step, frame, flags), HexDigits(bs);
    assert h[4..18] == d;
    assert forall i :: 4 <= i < 18 ==> h[i] == d[i - 4] && d[i - 4] in d;
  }

  lemma {:induction false} LowerCase(bs: seq<byte>)
    ensures forall b :: b in HexDigits(bs) ==> 0x30 <= b <= 0x39 || 0x61 <= b <= 0x66
  {
    if bs != [] {
      LowerCase(bs[1..]);
    }
  }

  /** A BIN16 frame: ZPAD, ZDLE and 'A', and then type, flags and CRC, escaped. */
  lemma BinHeaderLayout(step: CrcStep, frame: byte, flags: seq<byte>)
    ensures var h := BinHeader(step, frame, flags);
      && h[..3] == [0x2A, 0x18, 0x41] && FlowSafe(h)
      && h[3..] == EscapeAll([frame] + flags + CrcBytes(Crc16(step, [frame] + flags)))
  {
    hide EscapeAll, Crc16;
    EscapeAllFlowSafe([frame] + flags + CrcBytes(Crc16(step, [frame] + flags)));
  }

  // ----- finding headers -----

  /** Bytes that a search for a header passes over: anything but ZPAD; ZPAD before anything but ZPAD and
      ZDLE; two ZPADs before anything but ZDLE; and an opening with an unknown format byte. A third ZPAD
      is thus lost together with the first two. */
  predicate Skippable(noise: seq<byte>)
    decreases |noise|
  {
    if noise == [] then true
    else if noise[0] != ZPAD then Skippable(noise[1..])
    else if |noise| == 1 then false
    else if noise[1] == ZDLE then |noise| > 2 && noise[2] !in {ZHEX, ZBIN, ZBIN32} && Skippable(noise[3..])
    else if noise[1] != ZPAD then Skippable(noise[2..])
    else if |noise| == 2 then false
    else if noise[2] == ZDLE then |noise| > 3 && noise[3] !in {ZHEX, ZBIN, ZBIN32} && Skippable(noise[4..])
    else Skippable(noise[3..])
  }

  /** Such bytes change nothing for what follows them: a header there is found, and a failed read there ends
      the search. */
  lemma {:induction false} SearchSkips(z: Crcs, rubouts: bool, noise: seq<byte>, s: seq<Event>)
    requires Skippable(noise)
    ensures ReadHeader(z, rubouts, Bytes(noise) + s) == ReadHeader(z, rubouts, s)
    ensures ReadHeader(z, rubouts, Bytes(noise) + ([Timeout] + s)) == NoHeader(s)
    decreases |noise|
  {
    hide Bytes;
    if noise == [] {
      BytesNone(noise, s);
      BytesNone(noise, [Timeout] + s);
      assert ([Timeout] + s)[1..] == s;
    } else {
      var k := SkippedHere(z, rubouts, noise, s);
      var k' := SkippedHere(z, rubouts, noise, [Timeout] + s);
      SearchSkips(z, rubouts, noise[k..], s);
    }
  }

  lemma FirstByte(noise: seq<byte>, s: seq<Event>)
    requires noise != []
    ensures Head(Bytes(noise) + s) == Byte(noise[0]) && Tail(Bytes(noise) + s) == Bytes(noise[1..]) + s
  {
    hide Bytes;
    assert noise == [noise[0]] + noise[1..];
    BytesHead(noise[0], noise[1..], s);
  }

  lemma FirstBytes(noise: seq<byte>, s: seq<Event>)
    ensures var t := Bytes(noise) + s;
      && (|noise| > 0 ==> Head(t) == Byte(noise[0]) && Tail(t) == Bytes(noise[1..]) + s)
      && (|noise| > 1 ==> Head(Tail(t)) == Byte(noise[1]) && Tail(Tail(t)) == Bytes(noise[2..]) + s)
      && (|noise| > 2 ==> Head(Tail(Tail(t))) == Byte(noise[2]) && Tail(Tail(Tail(t))) == Bytes(noise[3..]) + s)
      && (|noise| > 3 ==> Head(Tail(Tail(Tail(t)))) == Byte(noise[3])
                          && Tail(Tail(Tail(Tail(t)))) == Bytes(noise[4..]) + s)
  {
    hide Bytes, Head, Tail;
    if |noise| > 0 {
      FirstByte(noise, s);
    }
    if |noise| > 1 {
      FirstByte(noise[1..], s);
      assert noise[1..][1..] == noise[2..];
    }
    if |noise| > 2 {
      FirstByte(noise[2..], s);
      assert noise[2..][1..] == noise[3..];
    }
    if |noise| > 3 {
      FirstByte(noise[3..], s);
      assert noise[3..][1..] == noise[4..];
    }
  }

  /** One piece of it. */
  lemma SkippedHere(z: Crcs, rubouts: bool, noise: seq<byte>, s: seq<Event>) returns (k: nat)
    requires noise != [] && Skippable(noise)
    ensures k == Piece(noise) && 0 < k <= |noise| && Skippable(noise[k..])
    ensures ReadHeader(z, rubouts, Bytes(noise) + s) == ReadHeader(z, rubouts, Bytes(noise[k..]) + s)
  {
    hide Bytes, ReadHexBody, ReadBinBody, ReadBin32Body;
    FirstBytes(noise, s);
    k := Piece(noise);
  }

  function Piece(noise: seq<byte>): nat {
    if noise == [] || noise[0] != ZPAD then 1
    else if |noise| > 1 && noise[1] == ZDLE then 3
    else if |noise| > 1 && noise[1] != ZPAD then 2
    else if |noise| > 2 && noise[2] == ZDLE then 4
    else 3
  }

  // ----- hexadecimal digits of either case -----

  predicate Denotes(c: byte, v: nat) {
    if v < 10 then c == 0x30 + v else v < 16 && (c == 0x61 + (v - 10) || c == 0x41 + (v - 10))
  }

  /** `h` spells the bytes in hexadecimal, in lower or upper case or both. */
  predicate SpelledOut(h: seq<byte>, bs: seq<byte>)
    decreases |bs|
  {
    if bs == [] then h == []
    else |h| >= 2 && Denotes(h[0], bs[0] / 16) && Denotes(h[1], bs[0] % 16) && SpelledOut(h[2..], bs[1..])
  }

  lemma {:induction false} SpelledReads(h: seq<byte>, bs: seq<byte>)
    requires SpelledOut(h, bs)
    ensures |h| == 2 * |bs| && AllHex(h) && Unhex(h) == bs
    decreases |bs|
  {
    if bs != [] {
      SpelledReads(h[2..], bs[1..]);
      assert forall i :: 2 <= i < |h| ==> h[i] == h[2..][i - 2];
      assert 16 * (bs[0] / 16) + bs[0] % 16 == bs[0];
    }
  }

  lemma HexBodyFollows(z: Crcs, rubouts: bool, h: seq<byte>, rest: seq<Event>)
    ensures ReadHeader(z, rubouts, Bytes([ZPAD, ZPAD, ZDLE, ZHEX] + h) + rest) == ReadHexBody(z, Bytes(h) + rest)
  {
    hide ReadHexBody, ReadBinBody, ReadBin32Body, Bytes;
    var opening: seq<byte> := [ZPAD, ZPAD, ZDLE, ZHEX];
    FirstBytes(opening + h, rest);
    assert (opening + h)[4..] == h;
  }

  /** A HEX header may be written in either case; ... */
  lemma HexEitherCase(z: Crcs, rubouts: bool, frame: byte, flags: seq<byte>, h: seq<byte>, rest: seq<Event>)
    requires |flags| == 4 && SpelledOut(h, Sealed(z.step, frame, flags))
    ensures ReadHeader(z, rubouts, Bytes([ZPAD, ZPAD, ZDLE, ZHEX] + h) + rest) == Found(frame, flags, false, rest)
  {
    hide Crc16, Unhex, Fill, Bytes, ReadHeader;
    HexBodyFollows(z, rubouts, h, rest);
    SpelledReads(h, Sealed(z.step, frame, flags));
    FillReads(h, rest, []);
    assert [] + h == h;
    SealedAccepted(z, frame, flags, rest);
  }

  /** ... fourteen bytes of which one is no hexadecimal digit are no header. */
  lemma NoHexNoHeader(z: Crcs, rubouts: bool, h: seq<byte>, c: byte, rest: seq<Event>)
    requires |h| == 14 && c in h && forall v: nat :: !Denotes(c, v)
    ensures ReadHeader(z, rubouts, Bytes([ZPAD, ZPAD, ZDLE, ZHEX] + h) + rest) == NoHeader(rest)
  {
    hide Crc16, Unhex, Fill, Bytes, ReadHeader;
    HexBodyFollows(z, rubouts, h, rest);
    FillReads(h, rest, []);
    assert [] + h == h;
    NotHex(c);
  }

  lemma NotHex(c: byte)
    requires forall v: nat :: !Denotes(c, v)
    ensures Nibble(c) < 0
  {
    if Nibble(c) >= 0 {
      assert Denotes(c, Nibble(c));
    }
  }

  /** What a byte after ZDLE stands for: the enders for themselves, ZDLEE for ZDLE, in the receiver's reader
      the two rubout codes for 0x7F and 0xFF, and anything else for itself with bit 6 flipped. */
  lemma AfterZdleReads(rubouts: bool, b: byte, rest: seq<Event>)
    ensures ReadZdle(rubouts, [Byte(0x18)] + ([Byte(b)] + rest))
         == if 0x68 <= b <= 0x6B then Ender(b, rest)
            else if b == 0x58 then Plain(0x18, rest)
            else if rubouts && b == 0x6C then Plain(0x7F, rest)
            else if rubouts && b == 0x6D then Plain(0xFF, rest)
            else Plain(if (b / 64) % 2 == 0 then b + 64 else b - 64, rest)
  {
    var s := [Byte(0x18)] + ([Byte(b)] + rest);
    assert s[1..] == [Byte(b)] + rest && s[1..][1..] == rest;
  }
}
