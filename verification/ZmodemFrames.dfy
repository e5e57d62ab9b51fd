/** ZMODEM framing (src/zmodem.c:18-385, 484-522): ZDLE escaping, HEX and binary headers, and
    data subpackets closed by a CRC. What is written and how it is read. */
module ZmodemFrames {
  import opened Serial
  import opened Checks

  const ZPAD: byte := 0x2A
  const ZDLE: byte := 0x18
  const ZDLEE: byte := 0x58
  const ZBIN: byte := 0x41
  const ZHEX: byte := 0x42
  const ZBIN32: byte := 0x43
  const XON: byte := 0x11

  const ZRQINIT: byte := 0
  const ZRINIT: byte := 1
  const ZACK: byte := 3
  const ZFILE: byte := 4
  const ZFIN: byte := 8
  const ZRPOS: byte := 9
  const ZDATA: byte := 10
  const ZEOF: byte := 11

  const ZCRCE: byte := 0x68
  const ZCRCG: byte := 0x69
  const ZCRCQ: byte := 0x6A
  const ZCRCW: byte := 0x6B
  const ZRUB0: byte := 0x6C
  const ZRUB1: byte := 0x6D

  type word32 = x: int | 0 <= x < 0x1_0000_0000

  /** Zephyr's CRCs as seen from here: the CRC-16 byte step, crc32_ieee, and one byte of
      crc32_ieee_update. */
  datatype Crcs = Crcs(step: CrcStep, crc32: seq<byte> -> word32, step32: (word32, byte) -> word32)

  function Fold32(step: (word32, byte) -> word32, crc: word32, buf: seq<byte>): word32
    decreases |buf|
  {
    if buf == [] then crc else Fold32(step, step(crc, buf[0]), buf[1..])
  }

  /** x ^ 0x40 on a byte. */
  function Flip40(b: byte): byte {
    if (b / 64) % 2 == 1 then b - 64 else b + 64
  }

  predicate IsEnder(b: byte) {
    b == ZCRCE || b == ZCRCG || b == ZCRCQ || b == ZCRCW
  }

  predicate MustEscape(b: byte) {
    b == ZDLE || b == 0x11 || b == 0x13 || b == 0x81 || b == 0x83
  }

  // ----- writing -----

  /** send_zdle_byte_tx. */
  function Escape(b: byte): seq<byte> {
    if MustEscape(b) then [ZDLE, Flip40(b)] else [b]
  }

  function EscapeAll(bs: seq<byte>): seq<byte> {
    if bs == [] then [] else Escape(bs[0]) + EscapeAll(bs[1..])
  }

  /** One lower-case hexadecimal digit. */
  function HexDigit(n: nat): byte
    requires n < 16
  {
    if n < 10 then 0x30 + n else 0x61 + (n - 10)
  }

  function HexDigits(bs: seq<byte>): seq<byte> {
    if bs == [] then []
    else [HexDigit(bs[0] / 16), HexDigit(bs[0] % 16)] + HexDigits(bs[1..])
  }

  function CrcBytes(w: word): seq<byte> { [High(w), Low(w)] }

  /** The part of a HEX header that the reader consumes. */
  function HexCore(step: CrcStep, frame: byte, flags: seq<byte>): seq<byte> {
    [ZPAD, ZPAD, ZDLE, ZHEX] + HexDigits([frame] + flags + CrcBytes(Crc16(step, [frame] + flags)))
  }

  /** CR LF, and XON except after ZFIN and ZACK. */
  function HexTail(frame: byte): seq<byte> {
    [0x0D, 0x0A] + if frame != ZFIN && frame != ZACK then [XON] else []
  }

  /** send_hex_header and send_hex_header_tx. */
  function HexHeader(step: CrcStep, frame: byte, flags: seq<byte>): seq<byte> {
    HexCore(step, frame, flags) + HexTail(frame)
  }

  /** send_binary_header_tx. */
  function BinHeader(step: CrcStep, frame: byte, flags: seq<byte>): seq<byte> {
    [ZPAD, ZDLE, ZBIN] + EscapeAll([frame] + flags + CrcBytes(Crc16(step, [frame] + flags)))
  }

  /** The CRC that closes a subpacket covers the ender. */
  function SubpacketCrc(step: CrcStep, data: seq<byte>, ender: byte): word {
    Fold(step, Crc16(step, data), [ender])
  }

  /** send_subpacket_tx. */
  function Subpacket(step: CrcStep, data: seq<byte>, ender: byte): seq<byte> {
    EscapeAll(data) + ([ZDLE, ender] + EscapeAll(CrcBytes(SubpacketCrc(step, data, ender))))
  }

  // ----- reading -----

  /** A byte read through the escape: data, a frame ender, or a failed read, of which a cancel
      request is told apart unless it comes after ZDLE. */
  datatype Unescaped =
    | Plain(b: byte, rest: seq<Event>)
    | Ender(b: byte, rest: seq<Event>)
    | Unread(cancelled: bool, rest: seq<Event>)

  /** read_zdle_byte_rx, and read_zdle_byte_tx, which does not know the two rubout codes. */
  function ReadZdle(rubouts: bool, s: seq<Event>): (r: Unescaped)
    ensures |r.rest| <= |s|
    ensures !r.Unread? ==> |r.rest| < |s|
  {
    var e, s1 := Head(s), Tail(s);
    if !e.Byte? then Unread(e == Cancel, s1)
    else if e.value != ZDLE then Plain(e.value, s1)
    else
      var e2, s2 := Head(s1), Tail(s1);
      if !e2.Byte? then Unread(false, s2)
      else if IsEnder(e2.value) then Ender(e2.value, s2)
      else if e2.value == ZDLEE then Plain(ZDLE, s2)
      else if rubouts && e2.value == ZRUB0 then Plain(0x7F, s2)
      else if rubouts && e2.value == ZRUB1 then Plain(0xFF, s2)
      else Plain(Flip40(e2.value), s2)
  }

  /** Header and CRC bytes are read this way until `acc` holds `n`; an ender counts as its
      character. */
  function ReadEscaped(rubouts: bool, s: seq<Event>, n: nat, acc: seq<byte>): (r: Filled)
    requires |acc| <= n
    ensures |r.rest| <= |s|
    ensures r.Got? ==> |r.bytes| == n
    decreases n - |acc|
  {
    if |acc| == n then Got(acc, s)
    else match ReadZdle(rubouts, s)
      case Unread(_, rest) => Broke(Timeout, rest)
      case Plain(b, rest) => ReadEscaped(rubouts, rest, n, acc + [b])
      case Ender(b, rest) => ReadEscaped(rubouts, rest, n, acc + [b])
  }

  datatype HeaderRead =
    | Found(frame: byte, flags: seq<byte>, crc32: bool, rest: seq<Event>)
    | NoHeader(rest: seq<Event>)

  /** hex_to_nibble. */
  function Nibble(c: byte): int {
    if 0x30 <= c <= 0x39 then c - 0x30
    else if 0x61 <= c <= 0x66 then c - 0x61 + 10
    else if 0x41 <= c <= 0x46 then c - 0x41 + 10
    else -1
  }

  predicate AllHex(h: seq<byte>) {
    forall i :: 0 <= i < |h| ==> Nibble(h[i]) >= 0
  }

  /** Pairs of hexadecimal characters as bytes. */
  function Unhex(h: seq<byte>): (bs: seq<byte>)
    requires AllHex(h) && |h| % 2 == 0
    ensures |bs| == |h| / 2
  {
    if h == [] then []
    else
      assert Nibble(h[0]) >= 0 && Nibble(h[1]) >= 0 && forall i :: 0 <= i < |h[2..]| ==> h[2..][i] == h[i + 2];
      [16 * Nibble(h[0]) + Nibble(h[1])] + Unhex(h[2..])
  }

  /** Accepts five header bytes if the CRC that followed them matches. */
  function CheckHeader(hbuf: seq<byte>, crc32: bool, matches: bool, rest: seq<Event>): HeaderRead
    requires |hbuf| == 5
  {
    if matches then Found(hbuf[0], hbuf[1..], crc32, rest) else NoHeader(rest)
  }

  function ReadHexBody(z: Crcs, s: seq<Event>): (r: HeaderRead)
    ensures |r.rest| <= |s|
  {
    match Fill(s, 14, [])
    case Broke(_, rest) => NoHeader(rest)
    case Got(h, rest) =>
      if !AllHex(h) then NoHeader(rest)
      else
        var bs := Unhex(h);
        CheckHeader(bs[..5], false, Join(bs[5], bs[6]) == Crc16(z.step, bs[..5]), rest)
  }

  function ReadBinBody(z: Crcs, rubouts: bool, s: seq<Event>): (r: HeaderRead)
    ensures |r.rest| <= |s|
  {
    match ReadEscaped(rubouts, s, 7, [])
    case Broke(_, rest) => NoHeader(rest)
    case Got(bs, rest) =>
      CheckHeader(bs[..5], false, Join(bs[5], bs[6]) == Crc16(z.step, bs[..5]), rest)
  }

  /** Four bytes, low byte first. */
  function LittleEndian(bs: seq<byte>): word32
    requires |bs| == 4
  {
    var b0: int, b1: int, b2: int, b3: int := bs[0], bs[1], bs[2], bs[3];
    b0 + 0x100 * b1 + 0x1_0000 * b2 + 0x100_0000 * b3
  }

  function ReadBin32Body(z: Crcs, rubouts: bool, s: seq<Event>): (r: HeaderRead)
    ensures |r.rest| <= |s|
  {
    match ReadEscaped(rubouts, s, 9, [])
    case Broke(_, rest) => NoHeader(rest)
    case Got(bs, rest) =>
      CheckHeader(bs[..5], true, LittleEndian(bs[5..]) == z.crc32(bs[..5]), rest)
  }

  /** read_header_rx (`rubouts`) and read_header_tx (not): skip to a frame start, then read the
      header it announces; an unknown format byte resumes the search. */
  function ReadHeader(z: Crcs, rubouts: bool, s: seq<Event>): (r: HeaderRead)
    ensures |r.rest| <= |s|
    ensures r.Found? ==> |r.rest| < |s| && |r.flags| == 4
    decreases |s|
  {
    var e1, s1 := Head(s), Tail(s);
    if !e1.Byte? then NoHeader(s1)
    else if e1.value != ZPAD then ReadHeader(z, rubouts, s1)
    else
      var e2, s2 := Head(s1), Tail(s1);
      if !e2.Byte? then NoHeader(s2)
      else if e2.value == ZDLE then ReadFormat(z, rubouts, s2)
      else if e2.value != ZPAD then ReadHeader(z, rubouts, s2)
      else
        var e3, s3 := Head(s2), Tail(s2);
        if !e3.Byte? then NoHeader(s3)
        else if e3.value == ZDLE then ReadFormat(z, rubouts, s3)
        else ReadHeader(z, rubouts, s3)
  }

  function ReadFormat(z: Crcs, rubouts: bool, s: seq<Event>): (r: HeaderRead)
    ensures |r.rest| <= |s|
    ensures r.Found? ==> |r.flags| == 4
    decreases |s|
  {
    var e, s1 := Head(s), Tail(s);
    if !e.Byte? then NoHeader(s1)
    else if e.value == ZHEX then ReadHexBody(z, s1)
    else if e.value == ZBIN then ReadBinBody(z, rubouts, s1)
    else if e.value == ZBIN32 then ReadBin32Body(z, rubouts, s1)
    else ReadHeader(z, rubouts, s1)
  }

  datatype SubpacketRead =
    | Sub(data: seq<byte>, ender: byte, rest: seq<Event>)
    | BadSub(rest: seq<Event>)

  /** The CRC after an ender. */
  function ReadSubpacketEnd(z: Crcs, crc32: bool, data: seq<byte>, ender: byte, s: seq<Event>): (r: SubpacketRead)
    ensures |r.rest| <= |s|
    ensures r.Sub? ==> r.data == data
  {
    match ReadEscaped(true, s, if crc32 then 4 else 2, [])
    case Broke(_, rest) => BadSub(rest)
    case Got(c, rest) =>
      var ok := if crc32
        then LittleEndian(c) == 0xFFFF_FFFF - Fold32(z.step32, Fold32(z.step32, 0xFFFF_FFFF, data), [ender])
        else Join(c[0], c[1]) == SubpacketCrc(z.step, data, ender);
      if ok then Sub(data, ender, rest) else BadSub(rest)
  }

  /** read_subpacket_rx with a buffer of `max` bytes, of which `data` are filled. */
  function ReadSubpacket(z: Crcs, crc32: bool, max: nat, s: seq<Event>, data: seq<byte>): (r: SubpacketRead)
    ensures |r.rest| <= |s|
    ensures r.Sub? ==> |r.rest| < |s| && data <= r.data
    ensures r.Sub? && |data| <= max ==> |r.data| <= max
    decreases |s|
  {
    match ReadZdle(true, s)
    case Unread(_, rest) => BadSub(rest)
    case Ender(b, rest) => ReadSubpacketEnd(z, crc32, data, b, rest)
    case Plain(b, rest) =>
      if |data| < max then ReadSubpacket(z, crc32, max, rest, data + [b]) else BadSub(rest)
  }
}
