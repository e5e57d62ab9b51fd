/** XMODEM block frames (src/xmodem.c, include/modem/xmodem.h). */
module XmodemFrames {
  import opened Serial
  import opened Checks

  const SOH: byte := 0x01
  const STX: byte := 0x02
  const EOT: byte := 0x04
  const ACK: byte := 0x06
  const NAK: byte := 0x15
  const CAN: byte := 0x18
  const CRC_REQUEST: byte := 0x43  // 'C'
  const PADDING: byte := 0x1A

  /** The 8-bit number that the k-th block carries: k modulo 256. */
  function Num(k: nat): byte {
    k % 256
  }

  /** The check that follows the payload: CRC-16, high byte first, or the 8-bit sum. */
  function Trailer(step: CrcStep, crcMode: bool, payload: seq<byte>): seq<byte> {
    if crcMode then [High(Crc16(step, payload)), Low(Crc16(step, payload))] else [Sum8(payload)]
  }

  /** Everything after the header byte of a block. */
  function Body(step: CrcStep, crcMode: bool, block: byte, payload: seq<byte>): seq<byte> {
    [block, Not(block)] + payload + Trailer(step, crcMode, payload)
  }

  /** A whole block: SOH announces 128 bytes, STX 1024. */
  function Frame(step: CrcStep, crcMode: bool, block: byte, payload: seq<byte>): seq<byte> {
    [if |payload| == 1024 then STX else SOH] + Body(step, crcMode, block, payload)
  }

  /** The outcome of reading one block after its header byte. */
  datatype FrameRead =
    | Accepted(block: byte, payload: seq<byte>, rest: seq<Event>)
    | Rejected(rest: seq<Event>)
    | Aborted(rest: seq<Event>)

  /** Reads and compares the check bytes. */
  function ReadTrailer(step: CrcStep, crcMode: bool, block: byte, payload: seq<byte>, s: seq<Event>): (r: FrameRead)
    ensures |r.rest| <= |s|
  {
    var e1, s1 := Head(s), Tail(s);
    if crcMode then
      var e2, s2 := Head(s1), Tail(s1);
      if e1 == Cancel || e2 == Cancel then Aborted(s2)
      else if !e1.Byte? || !e2.Byte? then Rejected(s2)
      else if Join(e1.value, e2.value) != Crc16(step, payload) then Rejected(s2)
      else Accepted(block, payload, s2)
    else
      if e1 == Cancel then Aborted(s1)
      else if !e1.Byte? then Rejected(s1)
      else if e1.value != Sum8(payload) then Rejected(s1)
      else Accepted(block, payload, s1)
  }

  /** Reads block number, complement, payload and check. Both number bytes are read before
      either answer is looked at. */
  function ReadFrame(step: CrcStep, crcMode: bool, len: nat, s: seq<Event>): (r: FrameRead)
    ensures |r.rest| <= |s|
  {
    var e1, s1 := Head(s), Tail(s);
    var e2, s2 := Head(s1), Tail(s1);
    if e1 == Cancel || e2 == Cancel then Aborted(s2)
    else if !e1.Byte? || !e2.Byte? then Rejected(s2)
    else if (e1.value + e2.value) % 256 != 0xFF then Rejected(s2)
    else match Fill(s2, len, [])
      case Broke(why, rest) => if why == Cancel then Aborted(rest) else Rejected(rest)
      case Got(payload, rest) => ReadTrailer(step, crcMode, e1.value, payload, rest)
  }

  lemma TrailerReads(step: CrcStep, crcMode: bool, block: byte, payload: seq<byte>, rest: seq<Event>)
    ensures ReadTrailer(step, crcMode, block, payload, Bytes(Trailer(step, crcMode, payload)) + rest)
         == Accepted(block, payload, rest)
  {
    var t := Trailer(step, crcMode, payload);
    BytesHead(t[0], t[1..], rest);
    assert t == [t[0]] + t[1..];
    if crcMode {
      JoinSplit(Crc16(step, payload));
      BytesHead(t[1], [], rest);
      assert t[1..] == [t[1]] + [];
      assert Bytes([]) + rest == rest;
    } else {
      assert Bytes(t[1..]) + rest == rest;
    }
  }

  /** A well-formed block is accepted, whatever follows it, and nothing beyond it is read. */
  lemma FrameReads(step: CrcStep, crcMode: bool, block: byte, payload: seq<byte>, rest: seq<Event>)
    ensures ReadFrame(step, crcMode, |payload|, Bytes(Body(step, crcMode, block, payload)) + rest)
         == Accepted(block, payload, rest)
  {
    hide ReadFrame, ReadTrailer, Fill, Bytes, Trailer, Not;
    var t := Trailer(step, crcMode, payload);
    var tail := Bytes(payload + t) + rest;
    assert Body(step, crcMode, block, payload) == [block] + ([Not(block)] + (payload + t)) by {
      assert [block, Not(block)] == [block] + [Not(block)];
    }
    TwoNumbers(block, Not(block), payload + t, rest);
    NumbersRead(step, crcMode, |payload|, block, Not(block), tail);
    FillFront(payload, t, rest);
    TrailerReads(step, crcMode, block, payload, rest);
    Complement(block);
  }

  lemma Complement(block: byte)
    ensures (block + Not(block)) % 256 == 0xFF
  {
  }

  lemma TwoNumbers(b1: byte, b2: byte, more: seq<byte>, rest: seq<Event>)
    ensures Bytes([b1] + ([b2] + more)) + rest == [Byte(b1)] + ([Byte(b2)] + (Bytes(more) + rest))
  {
    hide Bytes;
    BytesCons(b1, [b2] + more);
    BytesCons(b2, more);
    Associate([Byte(b2)], Bytes(more), rest);
    Associate([Byte(b1)], [Byte(b2)] + Bytes(more), rest);
  }

  lemma TrailerWasThere(step: CrcStep, crcMode: bool, block: byte, payload: seq<byte>, s: seq<Event>)
    requires ReadTrailer(step, crcMode, block, payload, s).Accepted?
    ensures var r := ReadTrailer(step, crcMode, block, payload, s);
      r.block == block && r.payload == payload && s == Bytes(Trailer(step, crcMode, payload)) + r.rest
  {
    var rest := ReadTrailer(step, crcMode, block, payload, s).rest;
    assert Bytes([]) + rest == rest;
    if crcMode {
      var hi, lo := Head(s).value, Head(Tail(s)).value;
      SplitJoin(hi, lo);
      BytesPrepend(Tail(s), lo, [], rest);
      BytesPrepend(s, hi, [lo], rest);
      assert Trailer(step, crcMode, payload) == [hi] + [lo] && [lo] == [lo] + [];
    } else {
      BytesPrepend(s, Head(s).value, [], rest);
      assert Trailer(step, crcMode, payload) == [Head(s).value] + [];
    }
  }

  /** Only well-formed blocks are accepted: complement and check were on the line. */
  lemma AcceptedWasThere(step: CrcStep, crcMode: bool, len: nat, s: seq<Event>)
    requires ReadFrame(step, crcMode, len, s).Accepted?
    ensures var r := ReadFrame(step, crcMode, len, s);
      |r.payload| == len && s == Bytes(Body(step, crcMode, r.block, r.payload)) + r.rest
  {
    var r := ReadFrame(step, crcMode, len, s);
    var block, inverse, s2 := Head(s).value, Head(Tail(s)).value, Tail(Tail(s));
    var payload, t := Fill(s2, len, []).bytes, Fill(s2, len, []).rest;
    assert r == ReadTrailer(step, crcMode, block, payload, t);
    assert inverse == Not(block);
    TrailerWasThere(step, crcMode, block, payload, t);
    FillWasThere(s2, len, []);
    assert payload[0..] == payload;
    BodyWasThere(step, crcMode, payload, s, r.rest);
  }

  lemma BodyWasThere(step: CrcStep, crcMode: bool, payload: seq<byte>, s: seq<Event>, rest: seq<Event>)
    requires Head(s).Byte? && Head(Tail(s)) == Byte(Not(Head(s).value))
    requires Tail(Tail(s)) == Bytes(payload) + (Bytes(Trailer(step, crcMode, payload)) + rest)
    ensures s == Bytes(Body(step, crcMode, Head(s).value, payload)) + rest
  {
    var trailer, block := Trailer(step, crcMode, payload), Head(s).value;
    BytesAppend(payload, trailer, rest);
    BytesPrepend(Tail(s), Not(block), payload + trailer, rest);
    BytesPrepend(s, block, [Not(block)] + (payload + trailer), rest);
    assert Body(step, crcMode, block, payload) == [block] + ([Not(block)] + (payload + trailer));
  }

  // ----- a block with a CRC, read with a checksum -----

  /** What reading a block comes to after both number bytes. */
  function AfterNumbers(step: CrcStep, crcMode: bool, len: nat, b1: byte, b2: byte, t: seq<Event>): FrameRead {
    if (b1 + b2) % 256 != 0xFF then Rejected(t)
    else match Fill(t, len, [])
      case Broke(why, rest) => if why == Cancel then Aborted(rest) else Rejected(rest)
      case Got(payload, rest) => ReadTrailer(step, crcMode, b1, payload, rest)
  }

  lemma NumbersRead(step: CrcStep, crcMode: bool, len: nat, b1: byte, b2: byte, t: seq<Event>)
    ensures ReadFrame(step, crcMode, len, [Byte(b1)] + ([Byte(b2)] + t)) == AfterNumbers(step, crcMode, len, b1, b2, t)
  {
    hide Fill, ReadTrailer;
    var s := [Byte(b1)] + ([Byte(b2)] + t);
    assert Tail(s) == [Byte(b2)] + t && Tail(Tail(s)) == t;
  }

  /** The checksum of a block is not by chance the first byte of its CRC. */
  predicate Differs(step: CrcStep, payload: seq<byte>) {
    Sum8(payload) != High(Crc16(step, payload))
  }

  lemma ChecksumRejects(step: CrcStep, block: byte, payload: seq<byte>, lo: byte)
    requires Differs(step, payload)
    ensures ReadTrailer(step, false, block, payload, Bytes([High(Crc16(step, payload)), lo])) == Rejected(Bytes([lo]))
  {
    hide Sum8, Crc16, High;
    var hi := High(Crc16(step, payload));
    assert [hi, lo] == [hi] + [lo];
    BytesHead(hi, [lo], []);
    assert forall bs: seq<byte> :: Bytes(bs) + [] == Bytes(bs);
  }

  /** A receiver that wants a checksum takes the first CRC byte for it. */
  lemma CrcBlockRejected(step: CrcStep, block: byte, payload: seq<byte>)
    requires Differs(step, payload)
    ensures ReadFrame(step, false, |payload|, Bytes(Body(step, true, block, payload)))
         == Rejected(Bytes([Low(Crc16(step, payload))]))
  {
    hide ReadFrame, ReadTrailer, Differs, Crc16, High, Low, Fill;
    var hi, lo := High(Crc16(step, payload)), Low(Crc16(step, payload));
    var t := Bytes(payload + [hi, lo]);
    assert Body(step, true, block, payload) == [block] + ([Not(block)] + (payload + [hi, lo]));
    assert Bytes(Body(step, true, block, payload)) == [Byte(block)] + ([Byte(Not(block))] + t);
    NumbersRead(step, false, |payload|, block, Not(block), t);
    FillFront(payload, [hi, lo], []);
    assert t + [] == t && Bytes([hi, lo]) + [] == Bytes([hi, lo]);
    ChecksumRejects(step, block, payload, lo);
  }

  /** Successive numbers differ, and the predecessor is one less, also across the wrap at 256. */
  lemma NumSteps(k: nat)
    ensures Num(k + 1) == Inc(Num(k)) && Dec(Num(k + 1)) == Num(k) && Num(k + 1) != Num(k)
  {
  }

  /** A block byte by byte: SOH (1) or STX (2), the number, its complement, the payload, and the CRC from
      0xFFFF, high byte first, or the sum of the payload modulo 256. */
  lemma FrameLayout(step: CrcStep, crcMode: bool, block: byte, payload: seq<byte>)
    requires |payload| == 128 || |payload| == 1024
    ensures var f, n := Frame(step, crcMode, block, payload), 3 + |payload|;
      && |f| == n + (if crcMode then 2 else 1)
      && f[..3] == [if |payload| == 1024 then 2 else 1, block, 255 - block] && f[3..n] == payload
      && (if crcMode then
            var hi: int, lo: int := f[n], f[n + 1]; 256 * hi + lo == Fold(step, 0xFFFF, payload)
          else f[n] == Total(payload) % 256)
  {
    TotalModulo(payload);
  }

  function Total(bs: seq<byte>): nat {
    if bs == [] then 0 else Total(bs[..|bs| - 1]) + bs[|bs| - 1]
  }

  lemma {:induction false} TotalModulo(bs: seq<byte>)
    ensures Sum8(bs) == Total(bs) % 256
  {
    if bs != [] {
      TotalModulo(bs[..|bs| - 1]);
      ModuloAdds(Total(bs[..|bs| - 1]), bs[|bs| - 1]);
    }
  }

  lemma ModuloAdds(n: nat, b: nat)
    ensures (n % 256 + b) % 256 == (n + b) % 256
  {
  }
}
