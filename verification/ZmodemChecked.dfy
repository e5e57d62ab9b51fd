/** Whatever zmodem_receive hands to storage has passed a CRC: for every call there is a subpacket on
    the line whose check bytes match. */
module ZmodemChecked {
  import opened Serial
  import opened Checks
  import opened Metadata
  import opened ZmodemFrames
  import opened ZmodemReceiver

  // ----- subpackets as byte strings -----

  /** What a byte after ZDLE stands for. */
  function AfterZdle(b: byte): byte {
    if IsEnder(b) then b
    else if b == ZDLEE then ZDLE
    else if b == ZRUB0 then 0x7F
    else if b == ZRUB1 then 0xFF
    else Flip40(b)
  }

  /** `bs` is an escaped form of `data`, in which frame enders stand for themselves or do not occur. */
  predicate Decodes(enders: bool, bs: seq<byte>, data: seq<byte>)
    decreases |bs|
  {
    if bs == [] || data == [] then bs == [] && data == []
    else if bs[0] != ZDLE then data[0] == bs[0] && Decodes(enders, bs[1..], data[1..])
    else
      && |bs| >= 2 && (enders || !IsEnder(bs[1]))
      && data[0] == AfterZdle(bs[1]) && Decodes(enders, bs[2..], data[1..])
  }

  /** The check bytes that belong to this data and ender. */
  predicate Matches(z: Crcs, data: seq<byte>, ender: byte, check: seq<byte>) {
    || (|check| == 2 && Join(check[0], check[1]) == SubpacketCrc(z.step, data, ender))
    || (|check| == 4
        && LittleEndian(check) == 0xFFFF_FFFF - Fold32(z.step32, 0xFFFF_FFFF, data + [ender]))
  }

  /** A subpacket with this data: the data, an ender, and check bytes that match. */
  ghost predicate Checked(z: Crcs, data: seq<byte>, seg: seq<byte>) {
    exists body, ender, tail, check :: Parts(z, data, seg, body, ender, tail, check)
  }

  predicate Parts(z: Crcs, data: seq<byte>, seg: seq<byte>, body: seq<byte>, ender: byte, tail: seq<byte>,
                  check: seq<byte>)
  {
    && seg == body + ([ZDLE, ender] + tail) && IsEnder(ender)
    && Decodes(false, body, data) && Decodes(true, tail, check)
    && Matches(z, data, ender, check)
  }

  // ----- reading them -----

  /** The bytes that one read through the escape takes from the line. */
  lemma ZdleWasThere(s: seq<Event>) returns (code: seq<byte>)
    requires !ReadZdle(true, s).Unread?
    ensures s == Bytes(code) + ReadZdle(true, s).rest
    ensures var r := ReadZdle(true, s);
      if r.Ender? then code == [ZDLE, r.b] && IsEnder(r.b) else Codes(false, code, r.b)
  {
    var b := Head(s).value;
    if b != ZDLE {
      code := [b];
      assert Bytes(code) == [Byte(b)];
    } else {
      code := [ZDLE, Head(Tail(s)).value];
      BytesAt(code);
      assert Bytes(code) == [s[0], s[1]];
    }
  }

  /** `code` is one escaped byte. */
  predicate Codes(enders: bool, code: seq<byte>, b: byte) {
    || (code == [b] && b != ZDLE)
    || (|code| == 2 && code[0] == ZDLE && (enders || !IsEnder(code[1])) && b == AfterZdle(code[1]))
  }

  lemma DecodesOn(enders: bool, code: seq<byte>, b: byte, bs: seq<byte>, data: seq<byte>)
    requires Codes(enders, code, b) && Decodes(enders, bs, data)
    ensures Decodes(enders, code + bs, [b] + data)
  {
    assert (code + bs)[|code|..] == bs && ([b] + data)[1..] == data;
  }

  lemma {:induction false} EscapedWasThere(s: seq<Event>, n: nat, acc: seq<byte>) returns (tail: seq<byte>)
    requires |acc| <= n && ReadEscaped(true, s, n, acc).Got?
    ensures var r := ReadEscaped(true, s, n, acc);
      && acc <= r.bytes && s == Bytes(tail) + r.rest
      && Decodes(true, tail, r.bytes[|acc|..])
    decreases n - |acc|
  {
    hide ReadZdle, Decodes, Bytes;
    var r := ReadEscaped(true, s, n, acc);
    if |acc| == n {
      tail := [];
      BytesNone(tail, s);
      NothingDecodes(true);
      assert r.bytes[|acc|..] == [];
    } else {
      var read := ReadZdle(true, s);
      var code := ZdleWasThere(s);
      tail := EscapedWasThere(read.rest, n, acc + [read.b]);
      EnderCodes(code, read);
      DecodesOn(true, code, read.b, tail, r.bytes[|acc| + 1..]);
      assert r.bytes[|acc|..] == [read.b] + r.bytes[|acc| + 1..];
      BytesAppend(code, tail, r.rest);
      tail := code + tail;
    }
  }

  lemma NothingDecodes(enders: bool)
    ensures Decodes(enders, [], [])
  {
  }

  lemma EnderCodes(code: seq<byte>, read: Unescaped)
    requires !read.Unread?
    requires if read.Ender? then code == [ZDLE, read.b] && IsEnder(read.b) else Codes(false, code, read.b)
    ensures Codes(true, code, read.b)
  {
  }

  lemma {:induction false} Fold32Joins(step: (word32, byte) -> word32, crc: word32, a: seq<byte>, b: seq<byte>)
    ensures Fold32(step, Fold32(step, crc, a), b) == Fold32(step, crc, a + b)
    decreases |a|
  {
    if a == [] {
      assert a + b == b;
    } else {
      Fold32Joins(step, step(crc, a[0]), a[1..], b);
      assert (a + b)[0] == a[0] && (a + b)[1..] == a[1..] + b;
    }
  }

  /** An accepted subpacket was on the line, from the first byte read to the last, with a CRC that
      covers its data and ender. */
  lemma {:induction false} SubpacketWasThere(z: Crcs, crc32: bool, max: nat, s: seq<Event>, data: seq<byte>)
    returns (body: seq<byte>, tail: seq<byte>, check: seq<byte>)
    requires ReadSubpacket(z, crc32, max, s, data).Sub?
    ensures var r := ReadSubpacket(z, crc32, max, s, data);
      && IsEnder(r.ender)
      && s == Bytes(body + ([ZDLE, r.ender] + tail)) + r.rest
      && Decodes(false, body, r.data[|data|..]) && Decodes(true, tail, check)
      && Matches(z, r.data, r.ender, check)
    decreases |s|
  {
    hide ReadZdle, Decodes, Bytes, Fold32, Fold, SubpacketCrc;
    var r := ReadSubpacket(z, crc32, max, s, data);
    var read := ReadZdle(true, s);
    var code := ZdleWasThere(s);
    if read.Ender? {
      body, tail, check := EndWasThere(z, crc32, data, read.b, read.rest);
      assert body + ([ZDLE, r.ender] + tail) == code + tail;
      BytesAppend(code, tail, r.rest);
    } else {
      body, tail, check := SubpacketWasThere(z, crc32, max, read.rest, data + [read.b]);
      DecodesOn(false, code, read.b, body, r.data[|data| + 1..]);
      assert r.data[|data|..] == [read.b] + r.data[|data| + 1..];
      BytesAppend(code, body + ([ZDLE, r.ender] + tail), r.rest);
      assert code + (body + ([ZDLE, r.ender] + tail)) == code + body + ([ZDLE, r.ender] + tail);
      body := code + body;
    }
  }

  lemma EndWasThere(z: Crcs, crc32: bool, data: seq<byte>, ender: byte, s: seq<Event>)
    returns (body: seq<byte>, tail: seq<byte>, check: seq<byte>)
    requires ReadSubpacketEnd(z, crc32, data, ender, s).Sub?
    ensures var r := ReadSubpacketEnd(z, crc32, data, ender, s);
      && r.ender == ender && s == Bytes(tail) + r.rest
      && body == [] && Decodes(false, body, r.data[|data|..]) && Decodes(true, tail, check)
      && Matches(z, r.data, r.ender, check)
  {
    hide ReadEscaped, Bytes, Fold32, SubpacketCrc;
    var n := if crc32 then 4 else 2;
    body, check := [], ReadEscaped(true, s, n, []).bytes;
    tail := EscapedWasThere(s, n, []);
    assert check[0..] == check;
    Fold32Joins(z.step32, 0xFFFF_FFFF, data, [ender]);
  }

  lemma SubpacketChecked(z: Crcs, crc32: bool, s: seq<Event>) returns (seg: seq<byte>)
    requires ReadSubpacket(z, crc32, BUFFER, s, []).Sub?
    ensures var r := ReadSubpacket(z, crc32, BUFFER, s, []);
      s == Bytes(seg) + r.rest && Checked(z, r.data, seg)
  {
    hide ReadSubpacket, Decodes, Bytes, Matches;
    var r := ReadSubpacket(z, crc32, BUFFER, s, []);
    var body, tail, check := SubpacketWasThere(z, crc32, BUFFER, s, []);
    assert r.data[0..] == r.data;
    seg := body + ([ZDLE, r.ender] + tail);
    assert Parts(z, r.data, seg, body, r.ender, tail, check);
  }

  lemma {:induction false} HeaderSuffix(z: Crcs, s: seq<Event>)
    requires ReadHeader(z, true, s).Found?
    ensures Suffix(ReadHeader(z, true, s).rest, s)
    decreases |s|
  {
    var s1, s2 := Tail(s), Tail(Tail(s));
    var rest := ReadHeader(z, true, s).rest;
    hide Suffix, ReadFormat;
    SuffixReflexive(s);
    TailSuffix(s, s);
    TailSuffix(s1, s);
    TailSuffix(s2, s);
    if Head(s).value != ZPAD {
      HeaderSuffix(z, s1);
      SuffixTransitive(rest, s1, s);
    } else if Head(s1).value == ZDLE {
      FormatSuffix(z, s2);
      SuffixTransitive(rest, s2, s);
    } else if Head(s1).value != ZPAD {
      HeaderSuffix(z, s2);
      SuffixTransitive(rest, s2, s);
    } else {
      if Head(s2).value == ZDLE {
        FormatSuffix(z, Tail(s2));
      } else {
        HeaderSuffix(z, Tail(s2));
      }
      SuffixTransitive(rest, Tail(s2), s);
    }
  }

  lemma {:induction false} FormatSuffix(z: Crcs, s: seq<Event>)
    requires ReadFormat(z, true, s).Found?
    ensures Suffix(ReadFormat(z, true, s).rest, s)
    decreases |s|
  {
    var s1, rest := Tail(s), ReadFormat(z, true, s).rest;
    hide Suffix, ReadHeader, Fill, ReadEscaped, Unhex, Crc16;
    SuffixReflexive(s);
    TailSuffix(s, s);
    var format := Head(s).value;
    if format == ZHEX {
      FillSuffix(s1, 14, []);
    } else if format == ZBIN || format == ZBIN32 {
      EscapedSuffix(s1, if format == ZBIN then 7 else 9, []);
    } else {
      HeaderSuffix(z, s1);
    }
    SuffixTransitive(rest, s1, s);
  }

  lemma {:induction false} EscapedSuffix(s: seq<Event>, n: nat, acc: seq<byte>)
    requires |acc| <= n && ReadEscaped(true, s, n, acc).Got?
    ensures Suffix(ReadEscaped(true, s, n, acc).rest, s)
  {
    hide Bytes;
    var tail := EscapedWasThere(s, n, acc);
    SuffixAfter(tail, ReadEscaped(true, s, n, acc).rest);
  }

  // ----- the converse: what is read of any such bytes -----

  lemma ZdleReads(enders: bool, bs: seq<byte>, data: seq<byte>, rest: seq<Event>) returns (k: nat)
    requires bs != [] && Decodes(enders, bs, data)
    ensures 0 < k <= |bs| && data != [] && Decodes(enders, bs[k..], data[1..])
    ensures var r := ReadZdle(true, Bytes(bs) + rest);
      && !r.Unread? && r.b == data[0] && r.rest == Bytes(bs[k..]) + rest && (r.Ender? ==> enders)
  {
    hide Bytes;
    assert bs == [bs[0]] + bs[1..];
    BytesHead(bs[0], bs[1..], rest);
    k := 1;
    if bs[0] == ZDLE {
      assert bs[1..] == [bs[1]] + bs[2..];
      BytesHead(bs[1], bs[2..], rest);
      k := 2;
    }
  }

  /** Header and check bytes are read from any of their escaped forms. */
  lemma {:induction false} EscapedReads(bs: seq<byte>, data: seq<byte>, rest: seq<Event>, acc: seq<byte>)
    requires Decodes(true, bs, data)
    ensures ReadEscaped(true, Bytes(bs) + rest, |acc| + |data|, acc) == Got(acc + data, rest)
    decreases |bs|
  {
    hide Bytes, ReadZdle, Decodes;
    if bs == [] {
      DecodesNothing(true, data);
      BytesNone(bs, rest);
      assert acc + data == acc;
    } else {
      var k := ZdleReads(true, bs, data, rest);
      EscapedReads(bs[k..], data[1..], rest, acc + [data[0]]);
      assert acc + [data[0]] + data[1..] == acc + data;
    }
  }

  lemma DecodesNothing(enders: bool, data: seq<byte>)
    requires Decodes(enders, [], data)
    ensures data == []
  {
  }

  lemma {:induction false} BodyReads(z: Crcs, crc32: bool, max: nat, bs: seq<byte>, data: seq<byte>, rest: seq<Event>,
                                     before: seq<byte>)
    requires Decodes(false, bs, data) && |before| + |data| <= max
    ensures ReadSubpacket(z, crc32, max, Bytes(bs) + rest, before) == ReadSubpacket(z, crc32, max, rest, before + data)
    decreases |bs|
  {
    hide Bytes, ReadZdle, Decodes, ReadSubpacketEnd;
    if bs == [] {
      DecodesNothing(false, data);
      BytesNone(bs, rest);
      assert before + data == before;
    } else {
      var k := ZdleReads(false, bs, data, rest);
      BodyReads(z, crc32, max, bs[k..], data[1..], rest, before + [data[0]]);
      assert before + [data[0]] + data[1..] == before + data;
    }
  }

  /** A subpacket in any escaped form is read, and accepted exactly if its check bytes are the ones that
      belong to its data and ender. */
  lemma AnySubpacketReads(z: Crcs, crc32: bool, body: seq<byte>, data: seq<byte>, ender: byte, tail: seq<byte>,
                          check: seq<byte>, rest: seq<Event>)
    requires Decodes(false, body, data) && |data| <= 1024 && IsEnder(ender)
    requires Decodes(true, tail, check) && |check| == if crc32 then 4 else 2
    ensures ReadSubpacket(z, crc32, 1024, Bytes(body + ([ZDLE, ender] + tail)) + rest, [])
         == if Matches(z, data, ender, check) then Sub(data, ender, rest) else BadSub(rest)
  {
    hide Bytes, Decodes, ReadSubpacket, ReadSubpacketEnd, Matches;
    BytesAppend(body, [ZDLE, ender] + tail, rest);
    BodyReads(z, crc32, 1024, body, data, Bytes([ZDLE, ender] + tail) + rest, []);
    assert [] + data == data;
    EnderSeen(z, crc32, data, ender, tail, rest);
    CheckReads(z, crc32, data, ender, tail, check, rest);
  }

  lemma CheckReads(z: Crcs, crc32: bool, data: seq<byte>, ender: byte, tail: seq<byte>, check: seq<byte>,
                   rest: seq<Event>)
    requires Decodes(true, tail, check) && |check| == if crc32 then 4 else 2
    ensures ReadSubpacketEnd(z, crc32, data, ender, Bytes(tail) + rest)
         == if Matches(z, data, ender, check) then Sub(data, ender, rest) else BadSub(rest)
  {
    hide Bytes, Decodes, ReadEscaped, Fold32, SubpacketCrc, Join, LittleEndian;
    EscapedReads(tail, check, rest, []);
    assert [] + check == check;
    Fold32Joins(z.step32, 0xFFFF_FFFF, data, [ender]);
  }

  lemma EnderSeen(z: Crcs, crc32: bool, data: seq<byte>, ender: byte, tail: seq<byte>, rest: seq<Event>)
    requires IsEnder(ender)
    ensures ReadSubpacket(z, crc32, 1024, Bytes([ZDLE, ender] + tail) + rest, data)
         == ReadSubpacketEnd(z, crc32, data, ender, Bytes(tail) + rest)
  {
    hide Bytes, ReadSubpacketEnd;
    assert [ZDLE, ender] + tail == [ZDLE] + ([ender] + tail);
    BytesHead(ZDLE, [ender] + tail, rest);
    BytesHead(ender, tail, rest);
  }

  /** More data than the buffer holds are no subpacket. */
  lemma TooLongFails(z: Crcs, crc32: bool, body: seq<byte>, data: seq<byte>, rest: seq<Event>)
    requires Decodes(false, body, data) && |data| == 1025
    ensures ReadSubpacket(z, crc32, 1024, Bytes(body) + rest, []) == BadSub(rest)
  {
    hide Bytes, Decodes, ReadZdle;
    TooLongHere(z, crc32, body, data, rest, []);
  }

  lemma {:induction false} TooLongHere(z: Crcs, crc32: bool, body: seq<byte>, data: seq<byte>, rest: seq<Event>,
                                       before: seq<byte>)
    requires Decodes(false, body, data) && |before| + |data| == 1025 && |before| <= 1024
    ensures ReadSubpacket(z, crc32, 1024, Bytes(body) + rest, before) == BadSub(rest)
    decreases |body|
  {
    hide Bytes, ReadZdle, Decodes, ReadSubpacketEnd;
    if body == [] {
      DecodesNothing(false, data);
      assert false;
    } else {
      var k := ZdleReads(false, body, data, rest);
      if |before| < 1024 {
        TooLongHere(z, crc32, body[k..], data[1..], rest, before + [data[0]]);
      } else {
        AllDecoded(body[k..], data[1..]);
        BytesNone(body[k..], rest);
      }
    }
  }

  lemma AllDecoded(bs: seq<byte>, data: seq<byte>)
    requires Decodes(false, bs, data) && data == []
    ensures bs == []
  {
  }

  // ----- headers as byte strings -----

  /** These bytes, and no fewer, make a reader find such a header. */
  predicate Announces(z: Crcs, frame: byte, seg: seq<byte>) {
    var r := ReadHeader(z, true, Bytes(seg));
    r.Found? && r.frame == frame && r.rest == []
  }

  /** `s` is `seg` and then `rest`, and whatever else follows `seg`, the same header is found. */
  predicate Replays(z: Crcs, s: seq<Event>, seg: seq<byte>, t: seq<Event>) {
    var r := ReadHeader(z, true, s);
    && r.Found? && s == Bytes(seg) + r.rest
    && ReadHeader(z, true, Bytes(seg) + t) == Found(r.frame, r.flags, r.crc32, t)
  }

  predicate ReplaysFormat(z: Crcs, s: seq<Event>, seg: seq<byte>, t: seq<Event>) {
    var r := ReadFormat(z, true, s);
    && r.Found? && s == Bytes(seg) + r.rest
    && ReadFormat(z, true, Bytes(seg) + t) == Found(r.frame, r.flags, r.crc32, t)
  }

  lemma ZdleReplays(s: seq<Event>, code: seq<byte>, t: seq<Event>)
    requires !ReadZdle(true, s).Unread? && s == Bytes(code) + ReadZdle(true, s).rest
    ensures var r := ReadZdle(true, s);
      ReadZdle(true, Bytes(code) + t) == if r.Ender? then Ender(r.b, t) else Plain(r.b, t)
  {
    var r := ReadZdle(true, s);
    BytesAt(code);
    assert |s| == |code| + |r.rest|;
    var u := Bytes(code) + t;
    assert forall i :: 0 <= i < |code| ==> u[i] == s[i];
    assert u[|code|..] == t;
    assert |u| >= 2 ==> Tail(Tail(u)) == u[2..];
  }

  lemma {:induction false} EscapedReplays(s: seq<Event>, n: nat, acc: seq<byte>, t: seq<Event>)
    returns (tail: seq<byte>)
    requires |acc| <= n && ReadEscaped(true, s, n, acc).Got?
    ensures var r := ReadEscaped(true, s, n, acc);
      s == Bytes(tail) + r.rest && ReadEscaped(true, Bytes(tail) + t, n, acc) == Got(r.bytes, t)
    decreases n - |acc|
  {
    hide ReadZdle, Bytes;
    var r := ReadEscaped(true, s, n, acc);
    if |acc| == n {
      tail := [];
      BytesNone(tail, s);
      BytesNone(tail, t);
    } else {
      var read := ReadZdle(true, s);
      var code := ZdleWasThere(s);
      var more := EscapedReplays(read.rest, n, acc + [read.b], t);
      tail := code + more;
      BytesAppend(code, more, r.rest);
      BytesAppend(code, more, t);
      ZdleReplays(s, code, Bytes(more) + t);
    }
  }

  lemma {:induction false} HeaderReplays(z: Crcs, s: seq<Event>, t: seq<Event>) returns (seg: seq<byte>)
    requires ReadHeader(z, true, s).Found?
    ensures Replays(z, s, seg, t)
    decreases |s|
  {
    hide ReadFormat, Bytes;
    var b1, s1 := Head(s).value, Tail(s);
    var later;
    if b1 != ZPAD {
      later := HeaderReplays(z, s1, t);
      seg := [b1] + later;
    } else {
      var b2, s2 := Head(s1).value, Tail(s1);
      if b2 == ZDLE {
        later := FormatReplays(z, s2, t);
        seg := [b1] + ([b2] + later);
        TwoFirst(s1, b2, later, ReadHeader(z, true, s).rest, t);
      } else if b2 != ZPAD {
        later := HeaderReplays(z, s2, t);
        seg := [b1] + ([b2] + later);
        TwoFirst(s1, b2, later, ReadHeader(z, true, s).rest, t);
      } else {
        var b3, s3 := Head(s2).value, Tail(s2);
        if b3 == ZDLE {
          later := FormatReplays(z, s3, t);
        } else {
          later := HeaderReplays(z, s3, t);
        }
        seg := [b1] + ([b2] + ([b3] + later));
        TwoFirst(s2, b3, later, ReadHeader(z, true, s).rest, t);
        TwoFirst(s1, b2, [b3] + later, ReadHeader(z, true, s).rest, t);
      }
    }
    TwoFirst(s, b1, seg[1..], ReadHeader(z, true, s).rest, t);
    assert seg == [b1] + seg[1..];
  }

  /** One byte before a replayed piece. */
  lemma TwoFirst(s: seq<Event>, b: byte, later: seq<byte>, rest: seq<Event>, t: seq<Event>)
    requires Head(s) == Byte(b) && Tail(s) == Bytes(later) + rest
    ensures s == Bytes([b] + later) + rest
    ensures Head(Bytes([b] + later) + t) == Byte(b) && Tail(Bytes([b] + later) + t) == Bytes(later) + t
  {
    BytesPrepend(s, b, later, rest);
    BytesHead(b, later, t);
  }

  lemma {:induction false} FormatReplays(z: Crcs, s: seq<Event>, t: seq<Event>) returns (seg: seq<byte>)
    requires ReadFormat(z, true, s).Found?
    ensures ReplaysFormat(z, s, seg, t)
    decreases |s|
  {
    hide ReadHeader, Bytes, Fill, ReadEscaped, Unhex, Crc16, LittleEndian;
    var format, s1, rest := Head(s).value, Tail(s), ReadFormat(z, true, s).rest;
    var later;
    if format == ZHEX {
      later := Fill(s1, 14, []).bytes;
      FillWasThere(s1, 14, []);
      FillReads(later, t, []);
      assert later[0..] == later && [] + later == later;
    } else if format == ZBIN || format == ZBIN32 {
      later := EscapedReplays(s1, if format == ZBIN then 7 else 9, [], t);
    } else {
      later := HeaderReplays(z, s1, t);
    }
    seg := [format] + later;
    TwoFirst(s, format, later, rest, t);
  }

  /** A header that has been found was on the line. */
  lemma HeaderWasThere(z: Crcs, s: seq<Event>) returns (seg: seq<byte>)
    requires ReadHeader(z, true, s).Found?
    ensures var r := ReadHeader(z, true, s); s == Bytes(seg) + r.rest && Announces(z, r.frame, seg)
  {
    hide ReadHeader, Bytes;
    seg := HeaderReplays(z, s, []);
    assert Bytes(seg) + [] == Bytes(seg);
  }

  // ----- the calls -----

  /** What the line must have brought for a storage call. */
  ghost predicate Shows(z: Crcs, c: Call, seg: seq<byte>) {
    match c
    case FileStart(info) => exists sub :: Checked(z, sub, seg) && info == ParseInfo(sub)
    case Data(bytes, _) => Checked(z, bytes, seg)
    case FileEnd(_, status) => if status == Ok then Announces(z, ZEOF, seg) else seg == []
  }

  /** One byte string for each call. */
  ghost predicate Vouches(z: Crcs, calls: seq<Call>, segs: seq<seq<byte>>, s: seq<Event>) {
    && |segs| == |calls|
    && (forall i :: 0 <= i < |calls| ==> Shows(z, calls[i], segs[i]))
    && Brings(s, segs)
  }

  /** The calls of `r` that come after those of `w` were on the script of `w`. */
  ghost predicate Vouched(z: Crcs, w: World<Call>, r: World<Call>) {
    w.calls <= r.calls && exists segs :: Vouches(z, r.calls[|w.calls|..], segs, w.script)
  }

  lemma NoMoreCalls(z: Crcs, w: World<Call>, r: World<Call>)
    requires r.calls == w.calls
    ensures Vouched(z, w, r)
  {
    assert Vouches(z, r.calls[|w.calls|..], [], w.script);
  }

  /** Reading on without a call. */
  lemma VouchedLater(z: Crcs, w: World<Call>, w1: World<Call>, r: World<Call>)
    requires Suffix(w1.script, w.script) && w1.calls == w.calls && Vouched(z, w1, r)
    ensures Vouched(z, w, r)
  {
    hide Suffix, Shows, Brings;
    var segs :| Vouches(z, r.calls[|w.calls|..], segs, w1.script);
    BringsLater(segs, w1.script, w.script);
    assert Vouches(z, r.calls[|w.calls|..], segs, w.script);
  }

  /** Reading what a call needs, and then the call. */
  lemma VouchedNext(z: Crcs, w: World<Call>, seg: seq<byte>, c: Call, w1: World<Call>, r: World<Call>)
    requires w.script == Bytes(seg) + w1.script && w1.calls == w.calls + [c] && Shows(z, c, seg)
    requires Vouched(z, w1, r)
    ensures Vouched(z, w, r)
  {
    hide Bytes, Shows, Brings;
    var segs :| Vouches(z, r.calls[|w1.calls|..], segs, w1.script);
    BringsNext(seg, segs, w1.script);
    assert r.calls[|w.calls|] == c && r.calls[|w.calls|..] == [c] + r.calls[|w1.calls|..];
    assert Vouches(z, r.calls[|w.calls|..], [seg] + segs, w.script);
  }

  lemma EndVouched(z: Crcs, info: FileInfo, status: Status, w: World<Call>, w1: World<Call>, r: World<Call>)
    requires status != Ok && w1.calls == w.calls + [FileEnd(info, status)] && Suffix(w1.script, w.script)
    requires Vouched(z, w1, r)
    ensures Vouched(z, w, r)
  {
    hide Suffix, Vouched;
    var between := w.Leaves(w1.script);
    BytesNone([], w1.script);
    VouchedNext(z, between, [], FileEnd(info, status), w1, r);
    VouchedLater(z, w, between, r);
  }

  // ----- the session -----

  lemma {:induction false} SessionVouched(z: Crcs, w: World<Call>)
    ensures Vouched(z, w, Session(z, w).1)
    decreases |w.script|
  {
    hide ReadHeader, ReadSubpacket, ParseInfo, HexHeader, InFile, Vouched, Suffix, Checked;
    var r, out := ReadHeader(z, true, w.script), Session(z, w).1;
    if r.NoHeader? || r.frame == ZFIN {
      NoMoreCalls(z, w, out);
    } else {
      HeaderSuffix(z, w.script);
      var w1 := w.Leaves(r.rest);
      if r.frame == ZRQINIT {
        var w2 := w1.Sends(HexHeader(z.step, ZRINIT, ZERO_FLAGS));
        SessionVouched(z, w2);
        VouchedLater(z, w, w2, out);
      } else if r.frame == ZFILE {
        FileVouched(z, r.crc32, w1);
        VouchedLater(z, w, w1, out);
      } else {
        SessionVouched(z, w1);
        VouchedLater(z, w, w1, out);
      }
    }
  }

  /** Session on a ZFILE header that has just been read. */
  function OnFile(z: Crcs, crc32: bool, w: World<Call>): (Status, World<Call>) {
    match ReadSubpacket(z, crc32, BUFFER, w.script, [])
    case BadSub(rest) => (IoError, w.Leaves(rest))
    case Sub(sub, _, rest) =>
      var info := ParseInfo(sub);
      InFile(z, info, 0, w.Leaves(rest).Makes(FileStart(info)).Sends(HexHeader(z.step, ZRPOS, ZERO_FLAGS)))
  }

  lemma {:induction false} FileVouched(z: Crcs, crc32: bool, w: World<Call>)
    ensures Vouched(z, w, OnFile(z, crc32, w).1)
    decreases |w.script|, 1
  {
    hide ReadSubpacket, ParseInfo, HexHeader, InFile, Vouched, Bytes, Checked;
    var sub, out := ReadSubpacket(z, crc32, BUFFER, w.script, []), OnFile(z, crc32, w).1;
    if sub.Sub? {
      var info := ParseInfo(sub.data);
      var w2 := w.Leaves(sub.rest).Makes(FileStart(info)).Sends(HexHeader(z.step, ZRPOS, ZERO_FLAGS));
      var seg := SubpacketChecked(z, crc32, w.script);
      InFileVouched(z, info, 0, w2);
      VouchedNext(z, w, seg, FileStart(info), w2, out);
    } else {
      NoMoreCalls(z, w, out);
    }
  }

  lemma {:induction false} InFileVouched(z: Crcs, info: FileInfo, offset: nat, w: World<Call>)
    ensures Vouched(z, w, InFile(z, info, offset, w).1)
    decreases |w.script|
  {
    hide ReadHeader, HexHeader, Session, InData, Vouched, Suffix, Announces, Bytes;
    var r, out := ReadHeader(z, true, w.script), InFile(z, info, offset, w).1;
    if r.NoHeader? {
      SilentEnd(z, info, w, out);
    } else {
      HeaderSuffix(z, w.script);
      var w1 := w.Leaves(r.rest);
      if r.frame == ZDATA {
        InDataVouched(z, info, offset, r.crc32, w1);
        VouchedLater(z, w, w1, out);
      } else if r.frame == ZEOF {
        var w2 := w1.Makes(FileEnd(info, Ok)).Sends(HexHeader(z.step, ZRINIT, ZERO_FLAGS));
        SessionVouched(z, w2);
        var seg := HeaderWasThere(z, w.script);
        VouchedNext(z, w, seg, FileEnd(info, Ok), w2, out);
      } else if r.frame == ZFIN {
        NoMoreCalls(z, w, out);
      } else {
        InFileVouched(z, info, offset, w1);
        VouchedLater(z, w, w1, out);
      }
    }
  }

  /** A return right after closing the file. */
  lemma SilentEnd(z: Crcs, info: FileInfo, w: World<Call>, r: World<Call>)
    requires exists status :: status != Ok && r.calls == w.calls + [FileEnd(info, status)]
    ensures Vouched(z, w, r)
  {
    hide Vouched;
    var status :| status != Ok && r.calls == w.calls + [FileEnd(info, status)];
    var w1 := r.Leaves(w.script);
    NoMoreCalls(z, w1, r);
    SuffixReflexive(w.script);
    EndVouched(z, info, status, w, w1, r);
  }

  lemma {:induction false} InDataVouched(z: Crcs, info: FileInfo, offset: nat, crc32: bool, w: World<Call>)
    ensures Vouched(z, w, InData(z, info, offset, crc32, w).1)
    decreases |w.script|
  {
    hide ReadSubpacket, InFile, Vouched, Bytes, Checked, Suffix;
    var r, out := ReadSubpacket(z, crc32, BUFFER, w.script, []), InData(z, info, offset, crc32, w).1;
    if r.BadSub? {
      SilentEnd(z, info, w, out);
    } else {
      var seg := SubpacketChecked(z, crc32, w.script);
      var w1 := Store(w.Leaves(r.rest), r.data, offset);
      if EndsFrame(r.ender) {
        InFileVouched(z, info, offset + |r.data|, w1);
      } else {
        InDataVouched(z, info, offset + |r.data|, crc32, w1);
      }
      if r.data == [] {
        SuffixAfter(seg, r.rest);
        VouchedLater(z, w, w1, out);
      } else {
        VouchedNext(z, w, seg, Data(r.data, offset), w1, out);
      }
    }
  }

  /** On every input, whatever zmodem_receive passes to storage was on the line with a CRC that
      matched: for each on_file_start the subpacket with its name and size, for each on_data the
      subpacket with its bytes, and for each file ended with OK a ZEOF header, in order and without
      overlap. */
  lemma StoredWasChecked(z: Crcs, script: seq<Event>) returns (segs: seq<seq<byte>>)
    ensures var calls := Receive(z, World(script, [], [])).1.calls;
      && |segs| == |calls| && Brings(script, segs)
      && forall i :: 0 <= i < |calls| ==> Shows(z, calls[i], segs[i])
  {
    hide Session, Brings, Shows;
    var w: World<Call> := World(script, [], []).Sends(HexHeader(z.step, ZRINIT, ZERO_FLAGS));
    SessionVouched(z, w);
    var calls := Receive(z, World(script, [], [])).1.calls;
    assert calls[0..] == calls;
    segs :| Vouches(z, calls, segs, script);
  }
}
