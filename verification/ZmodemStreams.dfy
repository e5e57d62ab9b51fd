/** What zmodem_receive makes of any sender's stream: files cut into subpackets and data frames in any
    way, under BIN16 or BIN32 headers, are delivered whole. */
module ZmodemStreams {
  import opened Serial
  import opened Metadata
  import opened ZmodemFrames
  import opened ZmodemRoundTrip
  import opened R = ZmodemReceiver
  import opened T = ZmodemTransmitter
  import opened ZmodemSession
  import Trace = ZmodemTrace
  import Checked = ZmodemChecked

  // ----- frames with a 32-bit CRC -----

  datatype Form = Hex | Bin16 | Bin32

  /** A header in each of the three forms. */
  function Header(z: Crcs, form: Form, frame: byte, flags: seq<byte>): seq<byte> {
    match form
    case Hex => HexHeader(z.step, frame, flags)
    case Bin16 => BinHeader(z.step, frame, flags)
    case Bin32 => [ZPAD, ZDLE, ZBIN32] + EscapeAll([frame] + flags + OffsetFlags(z.crc32([frame] + flags)))
  }

  /** The 32-bit CRC of data and ender. */
  function DataCrc32(z: Crcs, data: seq<byte>, ender: byte): word32 {
    0xFFFF_FFFF - Fold32(z.step32, 0xFFFF_FFFF, data + [ender])
  }

  /** A subpacket as it follows a header of that form. */
  function Packet(z: Crcs, form: Form, data: seq<byte>, ender: byte): seq<byte> {
    if form == Bin32 then EscapeAll(data) + ([ZDLE, ender] + EscapeAll(OffsetFlags(DataCrc32(z, data, ender))))
    else Subpacket(z.step, data, ender)
  }

  lemma Crc32Carried(w: word32)
    ensures LittleEndian(OffsetFlags(w)) == w
  {
    Trace.OffsetCarried(w);
  }

  /** A BIN32 header is found after any bytes free of ZPAD and consumed exactly. */
  lemma Bin32HeaderReads(z: Crcs, rubouts: bool, noise: seq<byte>, frame: byte, flags: seq<byte>, rest: seq<Event>)
    requires ZPAD !in noise && |flags| == 4
    ensures ReadHeader(z, rubouts, Bytes(noise + Header(z, Bin32, frame, flags)) + rest)
         == Found(frame, flags, true, rest)
  {
    hide ReadHeader;
    var h := Header(z, Bin32, frame, flags);
    BytesAppend(noise, h, rest);
    NoiseSkipped(z, rubouts, noise, Bytes(h) + rest);
    Bin32AtStart(z, rubouts, frame, flags, rest);
  }

  lemma Bin32AtStart(z: Crcs, rubouts: bool, frame: byte, flags: seq<byte>, rest: seq<Event>)
    requires |flags| == 4
    ensures ReadHeader(z, rubouts, Bytes(Header(z, Bin32, frame, flags)) + rest) == Found(frame, flags, true, rest)
  {
    hide EscapeAll, ReadHexBody, ReadBinBody, ReadEscaped, OffsetFlags, LittleEndian, Bytes;
    var crc := OffsetFlags(z.crc32([frame] + flags));
    var bs := [frame] + flags + crc;
    var h := EscapeAll(bs);
    assert Header(z, Bin32, frame, flags) == [ZPAD] + ([ZDLE] + ([ZBIN32] + h));
    BytesHead(ZPAD, [ZDLE] + ([ZBIN32] + h), rest);
    BytesHead(ZDLE, [ZBIN32] + h, rest);
    BytesHead(ZBIN32, h, rest);
    EscapeAllReads(rubouts, bs, rest, []);
    assert [] + bs == bs && bs[..5] == [frame] + flags && bs[..5][1..] == flags && bs[5..] == crc;
    Crc32Carried(z.crc32([frame] + flags));
  }

  // ----- reading subpackets of either form -----

  lemma OneByteReads32(z: Crcs, max: nat, b: byte, s: seq<Event>, data: seq<byte>)
    requires |data| < max
    ensures ReadSubpacket(z, true, max, Bytes(Escape(b)) + s, data) == ReadSubpacket(z, true, max, s, data + [b])
  {
    hide ReadZdle, ReadSubpacketEnd, Escape;
    EscapeReads(true, b, s);
  }

  lemma {:induction false} DataReads32(z: Crcs, max: nat, bs: seq<byte>, s: seq<Event>, data: seq<byte>)
    requires |data| + |bs| <= max
    ensures ReadSubpacket(z, true, max, Bytes(EscapeAll(bs)) + s, data) == ReadSubpacket(z, true, max, s, data + bs)
    decreases |bs|
  {
    hide Bytes, EscapeAll, ReadSubpacket;
    if bs == [] {
      NothingEscaped(s);
      assert data + bs == data;
    } else {
      var b, more := bs[0], bs[1..];
      EscapeAllSplit(bs, s);
      OneByteReads32(z, max, b, Bytes(EscapeAll(more)) + s, data);
      DataReads32(z, max, more, s, data + [b]);
      assert data + bs == data + [b] + more;
    }
  }

  lemma EnderReads32(z: Crcs, max: nat, data: seq<byte>, ender: byte, rest: seq<Event>)
    requires IsEnder(ender)
    ensures var tail := [ZDLE, ender] + EscapeAll(OffsetFlags(DataCrc32(z, data, ender)));
      ReadSubpacket(z, true, max, Bytes(tail) + rest, data) == Sub(data, ender, rest)
  {
    hide EscapeAll, Fold32, OffsetFlags, LittleEndian;
    var crc := OffsetFlags(DataCrc32(z, data, ender));
    assert [ZDLE, ender] + EscapeAll(crc) == [ZDLE] + ([ender] + EscapeAll(crc));
    BytesHead(ZDLE, [ender] + EscapeAll(crc), rest);
    BytesHead(ender, EscapeAll(crc), rest);
    EscapeAllReads(true, crc, rest, []);
    assert [] + crc == crc;
    Crc32Carried(DataCrc32(z, data, ender));
    Checked.Fold32Joins(z.step32, 0xFFFF_FFFF, data, [ender]);
  }

  /** Subpackets of either form are lossless and self-delimiting. */
  lemma PacketReads(z: Crcs, form: Form, data: seq<byte>, ender: byte, rest: seq<Event>)
    requires |data| <= BUFFER && IsEnder(ender)
    ensures ReadSubpacket(z, form == Bin32, BUFFER, Bytes(Packet(z, form, data, ender)) + rest, [])
         == Sub(data, ender, rest)
  {
    hide EscapeAll, Fold32, ReadSubpacket, Subpacket, OffsetFlags;
    if form == Bin32 {
      var tail := [ZDLE, ender] + EscapeAll(OffsetFlags(DataCrc32(z, data, ender)));
      BytesAppend(EscapeAll(data), tail, rest);
      DataReads32(z, BUFFER, data, Bytes(tail) + rest, []);
      assert [] + data == data;
      EnderReads32(z, BUFFER, data, ender, rest);
    } else {
      SubpacketReads(z, BUFFER, data, ender, rest);
    }
  }

  // ----- streams -----

  datatype Piece = Piece(data: seq<byte>, ender: byte)

  /** One ZDATA header, at whatever position, and its subpackets. */
  datatype DataFrame = DataFrame(form: Form, flags: seq<byte>, pieces: seq<Piece>)

  /** One file as some sender may send it. */
  datatype Sending = Sending(file: File, form: Form, ender: byte, frames: seq<DataFrame>,
                             eofForm: Form, eofFlags: seq<byte>)

  function Content(pieces: seq<Piece>): seq<byte> {
    if pieces == [] then [] else pieces[0].data + Content(pieces[1..])
  }

  function FramesContent(frames: seq<DataFrame>): seq<byte> {
    if frames == [] then [] else Content(frames[0].pieces) + FramesContent(frames[1..])
  }

  /** Subpackets of at most 1024 bytes, of which ZCRCG and ZCRCQ say that another one follows and ZCRCE
      and ZCRCW that a header does. */
  predicate WellFormed(pieces: seq<Piece>)
    decreases |pieces|
  {
    && pieces != [] && |pieces[0].data| <= 1024
    && if |pieces| == 1 then pieces[0].ender in {ZCRCE, ZCRCW}
       else pieces[0].ender in {ZCRCG, ZCRCQ} && WellFormed(pieces[1..])
  }

  predicate Proper(fr: DataFrame) {
    fr.form != Hex && |fr.flags| == 4 && WellFormed(fr.pieces)
  }

  /** The frames bring the file, cut in any way; headers that subpackets follow are binary. */
  predicate Brings(s: Sending) {
    && s.form != Hex && IsEnder(s.ender) && |s.eofFlags| == 4
    && (forall fr :: fr in s.frames ==> Proper(fr))
    && FramesContent(s.frames) == s.file.content
  }

  function PiecesBytes(z: Crcs, form: Form, pieces: seq<Piece>): seq<byte> {
    if pieces == [] then []
    else Packet(z, form, pieces[0].data, pieces[0].ender) + PiecesBytes(z, form, pieces[1..])
  }

  function FramesBytes(z: Crcs, frames: seq<DataFrame>): seq<byte> {
    if frames == [] then []
    else
      var fr := frames[0];
      Header(z, fr.form, ZDATA, fr.flags) + (PiecesBytes(z, fr.form, fr.pieces) + FramesBytes(z, frames[1..]))
  }

  function SendingBytes(z: Crcs, s: Sending): seq<byte> {
    Header(z, s.form, ZFILE, ZERO_FLAGS)
    + (Packet(z, s.form, InfoBytes(s.file), s.ender)
       + (FramesBytes(z, s.frames) + Header(z, s.eofForm, ZEOF, s.eofFlags)))
  }

  function BatchBytes(z: Crcs, batch: seq<Sending>): seq<byte> {
    if batch == [] then Header(z, Hex, ZFIN, ZERO_FLAGS) + OVER_AND_OUT
    else SendingBytes(z, batch[0]) + BatchBytes(z, batch[1..])
  }

  // ----- what storage should be told -----

  function PieceCalls(pieces: seq<Piece>, offset: nat): seq<Call>
    decreases |pieces|
  {
    if pieces == [] then []
    else
      var data := pieces[0].data;
      (if data == [] then [] else [Data(data, offset)]) + PieceCalls(pieces[1..], offset + |data|)
  }

  function FrameCalls(frames: seq<DataFrame>, offset: nat): seq<Call>
    decreases |frames|
  {
    if frames == [] then []
    else
      var pieces := frames[0].pieces;
      PieceCalls(pieces, offset) + FrameCalls(frames[1..], offset + |Content(pieces)|)
  }

  function SendingCalls(s: Sending): seq<Call> {
    [FileStart(InfoOf(s.file))] + FrameCalls(s.frames, 0) + [FileEnd(InfoOf(s.file), Ok)]
  }

  function AllCalls(batch: seq<Sending>): seq<Call> {
    if batch == [] then [] else SendingCalls(batch[0]) + AllCalls(batch[1..])
  }

  /** Those calls carry the file. */
  lemma {:induction false} PieceCallsCarry(pieces: seq<Piece>, offset: nat)
    ensures Joined(PieceCalls(pieces, offset)) == Content(pieces)
    decreases |pieces|
  {
    if pieces != [] {
      var data, later := pieces[0].data, PieceCalls(pieces[1..], offset + |pieces[0].data|);
      PieceCallsCarry(pieces[1..], offset + |data|);
      if data == [] {
        assert [] + later == later;
      } else {
        assert ([Data(data, offset)] + later)[1..] == later;
      }
    }
  }

  lemma JoinedFirst(c: Call, calls: seq<Call>)
    ensures Joined([c] + calls) == (if c.Data? then c.bytes else []) + Joined(calls)
  {
    assert ([c] + calls)[1..] == calls;
  }

  lemma {:induction false} JoinedConcat(a: seq<Call>, b: seq<Call>)
    ensures Joined(a + b) == Joined(a) + Joined(b)
  {
    hide Joined;
    if a == [] {
      NothingJoined();
      assert a + b == b;
    } else {
      JoinedConcat(a[1..], b);
      JoinedFirst(a[0], a[1..]);
      JoinedFirst(a[0], a[1..] + b);
      assert a == [a[0]] + a[1..] && a + b == [a[0]] + (a[1..] + b);
    }
  }

  lemma {:induction false} FrameCallsCarry(frames: seq<DataFrame>, offset: nat)
    ensures Joined(FrameCalls(frames, offset)) == FramesContent(frames)
    decreases |frames|
  {
    hide Joined;
    if frames == [] {
      NothingJoined();
    } else {
      var pieces := frames[0].pieces;
      PieceCallsCarry(pieces, offset);
      FrameCallsCarry(frames[1..], offset + |Content(pieces)|);
      JoinedConcat(PieceCalls(pieces, offset), FrameCalls(frames[1..], offset + |Content(pieces)|));
    }
  }

  lemma NothingJoined()
    ensures Joined([]) == []
  {
  }

  // ----- reception -----

  /** What a header leaves unread. */
  function TailOf(form: Form, frame: byte): seq<byte> {
    if form == Hex then HexTail(frame) else []
  }

  lemma HeaderReads(z: Crcs, noise: seq<byte>, form: Form, frame: byte, flags: seq<byte>, rest: seq<Event>)
    requires ZPAD !in noise && |flags| == 4
    ensures ReadHeader(z, true, Bytes(noise) + (Bytes(Header(z, form, frame, flags)) + rest))
         == Found(frame, flags, form == Bin32, Bytes(TailOf(form, frame)) + rest)
    ensures ZPAD !in TailOf(form, frame)
  {
    hide ReadHeader, HexHeader, BinHeader, Header;
    var h := Header(z, form, frame, flags);
    BytesAppend(noise, h, rest);
    BytesNone([], rest);
    HeaderIs(z, form, frame, flags);
    match form
    case Hex => HexHeaderReads(z, true, noise, frame, flags, rest);
    case Bin16 => BinHeaderReads(z, true, noise, frame, flags, rest);
    case Bin32 => Bin32HeaderReads(z, true, noise, frame, flags, rest);
  }

  lemma HeaderIs(z: Crcs, form: Form, frame: byte, flags: seq<byte>)
    ensures Header(z, Hex, frame, flags) == HexHeader(z.step, frame, flags)
    ensures Header(z, Bin16, frame, flags) == BinHeader(z.step, frame, flags)
  {
  }

  lemma PieceReceived(z: Crcs, form: Form, info: FileInfo, piece: Piece, offset: nat, rest: seq<Event>,
                      sent: seq<byte>, calls: seq<Call>)
    requires |piece.data| <= 1024 && IsEnder(piece.ender)
    ensures var more := calls + if piece.data == [] then [] else [Data(piece.data, offset)];
      var w := World(rest, sent, more);
      InData(z, info, offset, form == Bin32, World(Bytes(Packet(z, form, piece.data, piece.ender)) + rest, sent, calls))
      == if piece.ender in {ZCRCE, ZCRCW} then InFile(z, info, offset + |piece.data|, w)
         else InData(z, info, offset + |piece.data|, form == Bin32, w)
  {
    hide InFile, ReadSubpacket, Packet, Bytes;
    PacketReads(z, form, piece.data, piece.ender, rest);
    assert calls + [] == calls;
  }

  /** The first subpacket and the others. */
  lemma PiecesSplit(z: Crcs, form: Form, pieces: seq<Piece>, offset: nat, calls: seq<Call>)
    requires WellFormed(pieces)
    ensures pieces != []
    ensures var piece, later := pieces[0], pieces[1..];
      && |piece.data| <= 1024 && IsEnder(piece.ender)
      && (piece.ender in {ZCRCE, ZCRCW} <==> later == []) && (later != [] ==> WellFormed(later))
      && PiecesBytes(z, form, pieces) == Packet(z, form, piece.data, piece.ender) + PiecesBytes(z, form, later)
      && |Content(pieces)| == |piece.data| + |Content(later)|
      && calls + PieceCalls(pieces, offset)
         == calls + (if piece.data == [] then [] else [Data(piece.data, offset)])
            + PieceCalls(later, offset + |piece.data|)
  {
    hide Packet;
  }

  lemma NoPieces(z: Crcs, form: Form, offset: nat, rest: seq<Event>, calls: seq<Call>)
    ensures Bytes(PiecesBytes(z, form, [])) + rest == rest && Content([]) == []
    ensures calls + PieceCalls([], offset) == calls
  {
    BytesNone([], rest);
  }

  lemma {:induction false} PiecesReceived(z: Crcs, form: Form, info: FileInfo, pieces: seq<Piece>, offset: nat,
                                          rest: seq<Event>, sent: seq<byte>, calls: seq<Call>)
    requires WellFormed(pieces)
    ensures InData(z, info, offset, form == Bin32, World(Bytes(PiecesBytes(z, form, pieces)) + rest, sent, calls))
         == InFile(z, info, offset + |Content(pieces)|, World(rest, sent, calls + PieceCalls(pieces, offset)))
    decreases |pieces|
  {
    hide InFile, InData, Packet, Bytes, PiecesBytes, Content, PieceCalls, WellFormed;
    PiecesSplit(z, form, pieces, offset, calls);
    var piece, later := pieces[0], pieces[1..];
    var more := calls + if piece.data == [] then [] else [Data(piece.data, offset)];
    BytesAppend(Packet(z, form, piece.data, piece.ender), PiecesBytes(z, form, later), rest);
    PieceReceived(z, form, info, piece, offset, Bytes(PiecesBytes(z, form, later)) + rest, sent, calls);
    if later == [] {
      NoPieces(z, form, offset + |piece.data|, rest, more);
    } else {
      PiecesReceived(z, form, info, later, offset + |piece.data|, rest, sent, more);
    }
  }

  lemma FrameReceived(z: Crcs, info: FileInfo, fr: DataFrame, offset: nat, rest: seq<Event>, sent: seq<byte>,
                      calls: seq<Call>)
    requires Proper(fr)
    ensures InFile(z, info, offset,
                   World(Bytes(Header(z, fr.form, ZDATA, fr.flags))
                         + (Bytes(PiecesBytes(z, fr.form, fr.pieces)) + rest), sent, calls))
         == InFile(z, info, offset + |Content(fr.pieces)|, World(rest, sent, calls + PieceCalls(fr.pieces, offset)))
  {
    hide InData, ReadHeader, Header, PiecesBytes, Bytes, WellFormed, Content, PieceCalls;
    var s := Bytes(PiecesBytes(z, fr.form, fr.pieces)) + rest;
    HeaderReads(z, [], fr.form, ZDATA, fr.flags, s);
    BytesNone([], s);
    BytesNone([], Bytes(Header(z, fr.form, ZDATA, fr.flags)) + s);
    PiecesReceived(z, fr.form, info, fr.pieces, offset, rest, sent, calls);
  }

  lemma {:induction false} FramesReceived(z: Crcs, info: FileInfo, frames: seq<DataFrame>, offset: nat,
                                          rest: seq<Event>, sent: seq<byte>, calls: seq<Call>)
    requires forall fr :: fr in frames ==> Proper(fr)
    ensures InFile(z, info, offset, World(Bytes(FramesBytes(z, frames)) + rest, sent, calls))
         == InFile(z, info, offset + |FramesContent(frames)|, World(rest, sent, calls + FrameCalls(frames, offset)))
    decreases |frames|
  {
    hide InFile, Header, PiecesBytes, Bytes, Proper, Content, PieceCalls;
    if frames == [] {
      BytesNone([], rest);
      assert calls + [] == calls;
    } else {
      var fr, later := frames[0], frames[1..];
      var header, data := Header(z, fr.form, ZDATA, fr.flags), PiecesBytes(z, fr.form, fr.pieces);
      var after := Bytes(FramesBytes(z, later)) + rest;
      BytesAppend(header, data + FramesBytes(z, later), rest);
      BytesAppend(data, FramesBytes(z, later), rest);
      FrameReceived(z, info, fr, offset, after, sent, calls);
      FramesReceived(z, info, later, offset + |Content(fr.pieces)|, rest, sent, calls + PieceCalls(fr.pieces, offset));
      assert calls + PieceCalls(fr.pieces, offset) + FrameCalls(later, offset + |Content(fr.pieces)|)
          == calls + FrameCalls(frames, offset);
    }
  }

  lemma EofReads(z: Crcs, info: FileInfo, offset: nat, form: Form, flags: seq<byte>, rest: seq<Event>,
                 sent: seq<byte>, calls: seq<Call>)
    requires |flags| == 4
    ensures InFile(z, info, offset, World(Bytes(Header(z, form, ZEOF, flags)) + rest, sent, calls))
         == Session(z, World(Bytes(TailOf(form, ZEOF)) + rest, sent + HexHeader(z.step, ZRINIT, ZERO_FLAGS),
                             calls + [FileEnd(info, Ok)]))
    ensures ZPAD !in TailOf(form, ZEOF)
  {
    hide Session, InData, ReadHeader, Header, HexHeader, TailOf, Bytes;
    HeaderReads(z, [], form, ZEOF, flags, rest);
    BytesNone([], Bytes(Header(z, form, ZEOF, flags)) + rest);
  }

  lemma FileOpens(z: Crcs, s: Sending, noise: seq<byte>, rest: seq<Event>, sent: seq<byte>, calls: seq<Call>)
    requires Sendable([s.file]) && s.form != Hex && IsEnder(s.ender) && ZPAD !in noise
    ensures Session(z, World(Bytes(noise) + (Bytes(Header(z, s.form, ZFILE, ZERO_FLAGS))
                             + (Bytes(Packet(z, s.form, InfoBytes(s.file), s.ender)) + rest)), sent, calls))
         == InFile(z, InfoOf(s.file), 0, World(rest, sent + HexHeader(z.step, ZRPOS, ZERO_FLAGS),
                                               calls + [FileStart(InfoOf(s.file))]))
  {
    hide InFile, ReadHeader, ReadSubpacket, Header, HexHeader, Packet, InfoBytes, ParseInfo, InfoOf, Bytes;
    assert s.file in [s.file];
    var sub := Bytes(Packet(z, s.form, InfoBytes(s.file), s.ender)) + rest;
    HeaderReads(z, noise, s.form, ZFILE, ZERO_FLAGS, sub);
    BytesNone([], sub);
    InfoParses(s.file);
    PacketReads(z, s.form, InfoBytes(s.file), s.ender, rest);
  }

  /** One file, from its header to its end. */
  lemma SendingReceived(z: Crcs, s: Sending, noise: seq<byte>, rest: seq<Event>, sent: seq<byte>, calls: seq<Call>)
    returns (sent': seq<byte>)
    requires Sendable([s.file]) && Brings(s) && ZPAD !in noise
    ensures Session(z, World(Bytes(noise) + (Bytes(SendingBytes(z, s)) + rest), sent, calls))
         == Session(z, World(Bytes(TailOf(s.eofForm, ZEOF)) + rest, sent', calls + SendingCalls(s)))
    ensures ZPAD !in TailOf(s.eofForm, ZEOF)
  {
    hide Session, InFile, Header, HexHeader, Packet, InfoBytes, InfoOf, Bytes, FramesBytes, FrameCalls, TailOf,
      Sendable, Proper, FramesContent;
    var header, info := Header(z, s.form, ZFILE, ZERO_FLAGS), Packet(z, s.form, InfoBytes(s.file), s.ender);
    var data, eof := FramesBytes(z, s.frames), Header(z, s.eofForm, ZEOF, s.eofFlags);
    BytesAppend(header, info + (data + eof), rest);
    BytesAppend(info, data + eof, rest);
    BytesAppend(data, eof, rest);
    var calls1 := calls + [FileStart(InfoOf(s.file))];
    var sent1 := sent + HexHeader(z.step, ZRPOS, ZERO_FLAGS);
    FileOpens(z, s, noise, Bytes(data) + (Bytes(eof) + rest), sent, calls);
    FramesReceived(z, InfoOf(s.file), s.frames, 0, Bytes(eof) + rest, sent1, calls1);
    EofReads(z, InfoOf(s.file), |FramesContent(s.frames)|, s.eofForm, s.eofFlags, rest, sent1,
             calls1 + FrameCalls(s.frames, 0));
    sent' := sent1 + HexHeader(z.step, ZRINIT, ZERO_FLAGS);
    assert calls1 + FrameCalls(s.frames, 0) + [FileEnd(InfoOf(s.file), Ok)] == calls + SendingCalls(s);
  }

  lemma {:induction false} BatchArrives(z: Crcs, batch: seq<Sending>, noise: seq<byte>, sent: seq<byte>,
                                        calls: seq<Call>)
    requires (forall s :: s in batch ==> Sendable([s.file]) && Brings(s)) && ZPAD !in noise
    ensures var (status, w) := Session(z, World(Bytes(noise) + (Bytes(BatchBytes(z, batch)) + []), sent, calls));
      status == Ok && w.calls == calls + AllCalls(batch)
    decreases |batch|
  {
    hide Session, Header, SendingBytes, SendingCalls, Bytes, Brings, Sendable, TailOf;
    if batch == [] {
      FinArrives(z, noise, sent, calls);
    } else {
      var s, later := batch[0], batch[1..];
      BytesAppend(SendingBytes(z, s), BatchBytes(z, later), []);
      var sent' := SendingReceived(z, s, noise, Bytes(BatchBytes(z, later)) + [], sent, calls);
      BatchArrives(z, later, TailOf(s.eofForm, ZEOF), sent', calls + SendingCalls(s));
      assert calls + SendingCalls(s) + AllCalls(later) == calls + AllCalls(batch);
    }
  }

  lemma FinArrives(z: Crcs, noise: seq<byte>, sent: seq<byte>, calls: seq<Call>)
    requires ZPAD !in noise
    ensures var (status, w) := Session(z, World(Bytes(noise) + (Bytes(BatchBytes(z, [])) + []), sent, calls));
      status == Ok && w.calls == calls + AllCalls([])
  {
    hide ReadHeader, Header, Bytes, TailOf;
    BytesAppend(Header(z, Hex, ZFIN, ZERO_FLAGS), OVER_AND_OUT, []);
    HeaderReads(z, noise, Hex, ZFIN, ZERO_FLAGS, Bytes(OVER_AND_OUT) + []);
    assert calls + [] == calls;
  }

  /** Any sender's stream is delivered whole: however its files are cut into subpackets of at most 1024
      bytes and these into ZDATA frames, empty files and empty subpackets included, storage is told each
      file's name, size and contents, piece by piece at the running offset, and zmodem_receive returns
      ZMODEM_OK. */
  lemma AnyStreamDelivered(z: Crcs, batch: seq<Sending>)
    requires forall s :: s in batch ==> Sendable([s.file]) && Brings(s)
    ensures var stream := HexHeader(z.step, ZRQINIT, ZERO_FLAGS) + BatchBytes(z, batch);
      var (status, w) := Receive(z, World(Bytes(stream), [], []));
      status == Ok && w.calls == AllCalls(batch)
    ensures forall s :: s in batch ==> Joined(FrameCalls(s.frames, 0)) == s.file.content
  {
    hide Session, HexHeader, BatchBytes, Sendable, Joined, FrameCalls, HexTail;
    forall s | s in batch ensures Joined(FrameCalls(s.frames, 0)) == s.file.content {
      FrameCallsCarry(s.frames, 0);
    }
    var hello := HexHeader(z.step, ZRINIT, ZERO_FLAGS);
    HelloReceived(z, BatchBytes(z, batch), hello, []);
    assert [] + hello == hello && [] + AllCalls(batch) == AllCalls(batch);
    HexTailClean(ZRQINIT);
    BatchArrives(z, batch, HexTail(ZRQINIT), hello + hello, []);
    BytesAppend(HexTail(ZRQINIT), BatchBytes(z, batch), []);
    assert Bytes(HexTail(ZRQINIT) + BatchBytes(z, batch)) + [] == Bytes(HexTail(ZRQINIT) + BatchBytes(z, batch));
  }

  /** Why those headers are binary: after a HEX header zmodem_receive leaves CR, LF and XON unread, so a
      subpacket that follows one is read with these three bytes in front, or not at all. */
  lemma HexFrameMisread(z: Crcs, frame: byte, flags: seq<byte>, rest: seq<Event>)
    requires |flags| == 4 && frame != ZFIN && frame != ZACK
    ensures var r := ReadHeader(z, true, Bytes(HexHeader(z.step, frame, flags)) + rest);
      && r.Found? && !r.crc32
      && var sub := ReadSubpacket(z, false, 1024, r.rest, []);
      sub.Sub? ==> [0x0D, 0x0A, 0x11] <= sub.data
  {
    hide HexHeader, ReadHeader, ReadSubpacket, Bytes;
    HexHeaderReads(z, true, [], frame, flags, rest);
    var h := HexHeader(z.step, frame, flags);
    assert [] + h == h && HexTail(frame) == [0x0D, 0x0A, 0x11];
    ThreeFirst(z, rest);
  }

  lemma ThreeFirst(z: Crcs, rest: seq<Event>)
    ensures ReadSubpacket(z, false, 1024, Bytes([0x0D, 0x0A, 0x11]) + rest, [])
         == ReadSubpacket(z, false, 1024, rest, [0x0D, 0x0A, 0x11])
  {
    hide ReadSubpacket, Bytes;
    var cr: seq<byte>, lf: seq<byte>, xon: seq<byte> := [0x0D], [0x0A], [0x11];
    assert cr + (lf + xon) == [0x0D, 0x0A, 0x11] && cr + lf + xon == [0x0D, 0x0A, 0x11];
    assert xon + [] == xon && [] + cr == cr;
    PlainFirst(z, 0x0D, lf + xon, rest, []);
    PlainFirst(z, 0x0A, xon, rest, cr);
    PlainFirst(z, 0x11, [], rest, cr + lf);
    BytesNone([], rest);
  }

  lemma PlainFirst(z: Crcs, b: byte, bs: seq<byte>, rest: seq<Event>, data: seq<byte>)
    requires b != ZDLE && |data| < 1024
    ensures ReadSubpacket(z, false, 1024, Bytes([b] + bs) + rest, data)
         == ReadSubpacket(z, false, 1024, Bytes(bs) + rest, data + [b])
  {
    BytesHead(b, bs, rest);
  }
}
