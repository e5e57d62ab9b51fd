/** What zmodem_transmit writes on every script of replies, said by what a reader gets from it. */
module ZmodemTransmission {
  import opened Serial
  import opened Metadata
  import opened Numerals
  import opened ZmodemFrames
  import opened ZmodemRoundTrip
  import opened R = ZmodemReceiver
  import opened T = ZmodemTransmitter
  import opened ZmodemSession
  import Trace = ZmodemTrace

  // ----- reading what was written -----

  /** A subpacket: its data and its ender. */
  type Piece = (seq<byte>, byte)

  /** The subpackets up to the one that says that a header follows. */
  function Gathered(z: Crcs, s: seq<Event>): Option<(seq<Piece>, seq<Event>)>
    decreases |s|
  {
    match ReadSubpacket(z, false, 1024, s, [])
    case BadSub(_) => None
    case Sub(data, ender, rest) =>
      if ender in {ZCRCE, ZCRCW} then Some(([(data, ender)], rest))
      else match Gathered(z, rest)
        case None => None
        case Some((more, rest')) => Some(([(data, ender)] + more, rest'))
  }

  function JoinedData(pieces: seq<Piece>): seq<byte> {
    if pieces == [] then [] else pieces[0].0 + JoinedData(pieces[1..])
  }

  /** The content from `p` on in pieces of 1024 bytes, of which ZCRCW ends the last and ZCRCG the others. */
  predicate Chunked(pieces: seq<Piece>, content: seq<byte>, p: nat)
    requires p <= |content|
    decreases |content| - p
  {
    var to := Min(p + 1024, |content|);
    if p == |content| then pieces == []
    else
      && pieces != [] && pieces[0] == (content[p..to], if to == |content| then ZCRCW else ZCRCG)
      && Chunked(pieces[1..], content, to)
  }

  /** A position in a header: four bytes, the low one first. */
  function Position(flags: seq<byte>): nat
    requires |flags| == 4
  {
    var b0: int, b1: int, b2: int, b3: int := flags[0], flags[1], flags[2], flags[3];
    b0 + 0x100 * b1 + 0x1_0000 * b2 + 0x100_0000 * b3
  }

  /** A ZFILE header and a subpacket with the name (the first 200 bytes) and the size. */
  predicate ReadsAsHead(z: Crcs, bytes: seq<byte>, f: File) {
    match ReadHeader(z, true, Bytes(bytes))
    case NoHeader(_) => false
    case Found(frame, _, crc32, rest) =>
      && frame == ZFILE && !crc32
      && match ReadSubpacket(z, false, 1024, rest, [])
         case BadSub(_) => false
         case Sub(data, ender, rest') =>
           ender == ZCRCW && rest' == [] && ParseInfo(data) == FileInfo(Cut(CString(f.name), 200), |f.content|)
  }

  /** A ZDATA header with position `p`, the content from there on if there is any, and a ZEOF header
      with the size, modulo 2^32; nothing else but the end of that header's line. */
  predicate ReadsAsBody(z: Crcs, bytes: seq<byte>, content: seq<byte>, p: nat) {
    match ReadHeader(z, true, Bytes(bytes))
    case NoHeader(_) => false
    case Found(frame, flags, crc32, rest) =>
      && frame == ZDATA && !crc32 && Position(flags) == p
      && match (if p < |content| then Gathered(z, rest) else Some(([], rest)))
         case None => false
         case Some((pieces, rest')) =>
           && (p < |content| ==> Chunked(pieces, content, p) && JoinedData(pieces) == content[p..])
           && match ReadHeader(z, true, rest')
              case NoHeader(_) => false
              case Found(frame', flags', _, rest'') =>
                && frame' == ZEOF && Position(flags') == |content| % 0x1_0000_0000
                && rest'' == [Byte(0x0D), Byte(0x0A), Byte(XON)]
  }

  /** A header without data that a reader finds. */
  predicate ReadsAs(z: Crcs, bytes: seq<byte>, frame: byte) {
    match ReadHeader(z, true, Bytes(bytes))
    case NoHeader(_) => false
    case Found(got, flags, _, rest) => got == frame && flags == [0, 0, 0, 0] && ZPAD !in ByteEvents(rest)
  }

  // ----- what is written -----

  lemma {:induction false} DataGathered(z: Crcs, content: seq<byte>, p: nat, rest: seq<Event>)
    returns (pieces: seq<Piece>)
    requires p < |content|
    ensures Gathered(z, Bytes(DataSubpackets(z.step, content, p)) + rest) == Some((pieces, rest))
    ensures Chunked(pieces, content, p) && JoinedData(pieces) == content[p..]
    decreases |content| - p
  {
    hide Bytes, Subpacket, ReadSubpacket;
    var next := p + Min(|content| - p, CHUNK);
    var chunk, ender := content[p..next], if next >= |content| then ZCRCW else ZCRCG;
    var more := DataSubpackets(z.step, content, next);
    BytesAppend(Subpacket(z.step, chunk, ender), more, rest);
    SubpacketReads(z, 1024, chunk, ender, Bytes(more) + rest);
    var later: seq<Piece> := [];
    if next < |content| {
      later := DataGathered(z, content, next, rest);
      assert content[p..next] + content[next..] == content[p..];
    } else {
      BytesNone(more, rest);
      assert chunk == content[p..] && chunk + [] == chunk;
    }
    pieces := [(chunk, ender)] + later;
    assert pieces[1..] == later;
    assert next >= |content| ==> pieces == [(chunk, ender)];
  }

  /** The name as the C code sees it. */
  lemma CleanName(f: File)
    requires CString(f.name) != []
    ensures var g := File(CString(f.name), f.content);
      g.name != [] && 0 !in g.name && InfoBytes(g) == InfoBytes(f) && CString(g.name) == g.name
  {
    hide Decimal;
    LengthOfClean(CString(f.name));
  }

  lemma HeadWritten(z: Crcs, f: File)
    requires CString(f.name) != [] && |f.content| <= SIZE_MAX
    ensures ReadsAsHead(z, FileHeader(z, f), f)
  {
    CleanName(f);
    InfoParses(File(CString(f.name), f.content));
    hide Bytes, BinHeader, Subpacket, ReadHeader, ReadSubpacket, InfoBytes, ParseInfo, CString;
    var bin, sub := BinHeader(z.step, ZFILE, ZERO_FLAGS), Subpacket(z.step, InfoBytes(f), ZCRCW);
    FoundBin(z, [], ZFILE, ZERO_FLAGS, sub);
    assert [] + (bin + sub) == FileHeader(z, f);
    SubpacketReads(z, 1024, InfoBytes(f), ZCRCW, []);
    assert Bytes(sub) + [] == Bytes(sub);
  }

  lemma BodyWritten(z: Crcs, f: File, p: nat)
    requires p < 0x1_0000_0000
    ensures ReadsAsBody(z, FileBody(z, f, p), f.content, p)
  {
    hide Bytes, BinHeader, HexHeader, DataSubpackets, ReadHeader, Gathered, LittleEndian, OffsetFlags, HexTail;
    var bin, data := BinHeader(z.step, ZDATA, OffsetFlags(p)), DataSubpackets(z.step, f.content, p);
    var eof := HexHeader(z.step, ZEOF, OffsetFlags(|f.content|));
    assert FileBody(z, f, p) == [] + (bin + (data + eof));
    FoundBin(z, [], ZDATA, OffsetFlags(p), data + eof);
    Trace.OffsetCarried(p);
    Trace.OffsetCarried(|f.content|);
    PositionIs(OffsetFlags(p));
    PositionIs(OffsetFlags(|f.content|));
    FoundHex(z, [], ZEOF, OffsetFlags(|f.content|), []);
    assert [] + (eof + []) == eof;
    EofTail();
    BytesAppend(data, eof, []);
    assert Bytes(data + eof) + [] == Bytes(data + eof) && Bytes(eof) + [] == Bytes(eof);
    if p < |f.content| {
      var pieces := DataGathered(z, f.content, p, Bytes(eof));
    } else {
      NoData(z, f.content, p);
      assert [] + eof == eof;
    }
  }

  lemma PositionIs(flags: seq<byte>)
    requires |flags| == 4
    ensures Position(flags) == LittleEndian(flags)
  {
  }

  lemma NoData(z: Crcs, content: seq<byte>, p: nat)
    requires p >= |content|
    ensures DataSubpackets(z.step, content, p) == []
  {
  }

  lemma EofTail()
    ensures Bytes(HexTail(ZEOF) + []) == [Byte(0x0D), Byte(0x0A), Byte(XON)]
  {
    BytesAt(HexTail(ZEOF) + []);
  }

  // ----- on every script of replies -----

  /** The next header among the replies is of that kind. */
  predicate Hears(z: Crcs, replies: seq<Event>, frame: byte) {
    var r := ReadHeader(z, false, replies);
    r.Found? && r.frame == frame
  }

  /** One file: its head; if ZRPOS is heard next, its body from the position asked for; and if ZRINIT is
      heard then, everything later. Any other reply, or none, ends the transmission. */
  ghost predicate FileWritten(z: Crcs, files: seq<File>, i: nat, replies: seq<Event>, written: seq<byte>,
                              status: Status, head: seq<byte>, body: seq<byte>, later: seq<byte>)
    requires i < |files|
    decreases |files| - i, 0
  {
    var position := ReadHeader(z, false, replies);
    && ReadsAsHead(z, head, files[i])
    && if !Hears(z, replies, ZRPOS) then written == head && status == TimedOut
       else
         && ReadsAsBody(z, body, files[i].content, Position(position.flags))
         && if !Hears(z, position.rest, ZRINIT) then written == head + body && status == TimedOut
            else
              && written == head + body + later
              && BatchWritten(z, files, i + 1, ReadHeader(z, false, position.rest).rest, later, status)
  }

  /** Sizes that `size_t` can hold. */
  predicate Sized(files: seq<File>) {
    forall f :: f in files ==> |f.content| <= SIZE_MAX
  }

  /** The batch from file `i` on, and ZFIN at its end, with "OO" if the receiver answers it. */
  ghost predicate BatchWritten(z: Crcs, files: seq<File>, i: nat, replies: seq<Event>, written: seq<byte>,
                               status: Status)
    decreases |files| - i, 1
  {
    if !Ends(files, i) then
      exists head, body, later :: FileWritten(z, files, i, replies, written, status, head, body, later)
    else
      status == Ok && exists fin :: EndWritten(z, replies, written, fin)
  }

  predicate EndWritten(z: Crcs, replies: seq<Event>, written: seq<byte>, fin: seq<byte>) {
    ReadsAs(z, fin, ZFIN) && written == fin + if Hears(z, replies, ZFIN) then [0x4F, 0x4F] else []
  }

  lemma HexReadsAs(z: Crcs, frame: byte)
    ensures ReadsAs(z, HexHeader(z.step, frame, ZERO_FLAGS), frame)
  {
    hide HexHeader, ReadHeader;
    FoundHex(z, [], frame, ZERO_FLAGS, []);
    var h := HexHeader(z.step, frame, ZERO_FLAGS);
    assert [] + (h + []) == h;
    TailIsClean(frame);
  }

  lemma TailIsClean(frame: byte)
    ensures ZPAD !in ByteEvents(Bytes(HexTail(frame) + []))
  {
    BytesSpell(HexTail(frame) + []);
  }

  lemma {:induction false} BatchIsWritten(z: Crcs, files: seq<File>, i: nat, w: World<()>) returns (written: seq<byte>)
    requires Sized(files)
    ensures var (status, w') := Batch(z, files, i, w);
      w'.sent == w.sent + written && BatchWritten(z, files, i, w.script, written, status)
    decreases |files| - i
  {
    hide ReadHeader, HexHeader, FileHeader, FileBody, ReadsAs, ReadsAsHead, ReadsAsBody, LittleEndian, BatchOver, Ends,
      CString;
    EndsIs(files, i);
    if Ends(files, i) {
      var fin := HexHeader(z.step, ZFIN, ZERO_FLAGS);
      written := fin + if Hears(z, w.script, ZFIN) then [0x4F, 0x4F] else [];
      HexReadsAs(z, ZFIN);
      assert EndWritten(z, w.script, written, fin);
      assert w.sent + fin + OVER_AND_OUT == w.sent + (fin + [0x4F, 0x4F]) && fin + [] == fin;
    } else {
      var f, head := files[i], FileHeader(z, files[i]);
      assert f in files;
      HeadWritten(z, f);
      var position := ReadHeader(z, false, w.script);
      var body, later := [], [];
      written := head;
      if Hears(z, w.script, ZRPOS) {
        PositionIs(position.flags);
        body := FileBody(z, f, LittleEndian(position.flags));
        BodyWritten(z, f, LittleEndian(position.flags));
        written := head + body;
        if Hears(z, position.rest, ZRINIT) {
          var next := ReadHeader(z, false, position.rest).rest;
          later := BatchIsWritten(z, files, i + 1, World(next, w.sent + head + body, w.calls));
          assert w.sent + head + body + later == w.sent + (head + body + later);
          written := head + body + later;
        }
      }
      assert w.sent + head + body == w.sent + (head + body);
      assert FileWritten(z, files, i, w.script, written, Batch(z, files, i, w).0, head, body, later);
    }
  }

  /** On every script of replies zmodem_transmit writes ZRQINIT and then, as long as the replies are the
      ones it waits for, each file's head, its body from the position asked for, and the end of the
      batch; it returns ZMODEM_OK exactly if it comes to that end. */
  lemma TransmitOnAnyReplies(z: Crcs, files: seq<File>, replies: seq<Event>)
    returns (hello: seq<byte>, later: seq<byte>)
    requires Sized(files)
    ensures ReadsAs(z, hello, ZRQINIT)
    ensures Written(z, files, replies, hello, later)
  {
    hide ReadHeader, HexHeader, Batch, BatchWritten;
    hello, later := HexHeader(z.step, ZRQINIT, ZERO_FLAGS), [];
    HexReadsAs(z, ZRQINIT);
    assert [] + hello == hello;
    if Hears(z, replies, ZRINIT) {
      later := BatchIsWritten(z, files, 0, World(ReadHeader(z, false, replies).rest, hello, []));
    }
  }

  ghost predicate Written(z: Crcs, files: seq<File>, replies: seq<Event>, hello: seq<byte>, later: seq<byte>) {
    var (status, w) := Transmit(z, files, World(replies, [], []));
    if Hears(z, replies, ZRINIT) then
      w.sent == hello + later && BatchWritten(z, files, 0, ReadHeader(z, false, replies).rest, later, status)
    else w.sent == hello && status == TimedOut
  }
}
