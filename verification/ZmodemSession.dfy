/** Whole ZMODEM sessions: the bytes zmodem_transmit emits, read by zmodem_receive, and what
    zmodem_receive tells storage on every input. */
module ZmodemSession {
  import opened Serial
  import opened Metadata
  import opened Numerals
  import opened ZmodemFrames
  import opened ZmodemRoundTrip
  import opened R = ZmodemReceiver
  import opened T = ZmodemTransmitter

  // ----- the stream and the replies that lead to it -----

  /** Everything written from file `idx` on. */
  function BatchStream(z: Crcs, files: seq<File>, idx: nat): seq<byte>
    decreases |files| - idx
  {
    if idx >= |files| then HexHeader(z.step, ZFIN, ZERO_FLAGS) + OVER_AND_OUT
    else FileHeader(z, files[idx]) + (FileBody(z, files[idx], 0) + BatchStream(z, files, idx + 1))
  }

  function Stream(z: Crcs, files: seq<File>): seq<byte> {
    HexHeader(z.step, ZRQINIT, ZERO_FLAGS) + BatchStream(z, files, 0)
  }

  /** The replies the transmitter expects from file `idx` on: ZRPOS at offset 0 and ZRINIT for
      each file, ZFIN at the end. */
  function BatchReplies(z: Crcs, files: seq<File>, idx: nat): seq<byte>
    decreases |files| - idx
  {
    if idx >= |files| then HexHeader(z.step, ZFIN, ZERO_FLAGS)
    else
      var next := HexHeader(z.step, ZRINIT, ZERO_FLAGS) + BatchReplies(z, files, idx + 1);
      HexHeader(z.step, ZRPOS, ZERO_FLAGS) + next
  }

  function Replies(z: Crcs, files: seq<File>): seq<byte> {
    HexHeader(z.step, ZRINIT, ZERO_FLAGS) + BatchReplies(z, files, 0)
  }

  /** Waiting for a HEX header that comes after ZPAD-free noise. */
  lemma ExpectHex(z: Crcs, noise: seq<byte>, frame: byte, flags: seq<byte>, more: seq<byte>)
    requires ZPAD !in noise && |flags| == 4
    ensures Expect(z, frame, Bytes(noise + (HexHeader(z.step, frame, flags) + more)))
         == (Some(flags), Bytes(HexTail(frame) + more))
    ensures ZPAD !in HexTail(frame)
  {
    hide HexHeader, ReadHeader;
    var h := HexHeader(z.step, frame, flags);
    assert noise + (h + more) == (noise + h) + more;
    BytesAppend(noise + h, more, []);
    HexHeaderReads(z, false, noise, frame, flags, Bytes(more));
    BytesAppend(HexTail(frame), more, []);
    assert forall bs: seq<byte> :: Bytes(bs) + [] == Bytes(bs);
  }

  /** The transmitter's turn on one file. */
  lemma FileEmits(z: Crcs, files: seq<File>, idx: nat, noise: seq<byte>, sent: seq<byte>)
    requires Sendable(files) && idx < |files| && ZPAD !in noise
    ensures Batch(z, files, idx, World(Bytes(noise + BatchReplies(z, files, idx)), sent, []))
         == Batch(z, files, idx + 1, World(Bytes(HexTail(ZRINIT) + BatchReplies(z, files, idx + 1)),
                                           sent + FileHeader(z, files[idx]) + FileBody(z, files[idx], 0), []))
    ensures ZPAD !in HexTail(ZRINIT)
  {
    hide HexHeader, Expect, FileHeader, FileBody, HexTail, BatchOver, LittleEndian;
    SendableName(files, idx);
    var later := BatchReplies(z, files, idx + 1);
    ExpectHex(z, noise, ZRPOS, ZERO_FLAGS, HexHeader(z.step, ZRINIT, ZERO_FLAGS) + later);
    ExpectHex(z, HexTail(ZRPOS), ZRINIT, ZERO_FLAGS, later);
    ZeroOffset();
  }

  /** And on the end of the batch. */
  lemma EndEmits(z: Crcs, files: seq<File>, noise: seq<byte>, sent: seq<byte>)
    requires Sendable(files) && ZPAD !in noise
    ensures var (status, w) :=
        Batch(z, files, |files|, World(Bytes(noise + BatchReplies(z, files, |files|)), sent, []));
      status == Ok && w.sent == sent + BatchStream(z, files, |files|)
  {
    hide HexHeader, Expect, HexTail, BatchOver;
    SendableName(files, |files|);
    ExpectHex(z, noise, ZFIN, ZERO_FLAGS, []);
    assert HexHeader(z.step, ZFIN, ZERO_FLAGS) + [] == HexHeader(z.step, ZFIN, ZERO_FLAGS);
    assert sent + HexHeader(z.step, ZFIN, ZERO_FLAGS) + OVER_AND_OUT == sent + BatchStream(z, files, |files|);
  }

  lemma {:induction false} BatchEmits(z: Crcs, files: seq<File>, idx: nat, noise: seq<byte>, sent: seq<byte>)
    requires Sendable(files) && idx <= |files| && ZPAD !in noise
    ensures var (status, w) := Batch(z, files, idx, World(Bytes(noise + BatchReplies(z, files, idx)), sent, []));
      status == Ok && w.sent == sent + BatchStream(z, files, idx)
    decreases |files| - idx
  {
    hide Batch, BatchReplies, BatchStream, FileHeader, FileBody, HexTail;
    if idx == |files| {
      EndEmits(z, files, noise, sent);
    } else {
      FileEmits(z, files, idx, noise, sent);
      var header, body := FileHeader(z, files[idx]), FileBody(z, files[idx], 0);
      BatchEmits(z, files, idx + 1, HexTail(ZRINIT), sent + header + body);
      BatchUnfolds(z, files, idx);
      assert sent + header + body + BatchStream(z, files, idx + 1)
          == sent + (header + (body + BatchStream(z, files, idx + 1)));
    }
  }

  lemma ZeroOffset()
    ensures LittleEndian(ZERO_FLAGS) == 0
  {
  }

  /** With the replies it expects, zmodem_transmit sends exactly the stream and returns
      ZMODEM_OK. */
  lemma TransmitEmits(z: Crcs, files: seq<File>)
    requires Sendable(files)
    ensures var (status, w) := Transmit(z, files, World(Bytes(Replies(z, files)), [], []));
      status == Ok && w.sent == Stream(z, files)
  {
    hide HexHeader, Expect, HexTail, Batch, BatchReplies, BatchStream;
    var hello := HexHeader(z.step, ZRQINIT, ZERO_FLAGS);
    ExpectHex(z, [], ZRINIT, ZERO_FLAGS, BatchReplies(z, files, 0));
    assert [] + Replies(z, files) == Replies(z, files) && [] + hello == hello;
    BatchEmits(z, files, 0, HexTail(ZRINIT), hello);
  }

  // ----- the receiver on the stream -----

  function InfoOf(f: File): FileInfo {
    FileInfo(Cut(f.name, NAME_LIMIT), |f.content|)
  }

  /** The storage calls for a file's contents from `offset` on. */
  function DataCalls(content: seq<byte>, offset: nat): seq<Call>
    decreases |content| - offset
  {
    if offset >= |content| then []
    else
      var next := offset + Min(|content| - offset, CHUNK);
      [Data(content[offset..next], offset)] + DataCalls(content, next)
  }

  function FileCalls(f: File): seq<Call> {
    [FileStart(InfoOf(f))] + DataCalls(f.content, 0) + [FileEnd(InfoOf(f), Ok)]
  }

  function BatchCalls(files: seq<File>, idx: nat): seq<Call>
    decreases |files| - idx
  {
    if idx >= |files| then [] else FileCalls(files[idx]) + BatchCalls(files, idx + 1)
  }

  /** The bytes of the data calls, in order. */
  function Joined(calls: seq<Call>): seq<byte> {
    if calls == [] then []
    else (if calls[0].Data? then calls[0].bytes else []) + Joined(calls[1..])
  }

  /** The data calls of a file carry its contents in order, without gap or overlap. */
  lemma {:induction false} DataCallsCarryContent(content: seq<byte>, offset: nat)
    requires offset <= |content|
    ensures Joined(DataCalls(content, offset)) == content[offset..]
    decreases |content| - offset
  {
    if offset < |content| {
      var next := offset + Min(|content| - offset, CHUNK);
      DataCallsCarryContent(content, next);
      assert DataCalls(content, offset)[1..] == DataCalls(content, next);
      assert content[offset..next] + content[next..] == content[offset..];
    }
  }

  /** The metadata subpacket is read back as name and size. */
  lemma InfoParses(f: File)
    requires f.name != [] && 0 !in f.name && |f.content| <= SIZE_MAX
    ensures ParseInfo(InfoBytes(f)) == InfoOf(f) && |InfoBytes(f)| <= BUFFER
  {
    hide Strtoul, Decimal;
    LengthOfClean(f.name);
    var name, size := Cut(f.name, NAME_LIMIT), Decimal(|f.content|);
    var sub := InfoBytes(f);
    assert sub == name + [0] + (size + [0]);
    assert 0 !in name;
    LengthOfTerminated(name, size + [0]);
    assert sub[..|name|] == name && sub[|name| + 1..] == size + [0];
    StrtoulDecimal(|f.content|, [0]);
    SizeDigits(|f.content|);
  }

  /** What the receiver makes of any sender's ZFILE subpacket: the name up to the first NUL and the number
      after it; of a name longer than 255 bytes the first 255, and the number is then looked for in the
      name. */
  lemma AnyInfoParses(name: seq<byte>, text: seq<byte>)
    requires 0 !in name
    ensures |name| <= 255 ==>
      ParseInfo(name + [0] + text) == FileInfo(name, if text == [] then 0 else Strtoul(text))
    ensures |name| > 255 ==>
      ParseInfo(name + [0] + text) == FileInfo(name[..255], Strtoul((name + [0] + text)[256..]))
    ensures |name| <= 255 ==> ParseInfo(name) == FileInfo(name, 0)
  {
    hide Strtoul;
    LengthOfTerminated(name, text);
    LengthOfClean(name);
    var sub := name + [0] + text;
    if |name| <= 255 {
      assert sub[..|name|] == name && sub[|name| + 1..] == text && name[..|name|] == name;
    } else {
      assert sub[..255] == name[..255];
    }
  }

  lemma {:induction false} DataReceived(z: Crcs, info: FileInfo, content: seq<byte>, offset: nat,
                                        rest: seq<Event>, sent: seq<byte>, calls: seq<Call>)
    requires offset < |content|
    ensures InData(z, info, offset, false,
                   World(Bytes(DataSubpackets(z.step, content, offset)) + rest, sent, calls))
         == InFile(z, info, |content|, World(rest, sent, calls + DataCalls(content, offset)))
    decreases |content| - offset
  {
    hide InFile, Subpacket, ReadSubpacket;
    var next := offset + Min(|content| - offset, CHUNK);
    var chunk, ender := content[offset..next], if next >= |content| then ZCRCW else ZCRCG;
    var more := DataSubpackets(z.step, content, next);
    BytesAppend(Subpacket(z.step, chunk, ender), more, rest);
    SubpacketReads(z, BUFFER, chunk, ender, Bytes(more) + rest);
    var calls' := calls + [Data(chunk, offset)];
    assert calls + DataCalls(content, offset) == calls' + DataCalls(content, next);
    if next < |content| {
      DataReceived(z, info, content, next, rest, sent, calls');
    } else {
      assert Bytes(more) + rest == rest && calls' + [] == calls';
    }
  }

  /** ZEOF ends the file. */
  lemma EofReceived(z: Crcs, info: FileInfo, offset: nat, flags: seq<byte>, more: seq<byte>,
                    sent: seq<byte>, calls: seq<Call>)
    requires |flags| == 4
    ensures InFile(z, info, offset, World(Bytes(HexHeader(z.step, ZEOF, flags) + more), sent, calls))
         == Session(z, World(Bytes(HexTail(ZEOF) + more), sent + HexHeader(z.step, ZRINIT, ZERO_FLAGS),
                             calls + [FileEnd(info, Ok)]))
  {
    hide Session, InData, HexHeader, ReadHeader, HexTail;
    FoundHex(z, [], ZEOF, flags, more);
    assert [] + (HexHeader(z.step, ZEOF, flags) + more) == HexHeader(z.step, ZEOF, flags) + more;
  }

  lemma FoundHex(z: Crcs, noise: seq<byte>, frame: byte, flags: seq<byte>, more: seq<byte>)
    requires ZPAD !in noise && |flags| == 4
    ensures ReadHeader(z, true, Bytes(noise + (HexHeader(z.step, frame, flags) + more)))
         == Found(frame, flags, false, Bytes(HexTail(frame) + more))
    ensures ZPAD !in HexTail(frame)
  {
    hide HexHeader, ReadHeader;
    var h := HexHeader(z.step, frame, flags);
    assert noise + (h + more) == (noise + h) + more;
    BytesAppend(noise + h, more, []);
    HexHeaderReads(z, true, noise, frame, flags, Bytes(more));
    BytesAppend(HexTail(frame), more, []);
    assert forall bs: seq<byte> :: Bytes(bs) + [] == Bytes(bs);
  }

  lemma FoundBin(z: Crcs, noise: seq<byte>, frame: byte, flags: seq<byte>, more: seq<byte>)
    requires ZPAD !in noise && |flags| == 4
    ensures ReadHeader(z, true, Bytes(noise + (BinHeader(z.step, frame, flags) + more)))
         == Found(frame, flags, false, Bytes(more))
  {
    hide BinHeader, ReadHeader;
    var h := BinHeader(z.step, frame, flags);
    assert noise + (h + more) == (noise + h) + more;
    BytesAppend(noise + h, more, []);
    BinHeaderReads(z, true, noise, frame, flags, Bytes(more));
    assert forall bs: seq<byte> :: Bytes(bs) + [] == Bytes(bs);
  }

  /** A file's header opens it in storage and asks for offset 0. */
  lemma HeaderReceived(z: Crcs, f: File, noise: seq<byte>, more: seq<byte>, sent: seq<byte>, calls: seq<Call>)
    requires ZPAD !in noise && f.name != [] && 0 !in f.name && |f.content| <= SIZE_MAX
    ensures Session(z, World(Bytes(noise + (FileHeader(z, f) + more)), sent, calls))
         == InFile(z, InfoOf(f), 0, World(Bytes(more), sent + HexHeader(z.step, ZRPOS, ZERO_FLAGS),
                                          calls + [FileStart(InfoOf(f))]))
  {
    hide InFile, HexHeader, BinHeader, Subpacket, ReadHeader, ReadSubpacket, ParseInfo, InfoBytes;
    var bin, sub := BinHeader(z.step, ZFILE, ZERO_FLAGS), Subpacket(z.step, InfoBytes(f), ZCRCW);
    assert FileHeader(z, f) + more == bin + (sub + more);
    FoundBin(z, noise, ZFILE, ZERO_FLAGS, sub + more);
    BytesAppend(sub, more, []);
    InfoParses(f);
    SubpacketReads(z, BUFFER, InfoBytes(f), ZCRCW, Bytes(more));
    assert Bytes(sub + more) + [] == Bytes(sub + more) && Bytes(more) + [] == Bytes(more);
  }

  /** A non-empty file's ZDATA frame and ZEOF. */
  lemma BodyReceived(z: Crcs, f: File, more: seq<byte>, sent: seq<byte>, calls: seq<Call>)
    requires f.content != []
    ensures InFile(z, InfoOf(f), 0, World(Bytes(FileBody(z, f, 0) + more), sent, calls))
         == Session(z, World(Bytes(HexTail(ZEOF) + more), sent + HexHeader(z.step, ZRINIT, ZERO_FLAGS),
                             calls + DataCalls(f.content, 0) + [FileEnd(InfoOf(f), Ok)]))
  {
    hide Session, InData, HexHeader, BinHeader, DataSubpackets, ReadHeader, HexTail, OffsetFlags, DataCalls;
    var bin, data := BinHeader(z.step, ZDATA, OffsetFlags(0)), DataSubpackets(z.step, f.content, 0);
    var eof := HexHeader(z.step, ZEOF, OffsetFlags(|f.content|));
    assert [] + (bin + (data + (eof + more))) == FileBody(z, f, 0) + more;
    FoundBin(z, [], ZDATA, OffsetFlags(0), data + (eof + more));
    BytesAppend(data, eof + more, []);
    assert Bytes(data + (eof + more)) + [] == Bytes(data + (eof + more)) && Bytes(eof + more) + [] == Bytes(eof + more);
    DataReceived(z, InfoOf(f), f.content, 0, Bytes(eof + more), sent, calls);
    EofReceived(z, InfoOf(f), |f.content|, OffsetFlags(|f.content|), more, sent, calls + DataCalls(f.content, 0));
  }

  /** Files without content are the ones this framing cannot carry: ZDATA is then followed by no
      subpacket. */
  predicate NoEmptyFile(files: seq<File>) {
    forall f :: f in files ==> f.content != []
  }

  lemma BatchUnfolds(z: Crcs, files: seq<File>, idx: nat)
    requires idx < |files|
    ensures BatchStream(z, files, idx)
         == FileHeader(z, files[idx]) + (FileBody(z, files[idx], 0) + BatchStream(z, files, idx + 1))
  {
  }

  /** A batch that starts with a non-empty file is received like the rest of it, after that
      file's calls. */
  lemma FileReceived(z: Crcs, files: seq<File>, idx: nat, noise: seq<byte>, sent: seq<byte>, calls: seq<Call>)
    returns (sent': seq<byte>)
    requires Sendable(files) && idx < |files| && ZPAD !in noise && files[idx].content != []
    ensures ZPAD !in HexTail(ZEOF)
    ensures Session(z, World(Bytes(noise + BatchStream(z, files, idx)), sent, calls))
         == Session(z, World(Bytes(HexTail(ZEOF) + BatchStream(z, files, idx + 1)), sent',
                             calls + FileCalls(files[idx])))
  {
    hide Session, InFile, HexHeader, HexTail, FileHeader, FileBody, DataCalls, InfoOf, BatchStream;
    var f := files[idx];
    assert f in files;
    BatchUnfolds(z, files, idx);
    var later := BatchStream(z, files, idx + 1);
    var calls1 := calls + [FileStart(InfoOf(f))];
    var sent1 := sent + HexHeader(z.step, ZRPOS, ZERO_FLAGS);
    HeaderReceived(z, f, noise, FileBody(z, f, 0) + later, sent, calls);
    BodyReceived(z, f, later, sent1, calls1);
    HexTailClean(ZEOF);
    sent' := sent1 + HexHeader(z.step, ZRINIT, ZERO_FLAGS);
    assert calls1 + DataCalls(f.content, 0) + [FileEnd(InfoOf(f), Ok)] == calls + FileCalls(f);
  }

  lemma {:induction false} BatchReceived(z: Crcs, files: seq<File>, idx: nat, noise: seq<byte>,
                                         sent: seq<byte>, calls: seq<Call>)
    requires Sendable(files) && NoEmptyFile(files) && idx <= |files| && ZPAD !in noise
    ensures var (status, w) := Session(z, World(Bytes(noise + BatchStream(z, files, idx)), sent, calls));
      status == Ok && w.calls == calls + BatchCalls(files, idx)
    decreases |files| - idx
  {
    hide Session, HexHeader, HexTail, FileCalls, BatchStream, BatchCalls;
    if idx == |files| {
      FinReceived(z, files, noise, sent, calls);
    } else {
      assert files[idx] in files;
      var sent' := FileReceived(z, files, idx, noise, sent, calls);
      BatchReceived(z, files, idx + 1, HexTail(ZEOF), sent', calls + FileCalls(files[idx]));
      BatchCallsSplit(files, idx, calls);
    }
  }

  lemma HexTailClean(frame: byte)
    ensures ZPAD !in HexTail(frame)
  {
  }

  lemma BatchCallsSplit(files: seq<File>, idx: nat, calls: seq<Call>)
    requires idx < |files|
    ensures calls + BatchCalls(files, idx) == calls + FileCalls(files[idx]) + BatchCalls(files, idx + 1)
  {
  }

  lemma FinReceived(z: Crcs, files: seq<File>, noise: seq<byte>, sent: seq<byte>, calls: seq<Call>)
    requires ZPAD !in noise
    ensures var (status, w) := Session(z, World(Bytes(noise + BatchStream(z, files, |files|)), sent, calls));
      status == Ok && w.calls == calls + BatchCalls(files, |files|)
  {
    hide HexHeader, ReadHeader, HexTail;
    FoundHex(z, noise, ZFIN, ZERO_FLAGS, OVER_AND_OUT);
  }

  lemma HelloReceived(z: Crcs, more: seq<byte>, sent: seq<byte>, calls: seq<Call>)
    ensures Session(z, World(Bytes(HexHeader(z.step, ZRQINIT, ZERO_FLAGS) + more), sent, calls))
         == Session(z, World(Bytes(HexTail(ZRQINIT) + more), sent + HexHeader(z.step, ZRINIT, ZERO_FLAGS), calls))
  {
    hide HexHeader, ReadHeader, HexTail;
    FoundHex(z, [], ZRQINIT, ZERO_FLAGS, more);
    assert [] + (HexHeader(z.step, ZRQINIT, ZERO_FLAGS) + more) == HexHeader(z.step, ZRQINIT, ZERO_FLAGS) + more;
  }

  // ----- on every input: storage calls only accumulate -----

  lemma {:induction false} SessionGrows(z: Crcs, w: World<Call>)
    ensures w.calls <= Session(z, w).1.calls && w.sent <= Session(z, w).1.sent
    decreases |w.script|
  {
    hide ReadHeader, ReadSubpacket, ParseInfo, HexHeader, InFile;
    var r := ReadHeader(z, true, w.script);
    if r.Found? {
      var w1 := w.Leaves(r.rest);
      if r.frame == ZRQINIT {
        SessionGrows(z, w1.Sends(HexHeader(z.step, ZRINIT, ZERO_FLAGS)));
      } else if r.frame == ZFILE {
        var sub := ReadSubpacket(z, r.crc32, BUFFER, r.rest, []);
        if sub.Sub? {
          var info := ParseInfo(sub.data);
          InFileGrows(z, info, 0,
            w.Leaves(sub.rest).Makes(FileStart(info)).Sends(HexHeader(z.step, ZRPOS, ZERO_FLAGS)));
        }
      } else if r.frame != ZFIN {
        SessionGrows(z, w1);
      }
    }
  }

  lemma {:induction false} InFileGrows(z: Crcs, info: FileInfo, offset: nat, w: World<Call>)
    ensures w.calls <= InFile(z, info, offset, w).1.calls && w.sent <= InFile(z, info, offset, w).1.sent
    decreases |w.script|
  {
    hide ReadHeader, HexHeader, Session, InData;
    var r := ReadHeader(z, true, w.script);
    if r.Found? {
      var w1 := w.Leaves(r.rest);
      if r.frame == ZDATA {
        InDataGrows(z, info, offset, r.crc32, w1);
      } else if r.frame == ZEOF {
        SessionGrows(z, w1.Makes(FileEnd(info, Ok)).Sends(HexHeader(z.step, ZRINIT, ZERO_FLAGS)));
      } else if r.frame != ZFIN {
        InFileGrows(z, info, offset, w1);
      }
    }
  }

  lemma {:induction false} InDataGrows(z: Crcs, info: FileInfo, offset: nat, crc32: bool, w: World<Call>)
    ensures var w' := InData(z, info, offset, crc32, w).1; w.calls <= w'.calls && w.sent <= w'.sent
    decreases |w.script|
  {
    hide ReadSubpacket, InFile;
    var r := ReadSubpacket(z, crc32, BUFFER, w.script, []);
    if r.Sub? {
      var w1 := Store(w.Leaves(r.rest), r.data, offset);
      if EndsFrame(r.ender) {
        InFileGrows(z, info, offset + |r.data|, w1);
      } else {
        InDataGrows(z, info, offset + |r.data|, crc32, w1);
      }
    }
  }

  // ----- the main results -----

  function ReceiveStream(z: Crcs, files: seq<File>): (Status, World<Call>) {
    Receive(z, World(Bytes(Stream(z, files)), [], []))
  }

  /** Every file arrived with its name, size and contents, in order, and the session ended well. */
  predicate Delivers(z: Crcs, files: seq<File>) {
    var (status, w) := ReceiveStream(z, files);
    status == Ok && w.calls == BatchCalls(files, 0)
  }

  lemma ReceiveStartsBatch(z: Crcs, files: seq<File>)
    ensures var hello := HexHeader(z.step, ZRINIT, ZERO_FLAGS);
      ReceiveStream(z, files)
      == Session(z, World(Bytes(HexTail(ZRQINIT) + BatchStream(z, files, 0)), hello + hello, []))
  {
    hide Session, HexHeader, HexTail, BatchStream;
    var hello := HexHeader(z.step, ZRINIT, ZERO_FLAGS);
    assert [] + hello == hello;
    HelloReceived(z, BatchStream(z, files, 0), hello, []);
  }

  /** What follows the ZDATA header of an empty file is not a data subpacket: reading one there
      fails, or yields data the file does not have. */
  lemma EmptyFileMisread(z: Crcs, f: File, more: seq<byte>, sent: seq<byte>, calls: seq<Call>)
    requires f.content == []
    ensures var (status, w) := InFile(z, InfoOf(f), 0, World(Bytes(FileBody(z, f, 0) + more), sent, calls));
      status == Ok ==> |w.calls| > |calls| && w.calls[|calls|].Data?
  {
    hide InFile, ReadHeader, HexHeader, BinHeader, OffsetFlags;
    var bin, eof := BinHeader(z.step, ZDATA, OffsetFlags(0)), HexHeader(z.step, ZEOF, OffsetFlags(0));
    assert FileBody(z, f, 0) + more == [] + (bin + (eof + more));
    FoundBin(z, [], ZDATA, OffsetFlags(0), eof + more);
    var w := World(Bytes(eof + more), sent, calls);
    assert InFile(z, InfoOf(f), 0, World(Bytes(FileBody(z, f, 0) + more), sent, calls))
        == InData(z, InfoOf(f), 0, false, w) by {
      InFileData(z, InfoOf(f), 0, World(Bytes(FileBody(z, f, 0) + more), sent, calls));
    }
    HexHeaderStartsWithPad(z, ZEOF, OffsetFlags(0), more);
    PadIsData(z, w.script);
    var r := ReadSubpacket(z, false, BUFFER, w.script, []);
    if r.Sub? {
      var w1 := Store(w.Leaves(r.rest), r.data, 0);
      if EndsFrame(r.ender) {
        InFileGrows(z, InfoOf(f), |r.data|, w1);
      } else {
        InDataGrows(z, InfoOf(f), |r.data|, false, w1);
      }
    }
  }

  lemma InFileData(z: Crcs, info: FileInfo, offset: nat, w: World<Call>)
    requires ReadHeader(z, true, w.script).Found? && ReadHeader(z, true, w.script).frame == ZDATA
    ensures var r := ReadHeader(z, true, w.script);
      InFile(z, info, offset, w) == InData(z, info, offset, r.crc32, w.Leaves(r.rest))
  {
  }

  lemma HexHeaderStartsWithPad(z: Crcs, frame: byte, flags: seq<byte>, more: seq<byte>)
    ensures Head(Bytes(HexHeader(z.step, frame, flags) + more)) == Byte(ZPAD)
  {
  }

  /** A subpacket that starts with ZPAD carries at least that byte. */
  lemma PadIsData(z: Crcs, s: seq<Event>)
    requires Head(s) == Byte(ZPAD)
    ensures var r := ReadSubpacket(z, false, BUFFER, s, []); r.Sub? ==> r.data != []
  {
  }

  lemma EmptyFileSpoilsHere(z: Crcs, files: seq<File>, idx: nat, noise: seq<byte>, sent: seq<byte>, calls: seq<Call>)
    requires Sendable(files) && idx < |files| && ZPAD !in noise && files[idx].content == []
    ensures var (status, w) := Session(z, World(Bytes(noise + BatchStream(z, files, idx)), sent, calls));
      !(status == Ok && w.calls == calls + BatchCalls(files, idx))
  {
    hide Session, InFile, HexHeader, HexTail, FileHeader, FileBody;
    var f := files[idx];
    assert f in files;
    var later := BatchStream(z, files, idx + 1);
    var calls1 := calls + [FileStart(InfoOf(f))];
    HeaderReceived(z, f, noise, FileBody(z, f, 0) + later, sent, calls);
    EmptyFileMisread(z, f, later, sent + HexHeader(z.step, ZRPOS, ZERO_FLAGS), calls1);
    assert FileCalls(f) == [FileStart(InfoOf(f)), FileEnd(InfoOf(f), Ok)];
    assert (calls + BatchCalls(files, idx))[|calls1|] == FileEnd(InfoOf(f), Ok);
  }

  lemma {:induction false} EmptyFileSpoils(z: Crcs, files: seq<File>, idx: nat, noise: seq<byte>,
                                           sent: seq<byte>, calls: seq<Call>)
    requires Sendable(files) && idx < |files| && ZPAD !in noise
    requires exists j :: idx <= j < |files| && files[j].content == []
    ensures var (status, w) := Session(z, World(Bytes(noise + BatchStream(z, files, idx)), sent, calls));
      !(status == Ok && w.calls == calls + BatchCalls(files, idx))
    decreases |files| - idx
  {
    hide Session, HexHeader, HexTail, BatchStream, FileCalls;
    if files[idx].content == [] {
      EmptyFileSpoilsHere(z, files, idx, noise, sent, calls);
    } else {
      var sent' := FileReceived(z, files, idx, noise, sent, calls);
      EmptyFileSpoils(z, files, idx + 1, HexTail(ZEOF), sent', calls + FileCalls(files[idx]));
      BatchCallsSplit(files, idx, calls);
    }
  }

  /** The stream of a batch is received as exactly those names (the first 200 bytes), sizes and
      contents, in order, with ZMODEM_OK, if and only if no file in it is empty; for every CRC. */
  lemma StreamDelivered(z: Crcs, files: seq<File>)
    requires Sendable(files)
    ensures Delivers(z, files) <==> NoEmptyFile(files)
  {
    hide Session, HexHeader, HexTail, BatchStream, BatchCalls, ReceiveStream;
    ReceiveStartsBatch(z, files);
    HexTailClean(ZRQINIT);
    var sent := HexHeader(z.step, ZRINIT, ZERO_FLAGS) + HexHeader(z.step, ZRINIT, ZERO_FLAGS);
    assert [] + BatchCalls(files, 0) == BatchCalls(files, 0);
    if NoEmptyFile(files) {
      BatchReceived(z, files, 0, HexTail(ZRQINIT), sent, []);
    } else {
      var f :| f in files && f.content == [];
      var j :| 0 <= j < |files| && files[j] == f;
      EmptyFileSpoils(z, files, 0, HexTail(ZRQINIT), sent, []);
    }
  }

  /** On a FIFO link the two engines do not meet: whatever follows ZRQINIT, the receiver answers it
      with a second ZRINIT, and a transmitter that hears ZRINIT twice gives up on its first file. */
  lemma FifoLinkFails(z: Crcs, files: seq<File>, after: seq<Event>, more: seq<Event>)
    requires Sendable(files)
    ensures var hello := HexHeader(z.step, ZRINIT, ZERO_FLAGS);
      hello + hello <= Receive(z, World(Bytes(HexHeader(z.step, ZRQINIT, ZERO_FLAGS)) + after, [], [])).1.sent
    ensures var hello := HexHeader(z.step, ZRINIT, ZERO_FLAGS);
      (Transmit(z, files, World(Bytes(hello + hello) + more, [], [])).0 == Ok) <==> files == []
  {
    hide Session, HexHeader, HexTail, Batch;
    var hello, call := HexHeader(z.step, ZRINIT, ZERO_FLAGS), HexHeader(z.step, ZRQINIT, ZERO_FLAGS);
    assert [] + hello == hello;
    HelloAnswered(z, after, hello);
    SessionGrows(z, World(Bytes(HexTail(ZRQINIT)) + after, hello + hello, []));
    SecondHello(z, files, more);
    if files == [] {
      EmptyBatch(z, World(Bytes(HexTail(ZRINIT)) + (Bytes(hello) + more), call, []));
    }
  }

  lemma HelloAnswered(z: Crcs, after: seq<Event>, sent: seq<byte>)
    ensures var hello := HexHeader(z.step, ZRINIT, ZERO_FLAGS);
      Session(z, World(Bytes(HexHeader(z.step, ZRQINIT, ZERO_FLAGS)) + after, sent, []))
      == Session(z, World(Bytes(HexTail(ZRQINIT)) + after, sent + hello, []))
  {
    hide HexHeader, ReadHeader, HexTail;
    HexHeaderReads(z, true, [], ZRQINIT, ZERO_FLAGS, after);
    assert [] + HexHeader(z.step, ZRQINIT, ZERO_FLAGS) == HexHeader(z.step, ZRQINIT, ZERO_FLAGS);
  }

  lemma EmptyBatch(z: Crcs, w: World<()>)
    ensures Batch(z, [], 0, w).0 == Ok
  {
    hide Expect, HexHeader;
  }

  /** The transmitter takes the first ZRINIT for the start and the second for a refusal of its
      file. */
  lemma SecondHello(z: Crcs, files: seq<File>, more: seq<Event>)
    requires Sendable(files)
    ensures var hello, call := HexHeader(z.step, ZRINIT, ZERO_FLAGS), HexHeader(z.step, ZRQINIT, ZERO_FLAGS);
      var out := Transmit(z, files, World(Bytes(hello + hello) + more, [], []));
      && out == Batch(z, files, 0, World(Bytes(HexTail(ZRINIT)) + (Bytes(hello) + more), call, []))
      && (files != [] ==> out.0 == TimedOut && out.1.sent == call + FileHeader(z, files[0]))
  {
    hide HexHeader, HexTail, Expect, FileHeader, FileBody;
    var hello, call := HexHeader(z.step, ZRINIT, ZERO_FLAGS), HexHeader(z.step, ZRQINIT, ZERO_FLAGS);
    SendableName(files, 0);
    ExpectsHello(z, [], ZRINIT, Bytes(hello) + more);
    BytesAppend(hello, hello, more);
    assert [] + hello == hello && [] + call == call;
    HexTailClean(ZRINIT);
    BytesAppend(HexTail(ZRINIT), hello, more);
    ExpectsHello(z, HexTail(ZRINIT), ZRPOS, more);
  }

  /** So for every batch that is not empty there are two byte strings that the two functions send
      each other, each given the other's, on which both time out on the first file. */
  lemma FifoClosedLoop(z: Crcs, files: seq<File>) returns (up: seq<byte>, down: seq<byte>)
    requires Sendable(files) && files != []
    ensures var (status, w) := Transmit(z, files, World(Bytes(down), [], [])); status == TimedOut && w.sent == up
    ensures var (status, w) := Receive(z, World(Bytes(up), [], []));
      && status == TimedOut && w.sent == down
      && w.calls == [FileStart(InfoOf(files[0])), FileEnd(InfoOf(files[0]), TimedOut)]
  {
    hide Session, HexHeader, HexTail, FileHeader, Batch, InFile, InfoOf;
    var hello, ask := HexHeader(z.step, ZRINIT, ZERO_FLAGS), HexHeader(z.step, ZRPOS, ZERO_FLAGS);
    var call, f := HexHeader(z.step, ZRQINIT, ZERO_FLAGS), files[0];
    assert f in files;
    up, down := call + FileHeader(z, f), hello + hello + ask;
    SecondHello(z, files, Bytes(ask));
    BytesConcat(hello + hello, ask);
    assert [] + hello == hello;
    HelloReceived(z, FileHeader(z, f), hello, []);
    HexTailClean(ZRQINIT);
    HeaderReceived(z, f, HexTail(ZRQINIT), [], hello + hello, []);
    assert FileHeader(z, f) + [] == FileHeader(z, f);
    SilenceInFile(z, InfoOf(f), hello + hello + ask, [] + [FileStart(InfoOf(f))]);
  }

  lemma SilenceInFile(z: Crcs, info: FileInfo, sent: seq<byte>, calls: seq<Call>)
    ensures InFile(z, info, 0, World(Bytes([]), sent, calls))
         == (TimedOut, World([], sent, calls + [FileEnd(info, TimedOut)]))
  {
  }

  lemma ExpectsHello(z: Crcs, noise: seq<byte>, frame: byte, more: seq<Event>)
    requires ZPAD !in noise
    ensures var hello := HexHeader(z.step, ZRINIT, ZERO_FLAGS);
      Expect(z, frame, Bytes(noise + hello) + more)
      == (if frame == ZRINIT then Some(ZERO_FLAGS) else None, Bytes(HexTail(ZRINIT)) + more)
  {
    hide HexHeader, ReadHeader, HexTail;
    HexHeaderReads(z, false, noise, ZRINIT, ZERO_FLAGS, more);
  }
}
