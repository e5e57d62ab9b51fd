/** The NFC field and the transport's counters over any interleaving of its operations, from the
    operations alone. */
module NfcField {
  import opened Serial
  import opened NfcTransport
  import opened NfcHistory

  /** A new transport, before anything has crossed its interface. */
  function Fresh(framed: bool): State {
    State([], [], false, framed, Stats(0, 0, 0, 0, 0, 0, 0))
  }

  function After(framed: bool, ops: seq<Op>): State {
    PlayAll(Fresh(framed), EMPTY, ops).0
  }

  function HistoryOf(framed: bool, ops: seq<Op>): History {
    PlayAll(Fresh(framed), EMPTY, ops).1
  }

  // ----- what the operations say -----

  /** The last operation that concerns the field turned it on: a field call, or NFC_MODEM_EVENT_FIELD_ON
      (0) against NFC_MODEM_EVENT_FIELD_OFF (1). */
  function FieldOn(ops: seq<Op>): bool {
    if ops == [] then false
    else match ops[|ops| - 1]
      case FieldOp(active) => active
      case EventOp(event, _) => if event == 0 then true else if event == 1 then false else FieldOn(ops[..|ops| - 1])
      case _ => FieldOn(ops[..|ops| - 1])
  }

  /** How often the field went from on to off. */
  function Losses(ops: seq<Op>): nat {
    if ops == [] then 0
    else Losses(ops[..|ops| - 1]) + if FieldOn(ops[..|ops| - 1]) && !FieldOn(ops) then 1 else 0
  }

  function Events(ops: seq<Op>): nat {
    if ops == [] then 0 else Events(ops[..|ops| - 1]) + if ops[|ops| - 1].EventOp? then 1 else 0
  }

  /** What an operation brings in: data of the receive callback, or of NDEF_UPDATED (3) and
      DATA_RECEIVED (4). */
  function Arriving(op: Op): seq<byte> {
    match op
    case ReceiveOp(data) => data
    case EventOp(event, data) => if event == 3 || event == 4 then data else []
    case _ => []
  }

  function RecordsIn(ops: seq<Op>): nat {
    if ops == [] then 0 else RecordsIn(ops[..|ops| - 1]) + if IsRecord(Arriving(ops[|ops| - 1])) then 1 else 0
  }

  // ----- what the transport does -----

  lemma WriteLeavesField(s: State, buf: seq<byte>)
    ensures var s' := Write(s, buf).0;
      && s'.active == s.active && s'.framed == s.framed && s'.rx == s.rx
      && s'.stats.fieldLosses == s.stats.fieldLosses && s'.stats.events == s.stats.events
      && s'.stats.recordsRx == s.stats.recordsRx
      && s'.stats.recordsTx == s.stats.recordsTx + if Write(s, buf).2.Some? then 1 else 0
  {
    hide Fits, Record;
  }

  /** What one operation does to the field and the counters. */
  lemma PlayCounts(s: State, h: History, op: Op)
    ensures var (s', h') := Play(s, h, op);
      && s'.framed == s.framed
      && s'.active == (match op
                       case FieldOp(active) => active
                       case EventOp(event, _) => event == 0 || (event != 1 && s.active)
                       case _ => s.active)
      && s'.stats.fieldLosses == s.stats.fieldLosses + (if s.active && !s'.active then 1 else 0)
      && s'.stats.events == s.stats.events + (if op.EventOp? then 1 else 0)
      && s'.stats.recordsRx == s.stats.recordsRx + (if IsRecord(Arriving(op)) then 1 else 0)
      && s'.stats.recordsTx + |h.records| == s.stats.recordsTx + |h'.records|
  {
    hide Write, Fits, IsRecord, Unwrap, Record;
    NoRecord();
    if op.WriteOp? {
      WriteLeavesField(s, op.buf);
    }
  }

  lemma {:induction false} FieldFollows(framed: bool, ops: seq<Op>)
    ensures var s, h := After(framed, ops), HistoryOf(framed, ops);
      && s.active == FieldOn(ops) && s.framed == framed
      && s.stats.fieldLosses == Losses(ops) && s.stats.events == Events(ops)
      && s.stats.recordsRx == RecordsIn(ops) && s.stats.recordsTx == |h.records|
    decreases |ops|
  {
    hide Play, IsRecord, Arriving;
    if ops != [] {
      var before := ops[..|ops| - 1];
      FieldFollows(framed, before);
      PlayCounts(After(framed, before), HistoryOf(framed, before), ops[|ops| - 1]);
    }
  }

  lemma NoRecord()
    ensures !IsRecord([])
  {
  }

  // ----- reading -----

  lemma ReadSide(s: State, h: History, op: Op)
    requires h.taken == h.readOut + s.rx && |s.rx| <= 1024
    ensures var (s', h') := Play(s, h, op); h'.taken == h'.readOut + s'.rx && |s'.rx| <= 1024
  {
    hide Write, Flush, IsRecord, Unwrap, Record;
    var bytes := Incoming(op);
    var n := Fits(s.rx, |bytes|);
    if op.WriteOp? {
      WriteLeavesField(s, op.buf);
    } else if op.FlushOp? {
      FlushLeavesReading(s, h, op.room);
    }
    assert h.taken + bytes[..n] == h.readOut + (s.rx + bytes[..n]);
    assert s.rx + [] == s.rx;
    assert s.rx != [] ==> h.readOut + s.rx == h.readOut + [s.rx[0]] + s.rx[1..];
  }

  lemma FlushLeavesReading(s: State, h: History, room: nat)
    ensures Flush(s, room).0.rx == s.rx
    ensures var h' := Publish(h, Flush(s, room).1); h'.taken == h.taken && h'.readOut == h.readOut
  {
    hide Record, Unwrap;
  }

  lemma {:induction false} ReadSideHolds(framed: bool, ops: seq<Op>)
    ensures var s, h := After(framed, ops), HistoryOf(framed, ops); h.taken == h.readOut + s.rx && |s.rx| <= 1024
    decreases |ops|
  {
    hide Play;
    if ops != [] {
      ReadSideHolds(framed, ops[..|ops| - 1]);
      ReadSide(After(framed, ops[..|ops| - 1]), HistoryOf(framed, ops[..|ops| - 1]), ops[|ops| - 1]);
    }
  }

  /** After any operations a read finds the field lost exactly when it is off, and otherwise takes the
      oldest byte taken in and not read yet, if there is one. */
  lemma ReadsAnswer(framed: bool, ops: seq<Op>)
    ensures var h, r := HistoryOf(framed, ops), Poll(After(framed, ops)).1;
      && (r == FieldLost <==> !FieldOn(ops))
      && (r == NothingYet <==> FieldOn(ops) && h.taken == h.readOut)
      && (r.GotByte? ==> |h.readOut| < |h.taken| && h.taken[|h.readOut|] == r.b)
  {
    hide PlayAll;
    FieldFollows(framed, ops);
    ReadSideHolds(framed, ops);
    var s, h := After(framed, ops), HistoryOf(framed, ops);
    if s.rx != [] {
      assert h.taken[|h.readOut|] == s.rx[0];
    }
  }

  /** A queue holds 1024 bytes. */
  function RoomIn(queue: seq<byte>): nat {
    if |queue| > 1024 then 0 else 1024 - |queue|
  }

  /** Data that come in, a record's payload or the data as they are, are queued until 1024 bytes wait;
      the rest is counted as overflow. */
  lemma ArrivalsQueued(framed: bool, ops: seq<Op>, data: seq<byte>)
    ensures |After(framed, ops).rx| <= 1024
    ensures var s, s' := After(framed, ops), Receive(After(framed, ops), data);
      var bytes := if IsRecord(data) then Unwrap(data) else data;
      var n := Min(|bytes|, RoomIn(s.rx));
      && s'.rx == s.rx + bytes[..n] && s'.tx == s.tx && s'.active == s.active
      && s'.stats.rxBytes == s.stats.rxBytes + n
      && s'.stats.overflows == s.stats.overflows + (|bytes| - n)
  {
    hide PlayAll, IsRecord;
    ReadSideHolds(framed, ops);
    NoRecord();
    assert After(framed, ops).rx + [] == After(framed, ops).rx;
  }

  // ----- writing -----

  lemma {:induction false} WriteSideHolds(framed: bool, ops: seq<Op>)
    ensures |After(framed, ops).tx| <= 1024
    decreases |ops|
  {
    hide Unwrap, IsRecord, Record, Publish;
    if ops != [] {
      WriteSideHolds(framed, ops[..|ops| - 1]);
    }
  }

  /** A write is refused, and changes nothing, exactly when there is nothing to write or the field is off.
      Otherwise it queues bytes until 1024 wait, and with automatic framing the first 255 bytes of the
      queue, or all of it, go out as one record. */
  lemma WritesAnswer(framed: bool, ops: seq<Op>, buf: seq<byte>)
    ensures var s := After(framed, ops);
      var (s', r, record) := Write(s, buf);
      var queue := s.tx + buf[..Min(|buf|, RoomIn(s.tx))];
      && (r == Written <==> buf != [] && FieldOn(ops)) && (r == NoData <==> buf == [])
      && (r != Written ==> s' == s && record == None)
      && (r == Written && !framed ==> s'.tx == queue && record == None)
      && (r == Written && framed ==>
            var n := Min(|queue|, 255); s'.tx == queue[n..] && record == Some(Record(queue[..n])))
  {
    hide PlayAll, Record;
    FieldFollows(framed, ops);
    WriteSideHolds(framed, ops);
  }

  // ----- records -----

  /** The bytes of a record: short record, media type "application/x-modem", payload. */
  lemma RecordLayout(payload: seq<byte>)
    requires |payload| <= 255
    ensures var r, mime := Record(payload), "application/x-modem";
      && |r| == 3 + |mime| + |payload| && r[..3] == [0xD2, |mime|, |payload|] && r[3 + |mime|..] == payload
      && forall i :: 0 <= i < |mime| ==> r[3 + i] == mime[i] as int
  {
    var r := Record(payload);
    assert r == [RECORD_START, MIME_TYPE_LEN, |payload|] + (MIME_TYPE + payload);
    assert r[3..22] == MIME_TYPE;
  }

  /** Data are taken for a record exactly when one starts them and they are longer than an empty one; then
      its payload is what they carry. */
  lemma RecordsRecognised(data: seq<byte>)
    ensures IsRecord(data) <==> |data| > 22 && exists payload :: StartsWith(data, payload)
    ensures forall payload :: |data| > 22 && StartsWith(data, payload) ==> Unwrap(data) == payload
  {
    if IsRecord(data) {
      var payload := data[22..22 + data[2]];
      assert data[..22 + |payload|] == Record(payload);
      assert StartsWith(data, payload);
    }
    forall payload | |data| > 22 && StartsWith(data, payload) ensures IsRecord(data) && Unwrap(data) == payload {
      var r := Record(payload);
      assert r == [RECORD_START, MIME_TYPE_LEN, |payload|] + (MIME_TYPE + payload);
      assert r[0] == data[0] && r[1] == data[1] && r[2] == data[2];
      assert r[3..22] == MIME_TYPE && data[3..22] == r[3..22] && data[22..22 + |payload|] == r[22..];
    }
  }

  predicate StartsWith(data: seq<byte>, payload: seq<byte>) {
    |payload| <= 255 && Record(payload) <= data
  }
}
