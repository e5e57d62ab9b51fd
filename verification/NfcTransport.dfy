/** The NFC transport (src/nfc_transport.c): NDEF short records, and the two rings as bounded
    queues. `State` is what the transport is; each function is one entry point; the class does the
    same with rings and counters. */
module NfcTransport {
  import opened Serial
  import opened NfcRing

  /** "application/x-modem". */
  const MIME_TYPE: seq<byte> :=
    [97, 112, 112, 108, 105, 99, 97, 116, 105, 111, 110, 47, 120, 45, 109, 111, 100, 101, 109]
  const MIME_TYPE_LEN: nat := 19
  const RECORD_START: byte := 0xD2
  const RECORD_LIMIT: nat := 255
  /** NFC_TRANSPORT_NDEF_MAX_SIZE. */
  const NDEF_MAX: nat := 512

  datatype Stats = Stats(rxBytes: nat, txBytes: nat, recordsRx: nat, recordsTx: nat,
                         fieldLosses: nat, overflows: nat, events: nat)

  /** `framed`: automatic NDEF framing is on and a transmit callback is installed. */
  datatype State = State(rx: seq<byte>, tx: seq<byte>, active: bool, framed: bool, stats: Stats)

  // ----- NDEF short records -----

  function Overhead(): nat { 3 + MIME_TYPE_LEN }

  /** nfc_transport_encode_ndef_record on a buffer that has room. */
  function Record(payload: seq<byte>): (r: seq<byte>)
    requires |payload| <= RECORD_LIMIT
    ensures |r| == Overhead() + |payload|
  {
    [RECORD_START, MIME_TYPE_LEN, |payload|] + MIME_TYPE + payload
  }

  /** rx_callback's test for a complete record of our type. */
  predicate IsRecord(data: seq<byte>) {
    && |data| > Overhead() && data[0] == RECORD_START
    && data[1] == MIME_TYPE_LEN && Overhead() + data[2] <= |data|
    && data[3..Overhead()] == MIME_TYPE
  }

  /** The bytes to be queued: a record's payload, or the data as it is. */
  function Unwrap(data: seq<byte>): seq<byte> {
    if IsRecord(data) then data[Overhead()..Overhead() + data[2]] else data
  }

  // ----- the queues -----

  /** How many of `n` further bytes fit. */
  function Fits(queue: seq<byte>, n: nat): nat {
    if |queue| >= CAPACITY then 0 else Min(n, CAPACITY - |queue|)
  }

  /** nfc_transport_rx_callback. */
  function Receive(s: State, data: seq<byte>): State {
    if data == [] then s
    else
      var payload := Unwrap(data);
      var n := Fits(s.rx, |payload|);
      s.(rx := s.rx + payload[..n],
         stats := s.stats.(rxBytes := s.stats.rxBytes + n,
                           overflows := s.stats.overflows + (|payload| - n),
                           recordsRx := s.stats.recordsRx + if IsRecord(data) then 1 else 0))
  }

  datatype ReadResult = GotByte(b: byte) | FieldLost | NothingYet

  /** One look of nfc_transport_read_byte at the field and the queue. */
  function Poll(s: State): (State, ReadResult) {
    if !s.active then (s, FieldLost)
    else if s.rx == [] then (s, NothingYet)
    else (s.(rx := s.rx[1..]), GotByte(s.rx[0]))
  }

  /** What the other side may do while nfc_transport_read_byte sleeps. */
  datatype Happening = Arrives(data: seq<byte>) | FieldChanges(active: bool)

  function Happen(s: State, what: Happening): State {
    match what
    case Arrives(data) => Receive(s, data)
    case FieldChanges(active) => SetField(s, active)
  }

  function HappenAll(s: State, whats: seq<Happening>): State {
    if whats == [] then s else Happen(HappenAll(s, whats[..|whats| - 1]), whats[|whats| - 1])
  }

  /** nfc_transport_read_byte: a look before each of its sleeps, until something is found or the time
      is up. */
  function ReadByte(s: State, sleeps: seq<seq<Happening>>): (State, ReadResult)
    decreases |sleeps|
  {
    if sleeps == [] then (s, NothingYet)
    else
      var (s', r) := Poll(s);
      if r.NothingYet? then ReadByte(HappenAll(s, sleeps[0]), sleeps[1..]) else (s', r)
  }

  /** nfc_transport_flush_tx_ndef: takes up to 255 bytes off the queue and then encodes them, which
      fails when the caller's buffer is too small. */
  function Flush(s: State, room: nat): (State, Option<seq<byte>>) {
    if s.tx == [] then (s, None)
    else
      var n := Min(|s.tx|, RECORD_LIMIT);
      var s' := s.(tx := s.tx[n..]);
      if room < Overhead() + n then (s', None)
      else (s'.(stats := s.stats.(recordsTx := s.stats.recordsTx + 1)), Some(Record(s.tx[..n])))
  }

  datatype WriteResult = Written | NoData | FieldDown

  /** nfc_transport_write_bytes: bytes that do not fit are dropped without a word; with automatic
      framing one record goes out. */
  function Write(s: State, buf: seq<byte>): (State, WriteResult, Option<seq<byte>>) {
    if buf == [] then (s, NoData, None)
    else if !s.active then (s, FieldDown, None)
    else
      var n := Fits(s.tx, |buf|);
      var s' := s.(tx := s.tx + buf[..n], stats := s.stats.(txBytes := s.stats.txBytes + n));
      if !s.framed then (s', Written, None)
      else
        var (s'', record) := Flush(s', NDEF_MAX);
        (s'', Written, record)
  }

  /** nfc_transport_set_field_active. */
  function SetField(s: State, active: bool): State {
    s.(active := active,
       stats := s.stats.(fieldLosses := s.stats.fieldLosses + if s.active && !active then 1 else 0))
  }

  /** nfc_transport_t4t_event_handler; the test events have the same numbers as the SDK's. */
  function Handle(s: State, event: int, data: seq<byte>): State {
    var s' := s.(stats := s.stats.(events := s.stats.events + 1));
    if event == 0 then SetField(s', true)
    else if event == 1 then SetField(s', false)
    else if (event == 3 || event == 4) && data != [] then Receive(s', data)
    else s'
  }

  const INITIAL_STATS := Stats(0, 0, 0, 0, 0, 0, 0)

  // ----- the C code -----

  class Transport {
    const rxRing: Ring
    const txRing: Ring
    const framed: bool
    var fieldActive: bool
    var stats: Stats

    ghost predicate Valid()
      reads this, rxRing, txRing, rxRing.data, txRing.data
    {
      && rxRing != txRing && rxRing.data != txRing.data
      && rxRing.Valid() && txRing.Valid()
    }

    ghost function Model(): State
      reads this, rxRing, txRing
    {
      State(rxRing.queue, txRing.queue, fieldActive, framed, stats)
    }

    /** nfc_transport_init. */
    constructor (framed: bool)
      ensures Valid() && Model() == State([], [], false, framed, INITIAL_STATS)
      ensures fresh(rxRing) && fresh(txRing) && fresh(rxRing.data) && fresh(txRing.data)
    {
      rxRing := new Ring();
      txRing := new Ring();
      this.framed, fieldActive, stats := framed, false, INITIAL_STATS;
    }

    method EncodeNdefRecord(payload: seq<byte>, buf: array<byte>) returns (len: int)
      modifies this`stats, buf
      ensures |payload| > RECORD_LIMIT || buf.Length < Overhead() + |payload| ==>
        len == -1 && stats == old(stats) && buf[..] == old(buf[..])
      ensures |payload| <= RECORD_LIMIT && Overhead() + |payload| <= buf.Length ==>
        && len == Overhead() + |payload| && buf[..len] == Record(payload)
        && stats == old(stats).(recordsTx := old(stats).recordsTx + 1)
    {
      if |payload| > 255 || buf.Length < 3 + MIME_TYPE_LEN + |payload| {
        return -1;
      }
      buf[0], buf[1], buf[2] := 0xD2, MIME_TYPE_LEN, |payload|;
      forall i | 0 <= i < MIME_TYPE_LEN {
        buf[3 + i] := MIME_TYPE[i];
      }
      forall i | 0 <= i < |payload| {
        buf[3 + MIME_TYPE_LEN + i] := payload[i];
      }
      len := 3 + MIME_TYPE_LEN + |payload|;
      stats := stats.(recordsTx := stats.recordsTx + 1);
      assert buf[..len] == Record(payload) by {
        assert buf[..3] == [RECORD_START, MIME_TYPE_LEN, |payload|];
        assert buf[3..Overhead()] == MIME_TYPE && buf[Overhead()..len] == payload;
        assert buf[..len] == buf[..3] + buf[3..Overhead()] + buf[Overhead()..len];
      }
    }

    method RxCallback(data: seq<byte>)
      requires Valid()
      modifies this`stats, rxRing, rxRing.data
      ensures Valid() && Model() == Receive(old(Model()), data)
    {
      hide IsRecord;
      if data == [] {
        return;
      }
      var payload := data;
      if IsRecord(data) {
        payload := Unwrap(data);
        stats := stats.(recordsRx := stats.recordsRx + 1);
      }
      QueueReceived(payload);
    }

    /** Queues bytes for reading; what does not fit is counted. */
    method QueueReceived(payload: seq<byte>)
      requires Valid()
      modifies this`stats, rxRing, rxRing.data
      ensures Valid() && txRing.queue == old(txRing.queue)
      ensures var n := Fits(old(rxRing.queue), |payload|);
        && rxRing.queue == old(rxRing.queue) + payload[..n]
        && stats == old(stats).(rxBytes := old(stats).rxBytes + n, overflows := old(stats).overflows + (|payload| - n))
    {
      ghost var queued := rxRing.queue;
      for i := 0 to |payload|
        invariant Valid() && txRing.queue == old(txRing.queue)
        invariant rxRing.queue == queued + payload[..Fits(queued, i)]
        invariant stats == old(stats).(rxBytes := old(stats).rxBytes + Fits(queued, i),
                                       overflows := old(stats).overflows + (i - Fits(queued, i)))
      {
        var ok := rxRing.Push(payload[i]);
        if ok {
          stats := stats.(rxBytes := stats.rxBytes + 1);
          assert payload[..i + 1] == payload[..i] + [payload[i]];
        } else {
          stats := stats.(overflows := stats.overflows + 1);
        }
      }
    }

    method PollByte() returns (r: ReadResult)
      requires Valid()
      modifies rxRing
      ensures Valid() && (Model(), r) == Poll(old(Model()))
    {
      if !fieldActive {
        return FieldLost;
      }
      if rxRing.count > 0 {
        var b := rxRing.Pop();
        return GotByte(b);
      }
      return NothingYet;
    }

    /** The callbacks that come in during a sleep. */
    method Sleep(whats: seq<Happening>)
      requires Valid()
      modifies this`stats, this`fieldActive, rxRing, rxRing.data
      ensures Valid() && Model() == HappenAll(old(Model()), whats)
    {
      hide Receive;
      for i := 0 to |whats|
        invariant Valid() && Model() == HappenAll(old(Model()), whats[..i])
      {
        assert whats[..i + 1][..i] == whats[..i];
        match whats[i] {
          case Arrives(data) => RxCallback(data);
          case FieldChanges(active) => SetFieldActive(active);
        }
      }
      assert whats[..|whats|] == whats;
    }

    /** `sleeps` says how often the time allows a sleep and what happens in each. */
    method Read(sleeps: seq<seq<Happening>>) returns (r: ReadResult)
      requires Valid()
      modifies this`stats, this`fieldActive, rxRing, rxRing.data
      ensures Valid() && (Model(), r) == ReadByte(old(Model()), sleeps)
    {
      hide HappenAll;
      var i := 0;
      while i < |sleeps|
        invariant i <= |sleeps| && Valid()
        invariant ReadByte(old(Model()), sleeps) == ReadByte(Model(), sleeps[i..])
        decreases |sleeps| - i
      {
        r := PollByte();
        if !r.NothingYet? {
          return;
        }
        Sleep(sleeps[i]);
        assert sleeps[i..][1..] == sleeps[i + 1..];
        i := i + 1;
      }
      return NothingYet;
    }

    method FlushTxNdef(buf: array<byte>) returns (len: int)
      requires Valid() && buf != rxRing.data && buf != txRing.data
      modifies this`stats, txRing, buf
      ensures Valid()
      ensures var (s, record) := Flush(old(Model()), buf.Length);
        Model() == s && match record
                        case None => len == -1
                        case Some(r) => len == |r| && buf[..len] == r
    {
      if txRing.count == 0 {
        return -1;
      }
      var n := if txRing.count < 255 then txRing.count else 255;
      ghost var queued := txRing.queue;
      var payload: seq<byte> := [];
      for i := 0 to n
        invariant Valid() && rxRing.queue == old(rxRing.queue) && stats == old(stats)
        invariant payload == queued[..i] && txRing.queue == queued[i..]
      {
        var b := txRing.Pop();
        payload := payload + [b];
      }
      assert payload == queued[..n] && txRing.queue == queued[n..];
      len := EncodeNdefRecord(payload, buf);
    }

    method WriteBytes(buf: seq<byte>) returns (r: WriteResult, record: Option<seq<byte>>)
      requires Valid()
      modifies this`stats, txRing, txRing.data
      ensures Valid() && (Model(), r, record) == Write(old(Model()), buf)
    {
      hide Flush, Fits;
      if buf == [] {
        return NoData, None;
      }
      if !fieldActive {
        return FieldDown, None;
      }
      QueueForTransmit(buf);
      record := None;
      if framed {
        record := PublishRecord();
      }
      r := Written;
    }

    /** Queues bytes for transmission; what does not fit is dropped without a word. */
    method QueueForTransmit(buf: seq<byte>)
      requires Valid()
      modifies this`stats, txRing, txRing.data
      ensures Valid() && rxRing.queue == old(rxRing.queue)
      ensures var n := Fits(old(txRing.queue), |buf|);
        && txRing.queue == old(txRing.queue) + buf[..n]
        && stats == old(stats).(txBytes := old(stats).txBytes + n)
    {
      ghost var queued := txRing.queue;
      for i := 0 to |buf|
        invariant Valid() && rxRing.queue == old(rxRing.queue)
        invariant txRing.queue == queued + buf[..Fits(queued, i)]
        invariant stats == old(stats).(txBytes := old(stats).txBytes + Fits(queued, i))
      {
        var ok := txRing.Push(buf[i]);
        if ok {
          stats := stats.(txBytes := stats.txBytes + 1);
          assert buf[..i + 1] == buf[..i] + [buf[i]];
        }
      }
    }

    /** The automatic flush into a 512-byte buffer, and the record given to the callback. */
    method PublishRecord() returns (record: Option<seq<byte>>)
      requires Valid()
      modifies this`stats, txRing
      ensures Valid() && (Model(), record) == Flush(old(Model()), NDEF_MAX)
    {
      var message := new byte[512];
      var len := FlushTxNdef(message);
      record := if len >= 0 then Some(message[..len]) else None;
    }

    method SetFieldActive(active: bool)
      modifies this`stats, this`fieldActive
      ensures Model() == SetField(old(Model()), active)
    {
      if fieldActive && !active {
        stats := stats.(fieldLosses := stats.fieldLosses + 1);
      }
      fieldActive := active;
    }

    method T4tEvent(event: int, data: seq<byte>)
      requires Valid()
      modifies this`stats, this`fieldActive, rxRing, rxRing.data
      ensures Valid() && Model() == Handle(old(Model()), event, data)
    {
      stats := stats.(events := stats.events + 1);
      if event == 0 {
        SetFieldActive(true);
      } else if event == 1 {
        SetFieldActive(false);
      } else if event == 3 || event == 4 {
        if data != [] {
          RxCallback(data);
        }
      }
    }
  }
}
