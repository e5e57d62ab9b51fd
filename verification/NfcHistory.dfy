/** The NFC transport over any interleaving of its operations. */
module NfcHistory {
  import opened Serial
  import opened NfcRing
  import opened NfcTransport

  // ----- records -----

  /** A record of 1 to 255 payload bytes is recognised and gives back its payload. */
  lemma RecordUnwraps(payload: seq<byte>)
    requires 1 <= |payload| <= RECORD_LIMIT
    ensures Unwrap(Record(payload)) == payload
  {
    var r := Record(payload);
    assert r == [RECORD_START, MIME_TYPE_LEN, |payload|] + (MIME_TYPE + payload);
    assert r[3..Overhead()] == MIME_TYPE && r[Overhead()..Overhead() + |payload|] == payload;
  }

  // ----- histories -----

  datatype Op =
    | WriteOp(buf: seq<byte>)
    | FlushOp(room: nat)
    | ReceiveOp(data: seq<byte>)
    | ReadOp
    | FieldOp(active: bool)
    | EventOp(event: int, data: seq<byte>)

  /** Everything that has crossed the transport's interface so far: payload bytes offered for
      reading, those taken into the ring, those read out; bytes taken for transmission, the records
      published and their payloads. */
  datatype History = History(offered: seq<byte>, taken: seq<byte>, readOut: seq<byte>,
                             queued: seq<byte>, published: seq<byte>, records: seq<seq<byte>>)

  function Incoming(op: Op): seq<byte> {
    match op
    case ReceiveOp(data) => if data == [] then [] else Unwrap(data)
    case EventOp(event, data) => if (event == 3 || event == 4) && data != [] then Unwrap(data) else []
    case _ => []
  }

  function Publish(h: History, record: Option<seq<byte>>): History {
    if record.None? then h
    else h.(published := h.published + Unwrap(record.value), records := h.records + [record.value])
  }

  function Play(s: State, h: History, op: Op): (State, History) {
    var bytes := Incoming(op);
    var heard := h.(offered := h.offered + bytes, taken := h.taken + bytes[..Fits(s.rx, |bytes|)]);
    match op
    case WriteOp(buf) =>
      var (s', r, record) := Write(s, buf);
      var h' := if r == Written then h.(queued := h.queued + buf[..Fits(s.tx, |buf|)]) else h;
      (s', Publish(h', record))
    case FlushOp(room) =>
      var (s', record) := Flush(s, room);
      (s', Publish(h, record))
    case ReceiveOp(data) => (Receive(s, data), heard)
    case ReadOp =>
      var (s', r) := Poll(s);
      (s', if r.GotByte? then h.(readOut := h.readOut + [r.b]) else h)
    case FieldOp(active) => (SetField(s, active), h)
    case EventOp(event, data) => (Handle(s, event, data), heard)
  }

  /** A flush whose buffer holds the record it is about to build. */
  predicate Roomy(s: State, op: Op) {
    op.FlushOp? ==> op.room >= Overhead() + Min(|s.tx|, RECORD_LIMIT)
  }

  /** `a` is `b` with some elements left out. */
  predicate Within(a: seq<byte>, b: seq<byte>)
    decreases |b|
  {
    a == [] || (b != [] &&
      (Within(a, b[..|b| - 1]) || (a[|a| - 1] == b[|b| - 1] && Within(a[..|a| - 1], b[..|b| - 1]))))
  }

  /** The rings are FIFO queues: what was taken is what was read plus what is queued, in order;
      what was taken for transmission is what was published plus what is queued, in order; and the
      counters account for every payload byte offered. */
  predicate Fifo(s: State, h: History) {
    && |s.rx| <= CAPACITY && |s.tx| <= CAPACITY
    && h.taken == h.readOut + s.rx
    && h.queued == h.published + s.tx
    && s.stats.rxBytes == |h.taken| == |h.readOut| + |s.rx|
    && s.stats.rxBytes + s.stats.overflows == |h.offered|
    && s.stats.txBytes == |h.queued|
    && Within(h.taken, h.offered)
    && (s.stats.overflows == 0 ==> h.taken == h.offered)
  }

  lemma {:induction false} WithinLonger(a: seq<byte>, b: seq<byte>, c: seq<byte>)
    requires Within(a, b)
    ensures Within(a, b + c)
    decreases |c|
  {
    if c == [] {
      assert b + c == b;
    } else {
      WithinLonger(a, b, c[..|c| - 1]);
      assert (b + c)[..|b + c| - 1] == b + c[..|c| - 1];
    }
  }

  lemma {:induction false} WithinBoth(a: seq<byte>, b: seq<byte>, c: seq<byte>)
    requires Within(a, b)
    ensures Within(a + c, b + c)
    decreases |c|
  {
    if c == [] {
      assert a + c == a && b + c == b;
    } else {
      var c' := c[..|c| - 1];
      WithinBoth(a, b, c');
      assert (a + c)[..|a + c| - 1] == a + c' && (b + c)[..|b + c| - 1] == b + c';
    }
  }

  lemma ReceiveKeepsFifo(s: State, h: History, payload: seq<byte>, s': State)
    requires Fifo(s, h)
    requires var n := Fits(s.rx, |payload|);
      && s'.rx == s.rx + payload[..n] && s'.tx == s.tx && s'.stats.txBytes == s.stats.txBytes
      && s'.stats.rxBytes == s.stats.rxBytes + n && s'.stats.overflows == s.stats.overflows + (|payload| - n)
    ensures Fifo(s', h.(offered := h.offered + payload, taken := h.taken + payload[..Fits(s.rx, |payload|)]))
  {
    hide Within;
    var n := Fits(s.rx, |payload|);
    WithinBoth(h.taken, h.offered, payload[..n]);
    WithinLonger(h.taken + payload[..n], h.offered + payload[..n], payload[n..]);
    assert h.offered + payload[..n] + payload[n..] == h.offered + payload;
    assert h.taken + payload[..n] == h.readOut + s'.rx;
    assert n == |payload| ==> payload[..n] == payload;
  }

  lemma FlushKeepsFifo(s: State, h: History, room: nat)
    requires Fifo(s, h) && Roomy(s, FlushOp(room))
    ensures var (s', record) := Flush(s, room); Fifo(s', Publish(h, record))
  {
    hide Within, Record, Unwrap;
    if s.tx != [] {
      var n := Min(|s.tx|, RECORD_LIMIT);
      RecordUnwraps(s.tx[..n]);
      assert h.published + s.tx[..n] + s.tx[n..] == h.published + s.tx;
    }
  }

  lemma WriteKeepsFifo(s: State, h: History, buf: seq<byte>)
    requires Fifo(s, h)
    ensures var (s', h') := Play(s, h, WriteOp(buf)); Fifo(s', h')
  {
    hide Within, Unwrap, Flush, Publish;
    if buf != [] && s.active {
      var n := Fits(s.tx, |buf|);
      var s' := s.(tx := s.tx + buf[..n], stats := s.stats.(txBytes := s.stats.txBytes + n));
      var h' := h.(queued := h.queued + buf[..n]);
      assert h'.queued == h'.published + s'.tx;
      FlushKeepsFifo(s', h', NDEF_MAX);
      NothingPublished(h');
    } else {
      NothingPublished(h);
    }
  }

  lemma NothingPublished(h: History)
    ensures Publish(h, None) == h
  {
  }

  lemma PlayKeepsFifo(s: State, h: History, op: Op)
    requires Fifo(s, h) && Roomy(s, op)
    ensures var (s', h') := Play(s, h, op); Fifo(s', h')
  {
    hide Within, Unwrap, IsRecord, Flush, Write, Publish;
    assert h.offered + [] == h.offered && h.taken + [] == h.taken && s.rx + [] == s.rx;
    match op
    case WriteOp(buf) => WriteKeepsFifo(s, h, buf);
    case FlushOp(room) => FlushKeepsFifo(s, h, room);
    case ReceiveOp(data) => ReceiveKeepsFifo(s, h, Incoming(op), Receive(s, data));
    case ReadOp => assert s.rx != [] ==> s.rx == [s.rx[0]] + s.rx[1..];
    case FieldOp(_) =>
    case EventOp(event, data) => ReceiveKeepsFifo(s, h, Incoming(op), Handle(s, event, data));
  }

  function PlayAll(s: State, h: History, ops: seq<Op>): (State, History) {
    if ops == [] then (s, h)
    else
      var (s', h') := PlayAll(s, h, ops[..|ops| - 1]);
      Play(s', h', ops[|ops| - 1])
  }

  lemma {:induction false} PlayAllSplit(s: State, h: History, a: seq<Op>, b: seq<Op>)
    ensures PlayAll(s, h, a + b) == PlayAll(PlayAll(s, h, a).0, PlayAll(s, h, a).1, b)
    decreases |b|
  {
    hide Play;
    if b == [] {
      assert a + b == a;
    } else {
      PlayAllSplit(s, h, a, b[..|b| - 1]);
      assert (a + b)[..|a + b| - 1] == a + b[..|b| - 1];
    }
  }

  function OpOf(what: Happening): Op {
    match what
    case Arrives(data) => ReceiveOp(data)
    case FieldChanges(active) => FieldOp(active)
  }

  function OpsOf(whats: seq<Happening>): seq<Op> {
    if whats == [] then [] else OpsOf(whats[..|whats| - 1]) + [OpOf(whats[|whats| - 1])]
  }

  /** The looks and happenings of one nfc_transport_read_byte. */
  function WaitOps(s: State, sleeps: seq<seq<Happening>>): seq<Op>
    decreases |sleeps|
  {
    if sleeps == [] then []
    else if Poll(s).1.NothingYet? then
      [ReadOp] + OpsOf(sleeps[0]) + WaitOps(HappenAll(s, sleeps[0]), sleeps[1..])
    else [ReadOp]
  }

  lemma LookPlays(s: State, h: History)
    ensures PlayAll(s, h, [ReadOp]) == Play(s, h, ReadOp) && Play(s, h, ReadOp).0 == Poll(s).0
  {
    assert [ReadOp][..0] == [];
  }

  lemma OpHappens(s: State, h: History, what: Happening)
    ensures Play(s, h, OpOf(what)).0 == Happen(s, what)
  {
    hide Receive;
  }

  lemma {:induction false} SleepPlays(s: State, h: History, whats: seq<Happening>)
    requires Poll(s).1.NothingYet?
    ensures PlayAll(s, h, [ReadOp] + OpsOf(whats)).0 == HappenAll(s, whats)
    decreases |whats|
  {
    hide Play, Happen;
    LookPlays(s, h);
    if whats == [] {
      assert [ReadOp] + [] == [ReadOp];
    } else {
      var before, what := whats[..|whats| - 1], whats[|whats| - 1];
      var ops := [ReadOp] + OpsOf(before);
      SleepPlays(s, h, before);
      OpHappens(HappenAll(s, before), PlayAll(s, h, ops).1, what);
      assert [ReadOp] + OpsOf(whats) == ops + [OpOf(what)];
      assert (ops + [OpOf(what)])[..|ops|] == ops;
    }
  }

  /** A read that waits is an interleaving of looks with what happens between them, so that all that
      is proved about interleavings covers it. */
  lemma {:induction false} WaitingIsInterleaving(s: State, h: History, sleeps: seq<seq<Happening>>)
    ensures PlayAll(s, h, WaitOps(s, sleeps)).0 == ReadByte(s, sleeps).0
    decreases |sleeps|
  {
    hide Play, Poll, HappenAll, PlayAll, OpsOf;
    if sleeps == [] {
      NothingPlayed(s, h);
    } else {
      var looked := [ReadOp] + OpsOf(sleeps[0]);
      LookPlays(s, h);
      if Poll(s).1.NothingYet? {
        var later := WaitOps(HappenAll(s, sleeps[0]), sleeps[1..]);
        SleepPlays(s, h, sleeps[0]);
        PlayAllSplit(s, h, looked, later);
        WaitingIsInterleaving(HappenAll(s, sleeps[0]), PlayAll(s, h, looked).1, sleeps[1..]);
      }
    }
  }

  lemma NothingPlayed(s: State, h: History)
    ensures PlayAll(s, h, []) == (s, h)
  {
  }

  const EMPTY := History([], [], [], [], [], [])

  /** Over every interleaving of writes, flushes with enough room, receive callbacks, events, reads
      and field changes from a fresh transport: nothing is reordered, duplicated or lost to a field
      drop, and the counters add up. */
  lemma {:induction false} TransportIsFifo(framed: bool, ops: seq<Op>)
    requires forall i :: 0 <= i < |ops| ==>
      Roomy(PlayAll(State([], [], false, framed, INITIAL_STATS), EMPTY, ops[..i]).0, ops[i])
    ensures var (s, h) := PlayAll(State([], [], false, framed, INITIAL_STATS), EMPTY, ops); Fifo(s, h)
  {
    hide Play, Fifo, Roomy;
    var start := State([], [], false, framed, INITIAL_STATS);
    if ops == [] {
      StartsFifo(framed);
    } else {
      var before := ops[..|ops| - 1];
      forall i | 0 <= i < |before|
        ensures Roomy(PlayAll(start, EMPTY, before[..i]).0, before[i])
      {
        assert before[..i] == ops[..i];
      }
      TransportIsFifo(framed, before);
      var (s, h) := PlayAll(start, EMPTY, before);
      PlayKeepsFifo(s, h, ops[|ops| - 1]);
    }
  }

  lemma StartsFifo(framed: bool)
    ensures Fifo(State([], [], false, framed, INITIAL_STATS), EMPTY)
  {
  }

  /** A flush takes bytes off the queue before it knows that the record fits: they are lost exactly
      when the buffer is too small for them. */
  lemma FlushLoses(s: State, h: History, room: nat)
    requires s.tx != [] && h.queued == h.published + s.tx
    ensures var (s', h') := Play(s, h, FlushOp(room));
      h'.queued == h'.published + s'.tx <==> Roomy(s, FlushOp(room))
  {
    hide Record, Unwrap;
    var n := Min(|s.tx|, RECORD_LIMIT);
    RecordUnwraps(s.tx[..n]);
    assert s.tx[..n] + s.tx[n..] == s.tx;
    assert h.published + s.tx[..n] + s.tx[n..] == h.published + s.tx;
    assert |h.published + s.tx[n..]| < |h.published + s.tx|;
  }

  // ----- from one transport to another -----

  /** The records of repeated flushes into big enough buffers. */
  function Records(tx: seq<byte>): seq<seq<byte>> {
    if tx == [] then []
    else
      var n := Min(|tx|, RECORD_LIMIT);
      [Record(tx[..n])] + Records(tx[n..])
  }

  lemma RecordsAreFlushes(s: State, room: nat)
    requires s.tx != [] && room >= Overhead() + RECORD_LIMIT
    ensures var (s', record) := Flush(s, room);
      record.Some? && Records(s.tx) == [record.value] + Records(s'.tx)
  {
  }

  function Flushes(k: nat, room: nat): seq<Op> {
    if k == 0 then [] else Flushes(k - 1, room) + [FlushOp(room)]
  }

  lemma NoRecordsLeft(tx: seq<byte>)
    ensures Records(tx) == [] <==> tx == []
  {
  }

  /** The records published and those to come. */
  predicate Published(h: History, h': History, s': State, all: seq<seq<byte>>, n: nat)
    requires n <= |all|
  {
    h'.records == h.records + all[..n] && Records(s'.tx) == all[n..]
  }

  /** One more flush publishes one more record, if there is one. */
  lemma FlushPublishes(h: History, s: State, h1: History, all: seq<seq<byte>>, n: nat, room: nat)
    requires room >= Overhead() + RECORD_LIMIT && n <= |all| && Published(h, h1, s, all, n)
    ensures var (s2, h2) := Play(s, h1, FlushOp(room));
      Published(h, h2, s2, all, Min(n + 1, |all|))
  {
    hide Record, Unwrap, Records, Flush;
    NoRecordsLeft(s.tx);
    FlushOfNothing(s, room);
    if s.tx == [] {
      assert n == |all| by { assert |all[n..]| == 0; }
    } else {
      RecordsAreFlushes(s, room);
      var (s2, record) := Flush(s, room);
      assert all[n..][0] == record.value && all[n..][1..] == Records(s2.tx);
      assert all[..n + 1] == all[..n] + [record.value] && all[n + 1..] == all[n..][1..];
    }
  }

  /** A run of `k` flushes publishes exactly the first `k` records of the queue, or all of them, and
      leaves the others to come. */
  lemma {:induction false} FlushesPublish(s: State, h: History, room: nat, k: nat)
    requires room >= Overhead() + RECORD_LIMIT
    ensures var (s', h') := PlayAll(s, h, Flushes(k, room));
      Published(h, h', s', Records(s.tx), Min(k, |Records(s.tx)|))
    decreases k
  {
    hide Records, Play;
    var all := Records(s.tx);
    if k == 0 {
      NothingPlayed(s, h);
      assert all[..0] == [] && all[0..] == all;
    } else {
      FlushesPublish(s, h, room, k - 1);
      var ops := Flushes(k, room);
      assert ops[..|ops| - 1] == Flushes(k - 1, room) && ops[|ops| - 1] == FlushOp(room);
      var (s1, h1) := PlayAll(s, h, Flushes(k - 1, room));
      FlushPublishes(h, s1, h1, all, Min(k - 1, |all|), room);
    }
  }

  lemma FlushOfNothing(s: State, room: nat)
    ensures s.tx == [] ==> Flush(s, room) == (s, None)
  {
  }

  lemma NoRecords()
    ensures Records([]) == []
  {
  }

  lemma RecordsUnfold(tx: seq<byte>)
    requires tx != []
    ensures var n := Min(|tx|, RECORD_LIMIT);
      Records(tx) != [] && Records(tx)[0] == Record(tx[..n]) && Records(tx)[1..] == Records(tx[n..])
  {
    hide Record;
  }

  function ReceiveAll(s: State, records: seq<seq<byte>>): State
    decreases |records|
  {
    if records == [] then s else ReceiveAll(Receive(s, records[0]), records[1..])
  }

  lemma RecordArrives(s: State, payload: seq<byte>)
    requires 1 <= |payload| <= RECORD_LIMIT && |s.rx| + |payload| <= CAPACITY
    ensures var s' := Receive(s, Record(payload));
      s'.rx == s.rx + payload && s'.stats.overflows == s.stats.overflows
  {
    hide Record, Unwrap;
    RecordUnwraps(payload);
  }

  /** Whatever is queued for transmission, flushed repeatedly and passed record by record to a
      receive callback with room in its ring, appends exactly those bytes to its receive queue, in
      order. */
  lemma {:induction false} FlushedQueueArrives(s: State, tx: seq<byte>)
    requires |s.rx| + |tx| <= CAPACITY
    ensures ReceiveAll(s, Records(tx)).rx == s.rx + tx
    ensures ReceiveAll(s, Records(tx)).stats.overflows == s.stats.overflows
    decreases |tx|
  {
    hide Record, Receive, Records;
    if tx == [] {
      NoRecords();
      assert s.rx + tx == s.rx;
    } else {
      var n := Min(|tx|, RECORD_LIMIT);
      var r := Record(tx[..n]);
      RecordArrives(s, tx[..n]);
      RecordsUnfold(tx);
      FlushedQueueArrives(Receive(s, r), tx[n..]);
      assert s.rx + tx[..n] + tx[n..] == s.rx + tx;
    }
  }

  /** From one transport to another: enough flushes publish records that, passed one by one to a
      receive callback with room in its ring, append exactly the flushed queue to what is there, and
      the queue is then empty. */
  lemma FlushedRunArrives(s: State, h: History, room: nat, k: nat, peer: State)
    requires room >= Overhead() + RECORD_LIMIT && k >= |Records(s.tx)|
    requires |peer.rx| + |s.tx| <= CAPACITY
    ensures var (s', h') := PlayAll(s, h, Flushes(k, room));
      && s'.tx == [] && h.records <= h'.records
      && ReceiveAll(peer, h'.records[|h.records|..]).rx == peer.rx + s.tx
      && ReceiveAll(peer, h'.records[|h.records|..]).stats.overflows == peer.stats.overflows
  {
    hide Record, Receive, Records, PlayAll, ReceiveAll;
    FlushesPublish(s, h, room, k);
    var (s', h') := PlayAll(s, h, Flushes(k, room));
    var all := Records(s.tx);
    assert all[..|all|] == all && all[|all|..] == [];
    NoRecordsLeft(s'.tx);
    assert h'.records[|h.records|..] == all;
    FlushedQueueArrives(peer, s.tx);
  }
}
