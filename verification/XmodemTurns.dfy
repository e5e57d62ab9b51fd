/** Every turn of xmodem_receive on every input, said in terms of what is on the line and what has
    been recorded so far: when a block is stored, when it is only acknowledged, when the receiver asks
    again, and what each of its returns means. */
module XmodemTurns {
  import opened Serial
  import opened Checks
  import opened XmodemFrames
  import opened XmodemReceiver
  import opened XmodemTrace

  /** The receiver after `n` turns. */
  function At(env: Env, script: seq<Event>, n: nat): RxStep {
    Turns(env, Start(env.cfg), Opening(env.cfg, script), n)
  }

  lemma {:induction false} TurnsNext(env: Env, st: RxState, w: World<Call>, n: nat)
    ensures Turns(env, st, w, n + 1) == match Turns(env, st, w, n)
                                        case Return(status, w') => Return(status, w')
                                        case Continue(st', w') => Step(env, st', w')
    decreases n
  {
    hide Step;
    if n == 0 {
      var r := Step(env, st, w);
      assert Turns(env, st, w, 1) == match r
                                     case Continue(st', w') => Turns(env, st', w', 0)
                                     case Return(status, w') => Return(status, w');
    } else {
      match Step(env, st, w)
      case Continue(st', w') => TurnsNext(env, st', w', n - 1);
      case Return(_, _) =>
    }
  }

  /** The turns since the last stored block, not counting those that acknowledged it again. */
  function Idle(env: Env, script: seq<Event>, n: nat): nat {
    if n == 0 then 0
    else
      var before, after := At(env, script, n - 1).w.calls, At(env, script, n).w.calls;
      if |after| <= |before| then Idle(env, script, n - 1) + 1
      else if after[|after| - 1].Repeated? then Idle(env, script, n - 1)
      else 0
  }

  // ----- what a turn may be -----

  /** A whole block with this number and payload, checked in the way in use, comes next. */
  predicate Ahead(step: CrcStep, crcMode: bool, s: seq<Event>, block: byte, payload: seq<byte>, rest: seq<Event>) {
    (|payload| == 128 || |payload| == 1024) && s == Bytes(Frame(step, crcMode, block, payload)) + rest
  }

  function StoredSoFar(w: World<Call>): nat {
    |Deliveries(w.calls)|
  }

  /** The receiver waits for the number after the last stored one, and has counted its idle turns in
      eight bits. */
  predicate Recorded(env: Env, st: RxState, w: World<Call>, idle: nat) {
    && st.expected == Num(StoredSoFar(w) + 1)
    && st.total == TotalLength(Deliveries(w.calls))
    && st.retries == idle % 256
    && (st.total == 0 <==> StoredSoFar(w) == 0)
    && (st.crcMode ==> env.cfg.mode != Standard)
    && (st.total == 0 ==> st.req == if st.crcMode then CRC_REQUEST else NAK)
  }

  /** The eight-bit counter after one more idle turn is over the limit. */
  predicate Exhausted(env: Env, idle: nat) {
    (idle + 1) % 256 > env.cfg.maxRetries
  }

  /** What must have happened for each return. */
  ghost predicate Warranted(env: Env, crcMode: bool, idle: nat, status: Status, w: World<Call>, w': World<Call>) {
    var k, e := StoredSoFar(w), Head(w.script);
    match status
    case Ok(total) =>
      && e == Byte(EOT) && total == TotalLength(Deliveries(w.calls))
      && w' == World(Tail(w.script), w.sent + [ACK], w.calls)
    case Cancelled =>
      && w'.calls == w.calls
      && if e == Byte(CAN) then w'.sent == w.sent && w'.script == Tail(Tail(w.script))
         else
           && w'.sent == w.sent + [CAN, CAN]
           && if e == Cancel then w'.script == Tail(w.script) else InterruptedBlock(w.script, w'.script)
    case OutOfSequence =>
      && w'.calls == w.calls && w'.sent == w.sent + [CAN, CAN]
      && exists block, payload ::
           Ahead(env.step, crcMode, w.script, block, payload, w'.script) && block != Num(k) && block != Num(k + 1)
    case IoError =>
      w'.sent == w.sent + [CAN, CAN] && exists payload :: Refuses(env, crcMode, w, w', payload)
    case TimedOut =>
      e == Timeout && Exhausted(env, idle) && w' == World(Tail(w.script), w.sent + [CAN, CAN], w.calls)
    case Error =>
      && e.Byte? && e.value !in {SOH, STX, EOT, CAN} && Exhausted(env, idle)
      && w' == World(Purge(Tail(w.script)), w.sent + [CAN], w.calls)
  }

  /** A cancel request among the reads of a block. */
  ghost predicate InterruptedBlock(s: seq<Event>, rest: seq<Event>) {
    && Head(s) in {Byte(SOH), Byte(STX)} && Suffix(rest, s)
    && Cancel in s[..|s| - |rest|]
  }

  /** The block after the last stored one comes next, and data_cb does not take it. */
  ghost predicate Refuses(env: Env, crcMode: bool, w: World<Call>, w': World<Call>, payload: seq<byte>) {
    var block := Num(StoredSoFar(w) + 1);
    && Ahead(env.step, crcMode, w.script, block, payload, w'.script) && !env.stores(|w.calls|)
    && w'.calls == w.calls + [Refused(block, payload)]
  }

  /** It comes next and is stored. */
  ghost predicate Stores(env: Env, crcMode: bool, w: World<Call>, w': World<Call>, payload: seq<byte>) {
    var block := Num(StoredSoFar(w) + 1);
    && Ahead(env.step, crcMode, w.script, block, payload, w'.script) && env.stores(|w.calls|)
    && w'.calls == w.calls + [Stored(block, payload)] && w'.sent == w.sent + [ACK]
  }

  /** A block with the number of the last stored one (0 before the first) is only acknowledged. */
  ghost predicate Repeats(env: Env, crcMode: bool, w: World<Call>, w': World<Call>, payload: seq<byte>) {
    var block := Num(StoredSoFar(w));
    && Ahead(env.step, crcMode, w.script, block, payload, w'.script)
    && w'.calls == w.calls + [Repeated(block, payload)] && w'.sent == w.sent + [ACK]
  }

  /** Nothing that ends the reception and no whole block comes next: the receiver asks again. In mode
      1K it asks for a checksum from the first silent turn on that is over half the retry limit and
      finds nothing stored. */
  ghost predicate AsksAgain(env: Env, crcMode: bool, crcMode': bool, idle: nat, w: World<Call>, w': World<Call>) {
    var k, e := StoredSoFar(w), Head(w.script);
    var falls := e == Timeout && k == 0 && (idle + 1) % 256 > env.cfg.maxRetries / 2 && env.cfg.mode == OneK;
    && e != Cancel && e != Byte(EOT) && e != Byte(CAN)
    && (forall block, payload, rest :: !Ahead(env.step, crcMode, w.script, block, payload, rest))
    && (e !in {Byte(SOH), Byte(STX)} ==> !Exhausted(env, idle))
    && crcMode' == (crcMode && !falls)
    && w'.calls == w.calls
    && w'.sent == w.sent + [if e == Timeout && k == 0 && crcMode' then CRC_REQUEST else NAK]
    && w'.script == if e == Timeout then Tail(w.script)
                    else if e in {Byte(SOH), Byte(STX)} then
                      Purge(ReadFrame(env.step, crcMode, if e == Byte(STX) then 1024 else 128, Tail(w.script)).rest)
                    else Purge(Tail(w.script))
  }

  // ----- the proof -----

  /** The reads of a block meet a cancel request exactly when the block is given up for one. */
  lemma AbortedExactly(step: CrcStep, crcMode: bool, len: nat, s: seq<Event>)
    ensures var r := ReadFrame(step, crcMode, len, s);
      Suffix(r.rest, s) && (r.Aborted? <==> Cancel in s[..|s| - |r.rest|])
  {
    hide ReadTrailer, Fill, Suffix;
    ReadFrameSuffix(step, crcMode, len, s);
    var s2 := Tail(Tail(s));
    TwoReads(s);
    var filled := Fill(s2, len, []);
    FillCancel(s2, len, []);
    if Head(s).Byte? && Head(Tail(s)).Byte? {
      ReadsJoin(s, s2, filled.rest);
      if filled.Got? {
        TrailerCancel(step, crcMode, Head(s).value, filled.bytes, filled.rest);
        ReadsJoin(s, filled.rest, ReadTrailer(step, crcMode, Head(s).value, filled.bytes, filled.rest).rest);
      }
    }
  }

  /** The events read between two points of a script. */
  function Between(s: seq<Event>, rest: seq<Event>): seq<Event>
    requires Suffix(rest, s)
  {
    s[..|s| - |rest|]
  }

  lemma ReadsJoin(s: seq<Event>, t: seq<Event>, rest: seq<Event>)
    requires Suffix(t, s) && Suffix(rest, t)
    ensures Suffix(rest, s) && Between(s, rest) == Between(s, t) + Between(t, rest)
  {
    SuffixTransitive(rest, t, s);
  }

  lemma TwoReads(s: seq<Event>)
    ensures var s2 := Tail(Tail(s));
      Suffix(s2, s) && (Cancel in Between(s, s2) <==> Head(s) == Cancel || Head(Tail(s)) == Cancel)
  {
    var s2 := Tail(Tail(s));
    if |s| >= 2 {
      assert Between(s, s2) == [s[0], s[1]];
    } else {
      assert Between(s, s2) == s;
    }
  }

  lemma OneRead(s: seq<Event>)
    ensures Suffix(Tail(s), s) && (Cancel in Between(s, Tail(s)) <==> Head(s) == Cancel)
  {
    if s != [] {
      assert Between(s, Tail(s)) == [s[0]];
    }
  }

  lemma NoRead(s: seq<Event>)
    ensures Suffix(s, s) && Cancel !in Between(s, s)
  {
  }

  lemma {:induction false} FillCancel(s: seq<Event>, n: nat, acc: seq<byte>)
    requires |acc| <= n
    ensures var r := Fill(s, n, acc);
      Suffix(r.rest, s) && (Cancel in Between(s, r.rest) <==> r.Broke? && r.why == Cancel)
    decreases n - |acc|
  {
    hide Suffix, Between;
    NoRead(s);
    if |acc| < n {
      OneRead(s);
      if Head(s).Byte? {
        FillCancel(Tail(s), n, acc + [Head(s).value]);
        ReadsJoin(s, Tail(s), Fill(s, n, acc).rest);
      }
    }
  }

  lemma TrailerCancel(step: CrcStep, crcMode: bool, block: byte, payload: seq<byte>, s: seq<Event>)
    ensures var r := ReadTrailer(step, crcMode, block, payload, s);
      Suffix(r.rest, s) && (r.Aborted? <==> Cancel in Between(s, r.rest))
  {
    hide Crc16, Sum8, Suffix, Between, Join;
    TwoReads(s);
    OneRead(s);
  }

  /** A whole block is accepted. */
  lemma AheadReads(env: Env, st: RxState, block: byte, payload: seq<byte>, rest: seq<Event>, w: World<Call>)
    requires Ahead(env.step, st.crcMode, w.script, block, payload, rest)
    ensures Step(env, st, w) == OnAccepted(env, st, block, payload, w.Leaves(rest))
    ensures Head(w.script) == Byte(if |payload| == 1024 then STX else SOH)
  {
    hide ReadFrame, OnAccepted, Body;
    var header, body := if |payload| == 1024 then STX else SOH, Body(env.step, st.crcMode, block, payload);
    BytesHead(header, body, rest);
    FrameReads(env.step, st.crcMode, block, payload, rest);
  }

  /** And nothing else is. */
  lemma AcceptedAhead(env: Env, st: RxState, w: World<Call>, len: nat)
    requires (Head(w.script), len) in {(Byte(SOH), 128), (Byte(STX), 1024)}
    requires ReadFrame(env.step, st.crcMode, len, Tail(w.script)).Accepted?
    ensures var r := ReadFrame(env.step, st.crcMode, len, Tail(w.script));
      Ahead(env.step, st.crcMode, w.script, r.block, r.payload, r.rest)
  {
    hide ReadFrame, Body;
    var r := ReadFrame(env.step, st.crcMode, len, Tail(w.script));
    AcceptedWasThere(env.step, st.crcMode, len, Tail(w.script));
    BytesPrepend(w.script, Head(w.script).value, Body(env.step, st.crcMode, r.block, r.payload), r.rest);
  }

  /** A turn as the report has it. */
  ghost predicate Reported(env: Env, st: RxState, idle: nat, w: World<Call>, r: RxStep) {
    match r
    case Return(status, w') => Warranted(env, st.crcMode, idle, status, w, w')
    case Continue(st', w') =>
      || (st'.crcMode == st.crcMode
          && exists payload :: Stores(env, st.crcMode, w, w', payload) || Repeats(env, st.crcMode, w, w', payload))
      || AsksAgain(env, st.crcMode, st'.crcMode, idle, w, w')
  }

  /** The idle turns after a turn. */
  function Later(idle: nat, calls: seq<Call>, calls': seq<Call>): nat {
    if |calls'| <= |calls| then idle + 1 else if calls'[|calls'| - 1].Repeated? then idle else 0
  }

  lemma NextBlockReported(env: Env, st: RxState, idle: nat, w: World<Call>, payload: seq<byte>, rest: seq<Event>)
    requires Recorded(env, st, w, idle) && Ahead(env.step, st.crcMode, w.script, st.expected, payload, rest)
    ensures var r := OnAccepted(env, st, st.expected, payload, w.Leaves(rest));
      && Reported(env, st, idle, w, r)
      && (r.Continue? ==> Recorded(env, r.st, r.w, Later(idle, w.calls, r.w.calls)))
  {
    hide Deliveries, TotalLength, Num, AsksAgain, Ahead, Repeats;
    NumSteps(StoredSoFar(w) + 1);
    DeliveriesAppend(w.calls, Stored(st.expected, payload));
    TotalAppend(Deliveries(w.calls), Stored(st.expected, payload));
    AheadSize(env.step, st.crcMode, w.script, st.expected, payload, rest);
    var w' := OnAccepted(env, st, st.expected, payload, w.Leaves(rest)).w;
    assert Ahead(env.step, st.crcMode, w.script, Num(StoredSoFar(w) + 1), payload, w'.script);
    if env.stores(|w.calls|) {
      assert Stores(env, st.crcMode, w, w', payload);
    } else {
      assert Refuses(env, st.crcMode, w, w', payload);
    }
  }

  lemma AheadSize(step: CrcStep, crcMode: bool, s: seq<Event>, block: byte, payload: seq<byte>, rest: seq<Event>)
    requires Ahead(step, crcMode, s, block, payload, rest)
    ensures |payload| > 0
  {
  }

  lemma OldBlockReported(env: Env, st: RxState, idle: nat, w: World<Call>, block: byte, payload: seq<byte>,
                         rest: seq<Event>)
    requires Recorded(env, st, w, idle) && Ahead(env.step, st.crcMode, w.script, block, payload, rest)
    requires block != st.expected
    ensures var r := OnAccepted(env, st, block, payload, w.Leaves(rest));
      && Reported(env, st, idle, w, r)
      && (r.Continue? ==> Recorded(env, r.st, r.w, Later(idle, w.calls, r.w.calls)))
  {
    hide Deliveries, TotalLength, Num, AsksAgain, Ahead, Stores;
    NumSteps(StoredSoFar(w));
    DeliveriesAppend(w.calls, Repeated(block, payload));
    var w' := OnAccepted(env, st, block, payload, w.Leaves(rest)).w;
    assert Ahead(env.step, st.crcMode, w.script, block, payload, w'.script);
    if block == Dec(st.expected) {
      assert Repeats(env, st.crcMode, w, w', payload);
    }
  }

  /** The turns that accept no block: a broken one, ... */
  lemma BrokenReported(env: Env, st: RxState, idle: nat, w: World<Call>, len: nat)
    requires Recorded(env, st, w, idle) && (Head(w.script), len) in {(Byte(SOH), 128), (Byte(STX), 1024)}
    requires forall block, payload, rest :: !Ahead(env.step, st.crcMode, w.script, block, payload, rest)
    ensures var r := OnBlock(env, st, len, w.Leaves(Tail(w.script)));
      && Reported(env, st, idle, w, r)
      && (r.Continue? ==> Recorded(env, r.st, r.w, Later(idle, w.calls, r.w.calls)))
  {
    hide Deliveries, TotalLength, Num, ReadFrame, Purge, OnAccepted, Ahead, Stores, Repeats, Suffix;
    var read := ReadFrame(env.step, st.crcMode, len, Tail(w.script));
    if read.Accepted? {
      AcceptedAhead(env, st, w, len);
    }
    AbortedExactly(env.step, st.crcMode, len, Tail(w.script));
    BlockReadsOn(w.script, read.rest);
  }

  /** ... silence, ... */
  lemma SilenceReported(env: Env, st: RxState, idle: nat, w: World<Call>)
    requires Recorded(env, st, w, idle) && Head(w.script) == Timeout
    requires forall block, payload, rest :: !Ahead(env.step, st.crcMode, w.script, block, payload, rest)
    ensures var r := OnTimeout(env.cfg, st, w.Leaves(Tail(w.script)));
      && Reported(env, st, idle, w, r)
      && (r.Continue? ==> Recorded(env, r.st, r.w, Later(idle, w.calls, r.w.calls)))
  {
    hide Deliveries, TotalLength, Num, ReadFrame, Purge, Ahead, Stores, Repeats, Suffix;
  }

  /** ... an unknown byte, ... */
  lemma UnknownReported(env: Env, st: RxState, idle: nat, w: World<Call>)
    requires Recorded(env, st, w, idle) && Head(w.script).Byte? && Head(w.script).value !in {SOH, STX, EOT, CAN}
    requires forall block, payload, rest :: !Ahead(env.step, st.crcMode, w.script, block, payload, rest)
    ensures var r := OnUnknown(env.cfg, st, w.Leaves(Tail(w.script)));
      && Reported(env, st, idle, w, r)
      && (r.Continue? ==> Recorded(env, r.st, r.w, Later(idle, w.calls, r.w.calls)))
  {
    hide Deliveries, TotalLength, Num, ReadFrame, Purge, Ahead, Stores, Repeats, Suffix;
  }

  /** ... or the end. */
  lemma EndReported(env: Env, st: RxState, idle: nat, w: World<Call>)
    requires Recorded(env, st, w, idle) && Head(w.script) in {Cancel, Byte(EOT), Byte(CAN)}
    ensures var r := Step(env, st, w); r.Return? && Reported(env, st, idle, w, r)
  {
    hide Deliveries, TotalLength, Num, ReadFrame, Purge, Ahead, Stores, Repeats, Suffix, OnBlock, OnTimeout, OnUnknown;
  }

  lemma BlockReadsOn(s: seq<Event>, rest: seq<Event>)
    requires s != [] && Suffix(rest, Tail(s))
    ensures Suffix(rest, s) && s[..|s| - |rest|] == [s[0]] + Tail(s)[..|Tail(s)| - |rest|]
  {
  }

  lemma NoBlockReported(env: Env, st: RxState, idle: nat, w: World<Call>)
    requires Recorded(env, st, w, idle)
    requires forall block, payload, rest :: !Ahead(env.step, st.crcMode, w.script, block, payload, rest)
    ensures var r := Step(env, st, w);
      && Reported(env, st, idle, w, r)
      && (r.Continue? ==> Recorded(env, r.st, r.w, Later(idle, w.calls, r.w.calls)))
  {
    hide OnBlock, Recorded, Reported, Ahead, OnTimeout, OnUnknown;
    if Head(w.script) == Byte(SOH) {
      BrokenReported(env, st, idle, w, 128);
    } else if Head(w.script) == Byte(STX) {
      BrokenReported(env, st, idle, w, 1024);
    } else if Head(w.script) == Timeout {
      SilenceReported(env, st, idle, w);
    } else if Head(w.script) in {Cancel, Byte(EOT), Byte(CAN)} {
      EndReported(env, st, idle, w);
    } else {
      UnknownReported(env, st, idle, w);
    }
  }

  lemma TurnReported(env: Env, st: RxState, idle: nat, w: World<Call>)
    requires Recorded(env, st, w, idle)
    ensures var r := Step(env, st, w);
      && Reported(env, st, idle, w, r)
      && (r.Continue? ==> Recorded(env, r.st, r.w, Later(idle, w.calls, r.w.calls)))
  {
    hide Step, OnAccepted, Recorded, Reported, Ahead;
    if block, payload, rest :| Ahead(env.step, st.crcMode, w.script, block, payload, rest) {
      AheadReads(env, st, block, payload, rest, w);
      if block == st.expected {
        NextBlockReported(env, st, idle, w, payload, rest);
      } else {
        OldBlockReported(env, st, idle, w, block, payload, rest);
      }
    } else {
      NoBlockReported(env, st, idle, w);
    }
  }

  lemma {:induction false} AlwaysRecorded(env: Env, script: seq<Event>, n: nat)
    requires At(env, script, n).Continue?
    ensures var r := At(env, script, n); Recorded(env, r.st, r.w, Idle(env, script, n))
    decreases n
  {
    hide Step, Recorded, Reported, Turns;
    if n == 0 {
      StartRecorded(env, script);
    } else {
      var st, w := Start(env.cfg), Opening(env.cfg, script);
      TurnsNext(env, st, w, n - 1);
      AlwaysRecorded(env, script, n - 1);
      TurnReported(env, At(env, script, n - 1).st, Idle(env, script, n - 1), At(env, script, n - 1).w);
    }
  }

  lemma StartRecorded(env: Env, script: seq<Event>)
    ensures At(env, script, 0) == Continue(Start(env.cfg), Opening(env.cfg, script))
    ensures Recorded(env, Start(env.cfg), Opening(env.cfg, script), 0)
  {
  }

  /** On every input, every turn stores the block after the last stored one, acknowledges that one
      again, asks again, or returns, each exactly where the line and the record so far call for it, with
      just the bytes and calls that belong to it. */
  lemma EveryTurn(env: Env, script: seq<Event>, n: nat)
    requires At(env, script, n).Continue?
    ensures var r := At(env, script, n);
      Reported(env, r.st, Idle(env, script, n), r.w, At(env, script, n + 1))
  {
    hide Step, Recorded, Reported, Turns, Idle;
    TurnsNext(env, Start(env.cfg), Opening(env.cfg, script), n);
    AlwaysRecorded(env, script, n);
    TurnReported(env, At(env, script, n).st, Idle(env, script, n), At(env, script, n).w);
  }

  /** The numbers of the blocks that storage was told of: the next one, modulo 256, or when it is only
      acknowledged again, the one before it. */
  predicate Numbered(calls: seq<Call>) {
    calls == [] ||
      var before, c := calls[..|calls| - 1], calls[|calls| - 1];
      Numbered(before) && c.block == Num(|Deliveries(before)| + if c.Repeated? then 0 else 1)
  }

  lemma NumberedAppend(calls: seq<Call>, c: Call)
    requires Numbered(calls) && c.block == Num(|Deliveries(calls)| + if c.Repeated? then 0 else 1)
    ensures Numbered(calls + [c])
  {
    hide Deliveries, Num;
    assert (calls + [c])[..|calls|] == calls;
  }

  lemma ReportNumbers(env: Env, st: RxState, idle: nat, w: World<Call>, r: RxStep)
    requires Reported(env, st, idle, w, r) && Numbered(w.calls)
    ensures Numbered(r.w.calls)
  {
    hide Numbered, Deliveries, Num, AsksAgain, Ahead, InterruptedBlock;
    var k := StoredSoFar(w);
    if r.Return? && r.status.IoError? {
      var payload :| Refuses(env, st.crcMode, w, r.w, payload);
      NumberedAppend(w.calls, Refused(Num(k + 1), payload));
    } else if r.Continue? && !AsksAgain(env, st.crcMode, r.st.crcMode, idle, w, r.w) {
      var payload :| Stores(env, st.crcMode, w, r.w, payload) || Repeats(env, st.crcMode, w, r.w, payload);
      if Stores(env, st.crcMode, w, r.w, payload) {
        NumberedAppend(w.calls, Stored(Num(k + 1), payload));
      } else {
        NumberedAppend(w.calls, Repeated(Num(k), payload));
      }
    } else {
      SameCalls(env, st, idle, w, r);
    }
  }

  lemma SameCalls(env: Env, st: RxState, idle: nat, w: World<Call>, r: RxStep)
    requires if r.Return? then Warranted(env, st.crcMode, idle, r.status, w, r.w) && !r.status.IoError?
             else AsksAgain(env, st.crcMode, r.st.crcMode, idle, w, r.w)
    ensures r.w.calls == w.calls
  {
    hide Ahead, InterruptedBlock;
  }

  lemma {:induction false} CallsNumbered(env: Env, script: seq<Event>, n: nat)
    ensures Numbered(At(env, script, n).w.calls)
    decreases n
  {
    hide Turns, Numbered, Reported, Idle;
    if n == 0 {
      StartRecorded(env, script);
      NothingNumbered();
    } else {
      CallsNumbered(env, script, n - 1);
      TurnsNext(env, Start(env.cfg), Opening(env.cfg, script), n - 1);
      var before := At(env, script, n - 1);
      if before.Continue? {
        EveryTurn(env, script, n - 1);
        ReportNumbers(env, before.st, Idle(env, script, n - 1), before.w, At(env, script, n));
      }
    }
  }

  lemma NothingNumbered()
    ensures Numbered([])
  {
  }
}
