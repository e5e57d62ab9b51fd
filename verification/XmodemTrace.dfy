/** What one xmodem_receive does on every input: when it returns, what it stores and what it
    acknowledges. */
module XmodemTrace {
  import opened Serial
  import opened Checks
  import opened XmodemFrames
  import opened XmodemReceiver

  // ----- termination -----

  /** The loop after at most `n` turns. */
  function Turns(env: Env, st: RxState, w: World<Call>, n: nat): RxStep
    decreases n
  {
    if n == 0 then Continue(st, w)
    else match Step(env, st, w)
      case Continue(st', w') => Turns(env, st', w', n - 1)
      case Return(status, w') => Return(status, w')
  }

  function Opening(cfg: Config, script: seq<Event>): World<Call> {
    World(script, [Start(cfg).req], [])
  }

  ghost predicate Returns(env: Env, script: seq<Event>) {
    exists n: nat :: Turns(env, Start(env.cfg), Opening(env.cfg, script), n).Return?
  }

  /** Run says what the turns come to. */
  lemma {:induction false} RunIsTurns(env: Env, st: RxState, w: World<Call>) returns (n: nat)
    ensures var out := Run(env, st, w);
      out.Returned? ==> Turns(env, st, w, n) == Return(out.status, out.w)
    decreases |w.script|, st.retries == 255, env.cfg.maxRetries - st.retries
  {
    hide Step;
    n := 0;
    if w.script != [] || env.cfg.maxRetries < 255 {
      match Step(env, st, w)
      case Return(_, _) => n := 1;
      case Continue(st', w') =>
        var m := RunIsTurns(env, st', w');
        n := m + 1;
    }
  }

  lemma {:induction false} NeverIsForever(env: Env, st: RxState, w: World<Call>, n: nat)
    requires Run(env, st, w).Never?
    ensures Turns(env, st, w, n).Continue?
    decreases n
  {
    hide OnBlock, OnUnknown;
    if n > 0 {
      var r := Step(env, st, w);
      NeverIsForever(env, r.st, r.w, n - 1);
    }
  }

  /** The function Receive is honest about returning. */
  lemma ReturnsExactlyWhen(env: Env, script: seq<Event>)
    ensures Returns(env, script) <==> Receive(env, World(script, [], [])).Returned?
  {
    hide Step, Turns, Run;
    var st, w := Start(env.cfg), Opening(env.cfg, script);
    assert World(script, [], []).Sends([st.req]) == w;
    if Run(env, st, w).Never? {
      forall n: nat ensures Turns(env, st, w, n).Continue? {
        NeverIsForever(env, st, w, n);
      }
    } else {
      var n := RunIsTurns(env, st, w);
    }
  }

  lemma {:induction false} ShortCounterReturns(env: Env, st: RxState, w: World<Call>)
    requires env.cfg.maxRetries <= 254
    ensures Run(env, st, w).Returned?
    decreases |w.script|, st.retries == 255, env.cfg.maxRetries - st.retries
  {
    var r := Step(env, st, w);
    if r.Continue? {
      ShortCounterReturns(env, r.st, r.w);
    }
  }

  /** xmodem_receive returns on every finite script followed by silence exactly when max_retries
      is at most 254: the 8-bit counter cannot exceed 255. */
  lemma ReturnsOnEveryScript(env: Env)
    ensures (forall script :: Returns(env, script)) <==> env.cfg.maxRetries <= 254
  {
    hide Returns;
    if env.cfg.maxRetries <= 254 {
      forall script ensures Returns(env, script) {
        ShortCounterReturns(env, Start(env.cfg), Opening(env.cfg, script));
        ReturnsExactlyWhen(env, script);
        assert World(script, [], []).Sends([Start(env.cfg).req]) == Opening(env.cfg, script);
      }
    } else {
      ReturnsExactlyWhen(env, []);
      assert !Returns(env, []);
    }
  }

  // ----- what is stored and acknowledged -----

  /** The blocks data_cb took, in order. */
  function Deliveries(calls: seq<Call>): (ds: seq<Call>)
    ensures |ds| <= |calls|
    ensures forall d :: d in ds ==> d.Stored?
  {
    if calls == [] then []
    else
      var c, before := calls[|calls| - 1], Deliveries(calls[..|calls| - 1]);
      if c.Stored? then before + [c] else before
  }

  lemma DeliveriesAppend(calls: seq<Call>, c: Call)
    ensures Deliveries(calls + [c]) == if c.Stored? then Deliveries(calls) + [c] else Deliveries(calls)
  {
    assert (calls + [c])[..|calls|] == calls;
  }

  function TotalLength(ds: seq<Call>): nat {
    if ds == [] then 0 else TotalLength(ds[..|ds| - 1]) + |ds[|ds| - 1].payload|
  }

  lemma TotalAppend(ds: seq<Call>, d: Call)
    ensures TotalLength(ds + [d]) == TotalLength(ds) + |d.payload|
  {
    assert (ds + [d])[..|ds|] == ds;
  }

  /** The numbers 1, 2, 3, ... modulo 256. */
  predicate Consecutive(ds: seq<Call>) {
    forall i :: 0 <= i < |ds| ==> ds[i].block == Num(i + 1)
  }

  /** What every turn of the loop keeps. */
  predicate Tally(st: RxState, w: World<Call>) {
    var ds := Deliveries(w.calls);
    && st.expected == Num(|ds| + 1)
    && Consecutive(ds)
    && st.total == TotalLength(ds)
    && multiset(w.sent)[ACK] == |w.calls|
    && (forall c :: c in w.calls ==> !c.Refused?)
    && (st.total == 0 ==> st.req != ACK)
  }

  lemma StoredKeepsTally(st: RxState, block: byte, payload: seq<byte>, w: World<Call>)
    requires Tally(st, w) && payload != [] && block == st.expected
    ensures var st' := st.(expected := Inc(st.expected), total := st.total + |payload|, retries := 0, req := ACK);
      Tally(st', w.Makes(Stored(block, payload)).Sends([ACK]))
  {
    hide Deliveries, TotalLength, Consecutive, Num;
    var ds, d := Deliveries(w.calls), Stored(block, payload);
    DeliveriesAppend(w.calls, d);
    TotalAppend(ds, d);
    ConsecutiveAppend(ds, d);
    NumSteps(|ds| + 1);
  }

  lemma ConsecutiveAppend(ds: seq<Call>, d: Call)
    requires Consecutive(ds) && d.block == Num(|ds| + 1)
    ensures Consecutive(ds + [d])
  {
  }

  lemma AcceptedKeepsTally(env: Env, st: RxState, block: byte, payload: seq<byte>, w: World<Call>)
    requires Tally(st, w) && payload != []
    ensures var r := OnAccepted(env, st, block, payload, w);
      && (r.Continue? ==> Tally(r.st, r.w))
      && Consecutive(Deliveries(r.w.calls))
      && (r.Return? ==> !r.status.Ok?)
  {
    hide Deliveries, TotalLength;
    if block == st.expected && env.stores(|w.calls|) {
      StoredKeepsTally(st, block, payload, w);
    } else if block == st.expected {
      DeliveriesAppend(w.calls, Refused(block, payload));
    } else {
      DeliveriesAppend(w.calls, Repeated(block, payload));
    }
  }

  lemma BlockKeepsTally(env: Env, st: RxState, len: nat, w: World<Call>)
    requires Tally(st, w) && len > 0
    ensures var r := OnBlock(env, st, len, w);
      && (r.Continue? ==> Tally(r.st, r.w))
      && Consecutive(Deliveries(r.w.calls))
      && (r.Return? ==> !r.status.Ok?)
  {
    hide ReadFrame, Purge, OnAccepted, Deliveries, TotalLength;
    match ReadFrame(env.step, st.crcMode, len, w.script)
    case Accepted(block, payload, rest) =>
      AcceptedWasThere(env.step, st.crcMode, len, w.script);
      AcceptedKeepsTally(env, st, block, payload, w.Leaves(rest));
    case Rejected(_) =>
    case Aborted(_) =>
  }

  /** Asking again acknowledges nothing. */
  lemma AskingKeepsTally(cfg: Config, st: RxState, w: World<Call>)
    requires Tally(st, w)
    ensures var r := OnTimeout(cfg, st, w);
      r.w.calls == w.calls && if r.Continue? then Tally(r.st, r.w) else !r.status.Ok?
    ensures var r := OnUnknown(cfg, st, w);
      r.w.calls == w.calls && if r.Continue? then Tally(r.st, r.w) else !r.status.Ok?
  {
    hide Purge, Deliveries, TotalLength, Consecutive, Num;
  }

  lemma StepKeepsTally(env: Env, st: RxState, w: World<Call>)
    requires Tally(st, w)
    ensures var r := Step(env, st, w);
      && (r.Continue? ==> Tally(r.st, r.w))
      && Consecutive(Deliveries(r.w.calls))
      && (r.Return? && r.status.Ok? ==>
            (r.w.calls == w.calls && r.status.total == st.total && r.w.sent == w.sent + [ACK]))
  {
    hide OnBlock, OnTimeout, OnUnknown, Deliveries, TotalLength, Consecutive, Num;
    var w1 := w.Leaves(Tail(w.script));
    AskingKeepsTally(env.cfg, st, w1);
    if Head(w.script) == Byte(SOH) {
      BlockKeepsTally(env, st, 128, w1);
    } else if Head(w.script) == Byte(STX) {
      BlockKeepsTally(env, st, 1024, w1);
    }
  }

  /** What holds of the record after any number of turns. */
  predicate Accounted(r: RxStep) {
    && Consecutive(Deliveries(r.w.calls))
    && (r.Return? && r.status.Ok? ==>
          && r.status.total == TotalLength(Deliveries(r.w.calls))
          && multiset(r.w.sent)[ACK] == |r.w.calls| + 1
          && forall c :: c in r.w.calls ==> !c.Refused?)
  }

  lemma {:induction false} TurnsAccounted(env: Env, st: RxState, w: World<Call>, n: nat)
    requires Tally(st, w)
    ensures Accounted(Turns(env, st, w, n))
    decreases n
  {
    hide Step, Deliveries, TotalLength, Consecutive;
    if n > 0 {
      StepKeepsTally(env, st, w);
      match Step(env, st, w)
      case Return(_, _) =>
      case Continue(st', w') => TurnsAccounted(env, st', w', n - 1);
    }
  }

  // ----- every accepted block was on the line -----

  /** A complete, correctly checked frame for this block starts the script. */
  predicate Opens(step: CrcStep, crcMode: bool, c: Call, s: seq<Event>) {
    var f := Bytes(Frame(step, crcMode, c.block, c.payload));
    |f| <= |s| && s[..|f|] == f
  }

  /** The script carries the frames of `calls` in order, one after the other without overlap. */
  ghost predicate Heard(step: CrcStep, calls: seq<Call>, s: seq<Event>)
    decreases |calls|
  {
    calls == [] || exists i: nat, crcMode :: HeardAt(step, calls, s, i, crcMode)
  }

  ghost predicate HeardAt(step: CrcStep, calls: seq<Call>, s: seq<Event>, i: nat, crcMode: bool)
    requires calls != []
    decreases |calls|, 0
  {
    var c := calls[0];
    && i <= |s|
    && Opens(step, crcMode, c, s[i..])
    && Heard(step, calls[1..], s[i + |Bytes(Frame(step, crcMode, c.block, c.payload))|..])
  }

  lemma HeardLater(step: CrcStep, calls: seq<Call>, rest: seq<Event>, s: seq<Event>)
    requires Suffix(rest, s) && Heard(step, calls, rest)
    ensures Heard(step, calls, s)
  {
    if calls != [] {
      var i: nat, crcMode :| HeardAt(step, calls, rest, i, crcMode);
      var skip := |s| - |rest|;
      var n := |Bytes(Frame(step, crcMode, calls[0].block, calls[0].payload))|;
      assert s[skip + i..] == rest[i..] && s[skip + i + n..] == rest[i + n..];
      assert HeardAt(step, calls, s, skip + i, crcMode);
    }
  }

  lemma ReadFrameSuffix(step: CrcStep, crcMode: bool, len: nat, s: seq<Event>)
    ensures Suffix(ReadFrame(step, crcMode, len, s).rest, s)
  {
    hide Suffix, Fill;
    var s2 := Tail(Tail(s));
    var t := Fill(s2, len, []).rest;
    assert Suffix(s, s) by { SuffixReflexive(s); }
    TailSuffix(s, s);
    TailSuffix(Tail(s), s);
    FillSuffix(s2, len, []);
    SuffixTransitive(t, s2, s);
    TailSuffix(t, s);
    TailSuffix(Tail(t), s);
  }

  /** A turn either leaves the record alone, or adds one block whose frame it has just read. */
  ghost predicate Reads(step: CrcStep, w: World<Call>, w': World<Call>) {
    && Suffix(w'.script, w.script)
    && (w'.calls == w.calls ||
        exists c, crcMode ::
          && w'.calls == w.calls + [c]
          && w.script == Bytes(Frame(step, crcMode, c.block, c.payload)) + w'.script)
  }

  lemma BlockReads(env: Env, st: RxState, len: nat, w: World<Call>)
    requires w.script != [] && (w.script[0], len) in {(Byte(SOH), 128), (Byte(STX), 1024)}
    ensures Reads(env.step, w, OnBlock(env, st, len, w.Leaves(w.script[1..])).w)
  {
    hide ReadFrame, Purge, Suffix, Bytes;
    var s := w.script[1..];
    SuffixReflexive(w.script);
    TailSuffix(w.script, w.script);
    var r := ReadFrame(env.step, st.crcMode, len, s);
    ReadFrameSuffix(env.step, st.crcMode, len, s);
    SuffixTransitive(r.rest, s, w.script);
    PurgeSuffix(r.rest);
    SuffixTransitive(Purge(r.rest), r.rest, w.script);
    if r.Accepted? {
      AcceptedWasThere(env.step, st.crcMode, len, s);
      var body := Body(env.step, st.crcMode, r.block, r.payload);
      var frame := Frame(env.step, st.crcMode, r.block, r.payload);
      BytesPrepend(w.script, w.script[0].value, body, r.rest);
      assert frame == [w.script[0].value] + body;
      var w' := OnBlock(env, st, len, w.Leaves(s)).w;
      if w'.calls != w.calls {
        var c := w'.calls[|w.calls|];
        assert w'.calls == w.calls + [c] && w.script == Bytes(frame) + w'.script;
      }
    }
  }

  lemma StepReads(env: Env, st: RxState, w: World<Call>)
    ensures Reads(env.step, w, Step(env, st, w).w)
  {
    hide OnBlock, Purge, Suffix, Bytes;
    var s := Tail(w.script);
    SuffixReflexive(w.script);
    TailSuffix(w.script, w.script);
    if Head(w.script) == Byte(SOH) {
      BlockReads(env, st, 128, w);
    } else if Head(w.script) == Byte(STX) {
      BlockReads(env, st, 1024, w);
    } else {
      PurgeSuffix(s);
      SuffixTransitive(Purge(s), s, w.script);
      TailSuffix(s, w.script);
    }
  }

  lemma {:induction false} TurnsHear(env: Env, st: RxState, w: World<Call>, n: nat)
    ensures var w' := Turns(env, st, w, n).w;
      w.calls <= w'.calls && Heard(env.step, w'.calls[|w.calls|..], w.script)
    decreases n
  {
    hide Step, Bytes, Reads, Heard;
    var final := Turns(env, st, w, n).w;
    if n == 0 {
      NothingHeard(env.step, final.calls[|w.calls|..], w.script);
    } else {
      StepReads(env, st, w);
      var r := Step(env, st, w);
      if r.Continue? {
        TurnsHear(env, r.st, r.w, n - 1);
      } else {
        NothingHeard(env.step, final.calls[|r.w.calls|..], r.w.script);
      }
      ChainHears(env.step, w, r.w, final.calls);
    }
  }

  lemma NothingHeard(step: CrcStep, calls: seq<Call>, s: seq<Event>)
    requires calls == []
    ensures Heard(step, calls, s)
  {
  }

  lemma ChainHears(step: CrcStep, w: World<Call>, w': World<Call>, calls: seq<Call>)
    requires Reads(step, w, w')
    requires w'.calls <= calls && Heard(step, calls[|w'.calls|..], w'.script)
    ensures w.calls <= calls && Heard(step, calls[|w.calls|..], w.script)
  {
    if w'.calls == w.calls {
      HeardLater(step, calls[|w.calls|..], w'.script, w.script);
    } else {
      var c, crcMode :| w'.calls == w.calls + [c]
        && w.script == Bytes(Frame(step, crcMode, c.block, c.payload)) + w'.script;
      var later := calls[|w.calls|..];
      assert later[0] == c && later[1..] == calls[|w'.calls|..];
      assert w.script[0..] == w.script;
      assert HeardAt(step, later, w.script, 0, crcMode);
    }
  }

  /** xmodem_receive on any input, after any number of turns and whether it returns or not: it
      stores blocks 1, 2, 3, ... modulo 256, every block it stores or acknowledges again was a
      correctly checked frame on the line, and on success the reported total is the stored length
      and there was one ACK per stored block, one per repeated block and one for the EOT. */
  lemma ReceiveOnAnyInput(env: Env, script: seq<Event>, n: nat)
    ensures var r := Turns(env, Start(env.cfg), Opening(env.cfg, script), n);
      && Consecutive(Deliveries(r.w.calls))
      && Heard(env.step, r.w.calls, script)
      && (r.Return? && r.status.Ok? ==>
            && r.status.total == TotalLength(Deliveries(r.w.calls))
            && multiset(r.w.sent)[ACK] == |r.w.calls| + 1
            && forall c :: c in r.w.calls ==> !c.Refused?)
  {
    hide Turns, Heard;
    var st, w := Start(env.cfg), Opening(env.cfg, script);
    assert w.sent == [st.req];
    TurnsAccounted(env, st, w, n);
    TurnsHear(env, st, w, n);
    var calls := Turns(env, st, w, n).w.calls;
    assert calls[0..] == calls;
  }
}
