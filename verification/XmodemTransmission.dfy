/** What xmodem_transmit has written and fetched after any number of answers, on every input, and what
    each answer makes it do. */
module XmodemTransmission {
  import opened Serial
  import opened XmodemFrames
  import opened XmodemReceiver
  import opened XmodemTransmitter

  /** The transmitter after `n` answers. */
  function At(env: TxEnv, script: seq<Event>, n: nat): Situation {
    TxTurns(env, TxState(0, AwaitStart(0)), World(script, [], []), n)
  }

  function Copies(n: nat, bs: seq<byte>): seq<byte> {
    if n == 0 then [] else Copies(n - 1, bs) + bs
  }

  /** Block 0, block 1 and so on, each as often as `tries` says. */
  function Bursts(env: TxEnv, crcMode: bool, tries: seq<nat>): seq<byte> {
    if tries == [] then []
    else
      var k := |tries| - 1;
      Bursts(env, crcMode, tries[..k]) + Copies(tries[k], Frame(env.step, crcMode, Num(k + 1), Payload(env, k)))
  }

  /** data_cb was asked for the blocks before `k`. */
  function Fetches(env: TxEnv, k: nat): seq<Fetch> {
    if k == 0 then [] else Fetches(env, k - 1) + [Fetch(Num(k), if env.cfg.mode == OneK then 1024 else 128)]
  }

  // ----- where the file ends -----

  /** With a length given, block `k` begins before it; without one, there may always be more. */
  predicate Within(env: TxEnv, k: nat) {
    env.totalLen == 0 || k * (if env.cfg.mode == OneK then 1024 else 128) < env.totalLen
  }

  /** data_cb has a block `k`; where no length is given, 0 bytes after the first block mean the end. */
  predicate Sent(env: TxEnv, k: nat) {
    Within(env, k) && (env.source(k).code > 0 || (env.source(k).code == 0 && (env.totalLen > 0 || k == 0)))
  }

  predicate Unreadable(env: TxEnv, k: nat) {
    Within(env, k) && env.source(k).code < 0
  }

  /** Blocks fetched, when there are none after the first `k`: data_cb is asked in vain if no length is
      given. */
  function FetchedAtEnd(env: TxEnv, k: nat): seq<Fetch> {
    if Within(env, k) then Fetches(env, k + 1) else Fetches(env, k)
  }

  // ----- what has been written -----

  /** Every block that was begun has been written at most max_retries times, all but the last until it
      was acknowledged. */
  predicate Tried(env: TxEnv, tries: seq<nat>) {
    forall k :: 0 <= k < |tries| ==> Sent(env, k) && tries[k] <= env.cfg.maxRetries
  }

  /** What waits and returns look like from outside. */
  ghost predicate Shape(env: TxEnv, crcMode: bool, tries: seq<nat>, st: TxState, w: World<Fetch>) {
    var k, sent, max := |tries|, Bursts(env, crcMode, tries), env.cfg.maxRetries as nat;
    && Tried(env, tries)
    && match st.phase
       case AwaitStart(_) => tries == [] && st.acked == 0 && w.sent == [] && w.calls == []
       case AwaitAck(crc, t) =>
         && crc == crcMode && k == st.acked + 1 && tries[k - 1] == t + 1
         && w.sent == sent && w.calls == Fetches(env, k)
       case AwaitEotAck(t) =>
         && k == st.acked && !Sent(env, k) && !Unreadable(env, k) && t < max
         && w.sent == sent + Copies(t + 1, [EOT]) && w.calls == FetchedAtEnd(env, k)
       case Finished(Delivered) =>
         && !Sent(env, k) && !Unreadable(env, k) && w.calls == FetchedAtEnd(env, k)
         && exists e: nat :: 0 < e <= max && w.sent == sent + Copies(e, [EOT])
       case Finished(GaveUp) =>
         || (tries == [] && w.sent == [] && w.calls == [])
         || (k > 0 && tries[k - 1] == max && w.sent == sent + [CAN] && w.calls == Fetches(env, k))
         || (!Sent(env, k) && !Unreadable(env, k)
             && w.sent == sent + Copies(max, [EOT]) && w.calls == FetchedAtEnd(env, k))
       case Finished(ReadFailed) =>
         Unreadable(env, k) && w.sent == sent + [CAN] && w.calls == Fetches(env, k + 1)
       case Finished(PeerCancelled) =>
         (w.sent == sent || w.sent == sent + [CAN, CAN]) && w.calls == Fetches(env, k)
  }

  // ----- what an answer does -----

  /** After `k` acknowledged blocks. */
  predicate Begins(env: TxEnv, k: nat, crcMode: bool, st: TxState) {
    && st.acked == k
    && st.phase == if Unreadable(env, k) then Finished(ReadFailed)
                   else if env.cfg.maxRetries == 0 then Finished(GaveUp)
                   else if Sent(env, k) then AwaitAck(crcMode, 0)
                   else AwaitEotAck(0)
  }

  predicate Answered(env: TxEnv, st: TxState, e: Event, st': TxState) {
    var max := env.cfg.maxRetries;
    match st.phase
    case AwaitStart(t) =>
      if e == Byte(CRC_REQUEST) || e == Byte(NAK) then Begins(env, 0, e == Byte(CRC_REQUEST), st')
      else st'.phase == if e == Byte(CAN) then Finished(PeerCancelled)
                        else if (t + 1) % 256 > max then Finished(GaveUp)
                        else AwaitStart((t + 1) % 256)
    case AwaitAck(crcMode, t) =>
      if e == Byte(ACK) then Begins(env, st.acked + 1, crcMode, st')
      else st'.phase == if e == Byte(CAN) || e == Cancel then Finished(PeerCancelled)
                        else if t + 1 >= max then Finished(GaveUp)
                        else AwaitAck(crcMode, t + 1)
    case AwaitEotAck(t) =>
      st'.phase == if e == Byte(ACK) then Finished(Delivered)
                   else if t + 1 >= max then Finished(GaveUp)
                   else AwaitEotAck(t + 1)
    case Finished(_) => st' == st
  }

  /** Of the cancels only a request that answers a block is itself answered. */
  predicate Parting(st: TxState, e: Event, st': TxState, sent: seq<byte>, sent': seq<byte>) {
    !st.phase.Finished? && st'.phase == Finished(PeerCancelled) ==>
      sent' == sent + if st.phase.AwaitAck? && e == Cancel then [CAN, CAN] else []
  }

  // ----- the proof -----

  /** The three ways in which the next block begins. */
  lemma NextCases(env: TxEnv, k: nat, crcMode: bool, w: World<Fetch>)
    requires w.calls == Fetches(env, k)
    ensures var r, w1 := NextBlock(env, k, crcMode, w), World(w.script, w.sent, Fetches(env, k + 1));
      && (Unreadable(env, k) ==> r == (TxState(k, Finished(ReadFailed)), w1.Sends([CAN])))
      && (Sent(env, k) ==> r == SendBlock(env, k, crcMode, 0, w1))
      && (!Unreadable(env, k) && !Sent(env, k) ==>
            r == SendEot(env, k, 0, World(w.script, w.sent, FetchedAtEnd(env, k))))
  {
    hide SendBlock, SendEot;
  }

  lemma TriedMore(env: TxEnv, crcMode: bool, tries: seq<nat>, t: nat)
    requires Tried(env, tries) && Sent(env, |tries|) && t <= env.cfg.maxRetries
    ensures Tried(env, tries + [t])
    ensures var k := |tries|;
      Bursts(env, crcMode, tries + [t])
      == Bursts(env, crcMode, tries) + Copies(t, Frame(env.step, crcMode, Num(k + 1), Payload(env, k)))
  {
    hide Sent, Frame, Copies, Payload, Num;
    assert (tries + [t])[..|tries|] == tries;
  }

  lemma NextIsSent(env: TxEnv, k: nat, crcMode: bool, tries: seq<nat>, w: World<Fetch>) returns (tries': seq<nat>)
    requires Tried(env, tries) && |tries| == k && w.sent == Bursts(env, crcMode, tries) && w.calls == Fetches(env, k)
    ensures var (st, w') := NextBlock(env, k, crcMode, w);
      Begins(env, k, crcMode, st) && Shape(env, crcMode, tries', st, w')
  {
    hide Frame, Payload, Num, NextBlock, Fetches, Bursts, Tried, Copies, FetchedAtEnd;
    NextCases(env, k, crcMode, w);
    CopiesOne(Frame(env.step, crcMode, Num(k + 1), Payload(env, k)));
    CopiesOne([EOT]);
    assert w.sent + [] == w.sent;
    if Sent(env, k) {
      var t: nat := if env.cfg.maxRetries > 0 then 1 else 0;
      TriedMore(env, crcMode, tries, t);
      tries' := tries + [t];
    } else {
      tries' := tries;
    }
  }

  lemma CopiesOne(bs: seq<byte>)
    ensures Copies(0, bs) == [] && Copies(1, bs) == bs
  {
    assert [] + bs == bs;
  }

  lemma CopiesMore(n: nat, bs: seq<byte>, sent: seq<byte>)
    ensures sent + Copies(n, bs) + bs == sent + Copies(n + 1, bs)
  {
  }

  lemma TriedAgain(env: TxEnv, crcMode: bool, tries: seq<nat>)
    requires Tried(env, tries) && tries != [] && tries[|tries| - 1] < env.cfg.maxRetries
    ensures var k := |tries| - 1;
      var tries' := tries[..k] + [tries[k] + 1];
      && Tried(env, tries')
      && Bursts(env, crcMode, tries')
         == Bursts(env, crcMode, tries) + Frame(env.step, crcMode, Num(k + 1), Payload(env, k))
  {
    hide Sent, Frame, Payload, Num, Copies;
    var k := |tries| - 1;
    var tries' := tries[..k] + [tries[k] + 1];
    assert tries'[..k] == tries[..k];
    CopiesMore(tries[k], Frame(env.step, crcMode, Num(k + 1), Payload(env, k)), Bursts(env, crcMode, tries[..k]));
  }

  /** An answer to the wait for the start byte. */
  lemma StartAnswered(env: TxEnv, crcMode: bool, tries: seq<nat>, st: TxState, e: Event, w: World<Fetch>)
    returns (crcMode': bool, tries': seq<nat>)
    requires Shape(env, crcMode, tries, st, w) && st.phase.AwaitStart?
    ensures var (st', w') := TxStep(env, st, e, w); Answered(env, st, e, st') && Shape(env, crcMode', tries', st', w')
  {
    hide NextBlock, Frame, Payload, Copies;
    crcMode', tries' := crcMode, tries;
    if e == Byte(CRC_REQUEST) || e == Byte(NAK) {
      crcMode' := e == Byte(CRC_REQUEST);
      tries' := NextIsSent(env, 0, crcMode', [], w);
    }
  }

  /** An answer to a block. */
  lemma BlockAnswered(env: TxEnv, crcMode: bool, tries: seq<nat>, st: TxState, e: Event, w: World<Fetch>)
    returns (tries': seq<nat>)
    requires Shape(env, crcMode, tries, st, w) && st.phase.AwaitAck?
    ensures var (st', w') := TxStep(env, st, e, w); Answered(env, st, e, st') && Shape(env, crcMode, tries', st', w')
  {
    hide NextBlock, Frame, Payload, Copies, Bursts, Fetches, Tried, Sent;
    var k := |tries| - 1;
    tries' := tries;
    if e == Byte(ACK) {
      tries' := NextIsSent(env, k + 1, crcMode, tries, w);
    } else if e != Cancel && e != Byte(CAN) && st.phase.retries + 1 < env.cfg.maxRetries {
      tries' := tries[..k] + [tries[k] + 1];
      TriedAgain(env, crcMode, tries);
    } else {
      LastTry(env, tries);
    }
  }

  lemma LastTry(env: TxEnv, tries: seq<nat>)
    requires Tried(env, tries) && tries != []
    ensures tries[|tries| - 1] <= env.cfg.maxRetries
  {
    hide Sent;
  }

  /** An answer to EOT. */
  lemma EotAnswered(env: TxEnv, crcMode: bool, tries: seq<nat>, st: TxState, e: Event, w: World<Fetch>)
    requires Shape(env, crcMode, tries, st, w) && st.phase.AwaitEotAck?
    ensures var (st', w') := TxStep(env, st, e, w); Answered(env, st, e, st') && Shape(env, crcMode, tries, st', w')
  {
    hide NextBlock, Copies, Bursts, Fetches, FetchedAtEnd, Tried, Sent, Unreadable;
    var t: nat := st.phase.retries;
    CopiesMore(t + 1, [EOT], Bursts(env, crcMode, tries));
  }

  // ----- runs -----

  lemma {:induction false} TurnsNext(env: TxEnv, st: TxState, w: World<Fetch>, n: nat)
    ensures TxTurns(env, st, w, n + 1) ==
      var (st', w') := TxTurns(env, st, w, n);
      if st'.phase.Finished? then (st', w') else TxStep(env, st', Head(w'.script), w'.Leaves(Tail(w'.script)))
    decreases n
  {
    hide TxStep;
    if !st.phase.Finished? {
      var (st', w') := TxStep(env, st, Head(w.script), w.Leaves(Tail(w.script)));
      if n == 0 {
        assert TxTurns(env, st, w, 1) == TxTurns(env, st', w', 0);
      } else {
        TurnsNext(env, st', w', n - 1);
      }
    }
  }

  /** One answer, whatever the transmitter waits for. */
  lemma AnswerKeepsShape(env: TxEnv, crcMode: bool, tries: seq<nat>, st: TxState, e: Event, w: World<Fetch>)
    returns (crcMode': bool, tries': seq<nat>)
    requires Shape(env, crcMode, tries, st, w) && !st.phase.Finished?
    ensures var (st', w') := TxStep(env, st, e, w);
      && Answered(env, st, e, st') && Shape(env, crcMode', tries', st', w') && Parting(st, e, st', w.sent, w'.sent)
  {
    hide TxStep, Shape, Parting;
    crcMode', tries' := crcMode, tries;
    match st.phase {
      case AwaitStart(_) => crcMode', tries' := StartAnswered(env, crcMode, tries, st, e, w);
      case AwaitAck(_, _) => tries' := BlockAnswered(env, crcMode, tries, st, e, w);
      case AwaitEotAck(_) => EotAnswered(env, crcMode, tries, st, e, w);
    }
    CancelParts(env, st, e, w);
  }

  lemma CancelParts(env: TxEnv, st: TxState, e: Event, w: World<Fetch>)
    ensures var (st', w') := TxStep(env, st, e, w); Parting(st, e, st', w.sent, w'.sent)
  {
    hide Frame, Payload;
    assert w.sent + [] == w.sent;
  }

  lemma ShapeLeaves(env: TxEnv, crcMode: bool, tries: seq<nat>, st: TxState, w: World<Fetch>, s: seq<Event>)
    requires Shape(env, crcMode, tries, st, w)
    ensures Shape(env, crcMode, tries, st, w.Leaves(s))
  {
    hide Tried, Bursts, Fetches, FetchedAtEnd, Copies, Sent, Unreadable;
  }

  /** On every input and after any number of answers: xmodem_transmit has written every block that it has
      begun, in order and each at most max_retries times, then EOTs or the CANs that belong to its return;
      it has fetched just those blocks; and it sends EOT only where the file ends. */
  lemma {:induction false} TransmitOnAnyInput(env: TxEnv, script: seq<Event>, n: nat)
    returns (crcMode: bool, tries: seq<nat>)
    ensures Shape(env, crcMode, tries, At(env, script, n).0, At(env, script, n).1)
    decreases n
  {
    hide TxStep, Shape, TxTurns;
    if n == 0 {
      crcMode, tries := true, [];
      StartShaped(env, script);
    } else {
      crcMode, tries := TransmitOnAnyInput(env, script, n - 1);
      TurnsNext(env, TxState(0, AwaitStart(0)), World(script, [], []), n - 1);
      var (st, w) := At(env, script, n - 1);
      if !st.phase.Finished? {
        ShapeLeaves(env, crcMode, tries, st, w, Tail(w.script));
        crcMode, tries := AnswerKeepsShape(env, crcMode, tries, st, Head(w.script), w.Leaves(Tail(w.script)));
      }
    }
  }

  lemma StartShaped(env: TxEnv, script: seq<Event>)
    ensures At(env, script, 0) == (TxState(0, AwaitStart(0)), World(script, [], []))
    ensures Shape(env, true, [], TxState(0, AwaitStart(0)), World(script, [], []))
  {
  }

  /** And each answer takes it where that answer must: on to the next block with ACK, which is the only way
      on and from EOT the only way to success, again to the same packet with anything else as long as it
      may, and out with CAN. */
  lemma EveryAnswer(env: TxEnv, script: seq<Event>, n: nat)
    requires !At(env, script, n).0.phase.Finished?
    ensures var (st, w) := At(env, script, n);
      var (st', w') := At(env, script, n + 1);
      && Answered(env, st, Head(w.script), st') && w'.script == Tail(w.script)
      && Parting(st, Head(w.script), st', w.sent, w'.sent)
  {
    hide TxStep, Shape, TxTurns, Answered, Parting;
    var (st, w) := At(env, script, n);
    var crcMode, tries := TransmitOnAnyInput(env, script, n);
    TurnsNext(env, TxState(0, AwaitStart(0)), World(script, [], []), n);
    ShapeLeaves(env, crcMode, tries, st, w, Tail(w.script));
    crcMode, tries := AnswerKeepsShape(env, crcMode, tries, st, Head(w.script), w.Leaves(Tail(w.script)));
  }
}
