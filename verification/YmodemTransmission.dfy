/** What each answer makes ymodem_transmit do, on every input: where it goes on, what it writes, and why
    it returns. */
module YmodemTransmission {
  import opened Serial
  import opened Checks
  import opened Metadata
  import opened XmodemFrames
  import opened YmodemBlock0
  import opened YmodemTransmitter

  /** ymodem_transmit after at most `n` answers. */
  function Turns(step: CrcStep, files: seq<File>, at: Point, w: Wire, n: nat): (r: Situation)
    requires Sensible(files, at)
    ensures Sensible(files, r.0)
    decreases n
  {
    if n == 0 || at.Finished? then (at, w)
    else
      var (at', w') := Step(step, files, at, Head(w.script), w.Leaves(Tail(w.script)));
      Turns(step, files, at', w', n - 1)
  }

  function At(step: CrcStep, files: seq<File>, script: seq<Event>, n: nat): (r: Situation)
    ensures Sensible(files, r.0)
  {
    Turns(step, files, AwaitC(0, 0), World(script, [], []), n)
  }

  // ----- what is written -----

  /** The block of a file at offset 1024 k: 1024 bytes, or 128 if at most 128 remain, filled up with
      0x1A; its number is k + 1. */
  function DataBlock(step: CrcStep, content: seq<byte>, k: nat): seq<byte>
    requires 1024 * k < |content|
  {
    var rest := content[1024 * k..];
    var size := if |rest| > 128 then 1024 else 128;
    Frame(step, true, Num(k + 1), if |rest| >= size then rest[..size] else rest + Repeat(size - |rest|, 0x1A))
  }

  /** Where the transmitter goes after `k` blocks of file `i`, and what it writes: the next block, or EOT. */
  predicate Proceeds(step: CrcStep, files: seq<File>, i: nat, k: nat, at: Point, wire: seq<byte>)
    requires i < |files|
  {
    if 1024 * k < |files[i].content| then
      at == AwaitAck(i, 1024 * k, Num(k + 1), 0) && wire == DataBlock(step, files[i].content, k)
    else at == AwaitNak(i) && wire == [EOT]
  }

  /** The effect of an answer. Only 'C' starts a file, Block 0 and the 'C' after it are asked for once, a
      block is written up to ten times until it is acknowledged, a second EOT answers NAK, and success
      is the ACK to the Block 0 that ends the batch. */
  predicate Answered(step: CrcStep, files: seq<File>, at: Point, e: Event, at': Point, wire: seq<byte>)
    requires Sensible(files, at)
  {
    match at
    case AwaitC(i, t) =>
      if e == Byte(CRC_REQUEST) then
        && at' == AwaitAck0(i)
        && wire == Frame(step, true, 0, if Ends(files, i) then Repeat(128, 0) else Block0(files[i]))
      else
        wire == [] && at' == if e == Byte(CAN) then Finished(Cancelled)
                             else if t < 9 then AwaitC(i, t + 1) else Finished(TimedOut)
    case AwaitAck0(i) =>
      wire == [] && at' == if e != Byte(ACK) then Finished(TimedOut)
                           else if Ends(files, i) then Finished(Ok) else AwaitC2(i)
    case AwaitC2(i) =>
      if e == Byte(CRC_REQUEST) then Proceeds(step, files, i, 0, at', wire)
      else wire == [] && at' == Finished(TimedOut)
    case AwaitAck(i, offset, _, t) =>
      var k := offset / 1024;
      if e == Byte(ACK) then Proceeds(step, files, i, k + 1, at', wire)
      else if e == Byte(CAN) then wire == [] && at' == Finished(Cancelled)
      else if t < 9 then
        && 1024 * k < |files[i].content| && at' == AwaitAck(i, 1024 * k, Num(k + 1), t + 1)
        && wire == DataBlock(step, files[i].content, k)
      else wire == [] && at' == Finished(TimedOut)
    case AwaitNak(i) =>
      if e == Byte(NAK) then wire == [EOT] && at' == AwaitLast(i) else wire == [] && at' == AwaitC(i + 1, 0)
    case AwaitLast(i) => wire == [] && at' == AwaitC(i + 1, 0)
    case Finished(_) => wire == [] && at' == at
  }

  // ----- the proof -----

  /** Between blocks the offset is a multiple of 1024 that the number follows. */
  predicate Aligned(at: Point) {
    at.AwaitAck? ==> at.offset == 1024 * (at.offset / 1024) && at.block == Num(at.offset / 1024 + 1) && at.retries < 10
  }

  lemma BlockIs(step: CrcStep, content: seq<byte>, k: nat)
    requires 1024 * k < |content|
    ensures Frame(step, true, Num(k + 1), BlockAt(content, 1024 * k)) == DataBlock(step, content, k)
  {
    hide Frame;
    var rest := content[1024 * k..];
    var size := if |rest| > 128 then 1024 else 128;
    var n := Min(|rest|, size);
    assert content[1024 * k..1024 * k + n] == rest[..n];
    if |rest| >= size {
      assert rest[..n] + Repeat(0, 0x1A) == rest[..size];
    } else {
      assert rest[..n] == rest;
    }
  }

  lemma NextProceeds(step: CrcStep, files: seq<File>, i: nat, k: nat, w: Wire)
    requires i < |files|
    ensures var (at, w') := NextBlock(step, files, i, 1024 * k, Num(k + 1), w);
      && Grown(w.sent, w'.sent)
      && Proceeds(step, files, i, k, at, w'.sent[|w.sent|..]) && Aligned(at)
  {
    hide Frame, BlockAt;
    if 1024 * k < |files[i].content| {
      BlockIs(step, files[i].content, k);
    }
  }

  /** The offset after a block: the next multiple of 1024, or the end of the file. */
  lemma NextOffset(step: CrcStep, files: seq<File>, i: nat, k: nat, w: Wire)
    requires i < |files| && 1024 * k < |files[i].content|
    ensures var remaining := |files[i].content| - 1024 * k;
      var next := 1024 * k + Min(remaining, BlockSize(remaining));
      NextBlock(step, files, i, next, Inc(Num(k + 1)), w) == NextBlock(step, files, i, 1024 * (k + 1), Num(k + 2), w)
  {
    hide SendBlock;
    NumSteps(k + 1);
  }

  /** What a step has written since `w`. */
  predicate Grown(sent: seq<byte>, sent': seq<byte>) {
    |sent'| >= |sent| && sent'[..|sent|] == sent
  }

  lemma BlockAnswered(step: CrcStep, files: seq<File>, at: Point, e: Event, w: Wire)
    requires Sensible(files, at) && Aligned(at) && at.AwaitAck?
    ensures var (at', w') := Step(step, files, at, e, w);
      Grown(w.sent, w'.sent) && Answered(step, files, at, e, at', w'.sent[|w.sent|..]) && Aligned(at')
  {
    hide Frame, BlockAt, NextBlock, DataBlock, Proceeds, Num;
    var i, k := at.idx, at.offset / 1024;
    if e == Byte(ACK) {
      NextProceeds(step, files, i, k + 1, w);
      NextOffset(step, files, i, k, w);
    } else {
      BlockIs(step, files[i].content, k);
    }
  }

  lemma StepAnswered(step: CrcStep, files: seq<File>, at: Point, e: Event, w: Wire)
    requires Sensible(files, at) && Aligned(at)
    ensures var (at', w') := Step(step, files, at, e, w);
      Grown(w.sent, w'.sent) && Answered(step, files, at, e, at', w'.sent[|w.sent|..]) && Aligned(at')
  {
    hide Frame, Block0, NextBlock, BatchOver, Ends, DataBlock, Proceeds;
    if at.AwaitC? || at.AwaitAck0? {
      EndsIs(files, at.idx);
    } else if at.AwaitAck? {
      BlockAnswered(step, files, at, e, w);
    } else if at.AwaitC2? {
      NextProceeds(step, files, at.idx, 0, w);
      assert Num(1) == 1;
    }
  }

  lemma {:induction false} TurnsNext(step: CrcStep, files: seq<File>, at: Point, w: Wire, n: nat)
    requires Sensible(files, at)
    ensures Turns(step, files, at, w, n + 1) ==
      var (at', w') := Turns(step, files, at, w, n);
      if at'.Finished? then (at', w') else Step(step, files, at', Head(w'.script), w'.Leaves(Tail(w'.script)))
    decreases n
  {
    hide Step;
    if !at.Finished? {
      var (at', w') := Step(step, files, at, Head(w.script), w.Leaves(Tail(w.script)));
      if n == 0 {
        assert Turns(step, files, at, w, 1) == Turns(step, files, at', w', 0);
      } else {
        TurnsNext(step, files, at', w', n - 1);
      }
    }
  }

  lemma {:induction false} AlwaysAligned(step: CrcStep, files: seq<File>, script: seq<Event>, n: nat)
    ensures Aligned(At(step, files, script, n).0)
    decreases n
  {
    hide Step, Turns, Answered;
    if n == 0 {
      assert At(step, files, script, 0) == (AwaitC(0, 0), World(script, [], [])) by { NoTurns(step, files, script); }
    } else {
      AlwaysAligned(step, files, script, n - 1);
      TurnsNext(step, files, AwaitC(0, 0), World(script, [], []), n - 1);
      var (at, w) := At(step, files, script, n - 1);
      StepAnswered(step, files, at, Head(w.script), w.Leaves(Tail(w.script)));
    }
  }

  lemma NoTurns(step: CrcStep, files: seq<File>, script: seq<Event>)
    ensures At(step, files, script, 0) == (AwaitC(0, 0), World(script, [], []))
  {
  }

  /** On every input, each answer has just its effect. */
  lemma EveryAnswer(step: CrcStep, files: seq<File>, script: seq<Event>, n: nat)
    requires !At(step, files, script, n).0.Finished?
    ensures var (at, w) := At(step, files, script, n);
      var (at', w') := At(step, files, script, n + 1);
      && Grown(w.sent, w'.sent) && w'.script == Tail(w.script)
      && Answered(step, files, at, Head(w.script), at', w'.sent[|w.sent|..])
  {
    hide Step, Turns, Answered;
    AlwaysAligned(step, files, script, n);
    TurnsNext(step, files, AwaitC(0, 0), World(script, [], []), n);
    var (at, w) := At(step, files, script, n);
    StepAnswered(step, files, at, Head(w.script), w.Leaves(Tail(w.script)));
  }

  lemma {:induction false} RunIsTurns(step: CrcStep, files: seq<File>, at: Point, w: Wire) returns (n: nat)
    requires Sensible(files, at)
    ensures var out := Run(step, files, at, w); Turns(step, files, at, w, n) == (Finished(out.0), out.1)
    decreases |w.script|, Patience(at)
  {
    hide Step;
    n := 0;
    if !at.Finished? {
      SilenceEnds(step, files, at, w.Leaves(Tail(w.script)));
      var (at', w') := Step(step, files, at, Head(w.script), w.Leaves(Tail(w.script)));
      var m := RunIsTurns(step, files, at', w');
      n := m + 1;
    }
  }

  /** ymodem_transmit is where these answers lead. */
  lemma TransmitIsTurns(step: CrcStep, files: seq<File>, script: seq<Event>) returns (n: nat)
    ensures var (status, w) := Transmit(step, files, World(script, [], []));
      At(step, files, script, n) == (Finished(status), w)
  {
    hide Run, Turns;
    n := RunIsTurns(step, files, AwaitC(0, 0), World(script, [], []));
  }
}
