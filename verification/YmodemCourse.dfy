/** How far a YMODEM batch gets over a faulty line, read off the faults and the numbers of blocks
    alone: the retries that the two functions count, the faults they repair, and the faults that end
    the transmission. */
module YmodemCourse {
  import opened XmodemFrames
  import opened YmodemLink
  import R = YmodemReceiver
  import T = YmodemTransmitter

  /** Where the batch is. Asking: the transmitter waits for 'C' with `t` retries, the receiver for
      Block 0 with `h`. Unsure: it waits for 'C', the receiver for a second EOT. Heading: Block 0 is
      on the line. Sending: block `k` of a file is, for the t-th time, while the receiver has counted
      `c` retries and holds the block or not. Ending: the first EOT is. Missed: the second is, and
      the receiver has missed the first. Closing: the second is, and it has not. */
  datatype Course =
    | Asking(i: nat, t: nat, h: nat)
    | Unsure(i: nat)
    | Heading(i: nat, h: nat)
    | Sending(i: nat, k: nat, t: nat, c: nat, held: bool)
    | Ending(i: nat, c: nat)
    | Missed(i: nat, c: nat)
    | Closing(i: nat)
    | Done
    | Failed

  /** Where a round takes it; `blocks` are the numbers of blocks of the files. */
  function Next(blocks: seq<nat>, at: Course, r: Round): Course {
    var first, second := EchoAt(r, 0), EchoAt(r, 1);
    match at
    case Asking(i, t, h) =>
      if h + 1 >= R.MAX_RETRIES || first == Altered(CAN) then Failed
      else if first == Clear then Heading(i, h + 1)
      else if t + 1 < T.MAX_RETRIES then Asking(i, t + 1, h + 1)
      else Failed
    case Unsure(i) =>
      if first == Altered(CAN) || second == Altered(CAN) then Failed
      else if second == Clear then Heading(i, 0)
      else Asking(i, if first != Gone && second != Gone then 2 else 1, 0)
    case Heading(i, h) =>
      if r.fate != Intact || first != Clear then Failed
      else if i >= |blocks| then Done
      else if second != Clear then Failed
      else if blocks[i] == 0 then Ending(i, h)
      else Sending(i, 0, 0, h, false)
    case Sending(i, k, t, c, held) =>
      if first == Altered(CAN) then Failed
      else if r.fate == Intact && first == Clear then
        if i < |blocks| && k + 1 < blocks[i] then Sending(i, k + 1, 0, if held then c else 0, false)
        else Ending(i, if held then c else 0)
      else if t + 1 >= T.MAX_RETRIES then Failed
      else
        (match r.fate
         case Intact => Sending(i, k, t + 1, if held then c else 0, true)
         case Damaged(_) => Sending(i, k, t + 1, c, held)
         case Lost => if c + 1 > R.MAX_RETRIES then Failed else Sending(i, k, t + 1, c + 1, held))
    case Ending(i, c) =>
      var nak := first == Clear || first == Altered(NAK);
      (match r.fate
       case Intact => if nak then Closing(i) else Unsure(i + 1)
       case Damaged(_) => if nak then Missed(i, c) else Failed
       case Lost => if nak && c + 1 <= R.MAX_RETRIES then Missed(i, c + 1) else Failed)
    case Missed(i, _) => if r.fate == Intact then Unsure(i + 1) else Failed
    case Closing(i) =>
      if first == Gone || second == Gone then Asking(i + 1, 0, 0)
      else if second == Clear then Heading(i + 1, 0)
      else if second == Altered(CAN) then Failed
      else Asking(i + 1, 1, 0)
    case _ => at
  }

  function CourseOf(blocks: seq<nat>, heard: bool, rounds: seq<Round>): Course {
    if rounds == [] then if heard then Heading(0, 0) else Asking(0, 0, 0)
    else Next(blocks, CourseOf(blocks, heard, rounds[..|rounds| - 1]), rounds[|rounds| - 1])
  }

  // ----- progress -----

  /** Good rounds from the header of file `i` to the end of the batch. */
  function BatchRounds(blocks: seq<nat>, i: nat): (n: nat)
    ensures n > 0
    decreases |blocks| - i
  {
    if i >= |blocks| then 1 else 3 + blocks[i] + BatchRounds(blocks, i + 1)
  }

  /** Good rounds still needed. */
  function RoundsLeft(blocks: seq<nat>, at: Course): nat {
    match at
    case Asking(i, _, _) => 1 + BatchRounds(blocks, i)
    case Unsure(i) => 1 + BatchRounds(blocks, i)
    case Heading(i, _) => BatchRounds(blocks, i)
    case Sending(i, k, _, _, _) =>
      2 + BatchRounds(blocks, i + 1) + if i < |blocks| && k < blocks[i] then blocks[i] - k else 0
    case Ending(i, _) => 2 + BatchRounds(blocks, i + 1)
    case Missed(i, _) => 2 + BatchRounds(blocks, i + 1)
    case Closing(i) => 1 + BatchRounds(blocks, i + 1)
    case _ => 0
  }

  /** A data block that exists. */
  predicate Sound(blocks: seq<nat>, at: Course) {
    match at
    case Sending(i, k, _, _, _) => i < |blocks| && k < blocks[i]
    case Ending(i, _) => i < |blocks|
    case Missed(i, _) => i < |blocks|
    case Closing(i) => i < |blocks|
    case _ => true
  }

  lemma GoodEchoes(r: Round)
    ensures Good(r) ==> r.fate == Intact && EchoAt(r, 0) == Clear && EchoAt(r, 1) == Clear
  {
    assert forall k :: 0 <= k < |r.echoes| ==> r.echoes[k] in r.echoes;
  }

  /** A round either fails the batch or does not set it back, and a good one moves it on. */
  lemma NextProgress(blocks: seq<nat>, at: Course, r: Round)
    requires Sound(blocks, at) && at != Done && Next(blocks, at, r) != Failed
    ensures var at' := Next(blocks, at, r);
      Sound(blocks, at') && RoundsLeft(blocks, at') + (if Good(r) then 1 else 0) <= RoundsLeft(blocks, at)
  {
    hide EchoAt;
    GoodEchoes(r);
  }

  function Goods(rounds: seq<Round>): nat {
    if rounds == [] then 0
    else Goods(rounds[..|rounds| - 1]) + if Good(rounds[|rounds| - 1]) then 1 else 0
  }

  /** The good rounds that a batch needs. */
  function Needed(blocks: seq<nat>, heard: bool): nat {
    BatchRounds(blocks, 0) + if heard then 0 else 1
  }

  lemma {:induction false} CourseProgress(blocks: seq<nat>, heard: bool, rounds: seq<Round>)
    ensures var at := CourseOf(blocks, heard, rounds);
      at in {Done, Failed}
      || (Sound(blocks, at) && RoundsLeft(blocks, at) + Goods(rounds) <= Needed(blocks, heard))
    decreases |rounds|
  {
    hide Next, RoundsLeft, Sound, Good, BatchRounds;
    if rounds == [] {
      CourseStarts(blocks, heard);
    } else {
      var before := CourseOf(blocks, heard, rounds[..|rounds| - 1]);
      CourseProgress(blocks, heard, rounds[..|rounds| - 1]);
      EndsStay(blocks, rounds[|rounds| - 1]);
      if before !in {Done, Failed} && CourseOf(blocks, heard, rounds) != Failed {
        NextProgress(blocks, before, rounds[|rounds| - 1]);
      }
    }
  }

  lemma CourseStarts(blocks: seq<nat>, heard: bool)
    ensures var at := CourseOf(blocks, heard, []);
      Sound(blocks, at) && RoundsLeft(blocks, at) == Needed(blocks, heard)
  {
  }

  lemma EndsStay(blocks: seq<nat>, r: Round)
    ensures Next(blocks, Done, r) == Done && Next(blocks, Failed, r) == Failed
  {
  }

  /** With enough good rounds a batch is either done or has failed. */
  lemma EnoughRounds(blocks: seq<nat>, heard: bool, rounds: seq<Round>)
    requires Goods(rounds) >= Needed(blocks, heard)
    ensures CourseOf(blocks, heard, rounds) in {Done, Failed}
  {
    hide CourseOf, Goods, Needed;
    CourseProgress(blocks, heard, rounds);
  }

  /** Whatever follows, a batch that is done or has failed stays so. */
  lemma {:induction false} CourseStays(blocks: seq<nat>, heard: bool, rounds: seq<Round>, more: seq<Round>)
    requires CourseOf(blocks, heard, rounds) in {Done, Failed}
    ensures CourseOf(blocks, heard, rounds + more) == CourseOf(blocks, heard, rounds)
    decreases |more|
  {
    hide Next;
    if more == [] {
      assert rounds + more == rounds;
    } else {
      var all := rounds + more;
      CourseStays(blocks, heard, rounds, more[..|more| - 1]);
      assert all[..|all| - 1] == rounds + more[..|more| - 1];
      EndsStay(blocks, more[|more| - 1]);
    }
  }
}
