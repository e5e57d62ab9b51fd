/** Which faults end a YMODEM transmission: those that the C code answers by giving up, each for every
    run that comes to it, and how much of the others it stands. */
module YmodemFaults {
  import opened Checks
  import opened Metadata
  import opened XmodemFrames
  import opened YmodemLink
  import opened YmodemCourse
  import opened YmodemDelivery
  import T = YmodemTransmitter

  lemma CourseNext(blocks: seq<nat>, heard: bool, rounds: seq<Round>, r: Round)
    ensures CourseOf(blocks, heard, rounds + [r]) == Next(blocks, CourseOf(blocks, heard, rounds), r)
  {
    hide Next;
    assert (rounds + [r])[..|rounds|] == rounds;
  }

  /** Once the course has failed no continuation lets ymodem_transmit return OK. */
  lemma FailedForGood(step: CrcStep, files: seq<File>, heard: bool, rounds: seq<Round>, more: seq<Round>)
    requires Sendable(files) && PlausibleRun(step, files, heard, rounds + more)
    requires CourseOf(BlockCounts(files), heard, rounds) == Failed
    ensures PlayAll(step, files, heard, rounds + more).tx != T.Finished(T.Ok)
  {
    hide PlayAll, PlausibleRun, CourseOf;
    CourseStays(BlockCounts(files), heard, rounds, more);
    CourseDecides(step, files, heard, rounds + more);
  }

  /** Block 0 is sent once: the batch survives its round exactly when it, its ACK and, for a file, the
      'C' after the ACK all arrive. */
  lemma HeaderFaultEnds(step: CrcStep, files: seq<File>, heard: bool, rounds: seq<Round>, r: Round, more: seq<Round>)
    requires Sendable(files) && PlausibleRun(step, files, heard, rounds + [r] + more)
    requires CourseOf(BlockCounts(files), heard, rounds).Heading?
    ensures var i := CourseOf(BlockCounts(files), heard, rounds).i;
      var arrives := r.fate == Intact && EchoAt(r, 0) == Clear && (i < |files| ==> EchoAt(r, 1) == Clear);
      && (CourseOf(BlockCounts(files), heard, rounds + [r]) != Failed <==> arrives)
      && (!arrives ==> PlayAll(step, files, heard, rounds + [r] + more).tx != T.Finished(T.Ok))
  {
    hide PlayAll, PlausibleRun, CourseOf, EchoAt;
    CourseNext(BlockCounts(files), heard, rounds, r);
    if CourseOf(BlockCounts(files), heard, rounds + [r]) == Failed {
      FailedForGood(step, files, heard, rounds + [r], more);
    }
  }

  /** A round that does not acknowledge the data block it carries, nor cancels. */
  predicate Unacknowledged(r: Round) {
    !(r.fate == Intact && EchoAt(r, 0) == Clear) && EchoAt(r, 0) != Altered(CAN)
  }

  lemma {:induction false} AttemptsCount(blocks: seq<nat>, heard: bool, rounds: seq<Round>, tries: seq<Round>)
    requires var at := CourseOf(blocks, heard, rounds); at.Sending? && at.t == 0 && at.c == 0
    requires forall r :: r in tries ==> Unacknowledged(r)
    ensures var at, at' := CourseOf(blocks, heard, rounds), CourseOf(blocks, heard, rounds + tries);
      if |tries| < T.MAX_RETRIES then
        at'.Sending? && at'.i == at.i && at'.k == at.k && at'.t == |tries| && at'.c <= |tries|
      else at' == Failed
    decreases |tries|
  {
    hide CourseOf, EchoAt;
    if tries == [] {
      assert rounds + tries == rounds;
    } else {
      var before, r := tries[..|tries| - 1], tries[|tries| - 1];
      assert rounds + tries == rounds + before + [r] && r in tries;
      AttemptsCount(blocks, heard, rounds, before);
      CourseNext(blocks, heard, rounds + before, r);
    }
  }

  /** A data block that the receiver has just begun to wait for survives nine attempts in a row that
      bring no acknowledgement, for whatever reasons, and not the tenth. */
  lemma AttemptsExactly(step: CrcStep, files: seq<File>, heard: bool, rounds: seq<Round>, tries: seq<Round>,
                        more: seq<Round>)
    requires Sendable(files) && PlausibleRun(step, files, heard, rounds + tries + more)
    requires var at := CourseOf(BlockCounts(files), heard, rounds); at.Sending? && at.t == 0 && at.c == 0
    requires forall r :: r in tries ==> Unacknowledged(r)
    ensures CourseOf(BlockCounts(files), heard, rounds + tries) != Failed <==> |tries| <= 9
    ensures |tries| > 9 ==> PlayAll(step, files, heard, rounds + tries + more).tx != T.Finished(T.Ok)
  {
    hide PlayAll, PlausibleRun, CourseOf, Unacknowledged;
    AttemptsCount(BlockCounts(files), heard, rounds, tries);
    if |tries| > 9 {
      FailedForGood(step, files, heard, rounds + tries, more);
    }
  }

  /** The transmitter has read the NAK that makes it send a second EOT. */
  predicate Refused(r: Round) {
    EchoAt(r, 0) == Clear || EchoAt(r, 0) == Altered(NAK)
  }

  /** The cancel that a file's last two rounds may bring: in place of the reply to the second EOT, or of
      the 'C' after it. */
  predicate Cancels(first: Round, second: Round) {
    && first.fate == Intact
    && if Refused(first) then EchoAt(second, 0) != Gone && EchoAt(second, 1) == Altered(CAN)
       else EchoAt(second, 0) == Altered(CAN) || EchoAt(second, 1) == Altered(CAN)
  }

  /** A file's end survives two rounds exactly when one of them brings an EOT, the second only if the NAK
      for the first came through, and no cancel is heard: a lost NAK, ACK or second EOT is made good. */
  lemma EotFaultsEnd(step: CrcStep, files: seq<File>, heard: bool, rounds: seq<Round>, first: Round, second: Round,
                     more: seq<Round>)
    requires Sendable(files) && PlausibleRun(step, files, heard, rounds + [first] + [second] + more)
    requires var at := CourseOf(BlockCounts(files), heard, rounds); at.Ending? && at.c < 10
    ensures var survives :=
        (first.fate == Intact || (second.fate == Intact && Refused(first))) && !Cancels(first, second);
      && (CourseOf(BlockCounts(files), heard, rounds + [first] + [second]) != Failed <==> survives)
      && (!survives ==>
            PlayAll(step, files, heard, rounds + [first] + [second] + more).tx != T.Finished(T.Ok))
  {
    hide PlayAll, PlausibleRun, CourseOf, EchoAt;
    CourseNext(BlockCounts(files), heard, rounds, first);
    CourseNext(BlockCounts(files), heard, rounds + [first], second);
    if CourseOf(BlockCounts(files), heard, rounds + [first] + [second]) == Failed {
      FailedForGood(step, files, heard, rounds + [first] + [second], more);
    }
  }
}
