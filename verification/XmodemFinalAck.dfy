/** The last message of an XMODEM transfer: the receiver answers EOT with one ACK and returns
    (src/xmodem.c:98-105), so a transmitter that does not get that ACK repeats EOT to nobody and
    gives up (src/xmodem.c:358-369). */
module XmodemFinalAck {
  import opened Serial
  import opened XmodemFrames
  import opened XmodemReceiver
  import opened XmodemTransmitter
  import opened XmodemTrace
  import opened XmodemLink
  import opened XmodemCourse
  import opened XmodemDelivery

  /** Once the receiver has returned and no ACK of its is on the way, no continuation lets the transmitter
      return XMODEM_OK. */
  lemma {:induction false} NothingFollows(ends: Ends, l: Link, rounds: seq<Round>)
    requires l.ear.Closed? && ACK !in l.inbox && l.tx.phase.AwaitEotAck?
    ensures PlayAll(ends, l, rounds).tx.phase != Finished(Delivered)
    ensures var l' := PlayAll(ends, l, rounds);
      l'.ear.Closed? && ACK !in l'.inbox && (l'.tx.phase.AwaitEotAck? || l'.tx.phase.Finished?)
  {
    hide Hear;
    if rounds != [] {
      var before := PlayAll(ends, l, rounds[..|rounds| - 1]);
      NothingFollows(ends, l, rounds[..|rounds| - 1]);
      ClosedIsSilent(ends, before, TxOutput(ends, before), rounds[|rounds| - 1].fate);
    }
  }

  lemma {:induction false} PlayAllOn(ends: Ends, l: Link, a: seq<Round>, b: seq<Round>)
    ensures PlayAll(ends, l, a + b) == PlayAll(ends, PlayAll(ends, l, a), b)
    decreases |b|
  {
    hide Play;
    if b == [] {
      assert a + b == a;
    } else {
      PlayAllOn(ends, l, a, b[..|b| - 1]);
      assert (a + b)[..|a + b| - 1] == a + b[..|b| - 1];
    }
  }

  /** A round that brings EOT to the receiver and loses the reply. */
  lemma FinalAckLost(ends: Ends, l: Link, r: Round)
    requires Compatible(ends) && Inv(ends, l) && !FinalAckArrives(ends, l, r)
    ensures var l' := Play(ends, l, r);
      l'.ear.Closed? && ACK !in l'.inbox && l'.tx.phase.AwaitEotAck?
    ensures l.ear.Listening? ==> Play(ends, l, r).ear == Closed(Ok(l.ear.st.total))
  {
    hide TxStep, Hear, Inv;
    TxHalf(ends, l);
    if l.ear.Listening? {
      HearEot(ends, l.ear.st, l.calls);
    } else {
      ClosedIsSilent(ends, l, TxOutput(ends, l), r.fate);
    }
  }

  /** The final ACK is the one message whose loss separates the ends: a run in which it is lost never
      lets the transmitter return XMODEM_OK, whatever its other rounds bring. */
  lemma LostFinalAck(ends: Ends, heard: bool, rounds: seq<Round>, i: nat)
    requires Compatible(ends) && PlausibleRun(ends, heard, rounds) && Tellable(ends, heard, rounds)
    requires i < |rounds| && !FinalAckArrives(ends, After(ends, heard, rounds[..i]), rounds[i])
    ensures After(ends, heard, rounds).tx.phase != Finished(Delivered)
  {
    hide After, Inv, Play, PlausibleRun, FinalAckArrives, CourseOf, FirstTells, NeverSplit;
    var before, rest := rounds[..i], rounds[i + 1..];
    assert rounds == before + ([rounds[i]] + rest) && rounds == before + [rounds[i]] + rest;
    PrefixInv(ends, heard, rounds, i);
    FinalAckLost(ends, After(ends, heard, before), rounds[i]);
    assert (before + [rounds[i]])[..i] == before;
    UnfoldAfter(ends, heard, before + [rounds[i]]);
    AfterOn(ends, heard, before + [rounds[i]], rest);
    NothingFollows(ends, After(ends, heard, before + [rounds[i]]), rest);
  }

  lemma AfterOn(ends: Ends, heard: bool, a: seq<Round>, b: seq<Round>)
    ensures After(ends, heard, a + b) == PlayAll(ends, After(ends, heard, a), b)
  {
    PlayAllOn(ends, Opened(ends, heard), a, b);
  }

  lemma PrefixInv(ends: Ends, heard: bool, rounds: seq<Round>, i: nat)
    requires Compatible(ends) && PlausibleRun(ends, heard, rounds) && Tellable(ends, heard, rounds) && i <= |rounds|
    ensures Inv(ends, After(ends, heard, rounds[..i]))
  {
    hide After, Inv, Plausible, CourseOf, FirstTells, Split;
    CourseDecides(ends, heard, rounds);
    var before := rounds[..i];
    assert forall j :: 0 <= j <= i ==> before[..j] == rounds[..j];
    assert forall j :: 0 <= j < i ==> before[j] == rounds[j];
    RunKeepsInv(ends, heard, before);
  }

  // ----- a run for every file -----

  /** No round acknowledges more than one block, and the first none. */
  lemma {:induction false} BlocksTakeRounds(ends: Ends, heard: bool, rounds: seq<Round>)
    ensures var tx := After(ends, heard, rounds).tx;
      if tx.phase.AwaitStart? then tx.acked == 0 else tx.acked < |rounds|
    decreases |rounds|
  {
    hide After, Play;
    if rounds == [] {
      NothingAcked(ends, heard);
    } else {
      var l := After(ends, heard, rounds[..|rounds| - 1]);
      BlocksTakeRounds(ends, heard, rounds[..|rounds| - 1]);
      UnfoldAfter(ends, heard, rounds);
      OneBlockAcked(ends, l, rounds[|rounds| - 1]);
    }
  }

  lemma NothingAcked(ends: Ends, heard: bool)
    ensures After(ends, heard, []).tx == TxState(0, AwaitStart(0))
  {
  }

  lemma OneBlockAcked(ends: Ends, l: Link, r: Round)
    ensures var tx := Play(ends, l, r).tx;
      if l.tx.phase.AwaitStart? then tx.acked == l.tx.acked
      else !tx.phase.AwaitStart? && tx.acked <= l.tx.acked + 1
  {
    hide Hear, Frame, Payload;
  }

  /** After `n` good rounds the ACK of the last of `n` blocks is on its way. */
  lemma LastBlockAcked(ends: Ends, goods: seq<Round>, file: seq<byte>, n: nat)
    requires Compatible(ends) && Serves(ends.tx, file) && Blocks(ends.tx, n, |file|)
    requires ends.tx.cfg.maxRetries > 0 && forall k: nat :: ends.rx.stores(k)
    requires (forall r :: r in goods ==> Good(r)) && |goods| == n
    ensures var l := After(ends, true, goods);
      && Inv(ends, l) && l.ear.Listening? && l.inbox == [ACK]
      && l.tx.phase.AwaitAck? && l.tx.acked == n - 1 && |Deliveries(l.calls)| == n
  {
    hide After, Upto, Fair, Good, Serves, CourseOf, PlausibleRun, Covered, EarInv, NeverSplit, Deliveries;
    NoStreak(goods);
    GoodIsFair(ends, goods);
    FileCovered(ends, file, n);
    GoodCourse(ends, goods, file, n);
    PerfectlyPlausible(ends, goods);
    CourseDecides(ends, true, goods);
    RunLives(ends, true, goods, 0, n);
    BlocksTakeRounds(ends, true, goods);
    var l := After(ends, true, goods);
    TotalServed(ends.tx, file);
    if l.tx.phase.AwaitEotAck? || l.tx.phase.Finished? {
      LiveAllSent(ends, l, n);
    }
  }

  lemma TotalServed(env: TxEnv, file: seq<byte>)
    requires Serves(env, file)
    ensures env.totalLen == |file|
  {
  }

  /** EOT goes out only when all `n` blocks have been acknowledged. */
  lemma LiveAllSent(ends: Ends, l: Link, n: nat)
    requires Inv(ends, l) && Live(ends, l, 0, 0) && (l.tx.phase.AwaitEotAck? || l.tx.phase.Finished?)
    requires Blocks(ends.tx, n, ends.tx.totalLen)
    ensures l.tx.acked >= n
  {
    hide Upto, EarInv, Deliveries;
    UptoOrder(ends.tx, n - 1, l.tx.acked);
  }

  /** Such a run, for every file: `n` good rounds, the EOT answered in vain, and then anything. The
      receiver has returned XMODEM_OK with the whole file, the transmitter never does. */
  lemma FinalAckLossFails(ends: Ends, goods: seq<Round>, more: seq<Round>, file: seq<byte>, n: nat)
    requires Compatible(ends) && Serves(ends.tx, file) && Blocks(ends.tx, n, |file|)
    requires ends.tx.cfg.maxRetries > 0 && forall k: nat :: ends.rx.stores(k)
    requires (forall r :: r in goods ==> Good(r)) && |goods| == n
    ensures After(ends, true, goods + [Round(Intact, false)] + more).tx.phase != Finished(Delivered)
    ensures var l := After(ends, true, goods + [Round(Intact, false)]);
      && l.ear == Closed(Ok(Upto(ends.tx, n)))
      && Contents(Deliveries(l.calls)) == PaddedFile(file, Upto(ends.tx, n))
  {
    hide After, Upto, Serves, Deliveries, Contents, Play, FinalAckArrives;
    var l := After(ends, true, goods);
    LastBlockAcked(ends, goods, file, n);
    TotalServed(ends.tx, file);
    EotGoesOut(ends, l, n);
    FinalAckLost(ends, l, Round(Intact, false));
    assert (goods + [Round(Intact, false)])[..n] == goods;
    UnfoldAfter(ends, true, goods + [Round(Intact, false)]);
    AfterOn(ends, true, goods + [Round(Intact, false)], more);
    NothingFollows(ends, Play(ends, l, Round(Intact, false)), more);
    StoredAll(ends, l, file, n);
    EotStoresNothing(ends, l);
  }

  lemma EotGoesOut(ends: Ends, l: Link, n: nat)
    requires Blocks(ends.tx, n, ends.tx.totalLen) && ends.tx.cfg.maxRetries > 0
    requires l.tx.phase.AwaitAck? && l.tx.acked == n - 1 && l.inbox == [ACK]
    ensures AfterTx(ends, l).tx.phase.AwaitEotAck? && TxOutput(ends, l) == [EOT]
    ensures !FinalAckArrives(ends, l, Round(Intact, false))
  {
    assert Upto(ends.tx, n) == n * BlockSize(ends.tx.cfg);
    hide Upto;
    assert [] + [EOT] == [EOT];
  }

  lemma EotStoresNothing(ends: Ends, l: Link)
    requires l.ear.Listening? && TxOutput(ends, l) == [EOT]
    ensures Play(ends, l, Round(Intact, false)).calls == l.calls
  {
    hide TxStep, Hear;
    HearEot(ends, l.ear.st, l.calls);
  }

  lemma StoredAll(ends: Ends, l: Link, file: seq<byte>, n: nat)
    requires Inv(ends, l) && Serves(ends.tx, file) && Blocks(ends.tx, n, |file|)
    requires l.ear.Listening? && |Deliveries(l.calls)| == n
    ensures l.ear.st.total == Upto(ends.tx, n)
    ensures Contents(Deliveries(l.calls)) == PaddedFile(file, Upto(ends.tx, n))
  {
    hide Upto, Deliveries, Serves, Contents;
    BlocksOfFile(ends, file, n, Deliveries(l.calls));
    var full := PaddedFile(file, Upto(ends.tx, n));
    assert full[..|full|] == full;
  }
}
