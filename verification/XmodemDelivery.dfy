/** What a finished XMODEM transfer has delivered, and when a transfer over a lossy line
    finishes. */
module XmodemDelivery {
  import opened Serial
  import opened XmodemFrames
  import opened XmodemReceiver
  import opened XmodemTransmitter
  import opened XmodemTrace
  import opened XmodemLink
  import opened XmodemCourse

  // ----- contents -----

  /** The stored bytes, in order. */
  function Contents(ds: seq<Call>): seq<byte> {
    if ds == [] then [] else Contents(ds[..|ds| - 1]) + ds[|ds| - 1].payload
  }

  /** data_cb reads the blocks of `file` in order. */
  ghost predicate Serves(env: TxEnv, file: seq<byte>) {
    && env.totalLen == |file|
    && forall k: nat :: Upto(env, k) < |file| ==>
         env.source(k).code >= 0
         && env.source(k).data == file[Upto(env, k)..Min(Upto(env, k) + BlockSize(env.cfg), |file|)]
  }

  /** The file followed by 0x1A. */
  function PaddedFile(file: seq<byte>, size: nat): seq<byte>
    requires |file| <= size
  {
    file + Repeat(size - |file|, PADDING)
  }

  /** `n` blocks are the fewest that hold `size` bytes. */
  predicate Blocks(env: TxEnv, n: nat, size: nat) {
    n > 0 && Upto(env, n - 1) < size <= Upto(env, n)
  }

  /** A slice of the padded file is the padded slice of the file. */
  lemma PaddedSlice(file: seq<byte>, total: nat, from: nat, size: nat)
    requires from < |file| <= total && from + size <= total
    ensures Padded(size, file[from..Min(from + size, |file|)]) == PaddedFile(file, total)[from..from + size]
  {
    var full, slice := PaddedFile(file, total), file[from..Min(from + size, |file|)];
    assert |slice| >= size ==> slice[..size] == full[from..from + size];
    assert |slice| < size ==> slice + Repeat(size - |slice|, PADDING) == full[from..from + size];
  }

  lemma BlockOfFile(env: TxEnv, file: seq<byte>, n: nat, k: nat)
    requires Serves(env, file) && Blocks(env, n, |file|) && k < n
    ensures Upto(env, k) <= Upto(env, k + 1) <= Upto(env, n)
    ensures Payload(env, k) == PaddedFile(file, Upto(env, n))[Upto(env, k)..Upto(env, k + 1)]
  {
    hide Upto, Padded, PaddedFile;
    UptoNext(env, k);
    UptoOrder(env, n, k + 1);
    UptoOrder(env, n - 1, k);
    PaddedSlice(file, Upto(env, n), Upto(env, k), BlockSize(env.cfg));
  }

  lemma {:induction false} BlocksOfFile(ends: Ends, file: seq<byte>, n: nat, ds: seq<Call>)
    requires Serves(ends.tx, file) && Blocks(ends.tx, n, |file|)
    requires |ds| <= n && Faithful(ends, ds)
    ensures Upto(ends.tx, |ds|) <= Upto(ends.tx, n)
    ensures Contents(ds) == PaddedFile(file, Upto(ends.tx, n))[..Upto(ends.tx, |ds|)]
    decreases |ds|
  {
    hide Upto, Payload, Serves;
    UptoOrder(ends.tx, n, |ds|);
    if ds == [] {
      UptoNext(ends.tx, 0);
    } else {
      var k := |ds| - 1;
      BlocksOfFile(ends, file, n, ds[..k]);
      BlockOfFile(ends.tx, file, n, k);
      var full, from, to := PaddedFile(file, Upto(ends.tx, n)), Upto(ends.tx, k), Upto(ends.tx, k + 1);
      assert full[..from] + full[from..to] == full[..to];
    }
  }

  /** Two ends that came to disagree on the check can still be told apart. */
  ghost predicate Tellable(ends: Ends, heard: bool, rounds: seq<Round>) {
    CourseOf(ends, heard, rounds) == Parted ==> FirstTells(ends)
  }

  lemma TellableInv(ends: Ends, heard: bool, rounds: seq<Round>)
    requires Compatible(ends) && PlausibleRun(ends, heard, rounds) && Tellable(ends, heard, rounds)
    ensures Inv(ends, After(ends, heard, rounds))
  {
    hide After, PlausibleRun, NeverSplit, Inv, CourseOf, FirstTells;
    CourseDecides(ends, heard, rounds);
    RunKeepsInv(ends, heard, rounds);
  }

  /** Over every run of lossy rounds the stored payloads are a prefix of the transmitter's
      blocks, in order and without repetition, and the receiver is never behind the
      acknowledged blocks and never more than one block ahead of them: in every combination of modes,
      with or without a fallback. */
  lemma DeliveredIsPrefix(ends: Ends, heard: bool, rounds: seq<Round>)
    requires Compatible(ends) && PlausibleRun(ends, heard, rounds) && Tellable(ends, heard, rounds)
    ensures var l := After(ends, heard, rounds);
      var ds := Deliveries(l.calls);
      && (forall i :: 0 <= i < |ds| ==> ds[i].payload == Payload(ends.tx, i) && ds[i].block == Num(i + 1))
      && l.tx.acked <= |ds| <= l.tx.acked + 1
  {
    hide After, PlausibleRun, Tellable;
    TellableInv(ends, heard, rounds);
  }

  /** If the transmitter returns XMODEM_OK then so has the receiver; the total it reports is the
      least multiple of the block size that holds the file, each block was stored exactly once
      however many retransmissions happened, and the stored bytes are the file followed by 0x1A. */
  lemma SuccessDelivers(ends: Ends, heard: bool, rounds: seq<Round>, file: seq<byte>)
    requires Compatible(ends) && PlausibleRun(ends, heard, rounds) && Tellable(ends, heard, rounds)
    requires file != [] && Serves(ends.tx, file)
    requires After(ends, heard, rounds).tx.phase == Finished(Delivered)
    ensures var l := After(ends, heard, rounds);
      var n := |Deliveries(l.calls)|;
      && Blocks(ends.tx, n, |file|)
      && l.ear == Closed(Ok(Upto(ends.tx, n)))
      && Contents(Deliveries(l.calls)) == PaddedFile(file, Upto(ends.tx, n))
  {
    hide After, Deliveries, Upto, PlausibleRun, Tellable;
    TellableInv(ends, heard, rounds);
    var ds := Deliveries(After(ends, heard, rounds).calls);
    BlocksOfFile(ends, file, |ds|, ds);
    var full := PaddedFile(file, Upto(ends.tx, |ds|));
    assert full[..|full|] == full;
  }

  // ----- completion -----

  predicate Good(r: Round) {
    r.fate == Intact && r.replied
  }

  /** Faulty rounds in a row at the end of a run; a lost handshake byte counts as one. */
  function Streak(heard: bool, rounds: seq<Round>): nat {
    if rounds == [] then if heard then 0 else 1
    else if Good(rounds[|rounds| - 1]) then 0
    else 1 + Streak(heard, rounds[..|rounds| - 1])
  }

  function Goods(rounds: seq<Round>): nat {
    if rounds == [] then 0
    else Goods(rounds[..|rounds| - 1]) + if Good(rounds[|rounds| - 1]) then 1 else 0
  }

  /** The one loss nothing can repair: the receiver has returned, so its ACK to EOT is sent
      once. */
  predicate FinalAckArrives(ends: Ends, l: Link, r: Round) {
    AfterTx(ends, l).tx.phase.AwaitEotAck? && r.fate == Intact ==> r.replied
  }

  ghost predicate FinalAckHeard(ends: Ends, heard: bool, rounds: seq<Round>) {
    forall i :: 0 <= i < |rounds| ==> FinalAckArrives(ends, After(ends, heard, rounds[..i]), rounds[i])
  }

  /** A run on which no more than `f` faulty rounds follow one another. */
  ghost predicate Fair(ends: Ends, heard: bool, rounds: seq<Round>, f: nat) {
    && PlausibleRun(ends, heard, rounds)
    && (forall i :: 0 <= i <= |rounds| ==> Streak(heard, rounds[..i]) <= f)
  }

  /** A transfer of `n` blocks whose callbacks succeed, and retry limits that cover streaks of
      `f` faults: the receiver may see two streaks between two new blocks. */
  ghost predicate Covered(ends: Ends, n: nat, f: nat) {
    && Compatible(ends)
    && Blocks(ends.tx, n, ends.tx.totalLen)
    && (forall k: nat :: k < n ==> ends.tx.source(k).code >= 0)
    && (forall k: nat :: ends.rx.stores(k))
    && f < ends.tx.cfg.maxRetries
    && 2 * f <= ends.rx.cfg.maxRetries
  }

  /** How far a transfer of `n` blocks has come: every good round moves it on. */
  function Stage(l: Link, n: nat): nat {
    match l.tx.phase
    case AwaitStart(_) => if l.inbox == [] then 0 else 1
    case AwaitAck(_, _) => 1 + l.tx.acked + if ACK in l.inbox then 1 else 0
    case AwaitEotAck(_) => 1 + n + if ACK in l.inbox then 1 else 0
    case Finished(_) => 3 + n
  }

  /** The receiver's retry counter, bounded by the current streak `c` and the one before it. */
  predicate Patient(l: Link, f: nat, c: nat) {
    l.ear.Listening? ==>
      l.ear.st.retries <= if ACK !in l.inbox && |Deliveries(l.calls)| == l.tx.acked + 1 then c else f + c
  }

  /** Neither end has given up, and the retry counters are covered by the streak `c`. */
  predicate Live(ends: Ends, l: Link, f: nat, c: nat) {
    match l.tx.phase
    case AwaitStart(t) =>
      && l.ear.Listening?
      && if l.inbox == [] then c >= 1 && t <= c - 1 && l.ear.st.retries <= c - 1
         else l.inbox == [l.ear.st.req] && t <= f && Patient(l, f, c)
    case AwaitAck(_, t) =>
      && l.ear.Listening? && Patient(l, f, c)
      && CAN !in l.inbox
      && (ACK in l.inbox || (c >= 1 && t <= c - 1))
    case AwaitEotAck(t) =>
      && Patient(l, f, c)
      && (l.ear.Listening? || l.inbox == [ACK])
      && (ACK in l.inbox || (c >= 1 && t <= c - 1))
    case Finished(status) => status == Delivered
  }

  /** The same between the halves of a round: the last answer has been consumed. */
  predicate MidLive(ends: Ends, l: Link, f: nat, c: nat) {
    match l.tx.phase
    case AwaitStart(t) => l.ear.Listening? && t <= c && l.ear.st.retries <= c - 1
    case AwaitAck(_, t) => l.ear.Listening? && t <= c && Patient(l, f, c)
    case AwaitEotAck(t) => l.ear.Listening? && t <= c && Patient(l, f, c)
    case Finished(status) => status == Delivered
  }

  lemma TxHalfLives(ends: Ends, l: Link, f: nat, c: nat, n: nat)
    requires Covered(ends, n, f) && Inv(ends, l) && Live(ends, l, f, c) && c <= f
    ensures var m := AfterTx(ends, l);
      && MidLive(ends, m, f, c)
      && Stage(m, n) == (if l.tx.phase.AwaitEotAck? && ACK in l.inbox then n + 3
                         else if l.inbox == [] && l.tx.phase.AwaitStart? then 0
                         else if l.tx.phase.AwaitStart? then 1
                         else Stage(l, n))
  {
    hide Deliveries, Frame, EarInv;
    assert l.inbox != [] ==> l.inbox[0] in l.inbox;
    RequestPending(ends, l);
    var k := l.tx.acked;
    assert Upto(ends.tx, k) == k * BlockSize(ends.tx.cfg) && Upto(ends.tx, k + 1) == (k + 1) * BlockSize(ends.tx.cfg);
    hide Upto;
    UptoZero(ends.tx, 0);
    UptoOrder(ends.tx, k, n);
    UptoOrder(ends.tx, n - 1, k + 1);
    UptoOrder(ends.tx, n - 1, k);
    if k > 0 {
      UptoOrder(ends.tx, k - 1, n);
    }
  }

  lemma RequestPending(ends: Ends, l: Link)
    requires Inv(ends, l)
    ensures l.tx.phase.AwaitStart? && l.ear.Listening? ==> l.ear.st.req == Request(l.ear.st.crcMode)
  {
    hide Faithful, Upto;
  }

  /** The receiver's half on an arrival that carries nothing acceptable: it asks again. */
  lemma UnheardLives(ends: Ends, st: RxState, calls: seq<Call>, sent: seq<byte>, fate: Fate)
    requires EarInv(ends, Listening(st), calls)
    requires sent == [] || fate != Intact
    requires fate.Damaged? ==> Detectable(ends.rx.step, st.crcMode, fate.noise)
    requires st.retries < ends.rx.cfg.maxRetries
    ensures var (ear, reply, calls') := Hear(ends.rx, Listening(st), calls, Arrival(sent, fate));
      && ear.Listening? && ear.st.retries == Inc(st.retries) && calls' == calls
      && reply == [if (sent == [] || fate == Lost) && Deliveries(calls) == [] then ear.st.req else NAK]
      && (reply == [CRC_REQUEST] || reply == [NAK])
  {
    hide Step, Deliveries, Faithful, Detectable, Upto;
    UptoZero(ends.tx, |Deliveries(calls)|);
    if sent == [] || fate == Lost {
      HearControl(ends.rx, st, calls, []);
    } else {
      NoiseHeader(ends.rx.step, st.crcMode, fate.noise);
      HearNoise(ends.rx, st, calls, fate.noise);
    }
  }

  /** The receiver's half on the block in flight: it stores it once and acknowledges it. */
  lemma FrameLives(ends: Ends, st: RxState, calls: seq<Call>, k: nat)
    requires EarInv(ends, Listening(st), calls)
    requires |Deliveries(calls)| == k || |Deliveries(calls)| == k + 1
    requires forall j: nat :: ends.rx.stores(j)
    ensures var frame := Frame(ends.rx.step, st.crcMode, Num(k + 1), Payload(ends.tx, k));
      var (ear, reply, calls') := Hear(ends.rx, Listening(st), calls, Bytes(frame));
      && reply == [ACK] && |Deliveries(calls')| == k + 1 && ear.Listening?
      && ear.st.retries == if |Deliveries(calls)| == k then 0 else st.retries
  {
    hide Step, Deliveries, Frame, Faithful, Upto;
    var payload := Payload(ends.tx, k);
    HearFrame(ends.rx, st, calls, Num(k + 1), payload);
    NumSteps(k);
    NumSteps(k + 1);
    DeliveriesAppend(calls, Stored(Num(k + 1), payload));
    DeliveriesAppend(calls, Repeated(Num(k + 1), payload));
  }

  lemma RxHalfLives(ends: Ends, m: Link, sent: seq<byte>, r: Round, f: nat, c: nat, n: nat)
    requires Covered(ends, n, f) && Inv(ends, m) && MidLive(ends, m, f, c) && Plausible(ends, m, r) && !Split(m)
    requires Outgoing(ends, m.tx, sent) && m.ear.Listening? && m.inbox == [] && !m.tx.phase.Finished?
    requires c <= f && (!Good(r) ==> c + 1 <= f)
    requires m.tx.phase.AwaitEotAck? && r.fate == Intact ==> r.replied
    ensures var (ear, reply, calls) := Hear(ends.rx, m.ear, m.calls, Arrival(sent, r.fate));
      var l := Link(m.tx, ear, if r.replied then reply else [], calls);
      && Live(ends, l, f, if Good(r) then 0 else c + 1)
      && Stage(l, n) >= (match m.tx.phase
                         case AwaitStart(_) => 0
                         case AwaitAck(_, _) => 1 + m.tx.acked
                         case _ => 1 + n) + (if Good(r) then 1 else 0)
  {
    hide Hear, Deliveries, Faithful, Detectable, Body, Upto;
    var st := m.ear.st;
    assert m.tx.phase.AwaitStart? <==> sent == [];
    assert |Deliveries(m.calls)| == 0 ==> Deliveries(m.calls) == [];
    if sent == [] || r.fate != Intact {
      UnheardLives(ends, st, m.calls, sent, r.fate);
    } else if m.tx.phase.AwaitAck? {
      FrameLives(ends, st, m.calls, m.tx.acked);
    } else {
      HearEot(ends, st, m.calls);
    }
  }

  lemma HearEot(ends: Ends, st: RxState, calls: seq<Call>)
    ensures Hear(ends.rx, Listening(st), calls, Bytes([EOT])) == (Closed(Ok(st.total)), [ACK], calls)
  {
    hide Step;
    HearControl(ends.rx, st, calls, []);
  }

  lemma PlayLives(ends: Ends, l: Link, r: Round, f: nat, c: nat, n: nat)
    requires Covered(ends, n, f) && Inv(ends, l) && Live(ends, l, f, c) && Plausible(ends, l, r) && !Split(l)
    requires c <= f && (!Good(r) ==> c + 1 <= f) && FinalAckArrives(ends, l, r)
    ensures var l' := Play(ends, l, r);
      && Live(ends, l', f, if Good(r) then 0 else c + 1)
      && (Stage(l', n) == 3 + n || Stage(l', n) >= Stage(l, n) + if Good(r) then 1 else 0)
  {
    hide Hear, TxStep, Deliveries, EarInv, TxInv, Outgoing, Upto, Detectable, Split;
    TxHalf(ends, l);
    TxHalfLives(ends, l, f, c, n);
    var m := AfterTx(ends, l);
    if !m.tx.phase.Finished? {
      RxHalfLives(ends, m, TxOutput(ends, l), r, f, c, n);
    } else {
      DeliveredCloses(ends, m);
      ClosedIsSilent(ends, m, TxOutput(ends, l), r.fate);
    }
  }

  lemma DeliveredCloses(ends: Ends, l: Link)
    requires Inv(ends, l) && l.tx.phase == Finished(Delivered)
    ensures l.ear.Closed?
  {
  }

  lemma FairPrefix(ends: Ends, heard: bool, rounds: seq<Round>, f: nat)
    requires Fair(ends, heard, rounds, f) && rounds != []
    ensures Fair(ends, heard, rounds[..|rounds| - 1], f)
    ensures Streak(heard, rounds[..|rounds| - 1]) <= f && Streak(heard, rounds) <= f
  {
    hide After, PlausibleRun, Streak;
    var before := rounds[..|rounds| - 1];
    PrefixRun(ends, heard, rounds);
    assert rounds[..|rounds|] == rounds;
    forall i | 0 <= i <= |before| ensures before[..i] == rounds[..i] {
    }
  }

  lemma HeardPrefix(ends: Ends, heard: bool, rounds: seq<Round>)
    requires FinalAckHeard(ends, heard, rounds) && rounds != []
    ensures FinalAckHeard(ends, heard, rounds[..|rounds| - 1])
    ensures FinalAckArrives(ends, After(ends, heard, rounds[..|rounds| - 1]), rounds[|rounds| - 1])
  {
    hide After, FinalAckArrives;
    var before := rounds[..|rounds| - 1];
    forall i | 0 <= i <= |before| ensures before[..i] == rounds[..i] {
    }
  }

  lemma {:induction false} RunLives(ends: Ends, heard: bool, rounds: seq<Round>, f: nat, n: nat)
    requires Covered(ends, n, f) && Fair(ends, heard, rounds, f) && NeverSplit(ends, heard, rounds)
    requires FinalAckHeard(ends, heard, rounds)
    ensures var l := After(ends, heard, rounds);
      && Inv(ends, l)
      && Live(ends, l, f, Streak(heard, rounds))
      && (Stage(l, n) == n + 3 || Stage(l, n) >= Goods(rounds) + if heard then 1 else 0)
    decreases |rounds|
  {
    hide Play, Inv, Live, Stage, Plausible, FinalAckArrives, FinalAckHeard, PlausibleRun, NeverSplit, Split;
    RunKeepsInv(ends, heard, rounds);
    if rounds == [] {
      OpenedLives(ends, heard, f, n);
    } else {
      hide Fair;
      var before, r := rounds[..|rounds| - 1], rounds[|rounds| - 1];
      FairPrefix(ends, heard, rounds, f);
      HeardPrefix(ends, heard, rounds);
      FairIsPlausible(ends, heard, rounds, f);
      PrefixRun(ends, heard, rounds);
      UnfoldAfter(ends, heard, rounds);
      RunLives(ends, heard, before, f, n);
      LastNotSplit(ends, heard, before);
      PlayLives(ends, After(ends, heard, before), r, f, Streak(heard, before), n);
      StageBound(ends, After(ends, heard, rounds), f, n);
    }
  }

  lemma FairIsPlausible(ends: Ends, heard: bool, rounds: seq<Round>, f: nat)
    requires Fair(ends, heard, rounds, f)
    ensures PlausibleRun(ends, heard, rounds)
  {
  }

  lemma OpenedLives(ends: Ends, heard: bool, f: nat, n: nat)
    ensures var l := After(ends, heard, []);
      Live(ends, l, f, Streak(heard, [])) && Stage(l, n) == if heard then 1 else 0
  {
  }

  lemma StageBound(ends: Ends, l: Link, f: nat, n: nat)
    requires Covered(ends, n, f) && Inv(ends, l)
    ensures Stage(l, n) <= n + 3 && (Stage(l, n) == n + 3 <==> l.tx.phase.Finished?)
  {
    hide Upto;
    UptoOrder(ends.tx, l.tx.acked, n);
  }

  /** Liveness: if never more than `f` faulty rounds follow one another, the retry limits cover
      such streaks (f < max_retries at the transmitter, 2 f <= max_retries at the receiver), the
      callbacks succeed, the final ACK is not lost and the faults before the first block do not part
      the ends, then after n + 3 good rounds the transmitter has returned XMODEM_OK. */
  lemma TransferCompletes(ends: Ends, heard: bool, rounds: seq<Round>, f: nat, n: nat)
    requires Covered(ends, n, f) && Fair(ends, heard, rounds, f)
    requires CourseOf(ends, heard, rounds) != Parted && FinalAckHeard(ends, heard, rounds)
    requires Goods(rounds) >= n + if heard then 2 else 3
    ensures After(ends, heard, rounds).tx.phase == Finished(Delivered)
  {
    hide After, Inv, Live, PlausibleRun, CourseOf, NeverSplit, Goods, Streak, FinalAckHeard;
    CourseDecides(ends, heard, rounds);
    RunLives(ends, heard, rounds, f, n);
    StageBound(ends, After(ends, heard, rounds), f, n);
    LiveDelivers(ends, After(ends, heard, rounds), f, Streak(heard, rounds));
  }

  lemma LiveDelivers(ends: Ends, l: Link, f: nat, c: nat)
    requires Live(ends, l, f, c) && l.tx.phase.Finished?
    ensures l.tx.phase == Finished(Delivered)
  {
  }

  lemma {:induction false} NoStreak(rounds: seq<Round>)
    requires forall r :: r in rounds ==> Good(r)
    ensures Streak(true, rounds) == 0 && Goods(rounds) == |rounds|
  {
    if rounds != [] {
      assert Good(rounds[|rounds| - 1]);
      NoStreak(rounds[..|rounds| - 1]);
    }
  }

  /** The least number of blocks is one number. */
  lemma BlocksUnique(env: TxEnv, n: nat, m: nat, size: nat)
    requires Blocks(env, n, size) && Blocks(env, m, size)
    ensures n == m
  {
    hide Upto;
    UptoOrder(env, n - 1, m);
    UptoOrder(env, m - 1, n);
  }

  /** Without any faults, and with at least one transmission allowed for each block, every file
      arrives in n + 2 rounds, in every combination of modes. */
  lemma PerfectLine(ends: Ends, rounds: seq<Round>, file: seq<byte>, n: nat)
    requires Compatible(ends) && Serves(ends.tx, file) && Blocks(ends.tx, n, |file|)
    requires ends.tx.cfg.maxRetries > 0 && forall k: nat :: ends.rx.stores(k)
    requires (forall r :: r in rounds ==> Good(r)) && |rounds| >= n + 2
    ensures var l := After(ends, true, rounds);
      && l.tx.phase == Finished(Delivered)
      && l.ear == Closed(Ok(Upto(ends.tx, n)))
      && Contents(Deliveries(l.calls)) == PaddedFile(file, Upto(ends.tx, n))
  {
    hide After, Deliveries, Upto, Plausible, Fair, Good, Serves, CourseOf, PlausibleRun, Blocks, Contents, Covered;
    PerfectlyDelivered(ends, rounds, file, n);
    PerfectlyPlausible(ends, rounds);
    GoodCourse(ends, rounds, file, n);
    FileNotEmpty(ends.tx, file, n);
    SuccessDelivers(ends, true, rounds, file);
    BlocksUnique(ends.tx, n, |Deliveries(After(ends, true, rounds).calls)|, |file|);
  }

  lemma FileNotEmpty(env: TxEnv, file: seq<byte>, n: nat)
    requires Blocks(env, n, |file|)
    ensures file != []
  {
  }

  lemma PerfectlyPlausible(ends: Ends, rounds: seq<Round>)
    requires forall r :: r in rounds ==> Good(r)
    ensures PlausibleRun(ends, true, rounds)
  {
    hide After, Detectable;
    assert forall i :: 0 <= i < |rounds| ==> Good(rounds[i]);
  }

  lemma PerfectlyDelivered(ends: Ends, rounds: seq<Round>, file: seq<byte>, n: nat)
    requires Compatible(ends) && Serves(ends.tx, file) && Blocks(ends.tx, n, |file|)
    requires ends.tx.cfg.maxRetries > 0 && forall k: nat :: ends.rx.stores(k)
    requires (forall r :: r in rounds ==> Good(r)) && |rounds| >= n + 2
    ensures After(ends, true, rounds).tx.phase == Finished(Delivered)
  {
    hide After, Upto, Plausible, Fair, Good, Serves, CourseOf, PlausibleRun, Blocks, Covered;
    NoStreak(rounds);
    GoodIsFair(ends, rounds);
    FileCovered(ends, file, n);
    GoodCourse(ends, rounds, file, n);
    TransferCompletes(ends, true, rounds, 0, n);
  }

  /** The first block of a heard handshake is stored at once. */
  lemma {:induction false} GoodCourse(ends: Ends, rounds: seq<Round>, file: seq<byte>, n: nat)
    requires Serves(ends.tx, file) && Blocks(ends.tx, n, |file|) && ends.tx.cfg.maxRetries > 0
    requires forall r :: r in rounds ==> Good(r)
    ensures CourseOf(ends, true, rounds) == if rounds == [] then Undecided else Kept
    decreases |rounds|
  {
    hide Upto;
    if rounds != [] {
      assert Good(rounds[|rounds| - 1]);
      GoodCourse(ends, rounds[..|rounds| - 1], file, n);
      FirstServed(ends.tx, file, n);
    }
  }

  lemma FirstServed(env: TxEnv, file: seq<byte>, n: nat)
    requires Serves(env, file) && Blocks(env, n, |file|)
    ensures env.source(0).code >= 0
  {
    UptoZero(env, 0);
  }

  lemma GoodIsFair(ends: Ends, rounds: seq<Round>)
    requires forall r :: r in rounds ==> Good(r)
    ensures Fair(ends, true, rounds, 0) && FinalAckHeard(ends, true, rounds)
  {
    hide After, AfterTx, Streak, PlausibleRun;
    PerfectlyPlausible(ends, rounds);
    forall i | 0 <= i <= |rounds| ensures Streak(true, rounds[..i]) == 0 {
      NoStreak(rounds[..i]);
    }
    assert forall i :: 0 <= i < |rounds| ==> Good(rounds[i]);
  }

  lemma FileCovered(ends: Ends, file: seq<byte>, n: nat)
    requires Compatible(ends) && Serves(ends.tx, file) && Blocks(ends.tx, n, |file|)
    requires ends.tx.cfg.maxRetries > 0 && forall k: nat :: ends.rx.stores(k)
    ensures Covered(ends, n, 0)
  {
    hide Upto;
    forall k: nat | k < n ensures Upto(ends.tx, k) < |file| {
      UptoOrder(ends.tx, n - 1, k);
    }
  }

  lemma ClosedIsSilent(ends: Ends, l: Link, sent: seq<byte>, fate: Fate)
    requires l.ear.Closed?
    ensures Hear(ends.rx, l.ear, l.calls, Arrival(sent, fate)) == (l.ear, [], l.calls)
  {
  }
}
