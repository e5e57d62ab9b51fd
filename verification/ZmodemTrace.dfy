/** What zmodem_receive tells storage, on every input. */
module ZmodemTrace {
  import opened Serial
  import opened Metadata
  import opened ZmodemFrames
  import opened ZmodemReceiver
  import opened ZmodemTransmitter

  /** Storage's view: no file open, a file open with so many bytes received, or a call that does
      not fit. */
  datatype Track = Idle | Open(info: FileInfo, received: nat) | Broken

  function Follow(t: Track, c: Call): Track {
    match (t, c)
    case (Idle, FileStart(info)) => Open(info, 0)
    case (Open(info, n), Data(bytes, offset)) =>
      if offset == n && bytes != [] then Open(info, n + |bytes|) else Broken
    case (Open(info, _), FileEnd(info', _)) => if info' == info then Idle else Broken
    case _ => Broken
  }

  function TrackOf(calls: seq<Call>): Track {
    if calls == [] then Idle else Follow(TrackOf(calls[..|calls| - 1]), calls[|calls| - 1])
  }

  lemma TrackAppend(calls: seq<Call>, c: Call)
    ensures TrackOf(calls + [c]) == Follow(TrackOf(calls), c)
  {
    assert (calls + [c])[..|calls|] == calls;
  }

  /** How a session may leave storage: nothing open, except after a ZFIN inside a file, which
      reports success without closing it. */
  predicate WellEnded(r: (Status, World<Call>)) {
    match TrackOf(r.1.calls)
    case Idle => true
    case Open(_, _) => r.0 == Ok
    case Broken => false
  }

  lemma {:induction false} SessionEndsWell(z: Crcs, w: World<Call>)
    requires TrackOf(w.calls) == Idle
    ensures WellEnded(Session(z, w))
    decreases |w.script|
  {
    hide ReadHeader, ReadSubpacket, ParseInfo, HexHeader, InFile, TrackOf;
    var r := ReadHeader(z, true, w.script);
    if r.Found? {
      var w1 := w.Leaves(r.rest);
      if r.frame == ZRQINIT {
        SessionEndsWell(z, w1.Sends(HexHeader(z.step, ZRINIT, ZERO_FLAGS)));
      } else if r.frame == ZFILE {
        var sub := ReadSubpacket(z, r.crc32, BUFFER, r.rest, []);
        if sub.Sub? {
          var info := ParseInfo(sub.data);
          TrackAppend(w.calls, FileStart(info));
          InFileEndsWell(z, info, 0,
            w.Leaves(sub.rest).Makes(FileStart(info)).Sends(HexHeader(z.step, ZRPOS, ZERO_FLAGS)));
        }
      } else if r.frame != ZFIN {
        SessionEndsWell(z, w1);
      }
    }
  }

  lemma {:induction false} InFileEndsWell(z: Crcs, info: FileInfo, offset: nat, w: World<Call>)
    requires TrackOf(w.calls) == Open(info, offset)
    ensures WellEnded(InFile(z, info, offset, w))
    decreases |w.script|
  {
    hide ReadHeader, HexHeader, Session, InData, TrackOf;
    var r := ReadHeader(z, true, w.script);
    TrackAppend(w.calls, FileEnd(info, TimedOut));
    TrackAppend(w.calls, FileEnd(info, Ok));
    if r.Found? {
      var w1 := w.Leaves(r.rest);
      if r.frame == ZDATA {
        InDataEndsWell(z, info, offset, r.crc32, w1);
      } else if r.frame == ZEOF {
        SessionEndsWell(z, w1.Makes(FileEnd(info, Ok)).Sends(HexHeader(z.step, ZRINIT, ZERO_FLAGS)));
      } else if r.frame != ZFIN {
        InFileEndsWell(z, info, offset, w1);
      }
    }
  }

  lemma {:induction false} InDataEndsWell(z: Crcs, info: FileInfo, offset: nat, crc32: bool, w: World<Call>)
    requires TrackOf(w.calls) == Open(info, offset)
    ensures WellEnded(InData(z, info, offset, crc32, w))
    decreases |w.script|
  {
    hide ReadSubpacket, InFile, TrackOf;
    var r := ReadSubpacket(z, crc32, BUFFER, w.script, []);
    TrackAppend(w.calls, FileEnd(info, IoError));
    if r.Sub? {
      TrackAppend(w.calls, Data(r.data, offset));
      var w1 := Store(w.Leaves(r.rest), r.data, offset);
      if EndsFrame(r.ender) {
        InFileEndsWell(z, info, offset + |r.data|, w1);
      } else {
        InDataEndsWell(z, info, offset + |r.data|, crc32, w1);
      }
    }
  }

  /** On every input on_file_start and on_file_end alternate strictly, on_data comes only in
      between, non-empty and at the running sum of the lengths before it, and a file left open at
      the return means that ZFIN came inside it and ZMODEM_OK was returned. */
  lemma ReceiveOnAnyInput(z: Crcs, script: seq<Event>)
    ensures WellEnded(Receive(z, World(script, [], [])))
  {
    SessionEndsWell(z, World(script, [], []).Sends(HexHeader(z.step, ZRINIT, ZERO_FLAGS)));
  }

  /** Division with remainder by the three place values. */
  lemma Places(n: nat, q: nat, r: nat)
    ensures n == 0x1_0000 * q + r && r < 0x1_0000 ==> n / 0x1_0000 == q
    ensures n == 0x100_0000 * q + r && r < 0x100_0000 ==> n / 0x100_0000 == q
    ensures n == 0x1_0000_0000 * q + r && r < 0x1_0000_0000 ==> n % 0x1_0000_0000 == r
  {
  }

  lemma Digits(n: nat) returns (q: nat, r: nat)
    ensures n == 0x100 * q + r && q == n / 0x100 && r == n % 0x100 < 0x100
  {
    q, r := n / 0x100, n % 0x100;
  }

  /** The four position bytes carry the offset modulo 2^32. */
  lemma OffsetCarried(n: nat)
    ensures LittleEndian(OffsetFlags(n)) == n % 0x1_0000_0000
  {
    var q1, r0 := Digits(n);
    var q2, r1 := Digits(q1);
    var q3, r2 := Digits(q2);
    var q4, r3 := Digits(q3);
    Places(n, q2, 0x100 * r1 + r0);
    Places(n, q3, 0x1_0000 * r2 + 0x100 * r1 + r0);
    assert OffsetFlags(n) == [r0, r1, r2, r3];
    Places(n, q4, 0x100_0000 * r3 + 0x1_0000 * r2 + 0x100 * r1 + r0);
  }
}
