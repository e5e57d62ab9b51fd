/** Whatever ymodem_receive hands to storage has passed a CRC: for every call there is a block on the
    line whose check bytes match. */
module YmodemChecked {
  import opened Serial
  import opened Checks
  import opened Metadata
  import opened XmodemFrames
  import opened YmodemBlock0
  import opened YmodemReceiver
  import Link = YmodemLink

  /** What the line must have brought for a storage call: Block 0 with that name and size, or a data
      block with those bytes, each followed by its CRC, or for the regular end of a file an EOT. The
      complement of the number is not looked at. */
  ghost predicate Shows(step: CrcStep, c: Call, seg: seq<byte>) {
    match c
    case FileStart(info) =>
      exists inverse, payload ::
        && |payload| >= BLOCK0 && info == ParseBlock0(payload[..BLOCK0])
        && seg == Link.LooseFrame(step, 0, inverse, payload)
    case Data(block, _, _) => exists num, inverse :: seg == Link.LooseFrame(step, num, inverse, block)
    case FileEnd(_, status) => seg == if status == Ok then [EOT] else []
  }

  /** A turn makes no call, or one that the bytes it has just read show. */
  ghost predicate Reads(step: CrcStep, w: World<Call>, w': World<Call>) {
    || (w'.calls == w.calls && Suffix(w'.script, w.script))
    || (exists c, seg ::
          w'.calls == w.calls + [c] && Shows(step, c, seg) && Suffix(Bytes(seg) + w'.script, w.script))
  }

  lemma BlockSuffix(step: CrcStep, size: nat, s: seq<Event>)
    ensures Suffix(ReadBlock(step, size, s).rest, s)
  {
    hide Suffix, Fill, Crc16;
    var s2 := Tail(Tail(s));
    var t := Fill(s2, size, []).rest;
    SuffixReflexive(s);
    TailSuffix(s, s);
    TailSuffix(Tail(s), s);
    FillSuffix(s2, size, []);
    SuffixTransitive(t, s2, s);
    TailSuffix(t, s);
    TailSuffix(Tail(t), s);
  }

  /** An accepted block behind its header byte. */
  lemma BlockWasThere(step: CrcStep, header: byte, s: seq<Event>) returns (inverse: byte)
    requires Head(s) == Byte(header) && (header == SOH || header == STX)
    requires ReadBlock(step, SizeFor(header), Tail(s)).Good?
    ensures var r := ReadBlock(step, SizeFor(header), Tail(s));
      s == Bytes(Link.LooseFrame(step, r.num, inverse, r.payload)) + r.rest
  {
    hide ReadBlock, Bytes, Trailer;
    var r := ReadBlock(step, SizeFor(header), Tail(s));
    Link.GoodWasThere(step, SizeFor(header), Tail(s));
    inverse := Head(Tail(Tail(s))).value;
    BytesPrepend(s, header, [r.num, inverse] + r.payload + Trailer(step, true, r.payload), r.rest);
  }

  lemma QuietReads(step: CrcStep, w: World<Call>, w': World<Call>)
    requires w'.calls == w.calls || exists info, status :: status != Ok && w'.calls == w.calls + [FileEnd(info, status)]
    requires Suffix(w'.script, w.script)
    ensures Reads(step, w, w')
  {
    hide Suffix;
    if w'.calls != w.calls {
      var info, status :| status != Ok && w'.calls == w.calls + [FileEnd(info, status)];
      BytesNone([], w'.script);
      assert Shows(step, FileEnd(info, status), []);
    }
  }

  lemma HeaderReads(step: CrcStep, retries: nat, w: World<Call>)
    ensures Reads(step, w, HeaderStep(step, retries, w).w)
  {
    hide ReadBlock, Purge, Suffix, ParseBlock0, Link.LooseFrame, Bytes, Shows;
    var w' := HeaderStep(step, retries, w).w;
    var e, s := Head(w.script), Tail(w.script);
    ReadOnSuffix(w.script);
    if e == Byte(SOH) || e == Byte(STX) {
      var r := ReadBlock(step, SizeFor(e.value), s);
      BlockSuffix(step, SizeFor(e.value), s);
      LaterSuffix(r.rest, s, w.script);
      if w'.calls != w.calls {
        var inverse := BlockWasThere(step, e.value, w.script);
        SuffixReflexive(w.script);
        var seg := Link.LooseFrame(step, 0, inverse, r.payload);
        var c := FileStart(ParseBlock0(r.payload[..BLOCK0]));
        assert Shows(step, c, seg) by { StartShown(step, inverse, r.payload); }
        assert w'.calls == w.calls + [c] && w'.script == r.rest;
      }
    }
  }

  lemma StartShown(step: CrcStep, inverse: byte, payload: seq<byte>)
    requires |payload| >= BLOCK0
    ensures Shows(step, FileStart(ParseBlock0(payload[..BLOCK0])), Link.LooseFrame(step, 0, inverse, payload))
  {
  }

  /** What is left after the first read, and after a purge behind it. */
  lemma ReadOnSuffix(s: seq<Event>)
    ensures Suffix(Tail(s), s) && Suffix(Purge(Tail(s)), s) && Suffix(Tail(Tail(s)), s)
  {
    hide Suffix, Purge;
    SuffixReflexive(s);
    TailSuffix(s, s);
    TailSuffix(Tail(s), s);
    PurgeSuffix(Tail(s));
    SuffixTransitive(Purge(Tail(s)), Tail(s), s);
  }

  lemma LaterSuffix(rest: seq<Event>, t: seq<Event>, s: seq<Event>)
    requires Suffix(rest, t) && Suffix(t, s)
    ensures Suffix(rest, s) && Suffix(Purge(rest), s)
  {
    hide Suffix, Purge;
    SuffixTransitive(rest, t, s);
    PurgeSuffix(rest);
    SuffixTransitive(Purge(rest), rest, s);
  }

  lemma PacketReads(step: CrcStep, at: Point, w: World<Call>)
    requires at.AwaitPacket?
    ensures Reads(step, w, PacketStep(step, at, w).w)
  {
    hide ReadBlock, Purge, Suffix, Link.LooseFrame, Bytes, Reads, OnBlock;
    var w' := PacketStep(step, at, w).w;
    var e, s := Head(w.script), Tail(w.script);
    ReadOnSuffix(w.script);
    if e == Byte(SOH) || e == Byte(STX) {
      var r := ReadBlock(step, SizeFor(e.value), s);
      BlockSuffix(step, SizeFor(e.value), s);
      LaterSuffix(r.rest, s, w.script);
      if r.Good? {
        var inverse := BlockWasThere(step, e.value, w.script);
        OnBlockReads(step, at, r.num, inverse, r.payload, w, r.rest);
      } else {
        QuietReads(step, w, w');
      }
    } else {
      QuietReads(step, w, w');
    }
  }

  lemma OnBlockReads(step: CrcStep, at: Point, num: byte, inverse: byte, payload: seq<byte>, w: World<Call>,
                     rest: seq<Event>)
    requires at.AwaitPacket? && Suffix(rest, w.script)
    requires w.script == Bytes(Link.LooseFrame(step, num, inverse, payload)) + rest
    ensures Reads(step, w, OnBlock(at, num, payload, w.Leaves(rest)).w)
  {
    hide Suffix, Link.LooseFrame, Bytes, WriteLength, Reads;
    var w' := OnBlock(at, num, payload, w.Leaves(rest)).w;
    var len := WriteLength(at.info.size, at.offset, |payload|);
    if num == at.expected && len > 0 {
      SuffixReflexive(w.script);
      DataReads(step, num, inverse, payload, len, at.offset, w, w');
    } else {
      QuietReads(step, w, w');
    }
  }

  lemma DataReads(step: CrcStep, num: byte, inverse: byte, payload: seq<byte>, len: nat, offset: nat, w: World<Call>,
                  w': World<Call>)
    requires w.script == Bytes(Link.LooseFrame(step, num, inverse, payload)) + w'.script
    requires Suffix(w.script, w.script) && w'.calls == w.calls + [Data(payload, len, offset)]
    ensures Reads(step, w, w')
  {
    hide Suffix, Link.LooseFrame, Bytes;
    assert Shows(step, Data(payload, len, offset), Link.LooseFrame(step, num, inverse, payload));
  }

  lemma StepReads(step: CrcStep, at: Point, w: World<Call>)
    requires !at.AwaitSecondEot?
    ensures Reads(step, w, Step(step, at, w).w)
  {
    hide HeaderStep, PacketStep, Reads, Suffix;
    match at
    case AwaitHeader(retries) => HeaderReads(step, retries, w);
    case AwaitPacket(_, _, _, _) => PacketReads(step, at, w);
  }

  /** The calls of `r` that come after those of `w` were on the script of `w`. */
  ghost predicate Vouches(step: CrcStep, w: World<Call>, r: World<Call>, segs: seq<seq<byte>>) {
    && w.calls <= r.calls && |segs| == |r.calls| - |w.calls|
    && (forall i :: 0 <= i < |segs| ==> Shows(step, r.calls[|w.calls| + i], segs[i]))
    && Brings(w.script, segs)
  }

  lemma VouchesOn(step: CrcStep, w: World<Call>, w': World<Call>, r: World<Call>, segs: seq<seq<byte>>)
    returns (all: seq<seq<byte>>)
    requires Reads(step, w, w') && Vouches(step, w', r, segs)
    ensures Vouches(step, w, r, all)
  {
    hide Shows, Bytes, Suffix, Brings;
    if w'.calls == w.calls && Suffix(w'.script, w.script) {
      BringsLater(segs, w'.script, w.script);
      all := segs;
    } else {
      var c, seg :| w'.calls == w.calls + [c] && Shows(step, c, seg) && Suffix(Bytes(seg) + w'.script, w.script);
      BringsNext(seg, segs, w'.script);
      all := [seg] + segs;
      BringsLater(all, Bytes(seg) + w'.script, w.script);
      forall i | 0 <= i < |all| ensures Shows(step, r.calls[|w.calls| + i], all[i]) {
        if i > 0 {
          assert all[i] == segs[i - 1];
        }
      }
    }
  }

  /** The first EOT of a file, and the call that ends the file on the turn after it. */
  lemma EotVouches(step: CrcStep, info: FileInfo, w: World<Call>, w': World<Call>, r: World<Call>, segs: seq<seq<byte>>)
    returns (all: seq<seq<byte>>)
    requires Head(w.script) == Byte(EOT) && Suffix(w'.script, Tail(w.script))
    requires w'.calls == w.calls + [FileEnd(info, Ok)] && Vouches(step, w', r, segs)
    ensures Vouches(step, w, r, all)
  {
    hide Bytes, Suffix, Brings;
    BringsLater(segs, w'.script, Tail(w.script));
    BringsNext([EOT], segs, Tail(w.script));
    BytesNone([], Tail(w.script));
    BytesPrepend(w.script, EOT, [], Tail(w.script));
    assert [EOT] + [] == [EOT];
    all := [[EOT]] + segs;
    forall i | 0 <= i < |all| ensures Shows(step, r.calls[|w.calls| + i], all[i]) {
      if i > 0 {
        assert all[i] == segs[i - 1];
      }
    }
  }

  lemma {:induction false} RunVouched(step: CrcStep, at: Point, w: World<Call>) returns (segs: seq<seq<byte>>)
    requires !at.AwaitSecondEot?
    ensures Vouches(step, w, Run(step, at, w).1, segs)
    decreases |w.script|, Patience(at)
  {
    hide Step, Reads, Vouches, Suffix;
    StepProgress(step, at, w);
    StepReads(step, at, w);
    var r := Step(step, at, w);
    if r.Continue? && r.at.AwaitSecondEot? {
      var r' := Step(step, r.at, r.w);
      EotTurns(step, at, w);
      StepProgress(step, r.at, r.w);
      segs := RunVouched(step, r'.at, r'.w);
      assert Run(step, at, w) == Run(step, r.at, r.w) && Run(step, r.at, r.w) == Run(step, r'.at, r'.w);
      segs := EotVouches(step, r.at.info, w, r'.w, Run(step, at, w).1, segs);
    } else {
      if r.Continue? {
        segs := RunVouched(step, r.at, r.w);
      } else {
        segs := [];
        NothingVouched(step, r.w);
      }
      segs := VouchesOn(step, w, r.w, Run(step, at, w).1, segs);
    }
  }

  lemma EotTurns(step: CrcStep, at: Point, w: World<Call>)
    requires var r := Step(step, at, w); r.Continue? && r.at.AwaitSecondEot? && !at.AwaitSecondEot?
    ensures var r := Step(step, at, w);
      var r' := Step(step, r.at, r.w);
      && Head(w.script) == Byte(EOT) && r'.Continue? && r'.at.AwaitHeader?
      && r'.w.calls == w.calls + [FileEnd(r.at.info, Ok)]
      && Suffix(r'.w.script, Tail(w.script))
  {
    hide ReadBlock, Purge, ParseBlock0, Suffix;
    SuffixReflexive(Tail(w.script));
    TailSuffix(Tail(w.script), Tail(w.script));
  }

  lemma NothingVouched(step: CrcStep, w: World<Call>)
    ensures Vouches(step, w, w, [])
  {
  }

  /** On every input, whatever ymodem_receive passes to storage was on the line with a CRC that
      matched: for each on_file_start the Block 0 with its name and size, for each on_data the block
      that it is given, and for each file ended with OK an EOT, in order and without overlap. */
  lemma StoredWasChecked(step: CrcStep, script: seq<Event>) returns (segs: seq<seq<byte>>)
    ensures var calls := Receive(step, World(script, [], [])).1.calls;
      && |segs| == |calls| && Brings(script, segs)
      && forall i :: 0 <= i < |calls| ==> Shows(step, calls[i], segs[i])
  {
    hide Run, Shows, Brings;
    segs := RunVouched(step, AwaitHeader(0), NextFile(World(script, [], [])).w);
  }
}
