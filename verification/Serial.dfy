/** The transport that every protocol engine talks to.

    The source reaches the line through a `read_byte` callback, which yields a byte, a timeout
    or a cancel request, and a `write_bytes` callback. Here the line is a finite script of
    events followed by silence; what an engine writes and which storage callbacks it makes are
    recorded in order. */
module Serial {

  /** uint8_t, with its wrap-around written out. */
  type byte = x: int | 0 <= x < 256

  function Inc(b: byte): byte { (b + 1) % 256 }

  function Dec(b: byte): byte { (b + 255) % 256 }

  function Not(b: byte): byte { 255 - b }

  function Min(a: nat, b: nat): nat { if a < b then a else b }

  /** memset. */
  function Repeat(n: nat, b: byte): (bs: seq<byte>)
    ensures |bs| == n
    ensures forall i :: 0 <= i < n ==> bs[i] == b
  {
    seq(n, _ => b)
  }

  datatype Option<T> = None | Some(value: T)

  /** One answer of `read_byte`: a byte (0), a timeout (-1) or a user cancel (-2). */
  datatype Event = Byte(value: byte) | Timeout | Cancel

  /** The answer of the next read; silence reads as a timeout. */
  function Head(s: seq<Event>): Event {
    if s == [] then Timeout else s[0]
  }

  /** The script after one read. */
  function Tail(s: seq<Event>): seq<Event> {
    if s == [] then [] else s[1..]
  }

  /** A byte string as it arrives undisturbed. */
  function Bytes(bs: seq<byte>): seq<Event> {
    if bs == [] then [] else [Byte(bs[0])] + Bytes(bs[1..])
  }

  /** Reading a script that starts with a known byte. */
  lemma BytesHead(b: byte, bs: seq<byte>, rest: seq<Event>)
    ensures Head(Bytes([b] + bs) + rest) == Byte(b)
    ensures Tail(Bytes([b] + bs) + rest) == Bytes(bs) + rest
  {
    assert ([b] + bs)[1..] == bs;
    assert [Byte(b)] + Bytes(bs) + rest == [Byte(b)] + (Bytes(bs) + rest);
  }

  lemma BytesPrepend(s: seq<Event>, b: byte, bs: seq<byte>, rest: seq<Event>)
    requires Head(s) == Byte(b) && Tail(s) == Bytes(bs) + rest
    ensures s == Bytes([b] + bs) + rest
  {
    BytesHead(b, bs, rest);
  }

  lemma BytesCons(b: byte, bs: seq<byte>)
    ensures Bytes([b] + bs) == [Byte(b)] + Bytes(bs)
  {
    assert ([b] + bs)[1..] == bs;
  }

  lemma {:induction false} BytesConcat(a: seq<byte>, b: seq<byte>)
    ensures Bytes(a + b) == Bytes(a) + Bytes(b)
  {
    if a == [] {
      assert a + b == b;
    } else {
      hide Bytes;
      BytesConcat(a[1..], b);
      BytesCons(a[0], a[1..]);
      BytesCons(a[0], a[1..] + b);
      HeadFirst(a, b);
      Associate([Byte(a[0])], Bytes(a[1..]), Bytes(b));
    }
  }

  lemma HeadFirst(a: seq<byte>, b: seq<byte>)
    requires a != []
    ensures a == [a[0]] + a[1..] && a + b == [a[0]] + (a[1..] + b)
  {
  }

  lemma Associate(a: seq<Event>, b: seq<Event>, c: seq<Event>)
    ensures a + (b + c) == a + b + c
  {
  }

  lemma BytesAppend(a: seq<byte>, b: seq<byte>, rest: seq<Event>)
    ensures Bytes(a + b) + rest == Bytes(a) + (Bytes(b) + rest)
  {
    hide Bytes;
    BytesConcat(a, b);
  }

  lemma {:induction false} BytesAt(bs: seq<byte>)
    ensures |Bytes(bs)| == |bs|
    ensures forall i :: 0 <= i < |bs| ==> Bytes(bs)[i] == Byte(bs[i])
  {
    if bs != [] {
      BytesAt(bs[1..]);
    }
  }

  /** Byte strings of the same layout, one a prefix of the other, have the same parts. */
  lemma SameParts(a: seq<byte>, p: seq<byte>, c: seq<byte>, a': seq<byte>, p': seq<byte>, c': seq<byte>)
    requires |a| == |a'| && |p| == |p'| && |c| == |c'|
    requires a + p + c <= a' + p' + c'
    ensures p == p' && c == c'
  {
    var n, m := |a|, |a| + |p|;
    assert a + p + c == a' + p' + c';
    assert p == (a + p + c)[n..m] && p' == (a' + p' + c')[n..m];
    assert c == (a + p + c)[m..] && c' == (a' + p' + c')[m..];
  }

  /** No timeout and no cancel. */
  predicate OnlyBytes(s: seq<Event>) {
    forall e :: e in s ==> e.Byte?
  }

  /** The result of reading a fixed number of bytes into a buffer. */
  datatype Filled = Got(bytes: seq<byte>, rest: seq<Event>) | Broke(why: Event, rest: seq<Event>)

  /** Reads until `acc` holds `n` bytes; the first answer that is not a byte ends the reading. */
  function Fill(s: seq<Event>, n: nat, acc: seq<byte>): (r: Filled)
    requires |acc| <= n
    ensures |r.rest| <= |s|
    ensures r.Got? ==> |r.bytes| == n && acc <= r.bytes
    ensures r.Broke? ==> !r.why.Byte?
    decreases n - |acc|
  {
    if |acc| == n then Got(acc, s)
    else match Head(s)
      case Byte(b) => Fill(Tail(s), n, acc + [b])
      case e => Broke(e, Tail(s))
  }

  lemma FillByte(b: byte, s: seq<Event>, n: nat, acc: seq<byte>)
    requires |acc| < n
    ensures Fill([Byte(b)] + s, n, acc) == Fill(s, n, acc + [b])
  {
    assert ([Byte(b)] + s)[1..] == s;
  }

  lemma FillFull(s: seq<Event>, acc: seq<byte>)
    ensures Fill(s, |acc|, acc) == Got(acc, s)
  {
  }

  lemma {:induction false} FillReads(bs: seq<byte>, rest: seq<Event>, acc: seq<byte>)
    ensures Fill(Bytes(bs) + rest, |acc| + |bs|, acc) == Got(acc + bs, rest)
    decreases |bs|
  {
    hide Fill, Bytes;
    if bs == [] {
      BytesNone(bs, rest);
      FillFull(rest, acc);
      assert acc + bs == acc;
    } else {
      var b, more := bs[0], bs[1..];
      assert bs == [b] + more && acc + bs == acc + [b] + more;
      BytesCons(b, more);
      Associate([Byte(b)], Bytes(more), rest);
      FillByte(b, Bytes(more) + rest, |acc| + |bs|, acc);
      FillReads(more, rest, acc + [b]);
    }
  }

  /** Reading `bs` off the front of a longer arrival. */
  lemma FillFront(bs: seq<byte>, more: seq<byte>, rest: seq<Event>)
    ensures Fill(Bytes(bs + more) + rest, |bs|, []) == Got(bs, Bytes(more) + rest)
  {
    BytesAppend(bs, more, rest);
    FillReads(bs, Bytes(more) + rest, []);
    assert [] + bs == bs;
  }

  lemma {:induction false} FillWasThere(s: seq<Event>, n: nat, acc: seq<byte>)
    requires |acc| <= n && Fill(s, n, acc).Got?
    ensures var r := Fill(s, n, acc); s == Bytes(r.bytes[|acc|..]) + r.rest
    decreases n - |acc|
  {
    hide Bytes;
    var r := Fill(s, n, acc);
    if |acc| == n {
      BytesNone(r.bytes[|acc|..], r.rest);
    } else {
      var b := Head(s).value;
      FillWasThere(Tail(s), n, acc + [b]);
      assert r.bytes[|acc|..] == [b] + r.bytes[|acc| + 1..];
      BytesPrepend(s, b, r.bytes[|acc| + 1..], r.rest);
    }
  }

  lemma BytesNone(bs: seq<byte>, rest: seq<Event>)
    requires bs == []
    ensures Bytes(bs) + rest == rest
  {
  }

  /** What purge_rx leaves: everything up to and including the first read that is not a byte. */
  function Purge(s: seq<Event>): (rest: seq<Event>)
    ensures |rest| <= |s|
  {
    if Head(s).Byte? then Purge(Tail(s)) else Tail(s)
  }

  lemma {:induction false} PurgeStops(bs: seq<byte>, rest: seq<Event>)
    ensures Purge(Bytes(bs) + [Timeout] + rest) == rest
  {
    if bs == [] {
      assert Bytes(bs) + [Timeout] + rest == [Timeout] + rest;
    } else {
      assert bs == [bs[0]] + bs[1..];
      BytesHead(bs[0], bs[1..], [Timeout] + rest);
      assert Bytes(bs) + [Timeout] + rest == Bytes(bs) + ([Timeout] + rest);
      assert Bytes(bs[1..]) + [Timeout] + rest == Bytes(bs[1..]) + ([Timeout] + rest);
      PurgeStops(bs[1..], rest);
    }
  }

  lemma {:induction false} FillOnlyBytes(s: seq<Event>, n: nat, acc: seq<byte>)
    requires |acc| <= n && OnlyBytes(s)
    ensures var r := Fill(s, n, acc); OnlyBytes(r.rest) && (r.Broke? ==> r.why == Timeout)
    decreases n - |acc|
  {
    if |acc| < n && s != [] {
      assert s[0] in s;
      FillOnlyBytes(Tail(s), n, acc + [Head(s).value]);
    }
  }

  lemma {:induction false} PurgeOnlyBytes(s: seq<Event>)
    requires OnlyBytes(s)
    ensures Purge(s) == []
  {
    if s != [] {
      assert s[0] in s;
      PurgeOnlyBytes(s[1..]);
    }
  }

  lemma FillTimeout(s: seq<Event>, n: nat, acc: seq<byte>)
    requires |acc| < n
    ensures Fill([Timeout] + s, n, acc) == Broke(Timeout, s)
  {
    assert ([Timeout] + s)[1..] == s;
  }

  lemma OnlyBytesHead(s: seq<Event>) returns (b: byte, t: seq<Event>)
    requires OnlyBytes(s) && s != []
    ensures s == [Byte(b)] + t && OnlyBytes(t)
  {
    assert s[0] in s;
    b, t := s[0].value, s[1..];
  }

  lemma AppendLater(e: Event, s: seq<Event>, more: seq<Event>)
    ensures [e] + s + more == [e] + (s + more)
    ensures [e] + s + [Timeout] + more == [e] + (s + [Timeout] + more)
  {
  }

  lemma NothingFirst(more: seq<Event>)
    ensures [] + more == more && [] + [Timeout] + more == [Timeout] + more
  {
  }

  /** What a longer script leaves of a reading: with the same bytes, or ended by the failed read that
      follows them. */
  predicate Continues(r: Filled, s: seq<Event>, n: nat, acc: seq<byte>, more: seq<Event>)
    requires |acc| <= n
  {
    if r.Got? then Fill(s + more, n, acc) == Got(r.bytes, r.rest + more)
    else r.rest == [] && Fill(s + [Timeout] + more, n, acc) == Broke(Timeout, more)
  }

  lemma ContinuesByte(r: Filled, b: byte, t: seq<Event>, n: nat, acc: seq<byte>, more: seq<Event>)
    requires |acc| < n && Continues(r, t, n, acc + [b], more)
    ensures Continues(r, [Byte(b)] + t, n, acc, more)
  {
    hide Fill;
    AppendLater(Byte(b), t, more);
    FillByte(b, t + more, n, acc);
    FillByte(b, t + [Timeout] + more, n, acc);
  }

  lemma {:induction false} FillContinues(s: seq<Event>, n: nat, acc: seq<byte>, more: seq<Event>)
    requires |acc| <= n && OnlyBytes(s)
    ensures Continues(Fill(s, n, acc), s, n, acc, more)
    decreases n - |acc|
  {
    if |acc| < n {
      if s == [] {
        NothingFirst(more);
        FillTimeout(more, n, acc);
      } else {
        hide Fill, OnlyBytes, Continues;
        var b, t := OnlyBytesHead(s);
        FillContinues(t, n, acc + [b], more);
        FillByte(b, t, n, acc);
        ContinuesByte(Fill(t, n, acc + [b]), b, t, n, acc, more);
      }
    }
  }

  /** Reading into a buffer on the arrival, and on the arrival followed by one failed read. */
  lemma FillPadded(s: seq<Event>, n: nat, acc: seq<byte>, more: seq<Event>)
    requires |acc| <= n && OnlyBytes(s)
    ensures var r := Fill(s, n, acc);
      if r.Got? then Fill(s + more, n, acc) == Got(r.bytes, r.rest + more)
      else r.rest == [] && Fill(s + [Timeout] + more, n, acc) == Broke(Timeout, more)
  {
    hide Fill;
    FillContinues(s, n, acc, more);
  }

  /** A purge ends with the first failed read. */
  lemma {:induction false} PurgePadded(s: seq<Event>, more: seq<Event>)
    requires OnlyBytes(s)
    ensures Purge(s + [Timeout] + more) == more
  {
    if s == [] {
      assert s + [Timeout] + more == [Timeout] + more;
    } else {
      assert s[0] in s;
      PurgePadded(s[1..], more);
      assert s + [Timeout] + more == [s[0]] + (s[1..] + [Timeout] + more);
    }
  }

  /** What is left after some reads. */
  predicate Suffix(rest: seq<Event>, s: seq<Event>) {
    |rest| <= |s| && rest == s[|s| - |rest|..]
  }

  lemma SuffixTransitive(a: seq<Event>, b: seq<Event>, c: seq<Event>)
    requires Suffix(a, b) && Suffix(b, c)
    ensures Suffix(a, c)
  {
    assert c[|c| - |b|..][|b| - |a|..] == c[|c| - |a|..];
  }

  lemma TailSuffix(t: seq<Event>, s: seq<Event>)
    requires Suffix(t, s)
    ensures Suffix(Tail(t), s)
  {
    SuffixTransitive(Tail(t), t, s);
  }

  lemma {:induction false} FillSuffix(s: seq<Event>, n: nat, acc: seq<byte>)
    requires |acc| <= n
    ensures Suffix(Fill(s, n, acc).rest, s)
    decreases n - |acc|
  {
    if |acc| < n && Head(s).Byte? {
      FillSuffix(Tail(s), n, acc + [Head(s).value]);
      SuffixTransitive(Fill(s, n, acc).rest, Tail(s), s);
    }
  }

  lemma {:induction false} PurgeSuffix(s: seq<Event>)
    ensures Suffix(Purge(s), s)
  {
    if Head(s).Byte? {
      PurgeSuffix(Tail(s));
      SuffixTransitive(Purge(s), Tail(s), s);
    }
  }

  /** These byte strings occur in the script, in this order and without overlap. */
  ghost predicate Brings(s: seq<Event>, segs: seq<seq<byte>>)
    decreases |segs|, 1
  {
    segs == [] || exists i: nat :: BringsAt(s, segs, i)
  }

  ghost predicate BringsAt(s: seq<Event>, segs: seq<seq<byte>>, i: nat)
    requires segs != []
    decreases |segs|, 0
  {
    var end := i + |segs[0]|;
    end <= |s| && s[i..end] == Bytes(segs[0]) && Brings(s[end..], segs[1..])
  }

  lemma BringsLater(segs: seq<seq<byte>>, rest: seq<Event>, s: seq<Event>)
    requires Suffix(rest, s) && Brings(rest, segs)
    ensures Brings(s, segs)
  {
    if segs != [] {
      var i: nat :| BringsAt(rest, segs, i);
      var skip, n := |s| - |rest|, |segs[0]|;
      assert s[skip + i..skip + i + n] == rest[i..i + n] && s[skip + i + n..] == rest[i + n..];
      assert BringsAt(s, segs, skip + i);
    }
  }

  lemma BringsNext(seg: seq<byte>, segs: seq<seq<byte>>, rest: seq<Event>)
    requires Brings(rest, segs)
    ensures Brings(Bytes(seg) + rest, [seg] + segs)
  {
    BytesAt(seg);
    var s := Bytes(seg) + rest;
    assert s[0..0 + |seg|] == Bytes(seg) && s[0 + |seg|..] == rest && ([seg] + segs)[1..] == segs;
    assert BringsAt(s, [seg] + segs, 0);
  }

  lemma SuffixReflexive(s: seq<Event>)
    ensures Suffix(s, s)
  {
  }

  lemma SuffixAfter(bs: seq<byte>, rest: seq<Event>)
    ensures Suffix(rest, Bytes(bs) + rest)
  {
  }

  /** The bytes a script brings, in order. */
  function ByteEvents(s: seq<Event>): seq<byte> {
    if s == [] then []
    else (if s[0].Byte? then [s[0].value] else []) + ByteEvents(s[1..])
  }

  /** The script brings exactly these bytes, and no cancel request. */
  predicate Spells(s: seq<Event>, bs: seq<byte>) {
    ByteEvents(s) == bs && Cancel !in s
  }

  /** Nothing but failed reads. */
  predicate Silent(s: seq<Event>) {
    forall e :: e in s ==> e == Timeout
  }

  lemma ByteEventsCons(e: Event, s: seq<Event>)
    ensures ByteEvents([e] + s) == (if e.Byte? then [e.value] else []) + ByteEvents(s)
  {
    assert ([e] + s)[1..] == s;
  }

  lemma {:induction false} ByteEventsConcat(a: seq<Event>, b: seq<Event>)
    ensures ByteEvents(a + b) == ByteEvents(a) + ByteEvents(b)
    decreases |a|
  {
    if a == [] {
      assert a + b == b;
    } else {
      hide ByteEvents;
      ByteEventsConcat(a[1..], b);
      ByteEventsCons(a[0], a[1..]);
      ByteEventsCons(a[0], a[1..] + b);
      assert a == [a[0]] + a[1..] && a + b == [a[0]] + (a[1..] + b);
    }
  }

  lemma SpellsConcat(a: seq<Event>, x: seq<byte>, b: seq<Event>, y: seq<byte>)
    requires Spells(a, x) && Spells(b, y)
    ensures Spells(a + b, x + y)
  {
    hide ByteEvents;
    ByteEventsConcat(a, b);
  }

  lemma {:induction false} BytesSpell(bs: seq<byte>)
    ensures Spells(Bytes(bs), bs)
  {
    if bs != [] {
      BytesSpell(bs[1..]);
      assert Bytes(bs)[1..] == Bytes(bs[1..]);
    }
  }

  lemma {:induction false} SilenceSpells(s: seq<Event>)
    requires Silent(s)
    ensures Spells(s, [])
    decreases |s|
  {
    if s != [] {
      assert s[0] in s && forall e :: e in s[1..] ==> e in s;
      SilenceSpells(s[1..]);
    }
  }

  /** Bytes, the failed reads that end the turn, and what they spell. */
  lemma SegmentSpells(bs: seq<byte>, pad: seq<Event>, more: seq<Event>)
    requires bs != [] && Silent(pad)
    ensures var seg := Bytes(bs) + (pad + [Timeout]);
      && Spells(seg, bs)
      && seg + more == [Byte(bs[0])] + (Bytes(bs[1..]) + pad + ([Timeout] + more))
  {
    hide Spells, Silent;
    BytesSpell(bs);
    StillSilent(pad);
    SilenceSpells(pad + [Timeout]);
    SpellsConcat(Bytes(bs), bs, pad + [Timeout], []);
    assert bs + [] == bs;
    Regroup([Byte(bs[0])], Bytes(bs[1..]), pad, [Timeout], more);
  }

  lemma StillSilent(pad: seq<Event>)
    requires Silent(pad)
    ensures Silent(pad + [Timeout])
  {
  }

  lemma Regroup(a: seq<Event>, b: seq<Event>, c: seq<Event>, d: seq<Event>, e: seq<Event>)
    ensures a + b + (c + d) + e == a + (b + c + (d + e))
  {
  }

  /** A script of bytes alone is the one its bytes make. */
  lemma {:induction false} BytesOfEvents(s: seq<Event>)
    requires OnlyBytes(s)
    ensures s == Bytes(ByteEvents(s))
    decreases |s|
  {
    if s != [] {
      assert s[0] in s;
      BytesOfEvents(s[1..]);
      assert ByteEvents(s)[1..] == ByteEvents(s[1..]);
    }
  }

  /** Everything an engine can observe or cause: the unread script, the bytes written so far and
      the callbacks made so far. */
  datatype World<C> = World(script: seq<Event>, sent: seq<byte>, calls: seq<C>) {
    function Sends(bs: seq<byte>): World<C> { this.(sent := sent + bs) }

    function Makes(c: C): World<C> { this.(calls := calls + [c]) }

    function Leaves(s: seq<Event>): World<C> { this.(script := s) }
  }

  /** What becomes of a call: it returns with a status, or it goes on for ever. */
  datatype Outcome<S, C> = Returned(status: S, w: World<C>) | Never

  /** The mutable end of the line that the engines below drive. */
  class Port<C> {
    var script: seq<Event>
    var sent: seq<byte>
    var calls: seq<C>

    function W(): World<C>
      reads this
    {
      World(script, sent, calls)
    }

    constructor (script: seq<Event>)
      ensures W() == World(script, [], [])
    {
      this.script, sent, calls := script, [], [];
    }

    method ReadByte() returns (e: Event)
      modifies this`script
      ensures e == Head(old(script)) && script == Tail(old(script))
    {
      if script == [] {
        e := Timeout;
      } else {
        e, script := script[0], script[1..];
      }
    }

    method Write(bs: seq<byte>)
      modifies this`sent
      ensures sent == old(sent) + bs
    {
      sent := sent + bs;
    }

    method Call(c: C)
      modifies this`calls
      ensures calls == old(calls) + [c]
    {
      calls := calls + [c];
    }

    /** purge_rx: drop input until a read fails. */
    method PurgeInput()
      modifies this`script
      ensures script == Purge(old(script))
    {
      var e := ReadByte();
      while e.Byte?
        invariant Purge(old(script)) == if e.Byte? then Purge(script) else script
        decreases |script|, e.Byte?
      {
        e := ReadByte();
      }
    }

    /** Reads `n` bytes into the front of `buf`. */
    method FillBuffer(buf: array<byte>, n: nat) returns (ok: bool, why: Event)
      requires n <= buf.Length
      modifies this`script, buf
      ensures var r := Fill(old(script), n, []);
              && script == r.rest
              && ok == r.Got?
              && (if ok then buf[..n] == r.bytes else why == r.why)
    {
      var i := 0;
      assert buf[..0] == [];
      while i < n
        invariant 0 <= i <= n
        invariant Fill(old(script), n, []) == Fill(script, n, buf[..i])
      {
        var e := ReadByte();
        if !e.Byte? {
          return false, e;
        }
        buf[i] := e.value;
        assert buf[..i + 1] == buf[..i] + [e.value];
        i := i + 1;
      }
      return true, Timeout;
    }
  }
}
