/** The run-length decoder (src/stream_decompress.c:38-57): a bounded in-place decoder that
    produces a prefix of the unbounded decoding. */
module StreamDecompress {
  import opened Serial

  const MARK: byte := 0x90

  /** A marker followed by a non-zero count. */
  predicate StartsRun(input: seq<byte>) {
    |input| >= 2 && input[0] == MARK && input[1] != 0
  }

  /** The decoding after an output byte `last`: a run repeats it, any other byte stands for
      itself. */
  function Decode(input: seq<byte>, last: byte): seq<byte>
    decreases |input|
  {
    if input == [] then []
    else if StartsRun(input) then Repeat(input[1], last) + Decode(input[2..], last)
    else [input[0]] + Decode(input[1..], input[0])
  }

  /** The byte that a run would repeat. */
  function Last(produced: seq<byte>): byte {
    if produced == [] then 0 else produced[|produced| - 1]
  }

  datatype Algorithm = Plain | Rle | Other

  /** modem_decompress_ctx_t and stream_decompress_process. */
  class Decompressor {
    const algo: Algorithm
    var processedBytes: nat

    constructor (algo: Algorithm)
      ensures this.algo == algo && processedBytes == 0
    {
      this.algo, processedBytes := algo, 0;
    }

    /** With output capacity c the RLE decoder writes exactly the first min(c, n) of the n bytes of
        the unbounded decoding, and nothing else of the buffer; every other algorithm copies. */
    method Process(input: seq<byte>, out: array<byte>) returns (produced: nat)
      modifies this`processedBytes, out
      ensures var full := if algo == Rle then Decode(input, 0) else input;
        && produced == Min(out.Length, |full|)
        && out[..produced] == full[..produced]
      ensures out[produced..] == old(out[produced..])
      ensures processedBytes == old(processedBytes) + produced
    {
      if algo == Rle {
        produced := ProcessRle(input, out);
      } else {
        produced := if |input| < out.Length then |input| else out.Length;
        forall i | 0 <= i < produced {
          out[i] := input[i];
        }
      }
      processedBytes := processedBytes + produced;
    }

    method ProcessRle(input: seq<byte>, out: array<byte>) returns (outIdx: nat)
      modifies out
      ensures outIdx == Min(out.Length, |Decode(input, 0)|)
      ensures out[..outIdx] == Decode(input, 0)[..outIdx]
      ensures out[outIdx..] == old(out[outIdx..])
    {
      hide Decode, Repeat, Decoded;
      outIdx := 0;
      var inIdx := 0;
      NothingDecoded(input, out.Length);
      ghost var before: seq<byte>, rest := [], input;
      while inIdx < |input| && outIdx < out.Length
        invariant inIdx <= |input| && outIdx <= out.Length
        invariant rest == input[inIdx..] && before == out[..outIdx]
        invariant Decoded(before, rest, Decode(input, 0), out.Length)
        invariant forall i :: outIdx <= i < out.Length ==> out[i] == old(out[i])
        decreases |input| - inIdx
      {
        if inIdx + 1 < |input| && input[inIdx] == 0x90 && input[inIdx + 1] != 0 {
          var count := input[inIdx + 1];
          var val := if outIdx > 0 then out[outIdx - 1] else 0;
          outIdx := WriteRun(out, outIdx, val, count);
          RunDecoded(rest, before, Decode(input, 0), outIdx - |before|, out.Length);
          before := before + Repeat(outIdx - |before|, val);
          inIdx := inIdx + 2;
          rest := rest[2..];
        } else {
          out[outIdx] := input[inIdx];
          LiteralDecoded(rest, before, Decode(input, 0), out.Length);
          before := before + [rest[0]];
          outIdx, inIdx := outIdx + 1, inIdx + 1;
          rest := rest[1..];
        }
      }
      AllDecoded(before, rest, Decode(input, 0), out.Length);
    }

    /** The loop over k: a run as long as there is room for it. */
    method WriteRun(out: array<byte>, start: nat, val: byte, count: byte) returns (outIdx: nat)
      requires start <= out.Length
      modifies out
      ensures outIdx == Min(out.Length, start + count)
      ensures out[..outIdx] == old(out[..start]) + Repeat(outIdx - start, val)
      ensures out[outIdx..] == old(out[outIdx..])
    {
      outIdx := start;
      var k := 0;
      while k < count && outIdx < out.Length
        invariant 0 <= k <= count && outIdx == start + k <= out.Length
        invariant out[..start] == old(out[..start])
        invariant forall i :: start <= i < outIdx ==> out[i] == val
        invariant forall i :: outIdx <= i < out.Length ==> out[i] == old(out[i])
      {
        out[outIdx] := val;
        outIdx, k := outIdx + 1, k + 1;
      }
    }
  }

  /** While there is room, `produced` followed by the decoding of the unread input is the full
      decoding; a full buffer holds a prefix of it. */
  ghost predicate Decoded(produced: seq<byte>, unread: seq<byte>, full: seq<byte>, capacity: nat) {
    if |produced| < capacity then produced + Decode(unread, Last(produced)) == full else produced <= full
  }

  lemma NothingDecoded(input: seq<byte>, capacity: nat)
    ensures Decoded([], input, Decode(input, 0), capacity)
  {
    assert [] + Decode(input, 0) == Decode(input, 0);
  }

  lemma AllDecoded(produced: seq<byte>, unread: seq<byte>, full: seq<byte>, capacity: nat)
    requires Decoded(produced, unread, full, capacity)
    requires |produced| <= capacity && (unread == [] || |produced| == capacity)
    ensures |produced| == Min(capacity, |full|) && produced == full[..|produced|]
  {
    if |produced| < capacity {
      assert produced + Decode([], Last(produced)) == produced;
    }
  }

  /** A run of count `rest[1]`, written `k` bytes long. */
  lemma RunDecoded(rest: seq<byte>, before: seq<byte>, full: seq<byte>, k: nat, capacity: nat)
    requires StartsRun(rest) && |before| < capacity
    requires Decoded(before, rest, full, capacity)
    requires |before| + k == Min(capacity, |before| + rest[1])
    ensures Decoded(before + Repeat(k, Last(before)), rest[2..], full, capacity)
  {
    var val := Last(before);
    var more := Decode(rest[2..], val);
    assert Decode(rest, val) == Repeat(rest[1], val) + more;
    assert before + (Repeat(rest[1], val) + more) == before + Repeat(rest[1], val) + more;
    assert before + Repeat(k, val) == full[..|before| + k];
  }

  /** A byte that starts no run. */
  lemma LiteralDecoded(rest: seq<byte>, before: seq<byte>, full: seq<byte>, capacity: nat)
    requires rest != [] && !StartsRun(rest) && |before| < capacity
    requires Decoded(before, rest, full, capacity)
    ensures Decoded(before + [rest[0]], rest[1..], full, capacity)
  {
    hide Decode;
    var more := Decode(rest[1..], rest[0]);
    LiteralUnfolds(rest, Last(before));
    assert before + ([rest[0]] + more) == before + [rest[0]] + more;
  }

  lemma LiteralUnfolds(s: seq<byte>, last: byte)
    requires s != [] && !StartsRun(s)
    ensures Decode(s, last) == [s[0]] + Decode(s[1..], s[0])
  {
  }

  /** The decoding grows the input at most by 255/2. */
  lemma {:induction false} DecodeLength(input: seq<byte>, last: byte)
    ensures 2 * |Decode(input, last)| <= 255 * |input|
    decreases |input|
  {
    if input != [] {
      if StartsRun(input) {
        DecodeLength(input[2..], last);
      } else {
        DecodeLength(input[1..], input[0]);
      }
    }
  }

  /** Input made of runs of 255 and nothing else. */
  predicate LongestRuns(input: seq<byte>)
    decreases |input|
  {
    input == [] || (|input| >= 2 && input[0] == MARK && input[1] == 255 && LongestRuns(input[2..]))
  }

  /** The bound is met exactly by such input. */
  lemma {:induction false} DecodeLengthTight(input: seq<byte>, last: byte)
    ensures 2 * |Decode(input, last)| == 255 * |input| <==> LongestRuns(input)
    decreases |input|
  {
    if input != [] {
      if StartsRun(input) {
        DecodeLength(input[2..], last);
        DecodeLengthTight(input[2..], last);
      } else {
        DecodeLength(input[1..], input[0]);
      }
    }
  }

  /** Every marker is the last byte or is followed by a zero. */
  ghost predicate Escaped(s: seq<byte>) {
    forall i :: 0 <= i < |s| - 1 && s[i] == MARK ==> s[i + 1] == 0
  }

  /** Input in which no run starts, such as input without the marker, is its own decoding. */
  lemma {:induction false} DecodeIdentity(input: seq<byte>, last: byte)
    requires Escaped(input)
    ensures Decode(input, last) == input
    decreases |input|
  {
    if input != [] {
      assert |input| > 1 && input[0] == MARK ==> input[0 + 1] == 0;
      assert forall i :: 0 <= i < |input[1..]| ==> input[1..][i] == input[i + 1];
      DecodeIdentity(input[1..], input[0]);
    }
  }

  /** A decoding never puts a non-zero byte after a marker. */
  lemma {:induction false} DecodeEscaped(input: seq<byte>, last: byte)
    requires last == MARK ==> !StartsRun(input)
    ensures Escaped(Decode(input, last))
    decreases |input|
  {
    if input != [] {
      var rest := if StartsRun(input) then input[2..] else input[1..];
      if StartsRun(input) {
        DecodeEscaped(rest, last);
      } else {
        DecodeEscaped(rest, input[0]);
        assert input[0] == MARK && rest != [] ==> Decode(rest, MARK)[0] == 0;
      }
    }
  }

  /** The format has no way to write a marker that a non-zero byte follows: a byte string is the
      decoding of some input exactly when each of its markers is last or precedes a zero. */
  lemma DecodableExactlyWhen(s: seq<byte>)
    ensures (exists input :: Decode(input, 0) == s) <==> Escaped(s)
  {
    if input :| Decode(input, 0) == s {
      DecodeEscaped(input, 0);
    }
    if Escaped(s) {
      DecodeIdentity(s, 0);
    }
  }

  // ----- an encoder -----

  /** How many bytes at the start repeat the first one, up to `limit`. */
  function RunLength(s: seq<byte>, limit: nat): (k: nat)
    requires s != [] && limit > 0
    ensures 1 <= k <= limit && k <= |s|
    ensures forall i :: 0 <= i < k ==> s[i] == s[0]
  {
    if |s| == 1 || limit == 1 || s[1] != s[0] then 1 else 1 + RunLength(s[1..], limit - 1)
  }

  /** Runs of 3 to 256 equal bytes become the byte, the marker and the number of repetitions. */
  function Encode(s: seq<byte>): seq<byte>
    decreases |s|
  {
    if s == [] then []
    else
      var k := RunLength(s, 256);
      if s[0] != 0x90 && k >= 3 then [s[0], 0x90, k - 1] + Encode(s[k..]) else [s[0]] + Encode(s[1..])
  }

  lemma EscapedTail(s: seq<byte>, k: nat)
    requires Escaped(s) && k <= |s|
    ensures Escaped(s[k..])
    ensures k > 0 && |s| > k && s[k - 1] == MARK ==> s[k] == 0
  {
    forall i | 0 <= i < |s[k..]| - 1 && s[k..][i] == MARK ensures s[k..][i + 1] == 0 {
      assert s[k + i] == MARK;
    }
  }

  lemma EncodeStarts(s: seq<byte>)
    requires s != []
    ensures Encode(s) != [] && Encode(s)[0] == s[0]
  {
  }

  /** Whatever can be encoded at all is: the encoding decodes to the input, and is never longer. */
  lemma {:induction false} RunsRoundTrip(s: seq<byte>, last: byte)
    requires Escaped(s)
    ensures Decode(Encode(s), last) == s && |Encode(s)| <= |s|
    decreases |s|
  {
    hide Encode, Escaped, Decode;
    if s == [] {
      NothingEncoded(last);
    } else {
      var k := RunLength(s, 256);
      if s[0] != MARK && k >= 3 {
        EscapedTail(s, k);
        RunsRoundTrip(s[k..], s[0]);
        EncodeRun(s, k);
        RunDecodes(s[0], k - 1, Encode(s[k..]), last);
        RunSplit(s, k);
      } else {
        EscapedTail(s, 1);
        RunsRoundTrip(s[1..], s[0]);
        EncodeLiteral(s);
        LiteralDecodes(s[0], Encode(s[1..]), last);
        assert s == [s[0]] + s[1..];
      }
    }
  }

  lemma NothingEncoded(last: byte)
    ensures Encode([]) == [] && Decode([], last) == []
  {
  }

  lemma RunSplit(s: seq<byte>, k: nat)
    requires 1 <= k <= |s| && forall i :: 0 <= i < k ==> s[i] == s[0]
    ensures s == [s[0]] + Repeat(k - 1, s[0]) + s[k..]
  {
    assert s[..k] == [s[0]] + Repeat(k - 1, s[0]);
  }

  /** A literal, and what the encoding has after a marker. */
  lemma EncodeLiteral(s: seq<byte>)
    requires s != [] && Escaped(s) && (s[0] == MARK || RunLength(s, 256) < 3)
    ensures Encode(s) == [s[0]] + Encode(s[1..])
    ensures s[0] == MARK && Encode(s[1..]) != [] ==> Encode(s[1..])[0] == 0
  {
    EscapedTail(s, 1);
    if |s| > 1 {
      EncodeStarts(s[1..]);
    }
  }

  lemma EncodeRun(s: seq<byte>, k: nat)
    requires s != [] && k == RunLength(s, 256) && s[0] != MARK && k >= 3
    ensures Encode(s) == [s[0], MARK, k - 1] + Encode(s[k..])
  {
  }

  lemma RunDecodes(b: byte, n: byte, rest: seq<byte>, last: byte)
    requires b != MARK && n > 0
    ensures Decode([b, MARK, n] + rest, last) == [b] + Repeat(n, b) + Decode(rest, b)
  {
    var s := [b, MARK, n] + rest;
    assert s[1..] == [MARK, n] + rest && s[1..][2..] == rest;
    assert [b] + (Repeat(n, b) + Decode(rest, b)) == [b] + Repeat(n, b) + Decode(rest, b);
  }

  lemma LiteralDecodes(b: byte, rest: seq<byte>, last: byte)
    requires b == MARK && rest != [] ==> rest[0] == 0
    ensures Decode([b] + rest, last) == [b] + Decode(rest, b)
  {
    assert ([b] + rest)[1..] == rest;
  }
}
