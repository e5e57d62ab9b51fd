/** YMODEM Block 0 (src/ymodem.c:38-71, 315-324): a file's name and size in 128 bytes. */
module YmodemBlock0 {
  import opened Serial
  import opened Metadata
  import opened Numerals

  const BLOCK0: nat := 128
  const NAME_LIMIT: nat := 100

  /** The written form: at most 100 bytes of name, NUL, the decimal size as far as it fits before
      a final NUL, zeros. The end of the batch is all zeros. */
  function Block0(f: File): (b: seq<byte>)
    ensures |b| == BLOCK0
  {
    var name := Cut(CString(f.name), NAME_LIMIT);
    var size := Cut(Decimal(|f.content|), BLOCK0 - (|name| + 1) - 1);
    name + [0] + size + Repeat(BLOCK0 - |name| - 1 - |size|, 0)
  }

  const END_OF_BATCH: seq<byte> := Repeat(BLOCK0, 0)

  /** parse_block0: an empty name yields no size; the size string is cut to 31 bytes. */
  function ParseBlock0(p: seq<byte>): FileInfo
    requires p != []
  {
    if p[0] == 0 then FileInfo([], 0)
    else
      var n := Min(Length(p), 255);
      var pos := n + 1;
      FileInfo(p[..n],
        if pos < |p| && p[pos] != 0 then Strtoul(p[pos..pos + Min(Length(p[pos..]), 31)]) else 0)
  }

  /** What the receiver learns about a file. */
  function InfoOf(f: File): FileInfo {
    FileInfo(Cut(f.name, NAME_LIMIT), |f.content|)
  }

  /** Printing and parsing Block 0 undo each other: every clean name comes back, cut to 100 bytes,
      with every 64-bit size. */
  lemma Block0RoundTrip(f: File)
    requires f.name != [] && 0 !in f.name && |f.content| <= SIZE_MAX
    ensures ParseBlock0(Block0(f)) == InfoOf(f)
  {
    hide Strtoul, Decimal;
    LengthOfClean(f.name);
    SizeDigits(|f.content|);
    var name, size := Cut(f.name, NAME_LIMIT), Decimal(|f.content|);
    var b := Block0(f);
    var zeros := Repeat(BLOCK0 - |name| - 1 - |size|, 0);
    assert b == name + [0] + (size + zeros);
    LengthOfTerminated(name, size + zeros);
    var pos := |name| + 1;
    assert b[..|name|] == name && b[pos..] == size + zeros;
    assert b[pos] == size[0];
    DecimalDigits(|f.content|);
    assert size[0] in size && 0 !in size;
    assert zeros == [0] + zeros[1..];
    assert size + zeros == size + [0] + zeros[1..];
    LengthOfTerminated(size, zeros[1..]);
    assert b[pos..pos + |size|] == size + [];
    StrtoulDecimal(|f.content|, []);
  }

  /** The name field of a file is never mistaken for the end of the batch, nor the other way. */
  lemma EndRecognised(f: File)
    requires f.name != [] && 0 !in f.name
    ensures ParseBlock0(END_OF_BATCH).name == [] && ParseBlock0(Block0(f)).name != []
  {
    hide Strtoul, Decimal;
    LengthOfClean(f.name);
    assert Block0(f)[0] == f.name[0] && f.name[0] in f.name;
  }

  /** Block 0 byte by byte: at most 100 bytes of the name, NUL, the size in decimal, and NULs up to 128
      bytes. */
  lemma Block0Layout(f: File)
    requires f.name != [] && 0 !in f.name && |f.content| <= SIZE_MAX
    ensures var n, size := Min(|f.name|, 100), Decimal(|f.content|);
      && n + 1 + |size| < 128
      && Block0(f) == f.name[..n] + [0] + size + Repeat(127 - n - |size|, 0)
  {
    hide Decimal;
    LengthOfClean(f.name);
    SizeDigits(|f.content|);
    assert f.name[..|f.name|] == f.name;
  }

  /** What parse_block0 makes of any peer's block: the name up to the first NUL and the number in the first
      31 bytes of the text up to the next one. */
  lemma BlockParses(name: seq<byte>, text: seq<byte>, rest: seq<byte>)
    requires name != [] && |name| <= 255 && 0 !in name && 0 !in text && (rest == [] || rest[0] == 0)
    ensures ParseBlock0(name + [0] + text + rest) == FileInfo(name, Strtoul(text[..Min(|text|, 31)]))
  {
    hide Strtoul, Length;
    var p := name + [0] + text + rest;
    assert p == name + [0] + (text + rest);
    LengthOfTerminated(name, text + rest);
    TextLength(text, rest);
    assert name[0] in name;
    NameAndText(name, text + rest);
    NoText();
    assert (text + rest)[..Min(|text|, 31)] == text[..Min(|text|, 31)];
    assert text != [] ==> text[0] in text && (text + rest)[0] == text[0];
  }

  lemma NoText()
    ensures Strtoul([]) == 0
  {
  }

  /** The two fields, wherever the second ends. */
  lemma NameAndText(name: seq<byte>, field: seq<byte>)
    requires var p := name + [0] + field; name != [] && |name| <= 255 && name[0] != 0 && Length(p) == |name|
    ensures var p, n := name + [0] + field, Min(Length(field), 31);
      ParseBlock0(p) == FileInfo(name, if field == [] || field[0] == 0 then 0 else Strtoul(field[..n]))
  {
    hide Strtoul, Length;
    var p, pos := name + [0] + field, |name| + 1;
    var n := Min(Length(field), 31);
    assert p[..|name|] == name && p[pos..] == field;
    assert p[pos..pos + n] == field[..n];
  }

  lemma TextLength(text: seq<byte>, rest: seq<byte>)
    requires 0 !in text && (rest == [] || rest[0] == 0)
    ensures Length(text + rest) == |text|
  {
    if rest == [] {
      assert text + rest == text;
      LengthOfClean(text);
    } else {
      assert text + rest == text + [0] + rest[1..];
      LengthOfTerminated(text, rest[1..]);
    }
  }

  /** A block without any NUL is all name, cut to 255 bytes. */
  lemma UnterminatedName(p: seq<byte>)
    requires p != [] && 0 !in p && |p| <= 256
    ensures ParseBlock0(p) == FileInfo(p[..Min(|p|, 255)], 0)
  {
    LengthOfClean(p);
    assert p[0] in p;
  }
}
