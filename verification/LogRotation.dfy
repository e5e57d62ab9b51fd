/** Log chunk rotation (src/log_rotation.c): next-fit packing of writes into chunks. */
module LogRotation {
  import opened Serial
  import opened Numerals

  datatype Config = Config(maxChunkSize: nat, maxTotalChunks: nat, base: seq<byte>)

  /** "system_log" and "_", ".log". */
  const DEFAULT_BASE: seq<byte> := [115, 121, 115, 116, 101, 109, 95, 108, 111, 103]
  const SEPARATOR: seq<byte> := [95]
  const SUFFIX: seq<byte> := [46, 108, 111, 103]

  /** log_rotation_init replaces zero and empty settings. */
  function Completed(c: Config): (d: Config)
    ensures d.maxChunkSize > 0 && d.maxTotalChunks > 0 && d.base != []
  {
    Config(if c.maxChunkSize == 0 then 65536 else c.maxChunkSize,
           if c.maxTotalChunks == 0 then 5 else c.maxTotalChunks,
           if c.base == [] then DEFAULT_BASE else c.base)
  }

  /** The chunk in use, its fill, and how often the log has rotated and how much was written. */
  datatype State = State(index: nat, bytes: nat, rotations: nat, total: nat)

  const START := State(0, 0, 0, 0)

  /** One write of `len` bytes: rotate first if it does not fit. */
  function Write(c: Config, s: State, len: nat): State
    requires c.maxTotalChunks > 0
  {
    if s.bytes + len > c.maxChunkSize then
      State((s.index + 1) % c.maxTotalChunks, len, s.rotations + 1, s.total + len)
    else s.(bytes := s.bytes + len, total := s.total + len)
  }

  /** snprintf "%s_%zu.log" into `capacity` bytes including the NUL. */
  function FileName(c: Config, index: nat, capacity: nat): seq<byte>
    requires capacity > 0
  {
    var name := c.base + SEPARATOR + Decimal(index) + SUFFIX;
    if |name| < capacity then name else name[..capacity - 1]
  }

  class LogWriter {
    const config: Config
    var currentChunkIndex: nat
    var currentChunkBytes: nat
    ghost var rotations: nat
    ghost var total: nat

    ghost function Model(): State
      reads this
    {
      State(currentChunkIndex, currentChunkBytes, rotations, total)
    }

    constructor (config: Config)
      ensures this.config == Completed(config) && Model() == START
    {
      this.config := Completed(config);
      currentChunkIndex, currentChunkBytes, rotations, total := 0, 0, 0, 0;
    }

    method WriteLog(len: nat, capacity: nat) returns (activeName: Option<seq<byte>>)
      requires config.maxTotalChunks > 0
      modifies this
      ensures Model() == Write(config, old(Model()), len)
      ensures activeName == if capacity > 0 then Some(FileName(config, currentChunkIndex, capacity)) else None
    {
      if currentChunkBytes + len > config.maxChunkSize {
        currentChunkIndex := (currentChunkIndex + 1) % config.maxTotalChunks;
        currentChunkBytes := 0;
        rotations := rotations + 1;
      }
      currentChunkBytes := currentChunkBytes + len;
      total := total + len;
      if capacity > 0 {
        return Some(FileName(config, currentChunkIndex, capacity));
      }
      return None;
    }
  }

  function WriteAll(c: Config, lens: seq<nat>): State
    requires c.maxTotalChunks > 0
  {
    if lens == [] then START else Write(c, WriteAll(c, lens[..|lens| - 1]), lens[|lens| - 1])
  }

  function Sum(lens: seq<nat>): nat {
    if lens == [] then 0 else Sum(lens[..|lens| - 1]) + lens[|lens| - 1]
  }

  /** Two neighbouring chunks together hold more than one chunk size. */
  predicate Packed(c: Config, s: State) {
    var pairs := (s.rotations + 1) / 2;
    if s.rotations % 2 == 1 then s.total > pairs * c.maxChunkSize
    else s.total - s.bytes >= pairs * c.maxChunkSize && (s.rotations > 0 ==> s.total > pairs * c.maxChunkSize)
  }

  lemma WriteKeepsPacked(c: Config, s: State, len: nat)
    requires c.maxTotalChunks > 0 && Packed(c, s) && s.bytes <= s.total
    ensures Packed(c, Write(c, s, len))
  {
    var pairs := (s.rotations + 1) / 2;
    assert s.rotations % 2 == 0 ==> (pairs + 1) * c.maxChunkSize == pairs * c.maxChunkSize + c.maxChunkSize;
  }

  lemma {:induction false} MultipleIsFar(d: nat, m: nat)
    requires d > 0
    ensures d * m >= m
  {
    if d > 1 {
      MultipleIsFar(d - 1, m);
      assert d * m == (d - 1) * m + m;
    }
  }

  /** Division with remainder is unique. */
  lemma RemainderIs(n: nat, q: nat, r: nat, m: nat)
    requires r < m && n == q * m + r
    ensures n % m == r
  {
    var d := n / m - q;
    assert d * m == (n / m) * m - q * m && -d * m == -(d * m);
    if d > 0 {
      MultipleIsFar(d, m);
    } else if d < 0 {
      MultipleIsFar(-d, m);
    }
  }

  /** The rotation step counts modulo m. */
  lemma NextIndex(rotations: nat, m: nat)
    requires m > 0
    ensures (rotations % m + 1) % m == (rotations + 1) % m
  {
    var q, r := rotations / m, rotations % m;
    if r + 1 == m {
      assert rotations + 1 == (q + 1) * m + 0;
      RemainderIs(rotations + 1, q + 1, 0, m);
      RemainderIs(m, 1, 0, m);
    } else {
      RemainderIs(rotations + 1, q, r + 1, m);
      RemainderIs(r + 1, 0, r + 1, m);
    }
  }

  lemma WriteKeepsIndex(c: Config, s: State, len: nat)
    requires c.maxTotalChunks > 0 && s.index == s.rotations % c.maxTotalChunks
    ensures Write(c, s, len).index == Write(c, s, len).rotations % c.maxTotalChunks
  {
    NextIndex(s.rotations, c.maxTotalChunks);
  }

  /** The chunk index is the rotation count modulo the number of chunks. */
  lemma {:induction false} IndexCountsRotations(c: Config, lens: seq<nat>)
    requires c.maxTotalChunks > 0
    ensures WriteAll(c, lens).index == WriteAll(c, lens).rotations % c.maxTotalChunks
  {
    hide Write;
    if lens == [] {
      RemainderIs(0, 0, 0, c.maxTotalChunks);
    } else {
      var before := lens[..|lens| - 1];
      IndexCountsRotations(c, before);
      WriteKeepsIndex(c, WriteAll(c, before), lens[|lens| - 1]);
    }
  }

  /** While no write exceeds a chunk, the current chunk is within its size. */
  lemma {:induction false} ChunkWithinSize(c: Config, lens: seq<nat>)
    requires c.maxTotalChunks > 0 && forall i :: 0 <= i < |lens| ==> lens[i] <= c.maxChunkSize
    ensures WriteAll(c, lens).bytes <= c.maxChunkSize
  {
    if lens != [] {
      ChunkWithinSize(c, lens[..|lens| - 1]);
    }
  }

  lemma {:induction false} TotalIsSum(c: Config, lens: seq<nat>)
    requires c.maxTotalChunks > 0
    ensures WriteAll(c, lens).total == Sum(lens) && WriteAll(c, lens).bytes <= Sum(lens)
  {
    if lens != [] {
      TotalIsSum(c, lens[..|lens| - 1]);
    }
  }

  lemma {:induction false} AlwaysPacked(c: Config, lens: seq<nat>)
    requires c.maxTotalChunks > 0
    ensures Packed(c, WriteAll(c, lens))
  {
    hide Write, Packed;
    if lens == [] {
      NothingPacked(c);
    } else {
      var before := lens[..|lens| - 1];
      AlwaysPacked(c, before);
      TotalIsSum(c, before);
      WriteKeepsPacked(c, WriteAll(c, before), lens[|lens| - 1]);
    }
  }

  lemma NothingPacked(c: Config)
    ensures Packed(c, START)
  {
    assert 0 * c.maxChunkSize == 0;
  }

  /** R >= 1 rotations mean that more than floor((R + 1) / 2) chunk sizes have been written, whatever
      the sizes of the writes: no rotation schedule wears the storage faster. */
  lemma RotationBound(c: Config, lens: seq<nat>)
    requires c.maxTotalChunks > 0
    ensures var r := WriteAll(c, lens).rotations;
      r >= 1 ==> Sum(lens) > ((r + 1) / 2) * c.maxChunkSize
  {
    hide WriteAll, Sum;
    AlwaysPacked(c, lens);
    TotalIsSum(c, lens);
  }

  /** One byte, then a full chunk, `pairs` times over. */
  function Alternating(c: Config, pairs: nat): seq<nat> {
    if pairs == 0 then [] else Alternating(c, pairs - 1) + [1] + [c.maxChunkSize]
  }

  /** The bound cannot be improved by more than a byte for each pair of chunks. */
  lemma {:induction false} RotationBoundTight(c: Config, pairs: nat)
    requires c.maxTotalChunks > 0 && c.maxChunkSize > 0 && pairs > 0
    ensures var s := WriteAll(c, Alternating(c, pairs));
      && s.rotations == 2 * pairs - 1 && s.bytes == c.maxChunkSize
      && s.total == pairs * c.maxChunkSize + pairs
  {
    hide Alternating;
    var before, one := Alternating(c, pairs - 1), Alternating(c, pairs - 1) + [1];
    AlternatingUnfolds(c, pairs);
    assert one[..|one| - 1] == before;
    assert (one + [c.maxChunkSize])[..|one|] == one;
    assert pairs * c.maxChunkSize == (pairs - 1) * c.maxChunkSize + c.maxChunkSize;
    if pairs > 1 {
      RotationBoundTight(c, pairs - 1);
    } else {
      assert WriteAll(c, before) == START;
    }
  }

  lemma AlternatingUnfolds(c: Config, pairs: nat)
    requires pairs > 0
    ensures Alternating(c, pairs) == Alternating(c, pairs - 1) + [1] + [c.maxChunkSize]
    ensures pairs == 1 ==> Alternating(c, pairs - 1) == []
  {
  }

  // ----- names -----

  /** An uncut name is the base, an underscore, the index in decimal, and ".log"; the digits read back as
      the index. */
  lemma NameReads(c: Config, index: nat, capacity: nat)
    requires |c.base| + |Decimal(index)| + 5 < capacity && index <= SIZE_MAX
    ensures var name := FileName(c, index, capacity);
      && c.base + [0x5F] <= name && name[|name| - 4..] == [0x2E, 0x6C, 0x6F, 0x67]
      && Strtoul(name[|c.base| + 1..]) == index
  {
    hide Strtoul;
    var name := FileName(c, index, capacity);
    assert name == (c.base + SEPARATOR) + (Decimal(index) + SUFFIX);
    assert name[|c.base| + 1..] == Decimal(index) + SUFFIX;
    StrtoulDecimal(index, SUFFIX);
  }

  /** So different chunks have different names, however large their indices, when the buffer holds
      them. */
  lemma NamesDiffer(c: Config, i: nat, j: nat, capacity: nat)
    requires |c.base| + |Decimal(i)| + 5 < capacity && |c.base| + |Decimal(j)| + 5 < capacity
    ensures FileName(c, i, capacity) == FileName(c, j, capacity) <==> i == j
  {
    var a, b := FileName(c, i, capacity), FileName(c, j, capacity);
    assert a == (c.base + SEPARATOR) + (Decimal(i) + SUFFIX) && b == (c.base + SEPARATOR) + (Decimal(j) + SUFFIX);
    if a == b {
      assert a[|c.base| + 1..|a| - 4] == Decimal(i) && b[|c.base| + 1..|b| - 4] == Decimal(j);
      ValueOfDecimal(i);
      ValueOfDecimal(j);
    }
  }

  /** A name that does not fit is cut to the buffer. */
  lemma NameCut(c: Config, index: nat, capacity: nat, room: nat)
    requires 0 < capacity <= |c.base| + |Decimal(index)| + 5 < room
    ensures FileName(c, index, capacity) == FileName(c, index, room)[..capacity - 1]
  {
  }

  /** What log_rotation_init makes of a configuration: 65536 bytes, 5 chunks and "system_log" where nothing
      is set, and what is set otherwise. */
  lemma Defaults(c: Config)
    ensures var d, name := Completed(c), "system_log";
      && d.maxChunkSize == (if c.maxChunkSize > 0 then c.maxChunkSize else 65536)
      && d.maxTotalChunks == (if c.maxTotalChunks > 0 then c.maxTotalChunks else 5)
      && (c.base != [] ==> d.base == c.base)
      && (c.base == [] ==> |d.base| == |name| && forall i :: 0 <= i < |name| ==> d.base[i] == name[i] as int)
  {
  }
}
