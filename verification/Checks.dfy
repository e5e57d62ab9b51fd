/** The integrity checks of the serial protocols (src/crc.h, src/crc.c).

    CRC-16 is supplied by Zephyr, outside the repository; it enters as an arbitrary byte step
    folded over the buffer, so every result below holds for every such CRC. */
module Checks {
  import opened Serial

  /** uint16_t. */
  type word = x: int | 0 <= x < 65536

  type CrcStep = (word, byte) -> word

  function Fold(step: CrcStep, crc: word, buf: seq<byte>): word
    decreases |buf|
  {
    if buf == [] then crc else Fold(step, step(crc, buf[0]), buf[1..])
  }

  /** Feeding a buffer in two parts is feeding it whole. */
  lemma {:induction false} FoldChains(step: CrcStep, crc: word, a: seq<byte>, b: seq<byte>)
    ensures Fold(step, Fold(step, crc, a), b) == Fold(step, crc, a + b)
    decreases |a|
  {
    if a == [] {
      assert a + b == b;
    } else {
      FoldChains(step, step(crc, a[0]), a[1..], b);
      assert (a + b)[1..] == a[1..] + b;
    }
  }

  /** modem_crc16: the seed is 0xFFFF. */
  function Crc16(step: CrcStep, buf: seq<byte>): word {
    Fold(step, 0xFFFF, buf)
  }

  /** modem_checksum8: byte sum modulo 256. */
  function Sum8(buf: seq<byte>): byte {
    if buf == [] then 0 else (Sum8(buf[..|buf| - 1]) + buf[|buf| - 1]) % 256
  }

  method Checksum8(buf: array<byte>, n: nat) returns (sum: byte)
    requires n <= buf.Length
    ensures sum == Sum8(buf[..n])
  {
    sum := 0;
    for i := 0 to n
      invariant sum == Sum8(buf[..i])
    {
      assert buf[..i + 1][..i] == buf[..i];
      sum := (sum + buf[i]) % 256;
    }
  }

  function High(w: word): byte { w / 256 }

  function Low(w: word): byte { w % 256 }

  function Join(hi: byte, lo: byte): word { hi * 256 + lo }

  /** The big-endian CRC bytes on the wire carry the CRC. */
  lemma JoinSplit(w: word)
    ensures Join(High(w), Low(w)) == w
  {
  }

  lemma SplitJoin(hi: byte, lo: byte)
    ensures High(Join(hi, lo)) == hi && Low(Join(hi, lo)) == lo
  {
  }
}
