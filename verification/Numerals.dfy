/** Decimal numbers as C prints and reads them: snprintf with "%zu" and strtoul in base 10, for
    64-bit size_t and unsigned long. */
module Numerals {
  import opened Serial

  const SIZE_MAX: nat := 0xFFFF_FFFF_FFFF_FFFF

  /** "%zu". */
  function Decimal(n: nat): (s: seq<byte>)
    ensures |s| > 0
  {
    if n < 10 then [48 + n] else Decimal(n / 10) + [48 + n % 10]
  }

  predicate IsDigit(b: byte) { 48 <= b <= 57 }

  predicate IsSpace(b: byte) { b == 32 || 9 <= b <= 13 }

  /** The value of the leading digits, read on from `acc`. */
  function Value(s: seq<byte>, acc: nat): nat
    decreases |s|
  {
    if s == [] || !IsDigit(s[0]) then acc else Value(s[1..], 10 * acc + (s[0] - 48))
  }

  function SkipSpace(s: seq<byte>): seq<byte> {
    if s != [] && IsSpace(s[0]) then SkipSpace(s[1..]) else s
  }

  /** strtoul(s, NULL, 10) on the bytes up to the end of `s`: leading space, an optional sign,
      digits; it saturates, and a minus sign negates modulo 2^64. */
  function Strtoul(s: seq<byte>): (v: nat)
    ensures v <= SIZE_MAX
  {
    var t := SkipSpace(s);
    var negative := t != [] && t[0] == 45;
    var v := Value(if t != [] && (t[0] == 45 || t[0] == 43) then t[1..] else t, 0);
    if v > SIZE_MAX then SIZE_MAX else if negative && v > 0 then SIZE_MAX + 1 - v else v
  }

  lemma {:induction false} ValueOfDigits(a: seq<byte>, rest: seq<byte>, acc: nat)
    requires forall b :: b in a ==> IsDigit(b)
    ensures Value(a + rest, acc) == Value(rest, Value(a, acc))
    decreases |a|
  {
    if a == [] {
      assert a + rest == rest;
    } else {
      assert (a + rest)[1..] == a[1..] + rest && a[0] in a;
      ValueOfDigits(a[1..], rest, 10 * acc + (a[0] - 48));
    }
  }

  lemma {:induction false} DecimalDigits(n: nat)
    ensures forall b :: b in Decimal(n) ==> IsDigit(b)
  {
    if n >= 10 {
      DecimalDigits(n / 10);
    }
  }

  lemma {:induction false} ValueOfDecimal(n: nat)
    ensures Value(Decimal(n), 0) == n
  {
    if n >= 10 {
      DecimalDigits(n / 10);
      ValueOfDecimal(n / 10);
      var last: seq<byte> := [48 + n % 10];
      ValueOfDigits(Decimal(n / 10), last, 0);
      assert last[1..] == [];
    }
  }

  /** Printing and reading undo each other for every 64-bit size, whatever follows the
      terminating byte. */
  lemma StrtoulDecimal(n: nat, rest: seq<byte>)
    requires n <= SIZE_MAX && (rest == [] || !IsDigit(rest[0]))
    ensures Strtoul(Decimal(n) + rest) == n
  {
    DecimalDigits(n);
    var s := Decimal(n) + rest;
    assert s[0] in Decimal(n);
    ValueOfDigits(Decimal(n), rest, 0);
    ValueOfDecimal(n);
  }

  /** strtoul in full: leading space and a sign are passed over, a minus sign negates modulo 2^64, and
      numbers beyond 64 bits saturate. */
  lemma StrtoulReads(space: seq<byte>, sign: seq<byte>, n: nat, rest: seq<byte>)
    requires forall b :: b in space ==> b == 32 || 9 <= b <= 13
    requires sign in [[], [43], [45]] && (rest == [] || !IsDigit(rest[0]))
    ensures Strtoul(space + (sign + (Decimal(n) + rest)))
         == if n > SIZE_MAX then SIZE_MAX else if sign == [45] then (SIZE_MAX + 1 - n) % (SIZE_MAX + 1) else n
  {
    hide Decimal;
    var s := Decimal(n) + rest;
    DecimalDigits(n);
    assert s[0] in Decimal(n);
    ValueOfDigits(Decimal(n), rest, 0);
    ValueOfDecimal(n);
    SpaceSkipped(space, sign + s);
    assert sign != [] ==> (sign + s)[1..] == s && (sign + s)[0] == sign[0];
    assert sign == [] ==> sign + s == s;
  }

  lemma {:induction false} SpaceSkipped(space: seq<byte>, s: seq<byte>)
    requires (forall b :: b in space ==> IsSpace(b)) && s != [] && !IsSpace(s[0])
    ensures SkipSpace(space + s) == s
    decreases |space|
  {
    if space == [] {
      assert space + s == s;
    } else {
      assert space[0] in space && (space + s)[1..] == space[1..] + s;
      SpaceSkipped(space[1..], s);
    }
  }

  function Pow10(k: nat): nat {
    if k == 0 then 1 else 10 * Pow10(k - 1)
  }

  lemma {:induction false} DecimalLength(n: nat, k: nat)
    requires k >= 1 && n < Pow10(k)
    ensures |Decimal(n)| <= k
  {
    if n >= 10 {
      DecimalLength(n / 10, k - 1);
    }
  }

  /** A 64-bit size has at most 20 digits. */
  lemma SizeDigits(n: nat)
    requires n <= SIZE_MAX
    ensures |Decimal(n)| <= 20
  {
    assert Pow10(4) == 10000 && Pow10(8) == 10000 * Pow10(4);
    assert Pow10(12) == 10000 * Pow10(8) && Pow10(16) == 10000 * Pow10(12);
    assert Pow10(20) == 10000 * Pow10(16);
    DecimalLength(n, 20);
  }
}
