/** The firmware digest (src/signature_verify.c:10-38): the bitwise CRC-32 loop, and why it is
    polynomial division and misses no short burst of errors. */
module SignatureVerify {
  import opened Polynomials

  /** uint8_t as a bit pattern. */
  type octet = bv8

  const SEED: bv32 := 0xFFFF_FFFF
  const REFLECTED: bv32 := 0xEDB8_8320

  // ----- the register -----

  predicate Odd(r: bv32) { r & 1 == 1 }

  function Half(r: bv32): bv32 { r >> 1 }

  function BitStep(r: bv32): bv32 {
    if Odd(r) then Xor32(Half(r), REFLECTED) else Half(r)
  }

  function BitSteps(r: bv32, n: nat): bv32
    decreases n
  {
    if n == 0 then r else BitSteps(BitStep(r), n - 1)
  }

  function ByteStep(r: bv32, b: octet): bv32 {
    BitSteps(Xor32(r, b as bv32), 8)
  }

  function Digest(r: bv32, bs: seq<octet>): bv32 {
    if bs == [] then r else ByteStep(Digest(r, bs[..|bs| - 1]), bs[|bs| - 1])
  }

  /** Feeding two chunks is feeding their concatenation. */
  lemma {:induction false} DigestChains(r: bv32, a: seq<octet>, b: seq<octet>)
    ensures Digest(Digest(r, a), b) == Digest(r, a + b)
    decreases |b|
  {
    hide ByteStep;
    if b == [] {
      assert a + b == a;
    } else {
      DigestChains(r, a, b[..|b| - 1]);
      assert (a + b)[..|a + b| - 1] == a + b[..|b| - 1];
    }
  }

  /** modem_sig_verify_ctx_t; `fed` records every byte since signature_verify_init. */
  class Verifier {
    var currentCrc32: bv32
    var totalBytes: nat
    var verified: bool
    ghost var fed: seq<octet>

    /** The digest depends on the bytes alone, not on how they were split into chunks. */
    ghost predicate Valid()
      reads this
    {
      currentCrc32 == Digest(SEED, fed) && totalBytes == |fed|
    }

    constructor ()
      ensures Valid() && fed == [] && !verified
    {
      currentCrc32, totalBytes, verified, fed := SEED, 0, false, [];
    }

    /** signature_verify_update. */
    method Update(chunk: array<octet>)
      requires Valid()
      modifies this`currentCrc32, this`totalBytes, this`fed
      ensures Valid() && fed == old(fed) + chunk[..]
      ensures currentCrc32 == Digest(old(currentCrc32), chunk[..])
      ensures totalBytes == old(totalBytes) + chunk.Length
    {
      hide ByteStep;
      for i := 0 to chunk.Length
        invariant currentCrc32 == Digest(old(currentCrc32), chunk[..i])
        invariant totalBytes == old(totalBytes) && fed == old(fed)
      {
        currentCrc32 := ShiftByteIn(currentCrc32, chunk[i]);
        assert chunk[..i + 1][..i] == chunk[..i];
      }
      assert chunk[..chunk.Length] == chunk[..];
      totalBytes := totalBytes + chunk.Length;
      DigestChains(SEED, fed, chunk[..]);
      fed := fed + chunk[..];
    }
  }

  /** The exclusive-or and the loop over eight bits for one input byte. */
  method ShiftByteIn(crc: bv32, b: octet) returns (r: bv32)
    ensures r == ByteStep(crc, b)
  {
    hide Odd, Half;
    r := crc ^ (b as bv32);
    for k := 0 to 8
      invariant ByteStep(crc, b) == BitSteps(r, 8 - k)
    {
      if Odd(r) {
        r := Half(r) ^ 0xEDB8_8320;
      } else {
        r := Half(r);
      }
    }
  }

  // ----- the register as a polynomial -----

  function Term(b: bool, e: nat): Poly { if b then {e} else {} }

  /** The low `n` bits of a register, reflected: bit 0 is the coefficient of x^(n-1). */
  function Coefficients(r: bv32, n: nat): Poly
    decreases n
  {
    if n == 0 then {}
    else Term(Odd(r), n - 1) + Coefficients(Half(r), n - 1)
  }

  function Register(r: bv32): Poly {
    Coefficients(r, 32)
  }

  function BytePoly(b: octet): Poly {
    Coefficients(b as bv32, 8)
  }

  /** The message: its first bit is the highest coefficient, and each byte goes low bit first. */
  function Message(bs: seq<octet>): Poly {
    if bs == [] then {}
    else Add(Shift(Message(bs[..|bs| - 1]), 8), BytePoly(bs[|bs| - 1]))
  }

  /** The dividend of the CRC: the seed ahead of the message, and 32 zero bits behind it. */
  function Seeded(bs: seq<octet>): Poly {
    Add(Shift(Register(SEED), 8 * |bs|), Shift(Message(bs), 32))
  }

  lemma {:induction false} CoefficientsBelow(r: bv32, n: nat)
    ensures DegreeBelow(Coefficients(r, n), n)
    decreases n
  {
    hide Odd, Half;
    if n > 0 {
      CoefficientsBelow(Half(r), n - 1);
    }
  }

  function Xor32(a: bv32, b: bv32): bv32 { a ^ b }

  lemma XorParts(a: bv32, b: bv32)
    ensures Half(Xor32(a, b)) == Xor32(Half(a), Half(b)) && (Odd(Xor32(a, b)) <==> Odd(a) != Odd(b))
  {
  }

  lemma TermsAdd(a: bool, b: bool, p: Poly, q: Poly, n: nat)
    requires DegreeBelow(p, n) && DegreeBelow(q, n)
    ensures Term(a != b, n) + Add(p, q) == Add(Term(a, n) + p, Term(b, n) + q)
  {
  }

  lemma {:induction false} CoefficientsXor(a: bv32, b: bv32, n: nat)
    ensures Coefficients(Xor32(a, b), n) == Add(Coefficients(a, n), Coefficients(b, n))
    decreases n
  {
    hide Odd, Half, Xor32, Add, Term;
    if n == 0 {
      AddNothing({});
    } else {
      XorParts(a, b);
      CoefficientsXor(Half(a), Half(b), n - 1);
      CoefficientsBelow(Half(a), n - 1);
      CoefficientsBelow(Half(b), n - 1);
      TermsAdd(Odd(a), Odd(b), Coefficients(Half(a), n - 1), Coefficients(Half(b), n - 1), n - 1);
    }
  }

  /** Bit `n` of a register. */
  predicate Bit(r: bv32, n: nat)
    decreases n
  {
    if n == 0 then Odd(r) else Bit(Half(r), n - 1)
  }

  lemma BitFour(r: bv32, n: nat)
    requires n >= 4
    ensures Bit(r, n) == Bit(Half(Half(Half(Half(r)))), n - 4)
  {
    hide Odd, Half;
    assert Bit(Half(r), n - 1) == Bit(Half(Half(r)), n - 2);
    assert Bit(Half(Half(r)), n - 2) == Bit(Half(Half(Half(r))), n - 3);
  }

  function Half4(r: bv32): bv32 { Half(Half(Half(Half(r)))) }

  /** Shifting right leaves the top bit clear. */
  lemma TopBitClear(r: bv32)
    ensures !Bit(Half(r), 31)
  {
    hide Bit, Half, Odd;
    var a := Half4(Half(r));
    var b := Half4(a);
    var c := Half4(b);
    var d := Half4(c);
    var e := Half4(d);
    var f := Half4(e);
    var g := Half4(f);
    BitFour(Half(r), 31);
    BitFour(a, 27);
    BitFour(b, 23);
    BitFour(c, 19);
    BitFour(d, 15);
    BitFour(e, 11);
    BitFour(f, 7);
    TopIsZero(r);
  }

  /** Twenty-nine halvings leave at most three bits, so this one is zero. */
  lemma TopIsZero(r: bv32)
    ensures !Bit(Half4(Half4(Half4(Half4(Half4(Half4(Half4(Half(r)))))))), 3)
  {
    var g := Half4(Half4(Half4(Half4(Half4(Half4(Half4(Half(r))))))));
    assert g == r >> 29;
    assert Half(Half(Half(g))) == 0;
    BitThree(g);
  }

  lemma BitThree(r: bv32)
    ensures Bit(r, 3) == Odd(Half(Half(Half(r))))
  {
    hide Odd, Half;
    assert Bit(Half(r), 2) == Bit(Half(Half(r)), 1) == Bit(Half(Half(Half(r))), 0);
  }

  /** One more bit moves the others up one power of x. */
  lemma {:induction false} CoefficientsGrow(r: bv32, n: nat)
    requires !Bit(r, n)
    ensures Coefficients(r, n + 1) == Shift(Coefficients(r, n), 1)
    decreases n
  {
    hide Odd, Half, Shift;
    var top, rest := Odd(r), Half(r);
    assert Coefficients(r, n + 1) == Term(top, n) + Coefficients(rest, n);
    if n == 0 {
      ShiftOfZero();
    } else {
      CoefficientsGrow(rest, n - 1);
      ShiftTerm(top, n - 1, Coefficients(rest, n - 1));
    }
  }

  lemma ShiftTerm(b: bool, e: nat, p: Poly)
    ensures Shift(Term(b, e) + p, 1) == Term(b, e + 1) + Shift(p, 1)
  {
    hide Shift;
    forall d: nat ensures d in Shift(Term(b, e) + p, 1) <==> d in Term(b, e + 1) + Shift(p, 1) {
      ShiftIn(Term(b, e) + p, 1, d);
      ShiftIn(p, 1, d);
    }
  }

  // ----- the register is the remainder -----

  /** Four coefficients at a time. */
  lemma Nibble(r: bv32, n: nat, b0: bool, b1: bool, b2: bool, b3: bool, rest: bv32)
    requires n >= 4 && rest == Half4(r)
    requires b0 == Odd(r) && b1 == Odd(Half(r)) && b2 == Odd(Half(Half(r))) && b3 == Odd(Half(Half(Half(r))))
    ensures Coefficients(r, n) == Term(b0, n - 1) + Term(b1, n - 2) + Term(b2, n - 3) + Term(b3, n - 4)
                                + Coefficients(rest, n - 4)
  {
    hide Odd, Half;
    var r1, r2, r3 := Half(r), Half(Half(r)), Half(Half(Half(r)));
    assert Coefficients(r1, n - 1) == Term(Odd(r1), n - 2) + Coefficients(r2, n - 2);
    assert Coefficients(r2, n - 2) == Term(Odd(r2), n - 3) + Coefficients(r3, n - 3);
    assert Coefficients(r3, n - 3) == Term(Odd(r3), n - 4) + Coefficients(rest, n - 4);
  }

  lemma GeneratorHigh()
    ensures Coefficients(0xEDB8_8320, 32) == {26, 23, 22, 16} + Coefficients(0xEDB8, 16)
  {
    hide Coefficients;
    Nibble(0xEDB8_8320, 32, false, false, false, false, 0xEDB_8832);
    Nibble(0xEDB_8832, 28, false, true, false, false, 0xED_B883);
    Nibble(0xED_B883, 24, true, true, false, false, 0xE_DB88);
    Nibble(0xE_DB88, 20, false, false, false, true, 0xEDB8);
  }

  lemma GeneratorLow()
    ensures Coefficients(0xEDB8, 16) == {12, 11, 10, 8, 7, 5, 4, 2, 1, 0}
  {
    hide Coefficients;
    Nibble(0xEDB8, 16, false, false, false, true, 0xEDB);
    Nibble(0xEDB, 12, true, true, false, true, 0xED);
    GeneratorLowest();
  }

  lemma GeneratorLowest()
    ensures Coefficients(0xED, 8) == {7, 5, 4, 2, 1, 0}
  {
    hide Coefficients;
    Nibble(0xED, 8, true, false, true, true, 0xE);
    Nibble(0xE, 4, false, true, true, true, 0);
    NoCoefficients(0);
  }

  /** The constant in the code is the generator of IEEE 802.3 without x^32, reflected. */
  lemma GeneratorReflected()
    ensures Generator() == Add({32}, Register(REFLECTED))
  {
    hide Coefficients;
    GeneratorHigh();
    GeneratorLow();
  }

  lemma NoCoefficients(r: bv32)
    ensures Coefficients(r, 0) == {}
  {
  }

  /** A shift of the register is multiplication by x, less the generator if a bit fell out. */
  lemma BitStepDivides(r: bv32)
    ensures Shift(Register(r), 1) == Add(Scaled(Odd(r), Generator()), Register(BitStep(r)))
  {
    hide Odd, Half, Shift, Coefficients, Xor32, Generator, Add, Term;
    TopBitClear(r);
    CoefficientsGrow(Half(r), 31);
    ShiftRegister(r);
    if Odd(r) {
      CoefficientsXor(Half(r), REFLECTED, 32);
      GeneratorReflected();
      CoefficientsBelow(Half(r), 32);
      CarryOut(Register(Half(r)), Register(REFLECTED));
    } else {
      NoCarry(Register(Half(r)));
    }
  }

  lemma ShiftRegister(r: bv32)
    requires Coefficients(Half(r), 32) == Shift(Coefficients(Half(r), 31), 1)
    ensures Shift(Register(r), 1) == Term(Odd(r), 32) + Register(Half(r))
  {
    hide Odd, Half, Shift;
    ShiftTerm(Odd(r), 31, Coefficients(Half(r), 31));
  }

  lemma CarryOut(p: Poly, g: Poly)
    requires DegreeBelow(p, 32)
    ensures Term(true, 32) + p == Add(Scaled(true, Add({32}, g)), Add(p, g))
  {
    forall e: nat ensures e in {32} + p <==> e in Add(Add({32}, g), Add(p, g)) {
    }
  }

  lemma NoCarry(p: Poly)
    ensures Term(false, 32) + p == Add(Scaled(false, Generator()), p)
  {
  }

  /** Long division, one bit: the quotient grows by a digit and the register keeps the remainder. */
  lemma BitStepKeepsRemainder(p: Poly, q: seq<bool>, r: bv32)
    requires p == Add(TimesG(q), Register(r))
    ensures Shift(p, 1) == Add(TimesG(q + [Odd(r)]), Register(BitStep(r)))
  {
    hide Shift, TimesG, Register, BitStep, Odd, Add, Scaled;
    var digit := Scaled(Odd(r), Generator());
    ShiftAdds(TimesG(q), Register(r), 1);
    BitStepDivides(r);
    TimesGAppend(q, Odd(r));
    AddAssociates(Shift(TimesG(q), 1), digit, Register(BitStep(r)));
  }

  lemma AddAssociates(p: Poly, q: Poly, r: Poly)
    ensures Add(Add(p, q), r) == Add(p, Add(q, r))
  {
  }

  lemma {:induction false} BitStepsKeepRemainder(p: Poly, q: seq<bool>, r: bv32, n: nat) returns (q': seq<bool>)
    requires p == Add(TimesG(q), Register(r))
    ensures Shift(p, n) == Add(TimesG(q'), Register(BitSteps(r, n)))
    decreases n
  {
    hide Shift, TimesG, Register, BitStep, Odd, Add;
    if n == 0 {
      q' := q;
      ShiftByZero(p);
    } else {
      BitStepKeepsRemainder(p, q, r);
      q' := BitStepsKeepRemainder(Shift(p, 1), q + [Odd(r)], BitStep(r), n - 1);
      ShiftShifts(p, 1, n - 1);
    }
  }

  lemma ShiftByZero(p: Poly)
    ensures Shift(p, 0) == p
  {
    hide Shift;
    forall e: nat ensures e in Shift(p, 0) <==> e in p {
      ShiftIn(p, 0, e);
    }
  }

  /** A byte enters the register at its top end. */
  lemma ByteEnters(b: octet)
    ensures Register(b as bv32) == Shift(BytePoly(b), 24)
  {
    hide Odd, Shift, Coefficients;
    var r := b as bv32;
    assert r < 256;
    assert Half4(Half4(r)) == 0;
    LowByteGrows(r, 24);
  }

  /** Nothing is above a byte. */
  lemma ByteFits(r: bv32, n: nat)
    requires Half4(Half4(r)) == 0 && n >= 8
    ensures !Bit(r, n)
  {
    hide Bit, Half, Half4;
    BitFour(r, n);
    BitFour(Half4(r), n - 4);
    Half4Is(r);
    Half4Is(Half4(r));
    ZeroBit(n - 8);
  }

  lemma Half4Is(r: bv32)
    ensures Half4(r) == Half(Half(Half(Half(r))))
  {
  }

  lemma {:induction false} ZeroBit(n: nat)
    ensures !Bit(0, n)
  {
    if n > 0 {
      ZeroBit(n - 1);
    }
  }

  lemma {:induction false} LowByteGrows(r: bv32, k: nat)
    requires Half4(Half4(r)) == 0
    ensures Coefficients(r, 8 + k) == Shift(Coefficients(r, 8), k)
  {
    hide Odd, Half, Half4, Shift, Coefficients, Bit;
    if k == 0 {
      ShiftByZero(Coefficients(r, 8));
    } else {
      LowByteGrows(r, k - 1);
      ByteFits(r, 8 + k - 1);
      CoefficientsGrow(r, 8 + k - 1);
      ShiftShifts(Coefficients(r, 8), k - 1, 1);
    }
  }

  /** The dividend grows by one byte. */
  lemma SeededGrows(bs: seq<octet>, b: octet)
    ensures Seeded(bs + [b]) == Shift(Add(Seeded(bs), Shift(BytePoly(b), 24)), 8)
  {
    hide Shift, Register, BytePoly, Add, Message;
    var seed, m, c := Register(SEED), Message(bs), BytePoly(b);
    MessageGrows(bs, b);
    ShiftAdds(Shift(m, 8), c, 32);
    ShiftShifts(m, 8, 32);
    ShiftAdds(Seeded(bs), Shift(c, 24), 8);
    ShiftShifts(c, 24, 8);
    ShiftAdds(Shift(seed, 8 * |bs|), Shift(m, 32), 8);
    ShiftShifts(seed, 8 * |bs|, 8);
    ShiftShifts(m, 32, 8);
    AddAssociates(Shift(seed, 8 * |bs| + 8), Shift(m, 40), Shift(c, 32));
  }

  lemma MessageGrows(bs: seq<octet>, b: octet)
    ensures Message(bs + [b]) == Add(Shift(Message(bs), 8), BytePoly(b))
  {
    assert (bs + [b])[..|bs|] == bs;
  }

  lemma {:induction false} DigestDivides(bs: seq<octet>) returns (q: seq<bool>)
    ensures Seeded(bs) == Add(TimesG(q), Register(Digest(SEED, bs)))
  {
    hide Shift, TimesG, Register, BytePoly, BitSteps, Add, Xor32;
    if bs == [] {
      q := [];
      SeededEmpty();
    } else {
      var before, b := bs[..|bs| - 1], bs[|bs| - 1];
      assert bs == before + [b];
      q := DigestDivides(before);
      var r := Digest(SEED, before);
      SeededGrows(before, b);
      ByteEnters(b);
      RegisterXor(r, b as bv32);
      AddAssociates(TimesG(q), Register(r), Register(b as bv32));
      q := BitStepsKeepRemainder(Add(Seeded(before), Shift(BytePoly(b), 24)), q, Xor32(r, b as bv32), 8);
    }
  }

  lemma RegisterXor(a: bv32, b: bv32)
    ensures Register(Xor32(a, b)) == Add(Register(a), Register(b))
  {
    hide Coefficients, Xor32, Add;
    CoefficientsXor(a, b, 32);
  }

  lemma SeededEmpty()
    ensures Seeded([]) == Add(TimesG([]), Register(SEED))
  {
    hide Shift, Coefficients;
    ShiftByZero(Register(SEED));
    forall e: nat ensures e !in Shift({}, 32) {
      ShiftIn({}, 32, e);
    }
  }

  /** The register has no bits from `n` up. */
  predicate Fits(r: bv32, n: nat)
    decreases n
  {
    if n == 0 then r == 0 else Fits(Half(r), n - 1)
  }

  lemma FitsFour(r: bv32, n: nat)
    requires n >= 4
    ensures Fits(r, n) == Fits(Half4(r), n - 4)
  {
    hide Half;
    assert Fits(Half(r), n - 1) == Fits(Half(Half(r)), n - 2);
    assert Fits(Half(Half(r)), n - 2) == Fits(Half(Half(Half(r))), n - 3);
  }

  lemma AllFit(r: bv32)
    ensures Fits(r, 32)
  {
    hide Half4;
    var a, b := Half4(r), Half4(Half4(r));
    var c, d := Half4(b), Half4(Half4(b));
    var e, f := Half4(d), Half4(Half4(d));
    FitsFour(r, 32);
    FitsFour(a, 28);
    FitsFour(b, 24);
    FitsFour(c, 20);
    FitsFour(d, 16);
    FitsFour(e, 12);
    FitsFour(f, 8);
    FitsFour(Half4(f), 4);
    EightNibbles(r);
  }

  lemma EightNibbles(r: bv32)
    ensures Half4(Half4(Half4(Half4(Half4(Half4(Half4(Half4(r)))))))) == 0
  {
  }

  lemma BitsDecide(a: bv32, b: bv32)
    requires Odd(a) == Odd(b) && Half(a) == Half(b)
    ensures a == b
  {
  }

  lemma TermDecides(a: bool, b: bool, p: Poly, q: Poly, n: nat)
    requires DegreeBelow(p, n) && DegreeBelow(q, n) && Term(a, n) + p == Term(b, n) + q
    ensures a == b && p == q
  {
    assert n !in p && n !in q;
    assert a <==> n in Term(a, n) + p;
    assert b <==> n in Term(b, n) + q;
    assert p == (Term(a, n) + p) - {n} && q == (Term(b, n) + q) - {n};
  }

  /** Different registers are different polynomials. */
  lemma {:induction false} CoefficientsDecide(a: bv32, b: bv32, n: nat)
    requires Fits(a, n) && Fits(b, n) && Coefficients(a, n) == Coefficients(b, n)
    ensures a == b
    decreases n
  {
    hide Odd, Half, Term;
    if n > 0 {
      CoefficientsBelow(Half(a), n - 1);
      CoefficientsBelow(Half(b), n - 1);
      TermDecides(Odd(a), Odd(b), Coefficients(Half(a), n - 1), Coefficients(Half(b), n - 1), n - 1);
      CoefficientsDecide(Half(a), Half(b), n - 1);
      BitsDecide(a, b);
    }
  }

  /** After any bytes, the register is the remainder of the seeded message modulo the generator,
      and no other register is. */
  lemma DigestIsRemainder(bs: seq<octet>, r: bv32)
    ensures IsRemainder(Seeded(bs), Register(r)) <==> r == Digest(SEED, bs)
  {
    hide Seeded, TimesG, Coefficients, Digest, Add, Fits;
    var q := DigestDivides(bs);
    CoefficientsBelow(Digest(SEED, bs), 32);
    if IsRemainder(Seeded(bs), Register(r)) {
      RemainderUnique(Seeded(bs), Register(r), Register(Digest(SEED, bs)));
      AllFit(r);
      AllFit(Digest(SEED, bs));
      CoefficientsDecide(r, Digest(SEED, bs), 32);
    }
  }

  // ----- short bursts are never missed -----

  /** The loop loses nothing: different registers stay different. */
  lemma BitStepInjective(a: bv32, b: bv32)
    requires BitStep(a) == BitStep(b)
    ensures a == b
  {
  }

  lemma {:induction false} BitStepsInjective(a: bv32, b: bv32, n: nat)
    requires BitSteps(a, n) == BitSteps(b, n)
    ensures a == b
    decreases n
  {
    hide BitStep;
    if n > 0 {
      BitStepsInjective(BitStep(a), BitStep(b), n - 1);
      BitStepInjective(a, b);
    }
  }

  lemma XorAssociates(a: bv32, b: bv32, c: bv32)
    ensures Xor32(Xor32(a, b), c) == Xor32(a, Xor32(b, c))
  {
  }

  lemma XorCommutes(a: bv32, b: bv32)
    ensures Xor32(a, b) == Xor32(b, a)
  {
  }

  lemma XorZero(a: bv32)
    ensures Xor32(a, 0) == a && Xor32(0, a) == a && Xor32(a, a) == 0
  {
  }

  lemma XorSwaps(a: bv32, b: bv32, c: bv32, d: bv32)
    ensures Xor32(Xor32(a, b), Xor32(c, d)) == Xor32(Xor32(a, c), Xor32(b, d))
  {
    hide Xor32;
    XorAssociates(a, b, Xor32(c, d));
    XorAssociates(b, c, d);
    XorCommutes(b, c);
    XorAssociates(c, b, d);
    XorAssociates(a, c, Xor32(b, d));
  }

  lemma BitStepLinear(a: bv32, b: bv32)
    ensures BitStep(Xor32(a, b)) == Xor32(BitStep(a), BitStep(b))
  {
    hide Odd, Half, Xor32;
    var h, g, m := Half(a), Half(b), REFLECTED;
    XorParts(a, b);
    XorSwaps(h, m, g, m);
    XorSwaps(h, m, g, 0);
    XorSwaps(h, 0, g, m);
    XorZero(h);
    XorZero(g);
    XorZero(m);
    XorZero(Xor32(h, g));
  }

  lemma {:induction false} BitStepsLinear(a: bv32, b: bv32, n: nat)
    ensures BitSteps(Xor32(a, b), n) == Xor32(BitSteps(a, n), BitSteps(b, n))
    decreases n
  {
    hide BitStep, Xor32;
    if n > 0 {
      BitStepLinear(a, b);
      BitStepsLinear(BitStep(a), BitStep(b), n - 1);
    }
  }

  /** Equal bytes cannot bring different registers together. */
  lemma {:induction false} SuffixInjective(a: bv32, b: bv32, bs: seq<octet>)
    requires Digest(a, bs) == Digest(b, bs)
    ensures a == b
  {
    hide BitSteps, Xor32;
    if bs != [] {
      var before, c := bs[..|bs| - 1], bs[|bs| - 1] as bv32;
      BitStepsInjective(Xor32(Digest(a, before), c), Xor32(Digest(b, before), c), 8);
      XorCancels(Digest(a, before), Digest(b, before), c);
      SuffixInjective(a, b, before);
    }
  }

  lemma XorCancels(a: bv32, b: bv32, c: bv32)
    requires Xor32(a, c) == Xor32(b, c)
    ensures a == b
  {
  }

  /** Up to four bytes as one word, first byte lowest. */
  function Word(ds: seq<bv32>): bv32 {
    if ds == [] then 0 else Xor32(ds[0], Word(ds[1..]) << 8)
  }

  /** How a difference between two registers evolves while the inputs differ by `ds`. */
  function Difference(d: bv32, ds: seq<bv32>): bv32
    decreases |ds|
  {
    if ds == [] then d else Difference(BitSteps(Xor32(d, ds[0]), 8), ds[1..])
  }

  predicate Octets(ds: seq<bv32>) {
    forall i :: 0 <= i < |ds| ==> ds[i] <= 0xFF
  }

  lemma {:induction false} WordBound(ds: seq<bv32>)
    requires Octets(ds) && |ds| <= 3
    ensures Word(ds) <= 0xFF_FFFF
    ensures |ds| <= 2 ==> Word(ds) <= 0xFFFF
    ensures |ds| <= 1 ==> Word(ds) <= 0xFF
  {
    if ds != [] {
      WordBound(ds[1..]);
      WordBoundStep(ds[0], Word(ds[1..]));
      assert |ds| <= 1 ==> ds[1..] == [];
    }
  }

  lemma WordBoundStep(d: bv32, w: bv32)
    requires d <= 0xFF
    ensures w <= 0xFFFF ==> Xor32(d, w << 8) <= 0xFF_FFFF
    ensures w <= 0xFF ==> Xor32(d, w << 8) <= 0xFFFF
    ensures w == 0 ==> Xor32(d, w << 8) <= 0xFF
  {
  }

  function Double(w: bv32): bv32 { w << 1 }

  predicate Small(w: bv32) { w <= 0x7FFF_FFFF }

  /** Eight steps undo a shift by a byte that loses no bits. */
  lemma StepsUndoShift(w: bv32)
    requires w <= 0xFF_FFFF
    ensures BitSteps(w << 8, 8) == w
  {
    hide BitStep, BitSteps, Double, Small;
    var a := Double(Double(w));
    var b := Double(Double(a));
    var c := Double(Double(b));
    Doublings(w);
    EightSteps(Double(Double(c)));
    DoublingUndone(w);
    DoublingUndone(Double(w));
    DoublingUndone(a);
    DoublingUndone(Double(a));
    DoublingUndone(b);
    DoublingUndone(Double(b));
    DoublingUndone(c);
    DoublingUndone(Double(c));
  }

  lemma DoublingUndone(w: bv32)
    requires Small(w)
    ensures BitStep(Double(w)) == w
  {
  }

  lemma Doublings(w: bv32)
    requires w <= 0xFF_FFFF
    ensures var a := Double(Double(w));
      var b := Double(Double(a));
      var c := Double(Double(b));
      && w << 8 == Double(Double(c))
      && Small(w) && Small(Double(w)) && Small(a) && Small(Double(a))
      && Small(b) && Small(Double(b)) && Small(c) && Small(Double(c))
  {
  }

  lemma EightSteps(r: bv32)
    ensures BitSteps(r, 8) == BitStep(BitStep(BitStep(BitStep(BitStep(BitStep(BitStep(BitStep(r))))))))
  {
    hide BitStep;
    var a := BitStep(BitStep(r));
    var b := BitStep(BitStep(a));
    var c := BitStep(BitStep(b));
    assert BitSteps(r, 8) == BitSteps(a, 6);
    assert BitSteps(a, 6) == BitSteps(b, 4);
    assert BitSteps(b, 4) == BitSteps(c, 2);
    assert BitSteps(c, 2) == BitSteps(BitStep(BitStep(c)), 0);
  }

  /** Differences in at most four bytes vanish only if they were made for the register. */
  lemma {:induction false} VanishingDifference(d: bv32, ds: seq<bv32>)
    requires Octets(ds) && |ds| <= 4 && Difference(d, ds) == 0
    ensures d == Word(ds)
    decreases |ds|
  {
    hide BitSteps, Xor32;
    if ds != [] {
      var w := Word(ds[1..]);
      VanishingDifference(BitSteps(Xor32(d, ds[0]), 8), ds[1..]);
      WordBound(ds[1..]);
      StepsUndoShift(w);
      BitStepsInjective(Xor32(d, ds[0]), w << 8, 8);
      XorMoves(d, ds[0], w << 8);
    }
  }

  lemma XorMoves(a: bv32, b: bv32, c: bv32)
    requires Xor32(a, b) == c
    ensures a == Xor32(b, c)
  {
  }

  lemma {:induction false} ZeroWord(ds: seq<bv32>)
    requires Octets(ds) && |ds| <= 4 && Word(ds) == 0
    ensures forall i :: 0 <= i < |ds| ==> ds[i] == 0
  {
    if ds != [] {
      WordBound(ds[1..]);
      ZeroWordStep(ds[0], Word(ds[1..]));
      ZeroWord(ds[1..]);
    }
  }

  lemma ZeroWordStep(d: bv32, w: bv32)
    requires d <= 0xFF && w <= 0xFF_FFFF && Xor32(d, w << 8) == 0
    ensures d == 0 && w == 0
  {
  }

  /** Bytewise difference of two inputs. */
  function Deltas(a: seq<octet>, b: seq<octet>): (ds: seq<bv32>)
    requires |a| == |b|
    ensures |ds| == |a|
    decreases |a|
  {
    if a == [] then [] else [Xor32(a[0] as bv32, b[0] as bv32)] + Deltas(a[1..], b[1..])
  }

  lemma DigestFront(r: bv32, b: octet, more: seq<octet>)
    ensures Digest(r, [b] + more) == Digest(ByteStep(r, b), more)
  {
    hide ByteStep;
    DigestChains(r, [b], more);
    assert [b][..0] == [];
    assert Digest(r, [b]) == ByteStep(Digest(r, []), b);
  }

  lemma {:induction false} DifferenceTracks(r: bv32, s: bv32, a: seq<octet>, b: seq<octet>)
    requires |a| == |b|
    ensures Xor32(Digest(r, a), Digest(s, b)) == Difference(Xor32(r, s), Deltas(a, b))
    decreases |a|
  {
    hide Digest, BitSteps, Xor32;
    if a == [] {
      DigestNothing(r);
      DigestNothing(s);
    } else {
      var x, y := a[0] as bv32, b[0] as bv32;
      assert a == [a[0]] + a[1..] && b == [b[0]] + b[1..];
      DigestFront(r, a[0], a[1..]);
      DigestFront(s, b[0], b[1..]);
      DifferenceTracks(ByteStep(r, a[0]), ByteStep(s, b[0]), a[1..], b[1..]);
      BitStepsLinear(Xor32(r, x), Xor32(s, y), 8);
      XorSwaps(r, x, s, y);
    }
  }

  lemma DigestNothing(r: bv32)
    ensures Digest(r, []) == r
  {
  }

  lemma ByteDifference(a: octet, b: octet)
    ensures Xor32(a as bv32, b as bv32) <= 0xFF
    ensures Xor32(a as bv32, b as bv32) == 0 ==> a == b
  {
  }

  lemma {:induction false} DeltasAreOctets(a: seq<octet>, b: seq<octet>)
    requires |a| == |b|
    ensures Octets(Deltas(a, b))
    ensures (forall i :: 0 <= i < |a| ==> Deltas(a, b)[i] == 0) ==> a == b
    decreases |a|
  {
    hide Xor32;
    if a != [] {
      ByteDifference(a[0], b[0]);
      var ds, more := Deltas(a, b), Deltas(a[1..], b[1..]);
      DeltasAreOctets(a[1..], b[1..]);
      assert ds[0] == Xor32(a[0] as bv32, b[0] as bv32) && forall i :: 0 <= i < |more| ==> more[i] == ds[i + 1];
      assert a == [a[0]] + a[1..] && b == [b[0]] + b[1..];
    }
  }

  /** Two inputs of equal length that differ only inside a window of at most four bytes leave the
      same digest exactly when they are equal, whatever precedes and follows the window. */
  lemma ShortBurstDetected(before: seq<octet>, a: seq<octet>, b: seq<octet>, after: seq<octet>)
    requires |a| == |b| <= 4
    ensures Digest(SEED, before + a + after) == Digest(SEED, before + b + after) <==> a == b
  {
    hide Digest, Difference, Word, Xor32;
    var r := Digest(SEED, before);
    DigestChains(SEED, before + a, after);
    DigestChains(SEED, before + b, after);
    DigestChains(SEED, before, a);
    DigestChains(SEED, before, b);
    if Digest(SEED, before + a + after) == Digest(SEED, before + b + after) {
      SuffixInjective(Digest(r, a), Digest(r, b), after);
      DifferenceTracks(r, r, a, b);
      XorZero(r);
      XorZero(Digest(r, a));
      DeltasAreOctets(a, b);
      VanishingDifference(0, Deltas(a, b));
      ZeroWord(Deltas(a, b));
    }
  }
}
