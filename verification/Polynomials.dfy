/** Polynomials over GF(2), as the finite sets of their exponents, and division by the CRC-32
    generator of section 3.2.9 of IEEE 802.3. */
module Polynomials {

  type Poly = set<nat>

  /** Coefficients add modulo 2. */
  function Add(p: Poly, q: Poly): Poly {
    (p - q) + (q - p)
  }

  /** Multiplication by x^k. */
  function Shift(p: Poly, k: nat): Poly {
    set e | e in p :: e + k
  }

  lemma ShiftIn(p: Poly, k: nat, e: nat)
    ensures e in Shift(p, k) <==> e >= k && e - k in p
  {
    if e >= k && e - k in p {
      var d := e - k;
      assert d in p && d + k == e;
    }
  }

  /** x^32 + x^26 + x^23 + x^22 + x^16 + x^12 + x^11 + x^10 + x^8 + x^7 + x^5 + x^4 + x^2 + x + 1. */
  function Generator(): Poly {
    {32, 26, 23, 22, 16, 12, 11, 10, 8, 7, 5, 4, 2, 1, 0}
  }

  lemma GeneratorDegree()
    ensures 32 in Generator() && DegreeBelow(Generator(), 33)
  {
  }

  function Scaled(b: bool, p: Poly): Poly {
    if b then p else {}
  }

  /** The multiple of the generator by the polynomial with coefficients `q`, highest first. */
  function TimesG(q: seq<bool>): Poly {
    if q == [] then {}
    else Add(Shift(TimesG(q[..|q| - 1]), 1), Scaled(q[|q| - 1], Generator()))
  }

  predicate DegreeBelow(p: Poly, n: nat) {
    forall e :: e in p ==> e < n
  }

  /** `r` is a remainder of `p` modulo the generator. */
  ghost predicate IsRemainder(p: Poly, r: Poly) {
    DegreeBelow(r, 32) && exists q :: p == Add(TimesG(q), r)
  }

  lemma TimesGAppend(q: seq<bool>, b: bool)
    ensures TimesG(q + [b]) == Add(Shift(TimesG(q), 1), Scaled(b, Generator()))
  {
    assert (q + [b])[..|q|] == q;
  }

  lemma ShiftDegree(p: Poly, n: nat)
    requires DegreeBelow(p, n)
    ensures DegreeBelow(Shift(p, 1), n + 1)
  {
  }

  /** A multiple with leading coefficient 1 has degree |q| + 31. */
  lemma {:induction false} DegreeOfMultiple(q: seq<bool>)
    requires q != [] && q[0]
    ensures |q| + 31 in TimesG(q) && DegreeBelow(TimesG(q), |q| + 32)
  {
    hide Shift, Generator;
    GeneratorDegree();
    var before := q[..|q| - 1];
    if before == [] {
      assert Shift(TimesG(before), 1) == {} by { ShiftOfZero(); }
    } else {
      DegreeOfMultiple(before);
      ShiftIn(TimesG(before), 1, |q| + 31);
      ShiftDegree(TimesG(before), |q| + 31);
    }
  }

  lemma ShiftOfZero()
    ensures Shift({}, 1) == {}
  {
  }

  lemma ShiftAdds(p: Poly, q: Poly, k: nat)
    ensures Shift(Add(p, q), k) == Add(Shift(p, k), Shift(q, k))
  {
    hide Shift;
    forall e: nat ensures e in Shift(Add(p, q), k) <==> e in Add(Shift(p, k), Shift(q, k)) {
      ShiftIn(Add(p, q), k, e);
      ShiftIn(p, k, e);
      ShiftIn(q, k, e);
    }
  }

  lemma ShiftShifts(p: Poly, j: nat, k: nat)
    ensures Shift(Shift(p, j), k) == Shift(p, j + k)
  {
    hide Shift;
    forall e: nat ensures e in Shift(Shift(p, j), k) <==> e in Shift(p, j + k) {
      ShiftIn(Shift(p, j), k, e);
      ShiftIn(p, j + k, e);
      if e >= k {
        ShiftIn(p, j, e - k);
      }
    }
  }

  lemma {:induction false} LeadingZero(q: seq<bool>)
    ensures TimesG([false] + q) == TimesG(q)
  {
    hide Shift, Generator;
    var wide := [false] + q;
    if q == [] {
      assert wide[..0] == [] && wide[|wide| - 1] == false;
      ShiftOfZero();
    } else {
      LeadingZero(q[..|q| - 1]);
      assert wide[..|q|] == [false] + q[..|q| - 1];
    }
  }

  /** A multiple of the generator of degree below 32 is zero. */
  lemma {:induction false} SmallMultipleIsZero(q: seq<bool>)
    requires DegreeBelow(TimesG(q), 32)
    ensures TimesG(q) == {}
  {
    hide Shift, Generator;
    if q != [] {
      if q[0] {
        DegreeOfMultiple(q);
      } else {
        assert q == [false] + q[1..];
        LeadingZero(q[1..]);
        SmallMultipleIsZero(q[1..]);
      }
    }
  }

  function Xor(a: seq<bool>, b: seq<bool>): seq<bool>
    requires |a| == |b|
  {
    if a == [] then [] else Xor(a[..|a| - 1], b[..|b| - 1]) + [a[|a| - 1] != b[|b| - 1]]
  }

  /** (p + q) + (r + s) == (p + r) + (q + s). */
  lemma AddSwaps(p: Poly, q: Poly, r: Poly, s: Poly)
    ensures Add(Add(p, q), Add(r, s)) == Add(Add(p, r), Add(q, s))
  {
  }

  lemma ScaledAdds(a: bool, b: bool, p: Poly)
    ensures Scaled(a != b, p) == Add(Scaled(a, p), Scaled(b, p))
  {
  }

  lemma {:induction false} MultiplesAdd(a: seq<bool>, b: seq<bool>)
    requires |a| == |b|
    ensures TimesG(Xor(a, b)) == Add(TimesG(a), TimesG(b))
  {
    hide Shift, Generator, Add, Scaled;
    if a == [] {
      AddNothing({});
    } else {
      var a', b', x, y := a[..|a| - 1], b[..|b| - 1], a[|a| - 1], b[|b| - 1];
      MultiplesAdd(a', b');
      TimesGAppend(Xor(a', b'), x != y);
      ShiftAdds(TimesG(a'), TimesG(b'), 1);
      ScaledAdds(x, y, Generator());
      AddSwaps(Shift(TimesG(a'), 1), Shift(TimesG(b'), 1), Scaled(x, Generator()), Scaled(y, Generator()));
    }
  }

  lemma AddNothing(p: Poly)
    ensures Add(p, {}) == p
  {
  }

  lemma {:induction false} Padded(q: seq<bool>, n: nat) returns (q': seq<bool>)
    requires |q| <= n
    ensures |q'| == n && TimesG(q') == TimesG(q)
    decreases n - |q|
  {
    hide TimesG;
    if |q| == n {
      q' := q;
    } else {
      LeadingZero(q);
      q' := Padded([false] + q, n);
    }
  }

  /** The remainder is unique. */
  lemma RemainderUnique(p: Poly, r1: Poly, r2: Poly)
    requires IsRemainder(p, r1) && IsRemainder(p, r2)
    ensures r1 == r2
  {
    hide TimesG, Xor;
    var q1 :| p == Add(TimesG(q1), r1);
    var q2 :| p == Add(TimesG(q2), r2);
    var n := if |q1| < |q2| then |q2| else |q1|;
    var a := Padded(q1, n);
    var b := Padded(q2, n);
    MultiplesAdd(a, b);
    SameSum(TimesG(a), TimesG(b), r1, r2);
    SmallMultipleIsZero(Xor(a, b));
    AddIsZero(r1, r2);
  }

  lemma SameSum(p: Poly, q: Poly, r1: Poly, r2: Poly)
    requires Add(p, r1) == Add(q, r2)
    ensures Add(p, q) == Add(r1, r2)
  {
    forall e ensures e in Add(p, q) <==> e in Add(r1, r2) {
      assert e in Add(p, r1) <==> e in Add(q, r2);
    }
  }

  lemma AddIsZero(p: Poly, q: Poly)
    requires Add(p, q) == {}
    ensures p == q
  {
    forall e ensures e in p <==> e in q {
      assert e !in Add(p, q);
    }
  }
}
