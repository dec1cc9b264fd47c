/** Polynomials over GF(2), and what it means to multiply bytes modulo
    m(x) = x^8 + x^4 + x^3 + x + 1 (FIPS-197 section 4.2). */
module Gf2Polynomials {
  import opened Bits
  import opened AesField

  /** A polynomial of degree below 16: p[i] is the coefficient of x^i. */
  type Poly = p: seq<bool> | |p| == 16 witness Fill(16, false)

  const NOTHING: Poly := Fill(16, false)

  const MODULUS: Poly :=
    [true, true, false, true, true, false, false, false, true, false, false, false, false, false, false, false]

  function FromByte(a: Byte): (p: Poly)
  {
    a + Fill(8, false)
  }

  function TimesX(p: Poly): (r: Poly)
  {
    [false] + p[..15]
  }

  function TimesXPower(p: Poly, i: nat): (r: Poly)
  {
    if i == 0 then p else TimesX(TimesXPower(p, i - 1))
  }

  /** The part of a(x) b(x) due to the coefficients of b below i. */
  function ProductUpTo(a: Byte, b: Byte, i: nat): (p: Poly)
    requires i <= 8
  {
    if i == 0 then NOTHING
    else if b[i - 1] then Xor(ProductUpTo(a, b, i - 1), TimesXPower(FromByte(a), i - 1))
    else ProductUpTo(a, b, i - 1)
  }

  /** The product of two bytes as polynomials, of degree at most 14. */
  function Product(a: Byte, b: Byte): (p: Poly)
  {
    ProductUpTo(a, b, 8)
  }

  /** The multiple k(x) m(x). */
  function Multiple(k: seq<bool>): (p: Poly)
    requires |k| <= 8
  {
    if k == [] then NOTHING
    else
      var rest := TimesX(Multiple(k[1..]));
      if k[0] then Xor(rest, MODULUS) else rest
  }

  /** p and q differ by k(x) m(x). */
  ghost predicate DifferBy(p: Poly, q: Poly, k: seq<bool>)
    requires |k| <= 8
  {
    Xor(p, q) == Multiple(k)
  }

  /** r is the remainder of p on division by m(x). */
  ghost predicate IsRemainder(p: Poly, r: Byte)
  {
    exists k: seq<bool> :: |k| == 8 && DifferBy(p, FromByte(r), k)
  }

  lemma {:induction false} MultiplePadded(k: seq<bool>, n: nat)
    requires |k| + n <= 8
    ensures Multiple(k + Fill(n, false)) == Multiple(k)
    decreases |k| + n
  {
    if k == [] {
      if n > 0 {
        MultiplePadded([], n - 1);
        assert ([] + Fill(n, false))[1..] == [] + Fill(n - 1, false);
        assert TimesX(NOTHING) == NOTHING;
      }
    } else {
      MultiplePadded(k[1..], n);
      assert (k + Fill(n, false))[1..] == k[1..] + Fill(n, false);
    }
  }

  lemma TimesXAdditive(p: Poly, q: Poly)
    ensures TimesX(Xor(p, q)) == Xor(TimesX(p), TimesX(q))
  {}

  lemma XorTerms(p: Poly, q: Poly, m: Poly)
    ensures Xor(Xor(p, m), Xor(q, m)) == Xor(p, q)
    ensures Xor(Xor(p, m), q) == Xor(Xor(p, q), m)
    ensures Xor(p, Xor(q, m)) == Xor(Xor(p, q), m)
  {}

  lemma {:induction false} MultipleAdditive(k: seq<bool>, l: seq<bool>)
    requires |k| == |l| <= 8
    ensures Multiple(Xor(k, l)) == Xor(Multiple(k), Multiple(l))
  {
    if k == [] {
      XorZero(NOTHING);
    } else {
      MultipleAdditive(k[1..], l[1..]);
      assert Xor(k, l)[1..] == Xor(k[1..], l[1..]);
      var p, q := TimesX(Multiple(k[1..])), TimesX(Multiple(l[1..]));
      TimesXAdditive(Multiple(k[1..]), Multiple(l[1..]));
      XorTerms(p, q, MODULUS);
    }
  }

  /** Reducing by 0x1b subtracts the modulus. */
  lemma XTimeReduces(a: Byte)
    ensures FromByte(XTime(a)) == if a[7] then Xor(TimesX(FromByte(a)), MODULUS) else TimesX(FromByte(a))
  {}

  /** One more factor x on both sides. */
  lemma PowerStep(p: Poly, c: Byte, l: seq<bool>)
    requires |l| < 8 && DifferBy(p, FromByte(c), l)
    ensures DifferBy(TimesX(p), FromByte(XTime(c)), [c[7]] + l)
  {
    assert ([c[7]] + l)[1..] == l;
    XTimeReduces(c);
    TimesXAdditive(p, FromByte(c));
    XorTerms(TimesX(p), TimesX(FromByte(c)), MODULUS);
  }

  /** x^i a(x) and the byte a times x^i differ by a multiple of m(x). */
  lemma {:induction false} PowerReduced(a: Byte, i: nat) returns (k: seq<bool>)
    requires i <= 8
    ensures |k| == i && DifferBy(TimesXPower(FromByte(a), i), FromByte(TimesPower(a, i)), k)
  {
    if i == 0 {
      k := [];
      XorZero(FromByte(a));
    } else {
      var l := PowerReduced(a, i - 1);
      k := [TimesPower(a, i - 1)[7]] + l;
      PowerStep(TimesXPower(FromByte(a), i - 1), TimesPower(a, i - 1), l);
    }
  }

  lemma XorPairs(p: Poly, q: Poly, r: Poly, s: Poly)
    ensures Xor(Xor(p, r), Xor(q, s)) == Xor(Xor(p, q), Xor(r, s))
  {}

  lemma FromByteAdditive(a: Byte, b: Byte)
    ensures FromByte(Xor(a, b)) == Xor(FromByte(a), FromByte(b))
  {}

  lemma {:induction false} SumReduced(a: Byte, b: Byte, i: nat) returns (k: seq<bool>)
    requires i <= 8
    ensures |k| == 8 && DifferBy(ProductUpTo(a, b, i), FromByte(PartialProduct(a, b, i)), k)
  {
    if i == 0 {
      k := Fill(8, false);
      MultiplePadded([], 8);
      assert [] + Fill(8, false) == k;
      XorZero(NOTHING);
      assert FromByte(ZERO) == NOTHING;
    } else {
      k := SumReduced(a, b, i - 1);
      if b[i - 1] {
        var l := PowerReduced(a, i - 1);
        var l' := l + Fill(8 - |l|, false);
        MultiplePadded(l, 8 - |l|);
        MultipleAdditive(k, l');
        FromByteAdditive(PartialProduct(a, b, i - 1), TimesPower(a, i - 1));
        XorPairs(ProductUpTo(a, b, i - 1), FromByte(PartialProduct(a, b, i - 1)),
                 TimesXPower(FromByte(a), i - 1), FromByte(TimesPower(a, i - 1)));
        k := Xor(k, l');
      }
    }
  }

  /** GfMul, hence the software gf_mult, is polynomial multiplication modulo m(x). */
  lemma GfMulIsProductModulo(a: Byte, b: Byte)
    ensures IsRemainder(Product(a, b), GfMul(a, b))
  {
    var k := SumReduced(a, b, 8);
  }

  lemma {:induction false} MultipleOfZero(k: seq<bool>)
    requires |k| <= 8 && forall i :: 0 <= i < |k| ==> !k[i]
    ensures Multiple(k) == NOTHING
  {
    if k != [] {
      MultipleOfZero(k[1..]);
      assert TimesX(NOTHING) == NOTHING;
    }
  }

  /** A multiple of m(x) by a polynomial with leading term x^j has degree 8 + j. */
  lemma {:induction false} MultipleDegree(k: seq<bool>, j: nat)
    requires |k| <= 8 && j < |k| && k[j] && forall i :: j < i < |k| ==> !k[i]
    ensures Multiple(k)[8 + j]
  {
    if j == 0 {
      MultipleOfZero(k[1..]);
      assert TimesX(NOTHING) == NOTHING;
    } else {
      MultipleDegree(k[1..], j - 1);
    }
  }

  /** Only the zero multiple has degree below 8. */
  lemma {:induction false} SmallMultiple(k: seq<bool>, n: nat)
    requires n <= |k| <= 8 && (forall i :: n <= i < |k| ==> !k[i])
    requires forall j :: 8 <= j < 16 ==> !Multiple(k)[j]
    ensures Multiple(k) == NOTHING
  {
    if n == 0 {
      MultipleOfZero(k);
    } else {
      if k[n - 1] {
        MultipleDegree(k, n - 1);
        assert false;
      }
      SmallMultiple(k, n - 1);
    }
  }

  /** The remainder is unique, so the product modulo m(x) is a function. */
  lemma RemainderUnique(p: Poly, r: Byte, s: Byte)
    requires IsRemainder(p, r) && IsRemainder(p, s)
    ensures r == s
  {
    var k: seq<bool> :| |k| == 8 && DifferBy(p, FromByte(r), k);
    var l: seq<bool> :| |l| == 8 && DifferBy(p, FromByte(s), l);
    MultipleAdditive(k, l);
    var d := Xor(FromByte(r), FromByte(s));
    assert Xor(Xor(p, FromByte(r)), Xor(p, FromByte(s))) == d;
    SmallMultiple(Xor(k, l), 8);
    forall i | 0 <= i < 8 ensures r[i] == s[i] {
      assert !d[i];
      assert d[i] == (FromByte(r)[i] != FromByte(s)[i]);
    }
  }
}
