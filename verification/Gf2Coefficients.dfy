/** The product of two bytes as polynomials over GF(2), and the multiples of m(x), one
    coefficient at a time. */
module Gf2Coefficients {
  import opened AesField
  import opened Gf2Polynomials

  /** The part of coefficient k of a product that is due to y[j]. */
  function Term(a: Byte, y: Byte, k: nat, j: nat): (t: bool)
    requires k < 16 && j < 8
  {
    j <= k < j + 8 && a[k - j] && y[j]
  }

  lemma {:induction false} PowerCoefficient(p: Poly, j: nat, k: nat)
    requires k < 16 && j < 8
    ensures TimesXPower(p, j)[k] == (j <= k && p[k - j])
  {
    if j > 0 && k > 0 {
      PowerCoefficient(p, j - 1, k - 1);
    }
  }

  lemma CoefficientNext(a: Byte, y: Byte, k: nat, j: nat)
    requires k < 16 && j < 8
    ensures ProductUpTo(a, y, j + 1)[k] == (ProductUpTo(a, y, j)[k] != Term(a, y, k, j))
  {
    PowerCoefficient(FromByte(a), j, k);
  }

  lemma Coefficient(a: Byte, y: Byte, k: nat)
    requires k < 16
    ensures Product(a, y)[k] ==
      (((((((Term(a, y, k, 0) != Term(a, y, k, 1)) != Term(a, y, k, 2)) != Term(a, y, k, 3)) != Term(a, y, k, 4))
        != Term(a, y, k, 5)) != Term(a, y, k, 6)) != Term(a, y, k, 7))
  {
    CoefficientNext(a, y, k, 0);
    CoefficientNext(a, y, k, 1);
    CoefficientNext(a, y, k, 2);
    CoefficientNext(a, y, k, 3);
    CoefficientNext(a, y, k, 4);
    CoefficientNext(a, y, k, 5);
    CoefficientNext(a, y, k, 6);
    CoefficientNext(a, y, k, 7);
  }

  /** Coefficient i of a multiple of m(x) by a polynomial with coefficients q. */
  function Factor(q: seq<bool>, i: nat, j: nat): (t: bool)
    requires i < 16 && j < |q|
  {
    j <= i && q[j] && MODULUS[i - j]
  }

  lemma MultipleNext(q: seq<bool>, i: nat)
    requires 1 <= |q| <= 8 && i < 16
    ensures Multiple(q)[i] == ((i > 0 && Multiple(q[1..])[i - 1]) != (q[0] && MODULUS[i]))
  {}

  /** The quotient of a polynomial of degree at most 14 on division by m(x). */
  function Quotient(p: Poly): (q: seq<bool>)
  {
    [(p[8] != p[12]) != p[13], ((p[9] != p[13]) != p[14]), p[10] != p[14], p[11], p[12], p[13], p[14], false]
  }

  lemma MultipleBit(q: seq<bool>, i: nat)
    requires |q| == 8 && !q[7] && i < 16
    ensures Multiple(q)[i] ==
      ((((((Factor(q, i, 6) != Factor(q, i, 5)) != Factor(q, i, 4)) != Factor(q, i, 3)) != Factor(q, i, 2))
        != Factor(q, i, 1)) != Factor(q, i, 0))
  {
    MultipleTail(q, i, 7);
    MultipleTail(q, i, 6);
    MultipleTail(q, i, 5);
    MultipleTail(q, i, 4);
    MultipleTail(q, i, 3);
    MultipleTail(q, i, 2);
    MultipleTail(q, i, 1);
    MultipleTail(q, i, 0);
    assert q[0..] == q && q[8..] == [];
  }

  lemma MultipleTail(q: seq<bool>, i: nat, j: nat)
    requires |q| == 8 && i < 16 && j < 8
    ensures (if i < j then false else Multiple(q[j..])[i - j]) ==
      ((if i < j + 1 then false else Multiple(q[j + 1..])[i - j - 1]) != Factor(q, i, j))
  {
    if i >= j {
      MultipleNext(q[j..], i - j);
      assert q[j..][1..] == q[j + 1..];
    }
  }

  lemma MultipleBits0(q: seq<bool>)
    requires |q| == 8 && !q[7]
    ensures
      var m := Multiple(q);
      && m[0] == q[0]
      && m[1] == (q[1] != q[0])
      && m[2] == (q[2] != q[1])
      && m[3] == ((q[3] != q[2]) != q[0])
  {
    MultipleBit(q, 0);
    MultipleBit(q, 1);
    MultipleBit(q, 2);
    MultipleBit(q, 3);
  }

  lemma MultipleBits1(q: seq<bool>)
    requires |q| == 8 && !q[7]
    ensures
      var m := Multiple(q);
      && m[4] == (((q[4] != q[3]) != q[1]) != q[0])
      && m[5] == (((q[5] != q[4]) != q[2]) != q[1])
      && m[6] == (((q[6] != q[5]) != q[3]) != q[2])
      && m[7] == ((q[6] != q[4]) != q[3])
  {
    MultipleBit(q, 4);
    MultipleBit(q, 5);
    MultipleBit(q, 6);
    MultipleBit(q, 7);
  }

  lemma MultipleBits2(q: seq<bool>)
    requires |q| == 8 && !q[7]
    ensures
      var m := Multiple(q);
      && m[8] == ((q[5] != q[4]) != q[0])
      && m[9] == ((q[6] != q[5]) != q[1])
      && m[10] == (q[6] != q[2])
      && m[11] == q[3]
  {
    MultipleBit(q, 8);
    MultipleBit(q, 9);
    MultipleBit(q, 10);
    MultipleBit(q, 11);
  }

  lemma MultipleBits3(q: seq<bool>)
    requires |q| == 8 && !q[7]
    ensures
      var m := Multiple(q);
      && m[12] == q[4]
      && m[13] == q[5]
      && m[14] == q[6]
      && m[15] == false
  {
    MultipleBit(q, 12);
    MultipleBit(q, 13);
    MultipleBit(q, 14);
    MultipleBit(q, 15);
  }
}
