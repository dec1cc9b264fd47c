/** The shipped substitution table is that of AES: the affine transformation of the
    multiplicative inverse (FIPS-197 section 5.1.1). */
module AesSBox {
  import opened Bits
  import opened AesField
  import opened GfRing
  import opened Gf2Polynomials
  import opened Gf2Coefficients
  import opened AesTables

  // Inverses and the transformation.

  /** y is the inverse of b, that of zero being zero. */
  predicate InverseOf(b: Byte, y: Byte)
  {
    if b == ZERO then y == ZERO else GfMul(b, y) == ONE
  }

  lemma InverseUnique(b: Byte, y: Byte, y': Byte)
    requires InverseOf(b, y) && InverseOf(b, y')
    ensures y == y'
  {
    if b != ZERO {
      GfMulAssociative(y', b, y);
      GfMulCommutes(y', b);
      GfMulOneRight(y');
      GfMulOne(y);
    }
  }

  /** 0x63. */
  const C63: Byte := [true, true, false, false, false, true, true, false]

  /** Bit i of the affine transformation, as FIPS-197 has it. */
  function AffineBit(y: Byte, i: nat): (r: bool)
    requires i < 8
  {
    ((((y[i] != y[(i + 4) % 8]) != y[(i + 5) % 8]) != y[(i + 6) % 8]) != y[(i + 7) % 8]) != C63[i]
  }

  function Unaffine(s: Byte): (y: Byte)
  {
    [((s[2] != s[5]) != s[7]) != true, (s[3] != s[6]) != s[0], ((s[4] != s[7]) != s[1]) != true, (s[5] != s[0]) != s[2],
     (s[6] != s[1]) != s[3], (s[7] != s[2]) != s[4], (s[0] != s[3]) != s[5], (s[1] != s[4]) != s[6]]
  }

  lemma AffineUndone(s: Byte, i: nat)
    requires i < 8
    ensures AffineBit(Unaffine(s), i) == s[i]
  {
    assert i == 0 || i == 1 || i == 2 || i == 3 || i == 4 || i == 5 || i == 6 || i == 7;
  }

  // Remainders 0x01 and 0x00 modulo m(x).

  /** The low coefficients of a polynomial reduced modulo m(x) are those of one, or of
      zero. */
  predicate Reduces(c0: bool, c1: bool, c2: bool, c3: bool, c4: bool, c5: bool, c6: bool, c7: bool,
                    c8: bool, c9: bool, c10: bool, c11: bool, c12: bool, c13: bool, c14: bool, one: bool)
  {
    && one == (((c0 != c8) != c12) != c13)
    && !((((c1 != c8) != c9) != c12) != c14)
    && !(((c2 != c9) != c10) != c13)
    && !((((((c3 != c8) != c10) != c11) != c12) != c13) != c14)
    && !((((c4 != c8) != c9) != c11) != c14)
    && !(((c5 != c9) != c10) != c12)
    && !(((c6 != c10) != c11) != c13)
    && !(((c7 != c11) != c12) != c14)
  }

  lemma QuotientFits(c0: bool, c1: bool, c2: bool, c3: bool, c4: bool, c5: bool, c6: bool, c7: bool,
                     c8: bool, c9: bool, c10: bool, c11: bool, c12: bool, c13: bool, c14: bool, one: bool)
    requires Reduces(c0, c1, c2, c3, c4, c5, c6, c7, c8, c9, c10, c11, c12, c13, c14, one)
    ensures
      var q0, q1, q2 := (c8 != c12) != c13, (c9 != c13) != c14, c10 != c14;
      && (c0 != one) == q0 && c1 == (q1 != q0) && c2 == (q2 != q1) && c3 == ((c11 != q2) != q0)
      && c4 == (((c12 != c11) != q1) != q0) && c5 == (((c13 != c12) != q2) != q1)
      && c6 == (((c14 != c13) != c11) != q2) && c7 == ((c14 != c12) != c11)
      && c8 == ((c13 != c12) != q0) && c9 == ((c14 != c13) != q1) && c10 == (c14 != q2)
  {}

  lemma Remainder(p: Poly, one: bool) returns (q: seq<bool>, m: Poly)
    requires !p[15]
    requires true == Reduces(p[0], p[1], p[2], p[3], p[4], p[5], p[6], p[7], p[8], p[9], p[10], p[11], p[12], p[13], p[14], one)
    ensures |q| == 8 && m == Multiple(q)
    ensures m[0] == (p[0] != one) && m[1] == p[1] && m[2] == p[2] && m[3] == p[3] && m[4] == p[4] && m[5] == p[5] && m[6] == p[6]
    ensures m[7] == p[7] && m[8] == p[8] && m[9] == p[9] && m[10] == p[10] && m[11] == p[11] && m[12] == p[12] && m[13] == p[13]
    ensures m[14] == p[14] && m[15] == p[15]
  {
    q := Quotient(p);
    m := Multiple(q);
    MultipleBits0(q);
    MultipleBits1(q);
    MultipleBits2(q);
    MultipleBits3(q);
    QuotientFits(p[0], p[1], p[2], p[3], p[4], p[5], p[6], p[7], p[8], p[9], p[10], p[11], p[12], p[13], p[14], one);
  }

  lemma RemainderIs(p: Poly, one: bool)
    requires !p[15]
    requires true == Reduces(p[0], p[1], p[2], p[3], p[4], p[5], p[6], p[7], p[8], p[9], p[10], p[11], p[12], p[13], p[14], one)
    ensures IsRemainder(p, if one then ONE else ZERO)
  {
    var q, m := Remainder(p, one);
    RemainderFrom(p, one, q, m);
  }

  lemma RemainderFrom(p: Poly, one: bool, q: seq<bool>, m: Poly)
    requires |q| == 8 && m == Multiple(q)
    requires m[0] == (p[0] != one) && m[1] == p[1] && m[2] == p[2] && m[3] == p[3] && m[4] == p[4] && m[5] == p[5] && m[6] == p[6]
    requires m[7] == p[7] && m[8] == p[8] && m[9] == p[9] && m[10] == p[10] && m[11] == p[11] && m[12] == p[12] && m[13] == p[13]
    requires m[14] == p[14] && m[15] == p[15]
    ensures IsRemainder(p, if one then ONE else ZERO)
  {
    var r := if one then ONE else ZERO;
    Difference(p, one);
    SameBits(Xor(p, FromByte(r)), m);
    QuotientTells(p, r, q);
  }

  lemma SameBits(s: Poly, t: Poly)
    requires s[0] == t[0] && s[1] == t[1] && s[2] == t[2] && s[3] == t[3] && s[4] == t[4] && s[5] == t[5] && s[6] == t[6]
    requires s[7] == t[7] && s[8] == t[8] && s[9] == t[9] && s[10] == t[10] && s[11] == t[11] && s[12] == t[12]
    requires s[13] == t[13] && s[14] == t[14] && s[15] == t[15]
    ensures s == t
  {}

  lemma Difference(p: Poly, one: bool)
    ensures
      var d := Xor(p, FromByte(if one then ONE else ZERO));
      d[0] == (p[0] != one) && forall i :: 1 <= i < 16 ==> d[i] == p[i]
  {
    var r := FromByte(if one then ONE else ZERO);
    assert r[0] == one && forall i :: 1 <= i < 16 ==> !r[i];
  }

  lemma QuotientTells(p: Poly, r: Byte, q: seq<bool>)
    requires |q| == 8 && Xor(p, FromByte(r)) == Multiple(q)
    ensures IsRemainder(p, r)
  {
    assert DifferBy(p, FromByte(r), q);
  }

  // The table, entry by entry.

  /** A number is the affine transformation of the inverse of a byte. */
  predicate NumberInverts(v: nat, x0: bool, x1: bool, x2: bool, x3: bool, x4: bool, x5: bool, x6: bool, x7: bool)
  {
    var s0, s1, s2, s3 := v % 2 == 1, v / 2 % 2 == 1, v / 4 % 2 == 1, v / 8 % 2 == 1;
    var s4, s5, s6, s7 := v / 16 % 2 == 1, v / 32 % 2 == 1, v / 64 % 2 == 1, v / 128 % 2 == 1;
    var y0, y1, y2, y3 := ((s2 != s5) != s7) != true, (s3 != s6) != s0, ((s4 != s7) != s1) != true, (s5 != s0) != s2;
    var y4, y5, y6, y7 := (s6 != s1) != s3, (s7 != s2) != s4, (s0 != s3) != s5, (s1 != s4) != s6;
    Reduces(
      (x0 && y0),
      ((x1 && y0) != (x0 && y1)),
      (((x2 && y0) != (x1 && y1)) != (x0 && y2)),
      ((((x3 && y0) != (x2 && y1)) != (x1 && y2)) != (x0 && y3)),
      (((((x4 && y0) != (x3 && y1)) != (x2 && y2)) != (x1 && y3)) != (x0 && y4)),
      ((((((x5 && y0) != (x4 && y1)) != (x3 && y2)) != (x2 && y3)) != (x1 && y4)) != (x0 && y5)),
      (((((((x6 && y0) != (x5 && y1)) != (x4 && y2)) != (x3 && y3)) != (x2 && y4)) != (x1 && y5)) != (x0 && y6)),
      ((((((((x7 && y0) != (x6 && y1)) != (x5 && y2)) != (x4 && y3)) != (x3 && y4)) != (x2 && y5)) != (x1 && y6)) != (x0 && y7)),
      (((((((x7 && y1) != (x6 && y2)) != (x5 && y3)) != (x4 && y4)) != (x3 && y5)) != (x2 && y6)) != (x1 && y7)),
      ((((((x7 && y2) != (x6 && y3)) != (x5 && y4)) != (x4 && y5)) != (x3 && y6)) != (x2 && y7)),
      (((((x7 && y3) != (x6 && y4)) != (x5 && y5)) != (x4 && y6)) != (x3 && y7)),
      ((((x7 && y4) != (x6 && y5)) != (x5 && y6)) != (x4 && y7)),
      (((x7 && y5) != (x6 && y6)) != (x5 && y7)),
      ((x7 && y6) != (x6 && y7)),
      (x7 && y7),
      x0 || x1 || x2 || x3 || x4 || x5 || x6 || x7)
  }

  /** The same for the bits of a byte. */
  predicate ByteInverts(v: nat, b: Byte)
  {
    NumberInverts(v, b[0], b[1], b[2], b[3], b[4], b[5], b[6], b[7])
  }

  /** y is what the affine transformation takes to v. */
  predicate InverseBits(y: Byte, v: nat)
  {
    var s0, s1, s2, s3 := v % 2 == 1, v / 2 % 2 == 1, v / 4 % 2 == 1, v / 8 % 2 == 1;
    var s4, s5, s6, s7 := v / 16 % 2 == 1, v / 32 % 2 == 1, v / 64 % 2 == 1, v / 128 % 2 == 1;
    var y0, y1, y2, y3 := ((s2 != s5) != s7) != true, (s3 != s6) != s0, ((s4 != s7) != s1) != true, (s5 != s0) != s2;
    var y4, y5, y6, y7 := (s6 != s1) != s3, (s7 != s2) != s4, (s0 != s3) != s5, (s1 != s4) != s6;
    y[0] == y0 && y[1] == y1 && y[2] == y2 && y[3] == y3 && y[4] == y4 && y[5] == y5 && y[6] == y6 && y[7] == y7
  }

  lemma Coefficients0(a: Byte, y: Byte, v: nat)
    requires InverseBits(y, v)
    ensures
      var s0, s1, s2, s3 := v % 2 == 1, v / 2 % 2 == 1, v / 4 % 2 == 1, v / 8 % 2 == 1;
      var s4, s5, s6, s7 := v / 16 % 2 == 1, v / 32 % 2 == 1, v / 64 % 2 == 1, v / 128 % 2 == 1;
      var y0, y1, y2, y3 := ((s2 != s5) != s7) != true, (s3 != s6) != s0, ((s4 != s7) != s1) != true, (s5 != s0) != s2;
      var y4, y5, y6, y7 := (s6 != s1) != s3, (s7 != s2) != s4, (s0 != s3) != s5, (s1 != s4) != s6;
      var p := Product(a, y);
      && p[0] == (a[0] && y0)
      && p[1] == ((a[1] && y0) != (a[0] && y1))
      && p[2] == (((a[2] && y0) != (a[1] && y1)) != (a[0] && y2))
      && p[3] == ((((a[3] && y0) != (a[2] && y1)) != (a[1] && y2)) != (a[0] && y3))
  {
    Coefficient(a, y, 0);
    Coefficient(a, y, 1);
    Coefficient(a, y, 2);
    Coefficient(a, y, 3);
  }

  lemma Coefficients1(a: Byte, y: Byte, v: nat)
    requires InverseBits(y, v)
    ensures
      var s0, s1, s2, s3 := v % 2 == 1, v / 2 % 2 == 1, v / 4 % 2 == 1, v / 8 % 2 == 1;
      var s4, s5, s6, s7 := v / 16 % 2 == 1, v / 32 % 2 == 1, v / 64 % 2 == 1, v / 128 % 2 == 1;
      var y0, y1, y2, y3 := ((s2 != s5) != s7) != true, (s3 != s6) != s0, ((s4 != s7) != s1) != true, (s5 != s0) != s2;
      var y4, y5, y6, y7 := (s6 != s1) != s3, (s7 != s2) != s4, (s0 != s3) != s5, (s1 != s4) != s6;
      var p := Product(a, y);
      && p[4] == (((((a[4] && y0) != (a[3] && y1)) != (a[2] && y2)) != (a[1] && y3)) != (a[0] && y4))
      && p[5] == ((((((a[5] && y0) != (a[4] && y1)) != (a[3] && y2)) != (a[2] && y3)) != (a[1] && y4)) != (a[0] && y5))
  {
    Coefficient(a, y, 4);
    Coefficient(a, y, 5);
  }

  lemma Coefficients2(a: Byte, y: Byte, v: nat)
    requires InverseBits(y, v)
    ensures
      var s0, s1, s2, s3 := v % 2 == 1, v / 2 % 2 == 1, v / 4 % 2 == 1, v / 8 % 2 == 1;
      var s4, s5, s6, s7 := v / 16 % 2 == 1, v / 32 % 2 == 1, v / 64 % 2 == 1, v / 128 % 2 == 1;
      var y0, y1, y2, y3 := ((s2 != s5) != s7) != true, (s3 != s6) != s0, ((s4 != s7) != s1) != true, (s5 != s0) != s2;
      var y4, y5, y6, y7 := (s6 != s1) != s3, (s7 != s2) != s4, (s0 != s3) != s5, (s1 != s4) != s6;
      var p := Product(a, y);
      && p[6] == (((((((a[6] && y0) != (a[5] && y1)) != (a[4] && y2)) != (a[3] && y3)) != (a[2] && y4)) != (a[1] && y5)) != (a[0] && y6))
  {
    Coefficient(a, y, 6);
  }

  lemma Coefficients3(a: Byte, y: Byte, v: nat)
    requires InverseBits(y, v)
    ensures
      var s0, s1, s2, s3 := v % 2 == 1, v / 2 % 2 == 1, v / 4 % 2 == 1, v / 8 % 2 == 1;
      var s4, s5, s6, s7 := v / 16 % 2 == 1, v / 32 % 2 == 1, v / 64 % 2 == 1, v / 128 % 2 == 1;
      var y0, y1, y2, y3 := ((s2 != s5) != s7) != true, (s3 != s6) != s0, ((s4 != s7) != s1) != true, (s5 != s0) != s2;
      var y4, y5, y6, y7 := (s6 != s1) != s3, (s7 != s2) != s4, (s0 != s3) != s5, (s1 != s4) != s6;
      var p := Product(a, y);
      && p[7] == ((((((((a[7] && y0) != (a[6] && y1)) != (a[5] && y2)) != (a[4] && y3)) != (a[3] && y4)) != (a[2] && y5)) != (a[1] && y6)) != (a[0] && y7))
  {
    Coefficient(a, y, 7);
  }

  lemma Coefficients4(a: Byte, y: Byte, v: nat)
    requires InverseBits(y, v)
    ensures
      var s0, s1, s2, s3 := v % 2 == 1, v / 2 % 2 == 1, v / 4 % 2 == 1, v / 8 % 2 == 1;
      var s4, s5, s6, s7 := v / 16 % 2 == 1, v / 32 % 2 == 1, v / 64 % 2 == 1, v / 128 % 2 == 1;
      var y0, y1, y2, y3 := ((s2 != s5) != s7) != true, (s3 != s6) != s0, ((s4 != s7) != s1) != true, (s5 != s0) != s2;
      var y4, y5, y6, y7 := (s6 != s1) != s3, (s7 != s2) != s4, (s0 != s3) != s5, (s1 != s4) != s6;
      var p := Product(a, y);
      && p[8] == (((((((a[7] && y1) != (a[6] && y2)) != (a[5] && y3)) != (a[4] && y4)) != (a[3] && y5)) != (a[2] && y6)) != (a[1] && y7))
  {
    Coefficient(a, y, 8);
  }

  lemma Coefficients5(a: Byte, y: Byte, v: nat)
    requires InverseBits(y, v)
    ensures
      var s0, s1, s2, s3 := v % 2 == 1, v / 2 % 2 == 1, v / 4 % 2 == 1, v / 8 % 2 == 1;
      var s4, s5, s6, s7 := v / 16 % 2 == 1, v / 32 % 2 == 1, v / 64 % 2 == 1, v / 128 % 2 == 1;
      var y0, y1, y2, y3 := ((s2 != s5) != s7) != true, (s3 != s6) != s0, ((s4 != s7) != s1) != true, (s5 != s0) != s2;
      var y4, y5, y6, y7 := (s6 != s1) != s3, (s7 != s2) != s4, (s0 != s3) != s5, (s1 != s4) != s6;
      var p := Product(a, y);
      && p[9] == ((((((a[7] && y2) != (a[6] && y3)) != (a[5] && y4)) != (a[4] && y5)) != (a[3] && y6)) != (a[2] && y7))
      && p[10] == (((((a[7] && y3) != (a[6] && y4)) != (a[5] && y5)) != (a[4] && y6)) != (a[3] && y7))
  {
    Coefficient(a, y, 9);
    Coefficient(a, y, 10);
  }

  lemma Coefficients6(a: Byte, y: Byte, v: nat)
    requires InverseBits(y, v)
    ensures
      var s0, s1, s2, s3 := v % 2 == 1, v / 2 % 2 == 1, v / 4 % 2 == 1, v / 8 % 2 == 1;
      var s4, s5, s6, s7 := v / 16 % 2 == 1, v / 32 % 2 == 1, v / 64 % 2 == 1, v / 128 % 2 == 1;
      var y0, y1, y2, y3 := ((s2 != s5) != s7) != true, (s3 != s6) != s0, ((s4 != s7) != s1) != true, (s5 != s0) != s2;
      var y4, y5, y6, y7 := (s6 != s1) != s3, (s7 != s2) != s4, (s0 != s3) != s5, (s1 != s4) != s6;
      var p := Product(a, y);
      && p[11] == ((((a[7] && y4) != (a[6] && y5)) != (a[5] && y6)) != (a[4] && y7))
      && p[12] == (((a[7] && y5) != (a[6] && y6)) != (a[5] && y7))
      && p[13] == ((a[7] && y6) != (a[6] && y7))
      && p[14] == (a[7] && y7)
  {
    Coefficient(a, y, 11);
    Coefficient(a, y, 12);
    Coefficient(a, y, 13);
    Coefficient(a, y, 14);
  }

  lemma TopCoefficient(a: Byte, y: Byte)
    ensures !Product(a, y)[15]
  {
    Coefficient(a, y, 15);
  }

  lemma Coefficients(a: Byte, y: Byte, v: nat) returns (p: Poly)
    requires InverseBits(y, v)
    ensures p == Product(a, y) && !p[15]
    ensures
      var s0, s1, s2, s3 := v % 2 == 1, v / 2 % 2 == 1, v / 4 % 2 == 1, v / 8 % 2 == 1;
      var s4, s5, s6, s7 := v / 16 % 2 == 1, v / 32 % 2 == 1, v / 64 % 2 == 1, v / 128 % 2 == 1;
      var y0, y1, y2, y3 := ((s2 != s5) != s7) != true, (s3 != s6) != s0, ((s4 != s7) != s1) != true, (s5 != s0) != s2;
      var y4, y5, y6, y7 := (s6 != s1) != s3, (s7 != s2) != s4, (s0 != s3) != s5, (s1 != s4) != s6;
      true
      && p[0] == (a[0] && y0)
      && p[1] == ((a[1] && y0) != (a[0] && y1))
      && p[2] == (((a[2] && y0) != (a[1] && y1)) != (a[0] && y2))
      && p[3] == ((((a[3] && y0) != (a[2] && y1)) != (a[1] && y2)) != (a[0] && y3))
      && p[4] == (((((a[4] && y0) != (a[3] && y1)) != (a[2] && y2)) != (a[1] && y3)) != (a[0] && y4))
      && p[5] == ((((((a[5] && y0) != (a[4] && y1)) != (a[3] && y2)) != (a[2] && y3)) != (a[1] && y4)) != (a[0] && y5))
      && p[6] == (((((((a[6] && y0) != (a[5] && y1)) != (a[4] && y2)) != (a[3] && y3)) != (a[2] && y4)) != (a[1] && y5)) != (a[0] && y6))
      && p[7] == ((((((((a[7] && y0) != (a[6] && y1)) != (a[5] && y2)) != (a[4] && y3)) != (a[3] && y4)) != (a[2] && y5)) != (a[1] && y6)) != (a[0] && y7))
      && p[8] == (((((((a[7] && y1) != (a[6] && y2)) != (a[5] && y3)) != (a[4] && y4)) != (a[3] && y5)) != (a[2] && y6)) != (a[1] && y7))
      && p[9] == ((((((a[7] && y2) != (a[6] && y3)) != (a[5] && y4)) != (a[4] && y5)) != (a[3] && y6)) != (a[2] && y7))
      && p[10] == (((((a[7] && y3) != (a[6] && y4)) != (a[5] && y5)) != (a[4] && y6)) != (a[3] && y7))
      && p[11] == ((((a[7] && y4) != (a[6] && y5)) != (a[5] && y6)) != (a[4] && y7))
      && p[12] == (((a[7] && y5) != (a[6] && y6)) != (a[5] && y7))
      && p[13] == ((a[7] && y6) != (a[6] && y7))
      && p[14] == (a[7] && y7)
  {
    p := Product(a, y);
    TopCoefficient(a, y);
    Coefficients0(a, y, v);
    Coefficients1(a, y, v);
    Coefficients2(a, y, v);
    Coefficients3(a, y, v);
    Coefficients4(a, y, v);
    Coefficients5(a, y, v);
    Coefficients6(a, y, v);
  }

  lemma ReducesOver(a: Byte, v: nat, p: Poly, one: bool)
    requires ByteInverts(v, a) && one == (a[0] || a[1] || a[2] || a[3] || a[4] || a[5] || a[6] || a[7])
    requires
      var s0, s1, s2, s3 := v % 2 == 1, v / 2 % 2 == 1, v / 4 % 2 == 1, v / 8 % 2 == 1;
      var s4, s5, s6, s7 := v / 16 % 2 == 1, v / 32 % 2 == 1, v / 64 % 2 == 1, v / 128 % 2 == 1;
      var y0, y1, y2, y3 := ((s2 != s5) != s7) != true, (s3 != s6) != s0, ((s4 != s7) != s1) != true, (s5 != s0) != s2;
      var y4, y5, y6, y7 := (s6 != s1) != s3, (s7 != s2) != s4, (s0 != s3) != s5, (s1 != s4) != s6;
      true
      && p[0] == (a[0] && y0)
      && p[1] == ((a[1] && y0) != (a[0] && y1))
      && p[2] == (((a[2] && y0) != (a[1] && y1)) != (a[0] && y2))
      && p[3] == ((((a[3] && y0) != (a[2] && y1)) != (a[1] && y2)) != (a[0] && y3))
      && p[4] == (((((a[4] && y0) != (a[3] && y1)) != (a[2] && y2)) != (a[1] && y3)) != (a[0] && y4))
      && p[5] == ((((((a[5] && y0) != (a[4] && y1)) != (a[3] && y2)) != (a[2] && y3)) != (a[1] && y4)) != (a[0] && y5))
      && p[6] == (((((((a[6] && y0) != (a[5] && y1)) != (a[4] && y2)) != (a[3] && y3)) != (a[2] && y4)) != (a[1] && y5)) != (a[0] && y6))
      && p[7] == ((((((((a[7] && y0) != (a[6] && y1)) != (a[5] && y2)) != (a[4] && y3)) != (a[3] && y4)) != (a[2] && y5)) != (a[1] && y6)) != (a[0] && y7))
      && p[8] == (((((((a[7] && y1) != (a[6] && y2)) != (a[5] && y3)) != (a[4] && y4)) != (a[3] && y5)) != (a[2] && y6)) != (a[1] && y7))
      && p[9] == ((((((a[7] && y2) != (a[6] && y3)) != (a[5] && y4)) != (a[4] && y5)) != (a[3] && y6)) != (a[2] && y7))
      && p[10] == (((((a[7] && y3) != (a[6] && y4)) != (a[5] && y5)) != (a[4] && y6)) != (a[3] && y7))
      && p[11] == ((((a[7] && y4) != (a[6] && y5)) != (a[5] && y6)) != (a[4] && y7))
      && p[12] == (((a[7] && y5) != (a[6] && y6)) != (a[5] && y7))
      && p[13] == ((a[7] && y6) != (a[6] && y7))
      && p[14] == (a[7] && y7)
    ensures Reduces(p[0], p[1], p[2], p[3], p[4], p[5], p[6], p[7], p[8], p[9], p[10], p[11], p[12], p[13], p[14], one)
  {}

  lemma ProductInBits(a: Byte, y: Byte, v: nat, one: bool)
    requires InverseBits(y, v) && ByteInverts(v, a)
    requires one == (a[0] || a[1] || a[2] || a[3] || a[4] || a[5] || a[6] || a[7])
    ensures GfMul(a, y) == if one then ONE else ZERO
  {
    var p := Coefficients(a, y, v);
    ReducesOver(a, v, p, one);
    RemainderIs(p, one);
    GfMulIsProductModulo(a, y);
    RemainderUnique(p, GfMul(a, y), if one then ONE else ZERO);
  }

  lemma Row0(x0: bool, x1: bool, x2: bool, x3: bool)
    ensures NumberInverts(Entry(0, Nibble(x0, x1, x2, x3)), x0, x1, x2, x3, false, false, false, false)
  {}

  lemma Row1(x0: bool, x1: bool, x2: bool, x3: bool)
    ensures NumberInverts(Entry(1, Nibble(x0, x1, x2, x3)), x0, x1, x2, x3, true, false, false, false)
  {}

  lemma Row2(x0: bool, x1: bool, x2: bool, x3: bool)
    ensures NumberInverts(Entry(2, Nibble(x0, x1, x2, x3)), x0, x1, x2, x3, false, true, false, false)
  {}

  lemma Row3(x0: bool, x1: bool, x2: bool, x3: bool)
    ensures NumberInverts(Entry(3, Nibble(x0, x1, x2, x3)), x0, x1, x2, x3, true, true, false, false)
  {}

  lemma Row4(x0: bool, x1: bool, x2: bool, x3: bool)
    ensures NumberInverts(Entry(4, Nibble(x0, x1, x2, x3)), x0, x1, x2, x3, false, false, true, false)
  {}

  lemma Row5(x0: bool, x1: bool, x2: bool, x3: bool)
    ensures NumberInverts(Entry(5, Nibble(x0, x1, x2, x3)), x0, x1, x2, x3, true, false, true, false)
  {}

  lemma Row6(x0: bool, x1: bool, x2: bool, x3: bool)
    ensures NumberInverts(Entry(6, Nibble(x0, x1, x2, x3)), x0, x1, x2, x3, false, true, true, false)
  {}

  lemma Row7(x0: bool, x1: bool, x2: bool, x3: bool)
    ensures NumberInverts(Entry(7, Nibble(x0, x1, x2, x3)), x0, x1, x2, x3, true, true, true, false)
  {}

  lemma Row8(x0: bool, x1: bool, x2: bool, x3: bool)
    ensures NumberInverts(Entry(8, Nibble(x0, x1, x2, x3)), x0, x1, x2, x3, false, false, false, true)
  {}

  lemma Row9(x0: bool, x1: bool, x2: bool, x3: bool)
    ensures NumberInverts(Entry(9, Nibble(x0, x1, x2, x3)), x0, x1, x2, x3, true, false, false, true)
  {}

  lemma Row10(x0: bool, x1: bool, x2: bool, x3: bool)
    ensures NumberInverts(Entry(10, Nibble(x0, x1, x2, x3)), x0, x1, x2, x3, false, true, false, true)
  {}

  lemma Row11(x0: bool, x1: bool, x2: bool, x3: bool)
    ensures NumberInverts(Entry(11, Nibble(x0, x1, x2, x3)), x0, x1, x2, x3, true, true, false, true)
  {}

  lemma Row12(x0: bool, x1: bool, x2: bool, x3: bool)
    ensures NumberInverts(Entry(12, Nibble(x0, x1, x2, x3)), x0, x1, x2, x3, false, false, true, true)
  {}

  lemma Row13(x0: bool, x1: bool, x2: bool, x3: bool)
    ensures NumberInverts(Entry(13, Nibble(x0, x1, x2, x3)), x0, x1, x2, x3, true, false, true, true)
  {}

  lemma Row14(x0: bool, x1: bool, x2: bool, x3: bool)
    ensures NumberInverts(Entry(14, Nibble(x0, x1, x2, x3)), x0, x1, x2, x3, false, true, true, true)
  {}

  lemma Row15(x0: bool, x1: bool, x2: bool, x3: bool)
    ensures NumberInverts(Entry(15, Nibble(x0, x1, x2, x3)), x0, x1, x2, x3, true, true, true, true)
  {}

  lemma EntriesInvert(v: nat, h: nat, x0: bool, x1: bool, x2: bool, x3: bool, x4: bool, x5: bool, x6: bool, x7: bool)
    requires h == Nibble(x4, x5, x6, x7) && v == Entry(h, Nibble(x0, x1, x2, x3))
    ensures true == NumberInverts(v, x0, x1, x2, x3, x4, x5, x6, x7)
  {
    match h
    case 0 => Row0(x0, x1, x2, x3);
    case 1 => Row1(x0, x1, x2, x3);
    case 2 => Row2(x0, x1, x2, x3);
    case 3 => Row3(x0, x1, x2, x3);
    case 4 => Row4(x0, x1, x2, x3);
    case 5 => Row5(x0, x1, x2, x3);
    case 6 => Row6(x0, x1, x2, x3);
    case 7 => Row7(x0, x1, x2, x3);
    case 8 => Row8(x0, x1, x2, x3);
    case 9 => Row9(x0, x1, x2, x3);
    case 10 => Row10(x0, x1, x2, x3);
    case 11 => Row11(x0, x1, x2, x3);
    case 12 => Row12(x0, x1, x2, x3);
    case 13 => Row13(x0, x1, x2, x3);
    case 14 => Row14(x0, x1, x2, x3);
    case _ => Row15(x0, x1, x2, x3);
  }

  lemma Half(v: nat, a: nat, b: nat)
    requires v == 2 * a + b
    ensures v / 2 == a + b / 2 && v % 2 == b % 2
  {}

  /** The digits of a number in base 16 hold its bits. */
  lemma NumberBits(v: nat)
    requires v < 256
    ensures
      var b := FromNumber(v);
      && b[0] == (v % 2 == 1) && b[1] == (v / 2 % 2 == 1) && b[2] == (v / 4 % 2 == 1) && b[3] == (v / 8 % 2 == 1)
      && b[4] == (v / 16 % 2 == 1) && b[5] == (v / 32 % 2 == 1) && b[6] == (v / 64 % 2 == 1) && b[7] == (v / 128 % 2 == 1)
  {
    var h, l := v / 16, v % 16;
    LowDigit(v, h, l);
    HighDigit(v, h);
  }

  lemma LowDigit(v: nat, h: nat, l: nat)
    requires v == 16 * h + l
    ensures v % 2 == l % 2 && v / 2 % 2 == l / 2 % 2 && v / 4 % 2 == l / 4 % 2 && v / 8 % 2 == l / 8 % 2
  {
    Half(v, 8 * h, l);
    Half(v / 2, 4 * h, l / 2);
    Half(v / 4, 2 * h, l / 4);
    Half(v / 8, h, l / 8);
    assert v / 2 / 2 == v / 4 && v / 4 / 2 == v / 8 && l / 2 / 2 == l / 4 && l / 4 / 2 == l / 8;
  }

  lemma HighDigit(v: nat, h: nat)
    requires h == v / 16
    ensures v / 32 == h / 2 && v / 64 == h / 4 && v / 128 == h / 8
  {}

  lemma NumberOf(b: Byte) returns (v: nat)
    ensures v < 256 && Substitute(b) == FromNumber(v)
    ensures ByteInverts(v, b)
  {
    v := Entry(High(b), Low(b));
    EntriesInvert(v, High(b), b[0], b[1], b[2], b[3], b[4], b[5], b[6], b[7]);
    EntryBound(High(b), Low(b));
  }

  lemma SubstituteBits(b: Byte, s: Byte) returns (v: nat)
    requires s == Substitute(b)
    ensures ByteInverts(v, b)
    ensures s[0] == (v % 2 == 1) && s[1] == (v / 2 % 2 == 1) && s[2] == (v / 4 % 2 == 1) && s[3] == (v / 8 % 2 == 1)
    ensures s[4] == (v / 16 % 2 == 1) && s[5] == (v / 32 % 2 == 1) && s[6] == (v / 64 % 2 == 1) && s[7] == (v / 128 % 2 == 1)
  {
    v := NumberOf(b);
    NumberBits(v);
  }

  lemma EntryBound(h: nat, l: nat)
    requires h < 16 && l < 16
    ensures Entry(h, l) < 256
  {
    TablesAgree(h, l);
  }

  lemma ZeroBits(b: Byte)
    ensures b != ZERO <==> b[0] || b[1] || b[2] || b[3] || b[4] || b[5] || b[6] || b[7]
  {}

  lemma UnaffineBits(s: Byte, v: nat)
    requires s[0] == (v % 2 == 1) && s[1] == (v / 2 % 2 == 1) && s[2] == (v / 4 % 2 == 1) && s[3] == (v / 8 % 2 == 1)
    requires s[4] == (v / 16 % 2 == 1) && s[5] == (v / 32 % 2 == 1) && s[6] == (v / 64 % 2 == 1) && s[7] == (v / 128 % 2 == 1)
    ensures InverseBits(Unaffine(s), v)
  {}

  /** With the number of its entry, the bits of a byte and of the entry. */
  lemma NumberProduct(b: Byte, s: Byte, v: nat)
    requires ByteInverts(v, b)
    requires s[0] == (v % 2 == 1) && s[1] == (v / 2 % 2 == 1) && s[2] == (v / 4 % 2 == 1) && s[3] == (v / 8 % 2 == 1)
    requires s[4] == (v / 16 % 2 == 1) && s[5] == (v / 32 % 2 == 1) && s[6] == (v / 64 % 2 == 1) && s[7] == (v / 128 % 2 == 1)
    ensures GfMul(b, Unaffine(s)) == if b == ZERO then ZERO else ONE
  {
    ZeroBits(b);
    UnaffineBits(s, v);
    ProductInBits(b, Unaffine(s), v, b != ZERO);
  }

  lemma EntryProduct(b: Byte, s: Byte)
    requires s == Substitute(b)
    ensures GfMul(b, Unaffine(s)) == if b == ZERO then ZERO else ONE
  {
    var v := SubstituteBits(b, s);
    NumberProduct(b, s, v);
  }

  /** The shipped table is the substitution of AES: for every byte b with its inverse y,
      bit i of the entry is the affine transformation of y. */
  lemma TableIsAffineInverse(b: Byte, y: Byte, i: nat)
    requires InverseOf(b, y) && i < 8
    ensures SBoxTable()(b)[i] == AffineBit(y, i)
  {
    var s := Substitute(b);
    EntryProduct(b, s);
    assert InverseOf(b, Unaffine(s)) by { if b == ZERO { ZeroEntry(); } }
    InverseUnique(b, y, Unaffine(s));
    AffineUndone(s, i);
  }

  lemma ZeroEntry()
    ensures Unaffine(Substitute(ZERO)) == ZERO
  {
    ZeroEntryIs();
    assert Unaffine(C63) == ZERO;
  }

  lemma ZeroEntryIs()
    ensures Substitute(ZERO) == C63
  {
    ZeroDigits();
    FirstEntry();
    SixtyThree();
  }

  lemma FirstEntry()
    ensures Entry(0, 0) == 0x63
  {}

  lemma SixtyThree()
    ensures FromNumber(0x63) == C63
  {
    NumberBits(0x63);
  }

  lemma ZeroDigits()
    ensures High(ZERO) == 0 && Low(ZERO) == 0
  {}

  /** Every byte has an inverse. */
  lemma InverseExists(b: Byte) returns (y: Byte)
    ensures InverseOf(b, y)
  {
    y := if b == ZERO then ZERO else Unaffine(Substitute(b));
    EntryProduct(b, Substitute(b));
  }
}
