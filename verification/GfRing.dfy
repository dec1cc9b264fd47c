/** The ring laws of the byte multiplication, and products of the circulant
    matrices of MixColumns (FIPS-197 sections 4.2 and 4.3). */
module GfRing {
  import opened Bits
  import opened AesField
  import opened AesSpec
  import opened AesUnits

  lemma XorKeep(a: Byte, b: Byte, c: Byte)
    ensures Xor(Xor(a, c), b) == Xor(Xor(a, b), c)
    ensures Xor(a, Xor(b, c)) == Xor(Xor(a, b), c)
    ensures Xor(Xor(a, c), Xor(b, c)) == Xor(a, b)
  {}

  /** Additivity in the second factor. */
  lemma {:induction false} SumOfFactors(a: Byte, b: Byte, b': Byte, i: nat)
    requires i <= 8
    ensures PartialProduct(a, Xor(b, b'), i) == Xor(PartialProduct(a, b, i), PartialProduct(a, b', i))
  {
    if i == 0 {
      XorZero(ZERO);
    } else {
      SumOfFactors(a, b, b', i - 1);
      XorKeep(PartialProduct(a, b, i - 1), PartialProduct(a, b', i - 1), TimesPower(a, i - 1));
    }
  }

  lemma GfMulAdditiveRight(a: Byte, b: Byte, b': Byte)
    ensures GfMul(a, Xor(b, b')) == Xor(GfMul(a, b), GfMul(a, b'))
  {
    SumOfFactors(a, b, b', 8);
  }

  /** x^8 times a is a times 0x1b; told for a sum of powers of x, then for all a. */
  lemma EighthPowerOfOne()
    ensures TimesPower(ONE, 8) == TAIL && GfMul(ONE, TAIL) == TAIL
  {
    GfMulOne(TAIL);
    SeventhPowerOfOne();
    XTimeTop();
    TimesPowerNext(ONE, 8);
  }

  const TOP: Byte := [false, false, false, false, false, false, false, true]

  lemma SeventhPowerOfOne()
    ensures TimesPower(ONE, 7) == TOP
  {
    PowerOfX(7);
    assert Fill(7, false) + [true] + Fill(0, false) == TOP;
  }

  lemma XTimeTop()
    ensures XTime(TOP) == TAIL
  {
    assert Shl(TOP) == ZERO;
  }

  ghost predicate EighthPower(a: Byte)
  {
    TimesPower(a, 8) == GfMul(a, TAIL)
  }

  lemma EighthPowerSum(a: Byte, b: Byte)
    requires EighthPower(a) && EighthPower(b)
    ensures EighthPower(Xor(a, b))
  {
    TimesPowerAdditive(a, b, 8);
    GfMulAdditive(a, b, TAIL);
  }

  lemma {:induction false} EighthPowerOfPower(i: nat)
    ensures EighthPower(TimesPower(ONE, i))
  {
    if i == 0 {
      EighthPowerOfOne();
    } else {
      EighthPowerOfPower(i - 1);
      TimesPowerXTime(TimesPower(ONE, i - 1), 8);
      GfMulXTime(TimesPower(ONE, i - 1), TAIL);
    }
  }

  lemma {:induction false} EighthPowerOfSum(a: Byte, i: nat)
    requires i <= 8
    ensures EighthPower(PartialProduct(ONE, a, i))
  {
    if i == 0 {
      XorZero(ZERO);
      EighthPowerOfOne();
      EighthPowerSum(ONE, ONE);
      assert Xor(ONE, ONE) == ZERO;
    } else {
      EighthPowerOfSum(a, i - 1);
      EighthPowerOfPower(i - 1);
      EighthPowerSum(PartialProduct(ONE, a, i - 1), TimesPower(ONE, i - 1));
    }
  }

  lemma EighthPowerAlways(a: Byte)
    ensures TimesPower(a, 8) == GfMul(a, TAIL)
  {
    GfMulOne(a);
    EighthPowerOfSum(a, 8);
  }

  /** Shifting the second factor up by one, up to coefficient i. */
  lemma {:induction false} ShiftedFactor(a: Byte, b: Byte, i: nat)
    requires i <= 7
    ensures PartialProduct(a, Shl(b), i + 1) == XTime(PartialProduct(a, b, i))
  {
    PartialProductNext(a, Shl(b), i + 1);
    if i == 0 {
      XTimeZero();
    } else {
      ShiftedFactor(a, b, i - 1);
      PartialProductNext(a, b, i);
      TimesPowerNext(a, i);
      XTimeSummand(PartialProduct(a, b, i - 1), TimesPower(a, i - 1), b[i - 1]);
    }
  }

  lemma GfMulXTimeRight(a: Byte, b: Byte)
    ensures GfMul(a, XTime(b)) == XTime(GfMul(a, b))
  {
    ShiftedFactor(a, b, 7);
    if b[7] {
      GfMulAdditiveRight(a, Shl(b), TAIL);
      EighthPowerAlways(a);
      XTimeAdditive(PartialProduct(a, b, 7), TimesPower(a, 7));
    }
  }

  lemma {:induction false} GfMulPowerRight(a: Byte, b: Byte, i: nat)
    ensures GfMul(a, TimesPower(b, i)) == TimesPower(GfMul(a, b), i)
  {
    if i > 0 {
      GfMulPowerRight(a, b, i - 1);
      GfMulXTimeRight(a, TimesPower(b, i - 1));
    }
  }

  lemma GfMulZero(a: Byte)
    ensures GfMul(a, ZERO) == ZERO
  {
    GfMulAdditiveRight(a, ZERO, ZERO);
    XorZero(ZERO);
    XorZero(GfMul(a, ZERO));
    assert Xor(ZERO, ZERO) == ZERO;
  }

  lemma {:induction false} AssociatePartial(a: Byte, b: Byte, c: Byte, i: nat)
    requires i <= 8
    ensures GfMul(a, PartialProduct(b, c, i)) == PartialProduct(GfMul(a, b), c, i)
  {
    if i == 0 {
      GfMulZero(a);
    } else {
      AssociatePartial(a, b, c, i - 1);
      if c[i - 1] {
        GfMulAdditiveRight(a, PartialProduct(b, c, i - 1), TimesPower(b, i - 1));
        GfMulPowerRight(a, b, i - 1);
      }
    }
  }

  lemma GfMulAssociative(a: Byte, b: Byte, c: Byte)
    ensures GfMul(a, GfMul(b, c)) == GfMul(GfMul(a, b), c)
  {
    AssociatePartial(a, b, c, 8);
  }

  // Circulant matrices: each row is the one above, moved on by one place.

  function Dot(k: Column, w: Column): (b: Byte)
  {
    Xor4(GfMul(k.r0, w.r0), GfMul(k.r1, w.r1), GfMul(k.r2, w.r2), GfMul(k.r3, w.r3))
  }

  function Circulant(k: Column, w: Column): (w': Column)
  {
    MixWith(k.r0, k.r1, k.r2, k.r3, w)
  }

  /** The rows of a circulant product are dot products with the rotated column. */
  lemma CirculantRows(k: Column, w: Column)
    ensures Circulant(k, w) ==
      Column(Dot(k, w), Dot(k, RotWord(w)), Dot(k, RotWord(RotWord(w))), Dot(k, RotWord(RotWord(RotWord(w)))))
  {}

  /** The product of two polynomials modulo x^4 + 1, as coefficients of a circulant. */
  function Convolution(k: Column, l: Column): (c: Column)
  {
    Column(Xor4(GfMul(k.r0, l.r0), GfMul(k.r1, l.r3), GfMul(k.r2, l.r2), GfMul(k.r3, l.r1)),
           Xor4(GfMul(k.r0, l.r1), GfMul(k.r1, l.r0), GfMul(k.r2, l.r3), GfMul(k.r3, l.r2)),
           Xor4(GfMul(k.r0, l.r2), GfMul(k.r1, l.r1), GfMul(k.r2, l.r0), GfMul(k.r3, l.r3)),
           Xor4(GfMul(k.r0, l.r3), GfMul(k.r1, l.r2), GfMul(k.r2, l.r1), GfMul(k.r3, l.r0)))
  }

  lemma GfMulSum4(k: Byte, a: Byte, b: Byte, c: Byte, d: Byte)
    ensures GfMul(k, Xor4(a, b, c, d)) == Xor4(GfMul(k, a), GfMul(k, b), GfMul(k, c), GfMul(k, d))
  {
    GfMulAdditiveRight(k, a, b);
    GfMulAdditiveRight(k, Xor(a, b), c);
    GfMulAdditiveRight(k, Xor(Xor(a, b), c), d);
  }

  lemma GfMulSum4Left(a: Byte, b: Byte, c: Byte, d: Byte, w: Byte)
    ensures GfMul(Xor4(a, b, c, d), w) == Xor4(GfMul(a, w), GfMul(b, w), GfMul(c, w), GfMul(d, w))
  {
    GfMulAdditive(a, b, w);
    GfMulAdditive(Xor(a, b), c, w);
    GfMulAdditive(Xor(Xor(a, b), c), d, w);
  }

  lemma ScaledDot(k: Byte, l: Column, w: Column)
    ensures GfMul(k, Dot(l, w)) ==
      Xor4(GfMul(GfMul(k, l.r0), w.r0), GfMul(GfMul(k, l.r1), w.r1), GfMul(GfMul(k, l.r2), w.r2), GfMul(GfMul(k, l.r3), w.r3))
  {
    GfMulSum4(k, GfMul(l.r0, w.r0), GfMul(l.r1, w.r1), GfMul(l.r2, w.r2), GfMul(l.r3, w.r3));
    GfMulAssociative(k, l.r0, w.r0);
    GfMulAssociative(k, l.r1, w.r1);
    GfMulAssociative(k, l.r2, w.r2);
    GfMulAssociative(k, l.r3, w.r3);
  }

  function AddColumns(a: Column, b: Column): (c: Column)
  {
    Column(Xor(a.r0, b.r0), Xor(a.r1, b.r1), Xor(a.r2, b.r2), Xor(a.r3, b.r3))
  }

  function Sum(a: Column): (b: Byte)
  {
    Xor4(a.r0, a.r1, a.r2, a.r3)
  }

  lemma SumOfSums(a: Column, b: Column)
    ensures Xor(Sum(a), Sum(b)) == Sum(AddColumns(a, b))
  {
    var x0, x1, x2 := Xor(a.r0, a.r1), Xor(b.r0, b.r1), Xor(a.r2, a.r3);
    XorShuffle(a.r0, a.r1, b.r0, b.r1);
    XorShuffle(x0, a.r2, x1, b.r2);
    XorShuffle(Xor(x0, a.r2), a.r3, Xor(x1, b.r2), b.r3);
  }

  /** Adding up a four by four square by rows or by columns. */
  lemma SquareSum(a: Column, b: Column, c: Column, d: Column)
    ensures Xor4(Sum(a), Sum(b), Sum(c), Sum(d)) ==
      Xor4(Xor4(a.r0, b.r0, c.r0, d.r0), Xor4(a.r1, b.r1, c.r1, d.r1), Xor4(a.r2, b.r2, c.r2, d.r2), Xor4(a.r3, b.r3, c.r3, d.r3))
  {
    SumOfSums(a, b);
    SumOfSums(AddColumns(a, b), c);
    SumOfSums(AddColumns(AddColumns(a, b), c), d);
  }

  function Scaled(k: Byte, l: Column, w: Column): (c: Column)
  {
    Column(GfMul(GfMul(k, l.r0), w.r0), GfMul(GfMul(k, l.r1), w.r1), GfMul(GfMul(k, l.r2), w.r2), GfMul(GfMul(k, l.r3), w.r3))
  }

  /** One term of the product row, with its summands sorted by the row of w. */
  lemma SortedTerm(k: Byte, l: Column, w: Column, n: nat)
    requires n < 4
    ensures
      var w1 := RotWord(w);
      var w2 := RotWord(w1);
      var w3 := RotWord(w2);
      && (n == 0 ==> GfMul(k, Dot(l, w)) == Sum(Scaled(k, l, w)))
      && (n == 1 ==> GfMul(k, Dot(l, w1)) == Sum(Scaled(k, Column(l.r3, l.r0, l.r1, l.r2), w)))
      && (n == 2 ==> GfMul(k, Dot(l, w2)) == Sum(Scaled(k, Column(l.r2, l.r3, l.r0, l.r1), w)))
      && (n == 3 ==> GfMul(k, Dot(l, w3)) == Sum(Scaled(k, Column(l.r1, l.r2, l.r3, l.r0), w)))
  {
    var v := if n == 0 then w else if n == 1 then RotWord(w) else if n == 2 then RotWord(RotWord(w)) else RotWord(RotWord(RotWord(w)));
    ScaledDot(k, l, v);
    var t := Scaled(k, l, v);
    Xor4Rotates(t.r0, t.r1, t.r2, t.r3);
  }

  lemma CollectColumn(a: Byte, b: Byte, c: Byte, d: Byte, w: Byte)
    ensures Xor4(GfMul(a, w), GfMul(b, w), GfMul(c, w), GfMul(d, w)) == GfMul(Xor4(a, b, c, d), w)
  {
    GfMulSum4Left(a, b, c, d, w);
  }

  /** One row of a product of circulants. */
  lemma ProductRow(k: Column, l: Column, w: Column)
    ensures Dot(k, Circulant(l, w)) == Dot(Convolution(k, l), w)
  {
    CirculantRows(l, w);
    SortedTerm(k.r0, l, w, 0);
    SortedTerm(k.r1, l, w, 1);
    SortedTerm(k.r2, l, w, 2);
    SortedTerm(k.r3, l, w, 3);
    var a := Scaled(k.r0, l, w);
    var b := Scaled(k.r1, Column(l.r3, l.r0, l.r1, l.r2), w);
    var c := Scaled(k.r2, Column(l.r2, l.r3, l.r0, l.r1), w);
    var d := Scaled(k.r3, Column(l.r1, l.r2, l.r3, l.r0), w);
    SquareSum(a, b, c, d);
    CollectColumn(GfMul(k.r0, l.r0), GfMul(k.r1, l.r3), GfMul(k.r2, l.r2), GfMul(k.r3, l.r1), w.r0);
    CollectColumn(GfMul(k.r0, l.r1), GfMul(k.r1, l.r0), GfMul(k.r2, l.r3), GfMul(k.r3, l.r2), w.r1);
    CollectColumn(GfMul(k.r0, l.r2), GfMul(k.r1, l.r1), GfMul(k.r2, l.r0), GfMul(k.r3, l.r3), w.r2);
    CollectColumn(GfMul(k.r0, l.r3), GfMul(k.r1, l.r2), GfMul(k.r2, l.r1), GfMul(k.r3, l.r0), w.r3);
  }

  lemma CirculantRotates(l: Column, w: Column)
    ensures Circulant(l, RotWord(w)) == RotWord(Circulant(l, w))
  {
    CirculantRows(l, w);
    CirculantRows(l, RotWord(w));
    assert RotWord(RotWord(RotWord(RotWord(w)))) == w;
  }

  /** A circulant times a circulant is the circulant of the convolution. */
  lemma CirculantProduct(k: Column, l: Column, w: Column)
    ensures Circulant(k, Circulant(l, w)) == Circulant(Convolution(k, l), w)
  {
    var w1 := RotWord(w);
    var w2 := RotWord(w1);
    var w3 := RotWord(w2);
    CirculantRotates(l, w);
    CirculantRotates(l, w1);
    CirculantRotates(l, w2);
    CirculantRows(k, Circulant(l, w));
    CirculantRows(Convolution(k, l), w);
    ProductRow(k, l, w);
    ProductRow(k, l, w1);
    ProductRow(k, l, w2);
    ProductRow(k, l, w3);
  }

  const MIX: Column := Column(TWO, THREE, ONE, ONE)
  const UNMIX: Column := Column(FOURTEEN, ELEVEN, THIRTEEN, NINE)
  const UNIT: Column := Column(ONE, ZERO, ZERO, ZERO)

  lemma GfMulZeroLeft(b: Byte)
    ensures GfMul(ZERO, b) == ZERO
  {
    GfMulAdditive(ZERO, ZERO, b);
    XorZero(ZERO);
    XorZero(GfMul(ZERO, b));
    assert Xor(ZERO, ZERO) == ZERO;
  }

  lemma UnitCirculant(w: Column)
    ensures Circulant(UNIT, w) == w
  {
    CirculantRows(UNIT, w);
    UnitDot(w);
    UnitDot(RotWord(w));
    UnitDot(RotWord(RotWord(w)));
    UnitDot(RotWord(RotWord(RotWord(w))));
  }

  lemma UnitDot(w: Column)
    ensures Dot(UNIT, w) == w.r0
  {
    GfMulOne(w.r0);
    GfMulZeroLeft(w.r1);
    GfMulZeroLeft(w.r2);
    GfMulZeroLeft(w.r3);
    XorZero(w.r0);
    assert ZERO == Fill(8, false);
  }

  lemma {:induction false} OneRight(a: Byte, i: nat)
    requires 1 <= i <= 8
    ensures PartialProduct(a, ONE, i) == a
  {
    if i == 1 {
      assert Xor(ZERO, a) == a;
    } else {
      OneRight(a, i - 1);
    }
  }

  /** The matrix coefficients act the same from either side. */
  lemma SmallFactors(a: Byte)
    ensures GfMul(a, ONE) == GfMul(ONE, a) == a
    ensures GfMul(a, TWO) == GfMul(TWO, a) == XTime(a)
    ensures GfMul(a, THREE) == GfMul(THREE, a) == Xor(XTime(a), a)
  {
    OneRight(a, 8);
    GfMulOne(a);
    GfMulXTimeRight(a, ONE);
    assert XTime(ONE) == TWO && Xor(TWO, ONE) == THREE;
    GfMulAdditiveRight(a, TWO, ONE);
    GfMulConstants(a);
  }

  // 2 and 3 times each coefficient of the inverse matrix.

  lemma CoefficientDoubles()
    ensures XTime(FOURTEEN) == [false, false, true, true, true, false, false, false]
    ensures XTime(ELEVEN) == [false, true, true, false, true, false, false, false]
    ensures XTime(THIRTEEN) == [false, true, false, true, true, false, false, false]
    ensures XTime(NINE) == [false, true, false, false, true, false, false, false]
  {}

  lemma InverseRow0()
    ensures Xor4(XTime(FOURTEEN), ELEVEN, THIRTEEN, Xor(XTime(NINE), NINE)) == ONE
    ensures Xor4(XTime(FOURTEEN), Xor(XTime(NINE), NINE), THIRTEEN, ELEVEN) == ONE
  {
    CoefficientDoubles();
  }

  lemma InverseRow1()
    ensures Xor4(Xor(XTime(FOURTEEN), FOURTEEN), XTime(ELEVEN), THIRTEEN, NINE) == ZERO
    ensures Xor4(XTime(ELEVEN), Xor(XTime(FOURTEEN), FOURTEEN), NINE, THIRTEEN) == ZERO
  {
    CoefficientDoubles();
  }

  lemma InverseRow2()
    ensures Xor4(FOURTEEN, Xor(XTime(ELEVEN), ELEVEN), XTime(THIRTEEN), NINE) == ZERO
    ensures Xor4(XTime(THIRTEEN), Xor(XTime(ELEVEN), ELEVEN), FOURTEEN, NINE) == ZERO
  {
    CoefficientDoubles();
  }

  lemma InverseRow3()
    ensures Xor4(FOURTEEN, ELEVEN, Xor(XTime(THIRTEEN), THIRTEEN), XTime(NINE)) == ZERO
    ensures Xor4(XTime(NINE), Xor(XTime(THIRTEEN), THIRTEEN), ELEVEN, FOURTEEN) == ZERO
  {
    CoefficientDoubles();
  }

  /** The two coefficient polynomials are inverse modulo x^4 + 1. */
  lemma UnmixMix()
    ensures Convolution(UNMIX, MIX) == UNIT
  {
    SmallFactors(FOURTEEN);
    SmallFactors(ELEVEN);
    SmallFactors(THIRTEEN);
    SmallFactors(NINE);
    InverseRow0();
    InverseRow1();
    InverseRow2();
    InverseRow3();
  }

  lemma MixUnmix()
    ensures Convolution(MIX, UNMIX) == UNIT
  {
    SmallFactors(FOURTEEN);
    SmallFactors(ELEVEN);
    SmallFactors(THIRTEEN);
    SmallFactors(NINE);
    InverseRow0();
    InverseRow1();
    InverseRow2();
    InverseRow3();
  }

  lemma MixColumnIsCirculant(w: Column)
    ensures MixColumn(w) == Circulant(MIX, w)
  {}

  lemma CirculantsInvert(k: Column, l: Column, w: Column)
    requires Convolution(k, l) == UNIT
    ensures Circulant(k, Circulant(l, w)) == w
  {
    CirculantProduct(k, l, w);
    UnitCirculant(w);
  }

  /** InvMixColumns undoes MixColumns on every column, and the other way round. */
  lemma MixInverts(w: Column)
    ensures Circulant(UNMIX, MixColumn(w)) == w && MixColumn(Circulant(UNMIX, w)) == w
  {
    UnmixMix();
    MixUnmix();
    CirculantsInvert(UNMIX, MIX, w);
    CirculantsInvert(MIX, UNMIX, w);
    MixColumnIsCirculant(w);
    MixColumnIsCirculant(Circulant(UNMIX, w));
  }

  // Multiplication is commutative.

  lemma {:induction false} PowerLeft(a: Byte, i: nat)
    ensures GfMul(TimesPower(ONE, i), a) == TimesPower(a, i)
  {
    if i == 0 {
      GfMulOne(a);
    } else {
      PowerLeft(a, i - 1);
      GfMulXTime(TimesPower(ONE, i - 1), a);
    }
  }

  lemma GfMulOneRight(a: Byte)
    ensures GfMul(a, ONE) == a
  {
    OneSummand(a, 8);
  }

  lemma {:induction false} OneSummand(a: Byte, i: nat)
    requires 1 <= i <= 8
    ensures PartialProduct(a, ONE, i) == a
  {
    if i == 1 {
      XorZero(a);
    } else {
      OneSummand(a, i - 1);
    }
  }

  lemma {:induction false} CommutePartial(a: Byte, b: Byte, i: nat)
    requires i <= 8
    ensures GfMul(a, PartialProduct(ONE, b, i)) == GfMul(PartialProduct(ONE, b, i), a)
  {
    if i == 0 {
      GfMulZero(a);
      GfMulZeroLeft(a);
    } else {
      CommutePartial(a, b, i - 1);
      PartialProductNext(ONE, b, i);
      if b[i - 1] {
        GfMulAdditiveRight(a, PartialProduct(ONE, b, i - 1), TimesPower(ONE, i - 1));
        GfMulAdditive(PartialProduct(ONE, b, i - 1), TimesPower(ONE, i - 1), a);
        GfMulPowerRight(a, ONE, i - 1);
        GfMulOneRight(a);
        PowerLeft(a, i - 1);
      }
    }
  }

  lemma GfMulCommutes(a: Byte, b: Byte)
    ensures GfMul(a, b) == GfMul(b, a)
  {
    GfMulOne(b);
    CommutePartial(a, b, 8);
  }
}
