/** Bytes as elements of GF(2^8), FIPS-197 section 4.2: bit i of a byte is the
    coefficient of x^i. */
module AesField {
  import opened Bits

  type Byte = b: seq<bool> | |b| == 8 witness [false, false, false, false, false, false, false, false]

  const ZERO: Byte := [false, false, false, false, false, false, false, false]

  /** 0x1b: the modulus x^8 + x^4 + x^3 + x + 1 without its leading term. */
  const TAIL: Byte := [true, true, false, true, true, false, false, false]

  function Shl(a: Byte): (r: Byte)
  {
    [false] + a[..7]
  }

  /** Multiplication by x, as wired in the round engine. */
  function XTime(a: Byte): (r: Byte)
  {
    if a[7] then Xor(Shl(a), TAIL) else Shl(a)
  }

  /** a times x^i. */
  function TimesPower(a: Byte, i: nat): (r: Byte)
  {
    if i == 0 then a else XTime(TimesPower(a, i - 1))
  }

  /** The sum of the a times x^j over the set bits j < i of b. */
  function PartialProduct(a: Byte, b: Byte, i: nat): (p: Byte)
    requires i <= 8
  {
    if i == 0 then ZERO
    else if b[i - 1] then Xor(PartialProduct(a, b, i - 1), TimesPower(a, i - 1))
    else PartialProduct(a, b, i - 1)
  }

  /** Multiplication in GF(2^8). */
  function GfMul(a: Byte, b: Byte): (r: Byte)
  {
    PartialProduct(a, b, 8)
  }

  /** The software multiplication: shift and add, reducing as it goes. */
  method GfMult(a0: Byte, b0: Byte) returns (p: Byte)
    ensures p == GfMul(a0, b0)
  {
    var a, b := a0, b0;
    p := ZERO;
    for i := 0 to 8
      invariant p == PartialProduct(a0, b0, i) && a == TimesPower(a0, i)
      invariant b == b0[i..] + Fill(i, false)
    {
      if b[0] {
        p := Xor(p, a);
      }
      var hiBit := a[7];
      a := Shl(a);
      if hiBit {
        a := Xor(a, TAIL);
      }
      b := b[1..] + [false];
    }
  }

  lemma XTimeAdditive(a: Byte, b: Byte)
    ensures XTime(Xor(a, b)) == Xor(XTime(a), XTime(b))
  {}

  lemma {:induction false} TimesPowerAdditive(a: Byte, a': Byte, i: nat)
    ensures TimesPower(Xor(a, a'), i) == Xor(TimesPower(a, i), TimesPower(a', i))
  {
    if i > 0 {
      TimesPowerAdditive(a, a', i - 1);
      XTimeAdditive(TimesPower(a, i - 1), TimesPower(a', i - 1));
    }
  }

  lemma XorShuffle(a: Byte, b: Byte, c: Byte, d: Byte)
    ensures Xor(Xor(a, b), Xor(c, d)) == Xor(Xor(a, c), Xor(b, d))
  {}

  lemma {:induction false} PartialProductAdditive(a: Byte, a': Byte, b: Byte, i: nat)
    requires i <= 8
    ensures PartialProduct(Xor(a, a'), b, i) == Xor(PartialProduct(a, b, i), PartialProduct(a', b, i))
  {
    if i == 0 {
      XorZero(ZERO);
    } else {
      PartialProductAdditive(a, a', b, i - 1);
      TimesPowerAdditive(a, a', i - 1);
      XorShuffle(PartialProduct(a, b, i - 1), PartialProduct(a', b, i - 1), TimesPower(a, i - 1), TimesPower(a', i - 1));
    }
  }

  lemma {:induction false} TimesPowerXTime(a: Byte, i: nat)
    ensures TimesPower(XTime(a), i) == XTime(TimesPower(a, i))
  {
    if i > 0 {
      TimesPowerXTime(a, i - 1);
    }
  }

  lemma TimesPowerNext(a: Byte, i: nat)
    requires i >= 1
    ensures TimesPower(a, i) == XTime(TimesPower(a, i - 1))
  {}

  lemma PartialProductNext(a: Byte, b: Byte, i: nat)
    requires 1 <= i <= 8
    ensures PartialProduct(a, b, i) ==
      if b[i - 1] then Xor(PartialProduct(a, b, i - 1), TimesPower(a, i - 1)) else PartialProduct(a, b, i - 1)
  {}

  lemma XTimeZero()
    ensures XTime(ZERO) == ZERO
  {}

  /** One summand more, in a product that is another one times x. */
  lemma XTimeSummand(p: Byte, t: Byte, bit: bool)
    ensures (if bit then Xor(XTime(p), XTime(t)) else XTime(p)) == XTime(if bit then Xor(p, t) else p)
  {
    XTimeAdditive(p, t);
  }

  lemma {:induction false} PartialProductXTime(a: Byte, b: Byte, i: nat)
    requires i <= 8
    ensures PartialProduct(XTime(a), b, i) == XTime(PartialProduct(a, b, i))
  {
    if i == 0 {
      XTimeZero();
    } else {
      PartialProductXTime(a, b, i - 1);
      TimesPowerXTime(a, i - 1);
      PartialProductNext(a, b, i);
      PartialProductNext(XTime(a), b, i);
      XTimeSummand(PartialProduct(a, b, i - 1), TimesPower(a, i - 1), b[i - 1]);
    }
  }

  const ONE: Byte := [true, false, false, false, false, false, false, false]
  const X1: Byte := [false, true, false, false, false, false, false, false]
  const X2: Byte := [false, false, true, false, false, false, false, false]
  const X3: Byte := [false, false, false, true, false, false, false, false]

  lemma {:induction false} PowerOfX(i: nat)
    requires i < 8
    ensures TimesPower(ONE, i) == Fill(i, false) + [true] + Fill(7 - i, false)
  {
    if i > 0 {
      PowerOfX(i - 1);
      assert TimesPower(ONE, i) == Shl(TimesPower(ONE, i - 1));
    }
  }

  lemma {:induction false} LowBits(b: Byte, i: nat)
    requires i <= 8
    ensures PartialProduct(ONE, b, i) == b[..i] + Fill(8 - i, false)
  {
    if i > 0 {
      LowBits(b, i - 1);
      PowerOfX(i - 1);
    }
  }

  lemma GfMulOne(b: Byte)
    ensures GfMul(ONE, b) == b
  {
    LowBits(b, 8);
  }

  // The constants of MixColumns and of its inverse.
  const TWO: Byte := X1
  const THREE: Byte := [true, true, false, false, false, false, false, false]
  const NINE: Byte := [true, false, false, true, false, false, false, false]
  const ELEVEN: Byte := [true, true, false, true, false, false, false, false]
  const THIRTEEN: Byte := [true, false, true, true, false, false, false, false]
  const FOURTEEN: Byte := [false, true, true, true, false, false, false, false]

  lemma GfMulAdditive(a: Byte, a': Byte, b: Byte)
    ensures GfMul(Xor(a, a'), b) == Xor(GfMul(a, b), GfMul(a', b))
  {
    PartialProductAdditive(a, a', b, 8);
  }

  lemma GfMulXTime(a: Byte, b: Byte)
    ensures GfMul(XTime(a), b) == XTime(GfMul(a, b))
  {
    PartialProductXTime(a, b, 8);
  }

  lemma GfMulPowers(b: Byte)
    ensures GfMul(TWO, b) == XTime(b)
    ensures GfMul(X2, b) == XTime(XTime(b))
    ensures GfMul(X3, b) == XTime(XTime(XTime(b)))
  {
    GfMulOne(b);
    assert XTime(ONE) == X1 && XTime(X1) == X2 && XTime(X2) == X3;
    GfMulXTime(ONE, b);
    GfMulXTime(X1, b);
    GfMulXTime(X2, b);
  }

  lemma ConstantSums()
    ensures THREE == Xor(X1, ONE) && NINE == Xor(X3, ONE)
    ensures ELEVEN == Xor(Xor(X3, X1), ONE) && THIRTEEN == Xor(Xor(X3, X2), ONE)
    ensures FOURTEEN == Xor(Xor(X3, X2), X1)
  {}

  /** Multiplication by the small constants, as the round engine and the
      byte-wise unit compute it. */
  lemma GfMulConstants(b: Byte)
    ensures GfMul(TWO, b) == XTime(b)
    ensures GfMul(THREE, b) == Xor(XTime(b), b)
    ensures GfMul(NINE, b) == Xor(XTime(XTime(XTime(b))), b)
    ensures GfMul(ELEVEN, b) == Xor(Xor(XTime(XTime(XTime(b))), XTime(b)), b)
    ensures GfMul(THIRTEEN, b) == Xor(Xor(XTime(XTime(XTime(b))), XTime(XTime(b))), b)
    ensures GfMul(FOURTEEN, b) == Xor(Xor(XTime(XTime(XTime(b))), XTime(XTime(b))), XTime(b))
  {
    GfMulOne(b);
    GfMulPowers(b);
    ConstantSums();
    GfMulAdditive(X1, ONE, b);
    GfMulAdditive(X3, ONE, b);
    GfMulAdditive(X3, X1, b);
    GfMulAdditive(Xor(X3, X1), ONE, b);
    GfMulAdditive(X3, X2, b);
    GfMulAdditive(Xor(X3, X2), ONE, b);
    GfMulAdditive(Xor(X3, X2), X1, b);
  }
}
