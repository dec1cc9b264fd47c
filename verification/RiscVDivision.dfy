/** DIV, DIVU, REM and REMU of the RISC-V Unprivileged ISA (version 20191213,
    section 7.2), for operands of any width. */
module RiscVDivision {
  import opened Bits

  /** The two low bits of the operator: bit 1 selects the remainder, bit 0 signed mode. */
  datatype OpCode = OpCode(rem: bool, signed: bool)

  predicate Negative(width: nat, op: OpCode, word: nat)
    requires width >= 1
  {
    op.signed && word >= Pow2(width - 1)
  }

  /** The integer that a word stands for. */
  function Value(width: nat, op: OpCode, word: nat): (v: int)
    requires width >= 1
  {
    if Negative(width, op, word) then word - Pow2(width) else word
  }

  function Abs(v: int): (n: nat)
  {
    if v < 0 then -v else v
  }

  /** Division rounding towards zero. */
  function Truncated(x: int, y: int): (q: int)
    requires y != 0
  {
    if (x < 0) == (y < 0) then Abs(x) / Abs(y) else -(Abs(x) / Abs(y))
  }

  /** The word that represents v modulo 2^width. */
  function Encode(width: nat, v: int): (word: nat)
    ensures word < Pow2(width)
  {
    v % Pow2(width)
  }

  /** The architectural result for dividend x and divisor y. */
  function Result(width: nat, op: OpCode, x: nat, y: nat): (word: nat)
    requires width >= 1
  {
    var a, b := Value(width, op, x), Value(width, op, y);
    if b == 0 then
      if op.rem then x else Pow2(width) - 1
    else if op.signed && a + Pow2(width - 1) == 0 && b == -1 then
      if op.rem then 0 else x
    else
      Encode(width, if op.rem then a - b * Truncated(a, b) else Truncated(a, b))
  }

  lemma MultipleInRange(k: int, d: nat)
    ensures k >= 1 ==> k * d >= d
    ensures k <= -1 ==> k * d + d <= 0
  {
    if k >= 1 {
      assert (k - 1) * d >= 0;
    } else if k <= -1 {
      assert (-1 - k) * d >= 0;
    }
  }

  /** Quotient and remainder are determined by the division equation. */
  lemma DivisionUnique(n: int, d: nat, q: int, r: nat)
    requires d > 0 && n == r + q * d && r < d
    ensures n / d == q && n % d == r
  {
    var q', r' := n / d, n % d;
    assert n == r' + q' * d;
    assert (q - q') * d == q * d - q' * d;
    MultipleInRange(q - q', d);
  }

  lemma EncodeRange(width: nat, v: int)
    requires 0 < v + Pow2(width) && v < Pow2(width)
    ensures Encode(width, v) == if v < 0 then v + Pow2(width) else v
  {
    if v < 0 {
      DivisionUnique(v, Pow2(width), -1, v + Pow2(width));
    } else {
      DivisionUnique(v, Pow2(width), 0, v);
    }
  }

  lemma ValueBound(width: nat, op: OpCode, word: nat)
    requires width >= 1 && word < Pow2(width)
    ensures Abs(Value(width, op, word)) < Pow2(width)
    ensures op.signed ==> Abs(Value(width, op, word)) <= Pow2(width - 1)
  {
    assert Pow2(width) == 2 * Pow2(width - 1);
  }

  lemma QuotientBound(n: nat, d: nat, q: nat, r: nat)
    requires d > 0 && n == r + q * d && r < d
    ensures q <= n && r <= n
  {
    MulGrows(q, d);
    assert q * d >= 0;
  }

  lemma SignedProduct(a: int, b: int, q: nat, d: nat)
    requires b != 0 && d == Abs(b) && q == Abs(a) / Abs(b)
    ensures b * Truncated(a, b) == if a < 0 then 0 - q * d else q * d
  {
    var t: int := q;
    if b < 0 {
      assert b == 0 - d;
      assert b * t == 0 - q * d;
      assert b * (0 - t) == q * d;
    } else {
      assert b * (0 - t) == 0 - q * d;
    }
  }

  /** The result, computed from a quotient and remainder of the magnitudes:
      signs are applied afterwards, and overflow needs no case of its own. */
  lemma ResultFromMagnitudes(width: nat, op: OpCode, x: nat, y: nat, q: nat, r: nat)
    requires width >= 1 && x < Pow2(width) && y < Pow2(width) && y != 0
    requires Abs(Value(width, op, x)) == r + q * Abs(Value(width, op, y))
    requires r < Abs(Value(width, op, y))
    ensures q < Pow2(width) && r < Pow2(width)
    ensures Result(width, op, x, y) ==
      if op.rem then
        if Negative(width, op, x) && r != 0 then Pow2(width) - r else r
      else
        if Negative(width, op, x) != Negative(width, op, y) && q != 0 then Pow2(width) - q else q
  {
    var a, b := Value(width, op, x), Value(width, op, y);
    var n, d := Abs(a), Abs(b);
    ValueBound(width, op, x);
    assert Pow2(width) == 2 * Pow2(width - 1);
    DivisionUnique(n, d, q, r);
    QuotientBound(n, d, q, r);
    if op.signed && a + Pow2(width - 1) == 0 && b == -1 {
      assert q * d == q;
    } else {
      SignedProduct(a, b, q, d);
      EncodeRange(width, Truncated(a, b));
      EncodeRange(width, if a < 0 then 0 - r else r);
    }
  }
}
