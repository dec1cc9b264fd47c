/** The ALU side of a division: the divisor (operand a) is shifted left until it
    fills the word, by an amount taken from the find-first-one unit, and handed
    to the serial divider together with the dividend (operand b). */
module AluDivision {
  import opened Bits
  import opened RiscVDivision
  import opened SerialDivider
  import opened FindFirstOne

  /** Population count: pairwise sums of halves. */
  function PopCount(s: seq<bool>): (n: nat)
    requires |s| >= 1
    decreases |s|
  {
    if |s| == 1 then Bit(s[0])
    else PopCount(s[..|s| / 2]) + PopCount(s[|s| / 2..])
  }

  /** What the find-first-one unit looks at: the mirrored divisor, complemented
      first when it is negative. */
  function FfInput(op: OpCode, a: seq<bool>): (s: seq<bool>)
    requires |a| >= 2
    ensures |s| == |a|
  {
    if op.signed && a[|a| - 1] then Reverse(Not(a)) else Reverse(a)
  }

  /** Number of values of an index (5 bits for a 32-bit word). */
  function IndexSpan(width: nat): (m: nat)
    ensures m >= 1
  {
    Pow2(CeilLog2(width))
  }

  /** Signal div_shift, computed with one bit more than an index. */
  function DivShift(op: OpCode, a: seq<bool>): (n: nat)
    requires |a| >= 2
  {
    var m := 2 * IndexSpan(|a|);
    var input := FfInput(op, a);
    var clb := (FirstOne(input) + m - 1) % m;
    var divShiftInt := if NoOnes(input) then |a| - 1 else clb;
    (divShiftInt + if op.signed && a[|a| - 1] then 0 else 1) % m
  }

  /** The left shifter: the mirrored operand is shifted right. */
  function ShiftLeftResult(a: seq<bool>, amount: nat): (s: seq<bool>)
    ensures |s| == |a|
  {
    Reverse(ShiftRight(Reverse(a), amount % IndexSpan(|a|)))
  }

  /** What the ALU presents to the divider; the two operands are swapped. */
  function DividerInputs(op: OpCode, a: seq<bool>, b: seq<bool>, inVld: bool, outRdy: bool): (input: Inputs)
    requires |a| == |b| >= 2
  {
    Inputs(ToNat(b), ToNat(ShiftLeftResult(a, DivShift(op, a))), DivShift(op, a), PopCount(a) == 0,
           a[|a| - 1] && op.signed, op, inVld, outRdy)
  }

  lemma {:induction false} PopCountZero(s: seq<bool>)
    requires |s| >= 1
    ensures PopCount(s) == 0 <==> ToNat(s) == 0
    decreases |s|
  {
    if |s| == 1 {
      assert s[1..] == [];
    } else {
      var lo, hi := s[..|s| / 2], s[|s| / 2..];
      PopCountZero(lo);
      PopCountZero(hi);
      assert s == lo + hi;
      ToNatConcat(lo, hi);
      assert ToNat(hi) >= 1 ==> Pow2(|lo|) * ToNat(hi) >= 1 by {
        if ToNat(hi) >= 1 { MulGrows(Pow2(|lo|), ToNat(hi)); }
      }
    }
  }

  /** The top set bit bounds the number. */
  lemma TopSetBit(s: seq<bool>, k: nat)
    requires k < |s| && s[|s| - 1 - k] && forall j :: 0 <= j < k ==> !Reverse(s)[j]
    ensures Pow2(|s| - 1 - k) <= ToNat(s) < Pow2(|s| - k)
  {
    forall i | |s| - k <= i < |s| ensures !s[i] {
      assert !Reverse(s)[|s| - 1 - i];
    }
    LeadingZeros(s, k);
    LeadingZeros(s, k + 1);
  }

  lemma TopBitIsSign(s: seq<bool>)
    requires |s| >= 1
    ensures s[|s| - 1] == (ToNat(s) >= Pow2(|s| - 1))
  {
    LeadingZeros(s, 1);
  }

  lemma ZeroTree(s: seq<bool>)
    requires |s| >= 2
    ensures NoOnes(Reverse(s)) <==> ToNat(s) == 0
  {
    FirstOneCorrect(Reverse(s));
    ToNatZero(s);
    if NoOnes(Reverse(s)) {
      forall i | 0 <= i < |s| ensures !s[i] { assert !Reverse(s)[|s| - 1 - i]; }
    }
  }

  /** Counting wraps only for the divisor that already fills the word. */
  lemma ClbArithmetic(k: nat, m: nat)
    requires k < m
    ensures k >= 1 ==> (k + m - 1) % m == k - 1
    ensures ((k + m - 1) % m + 1) % m == k
  {
    SmallMod(k, m);
    if k == 0 {
      SmallMod(m - 1, m);
      DivisionUnique(m, m, 1, 0);
    } else {
      DivisionUnique(k + m - 1, m, 1, k - 1);
    }
  }

  /** The shift amount without the modular arithmetic. */
  lemma DivShiftCases(op: OpCode, a: seq<bool>)
    requires |a| >= 2
    ensures
      var input, negative := FfInput(op, a), op.signed && a[|a| - 1];
      && (NoOnes(input) ==> DivShift(op, a) == if negative then |a| - 1 else |a|)
      && (!NoOnes(input) ==> FirstOne(input) < |a|)
      && (!NoOnes(input) && !negative ==> DivShift(op, a) == FirstOne(input))
      && (!NoOnes(input) && negative && FirstOne(input) >= 1 ==> DivShift(op, a) == FirstOne(input) - 1)
  {
    var input, w, m := FfInput(op, a), |a|, 2 * IndexSpan(|a|);
    CeilLog2Bounds(w);
    FirstOneCorrect(input);
    SmallMod(w - 1, m);
    SmallMod(w, m);
    if !NoOnes(input) {
      var k := FirstOne(input);
      ClbArithmetic(k, m);
      if k >= 1 {
        SmallMod(k - 1, m);
      }
    }
  }

  /** For a non-negative divisor the shift removes exactly the leading zeros. */
  lemma ShiftNonNegative(op: OpCode, a: seq<bool>)
    requires |a| >= 2 && !(op.signed && a[|a| - 1])
    ensures ToNat(a) == 0 ==> DivShift(op, a) == |a|
    ensures ToNat(a) != 0 ==>
      DivShift(op, a) < |a| && ToNat(a) < Pow2(|a| - DivShift(op, a)) <= 2 * ToNat(a)
  {
    ZeroTree(a);
    DivShiftCases(op, a);
    FirstOneCorrect(Reverse(a));
    if ToNat(a) != 0 {
      TopSetBit(a, FirstOne(Reverse(a)));
    }
  }

  lemma DoubledPower(n: nat)
    requires n >= 1
    ensures Pow2(n) == 2 * Pow2(n - 1)
  {}

  /** A number with a clear top bit starts after at least one leading zero. */
  lemma ClearSignLeading(c: seq<bool>)
    requires |c| >= 2 && !c[|c| - 1] && !NoOnes(Reverse(c))
    ensures
      var k := FirstOne(Reverse(c));
      1 <= k < |c| && ToNat(c) < Pow2(|c| - k) <= 2 * ToNat(c)
  {
    FirstOneCorrect(Reverse(c));
    LeadingOne(c, FirstOne(Reverse(c)));
  }

  lemma LeadingOne(c: seq<bool>, k: nat)
    requires k < |c| && !c[|c| - 1] && Reverse(c)[k] && forall j :: 0 <= j < k ==> !Reverse(c)[j]
    ensures 1 <= k && ToNat(c) < Pow2(|c| - k) <= 2 * ToNat(c)
  {
    assert !Reverse(c)[0];
    TopSetBit(c, k);
    DoubledPower(|c| - k);
  }

  lemma SignBitLeft(a: seq<bool>, input: seq<bool>, s: nat)
    requires |a| >= 2 && a[|a| - 1] && input == Reverse(Not(a))
    requires NoOnes(input) ==> s == |a| - 1
    requires !NoOnes(input) && FirstOne(input) >= 1 ==> s == FirstOne(input) - 1
    ensures s < |a| && ToNat(Not(a)) < Pow2(|a| - 1 - s) <= 2 * ToNat(Not(a)) + 1
  {
    ZeroTree(Not(a));
    if !NoOnes(input) {
      ClearSignLeading(Not(a));
    }
  }

  /** For a negative divisor it leaves one sign bit. */
  lemma ShiftNegative(op: OpCode, a: seq<bool>)
    requires |a| >= 2 && op.signed && a[|a| - 1]
    ensures DivShift(op, a) < |a|
    ensures ToNat(Not(a)) < Pow2(|a| - 1 - DivShift(op, a)) <= 2 * ToNat(Not(a)) + 1
  {
    DivShiftCases(op, a);
    SignBitLeft(a, FfInput(op, a), DivShift(op, a));
  }

  lemma Scale(a: nat, b: nat, p: nat)
    requires p >= 1
    ensures a < b ==> a * p < b * p
    ensures a <= b ==> a * p <= b * p
  {}

  lemma ScaledBounds(n: nat, s: nat, w: nat)
    requires s <= w
    ensures n < Pow2(w - s) ==> n * Pow2(s) < Pow2(w)
    ensures n <= Pow2(w - s) ==> n * Pow2(s) <= Pow2(w)
    ensures Pow2(w - s) <= 2 * n ==> Pow2(w) <= 2 * (n * Pow2(s))
    ensures Pow2(w - s) < 2 * n ==> Pow2(w) < 2 * (n * Pow2(s))
  {
    var t, p := Pow2(w - s), Pow2(s);
    assert Pow2(w) == t * p by { Pow2Add(w - s, s); }
    Scale(n, t, p);
    Scale(t, 2 * n, p);
    assert (2 * n) * p == 2 * (n * p);
  }

  lemma SignBits(a: seq<bool>, s: nat)
    requires s < |a| && ToNat(Not(a)) < Pow2(|a| - 1 - s)
    ensures a[|a| - s..] == Fill(s, true)
  {
    LeadingZeros(Not(a), s + 1);
    forall i | |a| - s <= i < |a| ensures a[i] {
      assert !Not(a)[i];
    }
  }

  /** Sign bits pushed out at the top do not change a negative number. */
  lemma ShiftedNegative(a: seq<bool>, s: nat)
    requires s < |a| && ToNat(Not(a)) < Pow2(|a| - 1 - s)
    ensures Pow2(s) * ToNat(a[..|a| - s]) == Pow2(|a|) - (ToNat(Not(a)) + 1) * Pow2(s)
  {
    var lo, hi := a[..|a| - s], a[|a| - s..];
    assert a == lo + hi;
    ToNatNot(a);
    SignBits(a, s);
    ToNatFill(s, true);
    ToNatConcat(lo, hi);
    Pow2Add(|a| - s, s);
    SignedLow(Pow2(|a| - s), Pow2(s), ToNat(lo), ToNat(Not(a)) + 1);
  }

  lemma SignedLow(p: nat, h: nat, low: nat, d: nat)
    requires h >= 1 && p * h == low + p * (h - 1) + d
    ensures h * low == p * h - d * h
  {
    assert p * (h - 1) == p * h - p;
    assert low == p - d;
    assert h * (p - d) == h * p - h * d;
  }

  lemma ShiftedZero(a: seq<bool>, s: nat)
    requires |a| >= 2 && ToNat(a) == 0 && s == |a|
    ensures ToNat(ShiftLeftResult(a, s)) == 0
  {
    var n := s % IndexSpan(|a|);
    assert n <= s by { if s < IndexSpan(|a|) { SmallMod(s, IndexSpan(|a|)); } }
    MirroredShift(a, n);
    ToNatZero(a);
    ToNatZero(a[..|a| - n]);
    assert Pow2(n) * 0 == 0;
  }

  lemma ShiftAmountInRange(w: nat, s: nat)
    requires s < w
    ensures s % IndexSpan(w) == s
  {
    CeilLog2Bounds(w);
    SmallMod(s, IndexSpan(w));
  }

  lemma ShiftedPositive(a: seq<bool>, s: nat)
    requires |a| >= 2 && s < |a| && ToNat(a) < Pow2(|a| - s) <= 2 * ToNat(a)
    ensures ToNat(ShiftLeftResult(a, s)) == ToNat(a) * Pow2(s) < Pow2(|a|) <= 2 * (ToNat(a) * Pow2(s))
  {
    ScaledBounds(ToNat(a), s, |a|);
    ShiftAmountInRange(|a|, s);
    MirroredShift(a, s);
  }

  lemma ShiftedBelowZero(a: seq<bool>, s: nat, d: nat)
    requires |a| >= 2 && s < |a| && d == ToNat(Not(a)) + 1 && d <= Pow2(|a| - 1 - s) < 2 * d
    ensures ToNat(ShiftLeftResult(a, s)) == Pow2(|a|) - d * Pow2(s)
    ensures d * Pow2(s) <= Pow2(|a| - 1) < 2 * (d * Pow2(s))
  {
    ScaledBounds(d, s, |a| - 1);
    ShiftAmountInRange(|a|, s);
    MirroredShift(a, s);
    ShiftedNegative(a, s);
  }

  /** What a shift amount has to satisfy to prepare a divisor. */
  ghost predicate FillsWord(op: OpCode, a: seq<bool>, s: nat)
    requires |a| >= 2
  {
    if ToNat(a) == 0 then s == |a|
    else if op.signed && a[|a| - 1] then
      s < |a| && ToNat(Not(a)) < Pow2(|a| - 1 - s) <= 2 * ToNat(Not(a)) + 1
    else s < |a| && ToNat(a) < Pow2(|a| - s) <= 2 * ToNat(a)
  }

  /** The tree-driven shift amount is such an amount. */
  lemma DivShiftFillsWord(op: OpCode, a: seq<bool>)
    requires |a| >= 2
    ensures FillsWord(op, a, DivShift(op, a))
  {
    TopBitIsSign(a);
    if op.signed && a[|a| - 1] {
      ShiftNegative(op, a);
    } else {
      ShiftNonNegative(op, a);
    }
  }

  /** The shifted divisor, by its magnitude d. */
  ghost predicate FillsAs(op: OpCode, a: seq<bool>, s: nat, d: nat)
    requires |a| >= 2
  {
    var p, b, shifted := Pow2(|a|), d * Pow2(s), ToNat(ShiftLeftResult(a, s));
    if ToNat(a) == 0 then shifted == 0 && s == |a|
    else s < |a| && if op.signed && a[|a| - 1] then shifted == p - b && p < 4 * b <= 2 * p
                    else shifted == b && p <= 2 * b < 2 * p
  }

  lemma FillsNegative(op: OpCode, a: seq<bool>, s: nat, d: nat)
    requires |a| >= 2 && FillsWord(op, a, s) && op.signed && a[|a| - 1] && ToNat(a) != 0 && d == Pow2(|a|) - ToNat(a)
    ensures FillsAs(op, a, s, d)
  {
    ToNatNot(a);
    DoubledPower(|a|);
    ShiftedBelowZero(a, s, d);
  }

  lemma FillsPositive(op: OpCode, a: seq<bool>, s: nat, d: nat)
    requires |a| >= 2 && FillsWord(op, a, s) && !(op.signed && a[|a| - 1]) && ToNat(a) != 0 && d == ToNat(a)
    ensures FillsAs(op, a, s, d)
  {
    ShiftedPositive(a, s);
  }

  lemma FillsZero(op: OpCode, a: seq<bool>, s: nat, d: nat)
    requires |a| >= 2 && FillsWord(op, a, s) && ToNat(a) == 0
    ensures FillsAs(op, a, s, d)
  {
    ShiftedZero(a, s);
  }

  lemma DivisorMagIs(op: OpCode, a: seq<bool>, x: nat)
    requires |a| >= 2
    ensures Negative(|a|, op, ToNat(a)) == (op.signed && a[|a| - 1])
    ensures DivisorMag(|a|, Job(op, x, ToNat(a))) == if op.signed && a[|a| - 1] then Pow2(|a|) - ToNat(a) else ToNat(a)
    ensures ToNat(a) < Pow2(|a|)
  {
    TopBitIsSign(a);
    ToNatBound(a);
  }

  lemma FillsMagnitude(op: OpCode, a: seq<bool>, s: nat, d: nat)
    requires |a| >= 2 && FillsWord(op, a, s)
    requires d == if op.signed && a[|a| - 1] then Pow2(|a|) - ToNat(a) else ToNat(a)
    ensures FillsAs(op, a, s, d)
  {
    if ToNat(a) == 0 {
      FillsZero(op, a, s, d);
    } else if op.signed && a[|a| - 1] {
      FillsNegative(op, a, s, d);
    } else {
      FillsPositive(op, a, s, d);
    }
  }

  lemma FillingPrepares(op: OpCode, a: seq<bool>, b: seq<bool>, s: nat, input: Inputs)
    requires |a| == |b| >= 2 && FillsWord(op, a, s)
    requires input.opA == ToNat(b) && input.opB == ToNat(ShiftLeftResult(a, s)) && input.shift == s
    requires input.opBIsZero == (PopCount(a) == 0) && input.opBSign == (a[|a| - 1] && op.signed)
    requires input.opCode == op
    ensures Prepared(|a|, input, Job(op, ToNat(b), ToNat(a)))
  {
    ToNatBound(b);
    PopCountZero(a);
    DivisorMagIs(op, a, ToNat(b));
    FillsMagnitude(op, a, s, DivisorMag(|a|, Job(op, ToNat(b), ToNat(a))));
  }

  /** The front end prepares every request: for all operands and operators the
      divider receives the divisor at full width with no significant bit lost. */
  lemma FrontEndPrepares(op: OpCode, a: seq<bool>, b: seq<bool>, inVld: bool, outRdy: bool)
    requires |a| == |b| >= 2
    ensures Prepared(|a|, DividerInputs(op, a, b, inVld, outRdy), Job(op, ToNat(b), ToNat(a)))
    ensures DividerInputs(op, a, b, inVld, outRdy).opBIsZero == (ToNat(a) == 0)
  {
    PopCountZero(a);
    DivShiftFillsWord(op, a);
    FillingPrepares(op, a, b, DivShift(op, a), DividerInputs(op, a, b, inVld, outRdy));
  }

  /** A whole division as the execute stage sees it: the request is held until the
      divider answers, and the answer is taken after any number of further cycles.
      The result is the architectural one, and it took div_shift + 1 divide
      cycles, at most one more than the word has bits. */
  method Execute(div: Divider, op: OpCode, a: seq<bool>, b: seq<bool>, waits: nat)
    returns (result: nat, divideCycles: nat)
    requires div.Valid() && div.progress.Idle? && |a| == |b| == div.width >= 2
    modifies div
    ensures div.Valid() && div.progress.Idle?
    ensures result == Result(div.width, op, ToNat(b), ToNat(a))
    ensures divideCycles == DivShift(op, a) + 1 <= div.width + 1
  {
    var request := DividerInputs(op, a, b, true, false);
    ghost var job := Job(op, ToNat(b), ToNat(a));
    FrontEndPrepares(op, a, b, true, false);
    ShiftBound(op, a);
    div.Clock(request, job);
    divideCycles := Await(div, request, job);
    Hold(div, request, job, waits);
    result := Take(div, request.(outRdy := true), job);
  }

  /** The consumer takes the result. */
  method Take(div: Divider, request: Inputs, ghost job: Job) returns (result: nat)
    requires div.Valid() && div.progress == Ready(job) && request.outRdy
    modifies div
    ensures div.Valid() && div.progress.Idle?
    ensures result == Result(div.width, job.op, job.x, job.y)
  {
    FinishedShowsResult(div.width, div.Registers(), job);
    result := Shown(div.width, div.Registers());
    div.Clock(request, job);
  }

  lemma ShiftBound(op: OpCode, a: seq<bool>)
    requires |a| >= 2
    ensures DivShift(op, a) <= |a|
  {
    DivShiftFillsWord(op, a);
  }

  /** Clocks the divider until its output is valid. */
  method Await(div: Divider, request: Inputs, ghost job: Job) returns (divideCycles: nat)
    requires div.Valid() && div.progress == Busy(job, request.shift, 0) && request.opBIsZero == (job.y == 0)
    modifies div
    ensures div.Valid() && div.progress == Ready(job) && divideCycles == request.shift + 1
  {
    divideCycles := 0;
    while !div.OutVld(true)
      invariant div.Valid()
      invariant div.progress == Busy(job, request.shift, divideCycles) ||
                (div.progress == Ready(job) && divideCycles == request.shift + 1)
      decreases request.shift + 1 - divideCycles
    {
      div.Clock(request, job);
      divideCycles := divideCycles + 1;
    }
  }

  /** The consumer is not ready for a number of cycles. */
  method Hold(div: Divider, request: Inputs, ghost job: Job, waits: nat)
    requires div.Valid() && div.progress == Ready(job) && !request.outRdy
    modifies div
    ensures div.Valid() && div.progress == Ready(job) && div.Registers() == old(div.Registers()) && div.OutVld(true)
  {
    for i := 0 to waits
      invariant div.Valid() && div.progress == Ready(job) && div.OutVld(true) && div.Registers() == old(div.Registers())
    {
      div.Clock(request, job);
    }
  }
}
