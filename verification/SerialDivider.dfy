/** The serial divider: one quotient bit per clock, with the divisor aligned to
    full width by its caller and the dividend flipped to the divisor's sign. */
module SerialDivider {
  import opened Bits
  import opened RiscVDivision

  datatype State = IDLE | DIVIDE | FINISH

  datatype Inputs = Inputs(opA: nat, opB: nat, shift: nat, opBIsZero: bool, opBSign: bool,
                           opCode: OpCode, inVld: bool, outRdy: bool)

  /** A division request: dividend x and divisor y. */
  datatype Job = Job(op: OpCode, x: nat, y: nat)

  /** What the divider is doing, as its user sees it: a request takes shift + 1
      divide cycles and its result then stands until the consumer is ready. */
  datatype Progress =
    | Idle
    | Busy(job: Job, shift: nat, done: nat)
    | Ready(job: Job)

  function NextProgress(p: Progress, input: Inputs, job: Job): (p': Progress)
  {
    match p
    case Idle => if input.inVld then Busy(job, input.shift, 0) else Idle
    case Busy(j, shift, done) => if done == shift then Ready(j) else Busy(j, shift, done + 1)
    case Ready(j) => if input.outRdy then Idle else p
  }

  function DividendMag(width: nat, job: Job): (n: nat)
    requires width >= 1
  {
    Abs(Value(width, job.op, job.x))
  }

  function DivisorMag(width: nat, job: Job): (d: nat)
    requires width >= 1
  {
    Abs(Value(width, job.op, job.y))
  }

  /** The request as its user must present it: the divisor shifted left until it
      fills the word, for a negative divisor until only one sign bit is left. */
  ghost predicate Prepared(width: nat, input: Inputs, job: Job)
    requires width >= 1
  {
    var p, b := Pow2(width), DivisorMag(width, job) * Pow2(input.shift);
    && job.x < p && job.y < p
    && input.opA == job.x && input.opCode == job.op
    && input.opBIsZero == (job.y == 0)
    && input.opBSign == Negative(width, job.op, job.y)
    && if job.y == 0 then input.opB == 0 && input.shift == width
       else && input.shift < width
            && if input.opBSign then input.opB == p - b && p < 4 * b <= 2 * p
               else input.opB == b && p <= 2 * b < 2 * p
  }

  // Two's-complement arithmetic on words below p = 2^width.

  function Minus(p: nat, a: nat, b: nat): (r: nat)
    requires a < p && b < p
    ensures r < p
  {
    if a >= b then a - b else a + p - b
  }

  function Plus(p: nat, a: nat, b: nat): (r: nat)
    requires a < p && b < p
    ensures r < p
  {
    if a + b < p then a + b else a + b - p
  }

  /** The magnitude of a register that holds zero or a number of known sign. */
  function Magnitude(p: nat, negative: bool, v: nat): (m: nat)
    requires v < p
  {
    if negative && v != 0 then p - v else v
  }

  /** Restoring step: n = a + q * 2b with a < 2b, one more quotient bit decided. */
  lemma RestoringStep(n: nat, a: nat, q: nat, b: nat)
    requires n == a + q * (2 * b)
    ensures a >= b ==> n == (a - b) + (2 * q + 1) * b
    ensures n == a + (2 * q) * b
  {
    assert q * (2 * b) == (2 * q) * b;
    assert (2 * q + 1) * b == (2 * q) * b + b;
  }

  lemma HalveAligned(d: nat, c: nat)
    requires c >= 1
    ensures d * Pow2(c) == 2 * (d * Pow2(c - 1))
  {}

  lemma DropClearTop(r: seq<bool>)
    requires |r| >= 1 && ToNat(r) < Pow2(|r| - 1)
    ensures ToNat(r[..|r| - 1]) == ToNat(r)
  {
    LeadingZeros(r, 1);
    var top := r[|r| - 1..];
    assert r == r[..|r| - 1] + top;
    ToNatConcat(r[..|r| - 1], top);
    assert ToNat(top) == 0 by { ToNatZero(top); }
  }

  lemma ToNatCons(bit: bool, rest: seq<bool>)
    ensures ToNat([bit] + rest) == Bit(bit) + 2 * ToNat(rest)
  {
    assert ([bit] + rest)[1..] == rest;
  }

  lemma MirroredPush(s: seq<bool>, bit: bool)
    requires |s| >= 1
    ensures Reverse(s[1..] + [bit]) == [bit] + Reverse(s)[..|s| - 1]
  {}

  lemma PushDigit(r: seq<bool>, bit: bool)
    requires |r| >= 1 && ToNat(r) < Pow2(|r| - 1)
    ensures ToNat([bit] + r[..|r| - 1]) == Bit(bit) + 2 * ToNat(r)
  {
    DropClearTop(r);
    ToNatCons(bit, r[..|r| - 1]);
  }

  /** The quotient register is filled from the top; read backwards, a new bit is
      a new least significant digit. */
  lemma PushBit(s: seq<bool>, bit: bool)
    requires |s| >= 1 && ToNat(Reverse(s)) < Pow2(|s| - 1)
    ensures ToNat(Reverse(s[1..] + [bit])) == Bit(bit) + 2 * ToNat(Reverse(s))
  {
    MirroredPush(s, bit);
    PushDigit(Reverse(s), bit);
  }

  /** The data registers. */
  datatype Regs = Regs(areg: nat, breg: nat, resReg: seq<bool>, cnt: nat,
                       remSel: bool, compInv: bool, resInv: bool)

  predicate InRange(width: nat, r: Regs)
  {
    r.areg < Pow2(width) && r.breg < Pow2(width) && |r.resReg| == width
  }

  ghost predicate Flags(width: nat, r: Regs, job: Job)
    requires width >= 1
  {
    && job.x < Pow2(width) && job.y < Pow2(width)
    && r.remSel == job.op.rem
    && r.compInv == Negative(width, job.op, job.y)
    && r.resInv == ((job.y != 0 || job.op.rem) &&
                    Negative(width, job.op, job.x) != Negative(width, job.op, job.y))
  }

  /** Part-way through a request: the magnitude of the dividend is what is left
      in areg plus the quotient so far times the divisor, still aligned. A zero
      divisor just shifts in ones and leaves the dividend alone. */
  ghost predicate Working(width: nat, r: Regs, job: Job, shift: nat, done: nat)
    requires width >= 1 && InRange(width, r)
  {
    && Flags(width, r, job)
    && done <= shift <= width && r.cnt == shift - done
    && if job.y == 0 then
         && shift == width && r.breg == 0
         && r.areg == DividendMag(width, job)
         && r.resReg == Fill(width - done, false) + Fill(done, true)
       else
         var a, b := Magnitude(Pow2(width), r.compInv, r.areg), DivisorMag(width, job) * Pow2(r.cnt);
         && shift < width
         && 0 < b < Pow2(width)
         && r.breg == (if r.compInv then Pow2(width) - b else b)
         && Divided(width, job, a, ToNat(Reverse(r.resReg)), 2 * b)
         && ToNat(Reverse(r.resReg)) < Pow2(done)
  }

  /** The dividend split as a + q * b with a below b. */
  ghost predicate Divided(width: nat, job: Job, a: nat, q: nat, b: nat)
    requires width >= 1
  {
    DividendMag(width, job) == a + q * b && a < b
  }

  /** The last quotient bit is in. */
  ghost predicate Finished(width: nat, r: Regs, job: Job)
    requires width >= 1 && InRange(width, r)
  {
    && Flags(width, r, job)
    && if job.y == 0 then
         r.areg == DividendMag(width, job) && r.resReg == Fill(width, true)
       else
         Divided(width, job, Magnitude(Pow2(width), r.compInv, r.areg),
                 ToNat(Reverse(r.resReg)), DivisorMag(width, job))
  }

  /** Output Res_DO. */
  function Shown(width: nat, r: Regs): (word: nat)
    requires InRange(width, r)
    ensures word < Pow2(width)
  {
    var out := if r.remSel then r.areg else ToNat(Reverse(r.resReg));
    ToNatBound(Reverse(r.resReg));
    if r.resInv then Minus(Pow2(width), 0, out) else out
  }

  /** The dividend register after a load. */
  function Flipped(width: nat, input: Inputs, flip: bool): (areg: nat)
    requires width >= 1 && input.opA < Pow2(width)
  {
    if flip then Minus(Pow2(width), 0, input.opA) else Plus(Pow2(width), 0, input.opA)
  }

  predicate Flips(width: nat, input: Inputs)
    requires width >= 1
  {
    input.opCode.signed && (input.opA >= Pow2(width - 1)) != input.opBSign
  }

  /** The dividend gets the sign of the divisor and keeps its magnitude. */
  lemma FlipKeepsMagnitude(width: nat, input: Inputs, job: Job)
    requires width >= 1 && job.x < Pow2(width) && input.opA == job.x && input.opCode == job.op
    requires input.opBSign ==> job.op.signed
    ensures
      var areg := Flipped(width, input, Flips(width, input));
      areg < Pow2(width) && Magnitude(Pow2(width), input.opBSign, areg) == DividendMag(width, job)
  {
    assert Pow2(width) == 2 * Pow2(width - 1);
  }

  lemma LoadEstablishes(width: nat, input: Inputs, job: Job, r: Regs)
    requires width >= 1 && Prepared(width, input, job)
    requires
      var flip := Flips(width, input);
      r == Regs(Flipped(width, input, flip), input.opB, Fill(width, false), input.shift, input.opCode.rem, input.opBSign,
                (!input.opBIsZero || input.opCode.rem) && flip)
    ensures InRange(width, r) && Working(width, r, job, input.shift, 0)
  {
    FlipKeepsMagnitude(width, input, job);
    if job.y == 0 {
      LoadByZero(width);
    } else {
      NoQuotientYet(width);
      LoadByNonZero(width, job, DivisorMag(width, job) * Pow2(input.shift));
    }
  }

  lemma LoadByZero(width: nat)
    ensures Fill(width, false) + Fill(0, true) == Fill(width, false)
  {}

  /** Before the first cycle there is no quotient yet. */
  lemma LoadByNonZero(width: nat, job: Job, b: nat)
    requires width >= 1 && job.x < Pow2(width)
    requires if Negative(width, job.op, job.y) then Pow2(width) < 4 * b else Pow2(width) <= 2 * b
    ensures b > 0 && Divided(width, job, DividendMag(width, job), 0, 2 * b)
  {
    assert Pow2(width) == 2 * Pow2(width - 1);
    ValueBound(width, job.op, job.x);
  }

  lemma NoQuotientYet(width: nat)
    ensures ToNat(Reverse(Fill(width, false))) == 0
  {
    ToNatFill(width, false);
    assert Reverse(Fill(width, false)) == Fill(width, false);
  }

  /** The comparator tells whether the aligned divisor still fits. */
  predicate Comparator(r: Regs, opBIsZero: bool)
  {
    (r.areg == r.breg || ((r.areg > r.breg) != r.compInv)) && (r.areg != 0 || opBIsZero)
  }

  lemma ComparatorFits(width: nat, r: Regs, job: Job, shift: nat, done: nat)
    requires width >= 1 && InRange(width, r) && Working(width, r, job, shift, done)
    ensures job.y == 0 ==> Comparator(r, true)
    ensures job.y != 0 ==>
      var a, b := Magnitude(Pow2(width), r.compInv, r.areg), DivisorMag(width, job) * Pow2(r.cnt);
      && Comparator(r, false) == (a >= b)
      && (a >= b ==> Magnitude(Pow2(width), r.compInv, Minus(Pow2(width), r.areg, r.breg)) == a - b)
  {}

  /** One divide cycle, seen on the registers. */
  ghost predicate Stepped(width: nat, r: Regs, r': Regs, fits: bool)
    requires width >= 1 && InRange(width, r)
  {
    && r'.areg == (if fits then Minus(Pow2(width), r.areg, r.breg) else r.areg)
    && r'.breg == r.breg / 2 + (if r.compInv then Pow2(width - 1) else 0)
    && r'.resReg == r.resReg[1..] + [fits]
    && r'.cnt == (if r.cnt == 0 then 0 else r.cnt - 1)
    && r'.remSel == r.remSel && r'.compInv == r.compInv && r'.resInv == r.resInv
  }

  lemma StepByZero(width: nat, r: Regs, r': Regs, job: Job, shift: nat, done: nat)
    requires width >= 1 && InRange(width, r) && Working(width, r, job, shift, done)
    requires job.y == 0 && Stepped(width, r, r', true)
    ensures InRange(width, r')
    ensures if done == shift then Finished(width, r', job) else Working(width, r', job, shift, done + 1)
  {
    assert Pow2(width) == 2 * Pow2(width - 1);
    if done == width {
      assert r'.resReg == Fill(width, true);
    } else {
      assert r'.resReg == Fill(width - (done + 1), false) + Fill(done + 1, true);
    }
  }

  /** The next register contents, told as magnitudes. */
  lemma StepMagnitudes(width: nat, r: Regs, r': Regs, job: Job, shift: nat, done: nat)
    requires width >= 1 && InRange(width, r) && Working(width, r, job, shift, done)
    requires job.y != 0 && Stepped(width, r, r', Comparator(r, false))
    ensures InRange(width, r')
    ensures
      var a, b := Magnitude(Pow2(width), r.compInv, r.areg), DivisorMag(width, job) * Pow2(r.cnt);
      && Comparator(r, false) == (a >= b)
      && Magnitude(Pow2(width), r'.compInv, r'.areg) == (if a >= b then a - b else a)
  {
    assert Pow2(width) == 2 * Pow2(width - 1);
    ComparatorFits(width, r, job, shift, done);
  }

  lemma StepQuotient(width: nat, r: Regs, r': Regs, job: Job, shift: nat, done: nat)
    requires width >= 1 && InRange(width, r) && Working(width, r, job, shift, done)
    requires job.y != 0 && Stepped(width, r, r', Comparator(r, false))
    ensures
      var q := ToNat(Reverse(r.resReg));
      ToNat(Reverse(r'.resReg)) == 2 * q + Bit(Comparator(r, false)) < Pow2(done + 1)
  {
    if done < width - 1 {
      Pow2Positive(done, width - 1);
    }
    PushBit(r.resReg, Comparator(r, false));
  }

  lemma StepDivides(width: nat, r: Regs, r': Regs, job: Job, shift: nat, done: nat)
    requires width >= 1 && InRange(width, r) && Working(width, r, job, shift, done)
    requires job.y != 0 && Stepped(width, r, r', Comparator(r, false))
    ensures InRange(width, r')
    ensures Divided(width, job, Magnitude(Pow2(width), r'.compInv, r'.areg), ToNat(Reverse(r'.resReg)),
                    DivisorMag(width, job) * Pow2(r.cnt))
  {
    var a, b := Magnitude(Pow2(width), r.compInv, r.areg), DivisorMag(width, job) * Pow2(r.cnt);
    StepMagnitudes(width, r, r', job, shift, done);
    StepQuotient(width, r, r', job, shift, done);
    RestoringStep(DividendMag(width, job), a, ToNat(Reverse(r.resReg)), b);
  }

  /** The aligned divisor is halved. */
  lemma StepDivisor(width: nat, r: Regs, r': Regs, job: Job, shift: nat, done: nat)
    requires width >= 1 && InRange(width, r) && Working(width, r, job, shift, done)
    requires job.y != 0 && done < shift && Stepped(width, r, r', Comparator(r, false))
    ensures
      var b, b' := DivisorMag(width, job) * Pow2(r.cnt), DivisorMag(width, job) * Pow2(r'.cnt);
      && b == 2 * b' && 0 < b' < Pow2(width)
      && r'.breg == if r'.compInv then Pow2(width) - b' else b'
  {
    assert Pow2(width) == 2 * Pow2(width - 1);
    HalveAligned(DivisorMag(width, job), r.cnt);
  }

  lemma StepByNonZero(width: nat, r: Regs, r': Regs, job: Job, shift: nat, done: nat)
    requires width >= 1 && InRange(width, r) && Working(width, r, job, shift, done)
    requires job.y != 0 && Stepped(width, r, r', Comparator(r, false))
    ensures InRange(width, r')
    ensures if done == shift then Finished(width, r', job) else Working(width, r', job, shift, done + 1)
  {
    StepDivides(width, r, r', job, shift, done);
    if done == shift {
      OneTimes(DivisorMag(width, job));
    } else {
      StepQuotient(width, r, r', job, shift, done);
      StepDivisor(width, r, r', job, shift, done);
    }
  }

  lemma OneTimes(d: nat)
    ensures d * Pow2(0) == d
  {}

  lemma StepKeeps(width: nat, r: Regs, r': Regs, job: Job, shift: nat, done: nat)
    requires width >= 1 && InRange(width, r) && Working(width, r, job, shift, done)
    requires Stepped(width, r, r', Comparator(r, job.y == 0))
    ensures InRange(width, r')
    ensures if done == shift then Finished(width, r', job) else Working(width, r', job, shift, done + 1)
  {
    if job.y == 0 {
      ComparatorFits(width, r, job, shift, done);
      StepByZero(width, r, r', job, shift, done);
    } else {
      StepByNonZero(width, r, r', job, shift, done);
    }
  }

  class Divider {
    const width: nat

    var state: State
    var areg: nat
    var breg: nat
    var resReg: seq<bool>
    var cnt: nat
    var remSel: bool
    var compInv: bool
    var resInv: bool

    ghost var progress: Progress

    function Registers(): (r: Regs)
      reads this
    {
      Regs(areg, breg, resReg, cnt, remSel, compInv, resInv)
    }

    ghost predicate Valid()
      reads this
    {
      && width >= 1
      && InRange(width, Registers())
      && match progress
         case Idle => state == IDLE
         case Busy(job, shift, done) => state == DIVIDE && Working(width, Registers(), job, shift, done)
         case Ready(job) => state == FINISH && Finished(width, Registers(), job)
    }

    constructor (width: nat)
      requires width >= 1
      ensures Valid() && progress == Idle && this.width == width
    {
      this.width := width;
      state, areg, breg, resReg, cnt := IDLE, 0, 0, Fill(width, false), 0;
      remSel, compInv, resInv := false, false, false;
      progress := Idle;
    }

    /** Output OutVld_SO. */
    function OutVld(inVld: bool): (v: bool)
      reads this
    {
      match state
      case IDLE => !inVld
      case DIVIDE => false
      case FINISH => true
    }

    /** The load in IDLE. */
    method Load(input: Inputs, ghost job: Job)
      requires width >= 1 && state == IDLE && Prepared(width, input, job)
      modifies this
      ensures state == DIVIDE && progress == Busy(job, input.shift, 0)
      ensures InRange(width, Registers()) && Working(width, Registers(), job, input.shift, 0)
    {
      var flip := input.opCode.signed && (input.opA >= Pow2(width - 1)) != input.opBSign;
      areg := if flip then Minus(Pow2(width), 0, input.opA) else Plus(Pow2(width), 0, input.opA);
      breg := input.opB;
      resReg := Fill(width, false);
      cnt := input.shift;
      remSel := input.opCode.rem;
      compInv := input.opBSign;
      resInv := (!input.opBIsZero || input.opCode.rem) && flip;
      state := DIVIDE;
      progress := Busy(job, input.shift, 0);
      LoadEstablishes(width, input, job, Registers());
    }

    /** One cycle in DIVIDE. */
    method DivideCycle(opBIsZero: bool)
      requires Valid() && progress.Busy?
      requires opBIsZero == (progress.job.y == 0)
      modifies this
      ensures Valid()
      ensures progress == var b := old(progress);
                          if b.done == b.shift then Ready(b.job) else Busy(b.job, b.shift, b.done + 1)
    {
      ghost var b, r := progress, Registers();
      var last := cnt == 0;
      ShiftRegisters(Comparator(Registers(), opBIsZero));
      StepKeeps(width, r, Registers(), b.job, b.shift, b.done);
      if last {
        state := FINISH;
        progress := Ready(b.job);
      } else {
        progress := Busy(b.job, b.shift, b.done + 1);
      }
    }

    /** The data registers in a divide cycle. */
    method ShiftRegisters(abComp: bool)
      requires width >= 1 && InRange(width, Registers())
      modifies `areg, `breg, `resReg, `cnt
      ensures Stepped(width, old(Registers()), Registers(), abComp)
    {
      if abComp {
        areg := Minus(Pow2(width), areg, breg);
      }
      breg := breg / 2 + (if compInv then Pow2(width - 1) else 0);
      resReg := resReg[1..] + [abComp];
      if cnt != 0 {
        cnt := cnt - 1;
      }
    }

    /** One rising clock edge. */
    method Clock(input: Inputs, ghost job: Job)
      requires Valid()
      requires progress.Idle? && input.inVld ==> Prepared(width, input, job)
      requires progress.Busy? ==> input.opBIsZero == (progress.job.y == 0)
      modifies this
      ensures Valid()
      ensures progress == NextProgress(old(progress), input, job)
      ensures old(progress).Ready? ==> Registers() == old(Registers())
    {
      match state {
        case IDLE =>
          if input.inVld {
            Load(input, job);
          }
        case DIVIDE =>
          DivideCycle(input.opBIsZero);
        case FINISH =>
          if input.outRdy {
            state := IDLE;
            progress := Idle;
          }
      }
    }
  }

  /** What the output shows in FINISH is the architectural result. */
  lemma FinishedShowsResult(width: nat, r: Regs, job: Job)
    requires width >= 1 && InRange(width, r) && Finished(width, r, job)
    ensures Shown(width, r) == Result(width, job.op, job.x, job.y)
  {
    assert Pow2(width) == 2 * Pow2(width - 1);
    if job.y == 0 {
      assert Reverse(r.resReg) == Fill(width, true);
      ToNatFill(width, true);
    } else {
      var a, q := Magnitude(Pow2(width), r.compInv, r.areg), ToNat(Reverse(r.resReg));
      ResultFromMagnitudes(width, job.op, job.x, job.y, q, a);
    }
  }

  /** The handshake output, told by what the divider is doing. */
  lemma OutVldMeaning(d: Divider, inVld: bool)
    requires d.Valid()
    ensures d.OutVld(inVld) == (d.progress.Ready? || (d.progress.Idle? && !inVld))
  {}

  datatype Cycle = Cycle(input: Inputs, job: Job)

  /** What the divider is doing after a whole run of cycles. */
  function After(p: Progress, run: seq<Cycle>): (p': Progress)
  {
    if run == [] then p
    else
      var q := After(p, run[..|run| - 1]);
      var last := run[|run| - 1];
      NextProgress(q, last.input, last.job)
  }

  /** Latency and stability, whatever else happens at the inputs: the result of an
      accepted request is ready after exactly shift + 1 divide cycles, not sooner,
      and stands until the first cycle in which the consumer is ready. */
  lemma {:induction false} LatencyAndStability(job: Job, shift: nat, run: seq<Cycle>)
    ensures |run| <= shift ==> After(Busy(job, shift, 0), run) == Busy(job, shift, |run|)
    ensures |run| > shift && (forall i :: shift < i < |run| ==> !run[i].input.outRdy)
            ==> After(Busy(job, shift, 0), run) == Ready(job)
    ensures |run| > shift + 1 && run[|run| - 1].input.outRdy
            && (forall i :: shift < i < |run| - 1 ==> !run[i].input.outRdy)
            ==> After(Busy(job, shift, 0), run) == Idle
  {
    if run != [] {
      LatencyAndStability(job, shift, run[..|run| - 1]);
    }
  }
}
