/** Stall independence of the AES extension: the ID/EX pipeline registers, the
    commit gates of the ALU and the hidden registers, cycle by cycle, against the
    issued instructions executed once each and in order. */
module AesPipeline {
  import opened Bits
  import opened AesSpec
  import opened AesUnits
  import opened AesInstructions
  import opened AesBlock

  datatype Operator = KeyLoad | KeyExpand | KeyRead | StateLoad | StateRound | StateRead | NotAes

  /** The ID/EX registers of the ALU: alu_en_ex, alu_operator_ex, alu_operand_a_ex
      and imm_vec_ext_ex. A disabled slot keeps the operator of an earlier one. */
  datatype Slot = Slot(en: bool, op: Operator, a: Word, imm: nat)

  /** What one clock edge sees. The flags are ex_ready, id_valid, data_misaligned and
      mult_multicycle; id is the instruction leaving ID; on the second half of a
      misaligned access the operand may be replaced. */
  datatype Cycle = Cycle(exReady: bool, idValid: bool, misaligned: bool, multicycle: bool,
                         id: Slot, useIncrement: bool, forwarded: Word)

  function InstrOf(s: Slot): (i: Instr)
  {
    match s.op
    case KeyLoad => KsLd(s.a, s.imm)
    case KeyExpand => KsE
    case KeyRead => KsRd(s.imm)
    case StateLoad => StLd(s.a, s.imm)
    case StateRound => Rnd(s.imm)
    case StateRead => StRd(s.imm)
    case NotAes => Other
  }

  /** The AES instruction in a slot, if there is one. */
  function Aes(s: Slot): (p: seq<Instr>)
    ensures |p| <= 1
  {
    if s.en && s.op != NotAes then [InstrOf(s)] else []
  }

  /** What the surrounding stages guarantee. ID is only valid when EX is ready and no
      misaligned access or multiplication is in progress; a multiplication in progress
      keeps EX busy; and a misaligned access is a load or store, not an AES instruction. */
  predicate Allowed(s: Slot, c: Cycle)
  {
    && (c.idValid ==> c.exReady && !c.misaligned && !c.multicycle)
    && (c.multicycle ==> !c.exReady)
    && (c.misaligned ==> Aes(s) == [])
  }

  /** The ID/EX registers after a clock edge. */
  function NextSlot(s: Slot, c: Cycle): (s': Slot)
  {
    if c.misaligned then
      if c.exReady && c.useIncrement then s.(a := c.forwarded) else s
    else if c.multicycle then s
    else if c.idValid then
      if c.id.en then c.id else s.(en := false)
    else if c.exReady then s.(en := true, op := NotAes)
    else s
  }

  /** What the read port shows of a register file. */
  function ReadOf(r: Regs, i: Instr): (out: seq<Word>)
  {
    match i
    case KsRd(idx) => [WordOf(r.krk, idx)]
    case StRd(idx) => [WordOf(r.st, idx)]
    case _ => []
  }

  /** The values that the read instructions of a program return, executed in order. */
  function ReadsOf(u: Units, r: Regs, program: seq<Instr>): (out: seq<Word>)
  {
    if program == [] then []
    else
      var init, last := program[..|program| - 1], program[|program| - 1];
      ReadsOf(u, r, init) + ReadOf(ExecuteAll(u, r, init), last)
  }

  /** A moment in a run; values are those read so far. */
  datatype Pipe = Pipe(slot: Slot, regs: Regs, values: seq<Word>)

  function Reset(): (p: Pipe)
  {
    var zero: Quad := Quad(Fill(32, false), Fill(32, false), Fill(32, false), Fill(32, false));
    Pipe(Slot(false, NotAes, Fill(32, false), 0), Regs(zero, 0, zero), [])
  }

  /** The commit gate: an instruction takes effect on the cycle it leaves EX. */
  function Next(u: Units, p: Pipe, c: Cycle): (p': Pipe)
  {
    if p.slot.en && c.exReady && p.slot.op != NotAes then
      Pipe(NextSlot(p.slot, c), Execute(u, p.regs, InstrOf(p.slot)), p.values + ReadOf(p.regs, InstrOf(p.slot)))
    else
      Pipe(NextSlot(p.slot, c), p.regs, p.values)
  }

  function Run(u: Units, p: Pipe, trace: seq<Cycle>): (p': Pipe)
  {
    if trace == [] then p else Next(u, Run(u, p, trace[..|trace| - 1]), trace[|trace| - 1])
  }

  /** Every cycle of a trace is allowed. */
  predicate AllowedRun(u: Units, p: Pipe, trace: seq<Cycle>)
  {
    trace == [] ||
    (AllowedRun(u, p, trace[..|trace| - 1]) && Allowed(Run(u, p, trace[..|trace| - 1]).slot, trace[|trace| - 1]))
  }

  /** The AES instructions that leave ID, in order. */
  function Issued(trace: seq<Cycle>): (program: seq<Instr>)
  {
    if trace == [] then []
    else
      var c := trace[|trace| - 1];
      Issued(trace[..|trace| - 1]) + if c.idValid then Aes(c.id) else []
  }

  /** The instructions issued are those that have taken effect followed by the one
      still in EX; registers and values read are those of executing the former. */
  ghost predicate InStep(u: Units, r: Regs, issued: seq<Instr>, done: seq<Instr>, p: Pipe)
  {
    && issued == done + Aes(p.slot)
    && p.regs == ExecuteAll(u, r, done)
    && p.values == ReadsOf(u, r, done)
  }

  lemma StepKeeps(u: Units, r: Regs, issued: seq<Instr>, done: seq<Instr>, p: Pipe, c: Cycle) returns (done': seq<Instr>)
    requires InStep(u, r, issued, done, p) && Allowed(p.slot, c)
    ensures InStep(u, r, issued + if c.idValid then Aes(c.id) else [], done', Next(u, p, c))
  {
    if c.exReady && Aes(p.slot) != [] {
      done' := done + [InstrOf(p.slot)];
      ExecuteAppend(u, r, done, InstrOf(p.slot));
      assert done'[..|done|] == done;
    } else {
      done' := done;
    }
  }

  /** Over any allowed run, however long instructions wait in EX and whatever else is
      mixed in, each AES instruction issued takes effect exactly once and in order:
      the hidden registers and all values read are those of executing, in order, every
      instruction issued but the one still waiting in EX. */
  lemma {:induction false} CommitOnceInOrder(u: Units, p: Pipe, trace: seq<Cycle>) returns (done: seq<Instr>)
    requires Aes(p.slot) == [] && p.values == [] && AllowedRun(u, p, trace)
    ensures InStep(u, p.regs, Issued(trace), done, Run(u, p, trace))
  {
    if trace == [] {
      done := [];
    } else {
      var before := CommitOnceInOrder(u, p, trace[..|trace| - 1]);
      done := StepKeeps(u, p.regs, Issued(trace[..|trace| - 1]), before, Run(u, p, trace[..|trace| - 1]), trace[|trace| - 1]);
    }
  }

  /** Stall independence: two runs that issue the same AES instructions, and have no
      AES instruction left in EX, end with the same hidden registers and have read the
      same values, whatever their stalls, bubbles and other instructions. */
  lemma StallsDoNotMatter(u: Units, p: Pipe, trace: seq<Cycle>, trace': seq<Cycle>)
    requires Aes(p.slot) == [] && p.values == []
    requires AllowedRun(u, p, trace) && AllowedRun(u, p, trace') && Issued(trace) == Issued(trace')
    requires Aes(Run(u, p, trace).slot) == [] && Aes(Run(u, p, trace').slot) == []
    ensures Run(u, p, trace).regs == Run(u, p, trace').regs
    ensures Run(u, p, trace).values == Run(u, p, trace').values
  {
    var done := CommitOnceInOrder(u, p, trace);
    var done' := CommitOnceInOrder(u, p, trace');
    assert done == Issued(trace) && done' == Issued(trace');
  }

  predicate NoKeyChange(program: seq<Instr>)
  {
    forall i :: 0 <= i < |program| ==> !program[i].KsLd? && !program[i].KsE?
  }

  lemma {:induction false} KeyKept(u: Units, r: Regs, program: seq<Instr>)
    requires NoKeyChange(program)
    ensures ExecuteAll(u, r, program).krk == r.krk
  {
    if program != [] {
      KeyKept(u, r, program[..|program| - 1]);
    }
  }

  /** A round uses the key left by the latest key instruction before it. */
  lemma RoundReadsLatestKey(u: Units, r: Regs, before: seq<Instr>, since: seq<Instr>, mode: nat)
    requires NoKeyChange(since)
    ensures
      var r' := ExecuteAll(u, r, before + since);
      ExecuteAll(u, r, before + since + [Rnd(mode)]).st == u.round(r'.st, mode, ExecuteAll(u, r, before).krk)
  {
    ExecuteAppend(u, r, before + since, Rnd(mode));
    ExecuteConcat(u, r, before, since);
    KeyKept(u, ExecuteAll(u, r, before), since);
  }

  lemma ReadsAppend(u: Units, r: Regs, p: seq<Instr>, i: Instr)
    ensures ReadsOf(u, r, p + [i]) == ReadsOf(u, r, p) + ReadOf(ExecuteAll(u, r, p), i)
  {
    assert (p + [i])[..|p|] == p;
  }

  predicate NoReads(program: seq<Instr>)
  {
    forall i :: 0 <= i < |program| ==> !program[i].KsRd? && !program[i].StRd?
  }

  lemma {:induction false} NothingRead(u: Units, r: Regs, program: seq<Instr>)
    requires NoReads(program)
    ensures ReadsOf(u, r, program) == []
  {
    if program != [] {
      NothingRead(u, r, program[..|program| - 1]);
    }
  }

  lemma {:induction false} RoundsReadNothing(n: nat)
    ensures NoReads(Rounds(n))
  {
    if n > 0 {
      RoundsReadNothing(n - 1);
    }
  }

  function BeforeReads(pin: Quad, kin: Quad): (program: seq<Instr>)
  {
    Loads(pin) + KeyLoads(kin) + Rounds(9) + [KsE, Rnd(1)]
  }

  /** Reading one state word. */
  lemma ReadStep(u: Units, r: Regs, p: seq<Instr>, idx: nat, r': Regs, out: seq<Word>)
    requires ReadsOf(u, r, p) == out && ExecuteAll(u, r, p) == r'
    ensures ReadsOf(u, r, p + [StRd(idx)]) == out + [WordOf(r'.st, idx)] && ExecuteAll(u, r, p + [StRd(idx)]) == r'
  {
    ReadsAppend(u, r, p, StRd(idx));
    ExecuteAppend(u, r, p, StRd(idx));
  }

  /** Reading the four state words in turn. */
  lemma ReadsReadState(u: Units, r: Regs, p: seq<Instr>, r': Regs)
    requires ReadsOf(u, r, p) == [] && r' == ExecuteAll(u, r, p)
    ensures ExecuteAll(u, r, p + Reads()) == r'
    ensures ReadsOf(u, r, p + Reads()) == [r'.st.w0, r'.st.w1, r'.st.w2, r'.st.w3]
  {
    var p1 := p + [StRd(0)];
    var p2 := p1 + [StRd(1)];
    var p3 := p2 + [StRd(2)];
    var st := r'.st;
    ReadStep(u, r, p, 0, r', []);
    ReadStep(u, r, p1, 1, r', [st.w0]);
    ReadStep(u, r, p2, 2, r', [st.w0, st.w1]);
    ReadStep(u, r, p3, 3, r', [st.w0, st.w1, st.w2]);
    FourReads(p);
  }

  lemma FourReads(p: seq<Instr>)
    ensures p + Reads() == p + [StRd(0)] + [StRd(1)] + [StRd(2)] + [StRd(3)]
  {}

  lemma BlockReads(u: Units, r: Regs, pin: Quad, kin: Quad)
    ensures
      var st := ExecuteAll(u, r, BlockProgram(pin, kin)).st;
      ReadsOf(u, r, BlockProgram(pin, kin)) == [st.w0, st.w1, st.w2, st.w3]
  {
    RoundsReadNothing(9);
    NothingRead(u, r, BeforeReads(pin, kin));
    ReadsReadState(u, r, BeforeReads(pin, kin), ExecuteAll(u, r, BeforeReads(pin, kin)));
    assert BeforeReads(pin, kin) + Reads() == BlockProgram(pin, kin);
  }

  /** A block to encrypt, with its key. */
  datatype Job = Job(pin: Quad, kin: Quad)

  type Code = Job -> seq<Instr>

  function BlockCode(): (code: Code)
  {
    (job: Job) => BlockProgram(job.pin, job.kin)
  }

  /** The programs of some jobs, one after the other. */
  function Chained(code: Code, jobs: seq<Job>): (program: seq<Instr>)
  {
    if jobs == [] then [] else Chained(code, jobs[..|jobs| - 1]) + code(jobs[|jobs| - 1])
  }

  /** Values 4i to 4i + 3 are the columns of one block encrypted. */
  ghost predicate Holds(cipher: (State, State) -> State, values: seq<Word>, i: nat, job: Job)
  {
    && 4 * i + 4 <= |values|
    && ToState(Quad(values[4 * i], values[4 * i + 1], values[4 * i + 2], values[4 * i + 3])) ==
         cipher(ToState(job.kin), ToState(job.pin))
  }

  ghost predicate HoldsAll(cipher: (State, State) -> State, values: seq<Word>, jobs: seq<Job>)
  {
    |values| == 4 * |jobs| && forall i :: 0 <= i < |jobs| ==> Holds(cipher, values, i, jobs[i])
  }

  ghost predicate ReadsJoined(u: Units, r: Regs, p: seq<Instr>, q: seq<Instr>)
  {
    ReadsOf(u, r, p + q) == ReadsOf(u, r, p) + ReadsOf(u, ExecuteAll(u, r, p), q)
  }

  lemma ReadsJoin(u: Units, r: Regs, p: seq<Instr>, q: seq<Instr>, last: Instr)
    requires ReadsJoined(u, r, p, q)
    ensures ReadsJoined(u, r, p, q + [last])
  {
    var r' := ExecuteAll(u, r, p);
    ExecuteConcat(u, r, p, q);
    ReadsAppend(u, r, p + q, last);
    ReadsAppend(u, r', q, last);
    assert p + (q + [last]) == (p + q) + [last];
    JoinWords(ReadsOf(u, r, p), ReadsOf(u, r', q), ReadOf(ExecuteAll(u, r', q), last));
  }

  lemma JoinWords(a: seq<Word>, b: seq<Word>, c: seq<Word>)
    ensures (a + b) + c == a + (b + c)
  {}

  lemma {:induction false} ReadsConcat(u: Units, r: Regs, p: seq<Instr>, q: seq<Instr>)
    ensures ReadsJoined(u, r, p, q)
    decreases |q|
  {
    if q == [] {
      assert p + q == p;
    } else {
      var init, last := q[..|q| - 1], q[|q| - 1];
      ReadsConcat(u, r, p, init);
      ReadsJoin(u, r, p, init, last);
      assert q == init + [last];
    }
  }

  /** Code that reads its block encrypted, whatever the registers held before. */
  ghost predicate Delivers(u: Units, cipher: (State, State) -> State, code: Code)
  {
    forall r: Regs, job: Job {:trigger ReadsOf(u, r, code(job))} :: HoldsAll(cipher, ReadsOf(u, r, code(job)), [job])
  }

  lemma BlocksDeliver(u: Units, cipher: (State, State) -> State)
    requires Encrypts(u, cipher)
    ensures Delivers(u, cipher, BlockCode())
  {
    var code := BlockCode();
    forall r: Regs, job: Job {:trigger ReadsOf(u, r, code(job))} ensures HoldsAll(cipher, ReadsOf(u, r, code(job)), [job]) {
      BlockReads(u, r, job.pin, job.kin);
    }
  }

  lemma HoldsMore(cipher: (State, State) -> State, values: seq<Word>, jobs: seq<Job>, more: seq<Word>, job: Job)
    requires HoldsAll(cipher, values, jobs) && HoldsAll(cipher, more, [job])
    ensures HoldsAll(cipher, values + more, jobs + [job])
  {
    var n := |jobs|;
    assert Holds(cipher, more, 0, [job][0]);
    forall i | 0 <= i < n + 1 ensures Holds(cipher, values + more, i, (jobs + [job])[i]) {
      if i < n {
        assert Holds(cipher, values, i, jobs[i]);
      }
    }
  }

  ghost predicate ReadsHold(u: Units, cipher: (State, State) -> State, r: Regs, program: seq<Instr>, jobs: seq<Job>)
  {
    HoldsAll(cipher, ReadsOf(u, r, program), jobs)
  }

  lemma ReadsHoldNext(u: Units, cipher: (State, State) -> State, r: Regs, code: Code, program: seq<Instr>, init: seq<Job>, last: Job)
    requires Delivers(u, cipher, code) && ReadsHold(u, cipher, r, program, init)
    ensures ReadsHold(u, cipher, r, program + code(last), init + [last])
  {
    var r' := ExecuteAll(u, r, program);
    ReadsConcat(u, r, program, code(last));
    HoldsMore(cipher, ReadsOf(u, r, program), init, ReadsOf(u, r', code(last)), last);
  }

  lemma {:induction false} ChainedRead(u: Units, cipher: (State, State) -> State, r: Regs, code: Code, jobs: seq<Job>)
    requires Delivers(u, cipher, code)
    ensures ReadsHold(u, cipher, r, Chained(code, jobs), jobs)
  {
    if jobs != [] {
      var init, last := jobs[..|jobs| - 1], jobs[|jobs| - 1];
      ChainedRead(u, cipher, r, code, init);
      ReadsHoldNext(u, cipher, r, code, Chained(code, init), init, last);
      assert jobs == init + [last];
    }
  }

  lemma StalledChainReads(u: Units, cipher: (State, State) -> State, code: Code, p: Pipe, trace: seq<Cycle>, jobs: seq<Job>)
    requires Delivers(u, cipher, code) && Aes(p.slot) == [] && p.values == [] && AllowedRun(u, p, trace)
    requires Issued(trace) == Chained(code, jobs) && Aes(Run(u, p, trace).slot) == []
    ensures HoldsAll(cipher, Run(u, p, trace).values, jobs)
  {
    var done := CommitOnceInOrder(u, p, trace);
    assert done == Chained(code, jobs);
    ChainedRead(u, cipher, p.regs, code, jobs);
  }

  /** Any number of block programs in a row on the pipeline: under any stalls, the
      values read, four for each block, are the columns of the FIPS-197 ciphertexts. */
  lemma StalledBlocksEncrypt(box: SBox, p: Pipe, trace: seq<Cycle>, jobs: seq<Job>)
    requires Aes(p.slot) == [] && p.values == [] && AllowedRun(Wired(box), p, trace)
    requires Issued(trace) == Chained(BlockCode(), jobs) && Aes(Run(Wired(box), p, trace).slot) == []
    ensures HoldsAll(CipherOf(box), Run(Wired(box), p, trace).values, jobs)
  {
    WiredEncrypts(box);
    BlocksDeliver(Wired(box), CipherOf(box));
    StalledChainReads(Wired(box), CipherOf(box), BlockCode(), p, trace, jobs);
  }

  /** One block. */
  lemma StalledBlockEncrypts(box: SBox, p: Pipe, trace: seq<Cycle>, pin: Quad, kin: Quad)
    requires Aes(p.slot) == [] && p.values == [] && AllowedRun(Wired(box), p, trace)
    requires Issued(trace) == BlockProgram(pin, kin) && Aes(Run(Wired(box), p, trace).slot) == []
    ensures
      var values := Run(Wired(box), p, trace).values;
      |values| == 4 && ToState(Quad(values[0], values[1], values[2], values[3])) == Cipher(box, ToState(kin), ToState(pin))
  {
    var done := CommitOnceInOrder(Wired(box), p, trace);
    assert done == BlockProgram(pin, kin);
    BlockProgramEncrypts(box, p.regs, pin, kin);
    BlockReads(Wired(box), p.regs, pin, kin);
  }

  /** One word of a register replaced. */
  function Put(q: Quad, idx: nat, w: Word): (q': Quad)
  {
    Quad(if idx == 0 then w else q.w0, if idx == 1 then w else q.w1, if idx == 2 then w else q.w2,
         if idx == 3 then w else q.w3)
  }

  /** What each operator does when it leaves EX: to the key, to the round counter, to
      the state, and to the values read. */
  lemma OperatorEffects(u: Units, p: Pipe, c: Cycle)
    requires p.slot.en && c.exReady && p.slot.imm < 4
    ensures
      var r, r', op, idx := p.regs, Next(u, p, c).regs, p.slot.op, p.slot.imm;
      && r'.krk == (if op == KeyLoad then Put(r.krk, idx, p.slot.a) else if op == KeyExpand then u.expand(r.krk, r.rcnt) else r.krk)
      && r'.rcnt == (if op == KeyLoad then 0 else if op == KeyExpand then (if r.rcnt == 15 then 0 else r.rcnt + 1) else r.rcnt)
      && r'.st == if op == StateLoad then Put(r.st, idx, p.slot.a) else if op == StateRound then u.round(r.st, idx, r.krk) else r.st
    ensures
      var r, op, idx := p.regs, p.slot.op, p.slot.imm;
      Next(u, p, c).values == p.values +
        if op == KeyRead then [[r.krk.w0, r.krk.w1, r.krk.w2, r.krk.w3][idx]]
        else if op == StateRead then [[r.st.w0, r.st.w1, r.st.w2, r.st.w3][idx]] else []
  {}

  /** Nothing happens while an instruction waits in EX, or if none is there. */
  lemma NothingCommitted(u: Units, p: Pipe, c: Cycle)
    requires !p.slot.en || !c.exReady
    ensures Next(u, p, c).regs == p.regs && Next(u, p, c).values == p.values
  {}

  /** The registers themselves, updated by the enables that the ALU derives. */
  class Stage {
    const units: Units
    var aluEn: bool
    var aluOperator: Operator
    var operandA: Word
    var immVecExt: nat
    var krk: Quad
    var rcnt: nat
    var st: Quad

    function Now(): (p: Pipe)
      reads this
    {
      Pipe(Slot(aluEn, aluOperator, operandA, immVecExt), Regs(krk, rcnt, st), [])
    }

    constructor (units: Units)
      ensures this.units == units && Now() == Reset()
    {
      this.units := units;
      aluEn, aluOperator, operandA, immVecExt := false, NotAes, Fill(32, false), 0;
      krk := Quad(Fill(32, false), Fill(32, false), Fill(32, false), Fill(32, false));
      rcnt := 0;
      st := Quad(Fill(32, false), Fill(32, false), Fill(32, false), Fill(32, false));
    }

    /** One clock edge of the key unit, the state unit and the ID/EX registers. */
    method Clock(c: Cycle) returns (rdata: seq<Word>)
      modifies this
      ensures Now() == Next(units, old(Now()), c).(values := [])
      ensures rdata == Next(units, old(Now()), c).values
    {
      var commit := aluEn && c.exReady;
      var ksLdEn, ksExpEn := commit && aluOperator == KeyLoad, commit && aluOperator == KeyExpand;
      var stLdEn, stRndEn := commit && aluOperator == StateLoad, commit && aluOperator == StateRound;
      rdata := if commit && aluOperator == KeyRead then [WordOf(krk, immVecExt)]
               else if commit && aluOperator == StateRead then [WordOf(st, immVecExt)] else [];
      var liveKey := krk;
      if ksLdEn {
        krk, rcnt := SetWord(krk, immVecExt, operandA), 0;
      } else if ksExpEn {
        krk, rcnt := units.expand(krk, rcnt), Count4(rcnt);
      }
      if stLdEn {
        st := SetWord(st, immVecExt, operandA);
      } else if stRndEn {
        st := units.round(st, immVecExt, liveKey);
      }
      Advance(c);
    }

    method Advance(c: Cycle)
      modifies `aluEn, `aluOperator, `operandA, `immVecExt
      ensures Now().slot == NextSlot(old(Now().slot), c)
    {
      if c.misaligned {
        if c.exReady && c.useIncrement {
          operandA := c.forwarded;
        }
      } else if c.multicycle {
      } else if c.idValid {
        aluEn := c.id.en;
        if c.id.en {
          aluOperator, operandA, immVecExt := c.id.op, c.id.a, c.id.imm;
        }
      } else if c.exReady {
        aluOperator, aluEn := NotAes, true;
      }
    }
  }
}
