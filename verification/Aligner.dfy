/** The instruction aligner: it turns the fetched 32-bit words into a stream of
    16-bit and 32-bit instructions. Its reference is a sequential parser of the
    memory, half-word by half-word (length rule: RISC-V Unprivileged ISA, version
    20191213, section 1.5). */
module Aligner {
  import opened Bits

  const WORDS: nat := 0x4000_0000

  /** An even 32-bit address: the number of the word (bits 31 to 2) and whether it
      is the upper half-word (bit 1). */
  datatype Address = Address(word: nat, upper: bool)

  predicate InSpace(a: Address)
  {
    a.word < WORDS
  }

  type Memory = Address -> nat

  /** A 32-bit word as its two half-words. */
  datatype Word = Word(lower: nat, upper: nat)

  function NextWord(word: nat): (w: nat)
    requires word < WORDS
    ensures w < WORDS
  {
    if word + 1 < WORDS then word + 1 else 0
  }

  /** Two bytes on, wrapping at the end of the address space. */
  function Plus2(a: Address): (b: Address)
    requires InSpace(a)
    ensures InSpace(b)
  {
    if a.upper then Address(NextWord(a.word), false) else Address(a.word, true)
  }

  /** Four bytes on. */
  function Plus4(a: Address): (b: Address)
    requires InSpace(a)
    ensures InSpace(b)
  {
    Address(NextWord(a.word), a.upper)
  }

  /** The two low bits 11 mark the first half-word of a 32-bit instruction. */
  predicate Long(half: nat)
  {
    half % 4 == 3
  }

  datatype Instruction = Compressed(half: nat) | Full(word: Word)

  /** The instruction that starts at an address. */
  function InstructionAt(mem: Memory, pc: Address): (i: Instruction)
    requires InSpace(pc)
  {
    if Long(mem(pc)) then Full(Word(mem(pc), mem(Plus2(pc)))) else Compressed(mem(pc))
  }

  /** Where the next instruction starts. */
  function After(mem: Memory, pc: Address): (next: Address)
    requires InSpace(pc)
    ensures InSpace(next)
  {
    if Long(mem(pc)) then Plus4(pc) else Plus2(pc)
  }

  /** What an aligned word means downstream: of a compressed instruction only the
      first half-word is used. */
  function Meaning(word: Word): (i: Instruction)
  {
    if Long(word.lower) then Full(word) else Compressed(word.lower)
  }

  datatype Event = Emit(pc: Address, instr: Instruction) | Redirect(target: Address)

  /** One step of the sequential parser standing at pc. */
  ghost predicate Allowed(mem: Memory, pc: Address, e: Event)
    requires InSpace(pc)
  {
    match e
    case Emit(at, instr) => at == pc && instr == InstructionAt(mem, pc)
    case Redirect(target) => InSpace(target)
  }

  function Step(mem: Memory, pc: Address, e: Event): (pc': Address)
    requires InSpace(pc)
  {
    match e
    case Emit(_, _) => After(mem, pc)
    case Redirect(target) => target
  }

  /** The sequential parse: the events are those of a parser that reads one
      instruction after the other from pc on and follows every redirection. */
  ghost predicate Sequential(mem: Memory, pc: Address, events: seq<Event>)
    requires InSpace(pc)
    decreases |events|
  {
    events == [] ||
    (Allowed(mem, pc, events[0]) && Sequential(mem, Step(mem, pc, events[0]), events[1..]))
  }

  /** Where the parser stands after its events. */
  function Standing(mem: Memory, pc: Address, events: seq<Event>): (pc': Address)
    requires InSpace(pc) && Sequential(mem, pc, events)
    ensures InSpace(pc')
    decreases |events|
  {
    if events == [] then pc else Standing(mem, Step(mem, pc, events[0]), events[1..])
  }

  lemma {:induction false} ExtendParse(mem: Memory, pc: Address, events: seq<Event>, e: Event)
    requires InSpace(pc) && Sequential(mem, pc, events)
    requires Allowed(mem, Standing(mem, pc, events), e)
    ensures Sequential(mem, pc, events + [e])
    ensures Standing(mem, pc, events + [e]) == Step(mem, Standing(mem, pc, events), e)
    decreases |events|
  {
    if events == [] {
      assert [e][1..] == [];
    } else {
      ExtendParse(mem, Step(mem, pc, events[0]), events[1..], e);
      assert (events + [e])[1..] == events[1..] + [e];
    }
  }

  // The reference once more, told by bits and byte addresses.

  const SPACE: nat := 0x1_0000_0000

  type Half = b: seq<bool> | |b| == 16
    witness [false, false, false, false, false, false, false, false, false, false, false, false, false, false, false, false]

  /** The half-word at each even byte address. */
  type Image = nat -> Half

  function ByteAddress(a: Address): (at: nat)
  {
    4 * a.word + if a.upper then 2 else 0
  }

  ghost predicate Represents(image: Image, mem: Memory)
  {
    forall a: Address :: InSpace(a) ==> mem(a) == ToNat(image(ByteAddress(a)))
  }

  /** The instruction at a byte address has four bytes if both low bits of its first
      half-word are set, and two otherwise. */
  function Length(image: Image, at: nat): (n: nat)
  {
    if image(at)[0] && image(at)[1] then 4 else 2
  }

  predicate Reads(image: Image, at: nat, instr: Instruction)
  {
    instr == if Length(image, at) == 4 then Full(Word(ToNat(image(at)), ToNat(image((at + 2) % SPACE))))
             else Compressed(ToNat(image(at)))
  }

  /** Instructions one behind the other from one byte address to another, modulo 2^32,
      except where the fetch is redirected. */
  ghost predicate Consecutive(image: Image, at: nat, events: seq<Event>, end: nat)
    decreases |events|
  {
    if events == [] then at == end
    else
      match events[0]
      case Emit(pc, instr) =>
        ByteAddress(pc) == at && Reads(image, at, instr) &&
        Consecutive(image, (at + Length(image, at)) % SPACE, events[1..], end)
      case Redirect(target) =>
        ByteAddress(target) < SPACE && Consecutive(image, ByteAddress(target), events[1..], end)
  }

  lemma LengthBits(h: Half)
    ensures Long(ToNat(h)) <==> h[0] && h[1]
  {
    LowBits(Bit(h[0]), Bit(h[1]), ToNat(h[2..]), ToNat(h));
    assert h[1..][1..] == h[2..];
  }

  lemma LowBits(b0: nat, b1: nat, rest: nat, v: nat)
    requires b0 <= 1 && b1 <= 1
    ensures v == b0 + 2 * (b1 + 2 * rest) ==> (v % 4 == 3 <==> b0 == 1 && b1 == 1)
  {}

  lemma NextAddresses(a: Address)
    requires InSpace(a)
    ensures ByteAddress(Plus2(a)) == (ByteAddress(a) + 2) % SPACE
    ensures ByteAddress(Plus4(a)) == (ByteAddress(a) + 4) % SPACE
  {}

  lemma StepIsNext(image: Image, mem: Memory, pc: Address)
    requires InSpace(pc) && Represents(image, mem)
    ensures Reads(image, ByteAddress(pc), InstructionAt(mem, pc))
    ensures ByteAddress(After(mem, pc)) == (ByteAddress(pc) + Length(image, ByteAddress(pc))) % SPACE
  {
    LengthBits(image(ByteAddress(pc)));
    NextAddresses(pc);
  }

  /** The sequential parse is that of the bits. */
  lemma {:induction false} SequentialIsConsecutive(image: Image, mem: Memory, pc: Address, events: seq<Event>)
    requires InSpace(pc) && Represents(image, mem) && Sequential(mem, pc, events)
    ensures Consecutive(image, ByteAddress(pc), events, ByteAddress(Standing(mem, pc, events)))
    decreases |events|
  {
    if events != [] {
      StepIsNext(image, mem, pc);
      SequentialIsConsecutive(image, mem, Step(mem, pc, events[0]), events[1..]);
    }
  }

  datatype State = ALIGNED32 | MISALIGNED32 | MISALIGNED16 | BRANCH_MISALIGNED

  datatype Inputs = Inputs(fetchValid: bool, fetchRdata: Word, ifValid: bool, branch: bool, branchAddr: Address)

  /** The combinational signals of one cycle: the outputs and the next-state wires. */
  datatype Wires = Wires(instrValid: bool, instrAligned: Word, alignerReady: bool,
                         updateState: bool, nextState: State, pcN: Address)

  /** The decoding of each state, before a branch overrides it. */
  function Decode(state: State, rInstrH: nat, pcQ: Address, alignerReadyQ: bool, input: Inputs): (w: Wires)
    requires InSpace(pcQ)
    ensures InSpace(w.pcN)
  {
    var rdata := input.fetchRdata;
    var plus2, plus4 := Plus2(pcQ), Plus4(pcQ);
    var fetched := input.fetchValid && input.ifValid;
    match state
    case ALIGNED32 =>
      if Long(rdata.lower) then Wires(input.fetchValid, rdata, true, fetched, ALIGNED32, plus4)
      else Wires(input.fetchValid, rdata, true, fetched, MISALIGNED32, plus2)
    case MISALIGNED32 =>
      if Long(rInstrH) then
        Wires(input.fetchValid, Word(rInstrH, rdata.lower), true, fetched, MISALIGNED32, plus4)
      else
        Wires(true, Word(rInstrH, rdata.upper), !input.fetchValid, input.ifValid, MISALIGNED16, plus2)
    case MISALIGNED16 =>
      var valid := !alignerReadyQ || input.fetchValid;
      if Long(rdata.lower) then Wires(valid, rdata, true, valid && input.ifValid, ALIGNED32, plus4)
      else Wires(valid, rdata, true, valid && input.ifValid, MISALIGNED32, plus2)
    case BRANCH_MISALIGNED =>
      if Long(rdata.upper) then Wires(false, rdata, true, fetched, MISALIGNED32, pcQ)
      else Wires(input.fetchValid, Word(rdata.upper, rdata.upper), true, fetched, ALIGNED32, plus2)
  }

  /** The invariant: each state fixes where the head of the queue stands relative
      to the pc, what the saved half-word holds, and what the remembered handshake
      means. */
  ghost predicate InStep(mem: Memory, state: State, rInstrH: nat, pcQ: Address, alignerReadyQ: bool,
                         head: nat, held: bool)
  {
    && InSpace(pcQ)
    && match state
       case ALIGNED32 => !pcQ.upper && head == pcQ.word
       case MISALIGNED32 => pcQ.upper && head == NextWord(pcQ.word) && rInstrH == mem(pcQ)
       case MISALIGNED16 => !pcQ.upper && head == pcQ.word && (!alignerReadyQ ==> held)
       case BRANCH_MISALIGNED => pcQ.upper && head == pcQ.word
  }

  function FetchedWord(mem: Memory, word: nat): (w: Word)
  {
    Word(mem(Address(word, false)), mem(Address(word, true)))
  }

  /** Without a branch the decoded cycle follows the parser and keeps in step. */
  lemma DecodeFollows(mem: Memory, state: State, rInstrH: nat, pcQ: Address, alignerReadyQ: bool,
                      head: nat, held: bool, input: Inputs)
    requires InStep(mem, state, rInstrH, pcQ, alignerReadyQ, head, held)
    requires input.fetchValid ==> input.fetchRdata == FetchedWord(mem, head)
    requires held && !input.branch ==> input.fetchValid
    ensures
      var w := Decode(state, rInstrH, pcQ, alignerReadyQ, input);
      !input.branch && w.instrValid && input.ifValid ==>
        w.updateState && Meaning(w.instrAligned) == InstructionAt(mem, pcQ)
        && w.pcN == After(mem, pcQ)
    ensures
      var w := Decode(state, rInstrH, pcQ, alignerReadyQ, input);
      !input.branch && w.updateState && !w.instrValid ==> w.pcN == pcQ
    ensures
      var w := Decode(state, rInstrH, pcQ, alignerReadyQ, input);
      var popped := input.fetchValid && input.ifValid && w.alignerReady;
      !input.branch && w.updateState ==>
        InStep(mem, w.nextState, input.fetchRdata.upper, w.pcN, w.alignerReady,
               if popped then NextWord(head) else head, input.fetchValid && !popped)
    ensures
      var w := Decode(state, rInstrH, pcQ, alignerReadyQ, input);
      !input.branch && !w.updateState ==>
        && !(w.instrValid && input.ifValid) && !(input.fetchValid && input.ifValid)
        && InStep(mem, state, rInstrH, pcQ, alignerReadyQ, head, input.fetchValid)
    ensures
      var w := Decode(state, rInstrH, pcQ, alignerReadyQ, input);
      input.fetchValid && input.ifValid ==>
        (w.instrValid || state == BRANCH_MISALIGNED) && w.nextState != BRANCH_MISALIGNED
  {}

  class Aligner {
    var state: State
    var rInstrH: nat
    var pcQ: Address
    var alignerReadyQ: bool

    // The fetch queue as the aligner's environment keeps it.
    ghost var head: nat        // number of the word at the head of the queue
    ghost var held: bool       // that word was offered and not yet popped

    ghost predicate Valid(mem: Memory)
      reads this
    {
      InStep(mem, state, rInstrH, pcQ, alignerReadyQ, head, held)
    }

    /** The fetch side: a valid word is the memory word at the head of the queue,
        a word once offered stays until it is popped or flushed by a branch, and
        nothing is offered or taken in the cycle of a branch. */
    ghost predicate Fetches(mem: Memory, input: Inputs)
      reads this
    {
      && (input.fetchValid ==> input.fetchRdata == FetchedWord(mem, head))
      && (held && !input.branch ==> input.fetchValid)
      && (input.branch ==> InSpace(input.branchAddr) && !input.fetchValid && !input.ifValid)
    }

    /** Reset; the aligner then waits for the branch to the boot address. */
    constructor (mem: Memory)
      ensures Valid(mem) && pcQ == Address(0, false)
    {
      state, rInstrH, pcQ, alignerReadyQ := ALIGNED32, 0, Address(0, false), false;
      head, held := 0, false;
    }

    /** One rising clock edge, with the outputs of the cycle before it. The IF
        stage takes the instruction when it is itself valid, and the word at the
        head of the queue is popped when the aligner is ready for the next one. */
    method Clock(input: Inputs, ghost mem: Memory)
      returns (instrValid: bool, instrAligned: Word, pc: Address, alignerReady: bool)
      requires Valid(mem) && Fetches(mem, input)
      modifies this
      ensures Valid(mem)
      ensures pc == old(pcQ)
      ensures instrValid && input.ifValid ==> Meaning(instrAligned) == InstructionAt(mem, old(pcQ))
      ensures pcQ == if input.branch then input.branchAddr
                     else if instrValid && input.ifValid then After(mem, old(pcQ))
                     else old(pcQ)
      ensures
        var popped := input.fetchValid && input.ifValid && alignerReady && !input.branch;
        && head == (if input.branch then input.branchAddr.word
                    else if popped then NextWord(old(head)) else old(head))
        && held == (input.fetchValid && !popped && !input.branch)
      ensures input.fetchValid && input.ifValid ==>
                (instrValid || old(state) == BRANCH_MISALIGNED) && state != BRANCH_MISALIGNED
    {
      var w := Decode(state, rInstrH, pcQ, alignerReadyQ, input);
      DecodeFollows(mem, state, rInstrH, pcQ, alignerReadyQ, head, held, input);
      if input.branch {
        w := w.(updateState := true, pcN := input.branchAddr,
                nextState := if input.branchAddr.upper then BRANCH_MISALIGNED else ALIGNED32);
      }
      instrValid, instrAligned, pc, alignerReady := w.instrValid, w.instrAligned, pcQ, w.alignerReady;
      if w.updateState {
        pcQ := w.pcN;
        state := w.nextState;
        rInstrH := input.fetchRdata.upper;
        alignerReadyQ := w.alignerReady;
      }
      ghost var popped := input.fetchValid && input.ifValid && w.alignerReady && !input.branch;
      head := if input.branch then input.branchAddr.word
              else if popped then NextWord(head) else head;
      held := input.fetchValid && !popped && !input.branch;
    }
  }

  /** One cycle of the world around the aligner: whether a word may arrive, what
      the data lines carry when none does, whether the IF stage moves on, and a
      possible branch. */
  datatype Cycle = Cycle(arrives: bool, noise: Word, ifValid: bool, branch: bool, branchAddr: Address)

  predicate Possible(run: seq<Cycle>)
  {
    forall i :: 0 <= i < |run| && run[i].branch ==> InSpace(run[i].branchAddr)
  }

  /** The redirections among some events. */
  function Redirects(events: seq<Event>): (targets: seq<Address>)
  {
    if events == [] then []
    else
      var e := events[|events| - 1];
      Redirects(events[..|events| - 1]) + if e.Redirect? then [e.target] else []
  }

  /** The branches of a run. */
  function Branches(run: seq<Cycle>): (targets: seq<Address>)
  {
    if run == [] then []
    else
      var c := run[|run| - 1];
      Branches(run[..|run| - 1]) + if c.branch then [c.branchAddr] else []
  }

  predicate Free(c: Cycle)
  {
    c.arrives && c.ifValid && !c.branch
  }

  lemma AppendRedirects(events: seq<Event>, e: Event)
    ensures Redirects(events + [e]) == Redirects(events) + if e.Redirect? then [e.target] else []
  {
    assert (events + [e])[..|events|] == events;
  }

  /** The events read so far take the parser from one address to another. */
  ghost predicate Parses(mem: Memory, start: Address, events: seq<Event>, pc: Address)
  {
    InSpace(start) && Sequential(mem, start, events) && Standing(mem, start, events) == pc
  }

  /** At most one event, of which the parser makes the step. */
  ghost predicate StepsBy(mem: Memory, pc: Address, told: seq<Event>, pc': Address)
  {
    && InSpace(pc)
    && if told == [] then pc' == pc else |told| == 1 && Allowed(mem, pc, told[0]) && pc' == Step(mem, pc, told[0])
  }

  lemma ParsesOn(mem: Memory, start: Address, events: seq<Event>, pc: Address, told: seq<Event>, pc': Address)
    requires Parses(mem, start, events, pc) && StepsBy(mem, pc, told, pc')
    ensures Parses(mem, start, events + told, pc')
  {
    if told == [] {
      assert events + told == events;
    } else {
      ExtendParse(mem, start, events, told[0]);
      assert told == [told[0]];
    }
  }

  /** The event of one cycle, if any, is the branch that it brings or none. */
  predicate BranchTold(c: Cycle, told: seq<Event>)
  {
    |told| <= 1 && if c.branch then told == [Redirect(c.branchAddr)] else told == [] || told[0].Emit?
  }

  lemma RedirectsNext(events: seq<Event>, told: seq<Event>, run: seq<Cycle>, i: nat)
    requires i < |run| && Redirects(events) == Branches(run[..i]) && BranchTold(run[i], told)
    ensures Redirects(events + told) == Branches(run[..i + 1])
  {
    assert run[..i + 1][..i] == run[..i];
    if told == [] {
      assert events + told == events;
    } else {
      AppendRedirects(events, told[0]);
      assert told == [told[0]];
    }
  }

  /** One cycle: at most one event, with the queue kept in step. With a word there and
      the IF stage free there is one, unless a branch has just gone to an upper half. */
  method Cycled(al: Aligner, mem: Memory, head: nat, held: bool, c: Cycle) returns (told: seq<Event>, head': nat, held': bool)
    requires al.Valid(mem) && al.head == head && al.held == held && (c.branch ==> InSpace(c.branchAddr))
    modifies al
    ensures al.Valid(mem) && al.head == head' && al.held == held'
    ensures StepsBy(mem, old(al.pcQ), told, al.pcQ) && BranchTold(c, told)
    ensures Free(c) ==> (told != [] || old(al.state) == BRANCH_MISALIGNED) && al.state != BRANCH_MISALIGNED
  {
    var valid := !c.branch && (held || c.arrives);
    var input := Inputs(valid, if valid then FetchedWord(mem, head) else c.noise,
                        c.ifValid && !c.branch, c.branch, c.branchAddr);
    var instrValid, instrAligned, pc, alignerReady := al.Clock(input, mem);
    told := if c.branch then [Redirect(c.branchAddr)]
           else if instrValid && input.ifValid then [Emit(pc, Meaning(instrAligned))] else [];
    var popped := input.fetchValid && input.ifValid && alignerReady && !input.branch;
    head' := if c.branch then c.branchAddr.word else if popped then NextWord(head) else head;
    held' := valid && !popped && !c.branch;
  }

  predicate AllFree(run: seq<Cycle>)
  {
    forall i :: 0 <= i < |run| ==> Free(run[i])
  }

  /** In i free cycles, n events: at most one cycle is without, and only at the start. */
  predicate Counted(run: seq<Cycle>, i: nat, n: nat, start: State, now: State)
  {
    && (i == 0 ==> now == start && n == 0)
    && (AllFree(run) ==> n <= i <= n + 1 && (i > 0 ==> now != BRANCH_MISALIGNED) && (i > n ==> start == BRANCH_MISALIGNED))
  }

  lemma CountNext(run: seq<Cycle>, i: nat, n: nat, start: State, now: State, told: nat, next: State)
    requires i < |run| && Counted(run, i, n, start, now) && told <= 1
    requires Free(run[i]) ==> (told == 1 || now == BRANCH_MISALIGNED) && next != BRANCH_MISALIGNED
    ensures Counted(run, i + 1, n + told, start, next)
  {}

  /** For every memory, every starting point, every pattern of fetch and IF stalls
      and all branches to even addresses, the instructions handed on are exactly
      those of the sequential parse, with each branch taken where it occurred:
      none is lost, repeated or assembled from the wrong halves. When words arrive
      and the IF stage moves on in every cycle, at most one cycle has no
      instruction. */
  method Run(al: Aligner, mem: Memory, head0: nat, held0: bool, run: seq<Cycle>) returns (events: seq<Event>)
    requires al.Valid(mem) && al.head == head0 && al.held == held0 && Possible(run)
    modifies al
    ensures al.Valid(mem)
    ensures Sequential(mem, old(al.pcQ), events) && Standing(mem, old(al.pcQ), events) == al.pcQ
    ensures forall image: Image :: Represents(image, mem) ==>
              Consecutive(image, ByteAddress(old(al.pcQ)), events, ByteAddress(al.pcQ))
    ensures Redirects(events) == Branches(run)
    ensures (forall i :: 0 <= i < |run| ==> Free(run[i])) ==> |run| <= |events| + 1
    ensures (forall i :: 0 <= i < |run| ==> Free(run[i])) && old(al.state) != BRANCH_MISALIGNED
            ==> |run| == |events|
  {
    events := [];
    var head, held := head0, held0;
    for i := 0 to |run|
      invariant al.Valid(mem) && al.head == head && al.held == held
      invariant Parses(mem, old(al.pcQ), events, al.pcQ) && Redirects(events) == Branches(run[..i])
      invariant Counted(run, i, |events|, old(al.state), al.state)
    {
      ghost var pc, state := al.pcQ, al.state;
      var told;
      told, head, held := Cycled(al, mem, head, held, run[i]);
      ParsesOn(mem, old(al.pcQ), events, pc, told, al.pcQ);
      RedirectsNext(events, told, run, i);
      CountNext(run, i, |events|, old(al.state), state, |told|, al.state);
      events := events + told;
    }
    assert run[..|run|] == run;
    forall image: Image | Represents(image, mem)
      ensures Consecutive(image, ByteAddress(old(al.pcQ)), events, ByteAddress(al.pcQ))
    {
      SequentialIsConsecutive(image, mem, old(al.pcQ), events);
    }
  }
}
