/** The main controller: pipeline flushing, redirects, exceptions and debug mode,
    with the IF/ID register that it halts. The configuration is the default one,
    without hardware loops and cluster support; memory protection errors and
    interrupts are tied off. */
module Controller {

  datatype State = Reset | BootSet | WaitSleep | Sleep | FirstFetch | Decode | FlushEx | FlushWb | XretJump
                 | DbgTakenId | DbgTakenIf | DbgFlush | DbgWaitBranch

  datatype DebugState = HaveReset | Running | Halted

  /** What the decoder says of the instruction in ID. */
  datatype Insn = Illegal | Jump | Branch | Ebreak | Ecall | Wfi | Fencei | Mret | Uret | Dret | CsrStatus | Plain

  /** Where a redirect of the fetch goes: among others to an ordinary exception, to
      debug entry, or to an exception in debug mode. */
  datatype Redirect = Stay | ToBoot | ToJump | ToBranch | ToTrap | ToDebug | ToDebugTrap | ToMret | ToUret | ToDret | PastFence

  /** The cause saved to the CSRs, if one is. For debug mode it comes with the pc in ID
      for a trigger, an ebreak or a request, and with that in IF for a request that woke
      the core and for a single step. */
  datatype Save = NoSave | IllegalInsn | Breakpoint | EcallUser | EcallMachine
                | DebugTrigger | DebugEbreak | DebugRequest | DebugWoken | DebugStep | DebugUntold

  /** The debug settings and the privilege level. */
  datatype Settings = Settings(singleStep: bool, ebreakm: bool, ebreaku: bool, user: bool)

  /** The inputs of one cycle. When an instruction can enter ID, fetched says whether
      there is one and next and nextTrigger what it is. */
  datatype Inputs = Inputs(fetchEnable: bool, branchTaken: bool, idReady: bool, exValid: bool, jrStall: bool,
                           debugReq: bool, irqWake: bool, fetched: bool, next: Insn, nextTrigger: bool,
                           settings: Settings)

  /** The registers of the controller. */
  datatype Regs = Regs(state: State, jumpDone: bool, debugMode: bool, illegal: bool, debugReqEntry: bool,
                       forceWakeup: bool, debugReq: bool, debugState: DebugState)

  /** The IF/ID register; trigger tells whether a debug trigger matches its address. */
  datatype Id = Id(valid: bool, insn: Insn, trigger: bool)

  // The signals of the combinational block, one by one.

  predicate Pending(r: Regs, i: Inputs)
  {
    i.debugReq || r.debugReq
  }

  predicate EbreakForced(i: Inputs)
  {
    (i.settings.ebreakm && !i.settings.user) || (i.settings.ebreaku && i.settings.user)
  }

  predicate WfiSleeps(r: Regs, id: Id, i: Inputs)
  {
    !(r.debugMode || Pending(r, i) || i.settings.singleStep || id.trigger)
  }

  predicate Stepping(r: Regs, i: Inputs)
  {
    i.settings.singleStep && !r.debugMode
  }

  /** There is an instruction to look at in ID. */
  predicate Looking(r: Regs, id: Id, i: Inputs)
  {
    r.state == Decode && !i.branchTaken && id.valid
  }

  /** It is put off to enter debug mode first. */
  predicate DebugTrap(r: Regs, id: Id, i: Inputs)
  {
    Looking(r, id, i) && (Pending(r, i) || id.trigger) && !r.debugMode
  }

  /** It is decoded. */
  predicate Decoding(r: Regs, id: Id, i: Inputs)
  {
    Looking(r, id, i) && !DebugTrap(r, id, i)
  }

  predicate TakesJump(r: Regs, id: Id, i: Inputs)
  {
    Decoding(r, id, i) && id.insn == Jump && !i.jrStall && !r.jumpDone
  }

  predicate EntersDebug(r: Regs, id: Id, i: Inputs)
  {
    id.insn == Ebreak && (r.debugMode || EbreakForced(i))
  }

  /** The instructions that empty the pipeline behind them. */
  predicate Flushes(r: Regs, id: Id, i: Inputs)
  {
    match id.insn
    case Jump => false
    case Branch => false
    case Plain => false
    case Ebreak => !EntersDebug(r, id, i)
    case Wfi => WfiSleeps(r, id, i)
    case _ => true
  }

  /** Where a single step goes after the instruction has left ID. */
  function StepTarget(id: Id, i: Inputs): (s: State)
  {
    match id.insn
    case Illegal => FlushEx
    case Ecall => FlushEx
    case Ebreak => if EbreakForced(i) then DbgFlush else FlushEx
    case Mret => FlushEx
    case Uret => FlushEx
    case Branch => DbgWaitBranch
    case _ => DbgFlush
  }

  function AfterDecode(r: Regs, id: Id, i: Inputs): (s: State)
  {
    if !Looking(r, id, i) then Decode
    else if DebugTrap(r, id, i) then DbgFlush
    else if Stepping(r, i) && i.idReady then StepTarget(id, i)
    else if EntersDebug(r, id, i) then DbgFlush
    else if Flushes(r, id, i) && i.idReady then FlushEx
    else Decode
  }

  function AfterFlushWb(r: Regs, id: Id, i: Inputs): (s: State)
  {
    var stepped := if Stepping(r, i) then DbgTakenIf else Decode;
    if r.illegal then stepped
    else
      match id.insn
      case Ebreak => stepped
      case Ecall => stepped
      case Mret => XretJump
      case Uret => XretJump
      case Dret => XretJump
      case Wfi => if Pending(r, i) then DbgTakenIf else WaitSleep
      case _ => Decode
  }

  predicate Wakes(r: Regs, i: Inputs)
  {
    i.irqWake || Pending(r, i) || r.debugMode
  }

  function NextState(r: Regs, id: Id, i: Inputs): (s: State)
  {
    match r.state
    case Reset => if i.fetchEnable then BootSet else Reset
    case BootSet => if Pending(r, i) then DbgTakenIf else FirstFetch
    case WaitSleep => Sleep
    case Sleep => if !Wakes(r, i) then Sleep else if Pending(r, i) then DbgTakenIf else FirstFetch
    case FirstFetch => Decode
    case Decode => AfterDecode(r, id, i)
    case FlushEx => if i.exValid then FlushWb else FlushEx
    case FlushWb => AfterFlushWb(r, id, i)
    case XretJump => if Stepping(r, i) then DbgTakenIf else Decode
    case DbgWaitBranch => DbgFlush
    case DbgTakenId => Decode
    case DbgTakenIf => Decode
    case DbgFlush =>
      if r.debugMode || id.trigger || (EbreakForced(i) && id.insn == Ebreak) || r.debugReqEntry then DbgTakenId
      else DbgTakenIf
  }

  predicate NextIllegal(r: Regs, id: Id, i: Inputs)
  {
    if Looking(r, id, i) then Decoding(r, id, i) && id.insn == Illegal
    else r.state != FlushWb && r.illegal
  }

  predicate NextDebugMode(r: Regs, id: Id)
  {
    r.state == DbgTakenId || r.state == DbgTakenIf || (r.debugMode && !(r.state == XretJump && id.insn == Dret))
  }

  predicate NextDebugReqEntry(r: Regs, id: Id, i: Inputs)
  {
    DebugTrap(r, id, i) || (r.debugReqEntry && r.state != DbgTakenId)
  }

  predicate NextForceWakeup(r: Regs, id: Id, i: Inputs)
  {
    if r.state == DbgTakenIf then false
    else
      || r.forceWakeup
      || (Pending(r, i) && (r.state == BootSet || r.state == Sleep || (r.state == FlushWb && !r.illegal && id.insn == Wfi)))
  }

  function RedirectFlushWb(r: Regs, id: Id): (d: Redirect)
  {
    if r.illegal then (if r.debugMode then ToDebugTrap else ToTrap)
    else
      match id.insn
      case Ebreak => ToTrap
      case Ecall => if r.debugMode then ToDebugTrap else ToTrap
      case Fencei => PastFence
      case _ => Stay
  }

  function RedirectXret(r: Regs, id: Id): (d: Redirect)
  {
    match id.insn
    case Mret => if r.debugMode then ToDebugTrap else ToMret
    case Uret => if r.debugMode then ToDebugTrap else ToUret
    case Dret => ToDret
    case _ => Stay
  }

  function RedirectOf(r: Regs, id: Id, i: Inputs): (d: Redirect)
  {
    match r.state
    case BootSet => ToBoot
    case Decode => if i.branchTaken then ToBranch else if TakesJump(r, id, i) then ToJump else Stay
    case FlushWb => RedirectFlushWb(r, id)
    case XretJump => RedirectXret(r, id)
    case DbgWaitBranch => if i.branchTaken then ToBranch else Stay
    case DbgTakenId => ToDebug
    case DbgTakenIf => ToDebug
    case _ => Stay
  }

  function CauseInId(r: Regs, id: Id, i: Inputs): (s: Save)
  {
    if id.trigger then DebugTrigger
    else if EbreakForced(i) && id.insn == Ebreak then DebugEbreak
    else if r.debugReqEntry then DebugRequest
    else DebugEbreak
  }

  function SaveOf(r: Regs, id: Id, i: Inputs): (s: Save)
  {
    match r.state
    case FlushEx =>
      if !i.exValid then NoSave
      else if r.illegal then (if r.debugMode then NoSave else IllegalInsn)
      else if id.insn == Ebreak then Breakpoint
      else if id.insn == Ecall && !r.debugMode then (if i.settings.user then EcallUser else EcallMachine)
      else NoSave
    case DbgTakenId => if r.debugMode then NoSave else CauseInId(r, id, i)
    case DbgTakenIf => if r.forceWakeup then DebugWoken else if i.settings.singleStep then DebugStep else DebugUntold
    case _ => NoSave
  }

  predicate HaltsIf(r: Regs, id: Id, i: Inputs)
  {
    match r.state
    case Decode =>
      || DebugTrap(r, id, i)
      || (Decoding(r, id, i) && (Flushes(r, id, i) || EntersDebug(r, id, i) || Stepping(r, i)))
    case Reset => false
    case BootSet => false
    case FirstFetch => false
    case XretJump => false
    case DbgTakenId => false
    case DbgTakenIf => false
    case _ => true
  }

  predicate HaltsId(r: Regs, id: Id, i: Inputs)
  {
    match r.state
    case Decode => DebugTrap(r, id, i)
    case WaitSleep => true
    case Sleep => true
    case FlushEx => true
    case FlushWb => true
    case DbgFlush => true
    case _ => false
  }

  function NextDebugState(d: DebugState, debugMode: bool, s: State): (d': DebugState)
  {
    match d
    case HaveReset => if debugMode then Halted else if s == FirstFetch then Running else HaveReset
    case Running => if debugMode then Halted else Running
    case Halted => if debugMode then Halted else Running
  }

  /** Everything that the combinational block drives. */
  datatype Signals = Signals(ns: State, jumpDone: bool, illegal: bool, reqEntry: bool, debugMode: bool, wakeup: bool,
                             redirect: Redirect, save: Save, haltIf: bool, haltId: bool)

  function Driven(r: Regs, id: Id, i: Inputs): (s: Signals)
  {
    Signals(NextState(r, id, i), r.jumpDone || TakesJump(r, id, i), NextIllegal(r, id, i), NextDebugReqEntry(r, id, i),
            NextDebugMode(r, id), NextForceWakeup(r, id, i), RedirectOf(r, id, i), SaveOf(r, id, i),
            HaltsIf(r, id, i), HaltsId(r, id, i))
  }

  /** The registers after a clock edge. */
  function Latched(r: Regs, s: Signals, i: Inputs): (r': Regs)
  {
    Regs(s.ns, s.jumpDone && !i.idReady, s.debugMode, s.illegal, s.reqEntry, s.wakeup,
         i.debugReq || (r.debugReq && !r.debugMode), NextDebugState(r.debugState, s.debugMode, s.ns))
  }

  predicate Enters(s: Signals, i: Inputs)
  {
    i.idReady && !s.haltIf && i.fetched
  }

  /** The IF/ID register: an instruction enters when ID is ready and IF is not halted;
      otherwise the valid bit is cleared when the instruction leaves or is flushed, and
      what is in the register stays. */
  function NextId(id: Id, s: Signals, i: Inputs): (id': Id)
  {
    if Enters(s, i) then Id(true, i.next, i.nextTrigger)
    else if i.idReady || s.haltId || i.branchTaken then id.(valid := false)
    else id
  }

  /** The registers, with the combinational block and the clock edge as they are written. */
  class Machine {
    var ctrlFsm: State
    var jumpDoneQ: bool
    var debugModeQ: bool
    var illegalInsnQ: bool
    var debugReqEntryQ: bool
    var debugForceWakeupQ: bool
    var debugReqQ: bool
    var debugFsm: DebugState
    var id: Id

    function Now(): (r: Regs)
      reads this
    {
      Regs(ctrlFsm, jumpDoneQ, debugModeQ, illegalInsnQ, debugReqEntryQ, debugForceWakeupQ, debugReqQ, debugFsm)
    }

    constructor ()
      ensures Now() == RESET_REGS && id == Id(false, Plain, false)
    {
      ctrlFsm, debugFsm := Reset, HaveReset;
      jumpDoneQ, debugModeQ, illegalInsnQ, debugReqEntryQ, debugForceWakeupQ, debugReqQ := false, false, false, false, false, false;
      id := Id(false, Plain, false);
    }

    /** Booting and sleeping. */
    method BootBlock(i: Inputs) returns (s: Signals)
      requires ctrlFsm in {Reset, BootSet, WaitSleep, Sleep, FirstFetch}
      ensures s == Driven(Now(), id, i)
    {
      var ns, wakeup, redirect, halt := ctrlFsm, debugForceWakeupQ, Stay, false;
      var pending := i.debugReq || debugReqQ;
      match ctrlFsm {
        case Reset =>
          if i.fetchEnable { ns := BootSet; }
        case BootSet =>
          redirect := ToBoot;
          if pending { ns, wakeup := DbgTakenIf, true; } else { ns := FirstFetch; }
        case WaitSleep =>
          halt, ns := true, Sleep;
        case Sleep =>
          halt := true;
          if i.irqWake || pending || debugModeQ {
            if pending { ns, wakeup := DbgTakenIf, true; } else { ns := FirstFetch; }
          }
        case _ =>
          ns := Decode;
      }
      s := Signals(ns, jumpDoneQ, illegalInsnQ, debugReqEntryQ, debugModeQ, wakeup, redirect, NoSave, halt, halt);
    }

    /** Looking at the instruction in ID. */
    method DecodeBlock(i: Inputs) returns (s: Signals)
      requires ctrlFsm == Decode
      ensures s == Driven(Now(), id, i)
    {
      if i.branchTaken || !id.valid {
        s := NothingBlock(i);
      } else if (i.debugReq || debugReqQ || id.trigger) && !debugModeQ {
        s := DebugTrapBlock(i);
      } else {
        s := DecodeInsn(i);
      }
    }

    method NothingBlock(i: Inputs) returns (s: Signals)
      requires ctrlFsm == Decode && !Looking(Now(), id, i)
      ensures s == Driven(Now(), id, i)
    {
      s := Signals(Decode, jumpDoneQ, illegalInsnQ, debugReqEntryQ, debugModeQ, debugForceWakeupQ,
                   if i.branchTaken then ToBranch else Stay, NoSave, false, false);
    }

    method DebugTrapBlock(i: Inputs) returns (s: Signals)
      requires DebugTrap(Now(), id, i)
      ensures s == Driven(Now(), id, i)
    {
      s := Signals(DbgFlush, jumpDoneQ, false, true, debugModeQ, debugForceWakeupQ, Stay, NoSave, true, true);
    }

    method DecodeInsn(i: Inputs) returns (s: Signals)
      requires Decoding(Now(), id, i)
      ensures s == Driven(Now(), id, i)
    {
      var jumpDone, redirect := jumpDoneQ, Stay;
      if id.insn == Jump && !i.jrStall && !jumpDoneQ {
        redirect, jumpDone := ToJump, true;
      }
      var haltIf, ns := HaltOn(i);
      if i.settings.singleStep && !debugModeQ {
        haltIf := true;
        if i.idReady {
          ns := StepTarget(id, i);
        }
      }
      s := Signals(ns, jumpDone, id.insn == Illegal, debugReqEntryQ, debugModeQ, debugForceWakeupQ, redirect, NoSave, haltIf, false);
    }

    /** The instructions that halt the fetch. */
    method HaltOn(i: Inputs) returns (haltIf: bool, ns: State)
      ensures haltIf == (Flushes(Now(), id, i) || EntersDebug(Now(), id, i))
      ensures ns == if EntersDebug(Now(), id, i) then DbgFlush else if haltIf && i.idReady then FlushEx else Decode
    {
      haltIf, ns := true, if i.idReady then FlushEx else Decode;
      match id.insn {
        case Ebreak =>
          if debugModeQ || EbreakForced(i) {
            ns := DbgFlush;
          }
        case Wfi =>
          if !WfiSleeps(Now(), id, i) {
            haltIf, ns := false, Decode;
          }
        case Jump => haltIf, ns := false, Decode;
        case Branch => haltIf, ns := false, Decode;
        case Plain => haltIf, ns := false, Decode;
        case _ =>
      }
    }

    /** Emptying the pipeline. */
    method FlushExBlock(i: Inputs) returns (s: Signals)
      requires ctrlFsm == FlushEx
      ensures s == Driven(Now(), id, i)
    {
      var ns, save := FlushEx, NoSave;
      if i.exValid {
        ns := FlushWb;
        if illegalInsnQ {
          save := if debugModeQ then NoSave else IllegalInsn;
        } else if id.insn == Ebreak {
          save := Breakpoint;
        } else if id.insn == Ecall {
          save := if debugModeQ then NoSave else if i.settings.user then EcallUser else EcallMachine;
        }
      }
      s := Signals(ns, jumpDoneQ, illegalInsnQ, debugReqEntryQ, debugModeQ, debugForceWakeupQ, Stay, save, true, true);
    }

    method FlushWbBlock(i: Inputs) returns (s: Signals)
      requires ctrlFsm == FlushWb
      ensures s == Driven(Now(), id, i)
    {
      var ns, illegal, wakeup, redirect := Decode, illegalInsnQ, debugForceWakeupQ, Stay;
      if illegalInsnQ {
        redirect, illegal := if debugModeQ then ToDebugTrap else ToTrap, false;
        if i.settings.singleStep && !debugModeQ { ns := DbgTakenIf; }
      } else {
        redirect, ns, wakeup := AfterFlush(i);
      }
      s := Signals(ns, jumpDoneQ, illegal, debugReqEntryQ, debugModeQ, wakeup, redirect, NoSave, true, true);
    }

    method XretBlock(i: Inputs) returns (s: Signals)
      requires ctrlFsm == XretJump
      ensures s == Driven(Now(), id, i)
    {
      var redirect := Stay;
      match id.insn {
        case Mret => redirect := if debugModeQ then ToDebugTrap else ToMret;
        case Uret => redirect := if debugModeQ then ToDebugTrap else ToUret;
        case Dret => redirect := ToDret;
        case _ =>
      }
      assert redirect == RedirectXret(Now(), id);
      s := AfterXret(i, redirect);
    }

    method AfterXret(i: Inputs, redirect: Redirect) returns (s: Signals)
      requires ctrlFsm == XretJump && redirect == RedirectXret(Now(), id)
      ensures s == Driven(Now(), id, i)
    {
      var ns, debugMode := Decode, debugModeQ;
      if id.insn == Dret { debugMode := false; }
      if i.settings.singleStep && !debugModeQ { ns := DbgTakenIf; }
      s := Signals(ns, jumpDoneQ, illegalInsnQ, debugReqEntryQ, debugMode, debugForceWakeupQ, redirect, NoSave, false, false);
    }

    method AfterFlush(i: Inputs) returns (redirect: Redirect, ns: State, wakeup: bool)
      requires ctrlFsm == FlushWb && !illegalInsnQ
      ensures redirect == RedirectFlushWb(Now(), id) && ns == AfterFlushWb(Now(), id, i) && wakeup == NextForceWakeup(Now(), id, i)
    {
      redirect, ns, wakeup := Stay, Decode, debugForceWakeupQ;
      match id.insn {
        case Ebreak =>
          redirect := ToTrap;
          if i.settings.singleStep && !debugModeQ { ns := DbgTakenIf; }
        case Ecall =>
          redirect := if debugModeQ then ToDebugTrap else ToTrap;
          if i.settings.singleStep && !debugModeQ { ns := DbgTakenIf; }
        case Mret => ns := XretJump;
        case Uret => ns := XretJump;
        case Dret => ns := XretJump;
        case Wfi =>
          if i.debugReq || debugReqQ { ns, wakeup := DbgTakenIf, true; } else { ns := WaitSleep; }
        case Fencei => redirect := PastFence;
        case _ =>
      }
    }

    /** Entering debug mode. */
    method DebugBlock(i: Inputs) returns (s: Signals)
      requires ctrlFsm in {DbgTakenId, DbgTakenIf, DbgFlush, DbgWaitBranch}
      ensures s == Driven(Now(), id, i)
    {
      var ns, reqEntry, debugMode, wakeup := Decode, debugReqEntryQ, debugModeQ, debugForceWakeupQ;
      var redirect, save, haltIf, haltId := Stay, NoSave, false, false;
      match ctrlFsm {
        case DbgWaitBranch =>
          haltIf, ns := true, DbgFlush;
          if i.branchTaken { redirect := ToBranch; }
        case DbgTakenId =>
          redirect, reqEntry := ToDebug, false;
          if !debugModeQ {
            save := DebugEbreak;
            if id.trigger { save := DebugTrigger; }
            else if EbreakForced(i) && id.insn == Ebreak { save := DebugEbreak; }
            else if debugReqEntryQ { save := DebugRequest; }
          }
          debugMode := true;
        case DbgTakenIf =>
          redirect, debugMode, wakeup := ToDebug, true, false;
          save := if debugForceWakeupQ then DebugWoken else if i.settings.singleStep then DebugStep else DebugUntold;
        case _ =>
          haltIf, haltId := true, true;
          ns := if debugModeQ || id.trigger || (EbreakForced(i) && id.insn == Ebreak) || debugReqEntryQ then DbgTakenId
                else DbgTakenIf;
      }
      s := Signals(ns, jumpDoneQ, illegalInsnQ, reqEntry, debugMode, wakeup, redirect, save, haltIf, haltId);
    }

    method Drive(i: Inputs) returns (s: Signals)
      ensures s == Driven(Now(), id, i)
    {
      match ctrlFsm {
        case Decode => s := DecodeBlock(i);
        case FlushEx => s := FlushExBlock(i);
        case FlushWb => s := FlushWbBlock(i);
        case XretJump => s := XretBlock(i);
        case DbgTakenId => s := DebugBlock(i);
        case DbgTakenIf => s := DebugBlock(i);
        case DbgFlush => s := DebugBlock(i);
        case DbgWaitBranch => s := DebugBlock(i);
        case _ => s := BootBlock(i);
      }
    }

    /** One clock edge. */
    method Clock(i: Inputs) returns (s: Signals)
      modifies this
      ensures s == Driven(old(Now()), old(id), i)
      ensures Now() == Latched(old(Now()), s, i) && id == NextId(old(id), s, i)
    {
      s := Drive(i);
      Latch(i, s);
      Update(i, s);
    }

    method Update(i: Inputs, s: Signals)
      modifies this
      ensures Now() == Latched(old(Now()), s, i) && id == old(id)
    {
      debugFsm := NextDebugState(debugFsm, s.debugMode, s.ns);
      debugReqQ := i.debugReq || (debugReqQ && !debugModeQ);
      UpdateFlags(s, i.idReady);
    }

    method UpdateFlags(s: Signals, idReady: bool)
      modifies this
      ensures ctrlFsm == s.ns && jumpDoneQ == (s.jumpDone && !idReady) && debugModeQ == s.debugMode
      ensures illegalInsnQ == s.illegal && debugReqEntryQ == s.reqEntry && debugForceWakeupQ == s.wakeup
      ensures debugReqQ == old(debugReqQ) && debugFsm == old(debugFsm) && id == old(id)
    {
      ctrlFsm, jumpDoneQ, debugModeQ, illegalInsnQ := s.ns, s.jumpDone && !idReady, s.debugMode, s.illegal;
      debugReqEntryQ, debugForceWakeupQ := s.reqEntry, s.wakeup;
    }

    /** The IF/ID register. */
    method Latch(i: Inputs, s: Signals)
      modifies this`id
      ensures id == NextId(old(id), s, i)
    {
      if i.idReady && !s.haltIf && i.fetched {
        id := Id(true, i.next, i.nextTrigger);
      } else if i.idReady || s.haltId || i.branchTaken {
        id := id.(valid := false);
      }
    }
  }

  // Runs.

  const RESET_REGS := Regs(Reset, false, false, false, false, false, false, HaveReset)

  /** A moment in a run. jumps counts the jump redirects made for the instruction in ID
      since it entered; settings are those of the cycle before. */
  datatype Moment = Moment(r: Regs, id: Id, jumps: nat, settings: Settings)

  function Step(m: Moment, i: Inputs): (m': Moment)
  {
    var s := Driven(m.r, m.id, i);
    Moment(Latched(m.r, s, i), NextId(m.id, s, i), if Enters(s, i) then 0 else JumpsNow(m, i), i.settings)
  }

  /** The jump redirects made for the instruction in ID, this cycle included. */
  function JumpsNow(m: Moment, i: Inputs): (n: nat)
  {
    m.jumps + if RedirectOf(m.r, m.id, i) == ToJump then 1 else 0
  }

  function Run(m: Moment, trace: seq<Inputs>): (m': Moment)
  {
    if trace == [] then m else Step(Run(m, trace[..|trace| - 1]), trace[|trace| - 1])
  }

  /** After reset, with any settings. */
  predicate Initial(m: Moment)
  {
    m.r == RESET_REGS && m.id == Id(false, Plain, false) && m.jumps == 0
  }

  /** What the stages around guarantee: a jump register stall keeps ID from being
      ready, and the debug settings and the privilege level do not change while debug
      mode is being entered from the instruction in ID. */
  predicate Allowed(m: Moment, i: Inputs)
  {
    && (i.jrStall ==> !i.idReady)
    && (m.r.state == DbgFlush || m.r.state == DbgWaitBranch ==> i.settings == m.settings)
  }

  predicate AllowedRun(m: Moment, trace: seq<Inputs>)
  {
    trace == [] || (AllowedRun(m, trace[..|trace| - 1]) && Allowed(Run(m, trace[..|trace| - 1]), trace[|trace| - 1]))
  }

  // Jumps.

  /** The guard stands exactly when the jump in ID has been taken. */
  predicate JumpInv(m: Moment)
  {
    && m.jumps <= 1
    && (m.jumps == 1 ==> m.id.insn == Jump)
    && (m.r.jumpDone ==> m.jumps == 1)
    && (m.id.valid ==> (m.r.jumpDone <==> m.jumps == 1))
  }

  lemma JumpKept(m: Moment, i: Inputs)
    requires JumpInv(m)
    ensures JumpInv(Step(m, i))
  {}

  lemma {:induction false} JumpAlways(m: Moment, trace: seq<Inputs>)
    requires Initial(m)
    ensures AllowedRun(m, trace) ==> JumpInv(Run(m, trace))
  {
    if trace != [] && AllowedRun(m, trace) {
      JumpAlways(m, trace[..|trace| - 1]);
      JumpKept(Run(m, trace[..|trace| - 1]), trace[|trace| - 1]);
    }
  }

  /** In every run, a jump has redirected the fetch exactly once when it is decoded for
      the last time and leaves ID, and never more than once, however long it stalls;
      what is not a jump never makes a jump redirect. */
  lemma JumpRedirectsOnce(m: Moment, trace: seq<Inputs>, i: Inputs)
    requires Initial(m)
    ensures AllowedRun(m, trace + [i]) ==>
      var now := Run(m, trace);
      && (now.id.valid ==> JumpsNow(now, i) <= 1)
      && (Decoding(now.r, now.id, i) && i.idReady ==> JumpsNow(now, i) == if now.id.insn == Jump then 1 else 0)
  {
    assert (trace + [i])[..|trace|] == trace;
    if AllowedRun(m, trace + [i]) {
      JumpAlways(m, trace);
    }
  }

  // Exceptions and returns.

  /** What a run shows outside: the causes saved and the redirects made, in order. */
  datatype Event = Saved(cause: Save) | Redirected(to: Redirect)

  function EventsOf(s: Signals): (e: seq<Event>)
  {
    (if s.save == NoSave then [] else [Saved(s.save)]) + if s.redirect == Stay then [] else [Redirected(s.redirect)]
  }

  function Events(m: Moment, trace: seq<Inputs>): (e: seq<Event>)
  {
    if trace == [] then []
    else
      var now := Run(m, trace[..|trace| - 1]);
      Events(m, trace[..|trace| - 1]) + EventsOf(Driven(now.r, now.id, trace[|trace| - 1]))
  }

  /** No entry into debug mode is under way. */
  predicate NothingNoted(m: Moment)
  {
    !m.r.debugReqEntry && !m.r.forceWakeup
  }

  lemma TidyKept(m: Moment, i: Inputs)
    requires m.r.debugReqEntry ==> m.r.state == DbgFlush || m.r.state == DbgTakenId
    requires m.r.forceWakeup ==> m.r.state == DbgTakenIf
    ensures Step(m, i).r.debugReqEntry ==> Step(m, i).r.state == DbgFlush || Step(m, i).r.state == DbgTakenId
    ensures Step(m, i).r.forceWakeup ==> Step(m, i).r.state == DbgTakenIf && Pending(m.r, i)
  {}

  /** In every run, an entry is only noted while it is under way, and a wake-up only for
      a request. */
  lemma {:induction false} NotedOnlyOnEntry(m: Moment, trace: seq<Inputs>)
    requires Initial(m)
    ensures Run(m, trace).r.debugReqEntry ==> Run(m, trace).r.state == DbgFlush || Run(m, trace).r.state == DbgTakenId
    ensures Run(m, trace).r.forceWakeup ==> Run(m, trace).r.state == DbgTakenIf
  {
    if trace != [] {
      NotedOnlyOnEntry(m, trace[..|trace| - 1]);
      TidyKept(Run(m, trace[..|trace| - 1]), trace[|trace| - 1]);
    }
  }

  /** The instruction that empties the pipeline is in ID, or is being seen through. A
      debug request noted earlier matters only before it is decoded. */
  predicate Carrying(m: Moment, s: State, insn: Insn, debugMode: bool)
  {
    && m.r.state == s && m.id.insn == insn && m.r.debugMode == debugMode && NothingNoted(m)
    && (s != Decode ==> (m.r.illegal <==> insn == Illegal))
    && (s == Decode ==> m.id.valid && !m.id.trigger && (debugMode || !m.r.debugReq))
  }

  /** The instructions that leave by way of FLUSH_EX. An ebreak does unless it is one
      for the debugger. */
  predicate Trapping(insn: Insn, debugMode: bool)
  {
    || insn == Illegal || insn == Ecall || (insn == Ebreak && !debugMode) || insn == Mret || insn == Uret || insn == Dret
    || insn == Fencei || insn == CsrStatus
  }

  /** A cycle in which the instruction in ID is decoded: no branch is taken in EX, the
      debugger does not come first, and an ebreak is not one for the debugger. */
  predicate Decodes(i: Inputs, insn: Insn, debugMode: bool)
  {
    !i.branchTaken && (debugMode || !i.debugReq) && (insn == Ebreak ==> !EbreakForced(i))
  }

  /** The instructions that a single step takes straight to debug mode. */
  predicate StepsAside(insn: Insn)
  {
    insn == Fencei || insn == CsrStatus || insn == Dret || insn == Plain || insn == Wfi
  }

  /** A cycle in which it leaves ID for FLUSH_EX. */
  predicate Leaves(i: Inputs, insn: Insn, debugMode: bool)
  {
    Decodes(i, insn, debugMode) && i.idReady && (StepsAside(insn) ==> debugMode || !i.settings.singleStep)
  }

  /** These, and the wait that puts the core to sleep. */
  predicate Emptying(insn: Insn, debugMode: bool)
  {
    Trapping(insn, debugMode) || (insn == Wfi && !debugMode)
  }

  predicate Held(trace: seq<Inputs>, insn: Insn, debugMode: bool)
  {
    forall k :: 0 <= k < |trace| ==> Decodes(trace[k], insn, debugMode) && !trace[k].idReady
  }

  predicate Waiting(trace: seq<Inputs>)
  {
    forall k :: 0 <= k < |trace| ==> !trace[k].exValid
  }

  lemma DecodeHolds(m: Moment, i: Inputs, insn: Insn, debugMode: bool)
    requires Carrying(m, Decode, insn, debugMode) && Emptying(insn, debugMode)
    requires if i.idReady then Leaves(i, insn, debugMode) else Decodes(i, insn, debugMode)
    ensures EventsOf(Driven(m.r, m.id, i)) == []
    ensures Carrying(Step(m, i), if i.idReady then FlushEx else Decode, insn, debugMode)
  {}

  lemma FlushExHolds(m: Moment, i: Inputs, insn: Insn, debugMode: bool)
    requires Carrying(m, FlushEx, insn, debugMode) && !i.exValid
    ensures EventsOf(Driven(m.r, m.id, i)) == [] && Carrying(Step(m, i), FlushEx, insn, debugMode)
  {}

  /** The cause saved for an instruction, if any. */
  function CauseOf(insn: Insn, debugMode: bool, user: bool): (s: Save)
  {
    if debugMode && insn != Ebreak then NoSave
    else
      match insn
      case Illegal => IllegalInsn
      case Ebreak => Breakpoint
      case Ecall => if user then EcallUser else EcallMachine
      case _ => NoSave
  }

  function SavedEvents(s: Save): (e: seq<Event>)
  {
    if s == NoSave then [] else [Saved(s)]
  }

  lemma FlushExEnds(m: Moment, i: Inputs, insn: Insn, debugMode: bool)
    requires Carrying(m, FlushEx, insn, debugMode) && i.exValid
    ensures EventsOf(Driven(m.r, m.id, i)) == SavedEvents(CauseOf(insn, debugMode, i.settings.user))
    ensures Carrying(Step(m, i), FlushWb, insn, debugMode)
  {}

  /** Where the instruction finally sends the fetch. */
  function TargetOf(insn: Insn, debugMode: bool): (d: Redirect)
  {
    match insn
    case Fencei => PastFence
    case CsrStatus => Stay
    case Dret => ToDret
    case Mret => if debugMode then ToDebugTrap else ToMret
    case Uret => if debugMode then ToDebugTrap else ToUret
    case Ebreak => ToTrap
    case _ => if debugMode then ToDebugTrap else ToTrap
  }

  predicate Returns(insn: Insn)
  {
    insn == Mret || insn == Uret || insn == Dret
  }

  function RedirectEvents(d: Redirect): (e: seq<Event>)
  {
    if d == Stay then [] else [Redirected(d)]
  }

  /** Where the controller goes on: a single step outside debug mode ends here, except
      behind a fence or an access to a status register. */
  function Onward(insn: Insn, debugMode: bool, i: Inputs): (s: State)
  {
    if insn != Fencei && insn != CsrStatus && i.settings.singleStep && !debugMode then DbgTakenIf else Decode
  }

  /** A return from debug mode leaves it. */
  predicate ModeBehind(insn: Insn, debugMode: bool)
  {
    debugMode && insn != Dret
  }

  /** The instruction has been seen through, with nothing left over. */
  predicate Restarted(m: Moment, s: State, debugMode: bool)
  {
    m.r.state == s && m.r.debugMode == debugMode && !m.r.illegal && NothingNoted(m)
  }

  lemma FlushWbEnds(m: Moment, i: Inputs, insn: Insn, debugMode: bool)
    requires Carrying(m, FlushWb, insn, debugMode) && Trapping(insn, debugMode)
    ensures EventsOf(Driven(m.r, m.id, i)) == if Returns(insn) then [] else RedirectEvents(TargetOf(insn, debugMode))
    ensures !Step(m, i).id.valid
    ensures if Returns(insn) then Carrying(Step(m, i), XretJump, insn, debugMode)
            else Restarted(Step(m, i), Onward(insn, debugMode, i), ModeBehind(insn, debugMode))
  {}

  lemma XretEnds(m: Moment, i: Inputs, insn: Insn, debugMode: bool)
    requires Carrying(m, XretJump, insn, debugMode) && Returns(insn)
    ensures EventsOf(Driven(m.r, m.id, i)) == RedirectEvents(TargetOf(insn, debugMode))
    ensures Restarted(Step(m, i), Onward(insn, debugMode, i), ModeBehind(insn, debugMode))
  {}

  lemma Snoc(m: Moment, trace: seq<Inputs>, i: Inputs)
    ensures Run(m, trace + [i]) == Step(Run(m, trace), i)
    ensures Events(m, trace + [i]) == Events(m, trace) + EventsOf(Driven(Run(m, trace).r, Run(m, trace).id, i))
  {
    assert (trace + [i])[..|trace|] == trace;
  }

  /** However long ID stalls, nothing happens outside. */
  lemma {:induction false} HeldInDecode(m: Moment, trace: seq<Inputs>, insn: Insn, debugMode: bool)
    requires Carrying(m, Decode, insn, debugMode) && Emptying(insn, debugMode) && Held(trace, insn, debugMode)
    ensures Carrying(Run(m, trace), Decode, insn, debugMode) && Events(m, trace) == []
  {
    if trace != [] {
      var init := trace[..|trace| - 1];
      HeldInDecode(m, init, insn, debugMode);
      DecodeHolds(Run(m, init), trace[|trace| - 1], insn, debugMode);
    }
  }

  /** However long EX takes, nothing happens outside. */
  lemma {:induction false} WaitsInFlushEx(m: Moment, trace: seq<Inputs>, insn: Insn, debugMode: bool)
    requires Carrying(m, FlushEx, insn, debugMode) && Waiting(trace)
    ensures Carrying(Run(m, trace), FlushEx, insn, debugMode) && Events(m, trace) == []
  {
    if trace != [] {
      var init := trace[..|trace| - 1];
      WaitsInFlushEx(m, init, insn, debugMode);
      FlushExHolds(Run(m, init), trace[|trace| - 1], insn, debugMode);
    }
  }

  lemma SplitLast(s: seq<Inputs>, t: seq<Inputs>, init: seq<Inputs>, last: Inputs)
    requires t == init + [last]
    ensures s + t == (s + init) + [last]
  {}

  lemma JoinEvents(a: seq<Event>, b: seq<Event>, c: seq<Event>)
    ensures (a + b) + c == a + (b + c)
  {}

  lemma {:induction false} Concat(m: Moment, s: seq<Inputs>, t: seq<Inputs>)
    ensures Run(m, s + t) == Run(Run(m, s), t) && Events(m, s + t) == Events(m, s) + Events(Run(m, s), t)
    decreases |t|
  {
    if t == [] {
      ConcatNothing(m, s);
    } else {
      var init, last := t[..|t| - 1], t[|t| - 1];
      assert t == init + [last];
      Concat(m, s, init);
      ConcatLast(m, s, init, last, t);
    }
  }

  lemma ConcatNothing(m: Moment, s: seq<Inputs>)
    ensures Run(m, s + []) == Run(Run(m, s), []) && Events(m, s + []) == Events(m, s) + Events(Run(m, s), [])
  {
    assert s + [] == s;
  }

  lemma ConcatLast(m: Moment, s: seq<Inputs>, init: seq<Inputs>, last: Inputs, t: seq<Inputs>)
    requires t == init + [last]
    requires Run(m, s + init) == Run(Run(m, s), init) && Events(m, s + init) == Events(m, s) + Events(Run(m, s), init)
    ensures Run(m, s + t) == Run(Run(m, s), t) && Events(m, s + t) == Events(m, s) + Events(Run(m, s), t)
  {
    var m1, m2 := Run(m, s), Run(m, s + init);
    Snoc(m, s + init, last);
    Snoc(m1, init, last);
    SplitLast(s, t, init, last);
    JoinEvents(Events(m, s), Events(m1, init), EventsOf(Driven(m2.r, m2.id, last)));
  }

  /** From DECODE into FLUSH_EX, and out of it. */
  lemma UntilSaved(m: Moment, stall: seq<Inputs>, leave: Inputs, wait: seq<Inputs>, ready: Inputs, insn: Insn, debugMode: bool)
    requires Carrying(m, Decode, insn, debugMode) && Emptying(insn, debugMode)
    requires Held(stall, insn, debugMode) && Leaves(leave, insn, debugMode) && Waiting(wait) && ready.exValid
    ensures
      var trace := stall + [leave] + (wait + [ready]);
      && Carrying(Run(m, trace), FlushWb, insn, debugMode)
      && Events(m, trace) == SavedEvents(CauseOf(insn, debugMode, ready.settings.user))
  {
    var m1 := Run(m, stall + [leave]);
    HeldInDecode(m, stall, insn, debugMode);
    DecodeHolds(Run(m, stall), leave, insn, debugMode);
    Snoc(m, stall, leave);
    WaitsInFlushEx(m1, wait, insn, debugMode);
    FlushExEnds(Run(m1, wait), ready, insn, debugMode);
    Snoc(m1, wait, ready);
    Concat(m, stall + [leave], wait + [ready]);
  }

  lemma AfterSaved(m: Moment, flush: Inputs, ret: Inputs, insn: Insn, debugMode: bool)
    requires Carrying(m, FlushWb, insn, debugMode) && Trapping(insn, debugMode)
    ensures
      var trace := [flush] + if Returns(insn) then [ret] else [];
      && Events(m, trace) == RedirectEvents(TargetOf(insn, debugMode))
      && Restarted(Run(m, trace), Onward(insn, debugMode, if Returns(insn) then ret else flush), ModeBehind(insn, debugMode))
  {
    FlushWbEnds(m, flush, insn, debugMode);
    Snoc(m, [], flush);
    assert [] + [flush] == [flush];
    if Returns(insn) {
      XretEnds(Run(m, [flush]), ret, insn, debugMode);
      Snoc(m, [flush], ret);
    } else {
      assert [flush] + [] == [flush];
    }
  }

  /** An illegal instruction, an environment call or a breakpoint saves its cause
      exactly once and then redirects the fetch exactly once, to the exception handler,
      for any time in ID and any delay of EX; in debug mode it saves none and goes to
      the debug exception handler. A return or a fence only redirects, once, a return from
      debug mode leaves it, and an access to a status register does neither. Once it is
      out of ID, no debug request, branch or setting changes that. Afterwards the
      controller is back in DECODE, or enters debug mode when single stepping. */
  lemma TrapSequence(m: Moment, stall: seq<Inputs>, leave: Inputs, wait: seq<Inputs>, ready: Inputs, flush: Inputs, ret: Inputs,
                     insn: Insn, debugMode: bool)
    requires Carrying(m, Decode, insn, debugMode) && Trapping(insn, debugMode)
    requires Held(stall, insn, debugMode) && Leaves(leave, insn, debugMode) && Waiting(wait) && ready.exValid
    ensures
      var trace := stall + [leave] + (wait + [ready]) + ([flush] + if Returns(insn) then [ret] else []);
      && Events(m, trace) == SavedEvents(CauseOf(insn, debugMode, ready.settings.user)) + RedirectEvents(TargetOf(insn, debugMode))
      && Restarted(Run(m, trace), Onward(insn, debugMode, if Returns(insn) then ret else flush), ModeBehind(insn, debugMode))
  {
    UntilSaved(m, stall, leave, wait, ready, insn, debugMode);
    AfterSaved(Run(m, stall + [leave] + (wait + [ready])), flush, ret, insn, debugMode);
    Concat(m, stall + [leave] + (wait + [ready]), [flush] + if Returns(insn) then [ret] else []);
  }

  lemma OneCycle(m: Moment, i: Inputs)
    ensures Run(m, [i]) == Step(m, i) && Events(m, [i]) == EventsOf(Driven(m.r, m.id, i))
  {
    Snoc(m, [], i);
    assert [] + [i] == [i];
  }

  lemma TwoCycles(m: Moment, i: Inputs, i1: Inputs)
    ensures Run(m, [i, i1]) == Step(Step(m, i), i1)
    ensures Events(m, [i, i1]) == EventsOf(Driven(m.r, m.id, i)) + EventsOf(Driven(Step(m, i).r, Step(m, i).id, i1))
  {
    OneCycle(m, i);
    Snoc(m, [i], i1);
    assert [i] + [i1] == [i, i1];
  }

  lemma AnotherCycle(m: Moment, trace: seq<Inputs>, i: Inputs, now: Moment, e: seq<Event>)
    requires Run(m, trace) == now && Events(m, trace) == [] && EventsOf(Driven(now.r, now.id, i)) == e
    ensures Run(m, trace + [i]) == Step(now, i) && Events(m, trace + [i]) == e
  {
    Snoc(m, trace, i);
  }

  /** Three cycles of a run, the first two without an event. */
  lemma ThreeCycles(m: Moment, i: Inputs, i1: Inputs, i2: Inputs, e: seq<Event>)
    requires
      var m1, m2 := Step(m, i), Step(Step(m, i), i1);
      && EventsOf(Driven(m.r, m.id, i)) == [] && EventsOf(Driven(m1.r, m1.id, i1)) == []
      && EventsOf(Driven(m2.r, m2.id, i2)) == e
    ensures Run(m, [i]) == Step(m, i) && Run(m, [i, i1]) == Step(Step(m, i), i1)
    ensures Run(m, [i, i1, i2]) == Step(Step(Step(m, i), i1), i2)
    ensures Events(m, [i]) == [] && Events(m, [i, i1]) == [] && Events(m, [i, i1, i2]) == e
  {
    var m1, m2 := Step(m, i), Step(Step(m, i), i1);
    OneCycle(m, i);
    AnotherCycle(m, [i], i1, m1, []);
    assert [i] + [i1] == [i, i1];
    AnotherCycle(m, [i, i1], i2, m2, e);
    assert [i, i1] + [i2] == [i, i1, i2];
  }

  /** On the way to debug mode without a request: the instruction in ID, if there was a
      reason for one, is not the reason. */
  predicate Stepped(m: Moment, s: State, insn: Insn)
  {
    Restarted(m, s, false) && m.id.insn == insn && !m.id.trigger
  }

  lemma SteppedLeaves(m: Moment, i: Inputs, insn: Insn)
    requires Carrying(m, Decode, insn, false) && StepsAside(insn) && Decodes(i, insn, false) && i.idReady && i.settings.singleStep
    ensures EventsOf(Driven(m.r, m.id, i)) == [] && Stepped(Step(m, i), DbgFlush, insn)
  {}

  lemma StepFlushes(m: Moment, i: Inputs, insn: Insn)
    requires Stepped(m, DbgFlush, insn) && insn != Ebreak
    ensures EventsOf(Driven(m.r, m.id, i)) == [] && Restarted(Step(m, i), DbgTakenIf, false)
  {}

  lemma StepTaken(m: Moment, i: Inputs)
    requires Restarted(m, DbgTakenIf, false) && i.settings.singleStep
    ensures EventsOf(Driven(m.r, m.id, i)) == [Saved(DebugStep), Redirected(ToDebug)] && Restarted(Step(m, i), Decode, true)
  {}

  /** An ordinary instruction, a wait, a fence, an access to a status register or a dret
      that is single-stepped enters debug mode once it leaves ID, with one cause saved
      and one redirect; its own redirect, if any, is not made. */
  lemma SteppedAside(m: Moment, i: Inputs, i1: Inputs, i2: Inputs, insn: Insn)
    requires Carrying(m, Decode, insn, false) && StepsAside(insn) && Decodes(i, insn, false) && i.idReady
    requires i.settings.singleStep && i2.settings.singleStep
    ensures Events(m, [i, i1, i2]) == [Saved(DebugStep), Redirected(ToDebug)] && Restarted(Run(m, [i, i1, i2]), Decode, true)
  {
    SteppedLeaves(m, i, insn);
    StepFlushes(Step(m, i), i1, insn);
    StepTaken(Step(Step(m, i), i1), i2);
    ThreeCycles(m, i, i1, i2, [Saved(DebugStep), Redirected(ToDebug)]);
  }

  // Starting, flowing and sleeping.

  /** Ordinary instructions, jumps and branches, and waits that do not put the core to
      sleep, hold nothing up: outside a single step the next instruction follows. */
  lemma Flows(m: Moment, i: Inputs, insn: Insn, debugMode: bool)
    requires Carrying(m, Decode, insn, debugMode) && Decodes(i, insn, debugMode) && (debugMode || !i.settings.singleStep)
    requires insn == Plain || insn == Branch || insn == Jump || (insn == Wfi && debugMode)
    ensures EventsOf(Driven(m.r, m.id, i)) ==
      if insn == Jump && !i.jrStall && !m.r.jumpDone then [Redirected(ToJump)] else []
    ensures
      var m' := Step(m, i);
      && m'.r.state == Decode && m'.r.debugMode == debugMode
      && m'.id == if i.idReady && i.fetched then Id(true, i.next, i.nextTrigger) else Id(!i.idReady, insn, false)
  {}

  /** What becomes of the IF/ID register outside DECODE: while the pipeline is emptied
      or the core sleeps, nothing enters and nothing stays valid; behind a stepped branch
      nothing enters; otherwise what is fetched enters as soon as ID is ready. */
  lemma IdOutsideDecode(m: Moment, i: Inputs)
    requires m.r.state != Decode
    ensures
      var cleared := m.id.(valid := false);
      Step(m, i).id ==
        if m.r.state in {FlushEx, FlushWb, DbgFlush, WaitSleep, Sleep} then cleared
        else if m.r.state != DbgWaitBranch && i.idReady && i.fetched then Id(true, i.next, i.nextTrigger)
        else if i.idReady || i.branchTaken then cleared
        else m.id
  {}

  /** A taken branch in EX redirects the fetch, and what is in ID goes, whatever it is. */
  lemma BranchRedirects(m: Moment, i: Inputs)
    requires m.r.state == Decode && i.branchTaken
    ensures EventsOf(Driven(m.r, m.id, i)) == [Redirected(ToBranch)]
    ensures
      var m' := Step(m, i);
      && m'.r.state == Decode && m'.r.debugMode == m.r.debugMode
      && (m'.id.valid ==> i.idReady && i.fetched && m'.id == Id(true, i.next, i.nextTrigger))
  {}

  predicate BranchCycle(m: Moment, i: Inputs)
  {
    (m.r.state == Decode || m.r.state == DbgWaitBranch) && i.branchTaken
  }

  /** The cycles of a run in which a branch is taken. */
  function BranchCycles(m: Moment, trace: seq<Inputs>): (n: nat)
  {
    if trace == [] then 0
    else
      BranchCycles(m, trace[..|trace| - 1]) + if BranchCycle(Run(m, trace[..|trace| - 1]), trace[|trace| - 1]) then 1 else 0
  }

  lemma BranchStep(m: Moment, i: Inputs)
    ensures |EventsOf(Driven(m.r, m.id, i))| <= 2
    ensures |EventsOf(Driven(m.r, m.id, i))| == 2 ==>
      EventsOf(Driven(m.r, m.id, i))[0] != EventsOf(Driven(m.r, m.id, i))[1]
    ensures Redirected(ToBranch) in EventsOf(Driven(m.r, m.id, i)) <==> BranchCycle(m, i)
  {}

  /** In every run, the fetch is redirected to a branch target exactly as often as a
      branch is taken. */
  lemma {:induction false} BranchesTold(m: Moment, trace: seq<Inputs>)
    ensures CountOf(Events(m, trace), Redirected(ToBranch)) == BranchCycles(m, trace)
  {
    if trace != [] {
      var init, i := trace[..|trace| - 1], trace[|trace| - 1];
      var now := Run(m, init);
      BranchesTold(m, init);
      BranchStep(now, i);
      CountFew(EventsOf(Driven(now.r, now.id, i)), Redirected(ToBranch));
      CountConcat(Events(m, init), EventsOf(Driven(now.r, now.id, i)), Redirected(ToBranch));
    }
  }

  /** Before the fetch is enabled. */
  predicate Unbooted(m: Moment)
  {
    m.r.state == Reset || m.r.state == BootSet
  }

  lemma BootStep(m: Moment, i: Inputs)
    ensures m.r.state == BootSet ==> EventsOf(Driven(m.r, m.id, i)) == [Redirected(ToBoot)] && !Unbooted(Step(m, i))
    ensures m.r.state == Reset ==>
      EventsOf(Driven(m.r, m.id, i)) == [] && Step(m, i).r.state == if i.fetchEnable then BootSet else Reset
    ensures !Unbooted(m) ==> Redirected(ToBoot) !in EventsOf(Driven(m.r, m.id, i)) && !Unbooted(Step(m, i))
  {}

  /** A request pending at boot enters debug mode before the first instruction. */
  lemma BootsIntoDebug(m: Moment, i: Inputs, i1: Inputs)
    requires m.r.state == BootSet && !m.r.debugMode && (i.debugReq || m.r.debugReq)
    ensures Events(m, [i, i1]) == [Redirected(ToBoot), Saved(DebugWoken), Redirected(ToDebug)]
    ensures Run(m, [i, i1]).r.state == Decode && Run(m, [i, i1]).r.debugMode
  {
    TwoCycles(m, i, i1);
    WokenAtBoot(m, i);
    WokenEnters(Step(m, i), i1);
  }

  lemma WokenAtBoot(m: Moment, i: Inputs)
    requires m.r.state == BootSet && !m.r.debugMode && (i.debugReq || m.r.debugReq)
    ensures EventsOf(Driven(m.r, m.id, i)) == [Redirected(ToBoot)]
    ensures Step(m, i).r.state == DbgTakenIf && Step(m, i).r.forceWakeup
  {}

  lemma WokenEnters(m: Moment, i: Inputs)
    requires m.r.state == DbgTakenIf && m.r.forceWakeup
    ensures EventsOf(Driven(m.r, m.id, i)) == [Saved(DebugWoken), Redirected(ToDebug)]
    ensures Step(m, i).r.state == Decode && Step(m, i).r.debugMode
  {}

  /** Nothing before the boot redirect, and no other one behind it. */
  predicate Booted(unbooted: bool, events: seq<Event>)
  {
    if unbooted then events == []
    else events != [] && events[0] == Redirected(ToBoot) && Redirected(ToBoot) !in events[1..]
  }

  lemma BootedOn(before: bool, events: seq<Event>, told: seq<Event>, after: bool)
    requires Booted(before, events)
    requires before ==> told == if after then [] else [Redirected(ToBoot)]
    requires !before ==> !after && Redirected(ToBoot) !in told
    ensures Booted(after, events + told)
  {
    if before {
      assert events + told == told;
    } else {
      assert (events + told)[1..] == events[1..] + told;
    }
  }

  lemma BootTold(m: Moment, i: Inputs)
    ensures
      var e := EventsOf(Driven(m.r, m.id, i));
      && (Unbooted(m) ==> e == if Unbooted(Step(m, i)) then [] else [Redirected(ToBoot)])
      && (!Unbooted(m) ==> !Unbooted(Step(m, i)) && Redirected(ToBoot) !in e)
  {
    BootStep(m, i);
  }

  /** After reset, nothing happens until the fetch is enabled; then the first event is
      the redirect to the boot address, and there is no other one. */
  lemma {:induction false} BootsOnce(m: Moment, trace: seq<Inputs>)
    requires Initial(m)
    ensures Booted(Unbooted(Run(m, trace)), Events(m, trace))
  {
    if trace != [] {
      var init, i := trace[..|trace| - 1], trace[|trace| - 1];
      var now := Run(m, init);
      BootsOnce(m, init);
      BootTold(now, i);
      BootedOn(Unbooted(now), Events(m, init), EventsOf(Driven(now.r, now.id, i)), Unbooted(Step(now, i)));
    }
  }

  lemma ResetStep(m: Moment, i: Inputs)
    ensures Step(m, i).r.state == Reset <==> m.r.state == Reset && !i.fetchEnable
  {}

  predicate NeverEnabled(trace: seq<Inputs>)
  {
    forall k :: 0 <= k < |trace| ==> !trace[k].fetchEnable
  }

  lemma NeverEnabledNext(trace: seq<Inputs>)
    requires trace != []
    ensures NeverEnabled(trace) <==> NeverEnabled(trace[..|trace| - 1]) && !trace[|trace| - 1].fetchEnable
  {}

  /** It is waited for exactly as long as the fetch is not enabled. */
  lemma {:induction false} ResetUntilEnabled(m: Moment, trace: seq<Inputs>)
    requires Initial(m)
    ensures Run(m, trace).r.state == Reset <==> NeverEnabled(trace)
  {
    if trace != [] {
      ResetUntilEnabled(m, trace[..|trace| - 1]);
      ResetStep(Run(m, trace[..|trace| - 1]), trace[|trace| - 1]);
      NeverEnabledNext(trace);
    }
  }

  /** The sleep after a wait: no wake-up event yet. */
  predicate Asleep(trace: seq<Inputs>)
  {
    forall k :: 0 <= k < |trace| ==> !trace[k].irqWake && !trace[k].debugReq
  }

  /** At rest, outside debug mode and with no request noted. */
  predicate Resting(m: Moment, s: State)
  {
    m.r.state == s && !m.r.debugMode && !m.r.debugReq && !m.id.valid
  }

  lemma WaitFlushed(m: Moment, i: Inputs)
    requires Carrying(m, FlushWb, Wfi, false)
    ensures EventsOf(Driven(m.r, m.id, i)) == [] && !Step(m, i).id.valid
    ensures Step(m, i).r.state == if i.debugReq || m.r.debugReq then DbgTakenIf else WaitSleep
    ensures !Step(m, i).r.debugMode && Step(m, i).r.debugReq == (i.debugReq || m.r.debugReq)
  {}

  lemma SleepStep(m: Moment, i: Inputs)
    requires Resting(m, WaitSleep) || Resting(m, Sleep)
    ensures EventsOf(Driven(m.r, m.id, i)) == []
    ensures !Step(m, i).id.valid && !Step(m, i).r.debugMode && Step(m, i).r.debugReq == i.debugReq
    ensures Step(m, i).r.state ==
      if m.r.state == WaitSleep || (!i.irqWake && !i.debugReq) then Sleep else if i.debugReq then DbgTakenIf else FirstFetch
  {}

  lemma {:induction false} StaysAsleep(m: Moment, trace: seq<Inputs>)
    requires Resting(m, Sleep) && Asleep(trace)
    ensures Resting(Run(m, trace), Sleep) && Events(m, trace) == []
  {
    if trace != [] {
      var init := trace[..|trace| - 1];
      StaysAsleep(m, init);
      SleepStep(Run(m, init), trace[|trace| - 1]);
    }
  }

  lemma WakesTo(m: Moment, i: Inputs, i1: Inputs)
    requires Resting(m, Sleep) && (i.irqWake || i.debugReq)
    ensures EventsOf(Driven(m.r, m.id, i)) == [] && Step(Step(m, i), i1).r.state == Decode
    ensures
      var m1 := Step(m, i);
      && EventsOf(Driven(m1.r, m1.id, i1)) == (if i.debugReq then [Saved(DebugWoken), Redirected(ToDebug)] else [])
      && Step(m1, i1).r.debugMode == i.debugReq
  {
    SleepStep(m, i);
  }

  /** A wait puts the core to sleep, without an event, until it is woken: by a request
      into debug mode, otherwise back to DECODE without a redirect. */
  lemma WaitSleeps(m: Moment, flush: Inputs, asleep: Inputs, trace: seq<Inputs>, wake: Inputs, next: Inputs)
    requires Carrying(m, FlushWb, Wfi, false) && !m.r.debugReq && !flush.debugReq && !asleep.debugReq
    requires Asleep(trace) && (wake.irqWake || wake.debugReq)
    ensures
      var run := [flush, asleep] + trace;
      Events(m, run) == [] && Run(m, run).r.state == Sleep
    ensures
      var run := [flush, asleep] + trace + [wake, next];
      && Events(m, run) == (if wake.debugReq then [Saved(DebugWoken), Redirected(ToDebug)] else [])
      && Run(m, run).r.state == Decode && Run(m, run).r.debugMode == wake.debugReq
  {
    TwoCycles(m, flush, asleep);
    WaitFlushed(m, flush);
    SleepStep(Step(m, flush), asleep);
    var m2 := Run(m, [flush, asleep]);
    StaysAsleep(m2, trace);
    Concat(m, [flush, asleep], trace);
    var m3 := Run(m2, trace);
    WakesTo(m3, wake, next);
    TwoCycles(m3, wake, next);
    Concat(m, [flush, asleep] + trace, [wake, next]);
  }

  // Debug mode.

  /** Why debug mode is being entered, as far as the registers and the instruction in
      ID still show it. */
  predicate DebugReason(m: Moment)
  {
    || m.r.debugMode || m.id.trigger || m.r.debugReqEntry
    || (m.id.insn == Ebreak && ((m.settings.ebreakm && !m.settings.user) || (m.settings.ebreaku && m.settings.user)))
    || m.settings.singleStep
  }

  predicate DebugInv(m: Moment)
  {
    && (m.r.debugState == Halted <==> m.r.debugMode)
    && (m.r.debugState == HaveReset ==> m.r.state in {Reset, BootSet, DbgTakenIf})
    && (m.r.state == DbgTakenIf ==> m.r.debugState == HaveReset || m.r.forceWakeup || m.settings.singleStep)
    && (m.r.state == DbgFlush ==> DebugReason(m))
    && (m.r.state == DbgWaitBranch ==> m.settings.singleStep && !m.r.debugMode)
  }

  lemma DebugKept(m: Moment, i: Inputs)
    requires DebugInv(m) && Allowed(m, i)
    ensures DebugInv(Step(m, i))
  {}

  lemma {:induction false} DebugAlways(m: Moment, trace: seq<Inputs>)
    requires Initial(m)
    ensures AllowedRun(m, trace) ==> DebugInv(Run(m, trace))
  {
    if trace != [] && AllowedRun(m, trace) {
      DebugAlways(m, trace[..|trace| - 1]);
      DebugKept(Run(m, trace[..|trace| - 1]), trace[|trace| - 1]);
    }
  }

  /** DBG_TAKEN_IF is only entered when single stepping outside debug mode or when
      woken by a request; DBG_FLUSH lasts one cycle and leads to DBG_TAKEN_IF only when
      single stepping; the halted output is the debug mode register; and once
      instructions are decoded, the core is either running or halted. */
  predicate AssertionsHold(r: Regs, i: Inputs, s: Signals)
  {
    && (s.ns == DbgTakenIf ==> (!r.debugMode && i.settings.singleStep) || s.wakeup)
    && (r.state == DbgFlush ==> s.ns != DbgFlush)
    && (r.state == DbgFlush && s.ns == DbgTakenIf ==> i.settings.singleStep)
    && (r.debugState == Halted <==> r.debugMode)
    && (r.state == Decode ==> r.debugState != HaveReset)
  }

  /** The debug assertions of the source hold in every run. */
  lemma DebugAssertions(m: Moment, trace: seq<Inputs>, i: Inputs)
    requires Initial(m)
    ensures AllowedRun(m, trace + [i]) ==>
      var now := Run(m, trace);
      AssertionsHold(now.r, i, Driven(now.r, now.id, i))
  {
    assert (trace + [i])[..|trace|] == trace;
    if AllowedRun(m, trace + [i]) {
      DebugAlways(m, trace);
      AssertionsFollow(Run(m, trace), i);
    }
  }

  lemma AssertionsFollow(m: Moment, i: Inputs)
    requires DebugInv(m) && Allowed(m, i)
    ensures AssertionsHold(m.r, i, Driven(m.r, m.id, i))
  {}

  /** The instruction that a request or a trigger has put off. */
  predicate PutOff(m: Moment, s: State, id: Id)
  {
    m.r.state == s && m.id == id.(valid := false) && m.r.debugReqEntry && !m.r.debugMode
  }

  lemma DebugFlushes(m: Moment, i: Inputs)
    requires m.r.state == Decode && m.id.valid && !m.r.debugMode && !i.branchTaken
    requires i.debugReq || m.r.debugReq || m.id.trigger
    ensures EventsOf(Driven(m.r, m.id, i)) == [] && PutOff(Step(m, i), DbgFlush, m.id)
  {}

  lemma DebugTakes(m: Moment, i: Inputs, id: Id)
    requires PutOff(m, DbgFlush, id)
    ensures EventsOf(Driven(m.r, m.id, i)) == [] && PutOff(Step(m, i), DbgTakenId, id)
  {}

  /** Why debug mode is entered: a trigger counts before an ebreak, and that before a
      request. */
  function ReasonInId(id: Id, i: Inputs): (s: Save)
  {
    if id.trigger then DebugTrigger else if id.insn == Ebreak && EbreakForced(i) then DebugEbreak else DebugRequest
  }

  lemma DebugEnters(m: Moment, i: Inputs, id: Id)
    requires PutOff(m, DbgTakenId, id)
    ensures EventsOf(Driven(m.r, m.id, i)) == [Saved(ReasonInId(id, i)), Redirected(ToDebug)]
    ensures
      var m' := Step(m, i);
      m'.r.state == Decode && m'.r.debugMode && !m'.r.debugReqEntry
  {}

  /** On a request or a trigger, the instruction in ID is flushed unexecuted and, two
      cycles later, debug mode is entered, whatever else comes in, with the reason and
      the pc in ID saved. */
  lemma RequestEnters(m: Moment, i: Inputs, i1: Inputs, i2: Inputs)
    requires m.r.state == Decode && m.id.valid && !m.r.debugMode && !i.branchTaken
    requires i.debugReq || m.r.debugReq || m.id.trigger
    ensures Events(m, [i]) == [] && Events(m, [i, i1]) == []
    ensures Events(m, [i, i1, i2]) == [Saved(ReasonInId(m.id, i2)), Redirected(ToDebug)]
    ensures !Run(m, [i]).id.valid && !Run(m, [i, i1]).id.valid
    ensures
      var r := Run(m, [i, i1, i2]).r;
      r.debugMode && r.state == Decode && !r.debugReqEntry
  {
    DebugFlushes(m, i);
    DebugTakes(Step(m, i), i1, m.id);
    DebugEnters(Step(Step(m, i), i1), i2, m.id);
    ThreeCycles(m, i, i1, i2, [Saved(ReasonInId(m.id, i2)), Redirected(ToDebug)]);
  }

  lemma EbreakLeaves(m: Moment, i: Inputs, debugMode: bool)
    requires Carrying(m, Decode, Ebreak, debugMode) && !i.branchTaken && (debugMode || (!i.debugReq && EbreakForced(i)))
    ensures EventsOf(Driven(m.r, m.id, i)) == []
    ensures Restarted(Step(m, i), DbgFlush, debugMode) && (!debugMode ==> Stepped(Step(m, i), DbgFlush, Ebreak))
  {}

  lemma EbreakFlushed(m: Moment, i: Inputs)
    requires Stepped(m, DbgFlush, Ebreak) && EbreakForced(i)
    ensures EventsOf(Driven(m.r, m.id, i)) == [] && Stepped(Step(m, i), DbgTakenId, Ebreak)
  {}

  lemma EbreakTaken(m: Moment, i: Inputs)
    requires Stepped(m, DbgTakenId, Ebreak)
    ensures EventsOf(Driven(m.r, m.id, i)) == [Saved(DebugEbreak), Redirected(ToDebug)] && Restarted(Step(m, i), Decode, true)
  {}

  lemma FlushedInDebug(m: Moment, i: Inputs)
    requires Restarted(m, DbgFlush, true)
    ensures EventsOf(Driven(m.r, m.id, i)) == [] && Restarted(Step(m, i), DbgTakenId, true)
  {}

  lemma TakenInDebug(m: Moment, i: Inputs)
    requires Restarted(m, DbgTakenId, true)
    ensures EventsOf(Driven(m.r, m.id, i)) == [Redirected(ToDebug)] && Restarted(Step(m, i), Decode, true)
  {}

  /** An ebreak for the debugger enters debug mode without waiting for EX; in debug mode
      it only redirects to the debugger, and saves nothing. */
  lemma EbreakEnters(m: Moment, i: Inputs, i1: Inputs, i2: Inputs, debugMode: bool)
    requires Carrying(m, Decode, Ebreak, debugMode) && !i.branchTaken
    requires debugMode || (!i.debugReq && EbreakForced(i) && EbreakForced(i1))
    ensures Events(m, [i, i1, i2]) == if debugMode then [Redirected(ToDebug)] else [Saved(DebugEbreak), Redirected(ToDebug)]
    ensures Restarted(Run(m, [i, i1, i2]), Decode, true)
  {
    EbreakLeaves(m, i, debugMode);
    if debugMode {
      FlushedInDebug(Step(m, i), i1);
      TakenInDebug(Step(Step(m, i), i1), i2);
      ThreeCycles(m, i, i1, i2, [Redirected(ToDebug)]);
    } else {
      EbreakFlushed(Step(m, i), i1);
      EbreakTaken(Step(Step(m, i), i1), i2);
      ThreeCycles(m, i, i1, i2, [Saved(DebugEbreak), Redirected(ToDebug)]);
    }
  }

  lemma SteppedBranchLeaves(m: Moment, i: Inputs)
    requires Carrying(m, Decode, Branch, false) && Decodes(i, Branch, false) && i.idReady && i.settings.singleStep
    ensures EventsOf(Driven(m.r, m.id, i)) == [] && Stepped(Step(m, i), DbgWaitBranch, Branch)
  {}

  lemma BranchShown(m: Moment, i: Inputs)
    requires Stepped(m, DbgWaitBranch, Branch)
    ensures EventsOf(Driven(m.r, m.id, i)) == if i.branchTaken then [Redirected(ToBranch)] else []
    ensures Stepped(Step(m, i), DbgFlush, Branch)
  {}

  lemma FlushEnters(m: Moment, i: Inputs, i1: Inputs)
    requires Stepped(m, DbgFlush, Branch) && i1.settings.singleStep
    ensures Events(m, [i, i1]) == [Saved(DebugStep), Redirected(ToDebug)] && Restarted(Run(m, [i, i1]), Decode, true)
  {
    StepFlushes(m, i, Branch);
    StepTaken(Step(m, i), i1);
    TwoCycles(m, i, i1);
  }

  lemma BranchWaited(m: Moment, i: Inputs, i1: Inputs)
    requires Carrying(m, Decode, Branch, false) && Decodes(i, Branch, false) && i.idReady && i.settings.singleStep
    ensures Events(m, [i, i1]) == if i1.branchTaken then [Redirected(ToBranch)] else []
    ensures Stepped(Run(m, [i, i1]), DbgFlush, Branch)
  {
    SteppedBranchLeaves(m, i);
    BranchShown(Step(m, i), i1);
    TwoCycles(m, i, i1);
  }

  /** A single-stepped branch first shows in EX whether it is taken. */
  lemma SteppedBranch(m: Moment, i: Inputs, i1: Inputs, i2: Inputs, i3: Inputs)
    requires Carrying(m, Decode, Branch, false) && Decodes(i, Branch, false) && i.idReady
    requires i.settings.singleStep && i3.settings.singleStep
    ensures Events(m, [i, i1] + [i2, i3]) ==
      (if i1.branchTaken then [Redirected(ToBranch)] else []) + [Saved(DebugStep), Redirected(ToDebug)]
    ensures Restarted(Run(m, [i, i1] + [i2, i3]), Decode, true)
  {
    BranchWaited(m, i, i1);
    FlushEnters(Run(m, [i, i1]), i2, i3);
    Concat(m, [i, i1], [i2, i3]);
  }

  /** The states that only come up outside debug mode. */
  predicate OutsideInv(m: Moment)
  {
    && (m.r.state in {Reset, BootSet, WaitSleep, Sleep, DbgTakenIf} ==> !m.r.debugMode)
    && (m.r.state in {FlushEx, FlushWb} && m.id.insn == Wfi && !m.r.illegal ==> !m.r.debugMode)
  }

  lemma OutsideKept(m: Moment, i: Inputs)
    requires OutsideInv(m)
    ensures OutsideInv(Step(m, i))
  {}

  lemma {:induction false} OutsideAlways(m: Moment, trace: seq<Inputs>)
    requires Initial(m)
    ensures OutsideInv(Run(m, trace))
  {
    if trace != [] {
      OutsideAlways(m, trace[..|trace| - 1]);
      OutsideKept(Run(m, trace[..|trace| - 1]), trace[|trace| - 1]);
    }
  }

  predicate Raises(m: Moment, i: Inputs)
  {
    !m.r.debugMode && Step(m, i).r.debugMode
  }

  /** The entries into debug mode during a run. */
  function Entries(m: Moment, trace: seq<Inputs>): (n: nat)
  {
    if trace == [] then 0
    else
      Entries(m, trace[..|trace| - 1]) + if Raises(Run(m, trace[..|trace| - 1]), trace[|trace| - 1]) then 1 else 0
  }

  function CountOf(events: seq<Event>, e: Event): (n: nat)
  {
    if events == [] then 0
    else CountOf(events[..|events| - 1], e) + if events[|events| - 1] == e then 1 else 0
  }

  lemma {:induction false} CountConcat(a: seq<Event>, b: seq<Event>, e: Event)
    ensures CountOf(a + b, e) == CountOf(a, e) + CountOf(b, e)
    decreases |b|
  {
    if b == [] {
      assert a + b == a;
    } else {
      CountConcat(a, b[..|b| - 1], e);
      assert (a + b)[..|a + b| - 1] == a + b[..|b| - 1];
    }
  }

  predicate ForDebug(e: Event)
  {
    e.Saved? && e.cause in {DebugTrigger, DebugEbreak, DebugRequest, DebugWoken, DebugStep, DebugUntold}
  }

  /** The causes saved for debug mode. */
  function DebugSaves(events: seq<Event>): (n: nat)
  {
    if events == [] then 0
    else DebugSaves(events[..|events| - 1]) + if ForDebug(events[|events| - 1]) then 1 else 0
  }

  lemma {:induction false} DebugSavesConcat(a: seq<Event>, b: seq<Event>)
    ensures DebugSaves(a + b) == DebugSaves(a) + DebugSaves(b)
    decreases |b|
  {
    if b == [] {
      assert a + b == a;
    } else {
      DebugSavesConcat(a, b[..|b| - 1]);
      assert (a + b)[..|a + b| - 1] == a + b[..|b| - 1];
    }
  }

  /** A cause saved for debug mode and a redirect to the debugger, and nothing else. */
  predicate EntersOnce(e: seq<Event>)
  {
    |e| == 2 && ForDebug(e[0]) && e[1] == Redirected(ToDebug)
  }

  /** A step raises the debug mode register exactly if it saves a cause for it, and then
      it redirects the fetch to the debugger; it lowers it only to return from there. */
  lemma EntryStep(m: Moment, i: Inputs)
    requires OutsideInv(m)
    ensures
      var e := EventsOf(Driven(m.r, m.id, i));
      && |e| <= 2
      && (if Raises(m, i) then EntersOnce(e) else forall k :: 0 <= k < |e| ==> !ForDebug(e[k]))
      && (m.r.debugMode && !Step(m, i).r.debugMode ==> e == [Redirected(ToDret)])
  {}

  lemma CountStep(m: Moment, i: Inputs)
    requires OutsideInv(m)
    ensures DebugSaves(EventsOf(Driven(m.r, m.id, i))) == if Raises(m, i) then 1 else 0
  {
    EntryStep(m, i);
    DebugSavesFew(EventsOf(Driven(m.r, m.id, i)), Raises(m, i));
  }

  lemma DebugSavesFew(e: seq<Event>, raises: bool)
    requires |e| <= 2 && if raises then EntersOnce(e) else forall k :: 0 <= k < |e| ==> !ForDebug(e[k])
    ensures DebugSaves(e) == if raises then 1 else 0
  {
    if |e| == 2 {
      assert e[..1] == [e[0]] && e[..1][..0] == [];
    }
  }

  lemma CountFew(events: seq<Event>, e: Event)
    requires |events| <= 2 && (|events| == 2 ==> events[0] != events[1])
    ensures CountOf(events, e) == if e in events then 1 else 0
  {}

  /** In every run, debug mode is entered exactly as often as a cause is saved for it,
      and each entry makes that one save and one redirect, to the debugger. */
  lemma {:induction false} DebugEntry(m: Moment, trace: seq<Inputs>)
    requires Initial(m)
    ensures Entries(m, trace) == DebugSaves(Events(m, trace))
    ensures forall n: nat :: n < |trace| && Raises(Run(m, trace[..n]), trace[n]) ==>
              EntersOnce(EventsOf(Driven(Run(m, trace[..n]).r, Run(m, trace[..n]).id, trace[n])))
  {
    forall n: nat | n < |trace| && Raises(Run(m, trace[..n]), trace[n])
      ensures EntersOnce(EventsOf(Driven(Run(m, trace[..n]).r, Run(m, trace[..n]).id, trace[n])))
    {
      OutsideAlways(m, trace[..n]);
      EntryStep(Run(m, trace[..n]), trace[n]);
    }
    if trace != [] {
      var init, i := trace[..|trace| - 1], trace[|trace| - 1];
      var now := Run(m, init);
      DebugEntry(m, init);
      OutsideAlways(m, init);
      CountStep(now, i);
      DebugSavesConcat(Events(m, init), EventsOf(Driven(now.r, now.id, i)));
    }
  }
}
