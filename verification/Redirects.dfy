// When and where the controller of rtl/cv32e40p_controller.sv redirects the fetch: traps, returns,
// fence.i, jumps, interrupts, entries into debug mode and sleeping, over whole runs.
module Redirects {
  import opened Options
  import opened Controller

  /** ID is not ready while a jalr waits for its register (jr_stall_o). */
  predicate Legal(i: Inputs) { i.jrStall ==> !i.idReady }

  function ListOf(t: Option<Target>): seq<Target> { if t.Some? then [t.value] else [] }

  /** IF passes an instruction to ID. */
  predicate Entry(k: Regs, i: Inputs) { Enters(k.fsm, i, Comb(k, i)) }

  /** The redirections in a run up to the next instruction that enters ID. */
  function Redirections(k: Regs, ins: seq<Inputs>): seq<Target>
    decreases |ins|
  {
    if ins == [] then []
    else ListOf(Comb(k, ins[0]).redirect)
         + if Entry(k, ins[0]) then [] else Redirections(Next(k, ins[0]), ins[1..])
  }

  predicate Continues(k: Regs, ins: seq<Inputs>)
    decreases |ins|
  {
    ins != [] && (Entry(k, ins[0]) || Continues(Next(k, ins[0]), ins[1..]))
  }

  // ---------------------------------------------------------------------------
  // What each instruction owes.

  function Exception(k: Regs): Target { if k.debugMode then ToDebugException else ToException }

  /** The entry into debug mode that ends a step. */
  function StepEnd(k: Regs): seq<Target> { if Stepping(k) then [ToDebug] else [] }

  /** The redirections that an instruction taken in this clock makes before its successor enters
      ID, apart from conditional branches and an active wfi. */
  function Due(k: Regs): seq<Target> {
    match k.idKind
    case Illegal => [Exception(k)] + StepEnd(k)
    case Ecall => [Exception(k)] + StepEnd(k)
    case Ebreak => if k.debugMode || k.dcsr.ebreakm then [ToDebug] else [ToException] + StepEnd(k)
    case Mret => [if k.debugMode then ToDebugException else ToMret] + StepEnd(k)
    case Uret => [if k.debugMode then ToDebugException else ToUret] + StepEnd(k)
    case Dret => if k.debugMode then [ToDret] else [ToException] + StepEnd(k)
    case FenceI => if Stepping(k) then [ToDebug] else [ToNext]
    case Jump => (if k.jumpDone then [] else [ToJump]) + StepEnd(k)
    case _ => StepEnd(k)
  }

  /** On the way between an instruction and its successor. */
  predicate Between(k: Regs) {
    && Invariant(k)
    && match k.fsm
       case FlushEx => k.illegalQ || k.idKind != Wfi
       case FlushWb => k.illegalQ || k.idKind != Wfi
       case XretJump => true
       case DbgFlush => true
       case DbgTakenId => true
       case DbgTakenIf => true
       case Decode => !k.idValid && !k.branchEx
       case _ => false
  }

  /** What is still owed there. */
  function Owed(k: Regs): seq<Target> {
    match k.fsm
    case FlushEx => OwedByFlush(k)
    case FlushWb => OwedByFlush(k)
    case XretJump => ListOf(XretTarget(k)) + StepEnd(k)
    case Decode => []
    case _ => [ToDebug]
  }

  function OwedByFlush(k: Regs): seq<Target> {
    if k.illegalQ then [Exception(k)] + StepEnd(k)
    else match k.idKind
      case Ebreak => [ToException] + StepEnd(k)
      case Ecall => [Exception(k)] + StepEnd(k)
      case Mret => ListOf(XretTarget(k)) + StepEnd(k)
      case Uret => ListOf(XretTarget(k)) + StepEnd(k)
      case Dret => ListOf(XretTarget(k)) + StepEnd(k)
      case FenceI => [ToNext]
      case _ => []
  }

  /** One clock pays what is owed, in order, before anything enters ID. */
  predicate Pays(k: Regs, i: Inputs) {
    if Entry(k, i) then Owed(k) == [] && Comb(k, i).redirect == None
    else Between(Next(k, i)) && Owed(k) == ListOf(Comb(k, i).redirect) + Owed(Next(k, i))
  }

  lemma FlushWbPays(k: Regs, i: Inputs)
    requires Between(k) && k.fsm == FlushWb
    ensures Pays(k, i)
  {
    InvariantStep(k, i);
    assert !Entry(k, i);
  }

  lemma OtherPays(k: Regs, i: Inputs)
    requires Between(k) && k.fsm != FlushWb
    ensures Pays(k, i)
  {
    InvariantStep(k, i);
  }

  lemma BetweenStep(k: Regs, i: Inputs)
    requires Between(k)
    ensures Pays(k, i)
  {
    if k.fsm == FlushWb { FlushWbPays(k, i); } else { OtherPays(k, i); }
  }

  /** a is the beginning of b. */
  predicate Begins(a: seq<Target>, b: seq<Target>) { |a| <= |b| && a == b[..|a|] }

  lemma {:induction false} BetweenRun(k: Regs, ins: seq<Inputs>)
    requires Between(k)
    ensures Begins(Redirections(k, ins), Owed(k))
    ensures Continues(k, ins) ==> Redirections(k, ins) == Owed(k)
    decreases |ins|
  {
    if ins != [] {
      BetweenStep(k, ins[0]);
      if !Entry(k, ins[0]) { BetweenRun(Next(k, ins[0]), ins[1..]); }
    }
  }

  /** An instruction whose redirections do not depend on what follows. */
  predicate Settled(k: Regs, i: Inputs) { k.idKind != Branch && !WfiActive(k, i) }

  predicate Owes(k: Regs, i: Inputs) {
    if Entry(k, i) then Due(k) == ListOf(Comb(k, i).redirect)
    else Between(Next(k, i)) && Due(k) == ListOf(Comb(k, i).redirect) + Owed(Next(k, i))
  }

  lemma SteppedOwes(k: Regs, i: Inputs)
    requires Invariant(k) && Legal(i) && Taken(k, i) && Settled(k, i) && Decodes(k, i) && Stepping(k)
    ensures Owes(k, i)
  {
    InvariantStep(k, i);
  }

  lemma StayingOwes(k: Regs, i: Inputs)
    requires Invariant(k) && Legal(i) && Taken(k, i) && Settled(k, i) && Decodes(k, i) && !Stepping(k)
    requires DecodeKind(k, i).next == Decode
    ensures Owes(k, i)
  {
    InvariantStep(k, i);
  }

  lemma FlushingOwes(k: Regs, i: Inputs)
    requires Invariant(k) && Legal(i) && Taken(k, i) && Settled(k, i) && Decodes(k, i) && !Stepping(k)
    requires DecodeKind(k, i).next == FlushEx
    ensures Owes(k, i)
  {
    InvariantStep(k, i);
    assert Next(k, i).fsm == FlushEx && !Entry(k, i);
  }

  lemma EbreakFlushes(k: Regs, i: Inputs)
    requires Taken(k, i) && Decodes(k, i) && !Stepping(k) && DecodeKind(k, i).next == DbgFlush
    ensures k.idKind == Ebreak && (k.debugMode || k.dcsr.ebreakm)
    ensures Next(k, i).fsm == DbgFlush && Comb(k, i).redirect == None && !Entry(k, i)
  {
  }

  lemma EbreakOwes(k: Regs, i: Inputs)
    requires Invariant(k) && Legal(i) && Taken(k, i) && Settled(k, i) && Decodes(k, i) && !Stepping(k)
    requires DecodeKind(k, i).next == DbgFlush
    ensures Owes(k, i)
  {
    EbreakFlushes(k, i);
    InvariantStep(k, i);
  }

  lemma TakenOwes(k: Regs, i: Inputs)
    requires Invariant(k) && Legal(i) && Taken(k, i) && Settled(k, i)
    ensures Owes(k, i)
  {
    assert k.fsm == Decode && Decodes(k, i);
    if Stepping(k) {
      SteppedOwes(k, i);
    } else if DecodeKind(k, i).next == Decode {
      StayingOwes(k, i);
    } else if DecodeKind(k, i).next == FlushEx {
      FlushingOwes(k, i);
    } else {
      EbreakOwes(k, i);
    }
  }

  lemma RedirectsFrom(k: Regs, i: Inputs, ins: seq<Inputs>)
    requires Invariant(k) && Legal(i) && Taken(k, i) && Settled(k, i)
    ensures Begins(Redirections(k, [i] + ins), Due(k))
    ensures Continues(k, [i] + ins) ==> Redirections(k, [i] + ins) == Due(k)
  {
    assert ([i] + ins)[1..] == ins;
    TakenOwes(k, i);
    if !Entry(k, i) { BetweenRun(Next(k, i), ins); }
  }

  /** In every run from reset: between an instruction that is taken and the next that enters ID, the
      fetch is redirected exactly as the instruction requires: once for a trap, a return, a fence.i or
      a jump, once more into debug mode for a step, and not at all for other instructions. */
  lemma RedirectsExactly(reset: Regs, before: seq<Inputs>, i: Inputs, ins: seq<Inputs>)
    requires Initial(reset) && Legal(i)
    requires var k := After(reset, before); Taken(k, i) && Settled(k, i)
    ensures var k := After(reset, before);
            && Begins(Redirections(k, [i] + ins), Due(k))
            && (Continues(k, [i] + ins) ==> Redirections(k, [i] + ins) == Due(k))
  {
    InvariantInit(reset);
    Reachable(reset, before);
    RedirectsFrom(After(reset, before), i, ins);
  }

  // ---------------------------------------------------------------------------
  // What is owed is paid: the way back to DECODE.

  predicate BackInDecode(k: Regs, ins: seq<Inputs>)
    decreases |ins|
  {
    k.fsm == Decode || (ins != [] && BackInDecode(Next(k, ins[0]), ins[1..]))
  }

  function Clocks(k: Regs): nat {
    match k.fsm
    case Decode => 0
    case FlushEx => 4
    case FlushWb => 3
    case XretJump => 2
    case DbgFlush => 2
    case _ => 1
  }

  lemma BetweenGetsCloser(k: Regs, i: Inputs)
    requires Between(k) && k.fsm != Decode && i.exValid
    ensures !Entry(k, i) && Clocks(Next(k, i)) < Clocks(k) <= 4
  {
  }

  /** Four clocks in which EX does not stall lead back to DECODE. */
  lemma {:induction false} BackWithinFour(k: Regs, ins: seq<Inputs>)
    requires Between(k) && Clocks(k) <= |ins| && forall j :: 0 <= j < |ins| ==> ins[j].exValid
    ensures BackInDecode(k, ins)
    decreases |ins|
  {
    if k.fsm != Decode {
      BetweenGetsCloser(k, ins[0]);
      BetweenStep(k, ins[0]);
      BackWithinFour(Next(k, ins[0]), ins[1..]);
    }
  }

  // ---------------------------------------------------------------------------
  // Jumps.

  /** The redirections while the instruction in ID is decoded, up to the clock in which it is taken. */
  function WhileDecoded(k: Regs, ins: seq<Inputs>): seq<Target>
    decreases |ins|
  {
    if ins == [] then []
    else ListOf(Comb(k, ins[0]).redirect) + if Taken(k, ins[0]) then [] else WhileDecoded(Next(k, ins[0]), ins[1..])
  }

  predicate DecodedUntilTaken(k: Regs, ins: seq<Inputs>)
    decreases |ins|
  {
    && ins != [] && Decodes(k, ins[0]) && Legal(ins[0])
    && (Taken(k, ins[0]) || DecodedUntilTaken(Next(k, ins[0]), ins[1..]))
  }

  /** A jump that stalls in ID redirects the fetch exactly once before it is taken. */
  lemma {:induction false} JumpRedirectsOnce(k: Regs, ins: seq<Inputs>)
    requires k.idKind == Jump && DecodedUntilTaken(k, ins)
    ensures WhileDecoded(k, ins) == if k.jumpDone then [] else [ToJump]
    decreases |ins|
  {
    if !Taken(k, ins[0]) {
      JumpStalls(k, ins[0]);
      JumpRedirectsOnce(Next(k, ins[0]), ins[1..]);
    }
  }

  lemma JumpStalls(k: Regs, i: Inputs)
    requires k.idKind == Jump && Decodes(k, i) && !Taken(k, i)
    ensures var n := Next(k, i);
            && n.idKind == Jump && (n.jumpDone <==> k.jumpDone || Comb(k, i).redirect == Some(ToJump))
            && (Comb(k, i).redirect.Some? ==> Comb(k, i).redirect == Some(ToJump) && !k.jumpDone)
  {
  }

  /** An instruction enters ID with its jump still to be made. */
  lemma EntersClean(k: Regs, i: Inputs)
    requires Entry(k, i)
    ensures Next(k, i).idValid && !Next(k, i).jumpDone && Some(Next(k, i).idKind) == i.fetched
  {
  }

  /** A taken branch redirects the fetch in the clock after the branch, and nothing is decoded then. */
  lemma BranchRedirects(k: Regs, i: Inputs, j: Inputs)
    requires Invariant(k) && Taken(k, i)
    ensures Next(k, i).branchEx <==> k.idKind == Branch
    ensures k.idKind == Branch ==>
              && (Comb(Next(k, i), j).redirect == Some(ToBranch) <==> j.branchTaken)
              && (j.branchTaken ==> !Taken(Next(k, i), j) && !Next(Next(k, i), j).idValid)
  {
    InvariantStep(k, i);
    assert k.fsm == Decode && Decodes(k, i);
  }

  // ---------------------------------------------------------------------------
  // Interrupts, debug requests, sleeping and booting.

  /** The debugger requests a halt, now or in an earlier clock. */
  predicate HaltRequested(k: Regs, i: Inputs) { i.debugReq || k.reqQ }

  /** A halt request is kept until debug mode is reached. */
  lemma HaltRequestIsKept(k: Regs, i: Inputs)
    ensures Next(k, i).reqQ <==> i.debugReq || (k.reqQ && !k.debugMode)
  {
  }

  /** Exactly when an interrupt is acknowledged; the fetch goes to its handler and ID is emptied. */
  lemma InterruptExactly(k: Regs, i: Inputs)
    ensures Comb(k, i).irqAck <==>
            && i.irq && !k.debugMode && !HaltRequested(k, i)
            && (k.fsm == FirstFetch || (k.fsm == Decode && k.idValid && !BranchTaken(k, i) && !i.trigger))
    ensures Comb(k, i).irqAck <==> Comb(k, i).redirect == Some(ToIrq)
  {
    match k.fsm
    case Decode =>
    case FlushWb =>
    case XretJump =>
    case _ =>
  }

  lemma InterruptEmptiesId(k: Regs, i: Inputs)
    requires Comb(k, i).irqAck
    ensures Next(k, i).fsm == Decode && !Next(k, i).idValid
  {
    InterruptExactly(k, i);
  }

  /** In DECODE the stream flows: with an empty ID, and behind a plain instruction that is taken, what
      has been fetched enters ID. */
  lemma DecodeFetches(k: Regs, i: Inputs)
    requires Invariant(k) && k.fsm == Decode && !BranchTaken(k, i)
    ensures !k.idValid ==> (Entry(k, i) <==> i.idReady && i.fetched.Some?) && Next(k, i).fsm == Decode
    ensures k.idKind == Plain && !Stepping(k) && Taken(k, i) ==> (Entry(k, i) <==> i.fetched.Some?) && Next(k, i).fsm == Decode
  {
  }

  /** An instruction in ID that nothing prevents is taken as soon as ID is ready. */
  lemma DecodeTakes(k: Regs, i: Inputs)
    requires Invariant(k) && k.fsm == Decode && k.idValid && !BranchTaken(k, i)
    requires k.debugMode || !(HaltRequested(k, i) || i.trigger || i.irq)
    ensures Taken(k, i) <==> i.idReady
    ensures !i.idReady && k.idKind != Ebreak ==> Next(k, i).fsm == Decode && Next(k, i).idValid && Next(k, i).idKind == k.idKind
  {
  }

  /** Debug mode is entered with a redirection to the debug handler, and only then. */
  lemma DebugEntryRedirects(k: Regs, i: Inputs)
    requires Invariant(k) && !k.debugMode
    ensures Next(k, i).debugMode <==> Comb(k, i).redirect == Some(ToDebug)
  {
    match k.fsm
    case Decode =>
    case FlushWb =>
    case XretJump =>
    case _ =>
  }

  /** A debug request or a trigger stops the instruction in ID before it is taken, and owes the
      entry into debug mode. */
  lemma DebugRequestStops(k: Regs, i: Inputs)
    requires Invariant(k) && k.fsm == Decode && k.idValid && !BranchTaken(k, i) && !k.debugMode
    requires HaltRequested(k, i) || i.trigger
    ensures !Taken(k, i) && !Entry(k, i) && Next(k, i).entryQ
    ensures Between(Next(k, i)) && Owed(Next(k, i)) == [ToDebug]
  {
    InvariantStep(k, i);
  }

  lemma FlushedTo(k: Regs, i: Inputs)
    requires k.fsm == DbgFlush
    ensures Next(k, i).fsm ==
            if k.debugMode || i.trigger || (k.dcsr.ebreakm && k.idKind == Ebreak) || k.entryQ then DbgTakenId else DbgTakenIf
  {
  }

  lemma SavedCause(k: Regs, i: Inputs)
    requires Invariant(k)
    ensures Comb(k, i).debugSave ==
            if k.fsm == DbgTakenId && !k.debugMode then
              Some(if i.trigger then ByTrigger else if (k.dcsr.ebreakm && k.idKind == Ebreak) || !k.entryQ then ByEbreak else ByHaltRequest)
            else if k.fsm == DbgTakenIf then Some(if k.wakeupQ then ByHaltRequest else ByStep)
            else None
  {
    match k.fsm
    case Decode =>
    case FlushWb =>
    case XretJump =>
    case _ =>
  }

  /** Which of the two debug states follows, and so which pc is saved, and the cause that is saved:
      a trigger goes before an ebreak that dcsr.ebreakm sends to the debugger, and that before a halt
      request; a step comes last. */
  lemma DebugEntryExactly(k: Regs, i: Inputs)
    requires Invariant(k)
    ensures var forced := k.dcsr.ebreakm && k.idKind == Ebreak;
            && (k.fsm == DbgFlush ==>
                  Next(k, i).fsm == if k.debugMode || i.trigger || forced || k.entryQ then DbgTakenId else DbgTakenIf)
            && Comb(k, i).debugSave ==
                 if k.fsm == DbgTakenId && !k.debugMode then
                   Some(if i.trigger then ByTrigger else if forced || !k.entryQ then ByEbreak else ByHaltRequest)
                 else if k.fsm == DbgTakenIf then Some(if k.wakeupQ then ByHaltRequest else ByStep)
                 else None
  {
    if k.fsm == DbgFlush { FlushedTo(k, i); }
    SavedCause(k, i);
  }

  /** An active wfi on its way to sleep, and asleep. */
  predicate Asleep(k: Regs) {
    && Invariant(k)
    && (k.fsm == WaitSleep || k.fsm == Sleep
        || ((k.fsm == FlushEx || k.fsm == FlushWb) && !k.illegalQ && k.idKind == Wfi))
  }

  lemma WfiFallsAsleep(k: Regs, i: Inputs)
    requires Invariant(k) && Taken(k, i) && WfiActive(k, i)
    ensures Asleep(Next(k, i)) && !Entry(k, i) && Comb(k, i).redirect == None
  {
    InvariantStep(k, i);
    assert k.fsm == Decode && Decodes(k, i);
  }

  /** Where sleep goes in one clock: a debug request leads into debug mode, a wake-up to fetching,
      and nothing else ends it. */
  lemma SleepExactly(k: Regs, i: Inputs)
    requires Asleep(k)
    ensures !Entry(k, i) && Comb(k, i).redirect == None
    ensures var n := Next(k, i);
            match k.fsm
            case FlushEx => n.fsm == if i.exValid then FlushWb else FlushEx
            case FlushWb => n.fsm == if HaltRequested(k, i) then DbgTakenIf else WaitSleep
            case WaitSleep => n.fsm == Sleep
            case _ => n.fsm == if HaltRequested(k, i) then DbgTakenIf else if i.irqWakeup then FirstFetch else Sleep
    ensures Asleep(Next(k, i)) || Next(k, i).fsm == FirstFetch || (Between(Next(k, i)) && Owed(Next(k, i)) == [ToDebug])
  {
    InvariantStep(k, i);
    assert k.fsm == Sleep ==> !k.debugMode;
  }

  /** Without a wake-up and a debug request nothing is fetched, however long that takes. */
  lemma {:induction false} SleepsUntilWoken(k: Regs, ins: seq<Inputs>)
    requires Asleep(k) && !k.reqQ && forall j :: 0 <= j < |ins| ==> !ins[j].irqWakeup && !ins[j].debugReq
    ensures Asleep(After(k, ins)) && Redirections(k, ins) == [] && !Continues(k, ins)
    decreases |ins|
  {
    if ins != [] {
      SleepExactly(k, ins[0]);
      SleepsUntilWoken(Next(k, ins[0]), ins[1..]);
    }
  }

  /** After a wake-up the instruction stream goes on, or an interrupt is taken. */
  lemma WakingFetches(k: Regs, i: Inputs)
    requires Invariant(k) && k.fsm == FirstFetch
    ensures Next(k, i).fsm == Decode
    ensures if i.irq && !HaltRequested(k, i) then Comb(k, i).redirect == Some(ToIrq) && !Entry(k, i)
            else Comb(k, i).redirect == None && (Entry(k, i) <==> i.idReady && i.fetched.Some?)
  {
  }

  /** Out of reset: wait for the fetch enable, then fetch from the boot address, or enter debug mode. */
  lemma Boots(k: Regs, i: Inputs)
    requires Invariant(k)
    ensures k.fsm == Reset ==>
              Comb(k, i).redirect == None && !Entry(k, i) && Next(k, i).fsm == if i.fetchEnable then BootSet else Reset
    ensures k.fsm == BootSet ==>
              && Comb(k, i).redirect == Some(ToBoot)
              && Next(k, i).fsm == (if HaltRequested(k, i) then DbgTakenIf else FirstFetch)
  {
  }
}
