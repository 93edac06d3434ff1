// The main state machine of rtl/cv32e40p_controller.sv with its debug part, without the
// hardware loop states (PULP_XPULP = 0), PMP errors and the cluster's event load.
module Controller {
  import opened Options

  datatype Fsm = Reset | BootSet | WaitSleep | Sleep | FirstFetch | Decode | FlushEx | FlushWb
               | XretJump | DbgWaitBranch | DbgTakenId | DbgTakenIf | DbgFlush

  datatype DebugFsm = HaveReset | Running | Halted

  /** What the decoder makes of the instruction in ID. */
  datatype Kind = Illegal | Jump | Branch | Ebreak | Wfi | Ecall | FenceI | Mret | Uret | Dret | CsrStatus | Plain

  /** Where the fetch is redirected to (pc_mux_o and exc_pc_mux_o). */
  datatype Target = ToBoot | ToBranch | ToJump | ToException | ToIrq | ToDebug | ToDebugException
                  | ToMret | ToUret | ToDret | ToNext

  datatype Cause = ByEbreak | ByTrigger | ByHaltRequest | ByStep

  /** dcsr.step and dcsr.ebreakm */
  datatype Dcsr = Dcsr(step: bool, ebreakm: bool)

  /** The controller's registers, dcsr and the instruction in ID. debugRan: an instruction has been
      taken since debug mode was entered; branchEx: there is a branch in EX. */
  datatype Regs = Regs(fsm: Fsm, debugMode: bool, illegalQ: bool, jumpDone: bool, entryQ: bool, wakeupQ: bool,
                       reqQ: bool, debugFsm: DebugFsm, dcsr: Dcsr, debugRan: bool, branchEx: bool, idValid: bool, idKind: Kind)

  /** The surroundings in one clock: fetched is the instruction that IF could pass on, dcsr a
      write to that register, which needs an instruction taken in debug mode. */
  datatype Inputs = Inputs(fetchEnable: bool, debugReq: bool, trigger: bool, irq: bool, irqWakeup: bool,
                           branchTaken: bool, jrStall: bool, idReady: bool, exValid: bool,
                           fetched: Option<Kind>, dcsr: Option<Dcsr>)

  /** The combinational outputs and next-state values. */
  datatype Control = Control(next: Fsm, haltIf: bool, haltId: bool, decoding: bool, redirect: Option<Target>, jumpDone: bool,
                             illegal: bool, debugMode: bool, entry: bool, wakeup: bool, irqAck: bool,
                             debugSave: Option<Cause>)

  predicate DebugPending(k: Regs, i: Inputs) { i.debugReq || k.reqQ }

  /** branch_taken_ex: the branch in EX is decided in its only clock there. */
  predicate BranchTaken(k: Regs, i: Inputs) { k.branchEx && i.branchTaken }

  /** dret is illegal outside debug mode. */
  function KindOf(k: Regs): Kind { if k.idKind == Dret && !k.debugMode then Illegal else k.idKind }

  /** debug_single_step_i & ~debug_mode_q */
  predicate Stepping(k: Regs) { k.dcsr.step && !k.debugMode }

  predicate ForcedEbreak(k: Regs) { k.dcsr.ebreakm && k.idKind == Ebreak }

  /** wfi is a nop while debugging. */
  predicate WfiActive(k: Regs, i: Inputs) {
    k.idKind == Wfi && !(k.debugMode || DebugPending(k, i) || k.dcsr.step || i.trigger)
  }

  function Idle(k: Regs): Control {
    Control(k.fsm, false, false, false, None, k.jumpDone, k.illegalQ, k.debugMode, k.entryQ, k.wakeupQ, false, None)
  }

  function Halting(k: Regs): Control { Idle(k).(haltIf := true, haltId := true) }

  // ---------------------------------------------------------------------------
  // One state each.

  /** The instruction in ID is decoded, without single stepping. */
  function DecodeKind(k: Regs, i: Inputs): (c: Control)
    ensures c.decoding && !c.haltId && !c.irqAck && c.debugSave == None
    ensures c.debugMode == k.debugMode && c.entry == k.entryQ && c.wakeup == k.wakeupQ
    ensures c.next == Decode || c.next == FlushEx || c.next == DbgFlush
    ensures c.redirect == None || c.redirect == Some(ToJump)
  {
    var d := Idle(k).(decoding := true, illegal := false, next := Decode);
    var flush := d.(haltIf := true, next := if i.idReady then FlushEx else Decode);
    match KindOf(k)
    case Illegal => flush.(illegal := true)
    case Jump => if !i.jrStall && !k.jumpDone then d.(redirect := Some(ToJump), jumpDone := true) else d
    case Ebreak => if k.debugMode || k.dcsr.ebreakm then flush.(next := DbgFlush) else flush
    case Wfi => if WfiActive(k, i) then flush else d
    case Branch => d
    case Plain => d
    case _ => flush
  }

  function StepTarget(k: Regs): Fsm {
    match KindOf(k)
    case Illegal => FlushEx
    case Ecall => FlushEx
    case Ebreak => if k.dcsr.ebreakm then DbgFlush else FlushEx
    case Mret => FlushEx
    case Uret => FlushEx
    case Branch => DbgWaitBranch
    case _ => DbgFlush
  }

  function InDecode(k: Regs, i: Inputs): (c: Control)
    ensures c.irqAck <==> i.irq && !k.debugMode && !DebugPending(k, i) && k.idValid && !BranchTaken(k, i) && !i.trigger
    ensures c.irqAck <==> c.redirect == Some(ToIrq)
    ensures c.irqAck ==> c.haltId && c.next == k.fsm
    ensures c.debugMode == k.debugMode && c.redirect != Some(ToDebug)
  {
    if BranchTaken(k, i) then Idle(k).(redirect := Some(ToBranch))
    else if !k.idValid then Idle(k)
    else if (DebugPending(k, i) || i.trigger) && !k.debugMode then
      Halting(k).(decoding := true, illegal := false, next := DbgFlush, entry := true)
    else if i.irq && !k.debugMode then
      Halting(k).(illegal := false, redirect := Some(ToIrq), irqAck := true)
    else
      var d := DecodeKind(k, i);
      if !Stepping(k) then d
      else d.(haltIf := true, next := if i.idReady then StepTarget(k) else d.next)
  }

  function InFlushWb(k: Regs, i: Inputs): (c: Control)
    ensures !c.decoding && c.haltIf && c.haltId && !c.irqAck && c.debugSave == None
    ensures c.debugMode == k.debugMode && c.entry == k.entryQ
    ensures c.next == DbgTakenIf ==> Stepping(k) || c.wakeup
    ensures c.redirect != Some(ToIrq) && c.redirect != Some(ToDebug)
  {
    var h := Halting(k).(next := Decode);
    var trap := h.(redirect := Some(if k.debugMode then ToDebugException else ToException),
                   next := if Stepping(k) then DbgTakenIf else Decode);
    if k.illegalQ then trap.(illegal := false)
    else match k.idKind
      case Ebreak => trap.(redirect := Some(ToException))
      case Ecall => trap
      case Mret => h.(next := XretJump)
      case Uret => h.(next := XretJump)
      case Dret => h.(next := XretJump)
      case Wfi => if DebugPending(k, i) then h.(next := DbgTakenIf, wakeup := true) else h.(next := WaitSleep)
      case FenceI => h.(redirect := Some(ToNext))
      case _ => h
  }

  function XretTarget(k: Regs): (t: Option<Target>)
    ensures t != Some(ToIrq) && t != Some(ToDebug)
  {
    match k.idKind
    case Mret => Some(if k.debugMode then ToDebugException else ToMret)
    case Uret => Some(if k.debugMode then ToDebugException else ToUret)
    case Dret => Some(ToDret)
    case _ => None
  }

  function InXretJump(k: Regs): (c: Control)
    ensures !c.irqAck && !c.decoding
    ensures c.debugMode != k.debugMode ==> k.debugMode && k.idKind == Dret
    ensures c.redirect == XretTarget(k)
  {
    Idle(k).(redirect := XretTarget(k), debugMode := k.debugMode && k.idKind != Dret,
             next := if Stepping(k) then DbgTakenIf else Decode)
  }

  /** The cause that DBG_TAKEN_ID saves, if it comes from outside debug mode. */
  function TakenIdCause(k: Regs, i: Inputs): Cause {
    if i.trigger then ByTrigger
    else if ForcedEbreak(k) then ByEbreak
    else if k.entryQ then ByHaltRequest
    else ByEbreak
  }

  function InStart(k: Regs, i: Inputs): (c: Control)
    ensures !c.irqAck && !c.decoding && c.debugMode == k.debugMode
    ensures c.redirect != Some(ToIrq) && c.redirect != Some(ToDebug)
  {
    if k.fsm == Reset then Idle(k).(next := if i.fetchEnable then BootSet else Reset)
    else
      var pending := DebugPending(k, i);
      Idle(k).(redirect := Some(ToBoot), next := if pending then DbgTakenIf else FirstFetch, wakeup := k.wakeupQ || pending)
  }

  function InSleep(k: Regs, i: Inputs): (c: Control)
    ensures !c.irqAck && !c.decoding && c.debugMode == k.debugMode
    ensures c.redirect != Some(ToIrq) && c.redirect != Some(ToDebug)
  {
    if k.fsm == WaitSleep then Halting(k).(next := Sleep)
    else if DebugPending(k, i) then Halting(k).(next := DbgTakenIf, wakeup := true)
    else Halting(k).(next := if i.irqWakeup || k.debugMode then FirstFetch else Sleep)
  }

  function InFlushEx(k: Regs, i: Inputs): (c: Control)
    ensures !c.irqAck && !c.decoding && c.debugMode == k.debugMode
    ensures c.redirect != Some(ToIrq) && c.redirect != Some(ToDebug)
  {
    Halting(k).(next := if i.exValid then FlushWb else FlushEx)
  }

  function InDbgTakenId(k: Regs, i: Inputs): (c: Control)
    ensures !c.irqAck && !c.decoding && c.debugMode && c.redirect == Some(ToDebug)
  {
    Idle(k).(redirect := Some(ToDebug), entry := false, next := Decode, debugMode := true,
             debugSave := if k.debugMode then None else Some(TakenIdCause(k, i)))
  }

  function InDbgTakenIf(k: Regs): (c: Control)
    ensures !c.irqAck && !c.decoding && c.debugMode && c.redirect == Some(ToDebug)
  {
    Idle(k).(redirect := Some(ToDebug), wakeup := false, next := Decode, debugMode := true,
             debugSave := Some(if k.wakeupQ then ByHaltRequest else if k.dcsr.step then ByStep else ByEbreak))
  }

  function InDbgWaitBranch(k: Regs, i: Inputs): (c: Control)
    ensures !c.irqAck && !c.decoding && c.debugMode == k.debugMode
    ensures c.redirect != Some(ToIrq) && c.redirect != Some(ToDebug)
  {
    Idle(k).(haltIf := true, redirect := if BranchTaken(k, i) then Some(ToBranch) else None, next := DbgFlush)
  }

  function InDbgFlush(k: Regs, i: Inputs): (c: Control)
    ensures !c.irqAck && !c.decoding && c.debugMode == k.debugMode
    ensures c.redirect != Some(ToIrq) && c.redirect != Some(ToDebug)
  {
    Halting(k).(next := if k.debugMode || i.trigger || ForcedEbreak(k) || k.entryQ then DbgTakenId else DbgTakenIf)
  }

  function InFirstFetch(k: Regs, i: Inputs): Control {
    if i.irq && !(DebugPending(k, i) || k.debugMode) then Halting(k).(next := Decode, redirect := Some(ToIrq), irqAck := true)
    else Idle(k).(next := Decode)
  }

  function Comb(k: Regs, i: Inputs): (c: Control)
    ensures c.irqAck ==> !k.debugMode && !DebugPending(k, i) && i.irq && (c.haltId || !c.decoding)
    ensures c.irqAck <==> c.redirect == Some(ToIrq)
  {
    match k.fsm
    case FirstFetch => InFirstFetch(k, i)
    case Decode => InDecode(k, i)
    case FlushWb => InFlushWb(k, i)
    case XretJump => InXretJump(k)
    case FlushEx => InFlushEx(k, i)
    case DbgTakenId => InDbgTakenId(k, i)
    case DbgTakenIf => InDbgTakenIf(k)
    case DbgWaitBranch => InDbgWaitBranch(k, i)
    case DbgFlush => InDbgFlush(k, i)
    case WaitSleep => InSleep(k, i)
    case Sleep => InSleep(k, i)
    case _ => InStart(k, i)
  }

  // ---------------------------------------------------------------------------
  // One clock edge.

  function NextDebugFsm(d: DebugFsm, c: Control): DebugFsm {
    match d
    case HaveReset => if c.debugMode then Halted else if c.next == FirstFetch then Running else HaveReset
    case Running => if c.debugMode then Halted else Running
    case Halted => if c.debugMode then Halted else Running
  }

  /** IF passes its instruction on, unless it is halted or redirected. In RESET nothing has been
      requested yet. */
  predicate Enters(f: Fsm, i: Inputs, c: Control) {
    !c.haltIf && i.idReady && c.redirect == None && i.fetched.Some? && f != Reset
  }

  predicate Clears(k: Regs, i: Inputs, c: Control) { i.idReady || c.haltId || BranchTaken(k, i) }

  function Next(k: Regs, i: Inputs): Regs { Update(k, i, Comb(k, i)) }

  function Update(k: Regs, i: Inputs, c: Control): Regs {
    Regs(c.next, c.debugMode, c.illegal, c.jumpDone && !i.idReady, c.entry, c.wakeup,
         i.debugReq || (k.reqQ && !k.debugMode),
         NextDebugFsm(k.debugFsm, c),
         if k.debugRan && i.dcsr.Some? then i.dcsr.value else k.dcsr,
         c.debugMode && (k.debugRan || (k.debugMode && c.decoding && !c.haltId && i.idReady)),
         c.decoding && !c.haltId && i.idReady && k.idKind == Branch,
         Enters(k.fsm, i, c) || (k.idValid && !Clears(k, i, c)),
         if Enters(k.fsm, i, c) then i.fetched.value else k.idKind)
  }

  /** inst_taken: id_valid && is_decoding */
  predicate Taken(k: Regs, i: Inputs) { Comb(k, i).decoding && !Comb(k, i).haltId && i.idReady }

  // ---------------------------------------------------------------------------
  // What holds in every reachable state.

  predicate Initial(k: Regs) {
    k.fsm == Reset && !k.debugMode && !k.illegalQ && !k.jumpDone && !k.entryQ && !k.wakeupQ && !k.reqQ
    && k.debugFsm == HaveReset && k.dcsr == Dcsr(false, false) && !k.debugRan && !k.branchEx && !k.idValid
  }

  /** States that only exist outside debug mode. */
  predicate OnlyOutsideDebug(f: Fsm) {
    f == Reset || f == BootSet || f == WaitSleep || f == Sleep || f == FirstFetch || f == DbgTakenIf || f == DbgWaitBranch
  }

  /** States in which ID is empty. */
  predicate IdEmpty(f: Fsm) { f != FirstFetch && f != Decode && f != DbgFlush }

  /** The reason for being in a state, in terms of the instruction held in ID. */
  predicate Reason(k: Regs) {
    match k.fsm
    case FlushEx => FlushReason(k)
    case FlushWb => FlushReason(k)
    case XretJump => !k.illegalQ && (k.idKind == Mret || k.idKind == Uret || (k.idKind == Dret && k.debugMode))
    case DbgWaitBranch => Stepping(k) && !k.illegalQ
    case DbgFlush => !k.illegalQ && (k.debugMode || k.entryQ || ForcedEbreak(k) || Stepping(k))
    case DbgTakenIf => !k.illegalQ && (k.wakeupQ || Stepping(k))
    case Decode => true
    case _ => !k.illegalQ
  }

  predicate FlushReason(k: Regs) {
    && (k.illegalQ <==> KindOf(k) == Illegal)
    && (k.debugMode ==> k.idKind != Ebreak && k.idKind != Wfi)
    && k.idKind != Jump && k.idKind != Branch && k.idKind != Plain
    && (Stepping(k) ==> k.illegalQ || k.idKind == Ebreak || k.idKind == Ecall || k.idKind == Mret || k.idKind == Uret)
  }

  predicate Invariant(k: Regs) {
    && (k.debugMode <==> k.debugFsm == Halted)
    && (k.debugFsm == HaveReset ==> k.fsm == Reset || k.fsm == BootSet || k.fsm == DbgTakenIf)
    && (OnlyOutsideDebug(k.fsm) ==> !k.debugMode)
    && (IdEmpty(k.fsm) ==> !k.idValid)
    && (k.entryQ ==> k.fsm == DbgFlush || k.fsm == DbgTakenId)
    && (k.wakeupQ ==> k.fsm == DbgTakenIf)
    && (k.debugRan ==> k.debugMode)
    && (k.branchEx ==> k.fsm == Decode || k.fsm == DbgWaitBranch)
    && Reason(k)
  }

  lemma InvariantInit(k: Regs)
    requires Initial(k)
    ensures Invariant(k)
  {
  }

  /** The instruction in ID is decoded in this clock. */
  predicate Decodes(k: Regs, i: Inputs) {
    && k.fsm == Decode && k.idValid && !BranchTaken(k, i)
    && (k.debugMode || !(DebugPending(k, i) || i.trigger || i.irq))
  }

  lemma InvariantPlainDecode(k: Regs, i: Inputs)
    requires Invariant(k) && Decodes(k, i) && !Stepping(k) && DecodeKind(k, i).next == Decode
    ensures Invariant(Next(k, i))
  {
  }

  lemma InvariantFlushDecode(k: Regs, i: Inputs)
    requires Invariant(k) && Decodes(k, i) && !Stepping(k) && DecodeKind(k, i).next == FlushEx
    ensures Invariant(Next(k, i))
  {
    var n := Next(k, i);
    assert n.fsm == FlushEx && !n.idValid && n.idKind == k.idKind && n.debugMode == k.debugMode;
    assert n.illegalQ <==> KindOf(k) == Illegal;
  }

  lemma InvariantEbreakDecode(k: Regs, i: Inputs)
    requires Invariant(k) && Decodes(k, i) && !Stepping(k) && DecodeKind(k, i).next == DbgFlush
    ensures Invariant(Next(k, i))
  {
    assert k.idKind == Ebreak && (k.debugMode || k.dcsr.ebreakm);
    var n := Next(k, i);
    assert n.fsm == DbgFlush && !n.illegalQ && n.idKind == k.idKind && n.debugMode == k.debugMode;
    assert n.debugMode || ForcedEbreak(n);
  }

  lemma InvariantStepDecode(k: Regs, i: Inputs)
    requires Invariant(k) && Decodes(k, i) && Stepping(k)
    ensures Invariant(Next(k, i))
  {
  }

  lemma InvariantNoDecode(k: Regs, i: Inputs)
    requires Invariant(k) && k.fsm == Decode && !Decodes(k, i)
    ensures Invariant(Next(k, i))
  {
  }

  lemma InvariantFlushWb(k: Regs, i: Inputs)
    requires Invariant(k) && k.fsm == FlushWb
    ensures Invariant(Next(k, i))
  {
  }

  predicate IsDebugState(f: Fsm) {
    f == DbgWaitBranch || f == DbgFlush || f == DbgTakenId || f == DbgTakenIf
  }

  lemma InvariantDebug(k: Regs, i: Inputs)
    requires Invariant(k) && IsDebugState(k.fsm)
    ensures Invariant(Next(k, i))
  {
  }

  lemma InvariantOther(k: Regs, i: Inputs)
    requires Invariant(k) && k.fsm != FlushWb && k.fsm != Decode && !IsDebugState(k.fsm)
    ensures Invariant(Next(k, i))
  {
  }

  /** Every step keeps the invariant. */
  lemma InvariantStep(k: Regs, i: Inputs)
    requires Invariant(k)
    ensures Invariant(Next(k, i))
  {
    if k.fsm == FlushWb { InvariantFlushWb(k, i); }
    else if IsDebugState(k.fsm) { InvariantDebug(k, i); }
    else if k.fsm != Decode { InvariantOther(k, i); }
    else if !Decodes(k, i) { InvariantNoDecode(k, i); }
    else if Stepping(k) { InvariantStepDecode(k, i); }
    else if DecodeKind(k, i).next == Decode { InvariantPlainDecode(k, i); }
    else if DecodeKind(k, i).next == FlushEx { InvariantFlushDecode(k, i); }
    else { InvariantEbreakDecode(k, i); }
  }

  // ---------------------------------------------------------------------------
  // Safety of every reachable step.

  /** DBG_FLUSH takes one clock, and only a step leads from there to DBG_TAKEN_IF, which
      otherwise serves a wake-up. */
  lemma DebugPaths(k: Regs, i: Inputs)
    requires Invariant(k)
    ensures k.fsm == DbgFlush ==> Next(k, i).fsm == DbgTakenId || (Next(k, i).fsm == DbgTakenIf && Stepping(k))
    ensures Next(k, i).fsm == DbgTakenIf ==> Stepping(k) || Next(k, i).wakeupQ
  {
    InvariantStep(k, i);
  }

  /** Debug mode is what the halted output says; it is entered through the two DBG_TAKEN
      states with an empty ID stage, and left by dret only. */
  lemma DebugModeChanges(k: Regs, i: Inputs)
    requires Invariant(k)
    ensures k.debugMode <==> k.debugFsm == Halted
    ensures !k.debugMode && Next(k, i).debugMode ==> (k.fsm == DbgTakenId || k.fsm == DbgTakenIf) && !Next(k, i).idValid
    ensures k.debugMode && !Next(k, i).debugMode ==> k.fsm == XretJump && k.idKind == Dret
  {
  }

  /** No interrupt is taken in debug mode, nor while a debug request waits, and the
      instruction in ID is not taken in the same clock. */
  lemma DebugBeforeInterrupts(k: Regs, i: Inputs)
    requires Comb(k, i).irqAck
    ensures !k.debugMode && !DebugPending(k, i) && i.irq && !Taken(k, i)
  {
  }

  // ---------------------------------------------------------------------------
  // Single stepping over whole runs.

  /** After one instruction has been taken with dcsr.step: on the way into debug mode. */
  predicate Leaving(k: Regs) {
    && Invariant(k) && Stepping(k) && !k.idValid && !k.entryQ && !k.wakeupQ
    && (k.fsm == FlushEx || k.fsm == FlushWb || k.fsm == XretJump || k.fsm == DbgWaitBranch
        || k.fsm == DbgFlush || k.fsm == DbgTakenId || k.fsm == DbgTakenIf)
  }

  /** In debug mode, before its first instruction is taken. */
  predicate Arrived(k: Regs) {
    Invariant(k) && k.debugMode && !k.debugRan && k.dcsr.step && (k.fsm == Decode || k.fsm == DbgFlush || k.fsm == DbgTakenId)
  }

  lemma StepLeaves(k: Regs, i: Inputs)
    requires Invariant(k) && Stepping(k) && Taken(k, i)
    ensures Leaving(Next(k, i))
  {
    InvariantStep(k, i);
    assert k.fsm == Decode && Decodes(k, i);
  }

  lemma LeavingContinues(k: Regs, i: Inputs)
    requires Leaving(k)
    ensures !Taken(k, i) && (Leaving(Next(k, i)) || Arrived(Next(k, i)))
  {
    InvariantStep(k, i);
  }

  /** What a step saves as its cause: dcsr.cause says step, unless the stepped instruction is a
      trigger match or an ebreak that enters debug mode. */
  lemma StepCause(k: Regs, i: Inputs)
    requires Leaving(k)
    ensures k.fsm == DbgTakenIf ==> Comb(k, i).debugSave == Some(ByStep)
    ensures k.fsm == DbgTakenId ==> Comb(k, i).debugSave == Some(if i.trigger then ByTrigger else ByEbreak)
    ensures k.fsm == DbgFlush && !i.trigger && !ForcedEbreak(k) ==> Next(k, i).fsm == DbgTakenIf
    ensures Comb(k, i).debugSave.Some? <==> !k.debugMode && Next(k, i).debugMode
  {
  }

  /** A stepped branch still redirects the fetch in the clock in which it is decided, before
      the return address is saved. */
  lemma SteppedBranchRedirects(k: Regs, i: Inputs, j: Inputs)
    requires Invariant(k) && Stepping(k) && Taken(k, i) && k.idKind == Branch
    ensures var n := Next(k, i);
            && Comb(n, j).redirect == (if j.branchTaken then Some(ToBranch) else None)
            && Comb(n, j).debugSave == None && Next(n, j).fsm == DbgFlush
  {
    InvariantStep(k, i);
    assert k.fsm == Decode && Decodes(k, i);
  }

  lemma ArrivedContinues(k: Regs, i: Inputs)
    requires Arrived(k) && !Taken(k, i)
    ensures Arrived(Next(k, i))
  {
    InvariantStep(k, i);
  }

  /** The next instruction that is taken in a run is taken in debug mode, with dcsr.step set. */
  predicate NextTakenInDebug(k: Regs, ins: seq<Inputs>)
    decreases |ins|
  {
    if ins == [] then true
    else if Taken(k, ins[0]) then k.debugMode && k.dcsr.step
    else NextTakenInDebug(Next(k, ins[0]), ins[1..])
  }

  lemma {:induction false} OnTheWay(k: Regs, ins: seq<Inputs>)
    requires Leaving(k) || Arrived(k)
    ensures NextTakenInDebug(k, ins)
    decreases |ins|
  {
    if ins != [] && !Taken(k, ins[0]) {
      if Leaving(k) { LeavingContinues(k, ins[0]); } else { ArrivedContinues(k, ins[0]); }
      OnTheWay(Next(k, ins[0]), ins[1..]);
    } else if ins != [] && Leaving(k) {
      LeavingContinues(k, ins[0]);
    }
  }

  function After(k: Regs, ins: seq<Inputs>): Regs
    decreases |ins|
  {
    if ins == [] then k else After(Next(k, ins[0]), ins[1..])
  }

  lemma {:induction false} Reachable(k: Regs, ins: seq<Inputs>)
    requires Invariant(k)
    ensures Invariant(After(k, ins))
    decreases |ins|
  {
    if ins != [] {
      InvariantStep(k, ins[0]);
      Reachable(Next(k, ins[0]), ins[1..]);
    }
  }

  /** In every run from reset: when an instruction is taken outside debug mode with dcsr.step
      set, the next one that is taken is taken in debug mode, with dcsr.step still set. */
  lemma SingleStep(reset: Regs, before: seq<Inputs>, i: Inputs, ins: seq<Inputs>)
    requires Initial(reset)
    requires var k := After(reset, before); Stepping(k) && Taken(k, i)
    ensures NextTakenInDebug(Next(After(reset, before), i), ins)
  {
    InvariantInit(reset);
    Reachable(reset, before);
    StepLeaves(After(reset, before), i);
    OnTheWay(Next(After(reset, before), i), ins);
  }

  /** The number of clocks to debug mode if EX does not stall. */
  function Distance(k: Regs): nat {
    match k.fsm
    case FlushEx => 4
    case FlushWb => 3
    case DbgWaitBranch => 3
    case XretJump => 2
    case DbgFlush => 2
    case _ => 1
  }

  lemma LeavingGetsCloser(k: Regs, i: Inputs)
    requires Leaving(k)
    ensures Leaving(Next(k, i)) ==> Distance(Next(k, i)) <= Distance(k)
    ensures i.exValid ==> Next(k, i).debugMode || Distance(Next(k, i)) < Distance(k)
  {
    InvariantStep(k, i);
  }

  predicate ReachesDebugMode(k: Regs, ins: seq<Inputs>)
    decreases |ins|
  {
    k.debugMode || (ins != [] && ReachesDebugMode(Next(k, ins[0]), ins[1..]))
  }

  /** A step ends: four clocks in which EX does not stall are enough. */
  lemma {:induction false} StepReachesDebugMode(k: Regs, ins: seq<Inputs>)
    requires Leaving(k) && Distance(k) <= |ins| && forall j :: 0 <= j < |ins| ==> ins[j].exValid
    ensures ReachesDebugMode(k, ins)
    decreases |ins|
  {
    LeavingContinues(k, ins[0]);
    LeavingGetsCloser(k, ins[0]);
    var next := Next(k, ins[0]);
    if Leaving(next) {
      StepReachesDebugMode(next, ins[1..]);
    } else {
      assert ReachesDebugMode(next, ins[1..]);
    }
  }

  /** In every run from reset: after a stepped instruction, debug mode is reached within four
      clocks in which EX does not stall, and nothing is taken before. */
  lemma StepEnds(reset: Regs, before: seq<Inputs>, i: Inputs, ins: seq<Inputs>)
    requires Initial(reset) && |ins| >= 4 && forall j :: 0 <= j < |ins| ==> ins[j].exValid
    requires var k := After(reset, before); Stepping(k) && Taken(k, i)
    ensures ReachesDebugMode(Next(After(reset, before), i), ins)
    ensures NextTakenInDebug(Next(After(reset, before), i), ins)
  {
    InvariantInit(reset);
    Reachable(reset, before);
    StepLeaves(After(reset, before), i);
    StepReachesDebugMode(Next(After(reset, before), i), ins);
    OnTheWay(Next(After(reset, before), i), ins);
  }

  // ---------------------------------------------------------------------------

  /** The registers as they are clocked. */
  class Registers {
    var fsm: Fsm
    var debugMode: bool
    var illegalQ: bool
    var jumpDone: bool
    var entryQ: bool
    var wakeupQ: bool
    var reqQ: bool
    var debugFsm: DebugFsm
    var dcsr: Dcsr
    var debugRan: bool
    var branchEx: bool
    var idValid: bool
    var idKind: Kind

    function Now(): Regs reads this {
      Regs(fsm, debugMode, illegalQ, jumpDone, entryQ, wakeupQ, reqQ, debugFsm, dcsr, debugRan, branchEx, idValid, idKind)
    }

    constructor ()
      ensures Initial(Now()) && Invariant(Now())
    {
      fsm, debugFsm, dcsr, idKind := Reset, HaveReset, Dcsr(false, false), Plain;
      debugMode, illegalQ, jumpDone, entryQ, wakeupQ, reqQ, idValid := false, false, false, false, false, false, false;
      debugRan, branchEx := false, false;
    }

    method ClockDebugFsm(c: Control)
      modifies this`debugFsm
      ensures debugFsm == NextDebugFsm(old(debugFsm), c)
    {
      if debugFsm == HaveReset {
        if c.debugMode || c.next == FirstFetch {
          debugFsm := if c.debugMode then Halted else Running;
        }
      } else if debugFsm == Running {
        if c.debugMode { debugFsm := Halted; }
      } else if !c.debugMode {
        debugFsm := Running;
      }
    }

    method ClockDecode(i: Inputs, c: Control)
      modifies this`idValid, this`idKind, this`branchEx
      ensures idValid == (Enters(fsm, i, c) || (old(idValid) && !Clears(old(Now()), i, c)))
      ensures branchEx == (c.decoding && !c.haltId && i.idReady && old(idKind) == Branch)
      ensures idKind == if Enters(fsm, i, c) then i.fetched.value else old(idKind)
    {
      var killed := branchEx && i.branchTaken;
      branchEx := c.decoding && !c.haltId && i.idReady && idKind == Branch;
      if !c.haltIf && i.idReady && c.redirect == None && i.fetched.Some? && fsm != Reset {
        idValid, idKind := true, i.fetched.value;
      } else if i.idReady || c.haltId || killed {
        idValid := false;
      }
    }

    method ClockRequests(i: Inputs, c: Control)
      modifies this`reqQ, this`dcsr, this`debugRan
      ensures reqQ == (i.debugReq || (old(reqQ) && !debugMode))
      ensures dcsr == if old(debugRan) && i.dcsr.Some? then i.dcsr.value else old(dcsr)
      ensures debugRan == (c.debugMode && (old(debugRan) || (debugMode && c.decoding && !c.haltId && i.idReady)))
    {
      if i.debugReq { reqQ := true; } else if debugMode { reqQ := false; }
      if debugRan && i.dcsr.Some? { dcsr := i.dcsr.value; }
      if !c.debugMode {
        debugRan := false;
      } else if debugMode && c.decoding && !c.haltId && i.idReady {
        debugRan := true;
      }
    }

    method ClockFsm(i: Inputs, c: Control)
      modifies this`fsm, this`debugMode, this`illegalQ, this`jumpDone, this`entryQ, this`wakeupQ
      ensures fsm == c.next && debugMode == c.debugMode && illegalQ == c.illegal
      ensures entryQ == c.entry && wakeupQ == c.wakeup && jumpDone == (c.jumpDone && !i.idReady)
    {
      fsm, debugMode, illegalQ, entryQ, wakeupQ := c.next, c.debugMode, c.illegal, c.entry, c.wakeup;
      jumpDone := c.jumpDone && !i.idReady;
    }

    method ClockAll(i: Inputs, c: Control)
      modifies this
      ensures Now() == Update(old(Now()), i, c)
    {
      ghost var n := Update(Now(), i, c);
      ClockDebugFsm(c);
      ClockDecode(i, c);
      ClockRequests(i, c);
      ClockFsm(i, c);
      assert Now() == n;
    }

    /** One clock edge; taken says whether an instruction leaves ID. */
    method Clock(i: Inputs) returns (taken: bool)
      requires Invariant(Now())
      modifies this
      ensures Now() == Next(old(Now()), i) && Invariant(Now())
      ensures taken == Taken(old(Now()), i)
    {
      InvariantStep(Now(), i);
      var c := Comb(Now(), i);
      taken := c.decoding && !c.haltId && i.idReady;
      ClockAll(i, c);
    }
  }
}
