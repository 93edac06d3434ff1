// Interrupts: the interrupt controller (rtl/cv32e40p_int_controller.sv) and the part of the
// CSR file that takes traps and returns from them (rtl/cv32e40p_cs_registers.sv), for
// PULP_SECURE = 0 and PULP_CLUSTER = 0.
module Interrupts {
  type Word = s: seq<bool> | |s| == 32 witness seq(32, _ => false)
  type Id = n: nat | n < 32
  type Addr = n: nat | n < 0x1_0000_0000

  /** The bits set in IRQ_MASK, 0xFFFF0888. */
  predicate Implemented(j: Id) { j >= 16 || j == 11 || j == 7 || j == 3 }

  function And(a: Word, b: Word): Word { seq(32, j requires 0 <= j < 32 => a[j] && b[j]) }
  function Or(a: Word, b: Word): Word { seq(32, j requires 0 <= j < 32 => a[j] || b[j]) }
  function AndNot(a: Word, b: Word): Word { seq(32, j requires 0 <= j < 32 => a[j] && !b[j]) }
  function Masked(a: Word): Word { seq(32, j requires 0 <= j < 32 => a[j] && Implemented(j)) }

  // ---------------------------------------------------------------------------
  // The priority encoder.

  function TopDown(q: Word, from: Id): Id
    requires 12 <= from
    decreases from
  {
    if q[from] || from == 12 then from else TopDown(q, from - 1)
  }

  function Encode(q: Word): Id {
    if exists j :: 12 <= j < 32 && q[j] then TopDown(q, 31)
    else if q[11] then 11 else if q[3] then 3 else if q[7] then 7
    else if q[10] then 10 else if q[2] then 2 else if q[6] then 6
    else if q[9] then 9 else if q[1] then 1 else if q[5] then 5
    else if q[8] then 8 else if q[0] then 0 else if q[4] then 4
    else 7
  }

  /** Standard interrupts are external, software or timer interrupts of a privilege mode. */
  function Mode(j: Id): nat { j % 4 }
  function Urgency(j: Id): nat { if j / 4 == 2 then 2 else if j / 4 == 0 then 1 else 0 }

  /** The order that the privileged architecture gives: local interrupts by number, then the
      standard ones by mode, and within a mode external, software, timer. */
  predicate Outranks(a: Id, b: Id) {
    if a >= 12 || b >= 12 then a > b
    else Mode(a) > Mode(b) || (Mode(a) == Mode(b) && Urgency(a) > Urgency(b))
  }

  /** The order is strict and total, so that exactly one candidate is the highest. */
  lemma OutranksIsStrict(a: Id, b: Id)
    ensures !Outranks(a, a)
    ensures a != b ==> (Outranks(a, b) <==> !Outranks(b, a))
  {
  }

  /** The interrupts that exist: software, timer and external ones of machine mode, and 16 local ones. */
  lemma ImplementedLines(j: Id)
    ensures Implemented(j) <==> j in {3, 7, 11} || 16 <= j
  {
  }

  lemma {:induction false} TopDownHighest(q: Word, from: Id)
    requires 12 <= from && exists j :: 12 <= j <= from && q[j]
    ensures q[TopDown(q, from)] && 12 <= TopDown(q, from) <= from
    ensures forall j :: TopDown(q, from) < j <= from ==> !q[j]
    decreases from
  {
    if !q[from] { TopDownHighest(q, from - 1); }
  }

  /** The encoder chooses the one interrupt that outranks all other candidates. */
  lemma EncoderChoosesHighest(q: Word, j: Id)
    requires q[j]
    ensures q[Encode(q)] && (j == Encode(q) || Outranks(Encode(q), j))
  {
    if exists l :: 12 <= l < 32 && q[l] {
      assert exists l :: 12 <= l <= 31 && q[l];
      TopDownHighest(q, 31);
    } else {
      assert j < 12;
    }
  }

  // ---------------------------------------------------------------------------
  // The registers.

  datatype Cause = Cause(irq: bool, code: Id)

  /** irqQ: registered lines; ie, pie: mstatus.mie and mstatus.mpie; mie: the mie register. */
  datatype Csrs = Csrs(irqQ: Word, ie: bool, pie: bool, mie: Word, mepc: Addr, mcause: Cause, depc: Addr,
                       step: bool, stepie: bool)

  datatype Op = Read | Write | Set | Clear
  datatype Register = MStatus | Mie | MCause | MEpc | DPc | DCsr | Other

  /** What else the controller does: save the pc and the cause of an exception, enter debug
      mode, or return. */
  datatype Event = Nothing | Exception(code: Id) | EnterDebug | Mret | Dret

  /** One clock. Register and data of a CSR instruction in EX, where the value written to
      mcause, mepc and dpc is given directly; ready: the controller can take an interrupt,
      which then replaces the event. */
  datatype Inputs = Inputs(lines: Word, op: Op, reg: Register, data: Word, cause: Cause, target: Addr,
                           ready: bool, pc: Addr, event: Event)

  predicate Writes(i: Inputs, r: Register) { i.op != Read && i.reg == r }

  function Result(op: Op, data: Word, current: Word): Word {
    match op
    case Write => data
    case Set => Or(data, current)
    case Clear => AndNot(current, data)
    case Read => data
  }

  /** The bits of mstatus and dcsr that are kept here. */
  function MStatusRead(k: Csrs): Word {
    seq(32, j requires 0 <= j < 32 => if j == 3 then k.ie else j == 7 && k.pie)
  }

  function DcsrRead(k: Csrs): Word {
    seq(32, j requires 0 <= j < 32 => if j == 2 then k.step else j == 11 && k.stepie)
  }

  /** mie_bypass_o */
  function Bypass(k: Csrs, i: Inputs): Word {
    if Writes(i, Mie) then Masked(Result(i.op, i.data, k.mie)) else k.mie
  }

  function Candidates(k: Csrs, i: Inputs): Word { And(k.irqQ, Bypass(k, i)) }

  /** irq_req_ctrl_o */
  predicate Requested(k: Csrs, i: Inputs) {
    (exists j :: 0 <= j < 32 && Candidates(k, i)[j]) && k.ie && !(k.step && !k.stepie)
  }

  predicate Taken(k: Csrs, i: Inputs) { i.ready && Requested(k, i) }

  /** irq_wu_ctrl_o */
  predicate WakesUp(k: Csrs, i: Inputs) { exists j :: 0 <= j < 32 && i.lines[j] && Bypass(k, i)[j] }

  function Written(k: Csrs, i: Inputs): Csrs {
    if i.op == Read then k
    else match i.reg
      case MStatus =>
        var w := Result(i.op, i.data, MStatusRead(k));
        k.(ie := w[3], pie := w[7])
      case Mie => k.(mie := Masked(Result(i.op, i.data, k.mie)))
      case MCause => k.(mcause := i.cause)
      case MEpc => k.(mepc := i.target - i.target % 2)
      case DPc => k.(depc := i.target - i.target % 2)
      case DCsr =>
        var w := Result(i.op, i.data, DcsrRead(k));
        k.(step := w[2], stepie := w[11])
      case Other => k
  }

  function Trap(k: Csrs, w: Csrs, pc: Addr, cause: Cause): Csrs {
    w.(ie := false, pie := k.ie, mepc := pc, mcause := cause)
  }

  /** A trap or a return, after the write w of the same clock. */
  function Respond(k: Csrs, w: Csrs, i: Inputs): (n: Csrs)
    ensures n.mie == w.mie && n.irqQ == w.irqQ
  {
    if Taken(k, i) then Trap(k, w, i.pc, Cause(true, Encode(Candidates(k, i))))
    else match i.event
      case Exception(code) => Trap(k, w, i.pc, Cause(false, code))
      case EnterDebug => w.(depc := i.pc)
      case Mret => w.(ie := k.pie, pie := true)
      case _ => w
  }

  /** One clock edge: traps and returns win over writes. */
  function Next(k: Csrs, i: Inputs): Csrs { Respond(k, Written(k, i), i).(irqQ := Masked(i.lines)) }

  // ---------------------------------------------------------------------------
  // One step.

  predicate Invariant(k: Csrs) {
    forall j :: 0 <= j < 32 && !Implemented(j) ==> !k.irqQ[j] && !k.mie[j]
  }

  predicate Initial(k: Csrs) { (forall j :: 0 <= j < 32 ==> !k.irqQ[j] && !k.mie[j]) && !k.ie }

  /** The bypass is exactly the value the register has after the clock, whatever else
      happens, so that a write to mie affects the next instruction. */
  lemma BypassIsNextMie(k: Csrs, i: Inputs)
    ensures Bypass(k, i) == Next(k, i).mie
  {
    assert Written(k, i).mie == Bypass(k, i);
  }

  lemma InvariantStep(k: Csrs, i: Inputs)
    requires Invariant(k)
    ensures Invariant(Next(k, i))
  {
    BypassIsNextMie(k, i);
    LinesAreRegistered(k, i);
    forall j | 0 <= j < 32 && !Implemented(j) ensures !Masked(i.lines)[j] && !Bypass(k, i)[j] {
    }
  }

  lemma LinesAreRegistered(k: Csrs, i: Inputs)
    ensures Next(k, i).irqQ == Masked(i.lines)
  {
  }

  /** An interrupt that is taken is implemented, pending, enabled and of the highest rank, and
      after the clock mcause names it, mie still enables it, mstatus.mie is clear, mstatus.mpie
      remembers that it was set, and mepc is the saved pc. */
  lemma TakenIsEnabled(k: Csrs, i: Inputs)
    requires Invariant(k) && Taken(k, i)
    ensures var n := Next(k, i);
            var id := n.mcause.code;
            && n.mcause.irq && (id == 3 || id == 7 || id == 11 || 16 <= id) && k.irqQ[id] && n.mie[id]
            && k.ie && !n.ie && n.pie && n.mepc == i.pc && !(k.step && !k.stepie)
            && forall j :: 0 <= j < 32 && j != id && k.irqQ[j] && n.mie[j] ==> Outranks(id, j)
  {
    var q := Candidates(k, i);
    var id := Encode(q);
    var some :| 0 <= some < 32 && q[some];
    EncoderChoosesHighest(q, some);
    BypassIsNextMie(k, i);
    assert k.irqQ[id] && Bypass(k, i)[id];
    forall j | 0 <= j < 32 && j != id && k.irqQ[j] && Next(k, i).mie[j] ensures Outranks(id, j) {
      assert q[j];
      EncoderChoosesHighest(q, j);
    }
  }

  /** When an interrupt has to be taken, in terms of the mie register after the clock. */
  predicate MustTrap(k: Csrs, i: Inputs) {
    && i.ready && k.ie && (k.step ==> k.stepie)
    && exists j :: 0 <= j < 32 && k.irqQ[j] && Next(k, i).mie[j]
  }

  /** An interrupt is taken exactly when one is pending and enabled and the controller is ready. */
  lemma TakenExactly(k: Csrs, i: Inputs)
    ensures Taken(k, i) <==> MustTrap(k, i)
  {
    BypassIsNextMie(k, i);
    assert forall j :: 0 <= j < 32 ==> (Candidates(k, i)[j] <==> k.irqQ[j] && Next(k, i).mie[j]);
  }

  /** What csrrw, csrrs and csrrc leave in one bit. */
  function NewBit(op: Op, bit: bool, data: bool): bool {
    match op
    case Read => bit
    case Write => data
    case Set => if data then true else bit
    case Clear => if data then false else bit
  }

  lemma ResultBit(op: Op, data: Word, current: Word, j: Id)
    requires op != Read
    ensures Result(op, data, current)[j] == NewBit(op, current[j], data[j])
  {
  }

  lemma MieBits(k: Csrs, i: Inputs)
    ensures forall j :: 0 <= j < 32 ==>
              Written(k, i).mie[j] == if Writes(i, Mie) then Implemented(j) && NewBit(i.op, k.mie[j], i.data[j]) else k.mie[j]
  {
    if Writes(i, Mie) {
      forall j | 0 <= j < 32
        ensures Written(k, i).mie[j] == (Implemented(j) && NewBit(i.op, k.mie[j], i.data[j]))
      {
        ResultBit(i.op, i.data, k.mie, j);
      }
    }
  }

  lemma MStatusBits(k: Csrs, i: Inputs)
    requires i.reg == MStatus && i.op != Read
    ensures Written(k, i).ie == NewBit(i.op, k.ie, i.data[3]) && Written(k, i).pie == NewBit(i.op, k.pie, i.data[7])
  {
    ResultBit(i.op, i.data, MStatusRead(k), 3);
    ResultBit(i.op, i.data, MStatusRead(k), 7);
  }

  lemma DcsrBits(k: Csrs, i: Inputs)
    requires i.reg == DCsr && i.op != Read
    ensures Written(k, i).step == NewBit(i.op, k.step, i.data[2])
    ensures Written(k, i).stepie == NewBit(i.op, k.stepie, i.data[11])
  {
    ResultBit(i.op, i.data, DcsrRead(k), 2);
    ResultBit(i.op, i.data, DcsrRead(k), 11);
  }

  lemma AddressesWritten(k: Csrs, i: Inputs)
    ensures var n := Written(k, i);
            && n.mcause == (if Writes(i, MCause) then i.cause else k.mcause)
            && (if Writes(i, MEpc) then IsEven(i.target, n.mepc) else n.mepc == k.mepc)
            && (if Writes(i, DPc) then IsEven(i.target, n.depc) else n.depc == k.depc)
  {
  }

  /** The bits after a write, one by one. */
  lemma WritesBitByBit(k: Csrs, i: Inputs)
    ensures var n := Written(k, i);
            && (forall j :: 0 <= j < 32 ==>
                  n.mie[j] == if Writes(i, Mie) then Implemented(j) && NewBit(i.op, k.mie[j], i.data[j]) else k.mie[j])
            && n.ie == (if i.reg == MStatus then NewBit(i.op, k.ie, i.data[3]) else k.ie)
            && n.pie == (if i.reg == MStatus then NewBit(i.op, k.pie, i.data[7]) else k.pie)
            && n.step == (if i.reg == DCsr then NewBit(i.op, k.step, i.data[2]) else k.step)
            && n.stepie == (if i.reg == DCsr then NewBit(i.op, k.stepie, i.data[11]) else k.stepie)
            && n.mcause == (if Writes(i, MCause) then i.cause else k.mcause)
            && (if Writes(i, MEpc) then IsEven(i.target, n.mepc) else n.mepc == k.mepc)
            && (if Writes(i, DPc) then IsEven(i.target, n.depc) else n.depc == k.depc)
  {
    MieBits(k, i);
    if i.op != Read && i.reg == MStatus { MStatusBits(k, i); }
    if i.op != Read && i.reg == DCsr { DcsrBits(k, i); }
    AddressesWritten(k, i);
  }

  /** r is x with bit 0 cleared. */
  predicate IsEven(x: Addr, r: Addr) { r % 2 == 0 && (r == x || r + 1 == x) }

  /** The whole next state: what a trap, a return, an entry into debug mode and a write leave
      behind, and that nothing else changes anything. */
  lemma NextExact(k: Csrs, i: Inputs)
    ensures var n, w := Next(k, i), Written(k, i);
            var irq := MustTrap(k, i);
            var trap := irq || i.event.Exception?;
            && n.ie == (if trap then false else if i.event == Mret then k.pie else w.ie)
            && n.pie == (if trap then k.ie else if i.event == Mret then true else w.pie)
            && n.mepc == (if trap then i.pc else w.mepc)
            && n.mcause.irq == (if trap then irq else w.mcause.irq)
            && (!irq ==> n.mcause.code == if i.event.Exception? then i.event.code else w.mcause.code)
            && n.depc == (if !irq && i.event == EnterDebug then i.pc else w.depc)
            && n.mie == w.mie && n.step == w.step && n.stepie == w.stepie
            && forall j :: 0 <= j < 32 ==> n.irqQ[j] == (i.lines[j] && Implemented(j))
  {
    TakenExactly(k, i);
  }

  /** A wake-up is followed by a pending, locally enabled interrupt. */
  lemma WakeUpLeadsToPending(k: Csrs, i: Inputs)
    requires Invariant(k) && WakesUp(k, i)
    ensures exists j :: 0 <= j < 32 && Next(k, i).irqQ[j] && Next(k, i).mie[j]
  {
    var j :| 0 <= j < 32 && i.lines[j] && Bypass(k, i)[j];
    InvariantStep(k, i);
    BypassIsNextMie(k, i);
    assert Next(k, i).irqQ[j] && Next(k, i).mie[j];
  }

  /** A wake-up is exactly a line, not yet registered, that mie enables after the clock. */
  lemma WakesExactly(k: Csrs, i: Inputs)
    ensures WakesUp(k, i) <==> exists j :: 0 <= j < 32 && i.lines[j] && Next(k, i).mie[j]
  {
    BypassIsNextMie(k, i);
  }

  // ---------------------------------------------------------------------------
  // Whole runs.

  function After(k: Csrs, ins: seq<Inputs>): Csrs
    decreases |ins|
  {
    if ins == [] then k else After(Next(k, ins[0]), ins[1..])
  }

  lemma {:induction false} InvariantRun(k: Csrs, ins: seq<Inputs>)
    requires Invariant(k)
    ensures Invariant(After(k, ins))
    decreases |ins|
  {
    if ins != [] {
      InvariantStep(k, ins[0]);
      InvariantRun(Next(k, ins[0]), ins[1..]);
    }
  }

  /** Only these can set mstatus.mie again. */
  predicate Reenables(i: Inputs) { i.event == Mret || Writes(i, MStatus) }

  /** No interrupt is taken up to and including the clock of the first mret or mstatus write. */
  predicate QuietUntilReenabled(k: Csrs, ins: seq<Inputs>)
    decreases |ins|
  {
    ins == [] || (!Taken(k, ins[0]) && (Reenables(ins[0]) || QuietUntilReenabled(Next(k, ins[0]), ins[1..])))
  }

  lemma {:induction false} MaskedStaysQuiet(k: Csrs, ins: seq<Inputs>)
    requires !k.ie
    ensures QuietUntilReenabled(k, ins)
    decreases |ins|
  {
    if ins != [] && !Reenables(ins[0]) {
      MaskedStaysQuiet(Next(k, ins[0]), ins[1..]);
    }
  }

  /** In every run from reset: an interrupt that is taken was enabled, is named by mcause in the
      next clock, and no other is taken until an mret or a write to mstatus. */
  lemma InterruptSafety(reset: Csrs, before: seq<Inputs>, i: Inputs, ins: seq<Inputs>)
    requires Initial(reset) && Taken(After(reset, before), i)
    ensures var k, n := After(reset, before), Next(After(reset, before), i);
            && k.ie && n.mcause.irq && k.irqQ[n.mcause.code] && n.mie[n.mcause.code] && !n.ie
            && QuietUntilReenabled(n, ins)
  {
    InvariantRun(reset, before);
    TakenIsEnabled(After(reset, before), i);
    MaskedStaysQuiet(Next(After(reset, before), i), ins);
  }

  /** A clock in which nothing but the interrupt lines changes, and line j is high. */
  predicate WaitsFor(i: Inputs, j: Id) { i.op == Read && i.event == Nothing && i.lines[j] }

  lemma {:induction false} WaitingKeeps(k: Csrs, ins: seq<Inputs>, j: Id)
    requires forall m :: 0 <= m < |ins| ==> WaitsFor(ins[m], j) && !ins[m].ready
    requires Implemented(j) && ins != []
    ensures var n := After(k, ins);
            n.irqQ[j] && n.ie == k.ie && n.mie == k.mie && n.step == k.step && n.stepie == k.stepie
    decreases |ins|
  {
    var n := Next(k, ins[0]);
    NextExact(k, ins[0]);
    if |ins| > 1 {
      WaitingKeeps(n, ins[1..], j);
    } else {
      assert After(k, ins) == After(n, []) == n;
    }
  }

  /** An enabled interrupt whose line stays high is taken in the first clock in which the controller
      is ready, unless one that outranks it is taken then. */
  lemma PendingIsTaken(k: Csrs, waiting: seq<Inputs>, i: Inputs, j: Id)
    requires Invariant(k) && (j == 3 || j == 7 || j == 11 || 16 <= j) && k.mie[j] && k.ie && (k.step ==> k.stepie)
    requires waiting != [] && forall m :: 0 <= m < |waiting| ==> WaitsFor(waiting[m], j) && !waiting[m].ready
    requires WaitsFor(i, j) && i.ready
    ensures var s := After(k, waiting);
            var n := Next(s, i);
            && n.mcause.irq && !n.ie && n.pie && n.mepc == i.pc
            && (n.mcause.code == j || Outranks(n.mcause.code, j))
  {
    var s := After(k, waiting);
    WaitingKeeps(k, waiting, j);
    InvariantRun(k, waiting);
    NextExact(s, i);
    assert s.irqQ[j] && Next(s, i).mie[j];
    TakenExactly(s, i);
    TakenIsEnabled(s, i);
  }

  /** A clock of a handler that leaves the trap registers alone. */
  predicate Undisturbed(i: Inputs) {
    !Writes(i, MStatus) && !Writes(i, MEpc) && (i.event == Nothing || i.event == EnterDebug || i.event == Dret)
  }

  lemma {:induction false} HandlerKeeps(k: Csrs, ins: seq<Inputs>)
    requires !k.ie && forall j :: 0 <= j < |ins| ==> Undisturbed(ins[j])
    ensures var n := After(k, ins); n.ie == k.ie && n.pie == k.pie && n.mepc == k.mepc
    decreases |ins|
  {
    if ins != [] {
      assert !Taken(k, ins[0]);
      HandlerKeeps(Next(k, ins[0]), ins[1..]);
    }
  }

  /** A trap, a handler and mret: mstatus.mie is what it was before the trap, and mepc, where
      the program continues, is the pc that the trap saved. */
  lemma TrapReturnRoundTrip(k: Csrs, i: Inputs, handler: seq<Inputs>, ret: Inputs)
    requires Taken(k, i) || i.event.Exception?
    requires forall j :: 0 <= j < |handler| ==> Undisturbed(handler[j])
    requires ret.event == Mret
    ensures var s := After(Next(k, i), handler);
            s.mepc == i.pc && !Taken(s, ret) && Next(s, ret).ie == k.ie && Next(s, ret).pie
  {
    HandlerKeeps(Next(k, i), handler);
  }

  // ---------------------------------------------------------------------------

  /** The registers as they are clocked. */
  class CsrFile {
    var irqQ: Word
    var ie: bool
    var pie: bool
    var mie: Word
    var mepc: Addr
    var mcause: Cause
    var depc: Addr
    var step: bool
    var stepie: bool

    function Now(): Csrs reads this { Csrs(irqQ, ie, pie, mie, mepc, mcause, depc, step, stepie) }

    constructor ()
      ensures Initial(Now()) && Invariant(Now())
    {
      irqQ, mie := seq(32, _ => false), seq(32, _ => false);
      ie, pie, step, stepie, mepc, depc, mcause := false, false, false, false, 0, 0, Cause(false, 0);
    }

    method WriteRegister(i: Inputs)
      modifies this
      ensures Now() == Written(old(Now()), i)
    {
      if i.op != Read {
        match i.reg {
          case MStatus =>
            var w := Result(i.op, i.data, MStatusRead(Now()));
            ie, pie := w[3], w[7];
          case Mie => mie := Masked(Result(i.op, i.data, mie));
          case MCause => mcause := i.cause;
          case MEpc => mepc := i.target - i.target % 2;
          case DPc => depc := i.target - i.target % 2;
          case DCsr =>
            var w := Result(i.op, i.data, DcsrRead(Now()));
            step, stepie := w[2], w[11];
          case Other =>
        }
      }
    }

    /** One clock edge; taken says whether an interrupt is taken. */
    method Clock(i: Inputs) returns (taken: bool)
      requires Invariant(Now())
      modifies this
      ensures Now() == Next(old(Now()), i) && Invariant(Now())
      ensures taken == Taken(old(Now()), i)
    {
      InvariantStep(Now(), i);
      var q, ieQ, pieQ := Candidates(Now(), i), ie, pie;
      taken := i.ready && (exists j :: 0 <= j < 32 && q[j]) && ie && !(step && !stepie);
      WriteRegister(i);
      if taken {
        ie, pie, mepc, mcause := false, ieQ, i.pc, Cause(true, Encode(q));
      } else {
        match i.event {
          case Exception(code) => ie, pie, mepc, mcause := false, ieQ, i.pc, Cause(false, code);
          case EnterDebug => depc := i.pc;
          case Mret => ie, pie := pieQ, true;
          case _ =>
        }
      }
      irqQ := Masked(i.lines);
    }
  }
}
