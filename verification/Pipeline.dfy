// The ID, EX and WB stages with their stalls and forwarding paths
// (rtl/cv32e40p_controller.sv, rtl/cv32e40p_id_stage.sv, rtl/cv32e40p_ex_stage.sv)
// refine a machine that executes one instruction at a time.
module Isa {
  import opened Options

  type Word = w: nat | w < 0x1_0000_0000
  type Reg = r: nat | r < 32
  type Memory = map<Word, Word>
  type Source = Option<Reg>

  /** The base register update of a post-increment load or store. */
  datatype Update = Update(base: Reg, f: (Word, Word) -> Word)

  /** Instruction classes. Immediates and operation codes are inside the functions;
      an unused source reads as zero, so a function depends on used sources only. */
  datatype Instr =
    | Alu(rd: Reg, a: Source, b: Source, c: Source, f: (Word, Word, Word) -> Word)
    | Load(rd: Reg, a: Source, b: Source, load: (Memory, Word, Word) -> Word, post: Option<Update>)
    | Store(a: Source, b: Source, c: Source, store: (Memory, Word, Word, Word) -> Memory, post: Option<Update>)
    | Branch(a: Source, b: Source, cond: (Word, Word) -> bool, target: Word)
    | Jal(rd: Reg, target: Word)
    | Jalr(rd: Reg, base: Reg, offset: Word)

  /** An instruction with the address of its successor in memory (2 or 4 bytes on). */
  datatype Fetched = Fetched(instr: Instr, next: Word)

  type Program = Word -> Fetched

  datatype Arch = Arch(pc: Word, regs: seq<Word>, mem: Memory)

  predicate RegFile(regs: seq<Word>) {
    |regs| == 32 && regs[0] == 0
  }

  function WriteReg(regs: seq<Word>, r: Reg, v: Word): (n: seq<Word>)
    requires RegFile(regs)
    ensures RegFile(n)
    ensures forall q :: 0 <= q < 32 ==> n[q] == if q == r && r != 0 then v else regs[q]
  {
    if r == 0 then regs else regs[r := v]
  }

  function ReadSource(regs: seq<Word>, s: Source): (v: Word)
    requires RegFile(regs)
    ensures v == match s case Some(r) => regs[r] case None => 0
  {
    if s.Some? then regs[s.value] else 0
  }

  /** Jump targets have bit 0 cleared: the even one of x and x - 1. */
  function Even(x: Word): (r: Word)
    ensures r % 2 == 0 && (r == x || r + 1 == x)
  {
    x - x % 2
  }

  /** The sum of 32 bits: the sum, or what is left of it without its carry. */
  function Add(x: Word, y: Word): (r: Word)
    ensures r == x + y || r + 0x1_0000_0000 == x + y
  {
    (x + y) % 0x1_0000_0000
  }

  function Updated(regs: seq<Word>, post: Option<Update>, a: Word, b: Word): (n: seq<Word>)
    requires RegFile(regs)
    ensures RegFile(n)
  {
    if post.Some? then WriteReg(regs, post.value.base, post.value.f(a, b)) else regs
  }

  /** One instruction of the sequential machine. */
  function Execute(program: Program, s: Arch): (n: Arch)
    requires RegFile(s.regs)
    ensures RegFile(n.regs)
  {
    var Fetched(i, next) := program(s.pc);
    match i
    case Alu(rd, a, b, c, f) =>
      Arch(next, WriteReg(s.regs, rd, f(ReadSource(s.regs, a), ReadSource(s.regs, b), ReadSource(s.regs, c))), s.mem)
    case Load(rd, a, b, load, post) =>
      var x, y := ReadSource(s.regs, a), ReadSource(s.regs, b);
      Arch(next, WriteReg(Updated(s.regs, post, x, y), rd, load(s.mem, x, y)), s.mem)
    case Store(a, b, c, store, post) =>
      var x, y := ReadSource(s.regs, a), ReadSource(s.regs, b);
      Arch(next, Updated(s.regs, post, x, y), store(s.mem, x, y, ReadSource(s.regs, c)))
    case Branch(a, b, cond, target) =>
      Arch(if cond(ReadSource(s.regs, a), ReadSource(s.regs, b)) then Even(target) else next, s.regs, s.mem)
    case Jal(rd, target) => Arch(Even(target), WriteReg(s.regs, rd, next), s.mem)
    case Jalr(rd, base, offset) => Arch(Even(Add(s.regs[base], offset)), WriteReg(s.regs, rd, next), s.mem)
  }

  /** x, y and z are what the fields of the instruction name, as far as it has such fields. */
  predicate OperandsOf(regs: seq<Word>, i: Instr, x: Word, y: Word, z: Word)
    requires RegFile(regs)
  {
    match i
    case Alu(_, a, b, c, _) => x == ReadSource(regs, a) && y == ReadSource(regs, b) && z == ReadSource(regs, c)
    case Load(_, a, b, _, _) => x == ReadSource(regs, a) && y == ReadSource(regs, b)
    case Store(a, b, c, _, _) => x == ReadSource(regs, a) && y == ReadSource(regs, b) && z == ReadSource(regs, c)
    case Branch(a, b, _, _) => x == ReadSource(regs, a) && y == ReadSource(regs, b)
    case Jal(_, _) => true
    case Jalr(_, base, _) => x == regs[base]
  }

  function ExecuteMany(program: Program, s: Arch, n: nat): (r: Arch)
    requires RegFile(s.regs)
    ensures RegFile(r.regs)
  {
    if n == 0 then s else Execute(program, ExecuteMany(program, s, n - 1))
  }
}

module Pipeline {
  import opened Options
  import opened Isa

  /** IF/ID registers; jumpDone is the controller's jump_done_q. */
  datatype IfId = IfId(valid: bool, pc: Word, fetched: Fetched, jumpDone: bool)

  /** ID/EX registers. instr and the operands stand for operator and operand registers. */
  datatype IdEx = IdEx(aluEn: bool, aluWe: bool, aluWaddr: Reg, memWe: bool, memWaddr: Reg,
                       dataReq: bool, branch: bool, fetched: Fetched, a: Word, b: Word, c: Word)

  /** EX/WB registers, with the response that the memory owes the load in WB. */
  datatype ExWb = ExWb(memWe: bool, waddr: Reg, response: Word)

  datatype Core = Core(pcIf: Word, id: IfId, ex: IdEx, wb: ExWb, regs: seq<Word>, mem: Memory)

  /** What the surroundings do in one clock: fetch, the two halves of the LSU and a
      multi-cycle ALU operation may each be late, and a late unit drives any value. */
  datatype Env = Env(fetchValid: bool, wbReady: bool, lsuReady: bool, aluReady: bool,
                     aluJunk: Word, memJunk: Word)

  // ---------------------------------------------------------------------------
  // EX and WB stage outputs.

  function AluResult(ex: IdEx): Word {
    match ex.fetched.instr
    case Alu(_, _, _, _, f) => f(ex.a, ex.b, ex.c)
    case Load(_, _, _, _, Some(u)) => u.f(ex.a, ex.b)
    case Store(_, _, _, _, Some(u)) => u.f(ex.a, ex.b)
    case _ => ex.fetched.next
  }

  /** regfile_alu_wdata_fw_o and regfile_wdata_wb_o. */
  function AluData(k: Core, e: Env): Word { if e.aluReady then AluResult(k.ex) else e.aluJunk }
  function WbData(k: Core, e: Env): Word { if e.wbReady then k.wb.response else e.memJunk }

  predicate Finishes(k: Core, e: Env) {
    e.aluReady && (!k.ex.dataReq || e.lsuReady) && e.wbReady
  }

  predicate ExReady(k: Core, e: Env) { Finishes(k, e) || k.ex.branch }
  predicate ExValid(k: Core, e: Env) { (k.ex.aluEn || k.ex.dataReq) && Finishes(k, e) }

  predicate BranchTaken(k: Core) {
    k.ex.branch && k.ex.fetched.instr.Branch? && k.ex.fetched.instr.cond(k.ex.a, k.ex.b)
  }

  // ---------------------------------------------------------------------------
  // Decoding, stalls and forwarding.

  /** The registers that the decoder selects for the operands (rega_used, regb_used, regc_used). */
  function SourceA(i: Instr): Source {
    match i
    case Alu(_, a, _, _, _) => a
    case Load(_, a, _, _, _) => a
    case Store(a, _, _, _, _) => a
    case Branch(a, _, _, _) => a
    case Jal(_, _) => None
    case Jalr(_, base, _) => Some(base)
  }

  function SourceB(i: Instr): Source {
    match i
    case Alu(_, _, b, _, _) => b
    case Load(_, _, b, _, _) => b
    case Store(_, b, _, _, _) => b
    case Branch(_, b, _, _) => b
    case _ => None
  }

  function SourceC(i: Instr): Source {
    match i
    case Alu(_, _, _, c, _) => c
    case Store(_, _, c, _, _) => c
    case _ => None
  }

  /** regfile_alu_we_dec and regfile_alu_waddr_id: what the instruction writes from EX. */
  function ExDest(i: Instr): Option<Reg> {
    match i
    case Alu(rd, _, _, _, _) => Some(rd)
    case Jal(rd, _) => Some(rd)
    case Jalr(rd, _, _) => Some(rd)
    case Load(_, _, _, _, Some(u)) => Some(u.base)
    case Store(_, _, _, _, Some(u)) => Some(u.base)
    case _ => None
  }

  predicate UsesData(i: Instr) { i.Load? || i.Store? }
  predicate IsJump(i: Instr) { i.Jal? || i.Jalr? }

  /** reg_d_*_is_reg_*_id */
  predicate Matches(waddr: Reg, s: Source) { s.Some? && waddr == s.value && s.value != 0 }

  predicate IsDecoding(k: Core) { k.id.valid && !BranchTaken(k) }

  predicate LoadStall(k: Core, e: Env) {
    var i := k.id.fetched.instr;
    && ((k.ex.dataReq && k.ex.memWe) || (!e.wbReady && k.wb.memWe))
    && (Matches(k.ex.memWaddr, SourceA(i)) || Matches(k.ex.memWaddr, SourceB(i)) || Matches(k.ex.memWaddr, SourceC(i))
        || (IsDecoding(k) && ExDest(i) == Some(k.ex.memWaddr)))
  }

  predicate JrStall(k: Core) {
    var i := k.id.fetched.instr;
    i.Jalr? && ((k.wb.memWe && Matches(k.wb.waddr, SourceA(i)))
                || (k.ex.memWe && Matches(k.ex.memWaddr, SourceA(i)))
                || (k.ex.aluWe && Matches(k.ex.aluWaddr, SourceA(i))))
  }

  predicate IdReady(k: Core, e: Env) { !JrStall(k) && !LoadStall(k, e) && ExReady(k, e) }

  /** deassert_we_o */
  predicate Deassert(k: Core, e: Env) { !IsDecoding(k) || LoadStall(k, e) || JrStall(k) }

  /** The instruction in ID enters EX. */
  predicate Issues(k: Core, e: Env) { IdReady(k, e) && !Deassert(k, e) }

  /** operand_*_fw_id: an EX result goes before a WB result, and the register file is last. */
  function Operand(k: Core, e: Env, s: Source): Word requires RegFile(k.regs) {
    if k.ex.aluWe && Matches(k.ex.aluWaddr, s) then AluData(k, e)
    else if k.wb.memWe && Matches(k.wb.waddr, s) then WbData(k, e)
    else ReadSource(k.regs, s)
  }

  /** jump_target: jalr reads the register file without forwarding. */
  function JumpTarget(k: Core): Word requires RegFile(k.regs) && IsJump(k.id.fetched.instr) {
    match k.id.fetched.instr
    case Jal(_, target) => Even(target)
    case Jalr(_, base, offset) => Even(Add(k.regs[base], offset))
  }

  predicate JumpsNow(k: Core) {
    IsDecoding(k) && IsJump(k.id.fetched.instr) && !JrStall(k) && !k.id.jumpDone
  }

  predicate PcSet(k: Core) { BranchTaken(k) || JumpsNow(k) }

  function PcTarget(k: Core): Word requires RegFile(k.regs) && PcSet(k) {
    if BranchTaken(k) then Even(k.ex.fetched.instr.target) else JumpTarget(k)
  }

  /** A new instruction enters ID; a jump in the same clock suppresses it. */
  predicate Fetches(k: Core, e: Env) { e.fetchValid && !PcSet(k) && IdReady(k, e) }

  // ---------------------------------------------------------------------------
  // One clock edge.

  function NextPcIf(program: Program, k: Core, e: Env): Word requires RegFile(k.regs) {
    if PcSet(k) then PcTarget(k) else if Fetches(k, e) then program(k.pcIf).next else k.pcIf
  }

  function NextId(program: Program, k: Core, e: Env): IfId {
    var done := (k.id.jumpDone || JumpsNow(k)) && !IdReady(k, e);
    if Fetches(k, e) then IfId(true, k.pcIf, program(k.pcIf), done)
    else k.id.(valid := k.id.valid && !IdReady(k, e) && !BranchTaken(k), jumpDone := done)
  }

  function NextEx(k: Core, e: Env): IdEx requires RegFile(k.regs) {
    if IdReady(k, e) then
      var i := k.id.fetched.instr;
      var on := !Deassert(k, e);
      var addressed := k.ex.(aluEn := on, aluWe := on && ExDest(i).Some?, memWe := on && i.Load?,
                             dataReq := on && UsesData(i), branch := on && i.Branch?,
                             aluWaddr := if on && ExDest(i).Some? then ExDest(i).value else k.ex.aluWaddr,
                             memWaddr := if on && i.Load? then i.rd else k.ex.memWaddr);
      if on then addressed.(fetched := k.id.fetched, a := Operand(k, e, SourceA(i)),
                            b := Operand(k, e, SourceB(i)), c := Operand(k, e, SourceC(i)))
      else addressed
    else if ExReady(k, e) then
      k.ex.(aluEn := true, aluWe := false, memWe := false, dataReq := false, branch := false)
    else k.ex
  }

  function LoadResponse(k: Core): Word {
    match k.ex.fetched.instr
    case Load(_, _, _, load, _) => load(k.mem, k.ex.a, k.ex.b)
    case _ => k.wb.response
  }

  function NextWb(k: Core, e: Env): ExWb {
    if ExValid(k, e) then
      if k.ex.memWe then ExWb(true, k.ex.memWaddr, LoadResponse(k)) else k.wb.(memWe := false)
    else if e.wbReady then k.wb.(memWe := false)
    else k.wb
  }

  /** The memory performs a store when it leaves EX. */
  function NextMem(k: Core, e: Env): Memory {
    match k.ex.fetched.instr
    case Store(_, _, _, store, _) =>
      if ExValid(k, e) && k.ex.dataReq then store(k.mem, k.ex.a, k.ex.b, k.ex.c) else k.mem
    case _ => k.mem
  }

  /** Both write ports; the ALU port wins, and neither port waits for readiness. */
  function NextRegs(k: Core, e: Env): (n: seq<Word>)
    requires RegFile(k.regs)
    ensures RegFile(n)
  {
    var r := if k.wb.memWe then WriteReg(k.regs, k.wb.waddr, WbData(k, e)) else k.regs;
    if k.ex.aluWe then WriteReg(r, k.ex.aluWaddr, AluData(k, e)) else r
  }

  function Next(program: Program, k: Core, e: Env): (n: Core)
    requires RegFile(k.regs)
    ensures RegFile(n.regs)
  {
    Core(NextPcIf(program, k, e), NextId(program, k, e), NextEx(k, e), NextWb(k, e), NextRegs(k, e), NextMem(k, e))
  }

  // ---------------------------------------------------------------------------
  // The refinement relation: the sequential machine has executed every issued
  // instruction, so it is ahead by what EX and WB still hold.

  /** The value register r will have once EX and WB are drained. */
  function Pending(k: Core, r: Reg): Word requires RegFile(k.regs) {
    if r == 0 then 0
    else if k.ex.memWe && k.ex.memWaddr == r then LoadResponse(k)
    else if k.ex.aluWe && k.ex.aluWaddr == r then AluResult(k.ex)
    else if k.wb.memWe && k.wb.waddr == r then k.wb.response
    else k.regs[r]
  }

  function PendingMem(k: Core): Memory {
    match k.ex.fetched.instr
    case Store(_, _, _, store, _) => if k.ex.dataReq then store(k.mem, k.ex.a, k.ex.b, k.ex.c) else k.mem
    case _ => k.mem
  }

  /** EX holds one instruction at a time; its flags agree with it. */
  ghost predicate ExConsistent(k: Core) {
    && (k.ex.aluWe ==> ExDest(k.ex.fetched.instr).Some? && !k.ex.branch)
    && (k.ex.memWe ==> k.ex.fetched.instr.Load? && k.ex.dataReq)
    && (k.ex.dataReq ==> UsesData(k.ex.fetched.instr) && !k.ex.branch)
    && (k.ex.branch ==> k.ex.fetched.instr.Branch?)
    // A load in WB is still named by the EX address, unless a younger load has taken it:
    // this is what the second half of the load stall relies on.
    && (k.wb.memWe ==> k.ex.memWe || k.ex.memWaddr == k.wb.waddr)
  }

  ghost predicate DataAgrees(k: Core, s: Arch) {
    && RegFile(k.regs) && RegFile(s.regs)
    && (forall r: Reg :: Pending(k, r) == s.regs[r])
    && PendingMem(k) == s.mem
  }

  /** The next instruction of the sequential machine is the target of a taken branch in
      EX, or the one in ID, or the one to be fetched. */
  ghost predicate ControlAgrees(program: Program, k: Core, s: Arch) {
    && (k.id.valid ==> k.id.fetched == program(k.id.pc))
    && (k.id.jumpDone ==> k.id.valid && IsJump(k.id.fetched.instr) && !k.ex.branch)
    && (if BranchTaken(k) then s.pc == Even(k.ex.fetched.instr.target)
        else if !k.id.valid then s.pc == k.pcIf
        else s.pc == k.id.pc
             && k.pcIf == if k.id.jumpDone && RegFile(s.regs) then Execute(program, s).pc else k.id.fetched.next)
  }

  ghost predicate Refines(program: Program, k: Core, s: Arch) {
    ExConsistent(k) && DataAgrees(k, s) && ControlAgrees(program, k, s)
  }

  lemma SourceCorrect(k: Core, e: Env, s: Arch, src: Source)
    requires ExConsistent(k) && DataAgrees(k, s)
    requires ExReady(k, e) && !LoadStall(k, e)
    requires src in {SourceA(k.id.fetched.instr), SourceB(k.id.fetched.instr), SourceC(k.id.fetched.instr)}
    ensures Operand(k, e, src) == ReadSource(s.regs, src)
  {
    if src.Some? { assert Pending(k, src.value) == s.regs[src.value]; }
  }

  /** The operands latched into ID/EX are what the sequential machine reads for the fields of
      the instruction. */
  lemma OperandCorrect(k: Core, e: Env, s: Arch)
    requires ExConsistent(k) && DataAgrees(k, s)
    requires ExReady(k, e) && !LoadStall(k, e)
    ensures var i := k.id.fetched.instr;
            OperandsOf(s.regs, i, Operand(k, e, SourceA(i)), Operand(k, e, SourceB(i)), Operand(k, e, SourceC(i)))
  {
    var i := k.id.fetched.instr;
    SourceCorrect(k, e, s, SourceA(i));
    SourceCorrect(k, e, s, SourceB(i));
    SourceCorrect(k, e, s, SourceC(i));
  }

  /** Whenever jr_stall is low, the unforwarded base register of a jalr is committed. */
  lemma JalrReadsCommittedState(k: Core, s: Arch)
    requires ExConsistent(k) && DataAgrees(k, s) && k.id.fetched.instr.Jalr? && !JrStall(k)
    ensures var base := k.id.fetched.instr.base; k.regs[base] == s.regs[base]
  {
    assert Pending(k, k.id.fetched.instr.base) == s.regs[k.id.fetched.instr.base];
  }

  /** The sequential machine moves exactly when an instruction issues. */
  function Follow(program: Program, k: Core, e: Env, s: Arch): (n: Arch)
    requires RegFile(s.regs)
    ensures RegFile(n.regs)
  {
    if Issues(k, e) then Execute(program, s) else s
  }

  lemma ExConsistentStep(program: Program, k: Core, e: Env)
    requires RegFile(k.regs) && ExConsistent(k)
    ensures ExConsistent(Next(program, k, e))
  {
  }

  /** Without an issue the drained values stay the same, whatever the late units drive. */
  lemma DrainStep(program: Program, k: Core, e: Env, s: Arch)
    requires ExConsistent(k) && DataAgrees(k, s) && !Issues(k, e)
    ensures DataAgrees(Next(program, k, e), s)
  {
    var n := Next(program, k, e);
    forall r: Reg ensures Pending(n, r) == s.regs[r] { assert Pending(k, r) == s.regs[r]; }
  }

  /** An issued instruction adds exactly its own effect to the drained values. */
  lemma IssueStep(program: Program, k: Core, e: Env, s: Arch)
    requires ExConsistent(k) && DataAgrees(k, s) && ControlAgrees(program, k, s) && Issues(k, e)
    ensures DataAgrees(Next(program, k, e), Execute(program, s))
  {
    var n := Next(program, k, e);
    var i := k.id.fetched.instr;
    var t := Execute(program, s);
    assert program(s.pc) == k.id.fetched;
    OperandCorrect(k, e, s);
    MemSettles(k, e);
    forall r: Reg ensures Pending(n, r) == t.regs[r] {
      assert Pending(k, r) == s.regs[r];
      Settles(program, k, e, r);
    }
  }

  /** The instruction leaving EX leaves its effect in WB, the registers or the memory. */
  lemma MemSettles(k: Core, e: Env)
    requires ExConsistent(k) && ExReady(k, e)
    ensures NextMem(k, e) == PendingMem(k)
  {
  }

  lemma Settles(program: Program, k: Core, e: Env, r: Reg)
    requires RegFile(k.regs) && ExConsistent(k) && ExReady(k, e)
    ensures var wb := NextWb(k, e);
            Pending(k, r) == if r == 0 then 0 else if wb.memWe && wb.waddr == r then wb.response else NextRegs(k, e)[r]
  {
  }

  lemma ControlStep(program: Program, k: Core, e: Env, s: Arch)
    requires ExConsistent(k) && DataAgrees(k, s) && ControlAgrees(program, k, s)
    ensures ControlAgrees(program, Next(program, k, e), Follow(program, k, e, s))
  {
    var n := Next(program, k, e);
    if k.id.valid && k.id.fetched.instr.Jalr? && !JrStall(k) { JalrReadsCommittedState(k, s); }
    if Issues(k, e) { OperandCorrect(k, e, s); }
  }

  /** One clock edge keeps the refinement relation, for every fetch delay, memory
      delay, ALU delay and every value on a port that is not ready. */
  lemma StepRefines(program: Program, k: Core, e: Env, s: Arch)
    requires Refines(program, k, s)
    ensures Refines(program, Next(program, k, e), Follow(program, k, e, s))
  {
    ExConsistentStep(program, k, e);
    ControlStep(program, k, e, s);
    if Issues(k, e) { IssueStep(program, k, e, s); } else { DrainStep(program, k, e, s); }
  }

  /** What enters EX is the sequential machine's next instruction with its operands,
      and every jump and taken branch goes where the sequential machine goes. */
  lemma IssueIsSequential(program: Program, k: Core, e: Env, s: Arch)
    requires Refines(program, k, s)
    ensures Issues(k, e) ==>
              var x := NextEx(k, e);
              && k.id.pc == s.pc && x.fetched == program(s.pc)
              && OperandsOf(s.regs, x.fetched.instr, x.a, x.b, x.c)
    ensures JumpsNow(k) ==> PcTarget(k) == Execute(program, s).pc
    ensures BranchTaken(k) ==> PcTarget(k) == s.pc
  {
    if JumpsNow(k) && k.id.fetched.instr.Jalr? { JalrReadsCommittedState(k, s); }
    if Issues(k, e) { OperandCorrect(k, e, s); }
  }

  // ---------------------------------------------------------------------------
  // Whole runs.

  function Run(program: Program, k: Core, es: seq<Env>): (n: Core)
    requires RegFile(k.regs)
    ensures RegFile(n.regs)
  {
    if es == [] then k else Next(program, Run(program, k, es[..|es| - 1]), es[|es| - 1])
  }

  /** How many instructions entered EX in a run. */
  function Issued(program: Program, k: Core, es: seq<Env>): nat
    requires RegFile(k.regs)
  {
    if es == [] then 0
    else Issued(program, k, es[..|es| - 1])
         + if Issues(Run(program, k, es[..|es| - 1]), es[|es| - 1]) then 1 else 0
  }

  predicate Drained(k: Core) {
    !k.ex.aluWe && !k.ex.memWe && !k.ex.dataReq && !k.ex.branch && !k.wb.memWe
  }

  /** After reset and the jump to the boot address. */
  function Reset(boot: Word, mem: Memory): Core {
    var nothing := Fetched(Jal(0, 0), 0);
    Core(boot, IfId(false, 0, nothing, false),
         IdEx(false, false, 0, false, 0, false, false, nothing, 0, 0, 0),
         ExWb(false, 0, 0), seq(32, i => 0 as Word), mem)
  }

  function ArchReset(boot: Word, mem: Memory): (s: Arch)
    ensures RegFile(s.regs)
  {
    Arch(boot, seq(32, i => 0 as Word), mem)
  }

  lemma ResetRefines(program: Program, boot: Word, mem: Memory)
    ensures Refines(program, Reset(boot, mem), ArchReset(boot, mem))
  {
    assert forall r: Reg :: Pending(Reset(boot, mem), r) == 0;
  }

  lemma {:induction false} RunRefines(program: Program, k: Core, s: Arch, es: seq<Env>)
    requires Refines(program, k, s)
    ensures Refines(program, Run(program, k, es), ExecuteMany(program, s, Issued(program, k, es)))
  {
    if es != [] {
      var before := es[..|es| - 1];
      var m, t := Run(program, k, before), ExecuteMany(program, s, Issued(program, k, before));
      assert Refines(program, m, t) by { RunRefines(program, k, s, before); }
      assert Refines(program, Next(program, m, es[|es| - 1]), Follow(program, m, es[|es| - 1], t)) by {
        StepRefines(program, m, es[|es| - 1], t);
      }
    }
  }

  lemma DrainedAgrees(program: Program, k: Core, s: Arch)
    requires Refines(program, k, s) && Drained(k)
    ensures k.regs == s.regs && k.mem == s.mem && s.pc == if k.id.valid then k.id.pc else k.pcIf
  {
    forall r | 0 <= r < 32 ensures k.regs[r] == s.regs[r] { assert Pending(k, r) == s.regs[r]; }
  }

  /** For every program and every pattern of delays, the pipeline has executed a
      prefix of the sequential execution; once it is drained, the registers, the
      memory and the next address are those of the sequential machine. */
  lemma PipelineRefinesSequential(program: Program, boot: Word, mem: Memory, es: seq<Env>)
    ensures var s := ExecuteMany(program, ArchReset(boot, mem), Issued(program, Reset(boot, mem), es));
            var k := Run(program, Reset(boot, mem), es);
            && Refines(program, k, s)
            && (Drained(k) ==> k.regs == s.regs && k.mem == s.mem
                               && s.pc == if k.id.valid then k.id.pc else k.pcIf)
  {
    ResetRefines(program, boot, mem);
    RunRefines(program, Reset(boot, mem), ArchReset(boot, mem), es);
    var k := Run(program, Reset(boot, mem), es);
    if Drained(k) {
      DrainedAgrees(program, k, ExecuteMany(program, ArchReset(boot, mem), Issued(program, Reset(boot, mem), es)));
    }
  }

  // ---------------------------------------------------------------------------
  // What stalls, and what does not.

  /** The instruction reads register r, in terms of its fields. */
  predicate Reads(i: Instr, r: Reg) {
    match i
    case Alu(_, a, b, c, _) => a == Some(r) || b == Some(r) || c == Some(r)
    case Load(_, a, b, _, _) => a == Some(r) || b == Some(r)
    case Store(a, b, c, _, _) => a == Some(r) || b == Some(r) || c == Some(r)
    case Branch(a, b, _, _) => a == Some(r) || b == Some(r)
    case Jal(_, _) => false
    case Jalr(_, base, _) => base == r
  }

  /** The instruction writes register r from EX. */
  predicate WritesFromEx(i: Instr, r: Reg) {
    match i
    case Alu(rd, _, _, _, _) => rd == r
    case Load(_, _, _, _, post) => post.Some? && post.value.base == r
    case Store(_, _, _, _, post) => post.Some? && post.value.base == r
    case Branch(_, _, _, _) => false
    case Jal(rd, _) => rd == r
    case Jalr(rd, _, _) => rd == r
  }

  /** The value of register r is still to come from the memory. */
  predicate Late(k: Core, e: Env, r: Reg) {
    (k.ex.memWe && k.ex.memWaddr == r) || (!e.wbReady && k.wb.memWe && k.wb.waddr == r)
  }

  /** Some result for register r is not in the register file yet. */
  predicate InFlight(k: Core, r: Reg) {
    (k.ex.memWe && k.ex.memWaddr == r) || (k.ex.aluWe && k.ex.aluWaddr == r) || (k.wb.memWe && k.wb.waddr == r)
  }

  /** Exactly when an instruction issues: EX is free, no register that it reads or writes from EX is
      late, and a jalr finds its base register in the register file. */
  lemma IssuesExactly(k: Core, e: Env)
    requires ExConsistent(k) && IsDecoding(k)
    ensures var i := k.id.fetched.instr;
            Issues(k, e) <==>
              && ExReady(k, e)
              && (forall r: Reg :: Late(k, e, r) ==> !(Reads(i, r) && r != 0) && !WritesFromEx(i, r))
              && (i.Jalr? && i.base != 0 ==> !InFlight(k, i.base))
  {
    var i := k.id.fetched.instr;
    if LoadStall(k, e) && ExReady(k, e) {
      assert Late(k, e, k.ex.memWaddr);
    }
  }

  /** A late unit holds EX, and only if EX needs it; a branch is never held. */
  lemma LateUnitsHoldEx(program: Program, k: Core, e: Env)
    requires RegFile(k.regs) && ExConsistent(k)
    ensures ExReady(k, e) <==> k.ex.branch || (e.aluReady && e.wbReady && (k.ex.dataReq ==> e.lsuReady))
    ensures !ExReady(k, e) ==>
              var n := Next(program, k, e);
              n.ex == k.ex && n.mem == k.mem && !Issues(k, e) && (n.wb == k.wb || (e.wbReady && !n.wb.memWe))
  {
  }

  // ---------------------------------------------------------------------------
  // Progress: stalls end.

  predicate AllReady(e: Env) { e.fetchValid && e.wbReady && e.lsuReady && e.aluReady }

  /** How many clocks the results in EX and WB can still stall ID. */
  function StallsLeft(k: Core): nat {
    if k.ex.memWe || k.ex.aluWe then 2 else if k.wb.memWe then 1 else 0
  }

  function Distance(k: Core): nat {
    if BranchTaken(k) then 6 else if !k.id.valid then 3 + StallsLeft(k) else StallsLeft(k)
  }

  /** A clock with everything ready issues an instruction or comes closer to it, so
      one issues at least every seven such clocks. */
  lemma ReadyClockProgresses(program: Program, k: Core, e: Env)
    requires RegFile(k.regs) && ExConsistent(k) && AllReady(e) && !Issues(k, e)
    ensures Distance(Next(program, k, e)) < Distance(k) <= 6
  {
  }

  /** es[from..] only has ready clocks. */
  predicate ReadyFrom(es: seq<Env>, from: nat) { forall j :: from <= j < |es| ==> AllReady(es[j]) }

  lemma {:induction false} RunConsistent(program: Program, k: Core, es: seq<Env>)
    requires RegFile(k.regs) && ExConsistent(k)
    ensures ExConsistent(Run(program, k, es))
    decreases |es|
  {
    if es != [] {
      RunConsistent(program, k, es[..|es| - 1]);
      ExConsistentStep(program, Run(program, k, es[..|es| - 1]), es[|es| - 1]);
    }
  }

  /** While ready clocks issue nothing, they come closer to an issue. */
  lemma {:induction false} ReadyClocksApproach(program: Program, k: Core, es: seq<Env>, from: nat)
    requires RegFile(k.regs) && ExConsistent(k) && from < |es| && ReadyFrom(es, from)
    ensures Issued(program, k, es) > Issued(program, k, es[..from])
            || (Issued(program, k, es) == Issued(program, k, es[..from])
                && Distance(Run(program, k, es)) + (|es| - from) <= 6)
    decreases |es|
  {
    var n := |es| - 1;
    var before, e := es[..n], es[n];
    var m := Run(program, k, before);
    assert ExConsistent(m) by { RunConsistent(program, k, before); }
    assert !Issues(m, e) ==> Distance(Run(program, k, es)) < Distance(m) <= 6 by {
      if !Issues(m, e) { ReadyClockProgresses(program, m, e); }
    }
    if from < n {
      ReadyClocksApproach(program, k, before, from);
      assert before[..from] == es[..from];
    }
  }

  /** In every run from reset, seven ready clocks in a row issue an instruction. */
  lemma SevenReadyClocksIssue(program: Program, boot: Word, mem: Memory, es: seq<Env>, from: nat)
    requires from + 7 <= |es| && ReadyFrom(es, from)
    ensures Issued(program, Reset(boot, mem), es) > Issued(program, Reset(boot, mem), es[..from])
  {
    ReadyClocksApproach(program, Reset(boot, mem), es, from);
  }

  /** Nothing is fetched, and everything else is ready. */
  predicate Draining(e: Env) { !e.fetchValid && e.wbReady && e.lsuReady && e.aluReady }

  /** How many such clocks there are before the pipeline is empty. */
  function DrainLeft(k: Core): nat {
    if k.id.valid then 3 + StallsLeft(k)
    else if k.ex.aluWe || k.ex.memWe || k.ex.dataReq || k.ex.branch then 2
    else if k.wb.memWe then 1
    else 0
  }

  lemma DrainApproaches(program: Program, k: Core, e: Env)
    requires RegFile(k.regs) && ExConsistent(k) && Draining(e)
    ensures DrainLeft(k) <= 5 && (DrainLeft(Next(program, k, e)) < DrainLeft(k) || DrainLeft(Next(program, k, e)) == 0)
    ensures DrainLeft(k) == 0 ==> Drained(k) && !k.id.valid
  {
  }

  lemma {:induction false} DrainRun(program: Program, k: Core, es: seq<Env>, from: nat)
    requires RegFile(k.regs) && ExConsistent(k) && from <= |es| && forall j :: from <= j < |es| ==> Draining(es[j])
    ensures var left := DrainLeft(Run(program, k, es)); left == 0 || left + (|es| - from) <= 5
    decreases |es|
  {
    if from == |es| {
      RunConsistent(program, k, es);
      DrainApproaches(program, Run(program, k, es), Env(false, true, true, true, 0, 0));
    } else {
      var n := |es| - 1;
      DrainRun(program, k, es[..n], from);
      RunConsistent(program, k, es[..n]);
      DrainApproaches(program, Run(program, k, es[..n]), es[n]);
    }
  }

  /** A drained pipeline is always within reach: in every run from reset, six clocks without a
      fetch and without a delay drain it. */
  lemma SixClocksDrain(program: Program, boot: Word, mem: Memory, es: seq<Env>, from: nat)
    requires from + 6 <= |es| && forall j :: from <= j < |es| ==> Draining(es[j])
    ensures Drained(Run(program, Reset(boot, mem), es)) && !Run(program, Reset(boot, mem), es).id.valid
  {
    DrainRun(program, Reset(boot, mem), es, from);
    RunConsistent(program, Reset(boot, mem), es);
    DrainApproaches(program, Run(program, Reset(boot, mem), es), es[from]);
  }

  /** The pipeline registers, updated in place; arch follows the issued instructions. */
  class Stages {
    const program: Program
    var pcIf: Word
    var id: IfId
    var ex: IdEx
    var wb: ExWb
    var regs: seq<Word>
    var mem: Memory
    ghost var arch: Arch

    function State(): Core
      reads this
    {
      Core(pcIf, id, ex, wb, regs, mem)
    }

    ghost predicate Valid()
      reads this
    {
      Refines(program, State(), arch)
    }

    constructor (program: Program, boot: Word, mem: Memory)
      ensures Valid() && this.program == program
      ensures State() == Reset(boot, mem) && arch == ArchReset(boot, mem)
    {
      this.program := program;
      var r := Reset(boot, mem);
      pcIf, id, ex, wb, regs, this.mem := r.pcIf, r.id, r.ex, r.wb, r.regs, r.mem;
      arch := ArchReset(boot, mem);
      new;
      ResetRefines(program, boot, mem);
    }

    /** One clock edge of the three stages. */
    method Clock(e: Env) returns (issued: bool)
      requires Valid()
      modifies this
      ensures Valid()
      ensures State() == Next(program, old(State()), e)
      ensures issued == Issues(old(State()), e)
      ensures arch == if issued then Execute(program, old(arch)) else old(arch)
      ensures Drained(State()) ==> regs == arch.regs && mem == arch.mem
    {
      var k := State();
      StepRefines(program, k, e, arch);
      issued := Issues(k, e);
      ClockWb(k, e);
      ClockEx(k, e);
      ClockId(k, e);
      if issued { arch := Execute(program, arch); }
      if Drained(State()) { DrainedAgrees(program, State(), arch); }
    }

    /** EX/WB registers, register file and memory; k is the state before the edge. */
    method ClockWb(k: Core, e: Env)
      requires State() == k && RegFile(regs)
      modifies `wb, `regs, `mem
      ensures wb == NextWb(k, e) && regs == NextRegs(k, e) && mem == NextMem(k, e)
    {
      if ex.dataReq && ExValid(k, e) && ex.fetched.instr.Store? {
        mem := ex.fetched.instr.store(mem, ex.a, ex.b, ex.c);
      }
      if wb.memWe { regs := WriteReg(regs, wb.waddr, WbData(k, e)); }
      if ex.aluWe { regs := WriteReg(regs, ex.aluWaddr, AluData(k, e)); }
      if ExValid(k, e) {
        wb := wb.(memWe := ex.memWe);
        if ex.memWe { wb := wb.(waddr := ex.memWaddr, response := LoadResponse(k)); }
      } else if e.wbReady {
        wb := wb.(memWe := false);
      }
    }

    /** ID/EX registers. */
    method ClockEx(k: Core, e: Env)
      requires ex == k.ex && RegFile(k.regs)
      modifies `ex
      ensures ex == NextEx(k, e)
    {
      if IdReady(k, e) {
        var i := k.id.fetched.instr;
        var on := !Deassert(k, e);
        ex := ex.(aluEn := on, aluWe := on && ExDest(i).Some?, memWe := on && i.Load?,
                  dataReq := on && UsesData(i), branch := on && i.Branch?);
        if on {
          ex := ex.(fetched := k.id.fetched, a := Operand(k, e, SourceA(i)),
                    b := Operand(k, e, SourceB(i)), c := Operand(k, e, SourceC(i)));
          if ExDest(i).Some? { ex := ex.(aluWaddr := ExDest(i).value); }
          if i.Load? { ex := ex.(memWaddr := i.rd); }
        }
      } else if ExReady(k, e) {
        ex := ex.(aluEn := true, aluWe := false, memWe := false, dataReq := false, branch := false);
      }
    }

    /** IF/ID registers and the fetch address. */
    method ClockId(k: Core, e: Env)
      requires id == k.id && pcIf == k.pcIf && RegFile(k.regs)
      modifies `id, `pcIf
      ensures id == NextId(program, k, e) && pcIf == NextPcIf(program, k, e)
    {
      var done := (id.jumpDone || JumpsNow(k)) && !IdReady(k, e);
      if Fetches(k, e) {
        id := IfId(true, pcIf, program(pcIf), done);
        pcIf := program(pcIf).next;
      } else {
        if PcSet(k) { pcIf := PcTarget(k); }
        if IdReady(k, e) || BranchTaken(k) { id := id.(valid := false); }
        id := id.(jumpDone := done);
      }
    }
  }
}
