// Hardware loops: the loop registers (rtl/cv32e40p_hwloop_regs.sv), the controller's
// DECODE and DECODE_HWLOOP states (rtl/cv32e40p_controller.sv) and the aligner's program
// counter (rtl/cv32e40p_aligner.sv), for straight-line bodies of 32-bit instructions.
module HwLoop {
  type Addr = a: nat | a < 0x1_0000_0000

  function Plus(a: Addr, n: Addr): Addr {
    if a + n < 0x1_0000_0000 then a + n else a + n - 0x1_0000_0000
  }

  datatype Bounds = Bounds(start: Addr, end: Addr)

  /** A cv.count instruction for loop 0 and the count it writes. */
  datatype Setup = NoSetup | SetCount(pc: Addr, count: Addr)

  /** The loop bounds, which the body does not change, and the setup instruction. */
  datatype Config = Config(loop0: Bounds, loop1: Bounds, setup: Setup)

  datatype Fsm = Decode | DecodeHwloop

  /** Registers: controller state, jump_done_q, hwlp_end_4_id_q, the IF/ID pc, the aligner's
      pc_q with hwlp_update_pc_q and hwlp_addr_q, and the two loop counters. */
  datatype Regs = Regs(fsm: Fsm, jumpDone: bool, end4: bool, idValid: bool, idPc: Addr,
                       pcIf: Addr, updatePc: bool, updateAddr: Addr, cnt0: Addr, cnt1: Addr)

  /** One clock. irq: an enabled interrupt is requested; its handler, which leaves the
      loop registers alone, and its mret are part of the same step. */
  datatype Inputs = Inputs(fetchValid: bool, idReady: bool, irq: bool)

  // ---------------------------------------------------------------------------
  // The predicates of the controller.

  predicate EndEqPc(b: Bounds, pc: Addr) { b.end == Plus(pc, 4) }
  predicate EndEqPcPlus4(b: Bounds, pc: Addr) { b.end == Plus(pc, 8) }
  predicate InRange(b: Bounds, pc: Addr) { b.start <= pc && b.end >= Plus(pc, 4) }

  /** is_hwlp_body */
  predicate InBody(c: Config, k: Regs) {
    (InRange(c.loop0, k.idPc) && k.cnt0 > 1) || (InRange(c.loop1, k.idPc) && k.cnt1 > 1)
  }

  /** An interrupt is taken only for an instruction in ID. */
  predicate TakesIrq(k: Regs, i: Inputs) { i.irq && k.idValid }

  /** The instruction in ID is being decoded. */
  predicate Decoding(k: Regs, i: Inputs) { k.idValid && !i.irq }

  /** Slow path: the last instruction of an iteration sets the pc itself. */
  predicate SlowEnd(c: Config, k: Regs) {
    k.fsm == Decode && InBody(c, k)
    && ((EndEqPc(c.loop0, k.idPc) && k.cnt0 > 1) || (EndEqPc(c.loop1, k.idPc) && k.cnt1 > 1))
  }

  predicate SlowJump(c: Config, k: Regs, i: Inputs) { Decoding(k, i) && SlowEnd(c, k) && !k.jumpDone }

  /** hwlp_end_4_id_d: the last but one instruction announces the jump. */
  predicate FastEnd4(c: Config, k: Regs, i: Inputs) {
    Decoding(k, i) && k.fsm == DecodeHwloop
    && ((EndEqPcPlus4(c.loop1, k.idPc) && k.cnt1 > 1) || (EndEqPcPlus4(c.loop0, k.idPc) && k.cnt0 > 1))
  }

  /** hwlp_jump_o is a pulse. */
  predicate FastJump(c: Config, k: Regs, i: Inputs) { FastEnd4(c, k, i) && !k.end4 }

  /** hwlp_targ_addr_o */
  function Target(c: Config, k: Regs, i: Inputs): Addr {
    if FastEnd4(c, k, i) then
      if EndEqPcPlus4(c.loop0, k.idPc) && k.cnt0 > 1 then c.loop0.start else c.loop1.start
    else if InRange(c.loop1, k.idPc) && !InRange(c.loop0, k.idPc) then c.loop1.start
    else c.loop0.start
  }

  /** hwlp_dec_cnt_o for one loop. */
  predicate Decrements(c: Config, b: Bounds, cnt: Addr, k: Regs, i: Inputs) {
    Decoding(k, i) && EndEqPc(b, k.idPc)
    && (if k.fsm == Decode then InBody(c, k) && cnt > 1 && !k.jumpDone else true)
  }

  function NextFsm(c: Config, k: Regs, i: Inputs): Fsm {
    if TakesIrq(k, i) then Decode
    else if !Decoding(k, i) then k.fsm
    else if k.fsm == Decode then
      if !InBody(c, k) || EndEqPcPlus4(c.loop0, k.idPc) || EndEqPcPlus4(c.loop1, k.idPc) then Decode
      else DecodeHwloop
    else if EndEqPcPlus4(c.loop0, k.idPc) then
      if k.cnt0 > 1 || InBody(c, k) then DecodeHwloop else Decode
    else if EndEqPcPlus4(c.loop1, k.idPc) then
      if k.cnt1 > 1 || InBody(c, k) then DecodeHwloop else Decode
    else DecodeHwloop
  }

  // ---------------------------------------------------------------------------
  // One clock edge.

  /** The instruction in ID moves on to EX. */
  predicate Retires(k: Regs, i: Inputs) { Decoding(k, i) && i.idReady }

  /** A loop counter after one clock: a write wins over a decrement, which wraps. */
  function CounterAfter(cnt: Addr, write: bool, data: Addr, decrement: bool): Addr {
    if write then data else if !decrement then cnt else if cnt == 0 then 0xFFFF_FFFF else cnt - 1
  }

  predicate WritesCount(c: Config, k: Regs, i: Inputs) {
    Retires(k, i) && c.setup.SetCount? && c.setup.pc == k.idPc
  }

  predicate Fetches(c: Config, k: Regs, i: Inputs) {
    i.fetchValid && i.idReady && !SlowJump(c, k, i)
  }

  function Next(c: Config, k: Regs, i: Inputs): Regs {
    if TakesIrq(k, i) then
      k.(fsm := Decode, jumpDone := k.jumpDone && !i.idReady, end4 := false,
         idValid := false, pcIf := k.idPc, updatePc := false)
    else
      var jump := SlowJump(c, k, i);
      var fast := FastJump(c, k, i);
      var fetch := Fetches(c, k, i);
      var target := Target(c, k, i);
      Regs(NextFsm(c, k, i),
           (k.jumpDone || jump) && !i.idReady,
           FastEnd4(c, k, i),
           fetch || (k.idValid && !i.idReady),
           if fetch then k.pcIf else k.idPc,
           if jump then target
           else if fetch then (if fast then target else if k.updatePc then k.updateAddr else Plus(k.pcIf, 4))
           else k.pcIf,
           !jump && !fetch && (fast || k.updatePc),
           if fast && !jump && !fetch then target else k.updateAddr,
           CounterAfter(k.cnt0, WritesCount(c, k, i), if c.setup.SetCount? then c.setup.count else 0,
                        Decrements(c, c.loop0, k.cnt0, k, i) && i.idReady),
           CounterAfter(k.cnt1, false, 0, Decrements(c, c.loop1, k.cnt1, k, i) && i.idReady))
  }

  // ---------------------------------------------------------------------------
  // The architecture: a loop end with a count above one goes back to the start.

  datatype Arch = Arch(pc: Addr, n0: Addr, n1: Addr)

  function ArchNext(c: Config, s: Arch): Arch {
    var n0 := if c.setup.SetCount? && c.setup.pc == s.pc then c.setup.count else s.n0;
    if EndEqPc(c.loop0, s.pc) && n0 > 1 then Arch(c.loop0.start, n0 - 1, s.n1)
    else if EndEqPc(c.loop1, s.pc) && s.n1 > 1 then Arch(c.loop1.start, n0, s.n1 - 1)
    else Arch(Plus(s.pc, 4), n0, s.n1)
  }

  /** A loop that the region lo..hi of code does not touch. */
  predicate Apart(b: Bounds, lo: Addr, hi: Addr) { b.end <= lo || (hi <= b.start && hi + 8 <= b.end) }

  predicate Inside(b: Bounds, lo: Addr, hi: Addr) { lo <= b.start && b.start + 8 <= b.end <= hi }

  predicate Aligned(c: Config, lo: Addr, hi: Addr) {
    && lo % 4 == 0 && hi % 4 == 0 && lo < hi && hi + 8 < 0x1_0000_0000
    && c.loop0.start % 4 == c.loop0.end % 4 == c.loop1.start % 4 == c.loop1.end % 4 == 0
  }

  /** The region lo..hi is one loop, 0 or 1, whose count is not written inside. */
  predicate Single(c: Config, lo: Addr, hi: Addr) {
    && Aligned(c, lo, hi) && c.setup.NoSetup?
    && (|| (c.loop0 == Bounds(lo, hi) && Apart(c.loop1, lo, hi))
        || (c.loop1 == Bounds(lo, hi) && Apart(c.loop0, lo, hi)))
  }

  /** The region lo..hi is an outer loop 1 around an inner loop 0 whose count is written
      again in each iteration, and which ends before the outer one. */
  predicate Nested(c: Config, lo: Addr, hi: Addr) {
    && Aligned(c, lo, hi) && c.setup.SetCount?
    && c.loop1 == Bounds(lo, hi) && Inside(c.loop0, lo, hi) && c.setup.pc % 4 == 0
    && lo <= c.setup.pc < c.loop0.start && c.loop0.end < hi
  }

  predicate WellFormed(c: Config, lo: Addr, hi: Addr) { Single(c, lo, hi) || Nested(c, lo, hi) }

  /** The counter of a loop matters here. */
  predicate Live0(c: Config, lo: Addr, hi: Addr, pc: Addr) {
    if c.setup.SetCount? then c.setup.pc < pc < c.loop0.end else !Apart(c.loop0, lo, hi)
  }

  predicate Live1(c: Config, lo: Addr, hi: Addr) { !Apart(c.loop1, lo, hi) }

  predicate Loops0(c: Config, s: Arch) { EndEqPc(c.loop0, s.pc) && s.n0 > 1 }
  predicate Loops1(c: Config, s: Arch) { EndEqPc(c.loop1, s.pc) && s.n1 > 1 }

  /** The jump back to the start of the loop that s is about to repeat is prepared. */
  function LoopStart(c: Config, s: Arch): Addr { if Loops0(c, s) then c.loop0.start else c.loop1.start }

  predicate Announces(c: Config, s: Arch) {
    (EndEqPcPlus4(c.loop0, s.pc) && s.n0 > 1) || (EndEqPcPlus4(c.loop1, s.pc) && s.n1 > 1)
  }

  function AnnouncedStart(c: Config, s: Arch): Addr {
    if EndEqPcPlus4(c.loop0, s.pc) && s.n0 > 1 then c.loop0.start else c.loop1.start
  }

  /** What the controller cannot do: repeat a body of one instruction, or repeat an inner loop
      whose last instruction is the last but one of the outer loop. */
  predicate Hazard(c: Config, lo: Addr, hi: Addr, s: Arch) {
    || (lo + 4 == hi && (Loops0(c, s) || Loops1(c, s)))
    || (c.setup.SetCount? && c.loop0.end + 4 == hi && Loops0(c, s))
  }

  /** How the controller and the aligner stand for the architecture's next instruction. */
  ghost predicate Tracks(c: Config, lo: Addr, hi: Addr, k: Regs, s: Arch) {
    && WellFormed(c, lo, hi)
    && lo <= s.pc < hi && s.pc % 4 == 0
    && (Live0(c, lo, hi, s.pc) ==> k.cnt0 == s.n0)
    && (Live1(c, lo, hi) ==> k.cnt1 == s.n1)
    && (k.fsm == Decode ==> !k.updatePc)
    && (s.pc + 4 == hi && !Loops0(c, s) && !Loops1(c, s) ==> k.fsm == Decode)
    && (if k.idValid then
          && k.idPc == s.pc
          && (k.jumpDone ==> k.fsm == DecodeHwloop && (Loops0(c, s) || Loops1(c, s)))
          && (if k.fsm == DecodeHwloop && (Loops0(c, s) || Loops1(c, s)) then
                !k.updatePc && k.pcIf == LoopStart(c, s)
              else
                && k.pcIf == Plus(s.pc, 4)
                && (k.updatePc <==> k.fsm == DecodeHwloop && Announces(c, s) && k.end4)
                && (k.updatePc ==> k.updateAddr == AnnouncedStart(c, s)))
        else
          && k.pcIf == s.pc
          && (k.updatePc <==> k.fsm == DecodeHwloop && (Loops0(c, s) || Loops1(c, s)))
          && (k.updatePc ==> k.updateAddr == LoopStart(c, s)))
  }

  /** What an interrupt does: the instruction in ID is fetched again, in DECODE. */
  lemma TracksInterrupt(c: Config, lo: Addr, hi: Addr, k: Regs, s: Arch, i: Inputs)
    requires Tracks(c, lo, hi, k, s) && TakesIrq(k, i)
    ensures Tracks(c, lo, hi, Next(c, k, i), s)
  {
  }

  lemma TracksEmpty(c: Config, lo: Addr, hi: Addr, k: Regs, s: Arch, i: Inputs)
    requires Tracks(c, lo, hi, k, s) && !Hazard(c, lo, hi, s) && !k.idValid
    ensures Tracks(c, lo, hi, Next(c, k, i), s)
  {
  }

  lemma TracksStalled(c: Config, lo: Addr, hi: Addr, k: Regs, s: Arch, i: Inputs)
    requires Tracks(c, lo, hi, k, s) && !Hazard(c, lo, hi, s) && Decoding(k, i) && !i.idReady
    ensures Tracks(c, lo, hi, Next(c, k, i), s)
  {
  }

  /** A loop is entered in DECODE, with its first instruction in ID or fetched next. It has to
      be left like that for the instruction after it. */
  predicate Entered(k: Regs, lo: Addr) {
    && k.fsm == Decode && !k.updatePc && !k.jumpDone
    && if k.idValid then k.idPc == lo && k.pcIf == Plus(lo, 4) else k.pcIf == lo
  }

  lemma TracksJump(c: Config, lo: Addr, hi: Addr, k: Regs, s: Arch, i: Inputs)
    requires Tracks(c, lo, hi, k, s) && !Hazard(c, lo, hi, s) && Retires(k, i) && (Loops0(c, s) || Loops1(c, s))
    ensures Tracks(c, lo, hi, Next(c, k, i), ArchNext(c, s))
  {
  }

  lemma TracksStraightSingle(c: Config, lo: Addr, hi: Addr, k: Regs, s: Arch, i: Inputs)
    requires Single(c, lo, hi)
    requires Tracks(c, lo, hi, k, s) && !Hazard(c, lo, hi, s) && Retires(k, i) && !Loops0(c, s) && !Loops1(c, s)
    ensures if ArchNext(c, s).pc == hi then Entered(Next(c, k, i), hi)
            else Tracks(c, lo, hi, Next(c, k, i), ArchNext(c, s))
  {
  }

  lemma TracksStraightNested(c: Config, lo: Addr, hi: Addr, k: Regs, s: Arch, i: Inputs)
    requires Nested(c, lo, hi)
    requires Tracks(c, lo, hi, k, s) && !Hazard(c, lo, hi, s) && Retires(k, i) && !Loops0(c, s) && !Loops1(c, s)
    ensures if ArchNext(c, s).pc == hi then Entered(Next(c, k, i), hi)
            else Tracks(c, lo, hi, Next(c, k, i), ArchNext(c, s))
  {
  }

  /** One clock: whatever the stalls, fetch delays and interrupts, the controller keeps
      track, what retires is the architecture's next instruction, and the loop is left in DECODE. */
  lemma TracksStep(c: Config, lo: Addr, hi: Addr, k: Regs, s: Arch, i: Inputs)
    requires Tracks(c, lo, hi, k, s) && !Hazard(c, lo, hi, s)
    ensures Retires(k, i) ==> k.idPc == s.pc
    ensures var t := if Retires(k, i) then ArchNext(c, s) else s;
            if t.pc == hi then Entered(Next(c, k, i), hi) else Tracks(c, lo, hi, Next(c, k, i), t)
  {
    if TakesIrq(k, i) { TracksInterrupt(c, lo, hi, k, s, i); }
    else if !k.idValid { TracksEmpty(c, lo, hi, k, s, i); }
    else if i.idReady && (Loops0(c, s) || Loops1(c, s)) { TracksJump(c, lo, hi, k, s, i); }
    else if i.idReady && Single(c, lo, hi) { TracksStraightSingle(c, lo, hi, k, s, i); }
    else if i.idReady { TracksStraightNested(c, lo, hi, k, s, i); }
    else { TracksStalled(c, lo, hi, k, s, i); }
  }

  /** The slow path, whose target ignores the counters, goes to the start of the loop that
      the architecture repeats. */
  lemma SlowTargetIsRight(c: Config, lo: Addr, hi: Addr, k: Regs, s: Arch, i: Inputs)
    requires Tracks(c, lo, hi, k, s) && SlowJump(c, k, i)
    ensures (Loops0(c, s) || Loops1(c, s)) && Target(c, k, i) == ArchNext(c, s).pc
  {
  }

  /** Outside both loops the controller stays in DECODE, makes no jump, and changes no counter except
      by a count instruction. */
  lemma OutsideLoops(c: Config, k: Regs, i: Inputs)
    requires k.fsm == Decode && !InRange(c.loop0, k.idPc) && !InRange(c.loop1, k.idPc)
    ensures var n := Next(c, k, i);
            && n.fsm == Decode && !SlowJump(c, k, i) && !FastJump(c, k, i) && n.cnt1 == k.cnt1
            && n.cnt0 == if WritesCount(c, k, i) then c.setup.count else k.cnt0
    ensures !k.updatePc && Fetches(c, k, i) && !TakesIrq(k, i) ==> Next(c, k, i).pcIf == Plus(k.pcIf, 4)
  {
  }

  predicate Jumps(c: Config, k: Regs, i: Inputs) { SlowJump(c, k, i) || FastJump(c, k, i) }

  /** There is no jump as long as the instruction in ID neither retires nor is interrupted, nor in
      the clock in which it does. */
  predicate Silent(c: Config, k: Regs, ins: seq<Inputs>)
    decreases |ins|
  {
    ins == []
    || (!Jumps(c, k, ins[0])
        && (Retires(k, ins[0]) || TakesIrq(k, ins[0]) || Silent(c, Next(c, k, ins[0]), ins[1..])))
  }

  lemma {:induction false} StallIsSilent(c: Config, lo: Addr, hi: Addr, k: Regs, s: Arch, ins: seq<Inputs>)
    requires Tracks(c, lo, hi, k, s) && !Hazard(c, lo, hi, s) && k.idValid
    requires forall i :: !Jumps(c, k, i)
    ensures Silent(c, k, ins)
    decreases |ins|
  {
    if ins != [] && !Retires(k, ins[0]) && !TakesIrq(k, ins[0]) {
      TracksStep(c, lo, hi, k, s, ins[0]);
      StallIsSilent(c, lo, hi, Next(c, k, ins[0]), s, ins[1..]);
    }
  }

  /** A jump is a pulse: no jump follows in the next clock, and, however long the instruction that
      made it stays in ID, none until it has left. */
  lemma JumpIsPulse(c: Config, lo: Addr, hi: Addr, k: Regs, s: Arch, i: Inputs, ins: seq<Inputs>)
    requires Tracks(c, lo, hi, k, s) && !Hazard(c, lo, hi, s) && Jumps(c, k, i)
    ensures forall j :: !Jumps(c, Next(c, k, i), j)
    ensures Retires(k, i) || Silent(c, Next(c, k, i), ins)
  {
    TracksStep(c, lo, hi, k, s, i);
    if !Retires(k, i) {
      StallIsSilent(c, lo, hi, Next(c, k, i), s, ins);
    }
  }

  /** A fast jump is made in the clock after its instruction has been fetched, with no other jump
      pending: what the prefetcher relies on. */
  lemma JumpFollowsFetch(c: Config, lo: Addr, hi: Addr, k: Regs, s: Arch, i: Inputs, j: Inputs)
    requires Tracks(c, lo, hi, k, s) && !Hazard(c, lo, hi, s) && FastJump(c, Next(c, k, i), j)
    ensures !TakesIrq(k, i) && Fetches(c, k, i) && !k.updatePc && !FastJump(c, k, i)
  {
    TracksStep(c, lo, hi, k, s, i);
  }

  // ---------------------------------------------------------------------------
  // Whole runs.

  /** The addresses of the instructions that leave ID, in order. */
  function Retired(c: Config, k: Regs, ins: seq<Inputs>): seq<Addr>
    decreases |ins|
  {
    if ins == [] then []
    else (if Retires(k, ins[0]) then [k.idPc] else []) + Retired(c, Next(c, k, ins[0]), ins[1..])
  }

  function After(c: Config, k: Regs, ins: seq<Inputs>): Regs
    decreases |ins|
  {
    if ins == [] then k else After(c, Next(c, k, ins[0]), ins[1..])
  }

  function Repeat(t: seq<Addr>, n: nat): seq<Addr> { if n == 0 then [] else t + Repeat(t, n - 1) }

  function Straight(a: Addr, b: Addr): seq<Addr>
    requires a % 4 == 0 && b % 4 == 0
    decreases b - a
  {
    if a >= b then [] else [a] + Straight(a + 4, b)
  }

  /** A loop runs once even with a count of zero. */
  function Times(n: nat): nat { if n > 1 then n else 1 }

  function OuterBody(c: Config, lo: Addr, hi: Addr): seq<Addr>
    requires Nested(c, lo, hi)
  {
    Straight(lo, c.loop0.start)
    + Repeat(Straight(c.loop0.start, c.loop0.end), Times(c.setup.count))
    + Straight(c.loop0.end, hi)
  }

  function SingleCount(c: Config, lo: Addr, hi: Addr, n0: Addr, n1: Addr): Addr {
    if c.loop0 == Bounds(lo, hi) then n0 else n1
  }

  /** What the loop or the two loops mean. */
  function Expected(c: Config, lo: Addr, hi: Addr, n0: Addr, n1: Addr): seq<Addr>
    requires WellFormed(c, lo, hi)
  {
    if c.setup.NoSetup? then Repeat(Straight(lo, hi), Times(SingleCount(c, lo, hi, n0, n1)))
    else Repeat(OuterBody(c, lo, hi), Times(n1))
  }

  /** trace is the run of the architecture from s to t, which does not reach hi earlier. */
  predicate Walk(c: Config, hi: Addr, s: Arch, trace: seq<Addr>, t: Arch)
    decreases |trace|
  {
    if trace == [] then s == t
    else trace[0] == s.pc && s.pc != hi && Walk(c, hi, ArchNext(c, s), trace[1..], t)
  }

  lemma {:induction false} WalkAppend(c: Config, hi: Addr, s: Arch, a: seq<Addr>, m: Arch, b: seq<Addr>, t: Arch)
    requires Walk(c, hi, s, a, m) && Walk(c, hi, m, b, t)
    ensures Walk(c, hi, s, a + b, t)
    decreases |a|
  {
    if a == [] {
      assert a + b == b;
    } else {
      WalkAppend(c, hi, ArchNext(c, s), a[1..], m, b, t);
      assert (a + b)[1..] == a[1..] + b;
    }
  }

  /** Code without a setup and without a loop end. */
  lemma {:induction false} WalkStraight(c: Config, hi: Addr, s: Arch, b: Addr)
    requires s.pc % 4 == 0 && b % 4 == 0 && s.pc <= b <= hi
    requires !(s.pc < c.loop0.end <= b) && !(s.pc < c.loop1.end <= b)
    requires c.setup.SetCount? ==> !(s.pc <= c.setup.pc < b)
    ensures Walk(c, hi, s, Straight(s.pc, b), s.(pc := b))
    decreases b - s.pc
  {
    if s.pc < b {
      assert s.pc + 4 <= b;
      var n := s.(pc := s.pc + 4);
      assert ArchNext(c, s) == n;
      WalkStraight(c, hi, n, b);
      assert Straight(s.pc, b) == [s.pc] + Straight(n.pc, b);
      assert Straight(s.pc, b)[1..] == Straight(n.pc, b);
    }
  }

  lemma {:induction false} StraightSplit(a: Addr, m: Addr, b: Addr)
    requires a % 4 == 0 && m % 4 == 0 && b % 4 == 0 && a <= m <= b
    ensures Straight(a, b) == Straight(a, m) + Straight(m, b)
    decreases m - a
  {
    if a < m { StraightSplit(a + 4, m, b); }
  }

  /** Straight code up to an instruction at b, and that instruction. */
  lemma WalkThrough(c: Config, hi: Addr, s: Arch, b: Addr)
    requires s.pc % 4 == 0 && b % 4 == 0 && s.pc <= b < hi && b + 4 < 0x1_0000_0000
    requires !(s.pc < c.loop0.end <= b) && !(s.pc < c.loop1.end <= b)
    requires c.setup.SetCount? ==> !(s.pc <= c.setup.pc < b)
    ensures Walk(c, hi, s, Straight(s.pc, b + 4), ArchNext(c, s.(pc := b)))
  {
    var m := s.(pc := b);
    WalkStraight(c, hi, s, b);
    assert Walk(c, hi, m, [b], ArchNext(c, m)) by {
      assert [b][1..] == [];
    }
    WalkAppend(c, hi, s, Straight(s.pc, b), m, [b], ArchNext(c, m));
    StraightSplit(s.pc, b, b + 4);
    assert Straight(b, b + 4) == [b] by {
      assert Straight(b + 4, b + 4) == [];
    }
  }

  /** The counter that decides about a loop. */
  function CountOf(c: Config, b: Bounds, s: Arch): Addr { if b == c.loop0 then s.n0 else s.n1 }

  /** The only loop of a single region, or the inner one. */
  predicate Innermost(c: Config, lo: Addr, hi: Addr, b: Bounds) {
    WellFormed(c, lo, hi) && b == (if c.setup.NoSetup? then Bounds(lo, hi) else c.loop0)
  }

  lemma WalkIteration(c: Config, lo: Addr, hi: Addr, b: Bounds, s: Arch) returns (t: Arch)
    requires Innermost(c, lo, hi, b) && s.pc == b.start
    ensures Walk(c, hi, s, Straight(b.start, b.end), t) && (c.setup.SetCount? ==> t.n1 == s.n1)
    ensures if CountOf(c, b, s) > 1 then t.pc == b.start && CountOf(c, b, t) == CountOf(c, b, s) - 1
            else t.pc == b.end
  {
    WalkThrough(c, hi, s, b.end - 4);
    t := ArchNext(c, s.(pc := b.end - 4));
  }

  /** The iterations of a loop until it falls through. */
  lemma {:induction false} WalkLoop(c: Config, lo: Addr, hi: Addr, b: Bounds, s: Arch) returns (t: Arch)
    requires Innermost(c, lo, hi, b) && s.pc == b.start
    ensures t.pc == b.end && (c.setup.SetCount? ==> t.n1 == s.n1)
    ensures Walk(c, hi, s, Repeat(Straight(b.start, b.end), Times(CountOf(c, b, s))), t)
    decreases CountOf(c, b, s)
  {
    var m := WalkIteration(c, lo, hi, b, s);
    var body, n := Straight(b.start, b.end), CountOf(c, b, s);
    assert Repeat(body, 1) == body + Repeat(body, 0) == body;
    if n > 1 {
      t := WalkLoop(c, lo, hi, b, m);
      WalkAppend(c, hi, s, body, m, Repeat(body, n - 1), t);
    } else {
      t := m;
    }
  }

  lemma WalkToInner(c: Config, lo: Addr, hi: Addr, s: Arch)
    requires Nested(c, lo, hi) && s.pc == lo
    ensures Walk(c, hi, s, Straight(lo, c.loop0.start), Arch(c.loop0.start, c.setup.count, s.n1))
  {
    var next: Addr := c.setup.pc + 4;
    var m := Arch(next, c.setup.count, s.n1);
    WalkThrough(c, hi, s, c.setup.pc);
    WalkStraight(c, hi, m, c.loop0.start);
    WalkAppend(c, hi, s, Straight(lo, next), m, Straight(next, c.loop0.start), m.(pc := c.loop0.start));
    StraightSplit(lo, next, c.loop0.start);
  }

  /** One iteration of the outer loop. */
  lemma WalkOuterBody(c: Config, lo: Addr, hi: Addr, s: Arch) returns (t: Arch)
    requires Nested(c, lo, hi) && s.pc == lo
    ensures t == ArchNext(c, Arch(hi - 4, t.n0, s.n1))
    ensures Walk(c, hi, s, OuterBody(c, lo, hi), t)
  {
    var before, after := Straight(lo, c.loop0.start), Straight(c.loop0.end, hi);
    var inners := Repeat(Straight(c.loop0.start, c.loop0.end), Times(c.setup.count));
    WalkToInner(c, lo, hi, s);
    var m1 := Arch(c.loop0.start, c.setup.count, s.n1);
    var m2 := WalkLoop(c, lo, hi, c.loop0, m1);
    WalkThrough(c, hi, m2, hi - 4);
    t := ArchNext(c, m2.(pc := hi - 4));
    WalkAppend(c, hi, m1, inners, m2, after, t);
    WalkAppend(c, hi, s, before, m1, inners + after, t);
    assert OuterBody(c, lo, hi) == before + (inners + after);
  }

  lemma {:induction false} WalkNested(c: Config, lo: Addr, hi: Addr, s: Arch) returns (t: Arch)
    requires Nested(c, lo, hi) && s.pc == lo
    ensures t.pc == hi && Walk(c, hi, s, Repeat(OuterBody(c, lo, hi), Times(s.n1)), t)
    decreases s.n1
  {
    var m := WalkOuterBody(c, lo, hi, s);
    var body := OuterBody(c, lo, hi);
    assert Repeat(body, 1) == body + Repeat(body, 0) == body;
    if s.n1 > 1 {
      t := WalkNested(c, lo, hi, m);
      WalkAppend(c, hi, s, body, m, Repeat(body, s.n1 - 1), t);
    } else {
      t := m;
    }
  }

  /** The architecture's run through the region is the expected one. */
  lemma ArchitectureMeetsExpected(c: Config, lo: Addr, hi: Addr, s: Arch) returns (t: Arch)
    requires WellFormed(c, lo, hi) && s.pc == lo
    ensures t.pc == hi && Walk(c, hi, s, Expected(c, lo, hi, s.n0, s.n1), t)
  {
    if c.setup.NoSetup? {
      t := WalkLoop(c, lo, hi, Bounds(lo, hi), s);
    } else {
      t := WalkNested(c, lo, hi, s);
    }
  }

  /** One sequence is the beginning of the other. */
  predicate Agree(a: seq<Addr>, b: seq<Addr>) {
    forall j :: 0 <= j < |a| && j < |b| ==> a[j] == b[j]
  }

  /** The instruction after the loop comes next, or is in ID. */
  predicate Follows(k: Regs, hi: Addr) {
    if k.idValid then k.idPc == hi else k.pcIf == hi && !k.updatePc
  }

  lemma {:induction false} ExitRun(c: Config, hi: Addr, k: Regs, ins: seq<Inputs>)
    requires Follows(k, hi)
    ensures Agree(Retired(c, k, ins), [hi])
    decreases |ins|
  {
    if ins != [] && !Retires(k, ins[0]) {
      ExitRun(c, hi, Next(c, k, ins[0]), ins[1..]);
    }
  }

  /** If the run gets as far as n instructions, hi is entered in DECODE then. */
  predicate Leaves(c: Config, hi: Addr, k: Regs, ins: seq<Inputs>, n: nat)
    decreases |ins|
  {
    if n == 0 then Entered(k, hi)
    else ins == [] || Leaves(c, hi, Next(c, k, ins[0]), ins[1..], if Retires(k, ins[0]) then n - 1 else n)
  }

  /** The run retires the given instructions and then the one at hi, which is decoded in DECODE,
      so that jumps, branches and compressed instructions after the loop are legal. */
  predicate Right(c: Config, hi: Addr, k: Regs, ins: seq<Inputs>, expected: seq<Addr>) {
    Agree(Retired(c, k, ins), expected + [hi]) && Leaves(c, hi, k, ins, |expected|)
  }

  /** Where no hazard lies ahead. */
  predicate Safe(c: Config, lo: Addr, hi: Addr, s: Arch) {
    if c.setup.NoSetup? then lo + 4 == hi ==> SingleCount(c, lo, hi, s.n0, s.n1) <= 1
    else c.loop0.end + 4 == hi ==> c.setup.count <= 1 && (Live0(c, lo, hi, s.pc) ==> s.n0 <= 1)
  }

  lemma SafeStep(c: Config, lo: Addr, hi: Addr, s: Arch)
    requires WellFormed(c, lo, hi) && Safe(c, lo, hi, s) && lo <= s.pc < hi && s.pc % 4 == 0
    ensures !Hazard(c, lo, hi, s) && Safe(c, lo, hi, ArchNext(c, s))
  {
  }

  lemma {:induction false} TracksRun(c: Config, lo: Addr, hi: Addr, k: Regs, s: Arch, trace: seq<Addr>, t: Arch,
                                     ins: seq<Inputs>)
    requires Tracks(c, lo, hi, k, s) && Safe(c, lo, hi, s) && Walk(c, hi, s, trace, t) && t.pc == hi
    ensures Right(c, hi, k, ins, trace)
    decreases |ins|
  {
    if ins != [] {
      SafeStep(c, lo, hi, s);
      TracksStep(c, lo, hi, k, s, ins[0]);
      var n, rest := Next(c, k, ins[0]), ins[1..];
      if !Retires(k, ins[0]) {
        TracksRun(c, lo, hi, n, s, trace, t, rest);
      } else {
        var tail := trace[1..];
        if ArchNext(c, s).pc == hi {
          assert tail == [];
          ExitRun(c, hi, n, rest);
        } else {
          TracksRun(c, lo, hi, n, ArchNext(c, s), tail, t, rest);
        }
        assert Right(c, hi, n, rest, tail);
        assert trace + [hi] == [s.pc] + (tail + [hi]);
      }
    }
  }

  /** A single loop has two instructions or a count of at most one; of nested loops the ends are
      8 apart or the inner count is at most one. */
  predicate Supported(c: Config, lo: Addr, hi: Addr, n0: Addr, n1: Addr) {
    if c.setup.NoSetup? then lo + 8 <= hi || SingleCount(c, lo, hi, n0, n1) <= 1
    else c.loop0.end + 8 <= hi || c.setup.count <= 1
  }

  /** For every pattern of stalls, fetch delays and interrupts, the instructions retired from
      the entry of the loop on are the expected ones and then the one after the loop, which is
      entered in DECODE. */
  lemma LoopsRetireExpected(c: Config, lo: Addr, hi: Addr, k: Regs, ins: seq<Inputs>)
    requires WellFormed(c, lo, hi) && Entered(k, lo) && Supported(c, lo, hi, k.cnt0, k.cnt1)
    ensures Right(c, hi, k, ins, Expected(c, lo, hi, k.cnt0, k.cnt1))
  {
    var s := Arch(lo, k.cnt0, k.cnt1);
    var t := ArchitectureMeetsExpected(c, lo, hi, s);
    TracksRun(c, lo, hi, k, s, Expected(c, lo, hi, s.n0, s.n1), t, ins);
  }

  /** The pipeline front never gets stuck: two clocks without an obstacle retire something. */
  lemma FrontProgresses(c: Config, k: Regs)
    ensures var go := Inputs(true, true, false);
            Retired(c, k, [go, go]) != []
  {
    var go := Inputs(true, true, false);
    var n := Next(c, k, go);
    assert [go, go][1..] == [go] && [go][1..] == [];
    assert Retired(c, n, [go]) == (if Retires(n, go) then [n.idPc] else []) + Retired(c, Next(c, n, go), []);
  }

  // ---------------------------------------------------------------------------
  // How often an instruction is expected.

  function Count(t: seq<Addr>, x: Addr): nat { multiset(t)[x] }

  lemma CountFirst(a: Addr, rest: seq<Addr>, x: Addr)
    ensures Count([a] + rest, x) == (if a == x then 1 else 0) + Count(rest, x)
  {
    CountAppend([a], rest, x);
  }

  lemma CountAppend(a: seq<Addr>, b: seq<Addr>, x: Addr)
    ensures Count(a + b, x) == Count(a, x) + Count(b, x)
  {
  }

  /** a, x and b are multiples of four. */
  lemma {:induction false} CountStraight(a: Addr, b: Addr, x: Addr)
    requires a % 4 == 0 && b % 4 == 0 && x % 4 == 0
    ensures Count(Straight(a, b), x) == if a <= x < b then 1 else 0
    decreases b - a
  {
    if a < b {
      NoneBetween(a, b);
      var next: Addr := a + 4;
      CountFirst(a, Straight(next, b), x);
      assert Count(Straight(next, b), x) == if next <= x < b then 1 else 0 by { CountStraight(next, b, x); }
      assert a < x ==> next <= x by { if a < x { NoneBetween(a, x); } }
    }
  }

  lemma NoneBetween(a: Addr, x: Addr)
    requires a % 4 == 0 && x % 4 == 0 && a < x
    ensures a + 4 <= x
  {
  }

  lemma {:induction false} CountRepeat(t: seq<Addr>, n: nat, m: nat, x: Addr)
    requires Count(t, x) == m
    ensures Count(Repeat(t, n), x) == n * m
    decreases n
  {
    if n > 0 {
      CountRepeat(t, n - 1, m, x);
      CountAppend(t, Repeat(t, n - 1), x);
      assert (n - 1) * m + m == n * m;
    }
  }

  /** An instruction occurs once in the outer body, one of the inner body once per iteration. */
  lemma CountOuterBody(c: Config, lo: Addr, hi: Addr, x: Addr)
    requires Nested(c, lo, hi) && lo <= x < hi && x % 4 == 0
    ensures Count(OuterBody(c, lo, hi), x) == if c.loop0.start <= x < c.loop0.end then Times(c.setup.count) else 1
  {
    var before, inner, after := Straight(lo, c.loop0.start), Straight(c.loop0.start, c.loop0.end), Straight(c.loop0.end, hi);
    var n := Times(c.setup.count);
    CountStraight(lo, c.loop0.start, x);
    CountStraight(c.loop0.start, c.loop0.end, x);
    CountStraight(c.loop0.end, hi, x);
    CountRepeat(inner, n, if c.loop0.start <= x < c.loop0.end then 1 else 0, x);
    CountAppend(before, Repeat(inner, n), x);
    CountAppend(before + Repeat(inner, n), after, x);
  }

  /** Each instruction of a single loop is executed max(n, 1) times, and in nested loops each
      instruction of the inner body max(n1, 1) * max(n0, 1) times. */
  lemma ExecutionCounts(c: Config, lo: Addr, hi: Addr, n0: Addr, n1: Addr, x: Addr)
    requires WellFormed(c, lo, hi) && lo <= x < hi && x % 4 == 0
    ensures Count(Expected(c, lo, hi, n0, n1), x) ==
            if c.setup.NoSetup? then Times(SingleCount(c, lo, hi, n0, n1))
            else if c.loop0.start <= x < c.loop0.end then Times(n1) * Times(c.setup.count)
            else Times(n1)
  {
    if c.setup.NoSetup? {
      CountStraight(lo, hi, x);
      CountRepeat(Straight(lo, hi), Times(SingleCount(c, lo, hi, n0, n1)), 1, x);
    } else {
      CountOuterBody(c, lo, hi, x);
      CountRepeat(OuterBody(c, lo, hi), Times(n1), Count(OuterBody(c, lo, hi), x), x);
    }
  }

  // ---------------------------------------------------------------------------

  /** The loop registers of rtl/cv32e40p_hwloop_regs.sv, one set for each loop. */
  class LoopRegisters {
    const count: nat
    const starts: array<Addr>
    const ends: array<Addr>
    const counters: array<Addr>

    ghost predicate Valid() {
      && starts.Length == ends.Length == counters.Length == count
      && starts != ends && ends != counters && starts != counters
    }

    constructor (n: nat)
      ensures Valid() && count == n && fresh(starts) && fresh(ends) && fresh(counters)
      ensures forall j :: 0 <= j < n ==> starts[j] == ends[j] == counters[j] == 0
    {
      count := n;
      starts := new Addr[n](_ => 0);
      ends := new Addr[n](_ => 0);
      counters := new Addr[n](_ => 0);
    }

    /** One clock edge. */
    method Clock(we: (bool, bool, bool), regid: nat, start: Addr, end: Addr, cnt: Addr, dec: seq<bool>, valid: bool)
      requires Valid() && regid < count && |dec| == count
      modifies starts, ends, counters
      ensures starts[..] == old(starts[..])[regid := if we.0 then start else old(starts[regid])]
      ensures ends[..] == old(ends[..])[regid := if we.1 then end else old(ends[regid])]
      ensures forall j :: 0 <= j < count ==>
                counters[j] == CounterAfter(old(counters[j]), we.2 && j == regid, cnt, dec[j] && valid)
    {
      if we.0 { starts[regid] := start; }
      if we.1 { ends[regid] := end; }
      for j := 0 to count
        invariant starts[..] == old(starts[..])[regid := if we.0 then start else old(starts[regid])]
        invariant ends[..] == old(ends[..])[regid := if we.1 then end else old(ends[regid])]
        invariant forall l :: 0 <= l < j ==>
                    counters[l] == CounterAfter(old(counters[l]), we.2 && l == regid, cnt, dec[l] && valid)
        invariant forall l :: j <= l < count ==> counters[l] == old(counters[l])
      {
        if we.2 && j == regid {
          counters[j] := cnt;
        } else if dec[j] && valid {
          counters[j] := if counters[j] == 0 then 0xFFFF_FFFF else counters[j] - 1;
        }
      }
    }
  }
}
