// The instruction aligner (rtl/cv32e40p_aligner.sv) behind a prefetcher that delivers 32-bit
// words in order (rtl/cv32e40p_if_stage.sv). That the real prefetcher does so is proved in
// FetchUnit.
module Aligner {
  import opened Options

  type Half = n: nat | n < 0x1_0000

  /** Bits 31..1 of an address: 4 * word, plus 2 in the upper half. Bit 0 of a branch target is
      tied to zero. */
  datatype Addr = Addr(word: Word, upper: bool)
  type Word = n: nat | n < 0x4000_0000

  type Memory = Addr -> Half

  function WordAfter(w: Word): Word { if w == 0x3FFF_FFFF then 0 else w + 1 }

  function Plus4(a: Addr): Addr { Addr(WordAfter(a.word), a.upper) }
  function Plus2(a: Addr): Addr { if a.upper then Addr(WordAfter(a.word), false) else Addr(a.word, true) }

  /** The two low bits of an instruction tell its length. */
  predicate IsFull(h: Half) { h % 4 == 3 }

  // ---------------------------------------------------------------------------
  // The simple parser.

  datatype Instr = Short(low: Half) | Full(low: Half, high: Half)

  function InstrAt(mem: Memory, pc: Addr): Instr {
    if IsFull(mem(pc)) then Full(mem(pc), mem(Plus2(pc))) else Short(mem(pc))
  }

  function After(mem: Memory, pc: Addr): Addr { if IsFull(mem(pc)) then Plus4(pc) else Plus2(pc) }

  /** What the rest of the core sees: an instruction, a branch, or the announcement of a
      hardware loop jump that follows the next instruction. */
  datatype Event = Emit(pc: Addr, instr: Instr) | Branched(target: Addr) | Announced(target: Addr)

  /** The sequential reading of events from pc on; loop is an announced jump. */
  predicate Sequential(mem: Memory, pc: Addr, loop: Option<Addr>, events: seq<Event>)
    decreases |events|
  {
    if events == [] then true
    else match events[0]
      case Emit(at, instr) =>
        && at == pc && instr == InstrAt(mem, pc)
        && Sequential(mem, if loop.Some? then loop.value else After(mem, pc), None, events[1..])
      case Branched(target) => Sequential(mem, target, None, events[1..])
      case Announced(target) => Sequential(mem, pc, Some(target), events[1..])
  }

  /** The first n instructions from pc on. */
  function ParseFrom(mem: Memory, pc: Addr, n: nat): seq<Event>
    decreases n
  {
    if n == 0 then [] else [Emit(pc, InstrAt(mem, pc))] + ParseFrom(mem, After(mem, pc), n - 1)
  }

  lemma {:induction false} SequentialIsParse(mem: Memory, pc: Addr, events: seq<Event>)
    requires forall j :: 0 <= j < |events| ==> events[j].Emit?
    ensures Sequential(mem, pc, None, events) <==> events == ParseFrom(mem, pc, |events|)
    decreases |events|
  {
    if events != [] {
      SequentialIsParse(mem, After(mem, pc), events[1..]);
      assert events == [events[0]] + events[1..];
    }
  }

  // ---------------------------------------------------------------------------
  // The parser reads back what an encoder has laid out.

  type Word32 = n: nat | n < 0x1_0000_0000

  /** Instruction codes as numbers. */
  datatype Code = Code16(half: Half) | Code32(word: Word32)

  /** The two low bits are 11 in 32-bit codes only. */
  predicate IsCode(c: Code) {
    match c
    case Code16(x) => x % 4 != 3
    case Code32(x) => x % 4 == 3
  }

  function Low(x: Word32): Half { x % 0x1_0000 }
  function High(x: Word32): Half { x / 0x1_0000 }

  /** The halfwords of a list of codes, low half first. */
  function Encode(codes: seq<Code>): seq<Half> {
    if codes == [] then []
    else (match codes[0] case Code16(x) => [x] case Code32(x) => [Low(x), High(x)]) + Encode(codes[1..])
  }

  /** The address of halfword number b, which is byte 2 * b; the address space wraps around. */
  function AddressOf(b: nat): Addr { Addr(b / 2 % 0x4000_0000, b % 2 == 1) }

  /** Memory holds the halfwords from halfword number b on. */
  predicate LaidOut(mem: Memory, b: nat, halves: seq<Half>) {
    forall j :: 0 <= j < |halves| ==> mem(AddressOf(b + j)) == halves[j]
  }

  /** The codes with their addresses: a 16-bit code takes one halfword, a 32-bit code two. */
  function Listing(b: nat, codes: seq<Code>): seq<Event>
    decreases |codes|
  {
    if codes == [] then []
    else match codes[0]
      case Code16(x) => [Emit(AddressOf(b), Short(x))] + Listing(b + 1, codes[1..])
      case Code32(x) => [Emit(AddressOf(b), Full(Low(x), High(x)))] + Listing(b + 2, codes[1..])
  }

  lemma AddressAfter(b: nat)
    ensures AddressOf(b + 1) == Plus2(AddressOf(b)) && AddressOf(b + 2) == Plus4(AddressOf(b))
  {
    HalfAfter(b);
    HalfAfter(b + 1);
  }

  lemma HalfAfter(b: nat)
    ensures AddressOf(b + 1) == Plus2(AddressOf(b))
  {
    if b % 2 == 1 {
      assert (b + 1) / 2 == b / 2 + 1;
      Wraps(b / 2);
    }
  }

  lemma Wraps(w: nat)
    ensures (w + 1) % 0x4000_0000 == WordAfter(w % 0x4000_0000)
  {
  }

  lemma LaidOutTail(mem: Memory, b: nat, halves: seq<Half>, n: nat)
    requires LaidOut(mem, b, halves) && n <= |halves|
    ensures LaidOut(mem, b + n, halves[n..])
  {
    forall j | 0 <= j < |halves| - n ensures mem(AddressOf(b + n + j)) == halves[n..][j] {
      assert mem(AddressOf(b + (n + j))) == halves[n + j];
    }
  }

  lemma LowBits(x: Word32)
    ensures Low(x) % 4 == x % 4
  {
    var r: nat, q: nat := Low(x), High(x);
    Remainder4(r / 4 + 16384 * q, r % 4);
  }

  lemma Remainder4(k: nat, m: nat)
    requires m < 4
    ensures (4 * k + m) % 4 == m
  {
  }

  /** The number of halfwords, and the instruction, of a code. */
  function Size(c: Code): nat { if c.Code16? then 1 else 2 }

  function InstrOf(c: Code): Instr {
    match c
    case Code16(x) => Short(x)
    case Code32(x) => Full(Low(x), High(x))
  }

  lemma FirstCode(mem: Memory, b: nat, codes: seq<Code>)
    requires codes != [] && LaidOut(mem, b, Encode(codes)) && IsCode(codes[0])
    ensures InstrAt(mem, AddressOf(b)) == InstrOf(codes[0])
    ensures After(mem, AddressOf(b)) == AddressOf(b + Size(codes[0]))
    ensures LaidOut(mem, b + Size(codes[0]), Encode(codes[1..]))
  {
    var halves := Encode(codes);
    AddressAfter(b);
    assert mem(AddressOf(b + 0)) == halves[0];
    match codes[0] {
      case Code16(x) =>
        assert halves[1..] == Encode(codes[1..]);
        LaidOutTail(mem, b, halves, 1);
      case Code32(x) =>
        assert mem(AddressOf(b + 1)) == halves[1];
        assert halves[2..] == Encode(codes[1..]);
        LowBits(x);
        LaidOutTail(mem, b, halves, 2);
    }
  }

  /** Any list of 16- and 32-bit codes, laid out anywhere, is parsed back with its addresses. */
  lemma {:induction false} ParserReadsEncoder(mem: Memory, b: nat, codes: seq<Code>)
    requires LaidOut(mem, b, Encode(codes)) && forall j :: 0 <= j < |codes| ==> IsCode(codes[j])
    ensures ParseFrom(mem, AddressOf(b), |codes|) == Listing(b, codes)
    decreases |codes|
  {
    if codes != [] {
      FirstCode(mem, b, codes);
      ParserReadsEncoder(mem, b + Size(codes[0]), codes[1..]);
    }
  }

  // ---------------------------------------------------------------------------
  // The aligner.

  datatype State = Aligned32 | Misaligned32 | Misaligned16 | BranchMisaligned

  datatype Regs = Regs(state: State, instrH: Half, pc: Addr, readyQ: bool, updateQ: bool, addrQ: Addr)

  /** Inputs of the aligner; branch and loop jump (hwlp_update_pc_i) carry their targets. */
  datatype Inputs = Inputs(fetchValid: bool, ifValid: bool, low: Half, high: Half,
                           branch: Option<Addr>, jump: Option<Addr>)

  /** r_instr_h is a 16-bit instruction, which needs no further word. */
  predicate HeldShort(k: Regs) { k.state == Misaligned32 && !IsFull(k.instrH) }

  predicate Ready(k: Regs, i: Inputs) { !HeldShort(k) || !i.fetchValid }

  predicate InstrValid(k: Regs, i: Inputs) {
    match k.state
    case Aligned32 => i.fetchValid
    case Misaligned32 => i.fetchValid || HeldShort(k)
    case Misaligned16 => !k.readyQ || i.fetchValid
    case BranchMisaligned => i.fetchValid && !IsFull(i.high)
  }

  /** The halves of instr_aligned_o. */
  function Output(k: Regs, i: Inputs): (Half, Half) {
    match k.state
    case Misaligned32 => (k.instrH, if HeldShort(k) then i.high else i.low)
    case BranchMisaligned => if IsFull(i.high) then (i.low, i.high) else (i.high, i.high)
    case _ => (i.low, i.high)
  }

  predicate Updates(k: Regs, i: Inputs) {
    || i.branch.Some?
    || (i.ifValid && match k.state
                     case Misaligned32 => i.fetchValid || HeldShort(k)
                     case Misaligned16 => !k.readyQ || i.fetchValid
                     case _ => i.fetchValid)
  }

  function NextState(k: Regs, i: Inputs): State {
    if i.branch.Some? then (if i.branch.value.upper then BranchMisaligned else Aligned32)
    else match k.state
      case Aligned32 => if IsFull(i.low) then Aligned32 else Misaligned32
      case Misaligned32 => if IsFull(k.instrH) then Misaligned32 else Misaligned16
      case Misaligned16 => if IsFull(i.low) then Aligned32 else Misaligned32
      case BranchMisaligned => if IsFull(i.high) then Misaligned32 else Aligned32
  }

  function NextPc(k: Regs, i: Inputs): Addr {
    if i.branch.Some? then i.branch.value
    else match k.state
      case Aligned32 =>
        if !IsFull(i.low) then Plus2(k.pc)
        else if i.jump.Some? then i.jump.value
        else if k.updateQ then k.addrQ else Plus4(k.pc)
      case Misaligned32 => if IsFull(k.instrH) then Plus4(k.pc) else Plus2(k.pc)
      case Misaligned16 => if IsFull(i.low) then Plus4(k.pc) else Plus2(k.pc)
      case BranchMisaligned => if IsFull(i.high) then k.pc else Plus2(k.pc)
  }

  /** One clock edge. */
  function Next(k: Regs, i: Inputs): Regs {
    if Updates(k, i) then Regs(NextState(k, i), i.high, NextPc(k, i), Ready(k, i), false, k.addrQ)
    else if i.jump.Some? then k.(updateQ := true, addrQ := i.jump.value)
    else k
  }

  // ---------------------------------------------------------------------------
  // The prefetcher: the next word's address, whether the aligner has refused it, so that it has
  // to stay valid, and where the words continue after it when a loop jump has been announced.

  datatype Fetch = Fetch(word: Word, offered: bool, loop: Option<Addr>)

  /** What the surroundings do in one clock: the next word may arrive, IF may pass an
      instruction on, a loop jump may be announced; or a branch is taken, which empties the
      prefetcher and lets nothing through. noise is on the bus while there is no word. */
  datatype Step = Flow(arrive: bool, ifValid: bool, jump: Option<Addr>, noise: (Half, Half))
                | Branch(target: Addr, noise: (Half, Half))

  datatype System = System(k: Regs, f: Fetch)

  predicate Delivers(s: System, e: Step) { e.Flow? && (e.arrive || s.f.offered) }

  function InputsOf(mem: Memory, s: System, e: Step): Inputs {
    var word := if Delivers(s, e) then (mem(Addr(s.f.word, false)), mem(Addr(s.f.word, true))) else e.noise;
    match e
    case Flow(_, ifValid, jump, _) => Inputs(Delivers(s, e), ifValid, word.0, word.1, None, jump)
    case Branch(target, _) => Inputs(false, false, word.0, word.1, Some(target), None)
  }

  /** fetch_ready: the prefetcher's word is taken. */
  predicate Consumes(k: Regs, i: Inputs) { i.fetchValid && i.ifValid && Ready(k, i) }

  function FetchNext(mem: Memory, s: System, e: Step): Fetch {
    var i := InputsOf(mem, s, e);
    match e
    case Branch(target, _) => Fetch(target.word, false, None)
    case Flow(_, _, jump, _) =>
      var loop := if jump.Some? then jump else s.f.loop;
      if Consumes(s.k, i) then Fetch(if loop.Some? then loop.value.word else WordAfter(s.f.word), false, None)
      else Fetch(s.f.word, s.f.offered || (i.fetchValid && i.ifValid && !Ready(s.k, i)), loop)
  }

  function SystemNext(mem: Memory, s: System, e: Step): System {
    System(Next(s.k, InputsOf(mem, s, e)), FetchNext(mem, s, e))
  }

  /** The instruction that enters ID. */
  function EmittedBy(k: Regs, i: Inputs): seq<Event> {
    if i.ifValid && InstrValid(k, i) then
      var (low, high) := Output(k, i);
      [Emit(k.pc, if IsFull(low) then Full(low, high) else Short(low))]
    else []
  }

  function Emitted(mem: Memory, s: System, e: Step): seq<Event> { EmittedBy(s.k, InputsOf(mem, s, e)) }

  function Observed(mem: Memory, s: System, e: Step): seq<Event> {
    match e
    case Branch(target, _) => [Branched(target)]
    case Flow(_, _, jump, _) =>
      (if jump.Some? then [Announced(jump.value)] else []) + Emitted(mem, s, e)
  }

  function Events(mem: Memory, s: System, steps: seq<Step>): seq<Event>
    decreases |steps|
  {
    if steps == [] then [] else Observed(mem, s, steps[0]) + Events(mem, SystemNext(mem, s, steps[0]), steps[1..])
  }

  /** A loop jump is announced by a 32-bit instruction at pc - 4 and follows the 32-bit
      instruction at pc; its target is a multiple of four. */
  predicate Legal(mem: Memory, s: System, e: Step) {
    e.Flow? && e.jump.Some? ==>
      s.k.state == Aligned32 && IsFull(mem(s.k.pc)) && !e.jump.value.upper && !s.k.updateQ
  }

  predicate LegalRun(mem: Memory, s: System, steps: seq<Step>)
    decreases |steps|
  {
    steps == [] || (Legal(mem, s, steps[0]) && LegalRun(mem, SystemNext(mem, s, steps[0]), steps[1..]))
  }

  // ---------------------------------------------------------------------------
  // Refinement.

  /** pc_q is the address of the next instruction, and the aligner holds or expects its parts. */
  predicate Tracks(mem: Memory, s: System) {
    var k, f := s.k, s.f;
    match k.state
    case Aligned32 => k.pc == Addr(f.word, false)
    case Misaligned32 => k.instrH == mem(k.pc) && k.pc.upper && f.word == WordAfter(k.pc.word)
    case Misaligned16 => k.pc == Addr(f.word, false) && (!k.readyQ ==> f.offered)
    case BranchMisaligned => k.pc == Addr(f.word, true)
  }

  /** An announced jump is known to the aligner and to the prefetcher. */
  predicate LoopKnown(mem: Memory, s: System) {
    && s.f.loop == (if s.k.updateQ then Some(s.k.addrQ) else None)
    && (s.k.updateQ ==> s.k.state == Aligned32 && IsFull(mem(s.k.pc)) && !s.k.addrQ.upper)
  }

  /** What one clock has to do: exactly the next instruction, or nothing, is emitted. */
  predicate StepCorrect(mem: Memory, s: System, e: Step) {
    var t := SystemNext(mem, s, e);
    var loop := if e.Flow? && e.jump.Some? then e.jump else s.f.loop;
    && Tracks(mem, t) && LoopKnown(mem, t)
    && (if Emitted(mem, s, e) == [] then e.Flow? ==> t.k.pc == s.k.pc && t.f.loop == loop
        else && Emitted(mem, s, e) == [Emit(s.k.pc, InstrAt(mem, s.k.pc))]
             && t.k.pc == (if loop.Some? then loop.value else After(mem, s.k.pc)) && t.f.loop == None)
  }

  lemma StepRefines(mem: Memory, s: System, e: Step)
    requires Tracks(mem, s) && LoopKnown(mem, s) && Legal(mem, s, e)
    ensures StepCorrect(mem, s, e)
  {
  }

  /** Every run, with any delays, stalls and branches, is the sequential reading of memory. */
  lemma {:induction false} AlignerRefinesParser(mem: Memory, s: System, steps: seq<Step>)
    requires Tracks(mem, s) && LoopKnown(mem, s) && LegalRun(mem, s, steps)
    ensures Sequential(mem, s.k.pc, s.f.loop, Events(mem, s, steps))
    decreases |steps|
  {
    if steps != [] {
      StepRefines(mem, s, steps[0]);
      var t := SystemNext(mem, s, steps[0]);
      AlignerRefinesParser(mem, t, steps[1..]);
      Prefix(mem, s, steps[0], Events(mem, t, steps[1..]));
    }
  }

  lemma Prefix(mem: Memory, s: System, e: Step, rest: seq<Event>)
    requires Tracks(mem, s) && LoopKnown(mem, s) && Legal(mem, s, e)
    requires var t := SystemNext(mem, s, e); Sequential(mem, t.k.pc, t.f.loop, rest)
    ensures Sequential(mem, s.k.pc, s.f.loop, Observed(mem, s, e) + rest)
  {
    StepRefines(mem, s, e);
    match e
    case Branch(target, _) =>
      assert (Observed(mem, s, e) + rest)[1..] == rest;
    case Flow(_, _, jump, _) =>
      var emitted := Emitted(mem, s, e);
      var tail := emitted + rest;
      if emitted == [] {
        assert tail == rest;
      } else {
        assert tail[1..] == rest;
      }
      if jump.Some? {
        assert Observed(mem, s, e) + rest == [Announced(jump.value)] + tail;
        assert ([Announced(jump.value)] + tail)[1..] == tail;
      } else {
        assert Observed(mem, s, e) + rest == tail;
      }
  }

  /** After a branch, and until the next branch or loop jump, the emitted instructions are
      those of the parser from the target on. */
  lemma ParsesFromTarget(mem: Memory, s: System, target: Addr, noise: (Half, Half), steps: seq<Step>)
    requires forall j :: 0 <= j < |steps| ==> steps[j].Flow? && steps[j].jump == None
    ensures var events := Events(mem, SystemNext(mem, s, Branch(target, noise)), steps);
            events == ParseFrom(mem, target, |events|)
  {
    var t := SystemNext(mem, s, Branch(target, noise));
    FlowIsLegal(mem, t, steps);
    AlignerRefinesParser(mem, t, steps);
    SequentialIsParse(mem, target, Events(mem, t, steps));
  }

  lemma {:induction false} FlowIsLegal(mem: Memory, s: System, steps: seq<Step>)
    requires forall j :: 0 <= j < |steps| ==> steps[j].Flow? && steps[j].jump == None
    ensures LegalRun(mem, s, steps)
    ensures forall j :: 0 <= j < |Events(mem, s, steps)| ==> Events(mem, s, steps)[j].Emit?
    decreases |steps|
  {
    if steps != [] {
      FlowIsLegal(mem, SystemNext(mem, s, steps[0]), steps[1..]);
    }
  }

  /** Nothing gets stuck: with a word on offer and ID ready, at most one clock passes without
      an instruction. */
  lemma AlignerProgresses(mem: Memory, s: System, e: Step, d: Step)
    requires Tracks(mem, s) && LoopKnown(mem, s)
    requires e.Flow? && e.arrive && e.ifValid && e.jump == None
    requires d.Flow? && d.arrive && d.ifValid
    ensures Emitted(mem, s, e) != [] || Emitted(mem, SystemNext(mem, s, e), d) != []
  {
    StepRefines(mem, s, e);
  }

  // ---------------------------------------------------------------------------

  /** The registers as they are clocked. */
  class Registers {
    var state: State
    var instrH: Half
    var pc: Addr
    var readyQ: bool
    var updateQ: bool
    var addrQ: Addr

    function Now(): Regs reads this { Regs(state, instrH, pc, readyQ, updateQ, addrQ) }

    constructor ()
      ensures Now() == Regs(Aligned32, 0, Addr(0, false), false, false, Addr(0, false))
    {
      state, instrH, pc, readyQ, updateQ, addrQ :=
        Aligned32, 0, Addr(0, false), false, false, Addr(0, false);
    }

    /** One clock edge with the outputs of the clock before it. */
    method Clock(i: Inputs) returns (valid: bool, low: Half, high: Half, ready: bool)
      modifies this
      ensures Now() == Next(old(Now()), i)
      ensures valid == InstrValid(old(Now()), i) && (low, high) == Output(old(Now()), i)
      ensures ready == Ready(old(Now()), i)
    {
      valid, low, high, ready := i.fetchValid, i.low, i.high, true;
      var update, next, nextPc := i.fetchValid && i.ifValid, state, pc;
      match state {
        case Aligned32 =>
          if IsFull(i.low) {
            nextPc := if i.jump.Some? then i.jump.value else if updateQ then addrQ else Plus4(pc);
          } else {
            next, nextPc := Misaligned32, Plus2(pc);
          }
        case Misaligned32 =>
          if IsFull(instrH) {
            low, high, nextPc := instrH, i.low, Plus4(pc);
          } else {
            low, high, valid, ready := instrH, i.high, true, !i.fetchValid;
            next, nextPc, update := Misaligned16, Plus2(pc), i.ifValid;
          }
        case Misaligned16 =>
          valid := !readyQ || i.fetchValid;
          update := valid && i.ifValid;
          if IsFull(i.low) {
            next, nextPc := Aligned32, Plus4(pc);
          } else {
            next, nextPc := Misaligned32, Plus2(pc);
          }
        case BranchMisaligned =>
          if IsFull(i.high) {
            next, valid := Misaligned32, false;
          } else {
            next, nextPc, low := Aligned32, Plus2(pc), i.high;
          }
      }
      if i.branch.Some? {
        update, nextPc := true, i.branch.value;
        next := if i.branch.value.upper then BranchMisaligned else Aligned32;
      }
      if update {
        pc, state, instrH, readyQ, updateQ := nextPc, next, i.high, ready, false;
      } else if i.jump.Some? {
        addrQ, updateQ := i.jump.value, true;
      }
    }
  }
}
