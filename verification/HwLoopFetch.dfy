// Hardware loops on the real fetch unit: the loop controller of HwLoop drives the prefetcher and
// the aligner of FetchUnit, and the bus has any delays. A slow jump is a branch, a fast jump an
// announced loop jump, and an interrupt, its handler and its mret a branch to the interrupted
// instruction.
module HwLoopFetch {
  import opened Options
  import A = Aligner
  import L = HwLoop
  import P = Prefetcher
  import U = FetchUnit

  /** Controller state, IF/ID registers and counters, and the fetch unit. */
  datatype Front = Front(fsm: L.Fsm, jumpDone: bool, end4: bool, idValid: bool, idPc: L.Addr, cnt0: L.Addr, cnt1: L.Addr,
                         u: U.System)

  /** Bus grant and response, ID readiness, interrupt request, and the data while there is no word. */
  datatype Inputs = Inputs(gnt: bool, resp: bool, idReady: bool, irq: bool, noise: (A.Half, A.Half))

  function Byte(a: A.Addr): L.Addr { 4 * a.word + if a.upper then 2 else 0 }

  function At(a: L.Addr): A.Addr { A.Addr(a / 4, a % 4 >= 2) }

  lemma ByteAt(a: L.Addr)
    requires a % 4 == 0
    ensures Byte(At(a)) == a && !At(a).upper
  {
  }

  /** The same for the upper halfword of a word. */
  lemma UpperByteAt(a: L.Addr)
    requires a % 4 == 2
    ensures Byte(At(a)) == a && At(a).upper
  {
  }

  /** The front as the loop controller sees it. */
  function Seen(x: Front): L.Regs {
    L.Regs(x.fsm, x.jumpDone, x.end4, x.idValid, x.idPc, Byte(x.u.a.pc), x.u.a.updateQ, Byte(x.u.a.addrQ), x.cnt0, x.cnt1)
  }

  /** What the controller decides does not depend on the fetch. */
  function Control(i: Inputs): L.Inputs { L.Inputs(false, i.idReady, i.irq) }

  /** The signals from the controller to the fetch unit. */
  function StepOf(c: L.Config, x: Front, i: Inputs): U.Step {
    var k := Seen(x);
    U.Step(true, i.gnt, i.resp, i.idReady,
           if L.TakesIrq(k, Control(i)) then Some(At(x.idPc))
           else if L.SlowJump(c, k, Control(i)) then Some(At(L.Target(c, k, Control(i))))
           else None,
           if L.FastJump(c, k, Control(i)) then Some(At(L.Target(c, k, Control(i)))) else None,
           i.noise)
  }

  function LoopInputs(c: L.Config, x: Front, i: Inputs): L.Inputs {
    L.Inputs(U.FetchValid(x.u, StepOf(c, x, i)), i.idReady, i.irq)
  }

  /** The instruction that the fetch unit passes to ID. */
  function Passed(mem: A.Memory, c: L.Config, x: Front, i: Inputs): seq<A.Event> {
    A.EmittedBy(x.u.a, U.AlignerInputs(mem, x.u, StepOf(c, x, i)))
  }

  /** One clock edge: IF/ID takes what the fetch unit passes. */
  function Next(v: P.Variant, mem: A.Memory, c: L.Config, x: Front, i: Inputs): Front
    requires v.depth >= 2
  {
    var n, passed := L.Next(c, Seen(x), LoopInputs(c, x, i)), Passed(mem, c, x, i);
    Front(n.fsm, n.jumpDone, n.end4,
          passed != [] || (x.idValid && !i.idReady && !L.TakesIrq(Seen(x), Control(i))),
          if passed != [] && passed[0].Emit? then Byte(passed[0].pc) else x.idPc,
          n.cnt0, n.cnt1,
          U.Next(v, mem, x.u, StepOf(c, x, i)))
  }

  predicate Retires(x: Front, i: Inputs) { L.Retires(Seen(x), Control(i)) }

  /** The addresses of the instructions that leave ID, in order. */
  function Retired(v: P.Variant, mem: A.Memory, c: L.Config, x: Front, ins: seq<Inputs>): seq<L.Addr>
    requires v.depth >= 2
    decreases |ins|
  {
    if ins == [] then []
    else (if Retires(x, ins[0]) then [x.idPc] else []) + Retired(v, mem, c, Next(v, mem, c, x, ins[0]), ins[1..])
  }

  /** The bus answers granted transactions only. */
  predicate BusLegal(x: Front, i: Inputs) { i.resp ==> P.Owed(x.u.p) }

  predicate BusLegalRun(v: P.Variant, mem: A.Memory, c: L.Config, x: Front, ins: seq<Inputs>)
    requires v.depth >= 2
    decreases |ins|
  {
    ins == [] || (BusLegal(x, ins[0]) && BusLegalRun(v, mem, c, Next(v, mem, c, x, ins[0]), ins[1..]))
  }

  // ---------------------------------------------------------------------------
  // One clock of the loop controller's model is one clock of the front.

  /** The code of the region consists of 32-bit instructions. */
  predicate FullCode(mem: A.Memory, lo: L.Addr, hi: L.Addr) {
    forall a: L.Addr :: lo <= a < hi && a % 4 == 0 ==> A.IsFull(mem(At(a)))
  }

  predicate Fetching(v: P.Variant, mem: A.Memory, x: Front, f: A.Fetch, g: P.Ref) {
    U.Tracks(v, mem, x.u, f, g) && x.u.a.state == A.Aligned32
  }

  /** The controller can only make a fast jump when the prefetcher allows it. */
  predicate JumpAllowed(c: L.Config, x: Front, g: P.Ref) {
    L.FastJump(c, Seen(x), L.Inputs(false, false, false)) ==> g.taken
  }

  ghost predicate Good(v: P.Variant, mem: A.Memory, c: L.Config, lo: L.Addr, hi: L.Addr, x: Front, f: A.Fetch, g: P.Ref, s: L.Arch) {
    && v.depth >= 2 && Fetching(v, mem, x, f, g) && JumpAllowed(c, x, g) && FullCode(mem, lo, hi)
    && L.Tracks(c, lo, hi, Seen(x), s)
  }

  /** Where a fast jump is made, and to where. */
  lemma FastJumpShape(c: L.Config, lo: L.Addr, hi: L.Addr, k: L.Regs, s: L.Arch, i: L.Inputs)
    requires L.Tracks(c, lo, hi, k, s) && !L.Hazard(c, lo, hi, s) && L.FastJump(c, k, i)
    ensures !k.updatePc && k.pcIf == k.idPc + 4 && lo <= k.pcIf < hi && k.pcIf % 4 == 0 && L.Target(c, k, i) % 4 == 0
    ensures !L.SlowJump(c, k, i) && !L.TakesIrq(k, i)
  {
  }

  lemma StepIsLegal(v: P.Variant, mem: A.Memory, c: L.Config, lo: L.Addr, hi: L.Addr, x: Front, f: A.Fetch, g: P.Ref,
                    s: L.Arch, i: Inputs)
    requires Good(v, mem, c, lo, hi, x, f, g, s) && !L.Hazard(c, lo, hi, s) && BusLegal(x, i)
    ensures U.Legal(mem, x.u, f, g, StepOf(c, x, i))
  {
    var k := Seen(x);
    if L.FastJump(c, k, Control(i)) {
      FastJumpShape(c, lo, hi, k, s, Control(i));
      ByteAt(L.Target(c, k, Control(i)));
      assert At(k.pcIf) == x.u.a.pc;
    }
  }

  /** What is fetched in the region is a 32-bit instruction. */
  lemma FetchesFull(v: P.Variant, mem: A.Memory, c: L.Config, lo: L.Addr, hi: L.Addr, x: Front, f: A.Fetch, g: P.Ref,
                    s: L.Arch, i: Inputs)
    requires Good(v, mem, c, lo, hi, x, f, g, s) && L.Fetches(c, Seen(x), LoopInputs(c, x, i))
    requires !L.TakesIrq(Seen(x), Control(i))
    requires var t := if Retires(x, i) then L.ArchNext(c, s) else s; t.pc != hi
    ensures A.IsFull(mem(x.u.a.pc))
  {
    assert lo <= Byte(x.u.a.pc) < hi && At(Byte(x.u.a.pc)) == x.u.a.pc;
  }

  lemma SimulatesBranch(v: P.Variant, mem: A.Memory, c: L.Config, lo: L.Addr, hi: L.Addr, x: Front, f: A.Fetch, g: P.Ref,
                        s: L.Arch, i: Inputs)
    requires Good(v, mem, c, lo, hi, x, f, g, s) && StepOf(c, x, i).branch.Some?
    ensures Seen(Next(v, mem, c, x, i)) == L.Next(c, Seen(x), LoopInputs(c, x, i))
    ensures Next(v, mem, c, x, i).u.a.state == A.Aligned32
  {
    ByteAt(x.idPc);
    ByteAt(L.Target(c, Seen(x), Control(i)));
    assert Passed(mem, c, x, i) == [];
  }

  lemma SimulatesFlow(v: P.Variant, mem: A.Memory, c: L.Config, lo: L.Addr, hi: L.Addr, x: Front, f: A.Fetch, g: P.Ref,
                      s: L.Arch, i: Inputs)
    requires Good(v, mem, c, lo, hi, x, f, g, s) && !L.Hazard(c, lo, hi, s) && BusLegal(x, i)
    requires StepOf(c, x, i).branch == None
    requires U.FetchValid(x.u, StepOf(c, x, i)) && i.idReady ==> A.IsFull(mem(x.u.a.pc))
    ensures Seen(Next(v, mem, c, x, i)) == L.Next(c, Seen(x), LoopInputs(c, x, i))
    ensures Next(v, mem, c, x, i).u.a.state == A.Aligned32
  {
    StepIsLegal(v, mem, c, lo, hi, x, f, g, s, i);
    U.SameInputs(v, mem, x.u, f, g, StepOf(c, x, i));
    if L.FastJump(c, Seen(x), Control(i)) {
      FastJumpShape(c, lo, hi, Seen(x), s, Control(i));
      ByteAt(L.Target(c, Seen(x), Control(i)));
    }
  }

  /** As long as 32-bit instructions are fetched, the loop controller's model describes the front. */
  lemma Simulates(v: P.Variant, mem: A.Memory, c: L.Config, lo: L.Addr, hi: L.Addr, x: Front, f: A.Fetch, g: P.Ref,
                  s: L.Arch, i: Inputs)
    requires Good(v, mem, c, lo, hi, x, f, g, s) && !L.Hazard(c, lo, hi, s) && BusLegal(x, i)
    requires U.FetchValid(x.u, StepOf(c, x, i)) && i.idReady ==> A.IsFull(mem(x.u.a.pc))
    ensures Seen(Next(v, mem, c, x, i)) == L.Next(c, Seen(x), LoopInputs(c, x, i))
    ensures Next(v, mem, c, x, i).u.a.state == A.Aligned32
  {
    if StepOf(c, x, i).branch.Some? {
      SimulatesBranch(v, mem, c, lo, hi, x, f, g, s, i);
    } else {
      SimulatesFlow(v, mem, c, lo, hi, x, f, g, s, i);
    }
  }

  /** A fast jump in the next clock means that a word has been taken in this one. */
  lemma JumpStaysAllowed(v: P.Variant, mem: A.Memory, c: L.Config, lo: L.Addr, hi: L.Addr, x: Front, f: A.Fetch, g: P.Ref,
                         s: L.Arch, i: Inputs)
    requires Good(v, mem, c, lo, hi, x, f, g, s) && !L.Hazard(c, lo, hi, s) && BusLegal(x, i)
    requires Seen(Next(v, mem, c, x, i)) == L.Next(c, Seen(x), LoopInputs(c, x, i))
    ensures JumpAllowed(c, Next(v, mem, c, x, i), U.RefNext(x.u, g, StepOf(c, x, i)))
  {
    var k, j := Seen(x), L.Inputs(false, false, false);
    if L.FastJump(c, L.Next(c, k, LoopInputs(c, x, i)), j) {
      L.JumpFollowsFetch(c, lo, hi, k, s, LoopInputs(c, x, i), j);
    }
  }

  /** The loop has been left: the instruction at hi is in ID or comes next. */
  predicate Left(x: Front, hi: L.Addr) {
    if x.idValid then x.idPc == hi else x.u.a.state == A.Aligned32 && Byte(x.u.a.pc) == hi && !x.u.a.updateQ
  }

  /** It is left in DECODE. */
  predicate LeftInDecode(x: Front, hi: L.Addr) { x.fsm == L.Decode && !x.jumpDone && Left(x, hi) }

  /** The fetch of the instruction at hi, which can have any length. */
  lemma LeavesFetching(v: P.Variant, mem: A.Memory, c: L.Config, lo: L.Addr, hi: L.Addr, x: Front, f: A.Fetch, g: P.Ref,
                       s: L.Arch, i: Inputs)
    requires Good(v, mem, c, lo, hi, x, f, g, s) && !L.Hazard(c, lo, hi, s) && BusLegal(x, i)
    requires Retires(x, i) && L.ArchNext(c, s).pc == hi
    ensures LeftInDecode(Next(v, mem, c, x, i), hi)
  {
    var k, j := Seen(x), LoopInputs(c, x, i);
    L.TracksStep(c, lo, hi, k, s, j);
    if U.FetchValid(x.u, StepOf(c, x, i)) {
      StepIsLegal(v, mem, c, lo, hi, x, f, g, s, i);
      U.SameInputs(v, mem, x.u, f, g, StepOf(c, x, i));
    } else {
      Simulates(v, mem, c, lo, hi, x, f, g, s, i);
    }
  }

  /** One clock of the front, with any bus: it keeps track of the architecture. */
  lemma FrontStep(v: P.Variant, mem: A.Memory, c: L.Config, lo: L.Addr, hi: L.Addr, x: Front, f: A.Fetch, g: P.Ref,
                  s: L.Arch, i: Inputs)
    requires Good(v, mem, c, lo, hi, x, f, g, s) && !L.Hazard(c, lo, hi, s) && BusLegal(x, i)
    ensures Retires(x, i) ==> x.idPc == s.pc
    ensures var t := if Retires(x, i) then L.ArchNext(c, s) else s;
            if t.pc == hi then LeftInDecode(Next(v, mem, c, x, i), hi)
            else Good(v, mem, c, lo, hi, Next(v, mem, c, x, i), U.FetchNext(mem, x.u, f, StepOf(c, x, i)),
                      U.RefNext(x.u, g, StepOf(c, x, i)), t)
  {
    var t := if Retires(x, i) then L.ArchNext(c, s) else s;
    L.TracksStep(c, lo, hi, Seen(x), s, LoopInputs(c, x, i));
    if t.pc == hi {
      LeavesFetching(v, mem, c, lo, hi, x, f, g, s, i);
    } else {
      if U.FetchValid(x.u, StepOf(c, x, i)) && i.idReady { FetchesFull(v, mem, c, lo, hi, x, f, g, s, i); }
      Simulates(v, mem, c, lo, hi, x, f, g, s, i);
      JumpStaysAllowed(v, mem, c, lo, hi, x, f, g, s, i);
      StepIsLegal(v, mem, c, lo, hi, x, f, g, s, i);
      U.StepSimulates(v, mem, x.u, f, g, StepOf(c, x, i));
    }
  }

  // ---------------------------------------------------------------------------
  // Whole runs.

  lemma {:induction false} AfterwardsHi(v: P.Variant, mem: A.Memory, c: L.Config, hi: L.Addr, x: Front, ins: seq<Inputs>)
    requires v.depth >= 2 && hi % 4 == 0 && Left(x, hi)
    ensures L.Agree(Retired(v, mem, c, x, ins), [hi])
    decreases |ins|
  {
    if ins != [] && !Retires(x, ins[0]) {
      ByteAt(hi);
      AfterwardsHi(v, mem, c, hi, Next(v, mem, c, x, ins[0]), ins[1..]);
    }
  }

  /** If the run gets as far as n instructions, hi is entered in DECODE then. */
  predicate Leaves(v: P.Variant, mem: A.Memory, c: L.Config, hi: L.Addr, x: Front, ins: seq<Inputs>, n: nat)
    requires v.depth >= 2
    decreases |ins|
  {
    if n == 0 then LeftInDecode(x, hi)
    else ins == [] || Leaves(v, mem, c, hi, Next(v, mem, c, x, ins[0]), ins[1..], if Retires(x, ins[0]) then n - 1 else n)
  }

  predicate Right(v: P.Variant, mem: A.Memory, c: L.Config, hi: L.Addr, x: Front, ins: seq<Inputs>, expected: seq<L.Addr>)
    requires v.depth >= 2
  {
    L.Agree(Retired(v, mem, c, x, ins), expected + [hi]) && Leaves(v, mem, c, hi, x, ins, |expected|)
  }

  lemma {:induction false} FrontRun(v: P.Variant, mem: A.Memory, c: L.Config, lo: L.Addr, hi: L.Addr, x: Front, f: A.Fetch,
                                    g: P.Ref, s: L.Arch, trace: seq<L.Addr>, t: L.Arch, ins: seq<Inputs>)
    requires Good(v, mem, c, lo, hi, x, f, g, s) && L.Safe(c, lo, hi, s) && L.Walk(c, hi, s, trace, t) && t.pc == hi
    requires BusLegalRun(v, mem, c, x, ins)
    ensures Right(v, mem, c, hi, x, ins, trace)
    decreases |ins|
  {
    if ins != [] {
      var i, n, rest := ins[0], Next(v, mem, c, x, ins[0]), ins[1..];
      var f', g' := U.FetchNext(mem, x.u, f, StepOf(c, x, i)), U.RefNext(x.u, g, StepOf(c, x, i));
      L.SafeStep(c, lo, hi, s);
      FrontStep(v, mem, c, lo, hi, x, f, g, s, i);
      if !Retires(x, i) {
        FrontRun(v, mem, c, lo, hi, n, f', g', s, trace, t, rest);
      } else if L.ArchNext(c, s).pc == hi {
        AfterwardsHi(v, mem, c, hi, n, rest);
      } else {
        FrontRun(v, mem, c, lo, hi, n, f', g', L.ArchNext(c, s), trace[1..], t, rest);
      }
      RightFirst(v, mem, c, hi, x, ins, trace);
    }
  }

  /** The first clock of a run. */
  lemma RightFirst(v: P.Variant, mem: A.Memory, c: L.Config, hi: L.Addr, x: Front, ins: seq<Inputs>, expected: seq<L.Addr>)
    requires v.depth >= 2 && ins != [] && expected != []
    requires Retires(x, ins[0]) ==> x.idPc == expected[0]
    requires Right(v, mem, c, hi, Next(v, mem, c, x, ins[0]), ins[1..], if Retires(x, ins[0]) then expected[1..] else expected)
    ensures Right(v, mem, c, hi, x, ins, expected)
  {
    var rest := Retired(v, mem, c, Next(v, mem, c, x, ins[0]), ins[1..]);
    if Retires(x, ins[0]) {
      AgreeFirst(x.idPc, rest, expected[1..] + [hi]);
      assert expected + [hi] == [x.idPc] + (expected[1..] + [hi]);
      assert Retired(v, mem, c, x, ins) == [x.idPc] + rest;
    } else {
      assert Retired(v, mem, c, x, ins) == rest;
    }
  }

  lemma AgreeFirst(first: L.Addr, a: seq<L.Addr>, b: seq<L.Addr>)
    requires L.Agree(a, b)
    ensures L.Agree([first] + a, [first] + b)
  {
  }

  /** Supported loops on the real prefetcher and aligner: for every bus delay, stall and interrupt,
      the instructions retired from the entry on are the expected ones and then the one after the
      loop, of any length, which is entered in DECODE. */
  lemma LoopsRetireOnFetchUnit(v: P.Variant, mem: A.Memory, c: L.Config, lo: L.Addr, hi: L.Addr, x: Front, f: A.Fetch,
                               g: P.Ref, ins: seq<Inputs>)
    requires v.depth >= 2 && L.WellFormed(c, lo, hi) && FullCode(mem, lo, hi) && Fetching(v, mem, x, f, g)
    requires L.Entered(Seen(x), lo) && L.Supported(c, lo, hi, x.cnt0, x.cnt1) && BusLegalRun(v, mem, c, x, ins)
    ensures Right(v, mem, c, hi, x, ins, L.Expected(c, lo, hi, x.cnt0, x.cnt1))
  {
    var s := L.Arch(lo, x.cnt0, x.cnt1);
    var t := L.ArchitectureMeetsExpected(c, lo, hi, s);
    FrontRun(v, mem, c, lo, hi, x, f, g, s, L.Expected(c, lo, hi, s.n0, s.n1), t, ins);
  }

  /** Every branch to a loop's start, from reset or later, leads to such an entry. */
  lemma BranchEnters(v: P.Variant, mem: A.Memory, u: U.System, f: A.Fetch, g: P.Ref, lo: L.Addr, e: U.Step)
    requires U.Tracks(v, mem, u, f, g) && U.Legal(mem, u, f, g, e) && lo % 4 == 0 && e.branch == Some(At(lo))
    ensures var n := U.Next(v, mem, u, e);
            && U.Tracks(v, mem, n, U.FetchNext(mem, u, f, e), U.RefNext(u, g, e))
            && n.a.state == A.Aligned32 && Byte(n.a.pc) == lo && !n.a.updateQ
  {
    ByteAt(lo);
    U.StepSimulates(v, mem, u, f, g, e);
  }
}
