// The fetch unit: the prefetcher and the aligner as rtl/cv32e40p_if_stage.sv connects them,
// against a bus with any delays.
module FetchUnit {
  import opened Options
  import A = Aligner
  import P = Prefetcher

  datatype System = System(p: P.Regs, a: A.Regs)

  /** One clock: bus grant and response; pass: ID is ready and IF is not halted; branch and loop
      jump targets; noise: the data while there is no word. */
  datatype Step = Step(req: bool, gnt: bool, resp: bool, pass: bool, branch: Option<A.Addr>, jump: Option<A.Addr>,
                       noise: (A.Half, A.Half))

  function WordOf(a: Option<A.Addr>): Option<P.Word> { if a.Some? then Some(a.value.word) else None }

  /** fetch_ready needs the aligner, which refuses a word while a 16-bit instruction is held. */
  function PrefetcherInputs(s: System, e: Step): P.Inputs {
    P.Inputs(e.req, e.gnt, e.resp, e.req && e.pass && !A.HeldShort(s.a), WordOf(e.branch), WordOf(e.jump))
  }

  predicate FetchValid(s: System, e: Step) { P.FetchValid(s.p, PrefetcherInputs(s, e)) }

  function AlignerInputs(mem: A.Memory, s: System, e: Step): A.Inputs {
    var valid, word := FetchValid(s, e), P.Offered(s.p);
    A.Inputs(valid, valid && e.pass,
             if valid then mem(A.Addr(word, false)) else e.noise.0,
             if valid then mem(A.Addr(word, true)) else e.noise.1,
             e.branch, if e.branch.Some? then None else e.jump)
  }

  function Next(v: P.Variant, mem: A.Memory, s: System, e: Step): System
    requires v.depth >= 2
  {
    System(P.Next(v, s.p, PrefetcherInputs(s, e)), A.Next(s.a, AlignerInputs(mem, s, e)))
  }

  function Observed(mem: A.Memory, s: System, e: Step): seq<A.Event> {
    if e.branch.Some? then [A.Branched(e.branch.value)]
    else (if e.jump.Some? then [A.Announced(e.jump.value)] else []) + A.EmittedBy(s.a, AlignerInputs(mem, s, e))
  }

  function Events(v: P.Variant, mem: A.Memory, s: System, steps: seq<Step>): seq<A.Event>
    requires v.depth >= 2
    decreases |steps|
  {
    if steps == [] then [] else Observed(mem, s, steps[0]) + Events(v, mem, Next(v, mem, s, steps[0]), steps[1..])
  }

  // ---------------------------------------------------------------------------
  // The aligner's abstract prefetcher is refined by the real one.

  /** The abstract step. */
  function StepOf(s: System, e: Step): A.Step {
    if e.branch.Some? then A.Branch(e.branch.value, e.noise)
    else A.Flow(FetchValid(s, e), FetchValid(s, e) && e.pass, e.jump, e.noise)
  }

  function Abstract(s: System, f: A.Fetch): A.System { A.System(s.a, f) }

  /** Nothing is passed on without fetching; the bus and the loop jumps obey the prefetcher's
      rules, and loop jumps the aligner's. */
  predicate Legal(mem: A.Memory, s: System, f: A.Fetch, g: P.Ref, e: Step) {
    && (e.pass ==> e.req)
    && P.Legal(s.p, g, PrefetcherInputs(s, e))
    && A.Legal(mem, Abstract(s, f), StepOf(s, e))
  }

  /** The next abstract prefetcher. */
  function FetchNext(mem: A.Memory, s: System, f: A.Fetch, e: Step): A.Fetch {
    A.FetchNext(mem, Abstract(s, f), StepOf(s, e))
  }

  function RefNext(s: System, g: P.Ref, e: Step): P.Ref { P.RefNext(g, s.p, PrefetcherInputs(s, e)) }

  predicate LegalRun(v: P.Variant, mem: A.Memory, s: System, f: A.Fetch, g: P.Ref, steps: seq<Step>)
    requires v.depth >= 2
    decreases |steps|
  {
    steps == []
    || (Legal(mem, s, f, g, steps[0])
        && LegalRun(v, mem, Next(v, mem, s, steps[0]), FetchNext(mem, s, f, steps[0]), RefNext(s, g, steps[0]), steps[1..]))
  }

  /** Both sides agree on the next word and the pending jump, and a refused word is held. */
  predicate Tracks(v: P.Variant, mem: A.Memory, s: System, f: A.Fetch, g: P.Ref) {
    && P.Tracks(v, s.p, g) && A.Tracks(mem, Abstract(s, f)) && A.LoopKnown(mem, Abstract(s, f))
    && f.word == g.word && WordOf(f.loop) == g.loop
    && (f.offered ==> P.Holds(s.p) && s.a.state == A.Misaligned16)
  }

  /** The aligner sees what the abstract prefetcher would deliver. */
  lemma SameInputs(v: P.Variant, mem: A.Memory, s: System, f: A.Fetch, g: P.Ref, e: Step)
    requires Tracks(v, mem, s, f, g) && Legal(mem, s, f, g, e)
    ensures AlignerInputs(mem, s, e) == A.InputsOf(mem, Abstract(s, f), StepOf(s, e))
    ensures Observed(mem, s, e) == A.Observed(mem, Abstract(s, f), StepOf(s, e))
    ensures e.branch == None ==> (P.FetchReady(s.p, PrefetcherInputs(s, e)) <==> A.Consumes(s.a, AlignerInputs(mem, s, e)))
  {
    P.PrefetcherStep(v, s.p, g, PrefetcherInputs(s, e));
  }

  lemma RefusedIsHeld(v: P.Variant, mem: A.Memory, s: System, f: A.Fetch, g: P.Ref, e: Step)
    requires Tracks(v, mem, s, f, g) && Legal(mem, s, f, g, e) && FetchNext(mem, s, f, e).offered
    ensures P.Holds(Next(v, mem, s, e).p) && Next(v, mem, s, e).a.state == A.Misaligned16
  {
    SameInputs(v, mem, s, f, g, e);
    P.ValidIsHeld(v, s.p, g, PrefetcherInputs(s, e));
  }

  lemma StepSimulates(v: P.Variant, mem: A.Memory, s: System, f: A.Fetch, g: P.Ref, e: Step)
    requires Tracks(v, mem, s, f, g) && Legal(mem, s, f, g, e)
    ensures Tracks(v, mem, Next(v, mem, s, e), FetchNext(mem, s, f, e), RefNext(s, g, e))
    ensures Abstract(Next(v, mem, s, e), FetchNext(mem, s, f, e)) == A.SystemNext(mem, Abstract(s, f), StepOf(s, e))
  {
    SameInputs(v, mem, s, f, g, e);
    P.PrefetcherStep(v, s.p, g, PrefetcherInputs(s, e));
    A.StepRefines(mem, Abstract(s, f), StepOf(s, e));
    if FetchNext(mem, s, f, e).offered { RefusedIsHeld(v, mem, s, f, g, e); }
  }

  /** In every run, whatever the bus delays, the stalls, the branches and the loop jumps, the
      instructions that enter ID are the sequential reading of memory. */
  lemma {:induction false} FetchUnitRefinesParser(v: P.Variant, mem: A.Memory, s: System, f: A.Fetch, g: P.Ref,
                                                  steps: seq<Step>)
    requires Tracks(v, mem, s, f, g) && LegalRun(v, mem, s, f, g, steps)
    ensures A.Sequential(mem, s.a.pc, f.loop, Events(v, mem, s, steps))
    decreases |steps|
  {
    if steps != [] {
      var e := steps[0];
      var n, h := Next(v, mem, s, e), FetchNext(mem, s, f, e);
      StepSimulates(v, mem, s, f, g, e);
      SameInputs(v, mem, s, f, g, e);
      FetchUnitRefinesParser(v, mem, n, h, RefNext(s, g, e), steps[1..]);
      A.Prefix(mem, Abstract(s, f), StepOf(s, e), Events(v, mem, n, steps[1..]));
    }
  }

  // ---------------------------------------------------------------------------
  // From reset.

  function Reset(): System {
    System(P.Reset(),
           A.Regs(A.Aligned32, 0, A.Addr(0, false), false, false, A.Addr(0, false)))
  }

  /** After reset, the boot branch and any legal run, the instructions are those from the boot
      address on. */
  lemma FetchFromBoot(v: P.Variant, mem: A.Memory, boot: Step, steps: seq<Step>)
    requires v.depth >= 2 && boot.branch.Some? && boot.jump == None && !boot.resp
    requires var target := boot.branch.value;
             LegalRun(v, mem, Next(v, mem, Reset(), boot), A.Fetch(target.word, false, None),
                      P.Ref(target.word, None, false), steps)
    ensures A.Sequential(mem, boot.branch.value, None, Events(v, mem, Next(v, mem, Reset(), boot), steps))
  {
    var target := boot.branch.value;
    P.PrefetcherStep(v, Reset().p, P.Ref(1, None, false), PrefetcherInputs(Reset(), boot));
    FetchUnitRefinesParser(v, mem, Next(v, mem, Reset(), boot), A.Fetch(target.word, false, None),
                           P.Ref(target.word, None, false), steps);
  }

  /** Only straight code is fetched. */
  predicate Straight(steps: seq<Step>) { forall j :: 0 <= j < |steps| ==> steps[j].branch == None && steps[j].jump == None }

  lemma {:induction false} StraightEmits(v: P.Variant, mem: A.Memory, s: System, steps: seq<Step>)
    requires v.depth >= 2 && Straight(steps)
    ensures forall j :: 0 <= j < |Events(v, mem, s, steps)| ==> Events(v, mem, s, steps)[j].Emit?
    decreases |steps|
  {
    if steps != [] {
      StraightEmits(v, mem, Next(v, mem, s, steps[0]), steps[1..]);
    }
  }

  /** A program of 16- and 32-bit codes that has been laid out at the address of the next instruction
      enters ID code by code, whatever the bus does. */
  lemma ProgramIsFetched(v: P.Variant, mem: A.Memory, s: System, f: A.Fetch, g: P.Ref, steps: seq<Step>, b: nat,
                         codes: seq<A.Code>)
    requires Tracks(v, mem, s, f, g) && LegalRun(v, mem, s, f, g, steps) && Straight(steps) && f.loop == None
    requires s.a.pc == A.AddressOf(b) && A.LaidOut(mem, b, A.Encode(codes))
    requires forall j :: 0 <= j < |codes| ==> A.IsCode(codes[j])
    requires |Events(v, mem, s, steps)| == |codes|
    ensures Events(v, mem, s, steps) == A.Listing(b, codes)
  {
    FetchUnitRefinesParser(v, mem, s, f, g, steps);
    StraightEmits(v, mem, s, steps);
    A.SequentialIsParse(mem, s.a.pc, Events(v, mem, s, steps));
    A.ParserReadsEncoder(mem, b, codes);
  }

  // ---------------------------------------------------------------------------
  // Progress.

  /** The bus grants and answers at once, ID is ready, and there is no branch or loop jump. */
  predicate Favourable(s: System, e: Step) { P.Favourable(s.p, PrefetcherInputs(s, e)) && e.pass }

  predicate FavourableRun(v: P.Variant, mem: A.Memory, s: System, steps: seq<Step>)
    requires v.depth >= 2
    decreases |steps|
  {
    steps == [] || (Favourable(s, steps[0]) && FavourableRun(v, mem, Next(v, mem, s, steps[0]), steps[1..]))
  }

  /** How many favourable clocks there are before an instruction: a branch into the upper half of a
      word may need a second word. */
  function Distance(v: P.Variant, s: System): nat {
    (if s.a.state == A.BranchMisaligned then v.depth + 3 else 0) + P.Distance(s.p)
  }

  lemma FavourableLegal(mem: A.Memory, s: System, f: A.Fetch, g: P.Ref, e: Step)
    requires Favourable(s, e)
    ensures Legal(mem, s, f, g, e)
  {
  }

  /** A valid word that brings no instruction is the first of two. */
  lemma ValidStep(v: P.Variant, mem: A.Memory, s: System, f: A.Fetch, g: P.Ref, e: Step)
    requires Tracks(v, mem, s, f, g) && Favourable(s, e) && FetchValid(s, e)
    ensures Observed(mem, s, e) == [] ==>
              s.a.state == A.BranchMisaligned && Next(v, mem, s, e).a.state != A.BranchMisaligned
  {
  }

  lemma FavourableStep(v: P.Variant, mem: A.Memory, s: System, f: A.Fetch, g: P.Ref, e: Step)
    requires Tracks(v, mem, s, f, g) && Favourable(s, e)
    ensures Legal(mem, s, f, g, e)
    ensures Observed(mem, s, e) == [] ==> Distance(v, Next(v, mem, s, e)) < Distance(v, s)
  {
    FavourableLegal(mem, s, f, g, e);
    if FetchValid(s, e) {
      ValidStep(v, mem, s, f, g, e);
      StepSimulates(v, mem, s, f, g, e);
      P.DistanceBound(v, Next(v, mem, s, e).p, RefNext(s, g, e));
    } else {
      InvalidStep(v, mem, s, f, g, e);
    }
  }

  lemma InvalidStep(v: P.Variant, mem: A.Memory, s: System, f: A.Fetch, g: P.Ref, e: Step)
    requires Tracks(v, mem, s, f, g) && Favourable(s, e) && !FetchValid(s, e)
    ensures Distance(v, Next(v, mem, s, e)) < Distance(v, s)
  {
    P.FavourableProgresses(v, s.p, g, PrefetcherInputs(s, e));
    assert Next(v, mem, s, e).a.state == s.a.state;
  }

  lemma {:induction false} EmitsWithin(v: P.Variant, mem: A.Memory, s: System, f: A.Fetch, g: P.Ref, steps: seq<Step>)
    requires Tracks(v, mem, s, f, g) && FavourableRun(v, mem, s, steps) && |steps| > Distance(v, s)
    ensures Events(v, mem, s, steps) != []
    decreases |steps|
  {
    var e := steps[0];
    FavourableStep(v, mem, s, f, g, e);
    if Observed(mem, s, e) == [] {
      StepSimulates(v, mem, s, f, g, e);
      EmitsWithin(v, mem, Next(v, mem, s, e), FetchNext(mem, s, f, e), RefNext(s, g, e), steps[1..]);
    }
  }

  /** The fetch unit never gets stuck: 2 * depth + 6 favourable clocks in a row deliver the next
      instruction of the sequential reading, whatever branches and jumps came before. */
  lemma FetchUnitProgresses(v: P.Variant, mem: A.Memory, s: System, f: A.Fetch, g: P.Ref, steps: seq<Step>)
    requires Tracks(v, mem, s, f, g) && FavourableRun(v, mem, s, steps) && |steps| >= 2 * v.depth + 6
    ensures var events := Events(v, mem, s, steps);
            events != [] && events[0] == A.Emit(s.a.pc, A.InstrAt(mem, s.a.pc))
  {
    P.DistanceBound(v, s.p, g);
    EmitsWithin(v, mem, s, f, g, steps);
    FavourableIsLegal(v, mem, s, f, g, steps);
    FetchUnitRefinesParser(v, mem, s, f, g, steps);
  }

  lemma {:induction false} FavourableIsLegal(v: P.Variant, mem: A.Memory, s: System, f: A.Fetch, g: P.Ref,
                                             steps: seq<Step>)
    requires Tracks(v, mem, s, f, g) && FavourableRun(v, mem, s, steps)
    ensures LegalRun(v, mem, s, f, g, steps)
    ensures forall j :: 0 <= j < |Events(v, mem, s, steps)| ==> Events(v, mem, s, steps)[j].Emit?
    decreases |steps|
  {
    if steps != [] {
      var e := steps[0];
      FavourableStep(v, mem, s, f, g, e);
      StepSimulates(v, mem, s, f, g, e);
      FavourableIsLegal(v, mem, Next(v, mem, s, e), FetchNext(mem, s, f, e), RefNext(s, g, e), steps[1..]);
    }
  }
}
