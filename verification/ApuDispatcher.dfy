// The APU dispatcher (rtl/cv32e40p_apu_disp.sv): two registers that remember the destinations
// of outstanding operations, and the stall rule that keeps the operations in order.
module ApuDispatcher {
  type Reg = n: nat | n < 64
  type Latency = n: nat | n < 4

  datatype Regs = Regs(inflight: bool, waiting: bool, addrInflight: Reg, addrWaiting: Reg, lat: Latency)

  datatype Inputs = Inputs(enable: bool, lat: Latency, waddr: Reg, gnt: bool, rvalid: bool)

  // ---------------------------------------------------------------------------
  // The circuit.

  predicate Active(k: Regs) { k.inflight || k.waiting }

  predicate StallFull(k: Regs) { k.inflight && k.waiting }

  predicate StallType(k: Regs, i: Inputs) {
    i.enable && Active(k) && (i.lat == 1 || (i.lat == 2 && k.lat == 3) || i.lat == 3)
  }

  predicate ValidReq(k: Regs, i: Inputs) { i.enable && !(StallFull(k) || StallType(k, i)) }
  predicate Accepted(k: Regs, i: Inputs) { ValidReq(k, i) && i.gnt }
  predicate Stall(k: Regs, i: Inputs) { StallFull(k) || StallType(k, i) || (ValidReq(k, i) && !i.gnt) }

  predicate ReturnedReq(k: Regs, i: Inputs) { ValidReq(k, i) && i.rvalid && !k.inflight && !k.waiting }
  predicate ReturnedInflight(k: Regs, i: Inputs) { k.inflight && i.rvalid && !k.waiting }
  predicate ReturnedWaiting(k: Regs, i: Inputs) { k.waiting && i.rvalid }

  /** apu_waddr_o */
  function WriteAddress(k: Regs, i: Inputs): Reg {
    if ReturnedWaiting(k, i) then k.addrWaiting
    else if ReturnedInflight(k, i) then k.addrInflight
    else if ReturnedReq(k, i) then i.waddr
    else 0
  }

  function Next(k: Regs, i: Inputs): Regs {
    var lat := if ValidReq(k, i) then i.lat else k.lat;
    if Accepted(k, i) && !ReturnedReq(k, i) then
      var shift := (k.inflight && !ReturnedInflight(k, i)) || ReturnedWaiting(k, i);
      Regs(true, shift || k.waiting, i.waddr, if shift then k.addrInflight else k.addrWaiting, lat)
    else if ReturnedInflight(k, i) then Regs(false, false, 0, 0, lat)
    else if ReturnedWaiting(k, i) then Regs(k.inflight, false, k.addrInflight, 0, lat)
    else k.(lat := lat)
  }

  /** One of the three read and two write dependency outputs, for registers regs of which
      those with a valid bit are used. */
  predicate Dependency(k: Regs, i: Inputs, decoding: bool, regs: seq<Reg>, valid: seq<bool>)
    requires |regs| == |valid|
  {
    && decoding
    && (|| ((exists j :: 0 <= j < |regs| && regs[j] == i.waddr && valid[j]) && ValidReq(k, i) && !ReturnedReq(k, i))
        || ((exists j :: 0 <= j < |regs| && regs[j] == k.addrInflight && valid[j])
            && k.inflight && !ReturnedInflight(k, i))
        || ((exists j :: 0 <= j < |regs| && regs[j] == k.addrWaiting && valid[j])
            && k.waiting && !ReturnedWaiting(k, i)))
  }

  // ---------------------------------------------------------------------------
  // The queue of destinations.

  predicate Valid(k: Regs) { k.waiting ==> k.inflight }

  /** The outstanding destinations, oldest first. */
  function Pending(k: Regs): seq<Reg> {
    (if k.waiting then [k.addrWaiting] else []) + (if k.inflight then [k.addrInflight] else [])
  }

  function Arriving(k: Regs, i: Inputs): seq<Reg> { if Accepted(k, i) then [i.waddr] else [] }

  /** A response belongs to a request that has been accepted, now or earlier. */
  predicate Answers(k: Regs, i: Inputs) { i.rvalid ==> Pending(k) + Arriving(k, i) != [] }

  function Returning(k: Regs, i: Inputs): seq<Reg> { if i.rvalid then [WriteAddress(k, i)] else [] }

  /** One clock is one step of a queue: the accepted destination enters at the end, and a
      response takes the oldest, even if it entered in the same clock. */
  lemma QueueStep(k: Regs, i: Inputs)
    requires Valid(k) && Answers(k, i)
    ensures Valid(Next(k, i)) && |Pending(Next(k, i))| <= 2
    ensures Returning(k, i) + Pending(Next(k, i)) == Pending(k) + Arriving(k, i)
  {
    assert Pending(k) + [] == Pending(k);
    assert [] + Pending(k) == Pending(k);
  }

  /** A dependency is reported exactly when a used register is the destination of something
      outstanding after this clock, or of a request that is not granted yet. */
  lemma DependencyIsPending(k: Regs, i: Inputs, decoding: bool, regs: seq<Reg>, valid: seq<bool>)
    requires Valid(k) && Answers(k, i) && |regs| == |valid|
    ensures Dependency(k, i, decoding, regs, valid) <==>
            decoding && (exists j :: 0 <= j < |regs| && valid[j] &&
                           (regs[j] in Pending(Next(k, i)) || (ValidReq(k, i) && !i.gnt && regs[j] == i.waddr)))
  {
  }

  /** Every request is accepted exactly once: while it waits, the stall output is high, and
      when it is accepted, it is low. */
  lemma StallMeansRetry(k: Regs, i: Inputs)
    requires Valid(k) && i.enable
    ensures Stall(k, i) <==> !Accepted(k, i)
  {
  }

  // ---------------------------------------------------------------------------
  // Whole runs against a unit that answers in order.

  function AllArriving(k: Regs, ins: seq<Inputs>): seq<Reg>
    decreases |ins|
  {
    if ins == [] then [] else Arriving(k, ins[0]) + AllArriving(Next(k, ins[0]), ins[1..])
  }

  function AllReturning(k: Regs, ins: seq<Inputs>): seq<Reg>
    decreases |ins|
  {
    if ins == [] then [] else Returning(k, ins[0]) + AllReturning(Next(k, ins[0]), ins[1..])
  }

  function After(k: Regs, ins: seq<Inputs>): Regs
    decreases |ins|
  {
    if ins == [] then k else After(Next(k, ins[0]), ins[1..])
  }

  predicate AnswersAll(k: Regs, ins: seq<Inputs>)
    decreases |ins|
  {
    ins == [] || (Answers(k, ins[0]) && AnswersAll(Next(k, ins[0]), ins[1..]))
  }

  /** In every run the write addresses are the accepted destinations, in order, without the
      at most two that are still outstanding. */
  lemma {:induction false} DispatcherIsQueue(k: Regs, ins: seq<Inputs>)
    requires Valid(k) && AnswersAll(k, ins)
    ensures Valid(After(k, ins)) && |Pending(After(k, ins))| <= 2
    ensures AllReturning(k, ins) + Pending(After(k, ins)) == Pending(k) + AllArriving(k, ins)
    decreases |ins|
  {
    if ins != [] {
      var i, n, rest := ins[0], Next(k, ins[0]), ins[1..];
      QueueStep(k, i);
      DispatcherIsQueue(n, rest);
      Chain(Returning(k, i), AllReturning(n, rest), Pending(After(n, rest)), Pending(n), AllArriving(n, rest),
            Pending(k), Arriving(k, i));
    }
  }

  lemma Chain(out: seq<Reg>, outs: seq<Reg>, end: seq<Reg>, mid: seq<Reg>, arrs: seq<Reg>, start: seq<Reg>,
              arr: seq<Reg>)
    requires out + mid == start + arr && outs + end == mid + arrs
    ensures (out + outs) + end == start + (arr + arrs)
  {
    calc {
      (out + outs) + end;
      out + (outs + end);
      out + (mid + arrs);
      (out + mid) + arrs;
      (start + arr) + arrs;
      start + (arr + arrs);
    }
  }

  // ---------------------------------------------------------------------------
  // Progress.

  /** The unit grants, and answers whenever something is outstanding; the request stays the same. */
  predicate Serves(k: Regs, i: Inputs, j: Inputs) {
    i.enable && i.gnt && i.lat == j.lat && i.waddr == j.waddr && (Pending(k) != [] ==> i.rvalid) && Answers(k, i)
  }

  lemma ServedOrShorter(k: Regs, i: Inputs)
    requires Valid(k) && Serves(k, i, i)
    ensures Accepted(k, i) || |Pending(Next(k, i))| < |Pending(k)|
  {
    QueueStep(k, i);
  }

  predicate AcceptedWithin(k: Regs, ins: seq<Inputs>)
    decreases |ins|
  {
    ins != [] && (Accepted(k, ins[0]) || AcceptedWithin(Next(k, ins[0]), ins[1..]))
  }

  predicate ServesAll(k: Regs, ins: seq<Inputs>, j: Inputs)
    decreases |ins|
  {
    ins == [] || (Serves(k, ins[0], j) && ServesAll(Next(k, ins[0]), ins[1..], j))
  }

  /** Every request, of any class, is accepted within three such clocks. */
  lemma {:induction false} RequestsAreAccepted(k: Regs, ins: seq<Inputs>, j: Inputs)
    requires Valid(k) && ServesAll(k, ins, j) && |ins| > |Pending(k)|
    ensures |Pending(k)| <= 2 && AcceptedWithin(k, ins)
    decreases |ins|
  {
    if !Accepted(k, ins[0]) {
      ServedOrShorter(k, ins[0]);
      QueueStep(k, ins[0]);
      RequestsAreAccepted(Next(k, ins[0]), ins[1..], j);
    }
  }

  // ---------------------------------------------------------------------------
  // A unit that may answer out of order: an operation of class 1 answers in the clock in which
  // it is accepted, of class 2 in the next clock, of class 3 in any later clock.

  datatype Op = Op(dest: Reg, kind: Latency, age: nat)

  /** The core's side of one clock, and the operations of class 3 that are now done. */
  datatype Step = Step(enable: bool, lat: Latency, waddr: Reg, gnt: bool, done: set<nat>)

  predicate Classed(e: Step) { 1 <= e.lat <= 3 }

  /** The request, which does not depend on the response. */
  function Request(e: Step): Inputs { Inputs(e.enable, e.lat, e.waddr, e.gnt, false) }

  /** The operations in the unit in this clock, in the order in which they were accepted. */
  function Working(k: Regs, ops: seq<Op>, e: Step): seq<Op> {
    ops + (if Accepted(k, Request(e)) then [Op(e.waddr, e.lat, 0)] else [])
  }

  predicate Finishes(op: Op, j: nat, e: Step) {
    match op.kind
    case 1 => true
    case 2 => op.age == 1
    case _ => op.age >= 1 && j in e.done
  }

  predicate Responds(k: Regs, ops: seq<Op>, e: Step) {
    exists j :: 0 <= j < |Working(k, ops, e)| && Finishes(Working(k, ops, e)[j], j, e)
  }

  /** The unit keeps what is not finished, one clock older. */
  function Keep(ops: seq<Op>, from: nat, e: Step): seq<Op>
    requires from <= |ops|
    decreases |ops| - from
  {
    if from == |ops| then []
    else (if Finishes(ops[from], from, e) then [] else [ops[from].(age := ops[from].age + 1)]) + Keep(ops, from + 1, e)
  }

  function InputsOf(k: Regs, ops: seq<Op>, e: Step): Inputs {
    Request(e).(rvalid := Responds(k, ops, e))
  }

  function UnitNext(k: Regs, ops: seq<Op>, e: Step): seq<Op> { Keep(Working(k, ops, e), 0, e) }

  /** The dispatcher knows the one operation that can be outstanding, and its class. */
  predicate Knows(k: Regs, ops: seq<Op>) {
    && Valid(k) && |ops| <= 1
    && Pending(k) == (if ops == [] then [] else [ops[0].dest])
    && (ops != [] ==> k.lat == ops[0].kind && 2 <= ops[0].kind <= 3 && ops[0].age >= 1
                      && (ops[0].kind == 2 ==> ops[0].age == 1))
  }

  /** The stall rule leaves no chance to overtake: only the oldest operation can finish, it is
      routed to its own destination, and through the write port of its class, which is the
      port of the ALU for classes 1 and 3 and the load port for class 2. */
  lemma NoOvertaking(k: Regs, ops: seq<Op>, e: Step)
    requires Knows(k, ops) && Classed(e)
    ensures forall j :: 0 <= j < |Working(k, ops, e)| && Finishes(Working(k, ops, e)[j], j, e) ==> j == 0
    ensures Responds(k, ops, e) ==>
              var oldest := Working(k, ops, e)[0];
              && WriteAddress(k, InputsOf(k, ops, e)) == oldest.dest
              && (!Active(k) || k.lat == 3 <==> oldest.kind != 2)
    ensures Answers(k, InputsOf(k, ops, e))
    ensures Knows(Next(k, InputsOf(k, ops, e)), UnitNext(k, ops, e))
  {
    var all, i := Working(k, ops, e), InputsOf(k, ops, e);
    assert Accepted(k, i) == Accepted(k, Request(e));
    assert !k.waiting && (k.inflight <==> |Pending(k)| == 1) && (k.inflight ==> Pending(k)[0] == k.addrInflight);
    assert Keep(all, |all|, e) == [];
    if |all| == 2 {
      assert ops[0].kind == 2 && Finishes(all[0], 0, e) && Responds(k, ops, e);
      assert all[1] == Op(e.waddr, 2, 0) && !Finishes(all[1], 1, e);
      assert Keep(all, 1, e) == [Op(e.waddr, 2, 1)] == UnitNext(k, ops, e);
    } else if |all| == 1 {
      assert Responds(k, ops, e) <==> Finishes(all[0], 0, e);
      assert UnitNext(k, ops, e) == if i.rvalid then [] else [all[0].(age := all[0].age + 1)];
    }
  }

  /** The destinations of the finished operations, oldest first. */
  function Finished(ops: seq<Op>, from: nat, e: Step): seq<Reg>
    requires from <= |ops|
    decreases |ops| - from
  {
    if from == |ops| then []
    else (if Finishes(ops[from], from, e) then [ops[from].dest] else []) + Finished(ops, from + 1, e)
  }

  function RunInputs(k: Regs, ops: seq<Op>, steps: seq<Step>): seq<Inputs>
    decreases |steps|
  {
    if steps == [] then []
    else
      var i := InputsOf(k, ops, steps[0]);
      [i] + RunInputs(Next(k, i), UnitNext(k, ops, steps[0]), steps[1..])
  }

  function AllFinished(k: Regs, ops: seq<Op>, steps: seq<Step>): seq<Reg>
    decreases |steps|
  {
    if steps == [] then []
    else
      Finished(Working(k, ops, steps[0]), 0, steps[0])
      + AllFinished(Next(k, InputsOf(k, ops, steps[0])), UnitNext(k, ops, steps[0]), steps[1..])
  }

  /** In every run, whatever the delays of class 3: the results come in the order in which the
      operations were accepted, at most one a clock, and each reaches its own destination. */
  lemma {:induction false} ResultsInIssueOrder(k: Regs, ops: seq<Op>, steps: seq<Step>)
    requires Knows(k, ops) && forall j :: 0 <= j < |steps| ==> Classed(steps[j])
    ensures var ins := RunInputs(k, ops, steps);
            && AnswersAll(k, ins)
            && AllFinished(k, ops, steps) == AllReturning(k, ins)
            && AllFinished(k, ops, steps) + Pending(After(k, ins)) == Pending(k) + AllArriving(k, ins)
    decreases |steps|
  {
    var ins := RunInputs(k, ops, steps);
    if steps != [] {
      var e := steps[0];
      var i, all := InputsOf(k, ops, e), Working(k, ops, e);
      NoOvertaking(k, ops, e);
      ResultsInIssueOrder(Next(k, i), UnitNext(k, ops, e), steps[1..]);
      assert ins[0] == i && ins[1..] == RunInputs(Next(k, i), UnitNext(k, ops, e), steps[1..]);
      assert Finished(all, 0, e) == Returning(k, i) by {
        OnlyOldest(all, 1, e);
      }
    }
    DispatcherIsQueue(k, ins);
  }

  lemma {:induction false} OnlyOldest(ops: seq<Op>, from: nat, e: Step)
    requires 1 <= from
    requires forall j :: 0 <= j < |ops| && Finishes(ops[j], j, e) ==> j == 0
    ensures from <= |ops| ==> Finished(ops, from, e) == []
    decreases |ops| - from
  {
    if from < |ops| { OnlyOldest(ops, from + 1, e); }
  }

  // ---------------------------------------------------------------------------

  /** The registers as they are clocked. */
  class Dispatcher {
    var inflight: bool
    var waiting: bool
    var addrInflight: Reg
    var addrWaiting: Reg
    var lat: Latency

    function Now(): Regs reads this { Regs(inflight, waiting, addrInflight, addrWaiting, lat) }

    constructor ()
      ensures Valid(Now()) && Pending(Now()) == []
    {
      inflight, waiting, addrInflight, addrWaiting, lat := false, false, 0, 0, 0;
    }

    /** One clock edge: a step of the queue. */
    method Clock(i: Inputs) returns (waddr: Reg, stall: bool)
      requires Valid(Now()) && Answers(Now(), i)
      modifies this
      ensures Now() == Next(old(Now()), i) && Valid(Now())
      ensures waddr == WriteAddress(old(Now()), i) && stall == Stall(old(Now()), i)
      ensures (if i.rvalid then [waddr] else []) + Pending(Now()) == old(Pending(Now())) + old(Arriving(Now(), i))
    {
      QueueStep(Now(), i);
      var full := inflight && waiting;
      var conflict := i.enable && (inflight || waiting) && (i.lat == 1 || (i.lat == 2 && lat == 3) || i.lat == 3);
      var request := i.enable && !(full || conflict);
      stall := full || conflict || (request && !i.gnt);
      var fromRequest := request && i.rvalid && !inflight && !waiting;
      var fromInflight := inflight && i.rvalid && !waiting;
      var fromWaiting := waiting && i.rvalid;
      waddr := 0;
      if fromRequest { waddr := i.waddr; }
      if fromInflight { waddr := addrInflight; }
      if fromWaiting { waddr := addrWaiting; }
      if request && i.gnt && !fromRequest {
        if (inflight && !fromInflight) || fromWaiting {
          waiting, addrWaiting := true, addrInflight;
        }
        inflight, addrInflight := true, i.waddr;
      } else if fromInflight {
        inflight, waiting, addrInflight, addrWaiting := false, false, 0, 0;
      } else if fromWaiting {
        waiting, addrWaiting := false, 0;
      }
      if request { lat := i.lat; }
    }
  }
}
