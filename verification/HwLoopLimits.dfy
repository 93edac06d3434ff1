// Where hardware loops stop working: bodies of one instruction, and nested loops whose ends are
// too close. Each failing family is given by runs of the model in HwLoop.
module HwLoopLimits {
  import opened HwLoop

  lemma RetiredFirst(c: Config, k: Regs, i: Inputs, rest: seq<Inputs>)
    ensures Retired(c, k, [i] + rest) ==
            (if Retires(k, i) then [k.idPc] else []) + Retired(c, Next(c, k, i), rest)
  {
    assert ([i] + rest)[1..] == rest;
  }

  /** The run on ins retires out and ends in last. */
  predicate Reaches(c: Config, k: Regs, ins: seq<Inputs>, out: seq<Addr>, last: Regs) {
    Retired(c, k, ins) == out && After(c, k, ins) == last
  }

  lemma ReachesFirst(c: Config, k: Regs, i: Inputs, rest: seq<Inputs>, out: seq<Addr>, last: Regs)
    requires Reaches(c, Next(c, k, i), rest, out, last)
    ensures Reaches(c, k, [i] + rest, (if Retires(k, i) then [k.idPc] else []) + out, last)
  {
    assert ([i] + rest)[1..] == rest;
  }

  lemma {:induction false} RunAppend(c: Config, k: Regs, a: seq<Inputs>, b: seq<Inputs>)
    ensures Retired(c, k, a + b) == Retired(c, k, a) + Retired(c, After(c, k, a), b)
    ensures After(c, k, a + b) == After(c, After(c, k, a), b)
    decreases |a|
  {
    if a == [] {
      assert a + b == b;
    } else {
      RunAppend(c, Next(c, k, a[0]), a[1..], b);
      assert (a + b)[1..] == a[1..] + b;
    }
  }

  lemma OneInstructionRun(c: Config, lo: Addr, hi: Addr, k: Regs, go: Inputs)
    requires Single(c, lo, hi) && Entered(k, lo) && !Supported(c, lo, hi, k.cnt0, k.cnt1) && k.idValid
    requires go == Inputs(true, true, false)
    ensures Retired(c, k, [go] + ([go] + ([go] + ([go] + [])))) == [lo, lo, hi]
    ensures !Leaves(c, hi, k, [go] + ([go] + ([go] + ([go] + []))), 2)
  {
    var gap := Next(c, k, go);
    assert !gap.idValid && gap.pcIf == lo && gap.fsm == DecodeHwloop;
    var second := Next(c, gap, go);
    assert second.idValid && second.idPc == lo && second.fsm == DecodeHwloop && second.pcIf == hi;
    var last := Next(c, second, go);
    assert last.idValid && last.idPc == hi && last.fsm == DecodeHwloop;
    RetiredFirst(c, last, go, []);
    RetiredFirst(c, second, go, [go] + []);
    RetiredFirst(c, gap, go, [go] + ([go] + []));
    RetiredFirst(c, k, go, [go] + ([go] + ([go] + [])));
    LeavesFirst(c, hi, second, go, [go] + [], 1);
    LeavesFirst(c, hi, gap, go, [go] + ([go] + []), 1);
    LeavesFirst(c, hi, k, go, [go] + ([go] + ([go] + [])), 2);
  }

  lemma LeavesFirst(c: Config, hi: Addr, k: Regs, i: Inputs, rest: seq<Inputs>, n: nat)
    requires n > 0
    ensures Leaves(c, hi, k, [i] + rest, n) == Leaves(c, hi, Next(c, k, i), rest, if Retires(k, i) then n - 1 else n)
  {
    assert ([i] + rest)[1..] == rest;
  }

  /** A body of one instruction is left too early for a count of three or more. For a count of
      two it is left in DECODE_HWLOOP, where the controller takes every jump, branch and
      compressed instruction for an illegal one. */
  lemma OneInstructionBody(c: Config, lo: Addr, hi: Addr, k: Regs) returns (ins: seq<Inputs>)
    requires Single(c, lo, hi) && Entered(k, lo) && !Supported(c, lo, hi, k.cnt0, k.cnt1)
    ensures !Right(c, hi, k, ins, Expected(c, lo, hi, k.cnt0, k.cnt1))
  {
    var go := Inputs(true, true, false);
    var n, expected := SingleCount(c, lo, hi, k.cnt0, k.cnt1), Expected(c, lo, hi, k.cnt0, k.cnt1);
    ins := [go] + ([go] + ([go] + ([go] + [])));
    if k.idValid {
      OneInstructionRun(c, lo, hi, k, go);
    } else {
      OneInstructionRun(c, lo, hi, Next(c, k, go), go);
      RetiredFirst(c, k, go, ins);
      LeavesFirst(c, hi, k, go, ins, 2);
      ins := [go] + ins;
    }
    OneInstructionTimes(lo, hi, n);
    if n > 2 {
      assert Retired(c, k, ins)[2] != (expected + [hi])[2];
    } else {
      assert |expected| == 2;
    }
  }

  lemma {:induction false} OneInstructionTimes(lo: Addr, hi: Addr, n: nat)
    requires lo % 4 == 0 && lo + 4 == hi
    ensures var t := Repeat(Straight(lo, hi), n); |t| == n && forall j :: 0 <= j < n ==> t[j] == lo
    decreases n
  {
    assert Straight(lo, hi) == [lo] by {
      assert Straight(hi, hi) == [];
    }
    if n > 0 { OneInstructionTimes(lo, hi, n - 1); }
  }

  /** On the fast path before the end of the inner loop. */
  predicate Cruises(c: Config, k: Regs, pc: Addr) {
    && k.fsm == DecodeHwloop && k.idValid && k.idPc == pc && k.pcIf == Plus(pc, 4) && !k.updatePc && !k.end4
    && k.cnt1 > 1 && (c.setup.SetCount? && c.setup.pc < pc ==> k.cnt0 == c.setup.count)
  }

  /** Nested loops whose ends are 4 apart, and of which the inner one has to be repeated. */
  predicate Unprotected(c: Config, lo: Addr, hi: Addr) {
    Nested(c, lo, hi) && c.loop0.end + 4 == hi && c.setup.count > 1
  }

  predicate TooClose(c: Config, lo: Addr, hi: Addr, n1: Addr) { Unprotected(c, lo, hi) && n1 > 1 }

  lemma CruiseStep(c: Config, lo: Addr, hi: Addr, k: Regs, pc: Addr, go: Inputs)
    requires TooClose(c, lo, hi, k.cnt1) && lo <= pc && pc % 4 == 0 && pc + 8 < c.loop0.end
    requires go == Inputs(true, true, false)
    requires Cruises(c, k, pc) || (pc == lo && Entered(k, lo) && k.idValid)
    ensures Retires(k, go) && k.idPc == pc && Cruises(c, Next(c, k, go), pc + 4) && Next(c, k, go).cnt1 == k.cnt1
  {
  }

  lemma {:induction false} Cruise(c: Config, lo: Addr, hi: Addr, k: Regs, pc: Addr, go: Inputs)
    returns (ins: seq<Inputs>, last: Regs)
    requires TooClose(c, lo, hi, k.cnt1) && lo <= pc && pc % 4 == 0 && pc + 8 <= c.loop0.end
    requires go == Inputs(true, true, false)
    requires Cruises(c, k, pc) || (pc == lo && Entered(k, lo) && k.idValid)
    ensures Cruises(c, last, c.loop0.end - 8) && last.cnt1 == k.cnt1
    ensures forall j :: 0 <= j < |ins| ==> ins[j] == go
    ensures Reaches(c, k, ins, Straight(pc, c.loop0.end - 8), last)
    decreases c.loop0.end - pc
  {
    if pc + 8 == c.loop0.end {
      ins, last := [], k;
    } else {
      CruiseStep(c, lo, hi, k, pc, go);
      var tail;
      tail, last := Cruise(c, lo, hi, Next(c, k, go), pc + 4, go);
      ReachesFirst(c, k, go, tail, Straight(pc + 4, c.loop0.end - 8), last);
      assert Straight(pc, c.loop0.end - 8) == [pc] + Straight(pc + 4, c.loop0.end - 8);
      ins := [go] + tail;
    }
  }

  /** A fetch delay in front of the last instruction of the inner body: the outer jump then
      overtakes the inner one. */
  lemma Overtakes(c: Config, lo: Addr, hi: Addr, k: Regs, go: Inputs, wait: Inputs)
    requires TooClose(c, lo, hi, k.cnt1) && Cruises(c, k, c.loop0.end - 8)
    requires go == Inputs(true, true, false) && wait == Inputs(false, true, false)
    ensures Retired(c, k, [wait] + ([go] + ([go] + ([go] + ([go] + [])))))
            == [c.loop0.end - 8, c.loop0.end - 4, c.loop0.start, lo]
  {
    var k1 := Next(c, k, wait);
    assert !k1.idValid && k1.updatePc && k1.updateAddr == c.loop0.start && k1.pcIf == c.loop0.end - 4;
    var k2 := Next(c, k1, go);
    assert k2.idValid && k2.idPc == c.loop0.end - 4 && k2.pcIf == c.loop0.start && !k2.end4;
    var k3 := Next(c, k2, go);
    assert k3.idValid && k3.idPc == c.loop0.start && k3.pcIf == lo && k3.fsm == DecodeHwloop;
    var k4 := Next(c, k3, go);
    assert k4.idValid && k4.idPc == lo;
    RetiredFirst(c, k4, go, []);
    RetiredFirst(c, k3, go, [go] + []);
    RetiredFirst(c, k2, go, [go] + ([go] + []));
    RetiredFirst(c, k1, go, [go] + ([go] + ([go] + [])));
    RetiredFirst(c, k, wait, [go] + ([go] + ([go] + ([go] + []))));
  }

  /** The outer body begins with the inner body, and that again. */
  lemma OuterBodyTwice(c: Config, lo: Addr, hi: Addr) returns (more: seq<Addr>)
    requires Unprotected(c, lo, hi)
    ensures OuterBody(c, lo, hi) == Straight(lo, c.loop0.end) + (Straight(c.loop0.start, c.loop0.end) + more)
  {
    var before, inner := Straight(lo, c.loop0.start), Straight(c.loop0.start, c.loop0.end);
    var after, count := Straight(c.loop0.end, hi), c.setup.count;
    StraightSplit(lo, c.loop0.start, c.loop0.end);
    var rest := Repeat(inner, count - 2);
    assert Repeat(inner, count) == inner + (inner + rest);
    more := rest + after;
    assert before + (inner + (inner + rest)) + after == (before + inner) + (inner + more);
  }

  lemma InnerBegins(c: Config, lo: Addr, hi: Addr) returns (more: seq<Addr>)
    requires Nested(c, lo, hi)
    ensures Straight(c.loop0.start, c.loop0.end) == [c.loop0.start, c.loop0.start + 4] + more
  {
    more := Straight(c.loop0.start + 8, c.loop0.end);
    assert Straight(c.loop0.start + 4, c.loop0.end) == [c.loop0.start + 4] + more;
  }

  lemma ExpectedTwice(c: Config, lo: Addr, hi: Addr, n0: Addr, n1: Addr) returns (more: seq<Addr>)
    requires TooClose(c, lo, hi, n1)
    ensures Expected(c, lo, hi, n0, n1) == Straight(lo, c.loop0.end) + ([c.loop0.start, c.loop0.start + 4] + more)
  {
    var rest := OuterBodyTwice(c, lo, hi);
    var tail := InnerBegins(c, lo, hi);
    var body := OuterBody(c, lo, hi);
    more := Regroup(Straight(lo, c.loop0.end), [c.loop0.start, c.loop0.start + 4], tail, rest, Repeat(body, n1 - 1));
    assert Expected(c, lo, hi, n0, n1) == body + Repeat(body, n1 - 1);
  }

  lemma Regroup(a: seq<Addr>, b: seq<Addr>, c: seq<Addr>, d: seq<Addr>, e: seq<Addr>) returns (more: seq<Addr>)
    ensures (a + ((b + c) + d)) + e == a + (b + more)
  {
    more := c + d + e;
  }

  lemma OvertakingRun(c: Config, lo: Addr, hi: Addr, k: Regs) returns (ins: seq<Inputs>)
    requires TooClose(c, lo, hi, k.cnt1) && Entered(k, lo) && k.idValid
    ensures Retired(c, k, ins) == Straight(lo, c.loop0.end) + [c.loop0.start, lo]
    ensures forall j :: 0 <= j < |ins| ==> ins[j].idReady && !ins[j].irq
  {
    var go, wait, b := Inputs(true, true, false), Inputs(false, true, false), c.loop0.end;
    var cruise, last := Cruise(c, lo, hi, k, lo, go);
    var rest := [wait] + ([go] + ([go] + ([go] + ([go] + []))));
    Overtakes(c, lo, hi, last, go, wait);
    RunAppend(c, k, cruise, rest);
    ins := cruise + rest;
    StraightSplit(lo, b - 8, b);
    StraightTwo(b - 8);
  }

  /** For all nested loops whose ends are 4 apart and whose counts are above one, a fetch delay
      is enough for a run that goes to the start of the outer loop too early. */
  lemma NestedEndsTooClose(c: Config, lo: Addr, hi: Addr, k: Regs) returns (ins: seq<Inputs>)
    requires TooClose(c, lo, hi, k.cnt1) && Entered(k, lo)
    ensures !Right(c, hi, k, ins, Expected(c, lo, hi, k.cnt0, k.cnt1))
    ensures forall j :: 0 <= j < |ins| ==> ins[j].idReady && !ins[j].irq
  {
    var go := Inputs(true, true, false);
    if k.idValid {
      ins := OvertakingRun(c, lo, hi, k);
    } else {
      ins := OvertakingRun(c, lo, hi, Next(c, k, go));
      RetiredFirst(c, k, go, ins);
      ins := [go] + ins;
    }
    var more := ExpectedTwice(c, lo, hi, k.cnt0, k.cnt1);
    Differ(Retired(c, k, ins), Expected(c, lo, hi, k.cnt0, k.cnt1), Straight(lo, c.loop0.end),
           c.loop0.start, lo, c.loop0.start + 4, more, hi);
  }

  lemma Differ(a: seq<Addr>, b: seq<Addr>, common: seq<Addr>, x: Addr, y: Addr, z: Addr, more: seq<Addr>, last: Addr)
    requires a == common + [x, y] && b == common + ([x, z] + more) && y != z
    ensures !Agree(a, b + [last])
  {
    var j := |common| + 1;
    assert a[j] == y && (b + [last])[j] == z;
  }

  lemma StraightTwo(a: Addr)
    requires a % 4 == 0 && a + 8 < 0x1_0000_0000
    ensures Straight(a, a + 8) == [a, a + 4]
  {
    assert Straight(a + 8, a + 8) == [];
    assert Straight(a + 4, a + 8) == [a + 4] + Straight(a + 8, a + 8);
  }

  /** Between two instructions, with nothing announced. */
  predicate Paused(c: Config, k: Regs, pc: Addr) {
    && !k.idValid && k.pcIf == pc && !k.updatePc && !k.jumpDone
    && (c.setup.SetCount? && c.setup.pc < pc ==> k.cnt0 == c.setup.count)
  }

  /** An instruction is interrupted once, and retires without a successor. */
  lemma PaceStep(c: Config, lo: Addr, hi: Addr, k: Regs, pc: Addr) returns (ins: seq<Inputs>, last: Regs)
    requires Unprotected(c, lo, hi) && Paused(c, k, pc) && lo <= pc && pc % 4 == 0 && pc + 4 < c.loop0.end
    ensures Reaches(c, k, ins, [pc], last) && Paused(c, last, pc + 4)
  {
    var go, irq, wait := Inputs(true, true, false), Inputs(true, true, true), Inputs(false, true, false);
    var k1 := Next(c, k, go);
    var k2 := Next(c, k1, irq);
    var k3 := Next(c, k2, go);
    last := Next(c, k3, wait);
    assert k3.idValid && k3.idPc == pc && k3.fsm == Decode && k3.pcIf == Plus(pc, 4);
    ReachesFirst(c, k3, wait, [], [], last);
    ReachesFirst(c, k2, go, [wait] + [], [pc] + [], last);
    ReachesFirst(c, k1, irq, [go] + ([wait] + []), [] + ([pc] + []), last);
    ReachesFirst(c, k, go, [irq] + ([go] + ([wait] + [])), [] + ([] + ([pc] + [])), last);
    ins := [go] + ([irq] + ([go] + ([wait] + [])));
  }

  lemma {:induction false} Pace(c: Config, lo: Addr, hi: Addr, k: Regs, pc: Addr, b: Addr)
    returns (ins: seq<Inputs>, last: Regs)
    requires Unprotected(c, lo, hi) && Paused(c, k, pc) && lo <= pc <= b && b + 4 <= c.loop0.end
    requires pc % 4 == 0 && b % 4 == 0
    ensures Reaches(c, k, ins, Straight(pc, b), last) && Paused(c, last, b)
    decreases b - pc
  {
    if pc == b {
      ins, last := [], k;
    } else {
      var one, next := PaceStep(c, lo, hi, k, pc);
      var more;
      more, last := Pace(c, lo, hi, next, pc + 4, b);
      RunAppend(c, k, one, more);
      ins := one + more;
    }
  }

  /** The slow jump of the inner loop, stalled in ID, stays in DECODE, because the outer loop
      ends one instruction later. The counter is then not decremented. */
  lemma DecrementLost(c: Config, lo: Addr, hi: Addr, k: Regs) returns (ins: seq<Inputs>, last: Regs)
    requires Unprotected(c, lo, hi) && Paused(c, k, c.loop0.end - 4)
    ensures Reaches(c, k, ins, [c.loop0.end - 4], last) && Paused(c, last, c.loop0.start)
  {
    var go, irq, wait := Inputs(true, true, false), Inputs(true, true, true), Inputs(false, true, false);
    var stall, pc := Inputs(true, false, false), c.loop0.end - 4;
    var k1 := Next(c, k, go);
    var k2 := Next(c, k1, irq);
    var k3 := Next(c, k2, go);
    var k4 := Next(c, k3, stall);
    last := Next(c, k4, wait);
    assert k3.idValid && k3.idPc == pc && k3.fsm == Decode && k3.cnt0 == c.setup.count;
    assert k4.idValid && k4.idPc == pc && k4.fsm == Decode && k4.jumpDone && k4.pcIf == c.loop0.start;
    ReachesFirst(c, k4, wait, [], [], last);
    ReachesFirst(c, k3, stall, [wait] + [], [pc] + [], last);
    ReachesFirst(c, k2, go, [stall] + ([wait] + []), [] + ([pc] + []), last);
    ReachesFirst(c, k1, irq, [go] + ([stall] + ([wait] + [])), [] + ([] + ([pc] + [])), last);
    ReachesFirst(c, k, go, [irq] + ([go] + ([stall] + ([wait] + []))), [] + ([] + ([] + ([pc] + []))), last);
    ins := [go] + ([irq] + ([go] + ([stall] + ([wait] + []))));
  }

  lemma {:induction false} Rounds(c: Config, lo: Addr, hi: Addr, k: Regs, n: nat) returns (ins: seq<Inputs>, last: Regs)
    requires Unprotected(c, lo, hi) && Paused(c, k, c.loop0.start)
    ensures Reaches(c, k, ins, Repeat(Straight(c.loop0.start, c.loop0.end), n), last)
    decreases n
  {
    if n == 0 {
      ins, last := [], k;
    } else {
      var a, end := c.loop0.start, c.loop0.end - 4;
      var body, atEnd := Pace(c, lo, hi, k, a, end);
      var jump, next := DecrementLost(c, lo, hi, atEnd);
      RunAppend(c, k, body, jump);
      StraightSplit(a, end, end + 4);
      assert Straight(end, end + 4) == [end] by {
        assert Straight(end + 4, end + 4) == [];
      }
      var more;
      more, last := Rounds(c, lo, hi, next, n - 1);
      RunAppend(c, k, body + jump, more);
      ins := (body + jump) + more;
    }
  }

  lemma {:induction false} RepeatOneMore(t: seq<Addr>, n: nat)
    ensures Repeat(t, n + 1) == Repeat(t, n) + t
    decreases n
  {
    if n > 0 {
      RepeatOneMore(t, n - 1);
    } else {
      assert Repeat(t, 1) == t + Repeat(t, 0);
    }
  }

  /** For all nested loops whose ends are 4 apart and whose inner count is above one, whatever
      the outer count, some run repeats the inner body too often. */
  lemma InnerLoopTooOften(c: Config, lo: Addr, hi: Addr, k: Regs) returns (ins: seq<Inputs>)
    requires Unprotected(c, lo, hi) && Entered(k, lo)
    ensures !Right(c, hi, k, ins, Expected(c, lo, hi, k.cnt0, k.cnt1))
  {
    var irq, a, n: nat := Inputs(true, true, true), c.loop0.start, c.setup.count;
    var first := if k.idValid then Next(c, k, irq) else k;
    var before, atStart := Pace(c, lo, hi, first, lo, a);
    var rounds, last := Rounds(c, lo, hi, atStart, n + 1);
    RunAppend(c, first, before, rounds);
    ins := before + rounds;
    if k.idValid {
      RetiredFirst(c, k, irq, ins);
      ins := [irq] + ins;
    }
    var inner := Straight(a, c.loop0.end);
    RepeatOneMore(inner, n);
    var common := Straight(lo, a) + Repeat(inner, n);
    assert Retired(c, k, ins) == common + inner;
    var more := ExpectedOnce(c, lo, hi, k.cnt0, k.cnt1);
    assert Retired(c, k, ins)[|common|] != (Expected(c, lo, hi, k.cnt0, k.cnt1) + [hi])[|common|];
  }

  lemma ExpectedOnce(c: Config, lo: Addr, hi: Addr, n0: Addr, n1: Addr) returns (more: seq<Addr>)
    requires Unprotected(c, lo, hi)
    ensures Expected(c, lo, hi, n0, n1)
            == Straight(lo, c.loop0.start) + Repeat(Straight(c.loop0.start, c.loop0.end), c.setup.count)
               + ([c.loop0.end] + more)
  {
    var body := OuterBody(c, lo, hi);
    assert Straight(c.loop0.end, hi) == [c.loop0.end] + Straight(hi, hi);
    more := Straight(hi, hi) + Repeat(body, Times(n1) - 1);
    assert Expected(c, lo, hi, n0, n1) == body + Repeat(body, Times(n1) - 1);
  }

  /** The loops work in every run if and only if they are supported. */
  lemma LoopsExact(c: Config, lo: Addr, hi: Addr, k: Regs)
    requires WellFormed(c, lo, hi) && Entered(k, lo)
    ensures Supported(c, lo, hi, k.cnt0, k.cnt1) <==>
            forall ins: seq<Inputs> :: Right(c, hi, k, ins, Expected(c, lo, hi, k.cnt0, k.cnt1))
  {
    if Supported(c, lo, hi, k.cnt0, k.cnt1) {
      forall ins: seq<Inputs> ensures Right(c, hi, k, ins, Expected(c, lo, hi, k.cnt0, k.cnt1)) {
        LoopsRetireExpected(c, lo, hi, k, ins);
      }
    } else if Single(c, lo, hi) {
      var ins := OneInstructionBody(c, lo, hi, k);
    } else {
      var ins := InnerLoopTooOften(c, lo, hi, k);
    }
  }
}
