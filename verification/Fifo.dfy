// The circular FIFO of rtl/cv32e40p_fifo.sv for every DEPTH >= 1, with fall-through, flush and
// flush-but-first.
module Fifo {
  import opened Options

  // ---------------------------------------------------------------------------
  // Pointers of ADDR_DEPTH bits.

  /** The smallest power of two, from p on, that is at least n. */
  function PowerFrom(p: nat, n: nat): (r: nat)
    requires p > 0
    ensures r >= p && r >= n
    decreases n - p
  {
    if p >= n then p else PowerFrom(2 * p, n)
  }

  /** 2 to the power of ADDR_DEPTH, which is at least one. */
  function Range(depth: nat): (r: nat)
    ensures r >= 2 && r >= depth
  {
    PowerFrom(2, depth)
  }

  /** A value cut to ADDR_DEPTH bits, for values up to twice the range. */
  function Cut(depth: nat, v: nat): nat { if v < Range(depth) then v else v - Range(depth) }

  /** The pointer increment of a push or a pop. The comparison is made in 32 bits, so that it
      never holds if the depth cut to ADDR_DEPTH bits is zero. */
  function Increment(depth: nat, p: nat): nat {
    if p == Cut(depth, depth) - 1 then 0 else Cut(depth, p + 1)
  }

  lemma IncrementWraps(depth: nat, p: nat)
    requires p < depth
    ensures Increment(depth, p) == if p + 1 == depth then 0 else p + 1
  {
  }

  // ---------------------------------------------------------------------------
  // The circuit.

  datatype Regs<T> = Regs(mem: seq<T>, read: nat, write: nat, count: nat)

  datatype Inputs<T> = Inputs(push: bool, data: T, pop: bool, flush: bool, flushButFirst: bool)

  predicate Full(k: Regs) { k.count == |k.mem| }
  predicate Empty<T>(k: Regs<T>, i: Inputs<T>, fallThrough: bool) { k.count == 0 && !(fallThrough && i.push) }

  predicate Pushes<T>(k: Regs<T>, i: Inputs<T>) { i.push && !Full(k) }
  predicate Pops<T>(k: Regs<T>, i: Inputs<T>, fallThrough: bool) { i.pop && !Empty(k, i, fallThrough) }

  predicate PassesThrough<T>(k: Regs<T>, i: Inputs<T>, fallThrough: bool) { fallThrough && k.count == 0 && i.push }

  /** A write beyond the last word has no effect. */
  function Store<T>(mem: seq<T>, at: nat, data: T): seq<T> { if at < |mem| then mem[at := data] else mem }

  function NextMem<T>(k: Regs<T>, i: Inputs<T>): seq<T> {
    if Pushes(k, i) then Store(k.mem, k.write, i.data) else k.mem
  }

  function NextCount<T>(k: Regs<T>, i: Inputs<T>, fallThrough: bool): int {
    if PassesThrough(k, i, fallThrough) && i.pop then k.count
    else if Pushes(k, i) && Pops(k, i, fallThrough) then k.count
    else if Pops(k, i, fallThrough) then k.count - 1
    else if Pushes(k, i) then k.count + 1
    else k.count
  }

  function Next<T>(k: Regs<T>, i: Inputs<T>, fallThrough: bool): Regs<T> {
    var mem, depth := NextMem(k, i), |k.mem|;
    if i.flush then Regs(mem, 0, 0, 0)
    else if i.flushButFirst then
      if k.count > 0 then Regs(mem, k.read, Cut(depth, k.read + 1), 1) else Regs(mem, 0, 0, 0)
    else if PassesThrough(k, i, fallThrough) && i.pop then k.(mem := mem)
    else Regs(mem,
              if Pops(k, i, fallThrough) then Increment(depth, k.read) else k.read,
              if Pushes(k, i) then Increment(depth, k.write) else k.write,
              var n := NextCount(k, i, fallThrough); if n >= 0 then n else 0)
  }

  /** data_o; a read beyond the last word is undefined. */
  function Output<T>(k: Regs<T>, i: Inputs<T>, fallThrough: bool): Option<T> {
    if PassesThrough(k, i, fallThrough) then Some(i.data)
    else if k.read < |k.mem| then Some(k.mem[k.read]) else None
  }

  // ---------------------------------------------------------------------------
  // The queue.

  /** The index of the word n places after the one at p. */
  function Slot(depth: nat, p: nat, n: nat): nat { if p + n < depth then p + n else p + n - depth }

  predicate Valid(k: Regs) {
    && |k.mem| >= 1 && k.read < |k.mem| && k.count <= |k.mem|
    && k.write == Slot(|k.mem|, k.read, k.count)
  }

  function Contents<T>(k: Regs<T>): (s: seq<T>)
    requires Valid(k)
    ensures |s| == k.count
  {
    seq(k.count, j requires 0 <= j < k.count => k.mem[Slot(|k.mem|, k.read, j)])
  }

  /** The queue with the pushed element that a fall-through FIFO shows at once. */
  function Visible<T>(q: seq<T>, i: Inputs<T>, fallThrough: bool): seq<T> {
    if q == [] && fallThrough && i.push then [i.data] else q
  }

  /** One clock of a bounded queue. */
  function QueueNext<T>(q: seq<T>, i: Inputs<T>, depth: nat, fallThrough: bool): seq<T>
    requires depth > 0
  {
    if i.flush then []
    else if i.flushButFirst then (if q == [] then [] else [q[0]])
    else
      var pushed := if i.push && |q| < depth then q + [i.data] else q;
      if i.pop && Visible(q, i, fallThrough) != [] then pushed[1..] else pushed
  }

  ghost predicate Refines<T>(k: Regs<T>, i: Inputs<T>, fallThrough: bool)
    requires Valid(k)
  {
    var n := Next(k, i, fallThrough);
    Valid(n) && |n.mem| == |k.mem| && Contents(n) == QueueNext(Contents(k), i, |k.mem|, fallThrough)
  }

  lemma PushStep<T>(k: Regs<T>, i: Inputs<T>, fallThrough: bool)
    requires Valid(k) && !i.flush && !i.flushButFirst && !i.pop
    ensures Refines(k, i, fallThrough)
  {
    if !Full(k) {
      IncrementWraps(|k.mem|, k.write);
    }
  }

  lemma PopStep<T>(k: Regs<T>, i: Inputs<T>, fallThrough: bool)
    requires Valid(k) && !i.flush && !i.flushButFirst && i.pop && !i.push
    ensures Refines(k, i, fallThrough)
  {
    IncrementWraps(|k.mem|, k.read);
  }

  lemma PushPopStep<T>(k: Regs<T>, i: Inputs<T>, fallThrough: bool)
    requires Valid(k) && !i.flush && !i.flushButFirst && i.pop && i.push && !Full(k)
    ensures Refines(k, i, fallThrough)
  {
    IncrementWraps(|k.mem|, k.read);
    IncrementWraps(|k.mem|, k.write);
  }

  /** A full FIFO ignores the push. */
  lemma FullPopStep<T>(k: Regs<T>, i: Inputs<T>, fallThrough: bool)
    requires Valid(k) && !i.flush && !i.flushButFirst && i.pop && i.push && Full(k)
    ensures Refines(k, i, fallThrough)
  {
    IncrementWraps(|k.mem|, k.read);
  }

  lemma PlainStep<T>(k: Regs<T>, i: Inputs<T>, fallThrough: bool)
    requires Valid(k) && !i.flush && !i.flushButFirst
    ensures Refines(k, i, fallThrough)
  {
    if !i.pop { PushStep(k, i, fallThrough); }
    else if i.push && Full(k) { FullPopStep(k, i, fallThrough); }
    else if i.push { PushPopStep(k, i, fallThrough); }
    else { PopStep(k, i, fallThrough); }
  }

  /** Without flush-but-first the FIFO is a bounded queue: contents, head, count and flags. */
  lemma FifoStep<T>(k: Regs<T>, i: Inputs<T>, fallThrough: bool)
    requires Valid(k) && !i.flushButFirst
    ensures Valid(Next(k, i, fallThrough)) && |Next(k, i, fallThrough).mem| == |k.mem|
    ensures Contents(Next(k, i, fallThrough)) == QueueNext(Contents(k), i, |k.mem|, fallThrough)
    ensures Empty(k, i, fallThrough) <==> Visible(Contents(k), i, fallThrough) == []
    ensures !Empty(k, i, fallThrough) ==>
              Output(k, i, fallThrough) == Some(Visible(Contents(k), i, fallThrough)[0])
    ensures Full(k) <==> |Contents(k)| == |k.mem|
  {
    if i.flush {
      assert Contents(Next(k, i, fallThrough)) == [];
    } else {
      PlainStep(k, i, fallThrough);
    }
  }

  // ---------------------------------------------------------------------------
  // Flush-but-first.

  predicate PowerOfTwo(n: nat) { n == 1 || (n > 1 && n % 2 == 0 && PowerOfTwo(n / 2)) }

  lemma {:induction false} NextPower(p: nat, n: nat)
    requires PowerOfTwo(p) && PowerOfTwo(n) && p < n
    ensures 2 * p <= n
    decreases p
  {
    if p > 1 { NextPower(p / 2, n / 2); }
  }

  lemma {:induction false} PowerFromIsLeast(p: nat, n: nat)
    requires PowerOfTwo(p)
    ensures PowerOfTwo(PowerFrom(p, n))
    ensures PowerOfTwo(n) && p <= n ==> PowerFrom(p, n) == n
    decreases n - p
  {
    if p < n {
      if PowerOfTwo(n) { NextPower(p, n); }
      PowerFromIsLeast(2 * p, n);
    }
  }

  /** The pointer range is used up exactly for the depths 2, 4, 8 and so on. */
  lemma RangeIsDepth(depth: nat)
    ensures Range(depth) == depth <==> depth >= 2 && PowerOfTwo(depth)
  {
    PowerFromIsLeast(2, depth);
  }

  /** The write pointer that flush-but-first computes is in place. */
  predicate WrapsWell(k: Regs) { k.count == 0 || k.read + 1 < |k.mem| || Range(|k.mem|) == |k.mem| }

  /** Flush-but-first keeps just the head, ignoring a push or a pop of the same clock, exactly
      when the head is not in the last word or the depth is a power of two above one. */
  lemma FlushButFirstStep<T>(k: Regs<T>, i: Inputs<T>, fallThrough: bool)
    requires Valid(k) && i.flushButFirst && !i.flush
    ensures var n := Next(k, i, fallThrough);
            && (WrapsWell(k) <==> Valid(n))
            && (Valid(n) ==> Contents(n) == QueueNext(Contents(k), i, |k.mem|, fallThrough))
  {
    var n := Next(k, i, fallThrough);
    if WrapsWell(k) {
      assert Contents(n) == QueueNext(Contents(k), i, |k.mem|, fallThrough);
    }
  }

  /** What goes wrong otherwise: once the head has been popped, the next element that is pushed
      is lost, and the old first word is shown in its place. */
  lemma FlushButFirstLosesPush<T>(k: Regs<T>, d: T, x: T)
    requires Valid(k) && !WrapsWell(k)
    ensures var flushed := Next(k, Inputs(false, d, false, false, true), false);
            var popped := Next(flushed, Inputs(false, d, true, false, false), false);
            var pushed := Next(popped, Inputs(true, x, false, false, false), false);
            && Output(flushed, Inputs(false, d, true, false, false), false) == Some(Contents(k)[0])
            && pushed.count == 1
            && Output(pushed, Inputs(false, d, false, false, false), false) == Some(k.mem[0])
    ensures |k.mem| >= 2 ==>
              var flushed := Next(k, Inputs(false, d, false, false, true), false);
              var pushed := Next(flushed, Inputs(true, x, false, false, false), false);
              var popped := Next(pushed, Inputs(false, d, true, false, false), false);
              && Output(pushed, Inputs(false, d, true, false, false), false) == Some(Contents(k)[0])
              && popped.count == 1
              && Output(popped, Inputs(false, d, false, false, false), false) == Some(k.mem[0])
  {
    IncrementWraps(|k.mem|, k.read);
  }

  // ---------------------------------------------------------------------------
  // Whole runs.

  predicate Supported<T>(depth: nat, i: Inputs<T>) { i.flushButFirst && !i.flush ==> Range(depth) == depth }

  /** What is seen from outside in each clock: the head if there is one, the flags, the count. */
  datatype View<T> = View(head: Option<T>, empty: bool, full: bool, count: nat)

  function Views<T>(k: Regs<T>, ins: seq<Inputs<T>>, fallThrough: bool): seq<View<T>>
    decreases |ins|
  {
    if ins == [] then []
    else
      var empty := Empty(k, ins[0], fallThrough);
      [View(if empty then None else Output(k, ins[0], fallThrough), empty, Full(k), k.count)]
      + Views(Next(k, ins[0], fallThrough), ins[1..], fallThrough)
  }

  function QueueViews<T>(q: seq<T>, ins: seq<Inputs<T>>, depth: nat, fallThrough: bool): seq<View<T>>
    requires depth > 0
    decreases |ins|
  {
    if ins == [] then []
    else
      var v := Visible(q, ins[0], fallThrough);
      [View(if v == [] then None else Some(v[0]), v == [], |q| == depth, |q|)]
      + QueueViews(QueueNext(q, ins[0], depth, fallThrough), ins[1..], depth, fallThrough)
  }

  lemma AnyStep<T>(k: Regs<T>, i: Inputs<T>, fallThrough: bool)
    requires Valid(k) && Supported(|k.mem|, i)
    ensures Valid(Next(k, i, fallThrough)) && |Next(k, i, fallThrough).mem| == |k.mem|
    ensures Contents(Next(k, i, fallThrough)) == QueueNext(Contents(k), i, |k.mem|, fallThrough)
  {
    if i.flushButFirst && !i.flush {
      FlushButFirstStep(k, i, fallThrough);
    } else if i.flush {
      FifoStep(k, i.(flushButFirst := false), fallThrough);
      assert Next(k, i, fallThrough) == Next(k, i.(flushButFirst := false), fallThrough);
    } else {
      PlainStep(k, i, fallThrough);
    }
  }

  /** In every run nobody can tell the FIFO from the queue. */
  lemma {:induction false} FifoIsQueue<T>(k: Regs<T>, ins: seq<Inputs<T>>, fallThrough: bool)
    requires Valid(k) && forall j :: 0 <= j < |ins| ==> Supported(|k.mem|, ins[j])
    ensures Views(k, ins, fallThrough) == QueueViews(Contents(k), ins, |k.mem|, fallThrough)
    decreases |ins|
  {
    if ins != [] {
      AnyStep(k, ins[0], fallThrough);
      FifoStep(k, ins[0].(flush := true, flushButFirst := false), fallThrough);
      FifoIsQueue(Next(k, ins[0], fallThrough), ins[1..], fallThrough);
    }
  }

  // ---------------------------------------------------------------------------
  // The depths that work, as seen from outside.

  /** The registers after reset. */
  function Reset<T>(depth: nat, zero: T): Regs<T> { Regs(seq(depth, _ => zero), 0, 0, 0) }

  lemma ViewsFirst<T>(k: Regs<T>, i: Inputs<T>, rest: seq<Inputs<T>>, fallThrough: bool)
    ensures |Views(k, [i] + rest, fallThrough)| > 0
    ensures Views(k, [i] + rest, fallThrough)[1..] == Views(Next(k, i, fallThrough), rest, fallThrough)
  {
    assert ([i] + rest)[1..] == rest;
  }

  lemma QueueViewsFirst<T>(q: seq<T>, i: Inputs<T>, rest: seq<Inputs<T>>, depth: nat, fallThrough: bool)
    requires depth > 0
    ensures |QueueViews(q, [i] + rest, depth, fallThrough)| > 0
    ensures QueueViews(q, [i] + rest, depth, fallThrough)[1..]
            == QueueViews(QueueNext(q, i, depth, fallThrough), rest, depth, fallThrough)
  {
    assert ([i] + rest)[1..] == rest;
  }

  /** A difference that shows later shows in the whole run. */
  lemma DiffersLater<T>(k: Regs<T>, q: seq<T>, i: Inputs<T>, rest: seq<Inputs<T>>, fallThrough: bool)
    requires |k.mem| > 0
    requires Views(Next(k, i, fallThrough), rest, fallThrough)
             != QueueViews(QueueNext(q, i, |k.mem|, fallThrough), rest, |k.mem|, fallThrough)
    ensures Views(k, [i] + rest, fallThrough) != QueueViews(q, [i] + rest, |k.mem|, fallThrough)
  {
    ViewsFirst(k, i, rest, fallThrough);
    QueueViewsFirst(q, i, rest, |k.mem|, fallThrough);
  }

  datatype Step = Push0 | Push1 | Pop | FlushButFirst | Look

  function InputsOf(step: Step): Inputs<int> {
    Inputs(step == Push0 || step == Push1, if step == Push1 then 1 else 0, step == Pop, false, step == FlushButFirst)
  }

  /** From the last word on: push, flush-but-first, pop, push. The last push is not seen. */
  lemma LostAtLastWord(depth: nat, k: Regs<int>, fallThrough: bool) returns (ins: seq<Inputs<int>>)
    requires depth >= 1 && Range(depth) != depth
    requires k == Regs(seq(depth, _ => 0), depth - 1, depth - 1, 0)
    ensures Views(k, ins, fallThrough) != QueueViews([], ins, depth, fallThrough)
  {
    var push, flush, pop, more, look :=
      InputsOf(Push0), InputsOf(FlushButFirst), InputsOf(Pop), InputsOf(Push1), InputsOf(Look);
    IncrementWraps(depth, depth - 1);
    var k1 := Next(k, push, fallThrough);
    assert k1 == Regs(k.mem, depth - 1, 0, 1);
    var k2 := Next(k1, flush, fallThrough);
    assert k2 == Regs(k.mem, depth - 1, depth, 1);
    var k3 := Next(k2, pop, fallThrough);
    assert k3 == Regs(k.mem, 0, depth, 0);
    var k4 := Next(k3, more, fallThrough);
    assert k4.mem == k.mem && k4.read == 0 && k4.count == 1;
    assert Views(k4, [look] + [], fallThrough)[0].head == Some(0);
    assert QueueViews([1], [look] + [], depth, fallThrough)[0].head == Some(1);
    DiffersLater(k3, [], more, [look] + [], fallThrough);
    DiffersLater(k2, [0], pop, [more] + ([look] + []), fallThrough);
    DiffersLater(k1, [0], flush, [pop] + ([more] + ([look] + [])), fallThrough);
    DiffersLater(k, [], push, [flush] + ([pop] + ([more] + ([look] + []))), fallThrough);
    ins := [push] + ([flush] + ([pop] + ([more] + ([look] + []))));
  }

  /** Pushing and popping moves the pointers to the last word. */
  lemma {:induction false} LostFrom(depth: nat, p: nat, k: Regs<int>, fallThrough: bool) returns (ins: seq<Inputs<int>>)
    requires p < depth && Range(depth) != depth && k == Regs(seq(depth, _ => 0), p, p, 0)
    ensures Views(k, ins, fallThrough) != QueueViews([], ins, depth, fallThrough)
    decreases depth - p
  {
    if p + 1 == depth {
      ins := LostAtLastWord(depth, k, fallThrough);
    } else {
      var push, pop := InputsOf(Push0), InputsOf(Pop);
      IncrementWraps(depth, p);
      var k1 := Next(k, push, fallThrough);
      assert k1 == Regs(k.mem, p, p + 1, 1);
      var k2 := Next(k1, pop, fallThrough);
      assert k2 == Regs(k.mem, p + 1, p + 1, 0);
      var rest := LostFrom(depth, p + 1, k2, fallThrough);
      DiffersLater(k1, [0], pop, rest, fallThrough);
      DiffersLater(k, [], push, [pop] + rest, fallThrough);
      ins := [push] + ([pop] + rest);
    }
  }

  /** From reset on, nobody can tell the FIFO from the queue, in any run with flush-but-first, if
      and only if the depth is a power of two above one. */
  lemma FlushButFirstExact(depth: nat, fallThrough: bool)
    requires depth >= 1
    ensures depth >= 2 && PowerOfTwo(depth) <==>
            forall ins: seq<Inputs<int>> ::
              Views(Reset(depth, 0), ins, fallThrough) == QueueViews([], ins, depth, fallThrough)
  {
    RangeIsDepth(depth);
    if Range(depth) == depth {
      forall ins: seq<Inputs<int>>
        ensures Views(Reset(depth, 0), ins, fallThrough) == QueueViews([], ins, depth, fallThrough)
      {
        FifoIsQueue(Reset(depth, 0), ins, fallThrough);
        assert Contents(Reset(depth, 0)) == [];
      }
    } else {
      var ins := LostFrom(depth, 0, Reset(depth, 0), fallThrough);
    }
  }

  // ---------------------------------------------------------------------------

  /** The FIFO as it is clocked. */
  class Buffer<T> {
    const fallThrough: bool
    const mem: array<T>
    var read: nat
    var write: nat
    var count: nat

    function Now(): Regs<T> reads this, mem { Regs(mem[..], read, write, count) }

    constructor (depth: nat, through: bool, zero: T)
      requires depth >= 1
      ensures Valid(Now()) && Contents(Now()) == [] && mem.Length == depth && fallThrough == through && fresh(mem)
    {
      fallThrough := through;
      mem := new T[depth](_ => zero);
      read, write, count := 0, 0, 0;
    }

    /** read_pointer_n, write_pointer_n and status_cnt_n */
    method Pointers(i: Inputs<T>, empty: bool, full: bool) returns (nextRead: nat, nextWrite: nat, nextCount: nat)
      requires Valid(Now()) && empty == Empty(Now(), i, fallThrough) && full == Full(Now())
      ensures var n := Next(Now(), i.(flush := false, flushButFirst := false), fallThrough);
              nextRead == n.read && nextWrite == n.write && nextCount == n.count
    {
      nextRead, nextWrite, nextCount := read, write, count;
      if i.push && !full {
        nextWrite := Increment(mem.Length, write);
        nextCount := count + 1;
      }
      if i.pop && !empty {
        nextRead := Increment(mem.Length, read);
        nextCount := if count > 0 then count - 1 else 0;
      }
      if i.push && i.pop && !full && !empty {
        nextCount := count;
      }
      if fallThrough && count == 0 && i.push && i.pop {
        nextRead, nextWrite, nextCount := read, write, count;
      }
    }

    method ClockPointers(i: Inputs<T>, empty: bool, full: bool)
      requires Valid(Now()) && empty == Empty(Now(), i, fallThrough) && full == Full(Now())
      modifies this
      ensures var n := Next(old(Now()), i, fallThrough); read == n.read && write == n.write && count == n.count
    {
      var nextRead, nextWrite, nextCount := Pointers(i, empty, full);
      if i.flush || (i.flushButFirst && count == 0) {
        read, write, count := 0, 0, 0;
      } else if i.flushButFirst {
        write, count := Cut(mem.Length, read + 1), 1;
      } else {
        read, write, count := nextRead, nextWrite, nextCount;
      }
    }

    /** One clock edge, with data_o and the flags of the clock before it. */
    method Clock(i: Inputs<T>) returns (data: Option<T>, empty: bool, full: bool)
      requires Valid(Now()) && Supported(mem.Length, i)
      modifies this, mem
      ensures Valid(Now()) && Now() == Next(old(Now()), i, fallThrough)
      ensures Contents(Now()) == QueueNext(old(Contents(Now())), i, mem.Length, fallThrough)
      ensures data == Output(old(Now()), i, fallThrough)
      ensures empty == Empty(old(Now()), i, fallThrough) && full == Full(old(Now()))
    {
      AnyStep(Now(), i, fallThrough);
      ghost var n := Next(Now(), i, fallThrough);
      full := count == mem.Length;
      empty := count == 0 && !(fallThrough && i.push);
      data := if fallThrough && count == 0 && i.push then Some(i.data) else Some(mem[read]);
      var at := write;
      ClockPointers(i, empty, full);
      if i.push && !full {
        mem[at] := i.data;
      }
      assert Now() == n;
    }
  }
}
