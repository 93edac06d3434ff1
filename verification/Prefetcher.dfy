// The prefetcher: rtl/cv32e40p_prefetch_controller.sv with the FIFO and the bus adapter
// (rtl/cv32e40p_obi_interface.sv) that rtl/cv32e40p_prefetch_buffer.sv connects to it. Words
// stand for their addresses: bits 31..2.
module Prefetcher {
  import opened Options
  import Aligner
  import Fifo

  type Word = Aligner.Word

  datatype Fsm = Idle | BranchWait

  /** Registers of the controller, the words in the FIFO, the adapter's state REGISTERED, and the
      transactions that the bus still has to answer, oldest first. */
  datatype Regs = Regs(fsm: Fsm, cnt: nat, flushCnt: nat, addr: Word, flushAfter: bool, flushDelayed: nat,
                       fifo: seq<Word>, registered: bool, outstanding: seq<Word>)

  /** FIFO depth, and whether the legacy bus protocol is used (PULP_OBI). */
  datatype Variant = Variant(depth: nat, legacy: bool)

  /** One clock: fetching is requested, the bus grants and responds, IF takes a valid word, and a
      branch or a hardware loop jump to a target is made. */
  datatype Inputs = Inputs(req: bool, gnt: bool, resp: bool, take: bool, branch: Option<Word>, jump: Option<Word>)

  // ---------------------------------------------------------------------------
  // The circuit.

  predicate TransValid(v: Variant, k: Regs, i: Inputs) {
    && i.req && (if i.branch.Some? || i.jump.Some? then 0 else |k.fifo|) + k.cnt < v.depth
    && (v.legacy && k.cnt > 0 ==> i.resp)
  }

  predicate Accepted(v: Variant, k: Regs, i: Inputs) { TransValid(v, k, i) && !k.registered }

  function TransAddr(k: Regs, i: Inputs): Word {
    if i.branch.Some? then i.branch.value
    else if k.fsm == BranchWait then k.addr
    else if i.jump.Some? then i.jump.value
    else Aligner.WordAfter(k.addr)
  }

  predicate FetchValid(k: Regs, i: Inputs) { (k.fifo != [] || i.resp) && i.branch == None && k.flushCnt == 0 }

  predicate FetchReady(k: Regs, i: Inputs) { FetchValid(k, i) && i.take }

  predicate Pops(k: Regs, i: Inputs) { k.fifo != [] && FetchReady(k, i) }

  /** The word that the bus returns. */
  function Returned(k: Regs): Word { if k.outstanding == [] then 0 else k.outstanding[0] }

  function FifoInputs(k: Regs, i: Inputs): Fifo.Inputs<Word> {
    Fifo.Inputs(i.resp && (k.fifo != [] || !FetchReady(k, i)) && i.branch == None && k.flushCnt == 0,
                Returned(k),
                Pops(k, i),
                i.branch.Some? || (i.jump.Some? && k.fifo != [] && Pops(k, i)),
                i.jump.Some? && k.fifo != [] && !Pops(k, i))
  }

  predicate FlushesNow(k: Regs, i: Inputs) { i.jump.Some? && (k.fifo != [] || i.resp) }
  predicate FlushesLater(k: Regs, i: Inputs) { i.jump.Some? && k.fifo == [] && !i.resp }

  function Minus1(n: nat): nat { if n > 0 then n - 1 else 0 }

  function NextFlushCnt(k: Regs, i: Inputs): nat {
    if i.branch.Some? || FlushesNow(k, i) then (if i.resp then Minus1(k.cnt) else k.cnt)
    else if k.flushAfter && i.resp then k.flushDelayed
    else if i.resp then Minus1(k.flushCnt)
    else k.flushCnt
  }

  function NextCnt(v: Variant, k: Regs, i: Inputs): nat {
    if Accepted(v, k, i) == i.resp then k.cnt else if i.resp then Minus1(k.cnt) else k.cnt + 1
  }

  function NextFsm(v: Variant, k: Regs, i: Inputs): Fsm {
    if Accepted(v, k, i) then Idle
    else if k.fsm == Idle && (i.branch.Some? || i.jump.Some?) then BranchWait
    else k.fsm
  }

  function NextOutstanding(v: Variant, k: Regs, i: Inputs): seq<Word> {
    (if i.resp && k.outstanding != [] then k.outstanding[1..] else k.outstanding)
    + (if Accepted(v, k, i) then [TransAddr(k, i)] else [])
  }

  /** One clock edge. */
  function Next(v: Variant, k: Regs, i: Inputs): Regs
    requires v.depth >= 2
  {
    Regs(NextFsm(v, k, i), NextCnt(v, k, i), NextFlushCnt(k, i),
         if i.branch.Some? || i.jump.Some? || Accepted(v, k, i) then TransAddr(k, i) else k.addr,
         i.branch == None && (FlushesLater(k, i) || (k.flushAfter && !i.resp)),
         if i.branch.Some? then 0 else if FlushesLater(k, i) then Minus1(k.cnt)
         else if k.flushAfter && i.resp then 0 else k.flushDelayed,
         Fifo.QueueNext(k.fifo, FifoInputs(k, i), v.depth, false),
         if k.registered then !i.gnt else TransValid(v, k, i) && !i.gnt,
         NextOutstanding(v, k, i))
  }

  /** fetch_rdata_o */
  function Offered(k: Regs): Word { if k.fifo == [] then Returned(k) else k.fifo[0] }

  // ---------------------------------------------------------------------------
  // The reference: the next word, the target that follows it after a loop jump, and whether a
  // word has just been taken by straight fetching.

  datatype Ref = Ref(word: Word, loop: Option<Word>, taken: bool)

  function RefNext(f: Ref, k: Regs, i: Inputs): Ref {
    var loop := if i.jump.Some? then i.jump else f.loop;
    if i.branch.Some? then Ref(i.branch.value, None, false)
    else if !FetchReady(k, i) then Ref(f.word, loop, false)
    else if loop.Some? then Ref(loop.value, None, false)
    else Ref(Aligner.WordAfter(f.word), None, i.req)
  }

  /** The bus answers granted transactions only. A loop jump is made in the clock after its
      second last word has been taken, and not together with a branch. */
  predicate Legal(k: Regs, f: Ref, i: Inputs) {
    && (i.resp ==> |k.outstanding| > if k.registered then 1 else 0)
    && (i.jump.Some? ==> f.taken && i.branch == None)
  }

  // ---------------------------------------------------------------------------
  // The prefetcher tracks the reference.

  /** The words that will be delivered, as far as they have been requested. */
  function Ahead(k: Regs): seq<Word> {
    if k.flushAfter && k.flushDelayed < |k.outstanding| then
      [k.outstanding[0]] + k.outstanding[1 + k.flushDelayed..]
    else if k.flushCnt <= |k.outstanding| then k.fifo + k.outstanding[k.flushCnt..]
    else []
  }

  /** The n-th word from now on. */
  function Nth(word: Word, loop: Option<Word>, n: nat): Word
    decreases n
  {
    if n == 0 then word else Nth(if loop.Some? then loop.value else Aligner.WordAfter(word), None, n - 1)
  }

  predicate InOrder(l: seq<Word>, word: Word, loop: Option<Word>) {
    forall j :: 0 <= j < |l| ==> l[j] == Nth(word, loop, j)
  }

  /** The counters count, and neither the FIFO nor the bus is overrun. */
  predicate Sizes(v: Variant, k: Regs) {
    && v.depth >= 2 && k.cnt == |k.outstanding| <= v.depth && |k.fifo| <= v.depth
    && k.flushCnt <= k.cnt && (k.registered ==> k.cnt > 0)
    && (k.flushAfter ==> k.fifo == [] && k.flushCnt == 0 && k.flushDelayed < k.cnt)
  }

  predicate Counts(v: Variant, k: Regs, f: Ref) {
    && Sizes(v, k) && |Ahead(k)| <= v.depth
    && (k.flushAfter ==> f.loop.Some?) && (f.loop.Some? ==> Ahead(k) != [])
    && (f.taken ==> k.flushCnt == 0 && !k.flushAfter && f.loop == None && Ahead(k) != [])
  }

  predicate Tracks(v: Variant, k: Regs, f: Ref) {
    && Counts(v, k, f)
    && InOrder(Ahead(k), f.word, f.loop)
    && (if k.fsm == Idle then Aligner.WordAfter(k.addr) else k.addr) == Nth(f.word, f.loop, |Ahead(k)|)
    && (k.fsm == BranchWait ==> |Ahead(k)| == if f.loop.Some? then 1 else 0)
  }

  /** What a transaction that is accepted in this clock adds. */
  function Requested(v: Variant, k: Regs, i: Inputs): seq<Word> {
    if Accepted(v, k, i) then [TransAddr(k, i)] else []
  }

  /** While wrong words are still to be dropped, responses drop them. */
  lemma AheadDelayed(v: Variant, k: Regs, f: Ref, i: Inputs)
    requires Counts(v, k, f) && Legal(k, f, i) && i.branch == None && i.jump == None && k.flushAfter
    ensures Ahead(Next(v, k, i)) == (if FetchReady(k, i) then Ahead(k)[1..] else Ahead(k)) + Requested(v, k, i)
  {
    if i.resp { AheadReturned(v, k, f, i); } else { AheadWaiting(v, k, f, i); }
  }

  lemma AheadReturned(v: Variant, k: Regs, f: Ref, i: Inputs)
    requires Counts(v, k, f) && Legal(k, f, i) && i.branch == None && i.jump == None && k.flushAfter && i.resp
    ensures Ahead(Next(v, k, i)) == (if FetchReady(k, i) then Ahead(k)[1..] else Ahead(k)) + Requested(v, k, i)
  {
    var o, add, d, n := k.outstanding, Requested(v, k, i), k.flushDelayed, Next(v, k, i);
    assert n.outstanding == o[1..] + add && !n.flushAfter && n.flushCnt == d;
    assert n.fifo == if FetchReady(k, i) then [] else [o[0]];
    assert (o[1..] + add)[d..] == o[1 + d..] + add;
  }

  lemma AheadWaiting(v: Variant, k: Regs, f: Ref, i: Inputs)
    requires Counts(v, k, f) && Legal(k, f, i) && i.branch == None && i.jump == None && k.flushAfter && !i.resp
    ensures !FetchReady(k, i) && Ahead(Next(v, k, i)) == Ahead(k) + Requested(v, k, i)
  {
    var o, add, d, n := k.outstanding, Requested(v, k, i), k.flushDelayed, Next(v, k, i);
    assert n.outstanding == o + add && n.flushAfter && n.flushDelayed == d;
    assert Ahead(n) == [o[0]] + (o + add)[1 + d..];
    assert (o + add)[1 + d..] == o[1 + d..] + add;
  }

  lemma AheadFlushing(v: Variant, k: Regs, f: Ref, i: Inputs)
    requires Counts(v, k, f) && Legal(k, f, i) && i.branch == None && i.jump == None && k.flushCnt > 0
    ensures !FetchReady(k, i) && Ahead(Next(v, k, i)) == Ahead(k) + Requested(v, k, i)
  {
    var o, add := k.outstanding, Requested(v, k, i);
    if i.resp {
      assert (o[1..] + add)[k.flushCnt - 1..] == o[k.flushCnt..] + add;
    } else {
      assert (o + add)[k.flushCnt..] == o[k.flushCnt..] + add;
    }
  }

  /** Without a branch or jump, the words ahead lose the word that is taken. */
  lemma AheadFlow(v: Variant, k: Regs, f: Ref, i: Inputs)
    requires Counts(v, k, f) && Legal(k, f, i) && i.branch == None && i.jump == None
    ensures FetchReady(k, i) ==> Ahead(k) != []
    ensures Ahead(Next(v, k, i)) == (if FetchReady(k, i) then Ahead(k)[1..] else Ahead(k)) + Requested(v, k, i)
  {
    if k.flushAfter {
      AheadDelayed(v, k, f, i);
    } else if k.flushCnt > 0 {
      AheadFlushing(v, k, f, i);
    } else {
      var o := k.outstanding;
      var rest := if i.resp then o[1..] else o;
      assert o[0..] == o && (rest + Requested(v, k, i))[0..] == rest + Requested(v, k, i);
      AheadFifo(v, k, i);
    }
  }

  /** With nothing to flush, the FIFO and the bus together form a queue. */
  lemma AheadFifo(v: Variant, k: Regs, i: Inputs)
    requires v.depth >= 2 && k.flushCnt == 0 && |k.fifo| + |k.outstanding| <= v.depth && (i.resp ==> k.outstanding != [])
    requires i.branch == None && i.jump == None
    ensures var all := k.fifo + k.outstanding;
            && (FetchReady(k, i) ==> all != [])
            && Next(v, k, i).fifo + (if i.resp then k.outstanding[1..] else k.outstanding)
               == if FetchReady(k, i) then all[1..] else all
  {
    var q := FifoInputs(k, i);
    if i.resp {
      assert k.outstanding == [k.outstanding[0]] + k.outstanding[1..];
    }
    if k.fifo != [] && FetchReady(k, i) && i.resp {
      assert (k.fifo + [k.outstanding[0]])[1..] + k.outstanding[1..] == (k.fifo + k.outstanding)[1..];
    }
  }

  /** A loop jump keeps only the last word of the body, unless it is taken at the same time. */
  lemma AheadJump(v: Variant, k: Regs, f: Ref, i: Inputs)
    requires Counts(v, k, f) && Legal(k, f, i) && i.jump.Some?
    ensures Ahead(Next(v, k, i)) == (if FetchReady(k, i) then [] else [Ahead(k)[0]]) + Requested(v, k, i)
  {
    var o, n, add := k.outstanding, Next(v, k, i), Requested(v, k, i);
    var rest := if i.resp then o[1..] else o;
    assert o[0..] == o && n.outstanding == rest + add;
    if FlushesLater(k, i) {
      assert n.flushDelayed == |o| - 1 && (o + add)[1 + n.flushDelayed..] == add;
    } else {
      assert n.flushCnt == |rest| && (rest + add)[n.flushCnt..] == add;
    }
  }

  lemma BranchTracks(v: Variant, k: Regs, f: Ref, i: Inputs)
    requires Tracks(v, k, f) && Legal(k, f, i) && i.branch.Some?
    ensures Tracks(v, Next(v, k, i), RefNext(f, k, i))
  {
  }

  lemma JumpCounts(v: Variant, k: Regs, f: Ref, i: Inputs)
    requires Tracks(v, k, f) && Legal(k, f, i) && i.jump.Some?
    ensures Counts(v, Next(v, k, i), RefNext(f, k, i))
  {
    AheadJump(v, k, f, i);
  }

  lemma JumpTracks(v: Variant, k: Regs, f: Ref, i: Inputs)
    requires Tracks(v, k, f) && Legal(k, f, i) && i.jump.Some?
    ensures Tracks(v, Next(v, k, i), RefNext(f, k, i))
  {
    JumpCounts(v, k, f, i);
    AheadJump(v, k, f, i);
    assert Ahead(k)[0] == Nth(f.word, f.loop, 0) == f.word;
  }

  lemma FlowSizes(v: Variant, k: Regs, f: Ref, i: Inputs)
    requires Counts(v, k, f) && Legal(k, f, i) && i.branch == None && i.jump == None
    ensures Sizes(v, Next(v, k, i)) && |Ahead(k)| + |Requested(v, k, i)| <= v.depth
  {
  }

  /** When a word is taken in straight fetching, the next one is there or has been requested. */
  lemma NextIsRequested(v: Variant, k: Regs, f: Ref, i: Inputs)
    requires Counts(v, k, f) && Legal(k, f, i) && i.branch == None && i.jump == None
    requires FetchReady(k, i) && f.loop == None && i.req
    ensures Next(v, k, i).flushCnt == 0 && !Next(v, k, i).flushAfter
    ensures |Ahead(k)| + |Requested(v, k, i)| >= 2
  {
  }

  lemma FlowCounts(v: Variant, k: Regs, f: Ref, i: Inputs)
    requires Tracks(v, k, f) && Legal(k, f, i) && i.branch == None && i.jump == None
    ensures Counts(v, Next(v, k, i), RefNext(f, k, i))
  {
    AheadFlow(v, k, f, i);
    FlowSizes(v, k, f, i);
    if FetchReady(k, i) && f.loop == None && i.req { NextIsRequested(v, k, f, i); }
  }

  lemma {:induction false} NthAfter(word: Word, loop: Option<Word>, n: nat)
    requires loop == None || n > 0
    ensures Nth(word, loop, n + 1) == Aligner.WordAfter(Nth(word, loop, n))
    decreases n
  {
    if n > 0 {
      NthAfter(if loop.Some? then loop.value else Aligner.WordAfter(word), None, n - 1);
    } else {
      assert Nth(Aligner.WordAfter(word), None, 0) == Aligner.WordAfter(word);
    }
  }

  /** An accepted transaction is the next in order. */
  lemma RequestIsNext(v: Variant, k: Regs, f: Ref, i: Inputs)
    requires Tracks(v, k, f) && i.branch == None && i.jump == None
    ensures InOrder(Ahead(k) + Requested(v, k, i), f.word, f.loop)
    ensures var n := Next(v, k, i);
            (if n.fsm == Idle then Aligner.WordAfter(n.addr) else n.addr)
            == Nth(f.word, f.loop, |Ahead(k)| + |Requested(v, k, i)|)
  {
    NthAfter(f.word, f.loop, |Ahead(k)|);
  }

  /** Taking the first word shifts the order. */
  lemma ShiftOrder(l: seq<Word>, f: Ref, g: Ref)
    requires l != [] && InOrder(l, f.word, f.loop)
    requires g.word == (if f.loop.Some? then f.loop.value else Aligner.WordAfter(f.word)) && g.loop == None
    ensures InOrder(l[1..], g.word, g.loop) && Nth(f.word, f.loop, |l|) == Nth(g.word, g.loop, |l| - 1)
  {
    forall j | 0 <= j < |l| - 1 ensures l[1..][j] == Nth(g.word, g.loop, j) {
      assert l[j + 1] == Nth(f.word, f.loop, j + 1);
    }
  }

  lemma FlowTracks(v: Variant, k: Regs, f: Ref, i: Inputs)
    requires Tracks(v, k, f) && Legal(k, f, i) && i.branch == None && i.jump == None
    ensures Tracks(v, Next(v, k, i), RefNext(f, k, i))
  {
    FlowCounts(v, k, f, i);
    AheadFlow(v, k, f, i);
    RequestIsNext(v, k, f, i);
    var l := Ahead(k) + Requested(v, k, i);
    if FetchReady(k, i) {
      assert l[1..] == Ahead(k)[1..] + Requested(v, k, i);
      ShiftOrder(l, f, RefNext(f, k, i));
    }
  }

  /** Every valid word is the next one of the reference. */
  lemma OfferedIsNext(v: Variant, k: Regs, f: Ref, i: Inputs)
    requires Tracks(v, k, f) && Legal(k, f, i) && FetchValid(k, i)
    ensures Offered(k) == f.word
  {
    assert Ahead(k)[0] == Nth(f.word, f.loop, 0);
  }

  /** The FIFO is never pushed when it is full, nor popped when it is empty. */
  lemma FifoNeverOverrun(v: Variant, k: Regs, f: Ref, i: Inputs)
    requires Tracks(v, k, f) && Legal(k, f, i)
    ensures FifoInputs(k, i).push ==> |k.fifo| < v.depth
    ensures FifoInputs(k, i).pop ==> k.fifo != []
  {
  }

  /** One clock, with any bus delay: the prefetcher keeps track of the reference through
      branches and loop jumps, and a word that is taken is the next one. */
  lemma PrefetcherStep(v: Variant, k: Regs, f: Ref, i: Inputs)
    requires Tracks(v, k, f) && Legal(k, f, i)
    ensures Tracks(v, Next(v, k, i), RefNext(f, k, i))
    ensures FetchValid(k, i) ==> Offered(k) == f.word
  {
    if i.branch.Some? { BranchTracks(v, k, f, i); }
    else if i.jump.Some? { JumpTracks(v, k, f, i); }
    else { FlowTracks(v, k, f, i); }
    if FetchValid(k, i) { OfferedIsNext(v, k, f, i); }
  }

  /** Without a branch, a loop jump or a loop jump to come, a valid word that is not taken is
      valid in the next clock. */
  predicate Holds(k: Regs) { k.fifo != [] && k.flushCnt == 0 && !k.flushAfter }

  lemma ValidIsHeld(v: Variant, k: Regs, f: Ref, i: Inputs)
    requires Tracks(v, k, f) && Legal(k, f, i) && i.branch == None && i.jump == None && f.loop == None
    requires FetchValid(k, i) && !i.take
    ensures Holds(Next(v, k, i))
  {
  }

  /** A branch or a loop jump requests its target in the same clock, even if the FIFO is full, unless
      as many transactions as it has words are outstanding. */
  lemma JumpRequestsAtOnce(v: Variant, k: Regs, f: Ref, i: Inputs)
    requires Tracks(v, k, f) && Legal(k, f, i) && !v.legacy && i.req && |k.outstanding| < v.depth && !k.registered
    ensures i.branch.Some? ==> Requested(v, k, i) == [i.branch.value]
    ensures i.jump.Some? ==> Requested(v, k, i) == [i.jump.value]
  {
  }

  /** On the legacy bus there is never more than one transaction to be answered. */
  lemma LegacyOneAtATime(v: Variant, k: Regs, f: Ref, i: Inputs)
    requires Tracks(v, k, f) && Legal(k, f, i) && v.legacy && |k.outstanding| <= 1
    ensures |Next(v, k, i).outstanding| <= 1
  {
  }

  // ---------------------------------------------------------------------------
  // Which depths hold a valid word.

  /** What depth two adds: of the words ahead, only one is left after a word has been taken, so that
      a loop jump has nothing to drop. */
  predicate Tight(v: Variant, k: Regs, f: Ref) {
    && Tracks(v, k, f) && v.depth == 2
    && (f.taken ==> |Ahead(k)| == 1) && (k.flushAfter ==> k.flushDelayed == 0)
  }

  lemma TightStep(v: Variant, k: Regs, f: Ref, i: Inputs)
    requires Tight(v, k, f) && Legal(k, f, i)
    ensures Tight(v, Next(v, k, i), RefNext(f, k, i))
  {
    PrefetcherStep(v, k, f, i);
    if i.branch == None && i.jump == None {
      AheadFlow(v, k, f, i);
      FlowSizes(v, k, f, i);
      if RefNext(f, k, i).taken { TakenLeavesOne(v, k, f, i); }
    }
  }

  lemma TakenLeavesOne(v: Variant, k: Regs, f: Ref, i: Inputs)
    requires Tight(v, k, f) && Legal(k, f, i) && i.branch == None && i.jump == None && RefNext(f, k, i).taken
    ensures |Ahead(k)| + |Requested(v, k, i)| == 2
  {
    NextIsRequested(v, k, f, i);
    FlowSizes(v, k, f, i);
  }

  /** At depth two a valid word that is not taken is valid in the next clock, whatever happens,
      unless a branch is taken then. */
  lemma ValidStaysValid(v: Variant, k: Regs, f: Ref, i: Inputs, j: Inputs)
    requires Tight(v, k, f) && Legal(k, f, i) && FetchValid(k, i) && !i.take && j.branch == None
    ensures FetchValid(Next(v, k, i), j)
  {
    if i.jump.Some? {
      assert |Ahead(k)| == 1;
    } else {
      HeldWithoutJump(v, k, f, i);
    }
  }

  lemma HeldWithoutJump(v: Variant, k: Regs, f: Ref, i: Inputs)
    requires Tight(v, k, f) && Legal(k, f, i) && FetchValid(k, i) && !i.take && i.jump == None
    ensures Next(v, k, i).fifo != [] && Next(v, k, i).flushCnt == 0
  {
  }

  function Reset(): Regs { Regs(Idle, 0, 0, 0, false, 0, [], false, []) }

  predicate LegalRun(v: Variant, k: Regs, f: Ref, ins: seq<Inputs>)
    requires v.depth >= 2
    decreases |ins|
  {
    ins == [] || (Legal(k, f, ins[0]) && LegalRun(v, Next(v, k, ins[0]), RefNext(f, k, ins[0]), ins[1..]))
  }

  /** In the run, every valid word that is not taken stays valid up to the next branch. */
  predicate AllHeld(v: Variant, k: Regs, ins: seq<Inputs>)
    requires v.depth >= 2
    decreases |ins|
  {
    |ins| < 2
    || ((FetchValid(k, ins[0]) && !ins[0].take && ins[1].branch == None ==> FetchValid(Next(v, k, ins[0]), ins[1]))
        && AllHeld(v, Next(v, k, ins[0]), ins[1..]))
  }

  lemma {:induction false} TightRun(v: Variant, k: Regs, f: Ref, ins: seq<Inputs>)
    requires Tight(v, k, f) && LegalRun(v, k, f, ins)
    ensures AllHeld(v, k, ins)
    decreases |ins|
  {
    if |ins| >= 2 {
      TightStep(v, k, f, ins[0]);
      TightRun(v, Next(v, k, ins[0]), RefNext(f, k, ins[0]), ins[1..]);
      if FetchValid(k, ins[0]) && !ins[0].take && ins[1].branch == None {
        ValidStaysValid(v, k, f, ins[0], ins[1]);
      }
    }
  }

  /** The branch to the boot address, from reset. */
  predicate Boots(i: Inputs) { i.branch.Some? && i.jump == None && !i.resp }

  function BootRef(i: Inputs): Ref
    requires Boots(i)
  {
    Ref(i.branch.value, None, false)
  }

  /** Deeper than two, a loop jump drops words that are still on the bus, and until they have come
      back the word that is kept is not valid. */
  lemma WordWithdrawn(v: Variant, boot: Inputs) returns (ins: seq<Inputs>)
    requires v.depth > 2 && boot == Inputs(true, true, false, false, Some(0), None)
    ensures LegalRun(v, Next(v, Reset(), boot), BootRef(boot), ins) && !AllHeld(v, Next(v, Reset(), boot), ins)
  {
    var fill, take := Inputs(true, true, true, false, None, None), Inputs(true, true, false, true, None, None);
    var jump, idle := Inputs(true, true, false, false, None, Some(9)), Inputs(true, true, false, false, None, None);
    var k0 := Next(v, Reset(), boot);
    var k1 := Next(v, k0, fill);
    var k2 := Next(v, k1, fill);
    var k3 := Next(v, k2, take);
    var k4 := Next(v, k3, jump);
    assert k0.outstanding == [0] && k0.fifo == [] && k0.cnt == 1 && !k0.registered;
    assert k1.outstanding == [1] && k1.fifo == [0] && k1.cnt == 1 && !k1.registered;
    assert k2.outstanding == [2] && k2.fifo == [0, 1] && k2.cnt == 1 && !k2.registered;
    assert k3.fifo == [1] && k3.cnt >= 1 && k3.flushCnt == 0;
    assert k4.flushCnt > 0;
    var f0 := BootRef(boot);
    var f1 := RefNext(f0, k0, fill);
    var f2 := RefNext(f1, k1, fill);
    var f3 := RefNext(f2, k2, take);
    assert f3.taken && FetchValid(k3, jump) && !FetchValid(k4, idle);
    ins := [fill] + ([fill] + ([take] + ([jump] + ([idle] + []))));
    RunFirst(v, k4, RefNext(f3, k3, jump), idle, []);
    RunFirst(v, k3, f3, jump, [idle] + []);
    RunFirst(v, k2, f2, take, [jump] + ([idle] + []));
    RunFirst(v, k1, f1, fill, [take] + ([jump] + ([idle] + [])));
    RunFirst(v, k0, f0, fill, [fill] + ([take] + ([jump] + ([idle] + []))));
  }

  lemma RunFirst(v: Variant, k: Regs, f: Ref, i: Inputs, rest: seq<Inputs>)
    requires v.depth >= 2
    ensures LegalRun(v, k, f, [i] + rest) <==> Legal(k, f, i) && LegalRun(v, Next(v, k, i), RefNext(f, k, i), rest)
    ensures rest != [] ==>
              (AllHeld(v, k, [i] + rest) <==>
               && (FetchValid(k, i) && !i.take && rest[0].branch == None ==> FetchValid(Next(v, k, i), rest[0]))
               && AllHeld(v, Next(v, k, i), rest))
  {
    assert ([i] + rest)[1..] == rest;
  }

  /** From the boot branch on, every valid word that is not taken stays valid up to the next
      branch, in all runs, if and only if the depth is two, as rtl/cv32e40p_prefetch_buffer.sv has it. */
  lemma HeldExact(v: Variant)
    requires v.depth >= 2
    ensures v.depth == 2 <==>
            forall boot: Inputs, ins: seq<Inputs> ::
              Boots(boot) && LegalRun(v, Next(v, Reset(), boot), BootRef(boot), ins)
              ==> AllHeld(v, Next(v, Reset(), boot), ins)
  {
    if v.depth == 2 {
      forall boot: Inputs, ins: seq<Inputs>
        | Boots(boot) && LegalRun(v, Next(v, Reset(), boot), BootRef(boot), ins)
        ensures AllHeld(v, Next(v, Reset(), boot), ins)
      {
        PrefetcherStep(v, Reset(), Ref(1, None, false), boot);
        TightRun(v, Next(v, Reset(), boot), BootRef(boot), ins);
      }
    } else {
      var ins := WordWithdrawn(v, Inputs(true, true, false, false, Some(0), None));
    }
  }

  // ---------------------------------------------------------------------------
  // Progress.

  /** The bus has granted a transaction that it has not answered. */
  predicate Owed(k: Regs) { |k.outstanding| > if k.registered then 1 else 0 }

  /** Fetching is requested, the bus grants and answers at once, and there is no jump. */
  predicate Favourable(k: Regs, i: Inputs) {
    i.req && i.gnt && (i.resp <==> Owed(k)) && i.branch == None && i.jump == None
  }

  /** How many favourable clocks there are before a word is valid. */
  function Distance(k: Regs): nat {
    (if k.registered then 1 else 0) + k.flushCnt
    + (if k.fifo == [] && |k.outstanding| <= k.flushCnt then 1 else 0)
  }

  lemma FavourableProgresses(v: Variant, k: Regs, f: Ref, i: Inputs)
    requires Tracks(v, k, f) && Favourable(k, i) && !FetchValid(k, i)
    ensures Distance(Next(v, k, i)) < Distance(k)
  {
  }

  lemma DistanceBound(v: Variant, k: Regs, f: Ref)
    requires Tracks(v, k, f)
    ensures Distance(k) <= v.depth + 2
  {
  }
}
