# Verification model of the CV32E40P core

This project models the parts of the CV32E40P RTL in which correctness depends on several
clocks or several blocks, and proves what they are for. One clock edge is one step of a
state machine; combinational blocks are functions; blocks whose registers change in place
are also classes whose `Clock` method is proved equal to the step function, so that the
theorems about whole runs hold for the class.

- `Pipeline.dfy`: hazards, stalls, forwarding and the two register write ports of ID, EX and
  WB. The pipeline refines a machine that executes one instruction at a time, for every
  program and every fetch, memory and ALU delay.
- `Divider.dfy`, `DividerOperands.dfy`, `FindFirstOne.dfy`, `Bits.dfy`, `Arithmetic.dfy`: the
  serial divider of any width, the normalising shift that the ALU prepares for it, and the
  find-first-one tree. The contract is section 7.2 (Division Operations) of the RISC-V
  Instruction Set Manual Volume I, 20191213.
- `HwLoop.dfy`: hardware loops with the fast path (jump announced one instruction early) and the
  slow path (after an interrupt), the aligner's program counter and the loop registers.
  `HwLoopLimits.dfy`: the families of loops that fail, and the exact condition.
- `Aligner.dfy`: words to 16- and 32-bit instructions, against a simple halfword parser.
- `Prefetcher.dfy`, `FetchUnit.dfy`: the prefetch controller with its FIFO and bus adapter, and the
  whole fetch unit (prefetcher and aligner) against a bus with any delays.
- `HwLoopFetch.dfy`: the loop controller composed with that fetch unit.
- `ApuDispatcher.dfy`: the queue of outstanding destinations and the stall rule that prevents
  overtaking.
- `Controller.dfy`: the main and debug state machines, single stepping over whole runs
  (section 4.4 of RISC-V External Debug Support 0.13.2).
- `Redirects.dfy`: when and where the controller redirects the fetch, over whole runs.
- `Interrupts.dfy`: pending, enabling, priority, trap entry and return (section 3.1.6.1 of the
  RISC-V Privileged Architecture).
- `Fifo.dfy`: the circular FIFO for every depth.
- `LaneAlu.dfy`, `Shifter.dfy`: partitioned adder, comparator and shifter, bit-field insert and
  extract.
- `Options.dfy`: the optional value the modules share.

Environment assumptions. The bus answers granted instruction fetches in order, after any delay.
A fast loop jump is made in the clock after its instruction was fetched: a premise of `Prefetcher`
and `FetchUnit`, and proved in `HwLoopFetch`, where the loop controller makes the jumps. The
load-store unit is ready after any delay; while WB is not ready the load port may drive any
value. Operands are held while the execute stage waits. `dcsr` is written in debug mode only.

Findings about the code:

- A single hardware loop already works with a body of two instructions, also on the real prefetcher
  and aligner (`HwLoopFetch.LoopsRetireOnFetchUnit`); the documentation
  (docs/source/corev_hw_loop.rst:59) asks for three. With a body of one instruction only a count of at
  most one works: with a count of two the loop is left in DECODE_HWLOOP, in which the controller takes
  every jump, branch and compressed instruction for an illegal one
  (`HwLoopLimits.OneInstructionBody`).
- Nested loops whose ends are only 4 apart work exactly if the inner count is at most one. Otherwise,
  after an interrupt, a stalled jump of the inner loop stays in DECODE and its decrement is lost
  (`HwLoopLimits.InnerLoopTooOften`); and if both counts are above one, a fetch delay is enough for
  the outer jump to overtake the inner one (`HwLoopLimits.NestedEndsTooClose`). The controller's own
  assertion (rtl/cv32e40p_controller.sv:1544-1546) only speaks of the second case. In the second run the
  outer jump is announced while the inner one is pending, which the real prefetcher does not support
  either, so that run describes the controller with abstract fetching only.
- At the FIFO depth of two, which is the only one instantiated, a valid word that is not taken stays
  valid up to the next branch. For every larger depth it does not: after a loop jump it becomes invalid
  while words that are no longer wanted come back (`Prefetcher.HeldExact`).
- The flush-but-first branch of the FIFO is right in all runs from reset exactly for depths 2, 4, 8
  and so on; for every other depth a push gets lost in some run (`Fifo.FlushButFirstExact`).
- The comment at rtl/cv32e40p_apu_disp.sv:198-199 first allows requests of a larger latency; its list
  of cases, like the code, stalls every request of class 3 while the dispatcher is active.
- With the stall rules as they are, the dispatcher never holds two operations of a unit that
  keeps the class timing (`ApuDispatcher.NoOvertaking`); the second register is only used
  against slower units.

## Model

| member | source | states |
|---|---|---|
| Pipeline.PipelineRefinesSequential | rtl/cv32e40p_id_stage.sv:1476-1595 | For every program and every pattern of delays, the pipeline has executed a prefix of the sequential execution; when drained, registers, memory and next address are the sequential ones |
| Pipeline.StepRefines | rtl/cv32e40p_ex_stage.sv:390-415 | One clock keeps the refinement relation, including a branch that leaves EX while WB is blocked and arbitrary values on ports that are not ready |
| Pipeline.OperandCorrect | rtl/cv32e40p_controller.sv:1308-1397 | When ID may move on, the forwarded operands equal what the sequential machine reads for the fields of the instruction |
| Pipeline.JalrReadsCommittedState | rtl/cv32e40p_controller.sv:1338-1349 | While jr_stall is low, the unforwarded base register of a jalr has its sequential value |
| Pipeline.IssueIsSequential | rtl/cv32e40p_id_stage.sv:537-545 | What enters EX is the sequential machine's next instruction with its operands, and jumps and taken branches go to its next address |
| Pipeline.DrainStep | rtl/cv32e40p_ex_stage.sv:180-222 | Without an issue, no write port changes the values the pipeline will drain to |
| Pipeline.IssueStep | rtl/cv32e40p_id_stage.sv:1476-1595 | An issued instruction adds exactly its own effect to the values the pipeline will drain to |
| Pipeline.DrainedAgrees | rtl/cv32e40p_ex_stage.sv:180-222 | A drained pipeline has the sequential machine's registers, memory and next address |
| Pipeline.SevenReadyClocksIssue | rtl/cv32e40p_id_stage.sv:1642-1643 | Stalls end: in every run from reset, seven clocks in a row with everything ready issue an instruction |
| Pipeline.SixClocksDrain | rtl/cv32e40p_ex_stage.sv:390-415 | In every run from reset, six clocks without a fetch or a delay drain the pipeline |
| Pipeline.IssuesExactly | rtl/cv32e40p_controller.sv:1308-1349 | An instruction issues exactly if EX is free, no register that it reads or writes from EX waits for the memory, and a jalr finds its base register in the register file |
| Pipeline.LateUnitsHoldEx | rtl/cv32e40p_ex_stage.sv:410-415 | A late unit holds EX exactly if EX needs it, and a branch is never held |
| Pipeline.Stages.Clock | rtl/cv32e40p_id_stage.sv:1393-1595 | The pipeline registers updated in place are the next state, and the refinement relation is kept |
| Divider.DivisionCorrect | rtl/cv32e40p_alu_div.sv:84-212 | Any width, signedness, operation and back-pressure: DIVIDE lasts shift + 1 clocks, then FINISH holds the result of section 7.2, including division by zero and overflow |
| Divider.DivideStep | rtl/cv32e40p_alu_div.sv:84-117 | One iteration keeps the relation between partial remainder, shifted divisor and quotient bits, for positive and negative divisors |
| Divider.DividedResult | rtl/cv32e40p_alu_div.sv:84-117 | The corrected output of a finished division is the architectural quotient or remainder |
| Divider.OverflowRow | rtl/cv32e40p_alu_div.sv:84-117 | The specification gives the overflow row of the manual's table: the dividend as quotient, zero as remainder |
| Divider.TruncDivDefinition | rtl/cv32e40p_alu_div.sv:84-117 | The specification's quotient is the one rounded towards zero |
| Divider.HandshakeFrees | rtl/cv32e40p_alu_div.sv:115-173 | Over the whole run of any operation: no valid output for the shift + 1 clocks of DIVIDE, then a valid and unchanged result until it is taken, which frees the divider |
| Divider.DividerServes | rtl/cv32e40p_alu_div.sv:119-173 | From reset on, for every sequence of held requests, idle clocks and back-pressure: results are valid exactly from shift + 2 clocks after acceptance until taken, they are those of section 7.2, and an idle divider stays ready |
| Divider.AluDiv.Clock | rtl/cv32e40p_alu_div.sv:181-212 | The registers updated in place are the next state |
| DividerOperands.DivideInstructionCorrect | rtl/cv32e40p_alu.sv:885-917 | With operands prepared by the ALU (find-first-one, shift by reversal), div, divu, rem and remu give the result of section 7.2 |
| DividerOperands.DivideNumbersCorrect | rtl/cv32e40p_alu.sv:885-917 | The same for every dividend and divisor given as numbers: the output is valid with the result of section 7.2 |
| DividerOperands.OperandsPrepared | rtl/cv32e40p_alu.sv:749-773 | The divisor is shifted exactly as far as it fits, for zero, positive and negative divisors |
| FindFirstOne.FirstOneCorrect | rtl/cv32e40p_ff_one.sv:52-94 | For every length, no_ones means the input is zero, and otherwise first_one is the least set index |
| FindFirstOne.NodeSummarises | rtl/cv32e40p_ff_one.sv:52-94 | Each tree node reports the first set bit of exactly its own span of the input |
| FindFirstOne.SlotsAreDistinct | rtl/cv32e40p_ff_one.sv:36-94 | Every node has its own entry of the two arrays |
| Bits.LeftShiftByReversal | rtl/cv32e40p_alu.sv:216-314 | Reverse, logical right shift and reverse is a left shift |
| HwLoop.LoopsRetireExpected | rtl/cv32e40p_controller.sv:607-640 | For every pattern of stalls, fetch delays and interrupts, a supported single loop or two nested loops retire exactly the expected instruction sequence, and the instruction after the loop is entered in DECODE |
| HwLoop.ExecutionCounts | rtl/cv32e40p_hwloop_regs.sv:96-108 | In that sequence a single loop's instructions occur max(n, 1) times, those of an inner body max(n1, 1) * max(n0, 1) times |
| HwLoopLimits.LoopsExact | rtl/cv32e40p_controller.sv:607-640 | Single and nested loops are right in every run if and only if a single body has two instructions or its count is at most one, and nested ends are 8 apart or the inner count is at most one |
| HwLoopLimits.OneInstructionBody | rtl/cv32e40p_controller.sv:745 | For every one-instruction body with a count above one there is a run that leaves too early or leaves in DECODE_HWLOOP |
| HwLoopLimits.InnerLoopTooOften | rtl/cv32e40p_controller.sv:616-638 | For all nested loops with ends 4 apart and an inner count above one there is a run that repeats the inner body too often, because a decrement is lost |
| HwLoopLimits.NestedEndsTooClose | rtl/cv32e40p_controller.sv:1544-1546 | For all nested loops with ends 4 apart and both counts above one, the controller with abstract fetching has a run, with a fetch delay only, that goes to the start of the outer loop too early |
| HwLoop.TracksStep | rtl/cv32e40p_controller.sv:794-818 | One clock in either path keeps controller, counters and aligner pc in step with the architecture, and the loop is left in DECODE with nothing pending |
| HwLoop.SlowTargetIsRight | rtl/cv32e40p_controller.sv:326 | The slow path's target, which ignores the counters, is the start of the loop to be repeated |
| HwLoop.JumpIsPulse | rtl/cv32e40p_controller.sv:1257-1266 | Each repetition makes one jump request: none in the next clock, and none as long as the instruction that made it stays in ID |
| HwLoop.JumpFollowsFetch | rtl/cv32e40p_controller.sv:1257-1266 | A fast jump comes in the clock after its instruction was fetched, with no other jump pending |
| HwLoop.ArchitectureMeetsExpected | rtl/cv32e40p_hwloop_regs.sv:96-108 | The loop-end rule of the architecture unrolls to the repeated bodies |
| HwLoop.FrontProgresses | rtl/cv32e40p_if_stage.sv:213-254 | Two clocks without an obstacle retire something |
| HwLoop.OutsideLoops | rtl/cv32e40p_controller.sv:607-640 | Outside both loops the controller stays in DECODE, makes no jump and changes no counter |
| HwLoop.LoopRegisters.Clock | rtl/cv32e40p_hwloop_regs.sv:66-108 | Start and end registers change only where written; a count write wins over a decrement, which wraps |
| HwLoopFetch.LoopsRetireOnFetchUnit | rtl/cv32e40p_if_stage.sv:213-254 | Supported loops on the real prefetcher and aligner: for every bus delay, stall and interrupt the expected instructions retire, then the one after the loop, of any length, entered in DECODE |
| HwLoopFetch.FrontStep | rtl/cv32e40p_controller.sv:607-640 | One clock of controller and fetch unit together keeps both in step with the architecture |
| HwLoopFetch.Simulates | rtl/cv32e40p_aligner.sv:66-226 | On 32-bit code the real fetch unit gives the loop controller exactly the program counter that HwLoop assumes |
| HwLoopFetch.JumpStaysAllowed | rtl/cv32e40p_controller.sv:1257-1266 | The controller makes a fast jump only when the prefetcher's rule allows it |
| Aligner.AlignerRefinesParser | rtl/cv32e40p_aligner.sv:66-226 | Every run with any delays, stalls, branches and loop jumps is the sequential halfword reading of memory |
| Aligner.ParsesFromTarget | rtl/cv32e40p_aligner.sv:219-224 | After a branch, from any state, the emitted addresses and instructions are those of the parser from the target on |
| Aligner.StepRefines | rtl/cv32e40p_aligner.sv:91-216 | One clock emits exactly the next instruction or nothing, and keeps stored half, pc and word address consistent |
| Aligner.SequentialIsParse | rtl/cv32e40p_aligner.sv:91-216 | A branch-free sequential reading is the parser's list, and conversely |
| Aligner.ParserReadsEncoder | rtl/cv32e40p_aligner.sv:100-213 | Any list of 16-bit codes (low bits not 11) and 32-bit codes (low bits 11), laid out anywhere low half first, is parsed back with its addresses |
| Aligner.AlignerProgresses | rtl/cv32e40p_aligner.sv:91-216 | With a word on offer and ID ready, at most one clock passes without an instruction |
| Aligner.Registers.Clock | rtl/cv32e40p_aligner.sv:66-226 | The state machine's registers and outputs, branch by branch, are the step function's |
| Prefetcher.PrefetcherStep | rtl/cv32e40p_prefetch_controller.sv:112-361 | With any bus delay, through branches and loop jumps: counters, flushes and addresses stay right, and a valid word is the next one in order |
| Prefetcher.AheadFlow | rtl/cv32e40p_prefetch_controller.sv:206-345 | The words in the FIFO and on the bus that are not to be dropped lose exactly the word taken and gain the word requested |
| Prefetcher.AheadJump | rtl/cv32e40p_prefetch_controller.sv:246-300 | A loop jump keeps exactly the last word of the body, whether it is in the FIFO, returned now or still to come |
| Prefetcher.RequestIsNext | rtl/cv32e40p_prefetch_controller.sv:130-198 | An accepted transaction is the next word in order |
| Prefetcher.NextIsRequested | rtl/cv32e40p_prefetch_buffer.sv:190-199 | When a word is taken in straight fetching, the next one is there or has been requested |
| Prefetcher.FifoNeverOverrun | rtl/cv32e40p_fifo.sv:159-165 | The FIFO is never pushed when full nor popped when empty |
| Prefetcher.HeldExact | rtl/cv32e40p_prefetch_buffer.sv:57-61 | From the boot branch on, every valid word that is not taken stays valid up to the next branch, in all runs, if and only if the depth is two |
| Prefetcher.ValidStaysValid | rtl/cv32e40p_prefetch_controller.sv:117-123 | At depth two a valid word that is not taken is valid in the next clock for every input without a branch, through loop jumps too |
| FetchUnit.FetchUnitRefinesParser | rtl/cv32e40p_if_stage.sv:213-254 | Prefetcher and aligner together, against any bus delays, stalls, branches and loop jumps, deliver the sequential halfword reading of memory |
| FetchUnit.FetchFromBoot | rtl/cv32e40p_if_stage.sv:213-254 | The same from reset and the boot branch on |
| FetchUnit.ProgramIsFetched | rtl/cv32e40p_if_stage.sv:213-254 | A program laid out at the next address enters ID code by code, whatever the bus does |
| FetchUnit.FetchUnitProgresses | rtl/cv32e40p_prefetch_controller.sv:130-156 | From any reachable state, 2 * depth + 6 clocks in a row with an answering bus and a ready ID stage deliver the next instruction |
| FetchUnit.RefusedIsHeld | rtl/cv32e40p_if_stage.sv:213-254 | A word that the aligner refuses stays valid |
| ApuDispatcher.DispatcherIsQueue | rtl/cv32e40p_apu_disp.sv:87-142 | In every run the write addresses are the accepted destinations in order, without the at most two outstanding ones |
| ApuDispatcher.QueueStep | rtl/cv32e40p_apu_disp.sv:108-142 | One clock enqueues the accepted destination and dequeues the oldest on a response; waiting implies inflight |
| ApuDispatcher.NoOvertaking | rtl/cv32e40p_apu_disp.sv:196-202 | With the class timing and any delay of class 3, only the oldest operation can finish, it gets its own destination and the write port of its class |
| ApuDispatcher.ResultsInIssueOrder | rtl/cv32e40p_apu_disp.sv:196-216 | In every run results come in acceptance order, at most one a clock, each to its destination |
| ApuDispatcher.DependencyIsPending | rtl/cv32e40p_apu_disp.sv:165-190 | A dependency is reported exactly for registers still outstanding after the clock or requested without grant |
| ApuDispatcher.StallMeansRetry | rtl/cv32e40p_apu_disp.sv:196-202 | An enabled request stalls exactly as long as it is not accepted |
| ApuDispatcher.RequestsAreAccepted | rtl/cv32e40p_apu_disp.sv:196-202 | Against a unit that grants and answers, every request of any class is accepted within three clocks |
| ApuDispatcher.Dispatcher.Clock | rtl/cv32e40p_apu_disp.sv:87-142 | The registers updated in place make one queue step |
| Controller.SingleStep | rtl/cv32e40p_core.sv:1266-1276 | In every run from reset, after an instruction taken with dcsr.step outside debug mode the next one taken is in debug mode, with dcsr.step still set |
| Controller.StepEnds | rtl/cv32e40p_controller.sv:987-1232 | In every run from reset, a stepped instruction is followed by debug mode within four clocks in which EX does not stall |
| Controller.StepCause | rtl/cv32e40p_controller.sv:1153-1232 | The cause saved for a step is the step, unless the instruction was a trigger match or a forced ebreak |
| Controller.SteppedBranchRedirects | rtl/cv32e40p_controller.sv:1130-1142 | A stepped branch redirects the fetch exactly when taken, before the return address is saved |
| Controller.DebugPaths | rtl/cv32e40p_controller.sv:1570-1585 | DBG_FLUSH takes one clock; DBG_TAKEN_IF is entered only for a step or a wake-up, and from DBG_FLUSH only for a step |
| Controller.DebugModeChanges | rtl/cv32e40p_controller.sv:1579 | The halted output equals debug_mode_q; debug mode is entered with an empty ID stage and left by dret only |
| Controller.DebugBeforeInterrupts | rtl/cv32e40p_controller.sv:389-505 | No interrupt is acknowledged in debug mode or before a pending debug request, and the instruction in ID is then not taken |
| Controller.InvariantStep | rtl/cv32e40p_controller.sv:330-1241 | Every state's reason (instruction kind held in ID, illegal, entry and wake-up flags) is kept by every step |
| Controller.Registers.Clock | rtl/cv32e40p_controller.sv:1401-1430 | The controller's registers updated in place are the next state, and keep the invariant |
| Redirects.RedirectsExactly | rtl/cv32e40p_controller.sv:987-1142 | In every run from reset: between a taken instruction and the next that enters ID, the fetch is redirected exactly as due: once, and to the right place, for a trap, a return, a fence.i or a jump, once more for a step, otherwise not |
| Redirects.BackWithinFour | rtl/cv32e40p_controller.sv:875-1241 | Four clocks in which EX does not stall lead from there back to DECODE |
| Redirects.JumpRedirectsOnce | rtl/cv32e40p_controller.sv:542-552 | A jump that stalls in ID redirects exactly once before it is taken |
| Redirects.BranchRedirects | rtl/cv32e40p_controller.sv:430-443 | A branch redirects in the clock after it was taken exactly if it is decided so, and kills the instruction in ID |
| Redirects.InterruptExactly | rtl/cv32e40p_controller.sv:389-505 | Exactly when an interrupt is acknowledged, and that the fetch goes to its handler then and only then |
| Redirects.DebugEntryRedirects | rtl/cv32e40p_controller.sv:1153-1195 | Debug mode is entered exactly in the clocks that redirect to the debug handler |
| Redirects.DebugEntryExactly | rtl/cv32e40p_controller.sv:1143-1232 | Which debug state follows and which cause is saved: trigger, ebreak, halt request, step |
| Redirects.DebugRequestStops | rtl/cv32e40p_controller.sv:484-496 | A halt request or trigger stops the instruction in ID before it is taken and leads into debug mode |
| Redirects.HaltRequestIsKept | rtl/cv32e40p_controller.sv:1437-1461 | A halt request is remembered until debug mode is reached |
| Redirects.SleepsUntilWoken | rtl/cv32e40p_controller.sv:355-387 | After a wfi nothing is fetched or redirected, however long it takes, until a wake-up or a halt request |
| Redirects.SleepExactly | rtl/cv32e40p_controller.sv:355-387 | Where sleep goes in one clock |
| Redirects.WakingFetches | rtl/cv32e40p_controller.sv:389-425 | After a wake-up the instruction stream goes on, or an interrupt is taken |
| Redirects.DecodeTakes | rtl/cv32e40p_controller.sv:480-640 | An instruction in ID that nothing prevents is taken as soon as ID is ready |
| Interrupts.InterruptSafety | rtl/cv32e40p_core.sv:1144-1161 | In every run from reset, a taken interrupt was pending and enabled, mcause names it and mstatus.mie is clear, and no other is taken until an mret or a write to mstatus |
| Interrupts.TakenIsEnabled | rtl/cv32e40p_cs_registers.sv:1011-1043 | A taken interrupt exists, is pending, enabled in the bypassed mie and of the highest rank; the trap registers afterwards |
| Interrupts.TakenExactly | rtl/cv32e40p_int_controller.sv:73-88 | An interrupt is taken if and only if the controller is ready and one is pending, enabled after the clock and not masked |
| Interrupts.PendingIsTaken | rtl/cv32e40p_int_controller.sv:59-88 | Over runs: a line of interrupt 3, 7, 11 or 16 to 31 that stays high and enabled is taken in the first ready clock, unless one that outranks it is |
| Interrupts.NextExact | rtl/cv32e40p_cs_registers.sv:941-1043 | What a trap, a return, an entry into debug mode and a write leave in every register, and that nothing else changes any |
| Interrupts.WritesBitByBit | rtl/cv32e40p_cs_registers.sv:1060-1072 | What csrrw, csrrs and csrrc leave in each bit |
| Interrupts.EncoderChoosesHighest | rtl/cv32e40p_int_controller.sv:93-148 | The encoder's choice outranks every other candidate in the architecture's priority order |
| Interrupts.OutranksIsStrict | rtl/cv32e40p_int_controller.sv:93-148 | That order is strict and total |
| Interrupts.BypassIsNextMie | rtl/cv32e40p_cs_registers.sv:281-296 | The bypassed mie is exactly the value of the register after the clock |
| Interrupts.WakesExactly | rtl/cv32e40p_int_controller.sv:59-76 | A wake-up is exactly an unregistered line that mie enables after the clock |
| Interrupts.WakeUpLeadsToPending | rtl/cv32e40p_int_controller.sv:59-76 | A wake-up is followed by a pending and locally enabled interrupt |
| Interrupts.TrapReturnRoundTrip | rtl/cv32e40p_cs_registers.sv:1011-1043 | Trap, undisturbed handler and mret restore mstatus.mie, and mepc is the saved pc |
| Interrupts.CsrFile.Clock | rtl/cv32e40p_cs_registers.sv:1148-1205 | The CSRs updated in place are the next state, with traps and returns winning over writes |
| Fifo.FifoIsQueue | rtl/cv32e40p_fifo.sv:59-146 | In every run head, flags and count are those of a bounded queue with push, pop, flush, fall-through and, for supported depths, flush-but-first |
| Fifo.FifoStep | rtl/cv32e40p_fifo.sv:55-108 | For every depth of at least one, one clock is one step of the queue, and outputs show its head |
| Fifo.FlushButFirstStep | rtl/cv32e40p_fifo.sv:124-129 | Flush-but-first keeps just the head if and only if the head is not in the last word or the depth uses up the pointer range |
| Fifo.FlushButFirstExact | rtl/cv32e40p_fifo.sv:124-129 | From reset, all runs with flush-but-first show the head, flags and count of the queue if and only if the depth is a power of two above one |
| Fifo.FlushButFirstLosesPush | rtl/cv32e40p_fifo.sv:124-129 | With the head in the last word of any other depth, the next pushed element is lost and a stale word comes out |
| Fifo.IncrementWraps | rtl/cv32e40p_fifo.sv:80-91 | The pointer increment wraps at the depth, whether by comparison or by truncation |
| Fifo.Buffer.Clock | rtl/cv32e40p_fifo.sv:64-146 | The array and pointers updated in place make one step of the queue |
| LaneAlu.AddsLanewise | rtl/cv32e40p_alu.sv:102-174 | For any partition the one wide addition adds each lane modulo its size |
| LaneAlu.SubtractsLanewise | rtl/cv32e40p_alu.sv:102-174 | With a complemented operand and negating guard bits it subtracts each lane modulo its size |
| LaneAlu.VectorModes | rtl/cv32e40p_alu.sv:115-174 | Both for the 32-, 16- and 8-bit modes of the four-byte instance |
| LaneAlu.ComparesLanewise | rtl/cv32e40p_alu.sv:345-425 | Each comparison result decides the signed or unsigned relation of its lanes' values |
| Shifter.LeftShiftIsLanewise | rtl/cv32e40p_alu.sv:216-314 | Reversal with lane-swapped amounts shifts each lane left by its own amount |
| Shifter.RightShiftDivides | rtl/cv32e40p_alu.sv:275-300 | A right shift divides each lane's signed or unsigned value by its power of two, rounding down |
| Shifter.InsertBits | rtl/cv32e40p_alu.sv:812-821 | Insert writes the low source bits into the field and keeps every other destination bit |
| Shifter.InsertExtractExact | rtl/cv32e40p_alu.sv:812-821 | Extract after insert gives the zero- or sign-extended low bits for all words if and only if the field fits |

## Left out

- Pipeline: misaligned data accesses (two transfers), multi-cycle multiplication, CSR and APU results, and traps are not part of the pipeline model.
- Pipeline: a memory access is performed when its instruction leaves EX; the OBI bus transactions of the load-store unit are not part of this model.
- Pipeline: the program does not change while it runs, and the decoder is represented by instruction classes with arbitrary functions.
- HwLoop.LoopsRetireExpected: bodies are straight-line 32-bit instructions of ordinary kinds; CSR-status, ecall and ebreak instructions, events and debug inside a body are not modelled, since their counter update depends on details of IF outside the model. The interrupt handler is one step that leaves the loop registers alone.
- HwLoopLimits.LoopsExact: for nested loops, the inner body has two instructions or more and ends before the outer one; equal ends and inner bodies of one instruction are outside the documented restrictions and not classified.
- Aligner.AlignerRefinesParser: a loop jump is announced only where the 32-bit instruction at pc - 4 can do so, in the state ALIGNED32; the state WAIT_VALID_BRANCH is never entered by the source.
- Prefetcher: the FIFO in it is the queue that `Fifo` refines, and a word is represented by its address; the memory does not change while it is fetched.
- HwLoopFetch.LoopsRetireOnFetchUnit: an interrupt, its handler and its mret are one branch to the interrupted instruction; the failing families of HwLoopLimits are stated with abstract fetching.
- Controller: PMP errors, the event-load states of the cluster configuration, and hardware-loop states together with debugging are not part of the controller model; the interrupt request is an input there and is modelled in Interrupts.
- Interrupts: user mode, the security variant and the vector table address; the written values of mcause, mepc, dpc are inputs.
- Counters, triggers and the remaining CSRs: independent registers without cross-block behaviour.
- LaneAlu: rounding, clip, min, max, shuffle and pack, which are per-lane selections.
- Shifter: rotation and the normalisation after rounded additions.
- Compressed and full decoder: case tables.
- FPU, PMP, tracer, simulation wrappers and scripts.
