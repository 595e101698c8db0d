# HWPE testbench: a verified model

A Dafny model of the hardware processing engine (HWPE) testbench: the micro-code sequencer and its check, the
fetch path, the multipliers and dividers and the load/store unit of the zero-riscy core, the job queue of the
control slave, the AES reference model, the job state machine of the AES engine, and number printing. Each part
follows its source branch by branch; what the source is for is then proved for all inputs or all runs.

Hardware modules are modelled as a record of registers, a function that gives the registers after one clock,
and a class whose `Clock` method changes them the way the clocked processes do and is proved equal to that
function. Whole-run results quantify over all sequences of inputs that keep to the bus or software protocol
named in a `Legal` predicate.

## The parts

| files | part | main results |
|---|---|---|
| Uloop, UloopMicrocode, UloopCheck | micro-code sequencer and lock-step check | the sequencer is an odometer with an exact number of transitions; the micro-program computes the convolution offsets exactly on the configurations that fit; the error count of the check |
| FetchFifo, PrefetchBuffer | instruction fetch | every run delivers the sequential instruction stream from each branch target, and a prompt memory is never left unused |
| MultDiv, MultDivSlow, MultDivFast, SeqMult | multiply and divide | architectural results after an exact number of clocks; the two units agree; the parametric multiplier is exact |
| LoadStoreUnit | data accesses | every run is a sequence of accesses to a byte-addressed memory |
| CtrlRegfile, CtrlSlave, CtrlProtocol, CtrlLimits | job offload | jobs keep their parameters, run in commit order, and raise one event each; the exact conditions on contexts and registers |
| AesField, AesTables, KeySchedule, BlockCipher, AesFips, Aes | AES model | encryption, tables and key schedule are those of FIPS 197; encryption and decryption are inverse |
| AesFsm | AES jobs | every job raises done once, after an exact number of transitions, having moved exactly its words, each step after the answer it needs |
| TinyPrintf | number printing | canonical digits, reading back, how a field reads |
| Arith, Bytes, Options | shared | powers of two, byte lanes, optional values |

## Where the code departs from what one would expect

- The uloop check assumes that TP divides nif and nof. The micro-program agrees with the loop nest on somewhat
  more: `AgreesIffFits` gives the exact condition, and `Gap` the distance otherwise. With fewer channels than
  TP the generator yields nothing and the check stops with an exception; those configurations are not `Proper`.
- After reset the prefetch buffer fetches from address 4, the word after its cleared address register, so the
  stream before the first branch starts at 4 (`RunOf` in PrefetchBuffer).
- The trigger flag of the control slave is never reset (`TriggerIsSticky`): once a job was triggered, a commit
  without trigger starts as well (`WaitingJobStarts`).
- The flag that selects the parameters the accelerator sees has one bit, whatever the number of contexts. With
  four contexts or more the third job works on the parameters of the first (`ThirdJobSeesFirst`); with two,
  every job sees its own (`SeesOldestExactly`).
- The register file does not check that a contexted register index belongs to a context. `HarmlessExactly` says
  which indices leave other contexts alone; a core that writes one register too far damages a committed job
  (`WriteDamages`), and jobs are safe exactly when cores keep to the registers of one context
  (`JobsSafeExactly`).
- The byte count of the AES state machine wraps for a job of no bytes, which then runs as one of 2^32 bytes
  (`CompleteUnlessEmpty`), and its 16-bit block counter repeats addresses beyond 2^20 bytes
  (`AddressesInOrder`).
- a2u compares with `digit > base`, so it also takes the digit equal to the base (`TakesDigitsOnly`).

## Model

| member | source | states |
|---|---|---|
| Uloop.StateMachine | hwpe-tb/hw/ips/hwpe-ctrl/uloop-example/uloop_common.py:44-104 | One transition with the five branches of the source. The returned index list is the given array, changed in place, except at the end of the micro-program, where it is a new list of zeros. |
| Uloop.ExecuteOp | hwpe-tb/hw/ips/hwpe-ctrl/uloop-example/uloop_common.py:106-113 | One micro-op on a copy of the registers: add or move into one slot, the given registers unchanged. |
| Uloop.GetLoops | hwpe-tb/hw/ips/hwpe-ctrl/uloop-example/uloop_common.py:181-191 | Each loop starts where the ops of the loops before it end: its address is the sum of their op counts. |
| Uloop.RankBounds | hwpe-tb/hw/ips/hwpe-ctrl/uloop-example/uloop_common.py:54-104 | The index vector read as a mixed-radix number stays below the number of tuples, and reaches the last one exactly when every index is at its maximum. |
| Uloop.RankCarry | hwpe-tb/hw/ips/hwpe-ctrl/uloop-example/uloop_common.py:66-68 | Restarting the indices below loop k and advancing index k adds one to that number, whatever k is. |
| Uloop.StepProgress | hwpe-tb/hw/ips/hwpe-ctrl/uloop-example/uloop_common.py:54-104 | Every transition uses up exactly one of the transitions the run still needs, keeps the loops below the current one exhausted, and ends the run only with the last one. |
| Uloop.Odometer | hwpe-tb/hw/ips/hwpe-ctrl/uloop-example/uloop_common.py:54-104 | For all ranges and op counts of at least one: the index vector after n transitions is the digits of the number of non-busy transitions so far, and the end comes at transition sum over k of (R_k-1)*prod_{j>k}R_j*(n_k+k), plus the number of loops, and at no other. |
| Uloop.EveryTupleVisited | hwpe-tb/hw/ips/hwpe-ctrl/uloop-example/uloop_common.py:54-104 | Every tuple in range is reached, and all moments at which it is held share one visit count: no tuple comes back. |
| UloopMicrocode.BodyAdvances | hwpe-tb/hw/ips/hwpe-ctrl/uloop-example/code.yml:46-69 | Running the micro-ops of loop k over exhausted inner loops moves the four offset registers from their closed form at an index vector to the closed form at the next one. |
| UloopMicrocode.Settles | hwpe-tb/hw/ips/hwpe-ctrl/uloop-example/code.yml:46-69 | The micro-ops of a loop leave every register but the four offsets alone and end in the closed form of the advanced index vector. |
| UloopMicrocode.Gap | hwpe-tb/hw/ips/hwpe-ctrl/uloop-example/uloop_check.py:36-40 | How far the W, x and y of the micro-program are from those of the loop nest at every index vector: the channels left over by whole tiles, once per boundary passed. |
| UloopMicrocode.FitsAgree | hwpe-tb/hw/ips/hwpe-ctrl/uloop-example/uloop_check.py:25-42 | When whole tiles cover the channels, or the left-over ones are never passed, micro-program and loop nest give the same W, x and y at every index vector. |
| UloopMicrocode.MisfitDiffers | hwpe-tb/hw/ips/hwpe-ctrl/uloop-example/uloop_check.py:25-42 | In every other configuration an index vector in range is given at which they differ. |
| UloopMicrocode.AgreesIffFits | hwpe-tb/hw/ips/hwpe-ctrl/uloop-example/uloop_check.py:25-42 | The two directions together: the micro-program implements the loop nest exactly on the configurations where TP divides nif (or fs = 1 and there is one output tile) and TP divides nof (or the output is one pixel). |
| UloopCheck.IterateHlLoop | hwpe-tb/hw/ips/hwpe-ctrl/uloop-example/uloop_check.py:25-42 | The six nested loops yield one tuple per odometer position, in odometer order, and nothing else. |
| UloopCheck.RegistersTracked | hwpe-tb/hw/ips/hwpe-ctrl/uloop-example/uloop_check.py:102-107 | In every control state of a run the registers are the closed form at the current index vector plus the micro-ops of the current loop already done. |
| UloopCheck.LockStep | hwpe-tb/hw/ips/hwpe-ctrl/uloop-example/uloop_check.py:102-120 | After any non-busy transition the three offset registers hold the closed form at the tuple with that visit number, and, on the configurations that fit, the tuple the loop nest yields there. |
| UloopCheck.Compare | hwpe-tb/hw/ips/hwpe-ctrl/uloop-example/uloop_check.py:110-120 | One comparison: the generator moves on and the error count grows as the specification says, unless the transition is busy. |
| UloopCheck.Iterate | hwpe-tb/hw/ips/hwpe-ctrl/uloop-example/uloop_check.py:102-120 | One iteration keeps state, registers, generator and error count in step with the specification. |
| UloopCheck.Run | hwpe-tb/hw/ips/hwpe-ctrl/uloop-example/uloop_check.py:88-122 | The main loop with its copied registers and in-place index list: it ends at the first terminating transition or after a million, with the number of comparisons that failed. |
| UloopCheck.ErrorsCount | hwpe-tb/hw/ips/hwpe-ctrl/uloop-example/uloop_check.py:115-120 | The error count after n iterations is zero exactly when micro-program and nest agree on every tuple compared so far. |
| UloopCheck.RunsUntilTotal | hwpe-tb/hw/ips/hwpe-ctrl/uloop-example/uloop_check.py:102-122 | A run that has not met the end has made fewer transitions than the odometer total. |
| UloopCheck.Verdict | hwpe-tb/hw/ips/hwpe-ctrl/uloop-example/uloop_check.py:102-125 | A configuration that fits gives no error; one that gives no error within a run that ends before the bound fits. |
| UloopCheck.Check | hwpe-tb/hw/ips/hwpe-ctrl/uloop-example/uloop_check.py:46-125 | The whole check: zero errors for every configuration that fits, and, when the run ends within the million iterations, for no other. |
| FetchFifo.FifoRegisters.Clock | hwpe-tb/hw/ips/zeroriscy/zeroriscy_fetch_fifo.sv:137-221 | One clock on the three register arrays: clear, push into the first free slot, pop by half a word, a word, or into the next word. |
| FetchFifo.FirstFreeIs | hwpe-tb/hw/ips/zeroriscy/zeroriscy_fetch_fifo.sv:146-157 | The loop with break pushes into the first slot that is not valid. |
| PrefetchBuffer.BufferRegisters.Drives | hwpe-tb/hw/ips/zeroriscy/zeroriscy_prefetch_buffer.sv:112-229 | The case over the four states: request, address, push, address update and next state. |
| PrefetchBuffer.BufferRegisters.Clock | hwpe-tb/hw/ips/zeroriscy/zeroriscy_prefetch_buffer.sv:74-250 | One clock of the buffer: outputs, next state, fetch address, and the FIFO behind it. |
| PrefetchBuffer.OffersInstruction | hwpe-tb/hw/ips/zeroriscy/zeroriscy_fetch_fifo.sv:69-105 | Whatever the FIFO offers is the instruction at the current program counter: its address, and its 16 or 32 bits, also when they span two words. |
| PrefetchBuffer.FifoAdvances | hwpe-tb/hw/ips/zeroriscy/zeroriscy_fetch_fifo.sv:137-195 | Across one clock the FIFO goes on holding the consecutive memory words from the new program counter; when it drains, that counter is word-aligned unless nothing was taken. |
| PrefetchBuffer.NeverLosesAWord | hwpe-tb/hw/ips/zeroriscy/zeroriscy_fetch_fifo.sv:227-228 | Words held plus words requested or outstanding are at most three, so a word that arrives finds a free slot; and a word that arrives at an empty FIFO is the one of the current program counter. |
| PrefetchBuffer.BranchKeeps | hwpe-tb/hw/ips/zeroriscy/zeroriscy_prefetch_buffer.sv:120-221 | A branch in any state, with a fetch idle, waiting, outstanding or aborted, leaves the buffer tracking the branch target. |
| PrefetchBuffer.FetchKeeps | hwpe-tb/hw/ips/zeroriscy/zeroriscy_prefetch_buffer.sv:120-221 | A cycle without a branch keeps the buffer tracking the program counter, for every grant and response. |
| PrefetchBuffer.GetsCloser | hwpe-tb/hw/ips/zeroriscy/zeroriscy_prefetch_buffer.sv:120-221 | With a memory that grants and answers at once, every cycle in which no instruction is offered brings the next one closer. |
| PrefetchBuffer.Served | hwpe-tb/hw/ips/zeroriscy/zeroriscy_prefetch_buffer.sv:120-221 | So from every reachable state the instruction at the program counter is offered within three such cycles. |
| PrefetchBuffer.RequestIgnoresGrant | hwpe-tb/hw/ips/zeroriscy/zeroriscy_prefetch_buffer.sv:112-229 | Request and address do not depend on the grant. |
| PrefetchBuffer.OfferedIsDelivered | hwpe-tb/hw/ips/zeroriscy/zeroriscy_fetch_fifo.sv:69-105 | What the FIFO takes for an instruction is the one of section 1.5 of the ISA: four bytes when bits 0 and 1 of the first parcel are both set, otherwise two. |
| PrefetchBuffer.EveryRunDelivers | hwpe-tb/hw/ips/zeroriscy/zeroriscy_prefetch_buffer.sv:112-250 | In every legal run, for any memory latency and any aborted fetches, the instructions taken between two branches are the sequential parse of memory from the branch target by the lengths of the ISA, with their addresses and bits. |
| AluAdder.Subtracts | hwpe-tb/hw/ips/zeroriscy/zeroriscy_alu.sv:97-108 | With a negated second operand and a one behind both operands the 34-bit adder gives the difference, and its zero test compares. |
| MultDiv.TruncatingDivision | hwpe-tb/hw/ips/zeroriscy/zeroriscy_multdiv_slow.sv:263-284 | The specification of quotient and remainder: they are the one pair with x = q*y + r where r is smaller than y in magnitude and has the sign of x. |
| MultDiv.SignedIs | hwpe-tb/hw/ips/zeroriscy/zeroriscy_multdiv_slow.sv:154-155 | An operand stands for exactly one integer: the one with its bits that lies in the signed or unsigned range of its mode. |
| MultDiv.Architectural | hwpe-tb/hw/ips/zeroriscy/zeroriscy_multdiv_slow.sv:263-284 | The result in terms of those integers: low or high word of their product, truncating quotient or remainder, and the values for a zero divisor. |
| MultDiv.SpecialCases | hwpe-tb/hw/ips/zeroriscy/zeroriscy_multdiv_slow.sv:193-205 | Division by zero gives all ones and the dividend; the most negative number over minus one gives itself and zero. |
| MultDiv.DivisionStep | hwpe-tb/hw/ips/zeroriscy/zeroriscy_multdiv_slow.sv:134-145 | One restoring step on numbers: the window never outgrows the numerator bits seen so far, and compare, subtract and set bit extend quotient and remainder by one bit. |
| MultDiv.ComparesUnsigned | hwpe-tb/hw/ips/zeroriscy/zeroriscy_multdiv_slow.sv:134-140 | The comparator, which looks at the top bits or at the sign of the difference, is unsigned greater-or-equal. |
| MultDivSlow.SlowRegisters.Clock | hwpe-tb/hw/ips/zeroriscy/zeroriscy_multdiv_slow.sv:70-297 | One clock of the small unit, with its enables: result, ready, and the shift registers, counter and state. |
| MultDivSlow.LowStep | hwpe-tb/hw/ips/zeroriscy/zeroriscy_multdiv_slow.sv:229-233 | A clock of the low product adds the shifted multiplicand or nothing, modulo 2^32. |
| MultDivSlow.HighStep | hwpe-tb/hw/ips/zeroriscy/zeroriscy_multdiv_slow.sv:234-239 | A clock of the high product adds the inverted partial product to the window and shifts it right. |
| MultDivSlow.WindowSlides | hwpe-tb/hw/ips/zeroriscy/zeroriscy_multdiv_slow.sv:149-152 | The window after k+1 multiplier bits is the floor of the summed partial products over 2^(k+1). |
| MultDivSlow.InvertedPartialProducts | hwpe-tb/hw/ips/zeroriscy/zeroriscy_multdiv_slow.sv:149-152 | The partial products with inverted sign bit, and the last one with the other bits inverted, are the signed products plus a constant. |
| MultDivSlow.HighOutput | hwpe-tb/hw/ips/zeroriscy/zeroriscy_multdiv_slow.sv:259-262 | The last addition cancels the injected constants: the output is floor(A*B / 2^32) mod 2^32 in every signedness. |
| MultDivSlow.Dividing | hwpe-tb/hw/ips/zeroriscy/zeroriscy_multdiv_slow.sv:225-250 | After every clock of the loop the registers hold the quotient bits found, and the remainder with the next numerator bit. |
| MultDivSlow.Phases | hwpe-tb/hw/ips/zeroriscy/zeroriscy_multdiv_slow.sv:177-291 | Which state the unit is in at every clock of every request. |
| MultDivSlow.Computes | hwpe-tb/hw/ips/zeroriscy/zeroriscy_multdiv_slow.sv:176-297 | Every request, held stable, is answered with its architectural result after 32, 36 or (for division by zero) 1 clocks, not earlier, and the unit is idle again one clock later. |
| MultDivFast.FastRegisters.MultFsm | hwpe-tb/hw/ips/zeroriscy/zeroriscy_multdiv_fast.sv:252-336 | The multiplier states: which halves are multiplied, what is accumulated, and when it is ready. |
| MultDivFast.FastRegisters.DivFsm | hwpe-tb/hw/ips/zeroriscy/zeroriscy_multdiv_fast.sv:143-249 | The division states over the shared result register. |
| MultDivFast.FastRegisters.Clock | hwpe-tb/hw/ips/zeroriscy/zeroriscy_multdiv_fast.sv:74-107 | One clock of the large unit, with its enables: result, ready and all registers. |
| MultDivFast.LongMultiplication | hwpe-tb/hw/ips/zeroriscy/zeroriscy_multdiv_fast.sv:263-332 | The three or four partial sums of 16-bit halves make up the full product: its high word, and its low word digit by digit. |
| MultDivFast.NeverOverflows | hwpe-tb/hw/ips/zeroriscy/zeroriscy_multdiv_fast.sv:113-114 | At every step of every multiplication the sum fits the signed 34-bit accumulator, so the kernel is exact. |
| MultDivFast.MacIsSum | hwpe-tb/hw/ips/zeroriscy/zeroriscy_multdiv_fast.sv:263-332 | What the kernel computes in each state is the exact partial sum, or its low digit. |
| MultDivFast.Dividing | hwpe-tb/hw/ips/zeroriscy/zeroriscy_multdiv_fast.sv:200-211 | The loop invariant of the division, over the large unit's registers. |
| MultDivFast.Computes | hwpe-tb/hw/ips/zeroriscy/zeroriscy_multdiv_fast.sv:74-336 | Every request is answered with its architectural result after 2, 3, 36 or 1 clocks, not earlier, and the unit is at rest one clock later. |
| MultDivFast.AgreesWithSlow | hwpe-tb/hw/ips/zeroriscy/zeroriscy_multdiv_fast.sv:251-336 | Both units give the same answer to every request, and the large one is never slower. |
| SeqMult.Multiplier.Clock | hwpe-tb/hw/ips/hwpe-ctrl/rtl/hwpe_ctrl_seq_mult.sv:43-88 | One clock of counter, flags and product, for operands of any widths. |
| SeqMult.AddsPartialProduct | hwpe-tb/hw/ips/hwpe-ctrl/rtl/hwpe_ctrl_seq_mult.sv:69-87 | A clock while busy adds the next partial product without overflowing the register. |
| SeqMult.EveryRunMultiplies | hwpe-tb/hw/ips/hwpe-ctrl/rtl/hwpe_ctrl_seq_mult.sv:43-88 | For all widths with AW at least 2: after a start, at clock n the register holds (a mod 2^n)*b; from clock AW (AW+1 when inverted) on it holds a*b, or 2^(AW+BW) - a*b, valid until the next start or clear, whatever the operands become. |
| SeqMult.ClearRestarts | hwpe-tb/hw/ips/hwpe-ctrl/rtl/hwpe_ctrl_seq_mult.sv:43-88 | A clear, whatever the unit was doing, leaves the registers as after reset, and the next start multiplies. |
| SeqMult.InvertedIsNegated | hwpe-tb/hw/ips/hwpe-ctrl/rtl/hwpe_ctrl_seq_mult.sv:82-84 | An inverted result is the two's complement of the plain one. |
| LoadStoreUnit.LsuRegisters.Drives | hwpe-tb/hw/ips/zeroriscy/zeroriscy_load_store_unit.sv:346-448 | The case over the five states: request, update, address increase, valid, next state. |
| LoadStoreUnit.LsuRegisters.Clock | hwpe-tb/hw/ips/zeroriscy/zeroriscy_load_store_unit.sv:94-475 | One clock of the unit: bus outputs, register-file data and all registers. |
| LoadStoreUnit.EnabledLanes | hwpe-tb/hw/ips/zeroriscy/zeroriscy_load_store_unit.sv:94-147 | The byte enables of either access are the bytes of the request that lie in its word. |
| LoadStoreUnit.StoreLane | hwpe-tb/hw/ips/zeroriscy/zeroriscy_load_store_unit.sv:149-161 | The rotated store data puts into each lane the register byte at its distance from the first address. |
| LoadStoreUnit.StoresOneBeat | hwpe-tb/hw/ips/zeroriscy/zeroriscy_load_store_unit.sv:94-161 | An aligned store changes memory exactly as a byte-addressed store does. |
| LoadStoreUnit.StoresTwoBeats | hwpe-tb/hw/ips/zeroriscy/zeroriscy_load_store_unit.sv:94-161 | A misaligned store in two accesses, the second four bytes on and wrapping at 2^32, changes memory exactly as a byte-addressed store does. |
| LoadStoreUnit.LoadsBytes | hwpe-tb/hw/ips/zeroriscy/zeroriscy_load_store_unit.sv:199-293 | Reassembly and sign extension give the number that a byte-addressed load reads, modulo 2^32 and in two's complement when it is signed, at every offset and size. |
| LoadStoreUnit.FirstGrant | hwpe-tb/hw/ips/zeroriscy/zeroriscy_load_store_unit.sv:361-383 | The grant of the first access, at once or after waiting. |
| LoadStoreUnit.SecondGrant | hwpe-tb/hw/ips/zeroriscy/zeroriscy_load_store_unit.sv:386-428 | The grant of the second access, with the first response or later. |
| LoadStoreUnit.Completes | hwpe-tb/hw/ips/zeroriscy/zeroriscy_load_store_unit.sv:430-441 | The last response completes the access with the effect, the result and the number of bus accesses of its request. |
| LoadStoreUnit.NeverStuck | hwpe-tb/hw/ips/zeroriscy/zeroriscy_load_store_unit.sv:346-448 | While there is a request the unit requests, whatever the grant, or is owed a response, and each grant and response moves it on. |
| LoadStoreUnit.PromptOneBeat | hwpe-tb/hw/ips/zeroriscy/zeroriscy_load_store_unit.sv:346-448 | With a memory that grants at once and answers in the next cycle, an access to one word completes in its second cycle. |
| LoadStoreUnit.PromptTwoBeats | hwpe-tb/hw/ips/zeroriscy/zeroriscy_load_store_unit.sv:346-448 | And an access to two words in its third. |
| LoadStoreUnit.EveryRunIsByteAddressed | hwpe-tb/hw/ips/zeroriscy/zeroriscy_load_store_unit.sv:297-475 | In every legal run, for any grant and response timing, the completed loads and stores are those of a byte-addressed memory in order, each in one or two bus accesses, and between accesses the bus memory is that memory. |
| CtrlRegfile.RegfileRegisters.Clock | hwpe-tb/hw/ips/hwpe-ctrl/rtl/hwpe_ctrl_regfile.sv:198-261 | One clock of the register file: job counter with its clear, acquire response, and storage with byte enables and clear. |
| CtrlRegfile.WriteChanges | hwpe-tb/hw/ips/hwpe-ctrl/rtl/hwpe_ctrl_regfile.sv:132-134 | A write changes the parameters of exactly the context whose storage it hits, in one register and under its byte enables. |
| CtrlRegfile.OwnContextOnly | hwpe-tb/hw/ips/hwpe-ctrl/rtl/hwpe_ctrl_regfile.sv:167-174 | A write to a register index of the current context lands there and in no other context. |
| CtrlRegfile.GenericHitsNone | hwpe-tb/hw/ips/hwpe-ctrl/rtl/hwpe_ctrl_regfile.sv:174-177 | A write to a generic register hits no context. |
| CtrlRegfile.HarmlessExactly | hwpe-tb/hw/ips/hwpe-ctrl/rtl/hwpe_ctrl_regfile.sv:170-173 | The exact condition on register index, context pointer, context size and storage size under which a write leaves every other context alone. |
| CtrlRegfile.HarmlessInOrder | hwpe-tb/hw/ips/hwpe-ctrl/rtl/hwpe_ctrl_regfile.sv:170-173 | While the storage address does not wrap, the damaging indices are exactly those from the end of the current context to the end of the last one. |
| CtrlSlave.SlaveRegisters.ClockEvents | hwpe-tb/hw/ips/hwpe-ctrl/rtl/hwpe_ctrl_slave.sv:395-396 | The done event goes to the core recorded for the running context, and to no other. |
| CtrlSlave.SlaveRegisters.ClockOwnEvents | hwpe-tb/hw/ips/hwpe-ctrl/rtl/hwpe_ctrl_slave.sv:393-394 | So does the event the accelerator raises itself. |
| CtrlSlave.SlaveRegisters.ClockOffloader | hwpe-tb/hw/ips/hwpe-ctrl/rtl/hwpe_ctrl_slave.sv:104-119 | A commit records the highest requesting core for the current context. |
| CtrlSlave.RequesterIsHighest | hwpe-tb/hw/ips/hwpe-ctrl/rtl/hwpe_ctrl_slave.sv:114-116 | The loop over the identifier keeps the highest numbered core whose bit is set. |
| CtrlSlave.SlaveRegisters.Running | hwpe-tb/hw/ips/hwpe-ctrl/rtl/hwpe_ctrl_slave.sv:296-347 | The running state machine with its start strobe and working flag. |
| CtrlSlave.SlaveRegisters.ClockRing | hwpe-tb/hw/ips/hwpe-ctrl/rtl/hwpe_ctrl_slave.sv:122-158 | Context pointer, running context and pending counter, with their clear. |
| CtrlSlave.SlaveRegisters.ClockClear | hwpe-tb/hw/ips/hwpe-ctrl/rtl/hwpe_ctrl_slave.sv:416-445 | The two soft clear counters and the clears they raise: any write for the slave, a write of zero for the register file. |
| CtrlSlave.SlaveRegisters.ClockContext | hwpe-tb/hw/ips/hwpe-ctrl/rtl/hwpe_ctrl_slave.sv:350-384 | The critical section between a successful acquire and a commit. |
| CtrlSlave.SlaveRegisters.Clock | hwpe-tb/hw/ips/hwpe-ctrl/rtl/hwpe_ctrl_slave.sv:71-445 | One clock of the slave, soft clear and register file included. |
| CtrlProtocol.ReadsBus | hwpe-tb/hw/ips/hwpe-ctrl/rtl/hwpe_ctrl_slave.sv:192-202 | The slave reads bus accesses by the register map: which register commits, triggers, acquires, clears or holds parameters. |
| Bytes.MergedLane | hwpe-tb/hw/ips/hwpe-ctrl/rtl/hwpe_ctrl_regfile.sv:194-195 | A write changes the enabled byte lanes of its register and no other. |
| CtrlProtocol.AcquireSucceeds | hwpe-tb/hw/ips/hwpe-ctrl/rtl/hwpe_ctrl_regfile.sv:240-253 | An acquire is answered with a job id exactly when no core is between acquire and commit and a context is free; otherwise with -2 or -1. The n-th id is n modulo 256. |
| CtrlProtocol.OthersUntouched | hwpe-tb/hw/ips/hwpe-ctrl/rtl/hwpe_ctrl_slave.sv:207-221 | A legal write leaves the parameters of every context alone except the acquired one. |
| CtrlProtocol.OldJobKept | hwpe-tb/hw/ips/hwpe-ctrl/rtl/hwpe_ctrl_slave.sv:122-160 | A waiting or running job keeps its place, its core and its parameters across every cycle. |
| CtrlProtocol.NewJobKept | hwpe-tb/hw/ips/hwpe-ctrl/rtl/hwpe_ctrl_slave.sv:104-119 | A commit enters the job with the committing core and the parameters that core wrote. |
| CtrlProtocol.TriggerIsSticky | hwpe-tb/hw/ips/hwpe-ctrl/rtl/hwpe_ctrl_slave.sv:82-95 | The condition that would reset the trigger flag never holds, so the flag stays set once a trigger was written. |
| CtrlProtocol.PulseIs | hwpe-tb/hw/ips/hwpe-ctrl/rtl/hwpe_ctrl_slave.sv:386-398 | The event register pulses exactly once when a job is done, on the core that committed it, even when others committed in between; events of the accelerator go to the core of the oldest unfinished job. |
| CtrlProtocol.CycleKeeps | hwpe-tb/hw/ips/hwpe-ctrl/rtl/hwpe_ctrl_slave.sv:71-398 | Every cycle that keeps to the protocol keeps ring, critical section, jobs, running state, ids and logs consistent. |
| CtrlProtocol.EveryRunKeepsJobs | hwpe-tb/hw/ips/hwpe-ctrl/rtl/hwpe_ctrl_slave.sv:71-398 | In every run of such cycles: commits are the finished jobs followed by those in the ring, one acquire is open at most, every job keeps the parameters its core wrote, each finished job was started once and raised one event on its core. |
| CtrlProtocol.SoftClearRestarts | hwpe-tb/hw/ips/hwpe-ctrl/rtl/hwpe_ctrl_slave.sv:416-445 | Four quiet cycles after a soft clear, in whatever state it came unless another is under way, the slave is empty and the cycles that follow are a run of their own; a write of zero has cleared parameters and job ids, any other has kept them. |
| CtrlProtocol.RunsOldestCommit | hwpe-tb/hw/ips/hwpe-ctrl/rtl/hwpe_ctrl_slave.sv:133-144 | While the accelerator works, the running context holds the parameters of the oldest unfinished commit, as written, and its core. |
| CtrlLimits.SeesOldestExactly | hwpe-tb/hw/ips/hwpe-ctrl/rtl/hwpe_ctrl_regfile.sv:397 | Those are the parameters the accelerator sees, in all legal runs, exactly when there are two contexts: the flag that selects them has one bit (hwpe_ctrl_package.sv:79). |
| CtrlLimits.ThirdJobSeesFirst | hwpe-tb/hw/ips/hwpe-ctrl/rtl/hwpe_ctrl_regfile.sv:397 | The failing run, for every layout of four contexts or more: of three jobs committed with a, b and c in their first parameter, the third works while a is what the accelerator sees. |
| CtrlLimits.JobsSafeExactly | hwpe-tb/hw/ips/hwpe-ctrl/rtl/hwpe_ctrl_regfile.sv:170-173 | Jobs stay as committed in all runs in which cores write registers below some limit exactly when the limit is that of one context. |
| CtrlLimits.WriteDamages | hwpe-tb/hw/ips/hwpe-ctrl/rtl/hwpe_ctrl_regfile.sv:170-173 | The failing step: a job sits in context 1 and core 0 owns context 0; a write of the register behind its own changes the parameters of the job. |
| CtrlProtocol.PendingCountsJobs | hwpe-tb/hw/ips/hwpe-ctrl/rtl/hwpe_ctrl_slave.sv:145-160 | Commits minus dones is the pending counter, between 0 and the number of contexts, and pointer = running + pending modulo that number. |
| CtrlProtocol.WaitingJobStarts | hwpe-tb/hw/ips/hwpe-ctrl/rtl/hwpe_ctrl_slave.sv:310-321 | A waiting job starts exactly when a trigger was ever written: later commits without a trigger start too. |
| CtrlProtocol.IdleJobStarts | hwpe-tb/hw/ips/hwpe-ctrl/rtl/hwpe_ctrl_slave.sv:308-338 | A free accelerator with a triggered job is started after two clocks, by the oldest job and with its committed parameters, whatever is offloaded meanwhile, with a strobe of one clock. |
| CtrlProtocol.NextJobFollows | hwpe-tb/hw/ips/hwpe-ctrl/rtl/hwpe_ctrl_slave.sv:308-338 | Two clocks after the one in which a job is done, the next job of the queue is started with its parameters. |
| AesTables.SboxIsAffineInverse | hwpe-tb/hw/ips/aes/src/model/python/aes.py:59-90 | Every entry of the S-box is the affine image of the multiplicative inverse in GF(2^8), as in section 5.1.1 of FIPS 197. |
| AesTables.InverseOfSbox | hwpe-tb/hw/ips/aes/src/model/python/aes.py:93-124 | The second table undoes the first. |
| AesTables.SboxOfInverse | hwpe-tb/hw/ips/aes/src/model/python/aes.py:93-124 | The first table undoes the second. |
| AesField.BytesOfWord | hwpe-tb/hw/ips/aes/src/model/python/aes.py:199-213 | Taking a word apart gives the bytes it was made of. |
| AesField.WordOfBytes | hwpe-tb/hw/ips/aes/src/model/python/aes.py:199-213 | Putting the bytes of a word together gives the word. |
| AesField.MultipliesInField | hwpe-tb/hw/ips/aes/src/model/python/aes.py:221-249 | gm2, gm3, gm4 and gm8 are multiplication in GF(2^8) by 2, 3, 4 and 8. |
| AesField.InverseFactorsMultiplyInField | hwpe-tb/hw/ips/aes/src/model/python/aes.py:257-285 | gm09, gm11, gm13 and gm14 are multiplication by 9, 11, 13 and 14. |
| AesField.MixwIsMatrix | hwpe-tb/hw/ips/aes/src/model/python/aes.py:540-548 | mixw multiplies the column by the matrix of section 5.1.3. |
| AesField.InvMixwUndoes | hwpe-tb/hw/ips/aes/src/model/python/aes.py:671-679 | inv_mixw undoes mixw on every word. |
| AesField.MixwUndoes | hwpe-tb/hw/ips/aes/src/model/python/aes.py:540-548 | mixw undoes inv_mixw on every word. |
| Aes.SubBytesInverts | hwpe-tb/hw/ips/aes/src/model/python/aes.py:580-592 | Substitution by one of two inverse tables undoes substitution by the other. |
| Aes.ShiftRowsMoves | hwpe-tb/hw/ips/aes/src/model/python/aes.py:600-621 | shiftrows moves row r of the state r places to the left. |
| Aes.ShiftRowsInverts | hwpe-tb/hw/ips/aes/src/model/python/aes.py:711-732 | inv_shiftrows undoes shiftrows. |
| Aes.InvShiftRowsInverts | hwpe-tb/hw/ips/aes/src/model/python/aes.py:600-621 | shiftrows undoes inv_shiftrows. |
| Aes.MixColumnsInverts | hwpe-tb/hw/ips/aes/src/model/python/aes.py:687-703 | The two column mixings undo each other. |
| Aes.AddRoundKeyInverts | hwpe-tb/hw/ips/aes/src/model/python/aes.py:519-532 | Adding a round key twice does nothing. |
| Aes.RconIsPower | hwpe-tb/hw/ips/aes/src/model/python/aes.py:504-510 | get_rcon(i) is x^(i-1) in GF(2^8), for every i from 1 on. |
| Aes.GetRcon | hwpe-tb/hw/ips/aes/src/model/python/aes.py:504-510 | The loop of get_rcon. |
| Aes.KeyOpsAreFips | hwpe-tb/hw/ips/aes/src/model/python/aes.py:352-357 | Rotating, substituting and adding the shifted constant is RotWord, SubWord and the round constant of section 5.2, written on bytes. |
| AesState.StepsAt | hwpe-tb/hw/ips/aes/src/model/python/aes.py:519-621 | The four steps of the reference cipher by row and column, as section 5.1 writes them. |
| Aes.SubBytesIsFips | hwpe-tb/hw/ips/aes/src/model/python/aes.py:580-592 | Substitution is that of section 5.1.1 on every byte of the state. |
| Aes.ShiftRowsIsFips | hwpe-tb/hw/ips/aes/src/model/python/aes.py:600-621 | shiftrows is that of section 5.1.2. |
| Aes.MixColumnsIsFips | hwpe-tb/hw/ips/aes/src/model/python/aes.py:556-572 | mixcolumns is that of section 5.1.3. |
| Aes.AddRoundKeyIsFips | hwpe-tb/hw/ips/aes/src/model/python/aes.py:519-532 | addroundkey is that of section 5.1.4. |
| Aes.CipherIsFips | hwpe-tb/hw/ips/aes/src/model/python/aes.py:630-663 | Initial key addition, main rounds and final round are the cipher of section 5.1, for any list of round keys. |
| Aes.EncipherIsFips | hwpe-tb/hw/ips/aes/src/model/python/aes.py:630-663 | For every key of 4 or 8 words and every block, encryption is the cipher of section 5.1 in 10 or 14 rounds with the round keys of section 5.2. |
| KeySchedule.RunningSums | hwpe-tb/hw/ips/aes/src/model/python/aes.py:359-362 | The running sums of four words satisfy the one-word recurrence of section 5.2, of which only the first word uses the schedule. |
| KeySchedule.KeysExpand | hwpe-tb/hw/ips/aes/src/model/python/aes.py:380-495 | The round keys made four words at a time satisfy the recurrence, word by word, for 4-word and 8-word keys. |
| KeySchedule.ExpansionUnique | hwpe-tb/hw/ips/aes/src/model/python/aes.py:380-495 | The recurrence determines the round keys: no other list of that length satisfies it. |
| KeySchedule.KeyGen128 | hwpe-tb/hw/ips/aes/src/model/python/aes.py:380-399 | The loop of key_gen128 gives the 11 round keys. |
| KeySchedule.KeyGen256 | hwpe-tb/hw/ips/aes/src/model/python/aes.py:465-495 | The loop of key_gen256, with its alternating algorithms and final key, gives the 15 round keys. |
| Aes.RoundKeysExpand | hwpe-tb/hw/ips/aes/src/model/python/aes.py:380-495 | For every 4-word or 8-word key the round keys are those of section 5.2 of FIPS 197, with RotWord, SubWord and powers of x as round constants. |
| BlockCipher.Retrace | hwpe-tb/hw/ips/aes/src/model/python/aes.py:779-787 | With the round keys in reverse order the inverse rounds retrace the rounds, last one first. |
| BlockCipher.RetraceBack | hwpe-tb/hw/ips/aes/src/model/python/aes.py:646-654 | The rounds retrace the inverse rounds. |
| BlockCipher.RunRounds | hwpe-tb/hw/ips/aes/src/model/python/aes.py:646-654 | The loop of main rounds. |
| BlockCipher.RunInvRounds | hwpe-tb/hw/ips/aes/src/model/python/aes.py:779-787 | The loop of inverse main rounds. |
| Aes.InvCipherUndoes | hwpe-tb/hw/ips/aes/src/model/python/aes.py:761-793 | Decryption undoes encryption for any list of round keys. |
| Aes.CipherUndoes | hwpe-tb/hw/ips/aes/src/model/python/aes.py:630-663 | Encryption undoes decryption for any list of round keys. |
| Aes.AES.EncipherBlock | hwpe-tb/hw/ips/aes/src/model/python/aes.py:630-663 | The loop of rounds over the expanded key gives what FIPS 197 gives; no value for a key that is neither 4 nor 8 words. |
| Aes.AES.DecipherBlock | hwpe-tb/hw/ips/aes/src/model/python/aes.py:761-793 | The inverse cipher over the same round keys. |
| Aes.DecipherUndoesEncipher | hwpe-tb/hw/ips/aes/src/model/python/aes.py:761-793 | With the tables of the model, decrypting an encrypted block gives it back, for every key and block. |
| Aes.EncipherUndoesDecipher | hwpe-tb/hw/ips/aes/src/model/python/aes.py:630-663 | And the other way round. |
| AesFsm.FsmRegisters.Clock | hwpe-tb/hw/ips/hwpe-aes-engine/rtl/aes_fsm.sv:50-289 | One clock: next state, counters, the byte count updated within the cycle, addresses, and the signals to engine, streamers and slave. |
| AesFsm.CountsDown | hwpe-tb/hw/ips/hwpe-aes-engine/rtl/aes_fsm.sv:241-251 | A fetched word takes four bytes off the count, or what is left. |
| AesFsm.AddressIs | hwpe-tb/hw/ips/hwpe-aes-engine/rtl/aes_fsm.sv:319-340 | The address on either streamer is the one of the next word in order. |
| AesFsm.StateKeeps | hwpe-tb/hw/ips/hwpe-aes-engine/rtl/aes_fsm.sv:99-192 | In every state the counters and what was moved match a number of finished blocks. |
| AesFsm.EveryRunCompletesJobs | hwpe-tb/hw/ips/hwpe-aes-engine/rtl/aes_fsm.sv:50-289 | In every run without clear the accepted jobs raise done in one cycle each, in order, except the one at work; each job of L >= 1 bytes that is done has fetched and received ceil(L/4) words, and for each of ceil(L/16) blocks has one answered core start, four words written and marked valid in address order, and one clear. |
| AesFsm.EveryRunInOrder | hwpe-tb/hw/ips/hwpe-aes-engine/rtl/aes_fsm.sv:99-192 | At every cycle: nothing is fetched before the core was ready twice for the key, no core start precedes the words of its block, no word is written before the core has answered the start of its block, and no block begins before the one before it is written. |
| AesFsm.ClearRestarts | hwpe-tb/hw/ips/hwpe-aes-engine/rtl/aes_fsm.sv:50-289 | A clear in any state drops the job, and the cycles that follow are a run of their own. |
| AesFsm.CompleteUnlessEmpty | hwpe-tb/hw/ips/hwpe-aes-engine/rtl/aes_fsm.sv:241-251 | A job that is done has moved the bytes of its length exactly when there are any: an empty job has fetched 2^30 words. |
| AesFsm.JobTakes | hwpe-tb/hw/ips/hwpe-aes-engine/rtl/aes_fsm.sv:99-192 | A job that has just begun raises done with transition number 3 + 2*ceil(L/4) + 15*ceil(L/16), however late slave, core and streamers answer, and not before. |
| AesFsm.EveryJobEnds | hwpe-tb/hw/ips/hwpe-aes-engine/rtl/aes_fsm.sv:99-192 | From any point of a job its done comes within that many transitions. |
| AesFsm.NeverTooMuch | hwpe-tb/hw/ips/hwpe-aes-engine/rtl/aes_fsm.sv:99-192 | At no time has a job fetched or written more than the words of its bytes, or of 2^32 bytes if it is empty. |
| AesFsm.WorkShrinks | hwpe-tb/hw/ips/hwpe-aes-engine/rtl/aes_fsm.sv:99-192 | Every cycle of a job either waits for slave, core or streamer and stays where it is, or is one of the transitions that are left. |
| AesFsm.AddressesInOrder | hwpe-tb/hw/ips/hwpe-aes-engine/rtl/aes_fsm.sv:319-340 | Those addresses are base, base+4, base+8, ... modulo 2^32 exactly when L is at most 2^20, because the block counter has 16 bits. |
| AesFsm.CountsDownExactly | hwpe-tb/hw/ips/hwpe-aes-engine/rtl/aes_fsm.sv:241-251 | The byte count goes down by four, stopping at zero, exactly when it was not zero: for an empty job it wraps around. |
| TinyPrintf.TopPower | hwpe-tb/sw/tinyprintf.h:326-329 | The first loop finds the power of the base with one digit above it; d never overflows. |
| TinyPrintf.PutDigit | hwpe-tb/sw/tinyprintf.h:330-338 | One turn of the second loop: the next digit, or nothing while only zeros were seen. |
| TinyPrintf.Ui2a | hwpe-tb/sw/tinyprintf.h:323-340 | For every 32-bit number and base 8 to 16 the buffer holds the canonical digits and the end of the string, in at most twelve characters, and is otherwise unchanged. |
| TinyPrintf.NoLeadingZero | hwpe-tb/sw/tinyprintf.h:334-337 | The digits start with 0 only for the number 0. |
| TinyPrintf.FitsBuffer | hwpe-tb/sw/tinyprintf.h:437 | Eleven digits and the end of the string always suffice. |
| TinyPrintf.DigitCharIs | hwpe-tb/sw/tinyprintf.h:335 | The character of a digit is the one of the hexadecimal alphabet in the case asked for. |
| TinyPrintf.A2dInverts | hwpe-tb/sw/tinyprintf.h:344-354 | a2d is the inverse of that alphabet in either case and takes nothing else. |
| TinyPrintf.A2u | hwpe-tb/sw/tinyprintf.h:363-377 | Reads the longest run of characters it takes, modulo 2^32, and returns the first one it does not take and the position behind it. |
| TinyPrintf.ReadsBack | hwpe-tb/sw/tinyprintf.h:363-377 | a2u reads back what ui2a writes, for every 32-bit number: it stops behind the digits exactly when it does not take the character there, and then has the number. |
| TinyPrintf.PrintAndRead | hwpe-tb/sw/tinyprintf.h:323-377 | Printing into a buffer and reading from it gives the number back and stops at the end of the string. |
| TinyPrintf.TakesDigitsOnly | hwpe-tb/sw/tinyprintf.h:368-371 | a2u stops where the digits of the base stop exactly when the first other character is not the digit equal to the base. |
| TinyPrintf.TakesTen | hwpe-tb/sw/tinyprintf.h:369 | In base 10 it takes 1a as 20. |
| TinyPrintf.Putchw | hwpe-tb/sw/tinyprintf.h:379-429 | The characters put are filling, sign, prefix, zeros, text and filling, in that order. |
| TinyPrintf.FieldLength | hwpe-tb/sw/tinyprintf.h:385-428 | Their number is the larger of the width and of digits, sign and prefix, for every width from 0 to 2^31-1. |
| TinyPrintf.FieldReads | hwpe-tb/sw/tinyprintf.h:385-428 | With leading zeros the sign and the base mark come first and the zeros stand before the digits; to the left the blanks come last; otherwise they come first. |

## Left out

- Reset in the middle of a run. Runs of the control slave start when its enable flag rises, after the strobe that
  clears the parameter storage, or when a soft clear is over; a soft clear ends them, as a clear ends those of
  the AES state machine.
- Verbose output, YAML loading and the byte-code packing of the uloop tools; code.yml is a constant. The
  hardware version of the sequencer, with its busy handshake, is not part of this model.
- Integers are unbounded in the uloop model, as in its Python source.
- `out_valid_stored` of the fetch FIFO, which the prefetch buffer does not use, and the busy outputs.
- The rest of the zero-riscy core: decoder and ALU beyond the shared adder, controller, CSRs, debug unit,
  tracer. Requests to the multiplier, the divider and the load/store unit are held stable until answered, as
  the core does.
- Memory responses with errors: the load/store unit ignores them. Instruction memory does not change during a
  run, and data memory changes only through the unit.
- CtrlRegfile.RegfileRegisters.Clock: reads other than an acquire, and with them the status, running and finished
  registers; the latch structure of the storage (a write shows after one clock).
- CtrlSlave.SlaveRegisters.Clock: software events, the extension port and the enable delay, which nothing modelled
  here depends on.
- The control slave with a single context, and with a number of contexts that is not a power of two.
- CtrlRegfile.Slots: the eight generic registers and eight mandatory ones of the instances in this repository;
  other register layouts are not modelled.
- The C driver, which writes job registers before it acquires and so does not keep to the protocol.
- The AES core in hardware and the streamers: their ready and done flags are inputs of the state machine, and
  AES addresses are those it hands to the streamers.
- aes.py: printing, test vectors, and the key-expansion scripts beside it.
- Keys of other lengths: EncipherBlock and DecipherBlock give no value where the model raises an exception.
- tinyprintf beyond digits and fields: format parsing, the long and long long variants, which repeat the code
  with wider types, and negative numbers. Output is the sequence of characters put.
