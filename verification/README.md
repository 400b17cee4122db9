# Verified model of the simulator

The repository is an instruction-set simulator for RISC-V with a tree ORAM, a cache hierarchy and the
cycle-accurate DRAM simulator DRAMSim2 behind it, and with a software floating-point library. This project
models the parts whose correctness is spread over several functions, and proves the following.

* **DRAM.** The memory controller and the ranks each keep their own table of bank states and talk over a bus
  that carries one command. `DramBank` to `DramSystem` describe one call of update as a function of the state;
  the classes `Rank`, `CommandQueue`, `MemoryController` and `MemorySystem` do the same in place, and every
  method is proved against that function. On top of it stand theorems about all runs: no error exit is reached,
  reads are conserved and answered on time, write data leaves on time, commands keep their order and the
  device's distances, no queued column command loses its row, refreshes are asked for on time, and whenever
  nothing has to be waited for a command goes. The tables of controller and rank hold back exactly what the
  history and the device's times ask for. Where a property depends on the timings, the condition is exact. All
  timings are symbolic; `Config.Sensible` lists what is asked of them.
* **Floating point.** A significand is right if it compares with every half unit as the exact result does, which
  decides every rounding mode (`SoftRounding`); what the modes mean is said by order, against all numbers of the
  format (`SoftOrder`). With the rounding and packing step, double-precision addition, subtraction,
  multiplication, division, remainder and fused multiply-add are proved on all words, special and subnormal
  operands included (`SoftSum`, `SoftWhole`, `SoftWholeRem`, `SoftFused`). The single-precision division,
  remainder and fused multiply-add are proved up to the rounding step. Standard: IEEE 754-2008, sections 4.3,
  5.3.1, 5.4.1 and 7.2.
* **Speed-ups of the simulator.** The opcode cache with its self-reordering table against a scan of the sorted
  table, the TLB against the page-table walk (RISC-V Privileged Architecture 1.9.1, sections 4.5 to 4.7) and
  both against what the entries grant, the chained instruction cache against the plain loop, and the debugger's
  translation against the MMU's.
* **ORAM, caches, clocks.** The tree ORAM over all access sequences, the write-back caches, and the
  clock-domain crosser.

`dafny verify dfyconfig.toml` checks everything.

## Model

| member | source | states |
|---|---|---|
| DramTheorems.NoExitReachable | DRAMSim2/Rank.cpp:94-266 | from the state the system is built in, for every sequence of requests and cycles, both row policies, both queue structures, low power on or off: if writes fit, no exit of the ranks, the queues or the controller is reached; if they do not, the only one that can be is the write-data collision |
| DramSafety.RunSafe | DRAMSim2/Rank.cpp:94-266 | from every state whose two tables are related, no run reaches the illegal-command, power-down, power-up or command-bus exit, and the relation is kept |
| DramSafety.StepSafe | DRAMSim2/MemorySystem.cpp:210-238 | one update of the whole system keeps the relation between the controller's table and the ranks' and makes none of these exits |
| DramSafety.PoppedIsPermitted | DRAMSim2/CommandQueue.cpp:164-556 | whatever pop hands out, by either row policy or on the way to a refresh, is allowed by the controller's own table |
| DramBank.PermittedIsLegal | DRAMSim2/CommandQueue.cpp:625-690 | a command the controller's table allows at cycle t passes the rank's checks when it arrives at t + 1 |
| DramBank.IssueKeepsRel | DRAMSim2/MemoryController.cpp:296-472 | the updates of the two tables for a permitted command, one made at t and one at t + 1, keep the relation for every bank of the rank |
| DramSafety.PowerRankSafe | DRAMSim2/MemoryController.cpp:573-616 | putting ranks to sleep and waking them is always accepted by the rank, and keeps the tables related |
| DramCollision.CollisionReachable | DRAMSim2/MemoryController.cpp:223-260 | with low power on or off, under both row policies and queue structures, with room for two commands in a queue: if max(tRCD - AL, 1) + 1 is below BL/2 and there are two ranks, every initial state whose refreshes are late enough has a run that ends in the write-data collision |
| DramCollision.WritesFitExactly | DRAMSim2/MemoryController.cpp:223-260 | over those configurations and initial states, all runs get through if and only if there is one rank or max(tRCD - AL, 1) + 1 is at least BL/2 |
| DramTheorems.ReadsConserved | DRAMSim2/MemoryController.cpp:661-700 | at the end of every run, for every address: reads accepted are reads waiting, queued, on the bus, in a rank or its output slot, or returned, plus reads answered |
| DramAdmission.RequestsConserved | DRAMSim2/MemorySystem.cpp:179-238 | the same from the request on: a read is answered, under way, or waiting inside or outside of the controller, as often as it was requested |
| DramAdmission.UpdateAdmits | DRAMSim2/MemorySystem.cpp:210-238 | an update takes the request that has waited longest outside if the controller has a place, and no other |
| DramReads.ReturnFindsRead | DRAMSim2/MemoryController.cpp:669-700 | data that has come back has a pending read of its address, so the search for it does not fail |
| DramReads.AdvanceConserves | DRAMSim2/Rank.cpp:299-342 | a rank's update loses no read, because a read enters the output slot only when the slot is free |
| DramReadOrder.ReadDataOnTime | DRAMSim2/Rank.cpp:299-342 | in every run, after every update, the reads answered are exactly those issued at least 1 + CL + AL + BL/2 cycles ago, in issue order |
| DramWriteOrder.WriteDataOnTime | DRAMSim2/MemoryController.cpp:223-293 | in every run that gets through, whether writes fit or not, the write data sent is an initial part of the data of the issued writes in issue order, each sent exactly WL cycles after its command, and exactly what was due before the present cycle has been sent |
| DramCalm.CalmStep | DRAMSim2/MemoryController.cpp:153-759 | while no refresh is near and one bank's queues alone hold commands, what pop gives and the new request decide every rank's entries after the update, power states included |
| DramOrderTheorems.NothingStranded | DRAMSim2/CommandQueue.cpp:194-531 | at the end of every run a queued column command is behind its activate, or its row is open and not about to close, it is the first to its row, the row's access count is zero in open-page mode, and it is the only such command of its bank |
| DramUnits.ChoiceKeepsUnits | DRAMSim2/CommandQueue.cpp:194-531 | taking out any command that pop may choose, and updating the controller's table for it, keeps the queues a sequence of activate-column pairs and such lone column commands |
| DramOrderTheorems.AccessesKeepOrder | DRAMSim2/CommandQueue.cpp:194-531 | in every run the accesses issued to a row of a bank, and in close-page mode those to a bank, are the first accesses the controller accepted for it, in the same order |
| DramOrder.PopOrder | DRAMSim2/CommandQueue.cpp:257-372 | the popped command is the next access of its row, or bank, and what stays queued keeps its order |
| DramOrder.ScheduledIsFirst | DRAMSim2/MemoryController.cpp:492-571 | the transaction turned into commands is the oldest one waiting for its bank |
| DramProgress.SchedulesOldest | DRAMSim2/MemoryController.cpp:492-571 | the oldest transaction whose command queue has two places left, and no other, leaves the queue; its activate and column command join the end of the command queue, and a read becomes pending |
| DramProgress.PopInTurn | DRAMSim2/CommandQueue.cpp:254-531 | while no refresh is waited for, pop takes the first packet in turn that may go; if there is none, under the open-page policy, it closes the first row in turn whose precharge is due and that no packet is queued for or that has had all its accesses; otherwise it gives nothing |
| DramProgress.PopMovesOn | DRAMSim2/CommandQueue.cpp:534-549 | the next search starts one turn after the queue that was served, and with posted column accesses at the same queue for one more command first |
| DramProgress.RefreshGoes | DRAMSim2/CommandQueue.cpp:198-249 | a waiting refresh goes exactly when every bank of its rank is closed and due, and awake |
| DramProgress.Progresses | DRAMSim2/CommandQueue.cpp:164-556 | in every reachable state in which a packet is queued or a refresh is waited for, and nothing has to be waited for by time (bank times are due, no rank sleeps, no window of activates is full), pop gives a command; while a refresh is waited for, one to its rank |
| DramRowLimit.RowsAreLimited | DRAMSim2/CommandQueue.cpp:513-521 | at every moment of every run at most TOTAL_ROW_ACCESSES + 1 column commands were issued to a bank since its last activate, and at most one under the close-page policy |
| DramOrderTheorems.FiveActivatesSpanWindow | DRAMSim2/CommandQueue.cpp:171-184 | in every run any five successive activates to one rank span at least tFAW cycles |
| DramTimings.TimingsKept | DRAMSim2/MemoryController.cpp:296-472 | in every run any two issued commands keep the device's distance, for all pairs of kinds inside a rank and across ranks: read, write, activate, precharge and refresh |
| DramTable.PermittedExactly | DRAMSim2/MemoryController.cpp:296-472 | in every run without low power, what the controller's table permits next is what the commands issued so far ask for, no less and no more: the bank is in the phase that its last command and the time since have left it in, and every command that counts is as far back as the device's times say |
| DramTable.PhasesExactly | DRAMSim2/MemoryController.cpp:158-191 | in every run, with low power too, phase and countdown of every bank are those of its last command |
| DramRankTable.ObeysExactly | DRAMSim2/Rank.cpp:82-384 | whatever is sent to a rank, sleeping and waking included, it obeys all of it if and only if each input is allowed by those before it: the right row open or all banks closed, awake, and the device's times kept since the last activate of the bank, or for activates since the last refresh or waking |
| DramActivates.AgeKeepsWindow | DRAMSim2/CommandQueue.cpp:171-184 | looking at the head counter only is enough: after the decrement the counters are again those of the activates still in the window |
| DramSleep.ActivatesKeepDistance | DRAMSim2/MemoryController.cpp:417-466 | in every run activates to one bank are tRC apart and to one rank tRRD apart, if low power is off or the shortest possible sleep ends late enough: the least time from an activate to the closing of the row, plus tRP, tCKE and tXP, is at least tRC, and tRRD if there is a second bank |
| DramWakeup.ShortSleepReachable | DRAMSim2/MemoryController.cpp:577-616 | where that time is shorter, with low power on and room for two commands in a queue, every initial state whose refreshes are late enough has a run in which two activates of one rank come too close |
| DramWakeup.SleepsLongEnoughExactly | DRAMSim2/MemoryController.cpp:577-616 | over those configurations and initial states, activates keep their distances in all runs if and only if the shortest possible sleep ends late enough |
| DramWakeup.MicronSg15 | DRAMSim2/ini/DDR3_micron_32M_8B_x8_sg15.ini:11-32 | with the times of this device that holds under the open-page policy and fails under the close-page policy |
| DramSleep.PowerRankRestful | DRAMSim2/MemoryController.cpp:577-616 | under that condition, setting the next activate to now + tXP on waking forgets no distance that is still owed |
| DramPowers.SleepsAndWakes | DRAMSim2/MemoryController.cpp:573-616 | with low power on, after every update of every run a rank with nothing queued, no refresh due and no open row sleeps, and a sleeping rank that is wanted has not slept its shortest time yet |
| DramRefresh.RefreshesOnTime | DRAMSim2/MemoryController.cpp:262-279 | in every run the refresh of a rank is asked for in exactly the cycles that are a whole number of periods after its first one, of one rank at a time, and the queue is told of nothing else |
| DramRefresh.WokenInTime | DRAMSim2/MemoryController.cpp:275-278 | a sleeping rank that is the next one due is told of its refresh as soon as no more than tXP cycles are left |
| DramRefresh.StartsStaggered | DRAMSim2/MemoryController.cpp:106-110 | the counters that the constructor sets are such that the ranks take turns for good |
| DramSimulation.Simulate | DRAMSim2/MemorySystem.cpp:210-238 | the objects, built anew and driven by any operations, end exactly where the state machine ends from the initial state with these refresh counters: the same addresses answered in the same order, or the same exit at all, and that only the write-data collision and only if writes do not fit |
| DramMemorySystem.MemorySystem.Update | DRAMSim2/MemorySystem.cpp:210-238 | one update in place is one step: ranks, one waiting request, controller, clocks |
| DramMemorySystem.MemorySystem.AddTransaction | DRAMSim2/MemorySystem.cpp:179-195 | a request joins the controller's queue, or waits outside when that is full |
| DramMemorySystem.MemorySystem.OfferTransaction | DRAMSim2/MemorySystem.cpp:197-200 | a request handed to the controller directly is taken exactly if its queue has a place |
| DramMemorySystem.MemorySystem.constructor | DRAMSim2/MemoryController.cpp:63-110 | what is built is an initial state with the given refresh counters |
| DramController.MemoryController.Update | DRAMSim2/MemoryController.cpp:153-759 | the controller's update in place: the phases in their order, with the resulting state of controller, queue and ranks |
| DramController.MemoryController.CountDownBanks | DRAMSim2/MemoryController.cpp:158-191 | every bank's countdown and the state changes that end it |
| DramController.MemoryController.MoveCommandBus | DRAMSim2/MemoryController.cpp:194-203 | the command on the bus reaches its rank when its cycles are over, with the rank's answer |
| DramController.MemoryController.MoveDataBus | DRAMSim2/MemoryController.cpp:205-221 | the same for write data |
| DramController.MemoryController.SendWriteData | DRAMSim2/MemoryController.cpp:223-260 | write data whose latency is over goes on the bus, and a busy bus is the collision exit |
| DramController.MemoryController.CheckRefresh | DRAMSim2/MemoryController.cpp:262-279 | the refresh that is due is requested, or a sleeping rank is woken in time |
| DramController.MemoryController.IssueCommand | DRAMSim2/MemoryController.cpp:281-488 | pop, the write data to follow, the timing updates of all banks, and the command bus |
| DramController.MemoryController.IssueRead | DRAMSim2/MemoryController.cpp:303-360 | what a read does to the banks of its rank and to open banks of the others |
| DramController.MemoryController.IssueWrite | DRAMSim2/MemoryController.cpp:361-416 | the same for a write |
| DramController.MemoryController.IssueActivate | DRAMSim2/MemoryController.cpp:417-444 | the same for an activate |
| DramController.MemoryController.IssuePrecharge | DRAMSim2/MemoryController.cpp:445-451 | the same for a precharge |
| DramController.MemoryController.IssueRefresh | DRAMSim2/MemoryController.cpp:452-468 | the same for a refresh |
| DramController.MemoryController.ScheduleTransaction | DRAMSim2/MemoryController.cpp:492-571 | the first transaction whose queue has room for two becomes an activate and a column command; a read becomes pending |
| DramController.MemoryController.CheckPowers | DRAMSim2/MemoryController.cpp:573-616 | every rank is put to sleep or woken as the queue, its banks and the refresh ask for it |
| DramController.MemoryController.ReturnReadData | DRAMSim2/MemoryController.cpp:661-700 | one read answered and taken from the pending ones, or the exit that there is none |
| DramController.MemoryController.AddTransaction | DRAMSim2/MemoryController.cpp:762-780 | a transaction is accepted exactly if there is a place |
| DramCommandQueue.CommandQueue.constructor | DRAMSim2/CommandQueue.cpp:49-109 | the queues as built, later ranks having more lists than they use |
| DramCommandQueue.CommandQueue.Enqueue | DRAMSim2/CommandQueue.cpp:131-161 | a packet joins the end of its queue, or too many packets end the simulation |
| DramCommandQueue.CommandQueue.Pop | DRAMSim2/CommandQueue.cpp:164-556 | the command chosen and the queue left behind, for both policies, refreshes and the closing of rows |
| DramCommandQueue.CommandQueue.SearchQueues | DRAMSim2/CommandQueue.cpp:254-325 | the round robin with its dependency check finds what the specification finds |
| DramCommandQueue.CommandQueue.SearchForRefresh | DRAMSim2/CommandQueue.cpp:198-249 | the refresh path: close, hurry out, wait or send |
| DramCommandQueue.CommandQueue.SearchRows | DRAMSim2/CommandQueue.cpp:487-528 | the search for a row that can be closed |
| DramCommandQueue.CommandQueue.HasRoomFor | DRAMSim2/CommandQueue.cpp:558-563 | whether so many packets fit |
| DramCommandQueue.CommandQueue.IsEmpty | DRAMSim2/CommandQueue.cpp:693-712 | whether a rank has nothing queued |
| DramCommandQueue.CommandQueue.NeedRefresh | DRAMSim2/CommandQueue.cpp:715-719 | one rank at a time waits for its refresh |
| DramRank.Rank.ReceiveFromBus | DRAMSim2/Rank.cpp:82-291 | a packet is obeyed, with the rank's timing table updated, or refused with the exit |
| DramRank.Rank.Update | DRAMSim2/Rank.cpp:299-342 | the output slot and the return queue move on by one cycle |
| DramRank.Rank.PowerDown | DRAMSim2/Rank.cpp:345-361 | all banks go to sleep, or the exit that one is not idle |
| DramRank.Rank.PowerUp | DRAMSim2/Rank.cpp:364-384 | all banks wake, or the exit that it is too early or needless |
| SoftDivide64.DivideF64 | softfloat/f64_div.c:113-146 | for normal operands the significand is in [2^62, 2^63) and compares with every multiple of 2^9 as the exact quotient does; the exponent goes with it |
| SoftWhole.DivF64 | softfloat/f64_div.c:44-172 | for all operand words: NaN, infinity or zero where the standard asks for it, otherwise the exact quotient rounded by the laws of PackedRounds in every mode, for normal, subnormal and overflowing operands and results |
| SoftWhole.MulF64 | softfloat/f64_mul.c:44-150 | the same for the product |
| SoftWhole.QuotientRounds | softfloat/f64_div.c:44-172 | the word given for two finite nonzero numbers is their exact quotient rounded by these laws |
| SoftWhole.ProductRounds | softfloat/f64_mul.c:44-150 | the same for the product |
| SoftWhole.QuotientSettles | softfloat/f64_div.c:95-115 | normalizing subnormal operands changes no quotient: the significand settles the rounding of the quotient of the numbers themselves |
| SoftSum.AddF64 | softfloat/f64_add.c:43-72 | for all operand words: the exact sum rounded by these laws, a zero sum with the common sign or the one of the rounding mode, infinities and NaNs as the standard asks |
| SoftSum.SubF64 | softfloat/f64_sub.c:43-72 | the same for the difference |
| SoftSum.SumRounds | softfloat/f64_add.c:43-72 | for finite operands the word given is the exact sum rounded by these laws |
| SoftSum.SubMagsF64 | softfloat/s_subMagsF64.c:44-114 | subtraction of magnitudes through alignment, jamming and normalization, with either operand the larger |
| SoftSum.DifferenceSettles | softfloat/s_subMagsF64.c:86-107 | either the difference is exact, or it is shifted left by at most one place, so the jammed bit still settles the rounding |
| SoftSum.AddMagsF64 | softfloat/s_addMagsF64.c:44-109 | the same for addition of magnitudes; the packed words of two subnormal numbers may be added as they are |
| SoftBasic.MultiplyF64 | softfloat/f64_mul.c:108-124 | the significand compares with every multiple of 2^9 as the exact product does, and is in [2^62, 2^63) |
| SoftBasic.DivideF32 | softfloat/f32_div.c:110-127 | single precision: the significand compares with every multiple of 2^6 as the exact quotient does, and is in [2^30, 2^31) |
| SoftBasic.AddMagsF64 | softfloat/s_addMagsF64.c:56-101 | for finite operands, subnormal ones included: the significand stands for the exact sum, or the packed sum of two subnormals is exact |
| SoftMulAdd64.MulAddF64 | softfloat/s_mulAddF64.c:118-208 | for finite operands the sign is that of the exact a * b + c and the significand settles its rounding, through alignment, jamming, cancellation and normalization; a zero is returned only for a zero sum |
| SoftFused.FusedF64 | softfloat/s_mulAddF64.c:46-242 | for all operand words and operation flags: a * b + c rounded once by these laws, zero sums with the sign the standard asks for, infinities and NaNs; with the one exception that subtracting returns the word of c with its sign as it was, where that word is the result |
| SoftFused.FusedRounds | softfloat/s_mulAddF64.c:46-242 | for finite operands the word given is the exact a * b + c rounded once by these laws |
| SoftFused.UnflippedIsWrong | softfloat/s_mulAddF64.c:231-233 | in exactly those cases the result is not the one the standard asks for |
| SoftValue.AddendRoundsToItself | softfloat/s_mulAddF64.c:231-237 | every finite nonzero number, rounded, is its own word, so the addend may be returned where the product is zero |
| SoftMulAdd32.MulAddF32 | softfloat/s_mulAddF32.c:110-175 | single precision: the significand and exponent to be rounded settle the rounding of the exact a * b + c, with its sign and in the exponent's range; an exact zero is returned only for a zero sum, with the signs that allow it |
| SoftRemainder64.RemainderF64 | softfloat/f64_rem.c:105-175 | for normal operands the signed result is a - n * b with n the integer nearest to a / b, even on a tie, although the loop works modulo 2^64 with an estimated quotient |
| SoftWholeRem.RemF64 | softfloat/f64_rem.c:44-189 | for all operand words: NaN where there is no remainder, the dividend for an infinite divisor, otherwise a finite word that is the remainder exactly, in every rounding mode, a zero with the dividend's sign |
| SoftWholeRem.ShortRemainder | softfloat/f64_rem.c:175-176 | the remainder has a number's precision, so packing it loses nothing |
| SoftValue.NormRoundPackF64 | softfloat/s_normRoundPackToF64.c:42-57 | shifted to its place, the significand is packed directly where nothing has to be rounded, and rounded otherwise: the word of the exact value |
| SoftRemainder32.RemainderF32 | softfloat/f32_rem.c:100-154 | the same in single precision, modulo 2^32 |
| SoftRemainder.RemainderUnique | softfloat/f64_rem.c:105-175 | at most one number is such a remainder |
| SoftRounding.SameSideRoundsSame | softfloat/s_roundPackToF64.c:53-88 | a significand that compares with the half units as the exact value does is rounded to the same result in every mode |
| SoftRoundPack.RoundPackF64 | softfloat/s_roundPackToF64.c:43-96 | the packed word is the exact value rounded by the laws of PackedRounds, overflow included; the inexact flag says whether anything was lost, and the underflow flag whether it was lost from a value that is tiny after rounding |
| SoftOrder.PackedRounds | softfloat/s_roundPackToF64.c:53-91 | the packed word, read as a number, obeys the laws of section 4.3 by order against all numbers of the format: down, it is the greatest one not above the exact value, up the least one not below it, to zero the greatest magnitude not beyond it, to nearest no number is nearer, and none as near if it is odd or smaller in magnitude, with the infinity from half a unit beyond the largest number on |
| SoftOrder.RoundsOnce | softfloat/s_roundPackToF64.c:53-91 | at most one number obeys these laws |
| SoftValue.RoundedWordRounds | softfloat/s_roundPackToF64.c:43-96 | for every fraction, the word that the operations are to give obeys these laws |
| SoftRoundPack.PackedValue | softfloat/s_roundPackToF64.c:88-91 | reading the packed word back gives the rounded value, also when rounding carries into the exponent |
| SoftReciprocal.DigitBelow | softfloat/primitives.h:161-161 | a digit made with the reciprocal never exceeds the quotient |
| Soft128.Mul64To128 | softfloat/s_mul64To128.c:46-64 | the carries of the partial products add up to the exact 128-bit product |
| Soft128.ShiftRightJam64 | softfloat/primitives.h:97-101 | the shifted word is the quotient with a sticky lowest bit |
| Soft128.ShiftRightJam128 | softfloat/s_shiftRightJam128.c:43-67 | the same for two words |
| Soft128.ShortShiftLeft128 | softfloat/primitives.h:248-256 | exact while nothing leaves the upper word |
| Soft128.CountLeadingZeros32 | softfloat/primitives.h:121-134 | two halvings and a table of bytes give the number of leading zeros |
| SoftMulAdd64.NormSubnormalF64Sig | softfloat/s_normSubnormalF64Sig.c:42-52 | the same value with its leading bit in place |
| Opcode.DecodesExactly | riscv/processor.cc:622-669 | for every decode history, decoding agrees with a first-match scan of the table as sorted if and only if the word is not zero, or another word has used its place in the cache since, or the table's answer for it is the catch-all's handler; for either width |
| Opcode.DecodesLikeSortedTable | riscv/processor.cc:622-649 | after any history every nonzero word is decoded as the scan would decode it |
| Opcode.ZeroWordDecodes | riscv/processor.cc:667-668 | the zero word gets the catch-all's handlers until its place is used for another word, then the table's |
| Opcode.ZeroWordGoesWrong | riscv/processor.cc:667-668 | with an entry such as c_addi4spn, which matches the zero word, a fresh decoder gives the catch-all's handler instead of that entry's |
| Opcode.DecodeKeeps | riscv/processor.cc:629-646 | one decoding keeps the table a rearrangement of whole, ordered groups with the catch-all last, and every cached entry right |
| Opcode.MoveKeepsGroups | riscv/processor.cc:635-642 | moving a hit that stands alone to the front keeps the groups |
| Opcode.FindsMostSpecific | riscv/processor.cc:650-669 | of the entries that match a word, the sorted table gives one with the largest mask |
| Opcode.SearchMovesExactly | riscv/processor.cc:628-642 | a search moves what it has found to the front and keeps the order of the others exactly if no other entry has its match value and it is not the catch-all |
| OpcodeDecoder.Decoder.DecodeInsn | riscv/processor.cc:622-649 | decoding in place: the handler, the shifted table and the new cache entry |
| TlbExact.InvisibleExactly | riscv/mmu.cc:36-54 | between two flushes, for any roots of the page tables that are written in turn: no program that stores outside the tables notices the TLB, whatever memory holds beside what walks read, if and only if under each root fetches, loads and stores are translated to the same page wherever more than one of them is mapped, and every page mapped under a root is mapped alike under all later ones, for stores where the page is not filled by the tables |
| TlbExact.DisagreementShows | riscv/mmu.cc:146-168 | where a fetch and a load of one virtual page lead to different pages, a load, a fetch and a load give different bytes with and without the TLB |
| TlbExact.RootIsNoticed | riscv/processor.cc:383-387 | where a page mapped under one root is missing under the next one, leads elsewhere, or has bits to be set, an access under both roots gives another result or leaves other memory than without the TLB; for stores, where they can stay outside the tables |
| TlbRoots.TranslatedAlike | riscv/mmu.cc:170-227 | a page that is mapped alike under another root is there, with all its bits, once it was translated under the first |
| TlbRuns.TlbIsInvisible | riscv/mmu.h:55-106 | from a flush on, every result and all memory are those of the slow path, for any accesses and writes of the root that meet this condition and do not store to the page tables in use |
| TlbRuns.AgreeByMode | riscv/mmu.cc:41-47 | fetches and data accesses that are both translated, or both not, agree on every page; MPRV with MPP of a lower mode is such a case |
| TlbRuns.HitIsSlow | riscv/mmu.h:59-60 | a hit gives the result, the memory and the TLB that the slow path would give |
| TlbAgrees.WalkAfterMark | riscv/mmu.cc:196-222 | setting accessed and dirty bits in one entry changes no walk |
| TlbProtection.WalkExactly | riscv/mmu.cc:170-227 | a walk finds a leaf if and only if entry after entry in memory leads to it, the address is a sign extension, and the leaf's V, R, W, X and U bits, MXR and PUM grant the access |
| TlbProtection.GrantedIsDone | riscv/mmu.cc:36-107 | an aligned access that the tables or the direct mode grant is done: a store writes its bytes there, a load or fetch gives the bytes from there |
| TlbProtection.DoneIsGranted | riscv/mmu.cc:36-107 | no other access gives data or stores |
| TlbProtection.RunProtects | riscv/mmu.cc:36-227 | in every run, with writes of the root, every byte of memory is as before, or some access was granted to store to it at that moment, or it was the flags of the leaf of some access and only accessed and dirty bits were set |
| TlbProtection.RunGrants | riscv/mmu.cc:36-227 | in every run an access gives data or stores if and only if it is aligned and granted in the settings and memory of that moment |
| TlbProtection.TlbProtects | riscv/mmu.h:55-106 | the first of these with the TLB, where it cannot be noticed |
| TlbProtection.TlbGrants | riscv/mmu.h:55-106 | the second of these with the TLB |
| Mmu.Mmu.AccessMemory | riscv/mmu.h:55-106 | an access in place, through the TLB on a hit and along the slow path otherwise |
| Mmu.Mmu.SetSptbr | riscv/processor.cc:383-387 | writing the root keeps as many bits as page numbers have and flushes nothing |
| Mmu.Mmu.SetStatus | riscv/processor.cc:310-335 | a change of privilege or of the status bits that translation depends on flushes every tag |
| Mmu.Mmu.WalkTables | riscv/mmu.cc:170-227 | the loop over the tables finds the leaf, sets its bits and nothing else |
| Mmu.Mmu.RefillTlb | riscv/mmu.cc:146-168 | only tags of the same page survive beside the new one |
| Icache.ChainedLoopIsPlain | riscv/execute.cc:101-187 | with any cache whose tagged entries hold the instructions at their tags, while code changes only together with a flush, the chained loop ends in the plain loop's state, program counter and count, at most n, except that it may already have met the fetch trap that comes after the n-th instruction; however it ends, the cache is such a cache again |
| Icache.CachedIsPlain | riscv/execute.cc:63-231 | from an empty cache on, over any history of calls, taken traps, flushes and changes from outside that keep or flush the code, every call agrees with the plain loop, and the two processors are in the same state between calls |
| Icache.EarlyTrapIsNext | riscv/execute.cc:177-187 | where the chained loop alone has met a fetch trap, the plain loop meets it in its next call, before any instruction |
| Icache.RetiresAtMost | riscv/execute.cc:101-124 | a plain run retires at most n instructions, and exactly n when it stops because of the count |
| IcacheReference.SlowIsMany | riscv/execute.cc:79-124 | whatever the budget and however it ends, a plain run has gone on by as many whole instructions as it says, one after the other, where an instruction that asks for serialization first is executed again with the mark set |
| IcacheReference.FastIsMany | riscv/execute.cc:79-187 | the chained loop too |
| IcacheReference.TwoCallsProgress | riscv/execute.cc:79-124 | two calls in a row retire an instruction or trap, so nothing is retried for good |
| IcacheReference.ExecutedIsCached | riscv/execute.cc:125-187 | an instruction that was executed is in the cache afterwards, unless it has emptied it |
| IcacheLoop.Hart.StepFast | riscv/execute.cc:125-187 | the chained loop over the cache array, its current entry always inside it |
| IcacheLoop.Hart.StepSlow | riscv/execute.cc:101-124 | the plain loop |
| DebugTranslate.CollectEnds | riscv/gdbserver.cc:984-1092 | whatever the target answers, collecting ends after at most one read of the table base and one read per level |
| DebugTranslate.DiesWithoutCollecting | riscv/gdbserver.cc:1348-1416 | translation dies exactly when something on the way has not been collected |
| DebugTranslate.DebuggerAgreesWithMmu | riscv/gdbserver.cc:1348-1416 | after collecting from memory as it is, the debugger's address is the MMU's whenever the MMU finds one, translated or not |
| DebugTranslate.AnswersExactly | riscv/gdbserver.cc:1348-1416 | after collecting, the answer is the address itself where loads are not translated, otherwise that of the first entry on the way that is no pointer, whatever its bits, and -1 if all are pointers |
| DebugTranslate.SameScheme | riscv/gdbserver.cc:1418-1433 | the debugger translates exactly where the halted program's loads are translated |
| DebugTranslate.CollectStaysTruthful | riscv/gdbserver.cc:984-1092 | reading from the target keeps the cache true to memory |
| DebugTranslate.CollectTranslationInfoOp.PerformStep | riscv/gdbserver.cc:984-1092 | one step notes the last answer and asks for the next missing thing, or is done |
| DebugRead.ReadsRightExactly | riscv/gdbserver.cc:749-839 | after collecting for the first address, a memory read reports what the MMU loads, whatever memory holds outside the page tables, if and only if every byte lies as far behind the first one in physical memory as in virtual memory, or is a page-table byte that equals the one reported, also of a page table |
| DebugRead.GapShows | riscv/gdbserver.cc:819-835 | where a later byte lies elsewhere, and the two bytes are not equal ones of page tables, some memory with the same page tables is reported wrongly |
| DebugRead.OnePageIsRight | riscv/gdbserver.cc:749-839 | a read inside one page is always right |
| DebugRead.DirectIsRight | riscv/gdbserver.cc:749-839 | where loads are not translated, every read inside the address space is right |
| DebugRead.StepsReadBytes | riscv/gdbserver.cc:808-835 | for every access size, the steps put the bytes from the first physical address on together |
| DebugRead.MemoryReadOp.PerformStep | riscv/gdbserver.cc:764-839 | one step takes the bytes of the value read, lowest first, and counts address and length on |
| DebugTranslate.GdbServer.Translate | riscv/gdbserver.cc:1348-1416 | the address itself where nothing is translated, otherwise the loop over the cached entries |
| DebugTranslate.GdbServer.FindScheme | riscv/gdbserver.cc:1426-1433 | machine mode is not translated, every other by the scheme of the status register |
| OramSafety.SafeFromStart | riscv/oramsim.cc:34-73 | with a power of two of blocks, in every run from the initial state no path is loaded that does not end in a leaf; between accesses the path slots are empty, and every block is in the stash or at exactly one node, on the way to its leaf |
| OramSafety.AccessKeeps | riscv/oramsim.cc:298-343 | one access keeps this, gives the block asked for the new leaf, moves no other block to another leaf, and aborts only for an address without block or with every upper stash slot taken |
| OramPlacement.AccessPlaces | riscv/oramsim.cc:155-343 | after an access to a block outside the stash it is at a node that both ways share, and all deeper ones they share hold other blocks, or in the stash if all of them do; stashed blocks of the path come back while there is room, and the other nodes are as they were |
| OramPlacement.OverflowsExactly | riscv/oramsim.cc:237-254 | such an access aborts if and only if every upper stash slot is taken and every shared node holds another block |
| OramSafety.RunKeeps | riscv/oramsim.cc:172-296 | in every run a block that is in the stash stays there for good, since its slot is never cleared |
| OramSafety.InitialInv | riscv/oramsim.cc:34-73 | all blocks are placed at the start if and only if their number is a power of two |
| OramSafety.UnplacedBlockAborts | riscv/oramsim.cc:155-170 | for any other number the first access to a block beyond the leaves aborts |
| OramSim.OramSim.Access | riscv/oramsim.cc:298-343 | one access in place, on the stash array, the tree and the position map |
| OramSim.OramSim.StashWriteBack | riscv/oramsim.cc:172-296 | placing, bringing back and writing the path, line 232 as written |
| OramSim.OramSim.NearestAncestor | riscv/oramsim.cc:172-192 | the node where the ways to the two leaves part |
| CacheSim.CacheRuns | riscv/cachesim.cc:129-167 | in every run from an empty cache: valid tags are distinct and in their sets, a stored line is still dirty or was written to the next level later, and only such lines were written |
| CacheSim.SetAccessRefines | riscv/cachesim.cc:108-167 | the set-associative cache does what an abstract cache of lines does, for some victim |
| CacheSim.MissTakesWay | riscv/cachesim.cc:108-127 | a miss takes the way that the shift register picks, and no other; a hit moves nothing and leaves the register |
| CacheSim.FullAccessRefines | riscv/cachesim.cc:174-192 | so does the fully associative one, with at most so many lines |
| CacheSim.FullMissTakes | riscv/cachesim.cc:174-192 | a miss in a full cache takes the line that the shift register picks in the order of lines |
| CacheSim.RegSteps | riscv/cachesim.h:13-21 | the shift register never becomes zero, and no two of its states lead to the same one |
| CacheSim.FullRunSound | riscv/cachesim.cc:174-192 | the same properties in every run of the fully associative cache, and the line accessed last is resident |
| CacheSim.CacheSim.AccessLine | riscv/cachesim.cc:129-167 | an access in place; the line is found afterwards, each miss has sent one read down and each writeback one write |
| ClockDomain.CallbacksExact | DRAMSim2/ClockDomain.cpp:59-88 | after n updates there were exactly n * clock1 / clock2 callbacks, rounded up, across all resets of the counters |
| ClockDomain.CountersBounded | DRAMSim2/ClockDomain.cpp:59-88 | the first counter stays below every common multiple of the clocks, hence below the least one |
| ClockDomain.ClockDomainCrosser.Tick | DRAMSim2/ClockDomain.cpp:59-88 | one update in place |

## Findings

Properties that one would expect and that the code does not have in general, each with its exact condition:

* **Write data can collide** (MemoryController.cpp:244-248). Idle banks of other ranks are not delayed by a
  write, so a row opened there can be written too soon. `DramCollision.WritesFitExactly`: with two or more
  ranks the collision is reachable if and only if max(tRCD - AL, 1) + 1 < BL/2, with low power on or off.
* **Sleeping forgets activates** (MemoryController.cpp:606-613). Waking a rank sets the next activate of its
  banks to now + tXP, whatever it was, so tRC and tRRD can be broken across a sleep.
  `DramWakeup.SleepsLongEnoughExactly`: with low power on they are kept if and only if both are at most
  `DramSleep.ShortestRest`, the time that one access, a sleep as short as can be and the next activate take.
  Under the close-page policy most of the device files in DRAMSim2/ini are outside the condition, for example
  the one of `DramWakeup.MicronSg15`: 33 cycles where tRC is 34.
* **The TLB can be noticed** (mmu.cc:146-168). The three tags of a place share one offset. When machine-mode
  fetches are not translated but loads are, or the other way round, a fetch leaves an offset behind that a later
  load uses; `TlbExact.DisagreementShows` gives the program, for whatever pages and tables.
  `TlbRuns.AgreeByMode` says when the modes alone rule this out. Changes of the privilege and of the status
  register flush, so the modes differ within one setting of both.
* **A new root of the page tables does not flush** (processor.cc:383-387). A page cached under the old root is
  accessed as before. `TlbExact.InvisibleExactly`: with any number of roots written between two flushes, the
  TLB goes unnoticed if and only if the kinds of access agree on the pages under each root, and every page
  mapped under a root is mapped alike under the later ones: to the same place, by the same entry or by one whose
  bits are set already. Only for stores a page filled by the tables does not count, since they stay outside.
  The write does not flush the instruction cache either; `Icache.CachedIsPlain` covers the writes that leave
  the instructions as they are.
* **The debugger reads past the page** (gdbserver.cc:819-835, 978-981). Only the first address of a memory read
  is translated. `DebugRead.ReadsRightExactly`: the report is right if and only if every byte lies where the
  count leads, or both places hold the same page-table byte; `DebugRead.GapShows` gives the memory that is
  reported wrongly otherwise, `DebugRead.OnePageIsRight` says that a read inside one page is right, and
  `DebugRead.DirectIsRight` that every read is where loads are not translated.
* **The zero word can be decoded wrongly** (processor.cc:667-668, encoding.h:560-561). The empty opcode cache
  looks as if the zero word had been decoded as illegal. `Opcode.DecodesExactly` says when the handler is right
  all the same. A program does not see this: c_addi4spn, which matches the zero word, traps as illegal too when
  its immediate is zero (insns/c_addi4spn.h:2).
* **The fused subtraction forgets a sign** (s_mulAddF64.c:99, 232). With the operation flag for a * b - c
  the word of c is returned as it is when c is infinite, or when the product is zero and c is not a zero of the
  opposite sign. `SoftFused.FusedF64` and `SoftFused.UnflippedIsWrong`: the result is right if and only if
  this is not the case. The instructions flip the sign beforehand and never pass the flag.
* **Blocks without a place** (oramsim.cc:34-73). `OramSafety.InitialInv`: all blocks are placed if and only if
  their number is a power of two; `OramSafety.UnplacedBlockAborts` gives the access that fails otherwise.

Things to know about the code that the results take as they are:

* The line that should clear the stash slot of a block brought back compares instead of assigning
  (oramsim.cc:232), so a block may be in the stash and in the tree. The invariant claims exactly one node for
  the blocks that are not in the stash, and `OramSafety.RunKeeps` says that stashed blocks stay there.
* The chained loop refills the next entry before it looks at the count (execute.cc:125-187), so it may meet
  the fetch trap behind the last instruction one call early. `Icache.Agree` allows this difference in how the
  call ends, and no other.

## Left out

- SleepsLongEnoughExactly: the run that breaks a distance needs a transaction queue of at least one and command queues of at least two places, and no refresh due before it is over; the other direction (ActivatesKeepDistance) has none of these conditions.
- WritesFitExactly: the collision run needs a transaction queue of at least one and command queues of at least two places, and no refresh due before it is over; the other direction (NoExitReachable) has none of these conditions.
- InvisibleExactly: programs run on one processor, between two flushes, and do not store to the page tables in use; the memories compared hold the same entries but for the two bits that are reserved for software (PTE_SOFT, encoding.h:145), which no walk reads.
- DecodesExactly: two entries, other than the catch-all, that match a common word are taken to have the same match value, which the listed instructions are supposed to have.
- MulAddF32: finite operands, up to the rounding step; single-precision rounding and packing, addition and multiplication are not modelled.
- DivideF32: normal operands, up to the rounding step.
- RemainderF32: normal operands; the final normalization and packing of the result is left out.
- DivideF64: the part of the division for normalized significands; DivF64 covers all operands.
- MultiplyF64: the part of the multiplication for normalized significands; MulF64 covers all operands.
- RemainderF64: the part of the remainder for normalized significands; RemF64 covers all operands.
- MulAddF64: the part for finite operands, up to the rounding step; FusedF64 covers all operands.
- DivF64: the exception flags are modelled in the rounding step only; invalid and division by zero are not, and the operations do not hand the flags on.
- f32_sqrt and f64_sqrt, the comparisons, conversions and the build without 64-bit integers.
- CountLeadingZeros32: the table of bytes is given by its defining function.
- AccessKeeps: the random leaf is a parameter, and the DRAM requests and statistics of the ORAM are left out.
- DecodeInsn: the table is any sorted one with the catch-all last; std::sort itself is not modelled.
- Pop: the bank table, which the source reads through a reference, is a parameter.
- Update: read data leaves a rank as a result instead of by a call into the controller; clocks and refresh counters are unbounded except where a counter is decremented at zero.
- AddTransaction: order across the memory system's waiting requests is not claimed, since a new request can enter ahead of them.
- NeedRefresh: that every due refresh is sent some time is not claimed, since only one rank can wait.
- AccessMemory: triggers, tracers and device results are left out; an access that is not to memory gives its physical address.
- StepFast: interrupts, debug mode, single stepping, tracing and the disabled cache are left out; an instruction is any state transformer with its outcome, and a fetch changes nothing, while the MMU's walk for a fetch sets accessed bits and fills the TLB.
- CachedIsPlain: taken interrupts and traps are changes from outside between two calls, given by their resulting state.
- MemoryReadOp: a read of length zero, and the debug program written to the target, are left out.
- PerformStep: the debug program written to the target is left out; the target's answer is a parameter.
- AccessLine: lines instead of byte addresses; the branch to the ORAM and the copy constructor are left out.
- Tick: the constructor from real-valued clocks is left out.
- TimingsKept: with low power on, distances to activates and refreshes are not part of it (SleepsLongEnoughExactly says when activates keep theirs); distances between column commands across ranks, and under the close-page policy, are claimed while the row that is accessed stayed open, since the source notes a column access of another rank at open banks only, and overwrites what was noted when a row closes itself.
- PermittedExactly: low power is off, since waking is not among the issued commands; PhasesExactly covers low power too.
- ObeysExactly: inputs come in the order of their cycles, and a bank that does not exist is refused, where the source does not look.
- RefreshesOnTime: the counters at the start are those of the constructor, or any others with which the ranks take turns.
- Progresses: that the bank times become due is not part of it, since refreshes can keep a rank busy.
- Energy, statistics, printing, traces, configuration files, sockets and device loading.
