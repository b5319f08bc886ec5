# A verified model of the pipelined RV32I processor

The repository holds a five-stage RISC-V processor in SystemVerilog (`rtl/risc_v.sv` and the modules it
instantiates), a direct-mapped cache, and the program `pdf.s`, which builds a histogram. This project models
them in Dafny and proves, for every program, initial state and cache behaviour:

* the pipeline computes what a machine executing one instruction at a time computes, and retires the same
  instructions in the same order; a cycle keeps the two in step exactly when it meets four conditions on its
  signals;
* each condition fails on a concrete program of two or three instructions, run on the complete machine with its
  own cache from the moment it is switched on: in particular two loads in a row do not get their own words;
* as long as hits are truthful, three of the conditions follow from a property of the sequential execution
  alone, however often the cache misses, and its part about loads is exact: where its other parts hold, every
  truthful schedule of hits and misses is executed correctly if and only if that one does;
* the fourth condition, that a hit serves the memory's word, follows for programs that hold their addresses and
  for programs that make every load refill; where it fails only for a register that the program never names,
  everything else stays right;
* every cycle is accounted for, and progress is bounded, as soon as no instruction is lost;
* the one-instruction machine is RV32I, exactly when stated, and departs from it in three stated ways only;
* the cache is invisible to a client that holds its word-aligned addresses, a held access to any address is served
  rightly exactly when stated, and a missing load is always released;
* the machine-code image of `pdf.s` computes the histogram, on RV32I and on the complete machine, within a
  stated number of cycles, and it then stands in memory for ever; the display loop that follows is shown the
  count of value 4 in the place of later ones, so that the machine executes the program correctly if and only if
  the values 1 to 254 occur equally often in the data.

`dafny verify dfyconfig.toml` checks the whole project.

## How the model is laid out

| file | models |
|---|---|
| `Words.dfy` | 32-bit words as bounded integers; bitwise operators and shifts one bit at a time |
| `Alu.dfy` | `rtl/alu/alu.sv`, `rtl/flags/flags.sv` |
| `ControlUnit.dfy` | `rtl/control_unit/decoders`, `rtl/sign_extend/sign_extend.sv`, the field extraction of `rtl/risc_v.sv` |
| `DataMemory.dfy` | `rtl/data_mem`, `rtl/we_decoder`, `rtl/ld_decoder` |
| `Pipeline.dfy` | `rtl/risc_v.sv`, `rtl/hazard_unit` and the four pipeline registers as a step function on states |
| `Sequential.dfy` | the reference machine, built from the same stage logic |
| `Refinement.dfy`, `Runs.dfy` | the invariant, the conditions on a cycle, and whole runs |
| `Replay.dfy` | what a retirement trace is worth: its writes replayed |
| `Throughput.dfy` | cycle accounting and progress |
| `Schedules.dfy` | which programs are executed correctly under every truthful schedule of hits and misses |
| `Cache.dfy`, `System.dfy` | `rtl/cache/cache.sv`, alone and wired to the pipeline |
| `Held.dfy`, `Refresh.dfy` | two ways for a program to be executed correctly by the pipeline with its own cache |
| `HeldExample.dfy` | a program that holds its address, on the complete machine |
| `Unread.dfy`, `Passing.dfy` | wrong words in a register that the program never names, and what passes through M meanwhile |
| `Hardware.dfy` | the clocked modules as objects updated in place; `Cpu.Tick` is one clock cycle |
| `Isa.dfy`, `Encoding.dfy`, `Conformance.dfy`, `IsaRuns.dfy` | RV32I stated on its own, its encodings, and the machine against it |
| `TestWords.dfy` | instruction words of `programs/single_instruction_tests` |
| `Pdf.dfy` | `programs/pdf/pdf.s` as loops over a byte array |
| `PdfCode.dfy`, `PdfShape.dfy`, `PdfRuns.dfy` | the same program as the machine code of `programs/pdf/instr_mem.mem` |
| `PdfPath.dfy`, `PdfLoop.dfy`, `PdfDisplay.dfy` | that machine code on the complete machine: up to the first look at the histogram, the endless display loop, and what it is shown |
| `Counterexamples.dfy` | programs on which each pipeline condition fails |

One clock cycle is a falling-edge register write by W, then all combinational logic, then one rising edge at
which every register latches. Each stage carries the number of the instruction it holds, or a bubble. The
cache's outputs are a free input of every cycle of a `Run`; `System` supplies the real cache's.

The conditions on a cycle (`Refinement.CycleOk`) are:

* `ForwardsResult`: what E hands to M is what it would hand over if every forward from M gave M's result
  (AUIPC's result is PC+4, but its ALU result is forwarded);
* `SuccessorRight`: the redirect decision, made on the forwarded operands, and the jump target, made on the
  unforwarded `RD1E`, lead where the newest operands lead;
* `NothingLost`: the cache does not freeze the pipeline in a cycle that flushes E;
* `DataCurrent`: a load that hits reads what the data memory holds, unless it loads into x0.

A state is in correspondence (`Refinement.Invariant`) when each stage will have the effect its instruction has
in the sequential execution: fields that reach no register, no memory and no address may differ.

Where the code and its documentation differ, the model follows the code: AUIPC writes PC+4; JALR does not
clear bit 0 of its target; `V` is the overflow condition of an addition although branches subtract;
`rtl/pc/pc.sv` resets to 0 while `rtl/pc/readme.md` says 0xBFC00000 (the model takes the start address as a
parameter); ALU code 1011 passes the immediate through, not the operation `rtl/alu/readme.md` lists under
1010; unaligned stores work although `rtl/data_mem/readme.md` says they do not; and `display` in `pdf.s`
stops before bin 255.

## Model

| member | source | states |
|---|---|---|
| Refinement.OperandIff | rtl/hazard_unit/subunits/forward.sv:12-20 | newest writer wins: the newest operand is the register after W's and then M's write, and the forwarding multiplexer gives it exactly when it does not take the ALU result of a PC+4 instruction |
| Refinement.OperandsFreshIff | rtl/risc_v.sv:271-272 | in every state in correspondence the newest operands are the sequential ones, and each operand E is given is, exactly when it is not forwarded in place of PC+4 |
| Refinement.ForwardFromM | rtl/hazard_unit/subunits/forward.sv:12-20 | without AUIPC, a forward from M always hands over an ALU result that is the instruction's result: never a load's address, nor a jump's |
| Refinement.SuccessorIff | rtl/risc_v.sv:95 | the PC that follows E is the sequential next PC exactly when `SuccessorRight` |
| Refinement.TargetIff | rtl/risc_v.sv:274-275 | a rightly taken redirect goes to the sequential next PC exactly when JALR's unforwarded base is its newest value |
| Refinement.Signals | rtl/hazard_unit/hazard_unit.sv:66-73 | only a real instruction redirects or stalls, never both at once; a stalling instruction is a load; only a load in M can freeze |
| Refinement.OrderlyIff | rtl/hazard_unit/hazard_unit.sv:66-73 | a cycle keeps the instructions in order and complete, exactly when it does not flush E while M is held, whatever values are computed |
| Refinement.FrozenCycle | rtl/hazard_unit/hazard_unit.sv:66-73 | a frozen cycle that flushes nothing meets all conditions and only repeats W's register write |
| Refinement.CycleKeeps | rtl/risc_v.sv:95-418 | any cycle that meets the four conditions keeps the correspondence with the sequential execution |
| Refinement.CycleKeepsIff | rtl/risc_v.sv:95-418 | from any state in correspondence, exactly the cycles that meet the four conditions lead to one |
| Refinement.FlushWhileFrozenLoses | rtl/hazard_unit/hazard_unit.sv:66-73 | a flush of E while M is held leaves the instruction of E in no stage and behind every later one |
| Runs.GoneForever | rtl/hazard_unit/hazard_unit.sv:66-73 | such an instruction is in no stage in any later cycle, whatever the pipeline and the cache do |
| Runs.Refines | rtl/risc_v.sv:95-418 | registers (with W's write) and data memory equal the sequential machine's after exactly the instructions that reached W |
| Runs.RegisterFileAtEdge | rtl/reg_file/reg_file.sv:20-22 | at a clock edge the register file is the sequential one after the instructions that had reached W before it |
| Runs.OnlySequentialWrites | rtl/reg_file_e/reg_file_e.sv:49-91 | no bubble and no wrong-path fetch ever writes a register or memory |
| Runs.TraceIsSequential | rtl/reg_file_w/reg_file_w.sv:28-38 | the retirements leaving W are the sequential trace, in order, each once |
| Runs.FreezeInsensitive | rtl/hazard_unit/hazard_unit.sv:66-73 | under any two cache behaviours one retirement trace is a prefix of the other |
| Replay.SeqTraceEntry | rtl/reg_file_w/reg_file_w.sv:28-38 | entry k of the sequential trace holds the address behind instruction k and, exactly if the instruction writes a register other than x0, that register and its content afterwards |
| Replay.SeqReplays | rtl/reg_file/reg_file.sv:20-22 | the writes of the first n entries, replayed over the registers at the start, give the registers after n instructions |
| Replay.TraceReplays | rtl/reg_file/reg_file.sv:20-22 | in any run that loses nothing, whatever it computes, the writes of the retirements, replayed over the registers at reset, give the register file that they left |
| Replay.TraceIsReplay | rtl/risc_v.sv:416-418 | in a correct run they give the sequential registers after as many instructions as have retired, and entry k is what SeqTraceEntry says |
| Runs.EqualCommitsAgree | rtl/hazard_unit/hazard_unit.sv:66-73 | two correct runs that have committed equally many instructions agree on registers and data memory, however often each froze |
| Runs.UsedOperandsSuffice | rtl/control_unit/decoders/main_decoder.sv:19-140 | the operands an opcode uses determine its effect and its redirect: stale values in the other register fields do no harm |
| Runs.RunOkIsLossless | rtl/hazard_unit/hazard_unit.sv:66-73 | a run whose cycles meet the conditions loses nothing, so that cycle accounting and progress hold of it |
| Runs.MissIff | rtl/hazard_unit/subunits/lwstall.sv:10 | with any load in M, a miss flushes nothing exactly when the load is followed by an instruction that names its result, or by one that neither redirects nor is a load named by the next |
| Runs.SpacedCycle | rtl/hazard_unit/subunits/lwstall.sv:10 | a cycle of a well-spaced execution meets the four conditions exactly when its load data are current |
| Runs.SpacedRunOk | rtl/hazard_unit/subunits/lwstall.sv:10 | a well-spaced sequential execution and truthful hits imply the conditions in every cycle, for every schedule of misses |
| Runs.WellSpacedRefines | rtl/risc_v.sv:95-418 | such a program is executed correctly by the pipeline, in state and in trace |
| Schedules.AlwaysOkIff | rtl/hazard_unit/hazard_unit.sv:66-73 | for an execution in which AUIPC and jump bases are spaced, every truthful schedule of hits and misses meets the conditions in every cycle if and only if every load is well spaced |
| Throughput.FetchMoves | rtl/risc_v.sv:95-162 | the fetch number advances by one, by nothing in a stall or freeze, or back by one at a redirect, and these exclude one another |
| Throughput.CycleConservation | rtl/hazard_unit/hazard_unit.sv:66-73 | in every run that loses nothing, cycles = retired + in flight + load-use stalls + 2 × redirects + frozen cycles |
| Throughput.StallOnce | rtl/hazard_unit/subunits/lwstall.sv:10 | a load-use stall lasts one cycle |
| Throughput.DenseKept | rtl/reg_file_e/reg_file_e.sv:49-70 | two adjacent empty stages are always followed by a full one |
| Throughput.BoundedProgress | rtl/risc_v.sv:95-162 | in every run that loses nothing, once an instruction has reached W any 3k unfrozen cycles retire at least k instructions |
| System.SystemIsRun | rtl/risc_v.sv:345-417 | the pipeline with its cache is a run under the cache's own outputs |
| System.PortIsAccess | rtl/risc_v.sv:345-417 | in every cycle M does to the cache and to the data memory what a client's load, store or idle edge at its address does |
| System.SystemRefines | rtl/risc_v.sv:95-418 | the complete machine refines the sequential one as long as every cycle meets the conditions under its own cache |
| System.FreezeEnds | rtl/cache/cache.sv:39-60 | a load in M leaves after at most three frozen cycles, unchanged, and with the data memory's word after two or three |
| System.SystemProgress | rtl/risc_v.sv:95-418 | the complete machine retires at least k instructions in any 6k + 3 cycles if none is lost, whatever its cache holds and serves |
| System.SystemRate | rtl/risc_v.sv:95-418 | from reset, 10 + 6k cycles retire at least k instructions |
| System.HitServesIff | rtl/risc_v.sv:417 | with coherent lines a load that hits is served its own data exactly when the registered line stands for a word that reads the same |
| System.HitPersists | rtl/cache/cache.sv:39-42 | a hit outlives its load: the next cycle is driven the same hit and word, whatever M then holds |
| Held.HeldRefines | rtl/cache/cache.sv:27-62 | for a program whose every access is word-aligned and preceded by two instructions that compute its word's address, every cycle is correct and the complete machine refines the sequential one, with coherent lines throughout |
| Held.HeldRate | rtl/cache/cache.sv:39-60 | and it retires at least k instructions in 10 + 6k cycles |
| HeldExample.TwiceIsHeld | rtl/cache/cache.sv:27-62 | ADDI x1, x0, 4 twice and LW x2, 0(x1) is such a program |
| HeldExample.LoadsItsWord | rtl/risc_v.sv:417 | switched on with any data, the complete machine executes it correctly in every cycle and x2 is the word at 4 |
| Refresh.RefreshRefines | rtl/cache/cache.sv:52-60 | from empty lines, the complete machine refines the sequential one over the instructions of a program that makes every load miss and refill its own line |
| Refresh.RefreshReaches | rtl/cache/cache.sv:39-60 | and it commits k of them within 10 + 6k cycles |
| Unread.UnreadRefines | rtl/risc_v.sv:95-418 | when hits are truthful except for loads into a register that the execution never names, data memory and every other register are the sequential ones |
| Unread.UnreadLossless | rtl/hazard_unit/hazard_unit.sv:66-73 | and no instruction is lost |
| Unread.Shadow | rtl/risc_v.sv:95-418 | and on the complete machine each cycle is correct exactly when its own load data are current |
| Unread.SparesRefines | rtl/risc_v.sv:345-417 | the same of the complete machine with its own cache |
| Passing.Leaves | rtl/risc_v.sv:95-418 | on such a machine every instruction k leaves M, within 10 + 6 × (k + 1) cycles |
| Passing.OneDeparture | rtl/reg_file_m/reg_file_m.sv:30-42 | and no load leaves M twice |
| Counterexamples.AuipcForwardsImmediate | rtl/control_unit/decoders/main_decoder.sv:80-91 | AUIPC followed by a reader gives it the immediate instead of PC+4 |
| Counterexamples.JalrUsesStaleBase | rtl/risc_v.sv:274 | JALR right after its base is written jumps to the old value |
| Counterexamples.RedirectBehindMissLost | rtl/hazard_unit/hazard_unit.sv:66-73 | any redirect right behind any load that misses is flushed without being taken and is in no stage ever after |
| Counterexamples.BranchBehindMissLost | rtl/hazard_unit/hazard_unit.sv:66-73 | LW then a taken BEQ on the complete machine: the branch is lost for good and the machine sets a register that the sequential machine never sets |
| Counterexamples.SecondLoadStale | rtl/cache/cache.sv:39-60 | LW from 4 then LW from 0 on the complete machine: the second is served the word at 4, and only if the two words are equal is the cycle correct |
| Counterexamples.SecondLoadWrong | rtl/risc_v.sv:417 | so after both loads x2 holds the word at 4 where the sequential machine has the word at 0 |
| Hardware.Pc.RisingEdge | rtl/pc/pc.sv:11-14 | reset, hold, load |
| Hardware.RegFileD.RisingEdge | rtl/reg_file_d/reg_file_d.sv:16-28 | clear beats hold |
| Hardware.RegFileE.RisingEdge | rtl/reg_file_e/reg_file_e.sv:49-91 | clear beats hold |
| Hardware.RegFileM.RisingEdge | rtl/reg_file_m/reg_file_m.sv:30-42 | hold or load |
| Hardware.RegFileW.RisingEdge | rtl/reg_file_w/reg_file_w.sv:28-38 | hold or load |
| Hardware.RegFile.FallingEdge | rtl/reg_file/reg_file.sv:20-22 | the array after the edge is the specified write of the array before; register 0 is never written |
| Hardware.DataMem.RisingEdge | rtl/data_mem/data_mem.sv:24-36 | the byte array after the edge is the lane-enabled write of the array before |
| Hardware.CacheUnit.RisingEdge | rtl/cache/cache.sv:39-62 | lines, hit, tag and set after the edge, all from values before it, as `Cache.EdgeExact` spells out |
| Hardware.Cpu.Tick | rtl/risc_v.sv:95-418 | one cycle of the objects is one step of the complete machine on their values |
| Hardware.StepByParts | rtl/risc_v.sv:95-418 | a state whose registers each hold their next value is the next state |
| Alu.Add | rtl/alu/alu.sv:33 | addition modulo 2^32, C the carry out |
| Alu.Sub | rtl/alu/alu.sv:34 | subtraction modulo 2^32, C exactly the unsigned borrow, Zero exactly equality |
| Alu.SetLess | rtl/alu/alu.sv:36-43 | SLT compares signed, SLTU unsigned |
| Alu.Shifts | rtl/alu/alu.sv:35-46 | SLL multiplies modulo 2^32, SRL and SRA round the quotient by 2^(b mod 32) down |
| Alu.ArithmeticShiftFloors | rtl/alu/alu.sv:46 | the mask-and-OR form of SRA is floor(signed(a) / 2^n) |
| Alu.LogicBits | rtl/alu/alu.sv:44-48 | each bit of AND, OR and XOR is the conjunction, the disjunction and the inequality of the operands' bits |
| Alu.LogicSums | rtl/alu/alu.sv:44-48 | as numbers, AND plus OR is the sum of the operands, and so is XOR plus twice AND |
| Alu.OtherOperations | rtl/alu/alu.sv:35-50 | operation 11 passes SrcB, the unused codes give zero, and C is clear but for sum and difference |
| Alu.FlagsMean | rtl/alu/alu.sv:52-54 | Zero and N are those of the result, and V after an addition is signed overflow |
| Alu.EqualityAndUnsignedBranches | rtl/flags/flags.sv:23-37 | BEQ, BNE, BLTU and BGEU are decided correctly for all operands, and the unused funct3 codes never branch |
| Alu.SignedBranches | rtl/flags/flags.sv:20-33 | BLT and BGE are decided as signed comparisons exactly on the stated operand pairs |
| Alu.SignedBranchWrong | rtl/alu/alu.sv:54 | BLT falls through on 1 < 2 |
| DataMemory.StoreBytes | rtl/we_decoder/we_decoder.sv:11-56 | a store of size k changes exactly bytes a..a+k-1, aligned or not |
| DataMemory.LoadReads | rtl/ld_decoder/ld_decoder.sv:9-27 | loads are sign- or zero-extended little-endian readings |
| DataMemory.StoreThenLoad | rtl/data_mem/data_mem.sv:24-38 | loading what was stored gives it back; disjoint loads are unaffected |
| Encoding.RoundTrip | rtl/sign_extend/sign_extend.sv:11-19 | decoding an encoded instruction recovers its registers, exact immediate, control signals and ALU operation |
| Encoding.EncodeInjective | rtl/risc_v.sv:164-170 | no two instructions share an encoding |
| Encoding.OpFields | rtl/risc_v.sv:164-170 | the word of a register operation, field by field: the top seven bits are 0100000 for SUB and SRA and zero for the others |
| Encoding.OpImmFields | rtl/risc_v.sv:164-170 | that of an immediate operation: the whole immediate, or the shift amount under the same seven bits |
| Encoding.LoadFields | rtl/sign_extend/sign_extend.sv:13 | those of loads and of JALR |
| Encoding.StoreFields | rtl/sign_extend/sign_extend.sv:14 | that of a store, its immediate in two parts |
| Encoding.BranchFields | rtl/sign_extend/sign_extend.sv:15 | that of a branch, its immediate in four parts |
| Encoding.UpperFields | rtl/sign_extend/sign_extend.sv:16 | those of LUI and AUIPC |
| Encoding.JalFields | rtl/sign_extend/sign_extend.sv:17 | that of JAL, its immediate in four parts |
| TestWords.RegisterWords | programs/single_instruction_tests/r-type/xor/instr_mem.mem:6 | the words of the register operations in the test programs are the encodings: 0x00D645B3 for XOR, 0x00D675B3 for AND, 0x00D665B3 for OR, 0x40D605B3 for SUB and so on |
| TestWords.BranchWords | programs/single_instruction_tests/b-type/bge/instr_mem.mem:4 | and those of the six branches |
| TestWords.LoadWords | programs/single_instruction_tests/i-type/lhu/instr_mem.mem:9 | and those of the five loads |
| TestWords.StoreWords | programs/single_instruction_tests/s-type/sb/instr_mem.mem:2 | and those of SB and SH |
| TestWords.JumpWords | programs/single_instruction_tests/i-type/jalr/instr_mem.mem:2-5 | and those of JAL and JALR |
| ControlUnit.Funct7Matters | rtl/control_unit/decoders/alu_decoder.sv:30-56 | bit 30 changes the operation exactly for SRL, and for ADD between registers |
| Conformance.LogicConforms | rtl/alu/alu.sv:44-48 | AND, OR and XOR are the ISA's, which are stated bit by bit |
| Conformance.AluConforms | rtl/control_unit/decoders/alu_decoder.sv:21-62 | every OP and OP-IMM operation computes its RV32I value |
| Conformance.UpperConforms | rtl/control_unit/decoders/main_decoder.sv:80-103 | LUI conforms; AUIPC does exactly when it writes x0 |
| Conformance.JumpConforms | rtl/risc_v.sv:274-275 | JAL conforms; JALR does exactly when its target sum is even |
| Conformance.BranchConforms | rtl/flags/flags.sv:19-41 | a branch conforms exactly when decided correctly, or when its target is the next instruction |
| Conformance.LoadConforms | rtl/ld_decoder/ld_decoder.sv:9-27 | loads conform, with addresses modulo 2^17 and bytes in range |
| Conformance.StoreConforms | rtl/data_mem/data_mem.sv:24-36 | stores conform, with addresses modulo 2^17 and bytes in range |
| Conformance.StepConformsIff | rtl/control_unit/decoders/main_decoder.sv:19-140 | the sequential step is the RV32I step on every state, exactly when `Supported` |
| Conformance.StepDeparts | rtl/risc_v.sv:271-275 | and on every state it is the RV32I step with exactly three departures: AUIPC gives PC + 4, JALR keeps bit 0 of its target, and a misjudged signed branch goes the other way |
| Conformance.JalrDeparts | rtl/risc_v.sv:274-275 | for an odd sum JALR's PC is the RV32I one plus one |
| Conformance.UnknownOpcode | rtl/control_unit/decoders/main_decoder.sv:128-139 | a word with any other opcode writes nothing and goes to the next instruction, or to rs1 plus its upper twelve bits when the opcode has the jump pattern 11xx111 |
| IsaRuns.SeqIsIsa | rtl/risc_v.sv:95-418 | the sequential machine executes RV32I for any number of supported instructions |
| IsaRuns.PipelineRunsIsa | rtl/risc_v.sv:95-418 | the pipeline implements RV32I: its registers and memory are those of the RV32I execution of the committed instructions |
| Cache.EdgeExact | rtl/cache/cache.sv:27-62 | what any edge does, whether or not the hit is of the registered address: which line changes, to which valid bit, tag and bytes, and the new hit, tag and set |
| Cache.StoreUnderHitIff | rtl/cache/cache.sv:43-51 | an aligned store under any hit, stale or not, keeps the lines coherent exactly when the bytes it leaves alone in its line are memory's already, so always when it is of a whole word |
| Cache.EffectBytes | rtl/data_mem/data_mem.sv:24-36 | the flat memory of the protocol: at any address a store changes the bytes from there on, as many as its size, and nothing else |
| Cache.RefillIff | rtl/cache/cache.sv:52-60 | a refill keeps the lines coherent exactly when the word found belongs to the registered address |
| Cache.RefillOfStaleAddress | rtl/cache/cache.sv:39-60 | a load that misses just after another address was presented corrupts that address's line |
| Cache.HeldAddress | rtl/cache/cache.sv:39-42 | after two idle edges tag, set and hit describe the held address |
| Cache.AccessCorrect | rtl/cache/cache.sv:27-62 | a held, aligned access finds the memory's word and leaves every valid line equal to its memory word |
| Cache.FitsIff | rtl/cache/cache.sv:27-62 | a held access to any address, aligned or not, finds its word and keeps the lines coherent exactly when it fits: a load, when the aligned word below reads the same; a store, when the aligned store would leave the same words wherever a line is valid |
| Cache.ByteMisplacedIff | rtl/cache/cache.sv:43-51 | at an unaligned address a byte store fits exactly when its word's line is absent, or the byte and the lowest byte of the word held the stored value already |
| Cache.CacheTransparent | rtl/cache/cache.sv:27-62 | for any sequence of held accesses that fit every load returns what a flat byte memory would |
| Cache.OneLoadIff | rtl/cache/cache.sv:27-42 | for a single load after any number of idle edges this holds exactly when no hit is claimed or the line served stands for an equal word |
| Cache.AlignedFit | rtl/cache/cache.sv:27-62 | word-aligned accesses of any size always fit |
| Cache.FindsIff | rtl/cache/cache.sv:27-42 | at any address and after any number of idle edges a load finds the memory's word exactly when no hit is claimed or the line served stands for an equal word |
| Cache.TwoEdgesIff | rtl/cache/cache.sv:27-42 | so after two idle edges it does exactly when no hit is claimed or the aligned word below reads the same, as it always does at an aligned address |
| Cache.OneIdleEdgeTooFew | rtl/cache/cache.sv:40-42 | with one idle edge a load can be given another address's word |
| Cache.MissStallEnds | rtl/cache/cache.sv:39-60 | hit rises after at most three edges, and what the word read then is in each case |
| Pdf.Init | programs/pdf/pdf.s:12-18 | the 256 bins are zero, nothing else changes |
| Pdf.Build | programs/pdf/pdf.s:20-34 | terminates for any data, with every bin equal to the count of its value among the bytes read, exactly one bin at 200 and nothing else changed |
| Pdf.Display | programs/pdf/pdf.s:36-43 | bins 0 to 254 are shown in order |
| Pdf.TotalIsReads | programs/pdf/pdf.s:25-33 | the bins sum to the number of bytes read |
| Pdf.Pigeonhole | programs/pdf/pdf.s:33 | while all bins are below 200 fewer than 50945 bytes have been read, so no address leaves the memory |
| Pdf.StopsOnce | programs/pdf/pdf.s:25-33 | for any data there is exactly one place where the loop stops |
| PdfCode.ImageEncodes | programs/pdf/instr_mem.mem:1-28 | the shipped words are the encodings of the instructions of pdf.s |
| PdfShape.ShapeStep | programs/pdf/pdf.s:5-43 | control flow of the program, including its returns |
| PdfShape.PdfWellSpaced | programs/pdf/instr_mem.mem:1-28 | every execution of the program meets the pipeline's spacing conditions |
| PdfRuns.BuildPass | programs/pdf/pdf.s:25-33 | one pass of the machine code through _loop2 extends the histogram by one byte |
| PdfRuns.PdfComputes | programs/pdf/pdf.s:5-43 | from instruction 777 + 8 × stop on, memory is the start memory with the finished histogram in the bins, for ever |
| PdfLoop.PdfNeverNames | programs/pdf/instr_mem.mem:1-28 | no instruction that the program executes has a0 in a source register field |
| PdfLoop.PdfOnPipeline | rtl/risc_v.sv:95-418 | the pipeline running the shipped image has that histogram in memory from that instruction on and loses nothing, however often it is frozen and whatever the cache serves to a0, if other hits are truthful |
| PdfPath.PdfRefreshes | programs/pdf/pdf.s:20-40 | up to the first load of display, for any data, the program refreshes: each load is right behind the instruction that computes its address, which a bubble or a low address precedes, so that no stale line can be hit |
| PdfPath.PdfOnSystem | rtl/risc_v.sv:95-418 | the complete machine, switched on with the image and any data, has the finished histogram in memory when build returns, within 10 + 6 × (777 + 8 × stop) cycles, nothing assumed of the cache |
| PdfPath.HistogramStands | rtl/risc_v.sv:95-418 | and in every cycle from then until display begins to load, all of them correct |
| PdfLoop.WhichLoad | programs/pdf/pdf.s:36-43 | after the histogram is finished, the loads executed are those of bins 0 to 254, pass after pass, and no others |
| PdfDisplay.PdfSpares | rtl/cache/cache.sv:39-60 | for any data, the only words that the source's own cache ever serves wrongly to the program go to a0 |
| PdfDisplay.HistogramForever | rtl/risc_v.sv:95-418 | so on the complete machine the histogram is in memory in every cycle from the return of build on, for ever, and no instruction is ever lost |
| PdfDisplay.DisplayShows | rtl/cache/cache.sv:39-60 | in whichever cycle the load of bin j of pass p leaves M, a0 is given the count of value j for bins 0 to 4 of the first pass and bin 0 of every pass, and that of value 4 otherwise; the cycle is correct exactly when that is the count of value j |
| PdfDisplay.OnlyDisplayWrong | rtl/risc_v.sv:417 | no other cycle is ever wrong |
| PdfDisplay.PdfCorrectIff | programs/pdf/pdf.s:36-43 | the complete machine executes the program correctly for ever exactly when the values 1 to 254 occur equally often |
| PdfDisplay.DisplayStale | rtl/cache/cache.sv:52-60 | every cycle is correct up to the one in which the load of bin 5 of the first pass leaves M, and that one is exactly when the values 4 and 5 occur equally often |

## Left out

- Runs.WellSpacedRefines: the spacing of loads is exact (`Schedules.AlwaysOkIff`), that of AUIPC and of jump bases is sufficient: a stale operand or base may happen to have the right value, and the exact condition is then that of `Refinement.CycleKeepsIff`, on one cycle's signals.
- Held.HeldRefines: holding addresses is sufficient; which hits are right in a single cycle is stated exactly by `System.HitServesIff`.
- Cache.CacheTransparent: that every access fits is sufficient for a sequence of accesses; of a single one it is exact (`Cache.FitsIff`).
- Reads past the end of the data memory give zero and writes there are ignored; unknown values and clock-edge races do not exist in the model.
- The reset input acts on `Pc` only, as in the source; runs start from a state with no instruction in flight instead.
- The instruction memory is a map from addresses to words; its byte array, its size and its loading are not modelled.
- FENCE, ECALL, EBREAK and the traps for misaligned targets have no counterpart in the source; opcodes outside RV32I are executed as `Conformance.UnknownOpcode` says but not compared with the ISA.
- The debug outputs `a0`, `reg_output`, `pc_viewer` and the display board driver.
- The programs counter, sinegen and f1_starting_light and the single-instruction tests: finite or simpler than pdf.s.
- `rtl/pipeline_risc_v_draft.sv` and `rtl/data_mem_wrapper`: a superseded draft and a test wrapper.
