# A verified model of the UHCR compiler and runtime

UHCR lowers Python functions to a small SSA intermediate representation, optimizes it with
rewriting passes, and either interprets it or assembles it to machine code. This project models
that path in Dafny and proves that its ends agree, together with the runtime structures beside
it whose fast form must match a simple one.

- `ir`, `interp`, `cfg`, `invariant`, `interp_laws`: the representation as values, the reference
  interpreter as a step function, dominance by paths, the invariant every run keeps, and what each
  step does to memory and when it can fail.
- `rewrite`, `refinement`: every pass is one rewriting; a sound rewriting simulates the original
  step by step and ends with the same value and memory.
- `sweep`, `sweeping`, `fold_reduce`, `cse`, `sharing`, `settled`, `dead_code`, `pipeline`: the four
  passes and the bounded pipeline on values; `sharing` says what elimination drops in terms of the
  expressions the function computes, and `exhaustive` what every pass drops and leaves nothing of.
- `ir_objects`, `pass_objects`, `dead_code_objects`, `pipeline_objects`: the same passes, the
  pipeline and the interpreter loop on mutable instruction and block objects, each proved to
  compute the value form.
- `little_endian`, `division`, `x86`, `assembler`, `assembler_objects`, `machine`: instruction bytes
  and a decoder, label patching, and a processor that runs bytes.
- `codegen`, `codegen_objects`, `native`, `simulation`, `native_main`, `native_ready`,
  `end_to_end`, `callers`: the x86-64 code generator and its simulation of the interpreter, up to
  the bytes, with hypotheses a caller can check.
- `branch_words`, `branch_patching`: branch patching of the RISC-V and AArch64 assemblers, whose
  label machinery is the same and is modelled once.
- `tracing`, `jit_objects`, `jit`: tracing a Python body, and the whole path from it to bytes.
- `sequences`, `examples`: what several modules say of sequences, and two loops the theorems are
  applied to.
- `vector_multiply`, `memory_pool`, `string_pool`, `list_runtime`, `coordinator`,
  `coordinator_objects`, `scheduler`: the unrolled multiplication and the runtime structures.

A well-formed function has instructions that occur once, blocks that end in their only
terminator, and operands that stand earlier in the layout and, in reachable blocks, strictly
dominate their uses. Meaning is over unbounded integers; memory maps a handle to a list. The
native theorems are about functions without LOAD and STORE whose branches test the comparison
directly before them. Exceptions and failed assertions are `None` or a false `ok`.

Where the code and a plausible reading of it differ, the code is followed:

- Sharing a value across sibling blocks loses the meaning of a well-formed function
  (`Cse.SiblingsLoseTheirMeaning`). `Sharing.ReachesExactly` says on the function as it is given when
  elimination keeps it well formed, and with that its meaning; `Cse.OperationsShare` is a condition
  on operations and dominators that every pass keeps.
- A frame of 2^31 bytes or more compiles, but its prologue moves the stack pointer the wrong way
  (`NativeMain.FrameMadeExactly`).
- A traced body whose result is a plain number compiles to a function that returns nothing, and
  one that subtracts a traced value from a number does not compile (`Tracing.CompilesExactly`).
- A list made with no capacity can never grow (`ListRuntime.List.Append`).
- A pool miss is counted before the system is asked for memory
  (`MemoryPools.MemoryPool.HitsAndMisses`).
- A branch too far for its format is wrapped around without an error (`BranchWords.ReachedExactly`).

## Model

| member | source | states |
|---|---|---|
| Interp.EffectKinds | uhcr/backends/cpu_generic.py:113-261 | only the value opcodes assign, only STORE writes memory, only BR, JMP and RET leave the block |
| Interp.Index | uhcr/backends/cpu_generic.py:122-149 | an index into a list succeeds exactly from minus the length up to below the length; a negative one counts from the end |
| Interp.HaltedStays | uhcr/backends/cpu_generic.py:97-261 | a run that has returned or failed never changes again |
| InterpLaws.LoadLaw | uhcr/backends/cpu_generic.py:122-135 | a LOAD leaves the element its index names, from the end for a negative one, and fails exactly outside the list |
| InterpLaws.StoreLaw | uhcr/backends/cpu_generic.py:137-149 | a STORE puts its value at that place and leaves every other place and every other list as it was, or fails |
| InterpLaws.LoadAfterStore | uhcr/backends/cpu_generic.py:122-149 | a LOAD after a STORE gives the stored value where both name one place, however they count, and else what it would have given before |
| InterpLaws.CompareLaw | uhcr/backends/cpu_generic.py:202-218 | each of the six comparisons leaves 1 or 0 by the order of its operands, and any other condition fails |
| InterpLaws.ControlLaw | uhcr/backends/cpu_generic.py:94-100 | a jump arrives at the start of the last block with its label with nothing else changed; running off a block starts it again |
| InterpLaws.EdgesExactly | uhcr/backends/cpu_generic.py:220-229 | an edge of the control-flow graph is exactly a jump that some values of the operands make |
| InterpLaws.FailsExactly | uhcr/backends/cpu_generic.py:97-261 | in a well-formed function with arguments given and labels declared, a reachable step fails if and only if a LOAD or STORE names no place of a list |
| InterpLaws.NeverFails | uhcr/backends/cpu_generic.py:86-263 | so without LOAD and STORE no run fails, however long |
| Examples.CountdownEnds | uhcr/backends/cpu_generic.py:97-261 | a well-formed loop that counts a list element down in memory ends, with just that element changed |
| PipelineObjects.Turn | uhcr/backends/cpu_generic.py:97-261 | one turn of the loop over instruction objects is one step of the semantics, falling off a block's end included |
| PipelineObjects.Interpret | uhcr/backends/cpu_generic.py:86-263 | the loop over instruction objects computes the run of the function's value |
| PipelineObjects.FindBlock | uhcr/backends/cpu_generic.py:94 | the label table finds the last block with a label |
| Cfg.DominatorsOk | uhcr/compiler/ir.py:231-262 | dominance by paths satisfies the local rule on every edge and is a strict order |
| Cfg.SameDominators | uhcr/compiler/ir.py:231-262 | dominance depends on the blocks and their edges alone |
| RunInvariant.StepIsSane | uhcr/backends/cpu_generic.py:97-261 | every step keeps the run invariant: each pure value that strictly dominates the program point equals its operation on its operands' present values |
| RunInvariant.RunsAreSane | uhcr/backends/cpu_generic.py:86-263 | the invariant holds after every number of steps, loops included |
| Rewrite.RewriteWellFormed | uhcr/compiler/passes/strength_reduction.py:40-62 | dropping value instructions and substituting scoped operands keeps a function well formed, with the same edges |
| Rewrite.DroppedStep | uhcr/compiler/passes/strength_reduction.py:45-59 | a step of a deleted instruction leaves the rewritten run where it stands |
| Rewrite.KeptStep | uhcr/compiler/passes/strength_reduction.py:54-57 | a step of a kept instruction is one step of the rewritten run, with the same effect |
| Refinement.RewritePreserves | uhcr/compiler/passes/pipeline.py:51-85 | a sound rewriting returns the same value and memory in no more steps, ends only where the original ends or fails, and compares nothing wider |
| Sweeping.FinalAt | uhcr/compiler/passes/constant_folding.py:33-51 | what the forward sweep decides at an instruction is what its final replacement table says |
| Sweeping.OperandsFinal | uhcr/compiler/passes/cse.py:53-79 | operands resolved during the sweep equal operands resolved with the final table |
| Sweeping.SweepIsRewrite | uhcr/compiler/passes/constant_folding.py:31-55 | each of the three forward passes is one rewriting by its final table |
| FoldReduce.DecideSound | uhcr/compiler/passes/strength_reduction.py:64-116 | the folded constant, or the reduced operand, is the value the instruction computes, for all integers |
| FoldReduce.ResolvedScoped | uhcr/compiler/passes/strength_reduction.py:124-128 | one lookup resolves whole chains: no replacement names a deleted instruction, and each is defined where its use is |
| FoldReduce.ResolvedAgrees | uhcr/compiler/passes/strength_reduction.py:45-59 | under the run invariant an operand and its replacement have one value |
| FoldReduce.FoldReducePreserves | uhcr/compiler/passes/constant_folding.py:31-104 | constant folding and strength reduction keep meaning, well-formedness and dominators |
| Exhaustive.FoldExhausts | uhcr/compiler/passes/constant_folding.py:31-88 | after folding no addition, subtraction or multiplication has two numbers for operands |
| Exhaustive.FoldsExactly | uhcr/compiler/passes/constant_folding.py:57-88 | folding drops an instruction if and only if, its operands resolved, both are numbers; their sum, difference or product takes its place |
| Exhaustive.ReduceExhausts | uhcr/compiler/passes/strength_reduction.py:40-116 | after strength reduction nothing is multiplied by 0 or 1, nothing has 0 added or subtracted, and nothing is subtracted from itself |
| Exhaustive.ReducesExactly | uhcr/compiler/passes/strength_reduction.py:64-116 | reduction drops exactly those, their operands resolved, for zero or the other operand |
| Cse.SharedWith | uhcr/compiler/passes/cse.py:64-77 | a deleted instruction is replaced by an earlier, kept instruction of the same opcode, type and key |
| Cse.TargetsKept | uhcr/compiler/passes/cse.py:108-112 | replacement targets are kept instructions, so one-step resolution is enough |
| Cse.SharedAgrees | uhcr/compiler/passes/cse.py:46-82 | wherever a deleted instruction and the one kept for it are both available, they have one value |
| Sharing.DroppedExactly | uhcr/compiler/passes/cse.py:49-106 | an instruction is dropped if and only if an earlier arithmetic instruction computes the same expression, read as a tree of operations on arguments, constants and other values |
| Sharing.SharedWithEarliest | uhcr/compiler/passes/cse.py:64-77 | it is replaced by the earliest instruction with that expression, which is kept |
| Cse.CsePreserves | uhcr/compiler/passes/cse.py:46-112 | elimination keeps meaning, well-formedness and dominators when what it shares dominates |
| Sharing.ReachesExactly | uhcr/compiler/passes/cse.py:46-112 | for a well-formed function the result is well formed if and only if, on the original, wherever an instruction that is no duplicate reads a value, the first instruction with that value's expression strictly dominates it; then meaning is kept |
| Sharing.UnreachedOnSomePath | uhcr/compiler/passes/cse.py:46-112 | where that fails, a path of blocks from the entry reaches such a read before the first computation |
| Exhaustive.CseExhausts | uhcr/compiler/passes/cse.py:60-79 | after elimination no two arithmetic instructions have the same opcode, type and operands |
| Cse.SharingDominatesExactly | uhcr/compiler/passes/cse.py:46-112 | the condition on the replacement table holds if and only if the result is still well formed |
| Cse.FirstsDominateSuffices | uhcr/compiler/passes/cse.py:49-77 | it does when each first occurrence strictly dominates the duplicates deleted for it |
| Cse.OperationsShare | uhcr/compiler/passes/cse.py:46-112 | a condition on the original alone is enough: of two blocks with the same arithmetic operation, the earlier in the layout dominates the later; loops and branches are allowed |
| Cse.SingleBlockShares | uhcr/compiler/passes/cse.py:46-82 | a single-block function always meets the condition |
| Cse.SiblingsLoseTheirMeaning | uhcr/compiler/passes/cse.py:49-77 | a well-formed function with duplicates in sibling blocks returns 3 on (2, 1); after elimination it fails there, so its meaning is lost |
| Settled.SweepIdempotent | uhcr/compiler/passes/cse.py:46-82 | a second run of a forward pass changes nothing |
| Settled.SweepCounts | uhcr/compiler/passes/constant_folding.py:31-55 | a forward pass that deletes nothing rewrites nothing |
| Settled.KeysAreUnique | uhcr/compiler/passes/cse.py:64-77 | no two shareable instructions left have the same key |
| DeadCode.RoundSettles | uhcr/compiler/passes/dead_code.py:49-64 | a round that deletes nothing leaves the function as it was and nothing dead |
| DeadCode.DceSettles | uhcr/compiler/passes/dead_code.py:44-68 | the loop ends with nothing left to delete |
| DeadCode.DceIdempotent | uhcr/compiler/passes/dead_code.py:44-68 | elimination of dead code is idempotent |
| DeadCode.RootsAct | uhcr/compiler/passes/dead_code.py:23-27 | the instructions never deleted are, in a well-shaped function, exactly those that for some operand values and memory write memory, jump or return |
| DeadCode.DceKeepsNeeded | uhcr/compiler/passes/dead_code.py:44-90 | what is left is exactly what the instructions that can write memory, jump or return reach through operands, in the original order |
| Exhaustive.DceExhausts | uhcr/compiler/passes/dead_code.py:44-90 | after elimination of dead code every instruction with a value that does not store, jump or return is read by some instruction |
| Exhaustive.DceKeepsEffects | uhcr/compiler/passes/dead_code.py:78-90 | and in any function whatever has no value, stores, jumps or returns stays in its block |
| DeadCode.DcePreserves | uhcr/compiler/passes/dead_code.py:44-90 | elimination of dead code keeps meaning, well-formedness and dominators |
| Pipeline.RunAllPreserves | uhcr/compiler/passes/pipeline.py:63-79 | every prefix of a pass list keeps meaning and well-formedness, where each elimination in it meets the sharing condition on the function it is given |
| Pipeline.OptimizePreserves | uhcr/compiler/passes/pipeline.py:51-85 | so does the whole bounded pipeline, for any pass list and bound, where every elimination of every iteration meets the sharing condition (`SharesSafely`) |
| Pipeline.DefaultPreserves | uhcr/compiler/passes/pipeline.py:97-119 | the five default passes, three times at most, keep meaning and well-formedness under the sharing condition |
| Pipeline.OperationsShareSafely | uhcr/compiler/passes/pipeline.py:51-85 | the condition of `Cse.OperationsShare` on the original alone gives the sharing condition at every elimination of every iteration, for any passes and bound: each pass keeps it |
| Pipeline.OperationsPreserve | uhcr/compiler/passes/pipeline.py:51-85 | so the pipeline keeps the meaning of every function that meets that condition |
| Pipeline.SingleBlockSharesSafely | uhcr/compiler/passes/pipeline.py:51-85 | every single-block function meets it, so the sharing condition holds at every elimination |
| Pipeline.PassCounts | uhcr/compiler/passes/pipeline.py:66-72 | no pass adds instructions; one that keeps the count changes nothing; each is idempotent |
| Pipeline.EarlyStopIsFixed | uhcr/compiler/passes/pipeline.py:63-85 | a pipeline that stops early has reached a fixed point of every pass, and running it again changes nothing |
| Exhaustive.EarlyStopIsClean | uhcr/compiler/passes/pipeline.py:97-119 | where the default pipeline stops because nothing changed, nothing is left to fold, reduce, share or delete |
| Exhaustive.DefaultIsThreeTimes | uhcr/compiler/passes/pipeline.py:97-119 | the default pipeline is folding, reduction, dead code elimination, sharing and dead code elimination, three times over: stopping early makes no difference |
| IrObjects.ReassignIds | uhcr/compiler/passes/cse.py:114-120 | remaining instructions are numbered in layout order and nothing else changes |
| PassObjects.SweepBlock | uhcr/compiler/passes/strength_reduction.py:45-59 | the loop over one block's instruction objects, overwriting operands in place, computes the sweep's output and table |
| PassObjects.RunSweep | uhcr/compiler/passes/cse.py:46-82 | a forward pass run on objects yields the pass's value and counts what it deleted |
| DeadCodeObjects.CollectUses | uhcr/compiler/passes/dead_code.py:70-76 | the loop collects exactly the referenced instructions |
| DeadCodeObjects.RunDce | uhcr/compiler/passes/dead_code.py:44-68 | the loop of rounds on objects terminates with the value of dead code elimination |
| PipelineObjects.OptimizationPipeline.RunOnce | uhcr/compiler/passes/pipeline.py:63-79 | all passes once: the new function, whether a count changed, and one record per pass |
| PipelineObjects.OptimizationPipeline.Run | uhcr/compiler/passes/pipeline.py:51-85 | the nested loops compute the bounded pipeline and all its records |
| PipelineObjects.RecordsExact | uhcr/compiler/passes/pipeline.py:61-84 | there is one record for each pass of each iteration, in order, and their counts lead without a gap from the function given to the result |
| PipelineObjects.RunDefault | uhcr/compiler/passes/pipeline.py:97-119 | the default pipeline built from objects is the five default passes, three times at most |
| X86.DecodeEncode | uhcr/compiler/x86_64/assembler.py:48-182 | a decoder of sections 2.1 and 2.2.1 of the Intel SDM, volume 2, reads back every form the assembler can write, with its exact length, RSP, RBP, R12 and R13 bases included; only a frame of 2^31 bytes or more reads differently, as a negative number |
| X86.DecodeAllEncodeAll | uhcr/compiler/x86_64/assembler.py:79-182 | any sequence of emitted instructions decodes, in one pass, to itself, frames read as above |
| X86.PushBytes | uhcr/compiler/x86_64/assembler.py:79-84 | the pushes of the named registers have the bytes of the Intel SDM's opcode table, which fixes their numbers |
| X86.PlaceRead | uhcr/compiler/x86_64/assembler.py:114-157 | the memory operand's bytes name the base and displacement, with the SIB byte and the forced displacement where they are needed |
| X86.MemOperandLength | uhcr/compiler/x86_64/assembler.py:114-157 | a memory operand takes the shortest displacement, and an SIB byte only for RSP and R12 |
| Assembler.AssembledDecodes | uhcr/compiler/x86_64/assembler.py:24-40 | in the assembled program each item decodes at its address to what the processor reads of it, and each jump, forward or backward, arrives at its label |
| Assembler.LabelsMark | uhcr/compiler/x86_64/assembler.py:24-27 | a label's address is the boundary of the item that declares it |
| AssemblerObjects.X86Assembler.Label | uhcr/compiler/x86_64/assembler.py:24-27 | a label is recorded at the present offset, and refused when it was declared before |
| AssemblerObjects.X86Assembler.EmitJump | uhcr/compiler/x86_64/assembler.py:281-334 | a jump is its opcode, an empty distance and a patch for it |
| AssemblerObjects.X86Assembler.ResolveLabels | uhcr/compiler/x86_64/assembler.py:29-40 | patching in place yields the linked code, and succeeds if and only if every label is declared within 32 bits |
| Machine.CodeRunsItems | uhcr/compiler/x86_64/assembler.py:19-40 | where no frame is 2^31 bytes or more, a run of the labelled items that returns is a run of the linked bytes that returns with the same processor |
| Machine.CodeRunsOn | uhcr/compiler/x86_64/assembler.py:19-40 | and a run of the items that never ends is one of the bytes that never ends |
| Codegen.SlotKept | uhcr/compiler/x86_64/codegen.py:40-53 | each value keeps the slot it was given |
| Codegen.SlotsDisjoint | uhcr/compiler/x86_64/codegen.py:27-56 | slots are aligned, inside the frame, apart from the arguments and from each other |
| Codegen.FrameIsTight | uhcr/compiler/x86_64/codegen.py:27-56 | the frame is the arguments, the values and the saved frame pointer, eight bytes each, rounded up to sixteen |
| Native.TableFollowsConvention | uhcr/compiler/x86_64/codegen.py:96-108 | the generator's table of argument registers is the calling convention's: RDI, RSI, RDX, RCX, R8, R9 for System V, and RCX, RDX, R8, R9 for Windows |
| NativeMain.EntryStores | uhcr/compiler/x86_64/codegen.py:96-108 | with more arguments than registers the prologue stores those that have one |
| CodegenObjects.X86CodeGenerator.PlanStackAndRegisters | uhcr/compiler/x86_64/codegen.py:27-56 | the loops fill the table of offsets with the planned slots and round the size to 16 |
| CodegenObjects.X86CodeGenerator.LoadScalar | uhcr/compiler/x86_64/codegen.py:58-76 | one load of the operand, or a failure exactly when it has no slot or does not fit |
| CodegenObjects.X86CodeGenerator.EmitNode | uhcr/compiler/x86_64/codegen.py:113-551 | each instruction's code, with the comparison fused into the branch |
| CodegenObjects.X86CodeGenerator.Compile | uhcr/compiler/x86_64/codegen.py:83-553 | compiling yields the linked program, and succeeds if and only if every operand can be loaded and the program assembles, for frames up to 2^32 bytes |
| CodegenObjects.AssemblesExactly | uhcr/compiler/x86_64/assembler.py:24-40 | a program assembles if and only if labels are unique, constants fit their fields (the frame size an unsigned one), and every jump's label is declared and near |
| CodegenObjects.WellFormedLoads | uhcr/compiler/x86_64/codegen.py:58-81 | every operand of a well-formed scalar function can be loaded |
| Native.StoreSlot | uhcr/compiler/x86_64/codegen.py:78-81 | writing a value's slot changes no other slot, no argument and no saved register |
| Native.LoadOperand | uhcr/compiler/x86_64/codegen.py:68-76 | a loaded register holds the operand's present value modulo 2^64 |
| Native.CompareNarrow | uhcr/compiler/x86_64/codegen.py:407-437 | on signed 64-bit numbers the fused branch condition decides as the interpreter's comparison does |
| Native.FallbackIsTruthTest | uhcr/compiler/x86_64/codegen.py:432-435 | the condition of a branch with no comparison before it in its block is the test of a word against zero |
| NativeMain.EntryRuns | uhcr/compiler/x86_64/codegen.py:83-108 | from a call that passes its arguments in the convention's registers, the prologue and argument moves establish the frame and the interpreter's first state |
| NativeMain.FrameMadeExactly | uhcr/compiler/x86_64/codegen.py:83-94 | running the assembled prologue's bytes subtracts the frame from RSP if and only if it is below 2^31 bytes; from there to 2^32 RSP moves up instead |
| Simulation.NativeStep | uhcr/compiler/x86_64/codegen.py:113-551 | each interpreter step is matched by at least one step of the code emitted for it; RET returns the value and restores RSP, RBP, RBX, RSI and RDI |
| NativeMain.NativeRuns | uhcr/compiler/x86_64/codegen.py:83-553 | whole runs, loops included, are matched |
| NativeMain.NativeCodeReturns | uhcr/compiler/x86_64/codegen.py:83-553 | where the interpreter returns, comparing signed 64-bit numbers, the linked bytes return the same value modulo 2^64 |
| NativeMain.NativeCodeRunsOn | uhcr/compiler/x86_64/codegen.py:83-553 | where the interpreter runs for ever, comparing signed 64-bit numbers, the linked bytes neither return nor stop |
| NativeMain.NativeReturnsExactly | uhcr/compiler/x86_64/codegen.py:83-553 | so, without faults and wide comparisons, the bytes return if and only if the interpreter does |
| NativePasses.OptimizeNativeReady | uhcr/compiler/passes/pipeline.py:51-85 | under the sharing condition the pipeline keeps each branch directly after the comparison it tests |
| EndToEnd.OptimizedNativeCodeAgrees | uhcr/compiler/x86_64/codegen.py:83-553 | under the sharing condition the bytes of the optimized function return what the interpreter returns on the original, modulo 2^64, when compared numbers fit in signed 64 bits |
| EndToEnd.DominatedCodeAgrees | uhcr/compiler/x86_64/codegen.py:83-553 | the same under the condition of `Cse.OperationsShare` on the original, loops and branches included |
| EndToEnd.OptimizedReturnsExactly | uhcr/compiler/x86_64/codegen.py:83-553 | on inputs where the original neither fails nor compares wide numbers, the optimized bytes return if and only if the interpreter returns on the original |
| Examples.SpinningCode | uhcr/compiler/x86_64/codegen.py:83-553 | the machine code of a loop that waits while its first argument is less than its second returns if and only if it is not |
| EndToEnd.BranchFreeAgrees | uhcr/compiler/x86_64/codegen.py:83-553 | for branch-free functions of any number of blocks joined by jumps, under the sharing condition, the results agree modulo 2^64 with no assumption on the values |
| EndToEnd.BranchFreeReturnsExactly | uhcr/compiler/x86_64/codegen.py:83-553 | for such functions, arguments given and labels declared, the code returns if and only if the function does |
| EndToEnd.SingleBlockAgrees | uhcr/compiler/x86_64/codegen.py:83-553 | with one block nothing more is asked |
| Callers.EmittedLabels | uhcr/compiler/x86_64/codegen.py:109-110 | the labels declared are the blocks' names, each once |
| Callers.SmallAssembles | uhcr/compiler/x86_64/codegen.py:83-553 | a function of distinct blocks whose targets exist, with 64-bit constants and less than two gigabytes of code and frame, assembles |
| Callers.SomeCaller | uhcr/compiler/x86_64/codegen.py:96-106 | for every such function, in either convention, and up to six or four arguments there is a start state that meets the calling convention |
| EndToEnd.NarrowResultIsExact | uhcr/compiler/x86_64/codegen.py:541-551 | a result that fits in signed 64 bits is returned exactly |
| BranchWords.OrSplit | uhcr/compiler/riscv/assembler.py:55-70 | bitwise or acts on the low bits and on the rest separately |
| BranchWords.FillDecodes | uhcr/compiler/riscv/assembler.py:45-72 | a patched B, JAL, AArch64 B or B.cond word reads back its distance, wrapped to the format's reach, with every other field unchanged |
| BranchWords.ReachedExactly | uhcr/compiler/aarch64/assembler.py:54-71 | the distance read is the distance meant if and only if it is within reach |
| BranchPatching.RiscvBranchWord | uhcr/compiler/riscv/assembler.py:132-154 | an emitted branch has an empty immediate and its registers and function in their fields |
| BranchPatching.JalWord | uhcr/compiler/riscv/assembler.py:156-161 | an emitted JAL has an empty immediate and its register in its field |
| BranchPatching.ArmBWord | uhcr/compiler/aarch64/assembler.py:329-333 | an emitted AArch64 B has an empty immediate and its opcode in place |
| BranchPatching.BcondWord | uhcr/compiler/aarch64/assembler.py:335-340 | an emitted B.cond has an empty immediate and its condition in its field |
| BranchPatching.WordAssembler.Branch | uhcr/compiler/riscv/assembler.py:132-161 | a branch appends its word and one patch |
| BranchPatching.WordAssembler.ResolveLabels | uhcr/compiler/riscv/assembler.py:45-72 | for any labels and patches every patched word carries its distance, every other word is unchanged, and it fails if and only if a label is missing |
| BranchPatching.LandsExactly | uhcr/compiler/aarch64/assembler.py:54-71 | a patched branch lands on its label if and only if the label is within reach, forward or backward |
| Tracing.TracedWellFormed | uhcr/frontend/decorator.py:117-163 | whatever is traced is a well-formed single-block function the code generator accepts |
| Tracing.TracedTypes | uhcr/compiler/ir_builder.py:30-60 | a number becomes a 32-bit constant, and an operation has its left operand's type |
| Tracing.TracingIsFaithful | uhcr/frontend/decorator.py:194-242 | on all arguments the emitted function returns the body's own value when the result is traced, and nothing when it is a plain number |
| Tracing.CompilesExactly | uhcr/frontend/decorator.py:117-163 | a body compiles if and only if it never subtracts something that depends on an argument from something that does not; the result is right if and only if it depends on an argument |
| JitObjects.Emit | uhcr/compiler/ir_builder.py:24-28 | a new instruction object at the block's end with the function's next number, and the function still valid |
| JitObjects.TraceOperation | uhcr/frontend/decorator.py:194-242 | each traced operator emits at most one instruction and returns its handle |
| JitObjects.CompileScalar | uhcr/frontend/decorator.py:117-155 | running the body on traced arguments builds the traced function |
| JitObjects.CompileOptimized | uhcr/runtime/runtime.py:31-40 | the runtime runs the default passes on the traced function |
| JitObjects.OptimizedReturns | uhcr/runtime/runtime.py:31-40 | the traced function after the five passes still returns the body's value within as many turns as it has operations and one more, or nothing for a plain result |
| JitObjects.JitFunction.Call | uhcr/frontend/decorator.py:34-52 | calls return Python's value before compilation and, interpreting the optimized function, after it, except that a compiled body with a plain result returns nothing |
| Jit.JittedCodeAgrees | uhcr/frontend/decorator.py:117-163 | tracing, passes, code generator, assembler and processor together compute what Python computes, modulo 2^64 |
| VectorMultiply.VectorizedOps.CompileMultiply | uhcr/api/vectorized_ops.py:81-122 | the nested loops build the unrolled program, and the cache holds the program of each size |
| VectorMultiply.MultipliesEachOnce | uhcr/api/vectorized_ops.py:81-122 | for every size the program stores each product once, in order, at its own index, and writes nothing else, even when buffers are shared |
| VectorMultiply.Stores | uhcr/backends/cpu_generic.py:164-180 | storing a vector writes its elements side by side |
| MemoryPools.FindSizeClass | uhcr/storage/memory_pool.py:213-222 | the smallest class that fits, or none when all are too small |
| MemoryPools.ClassFits | uhcr/storage/memory_pool.py:213-222 | a request up to 64 bytes takes the 64-byte class, and a larger one a class less than sixteen times, up to 4096 bytes less than four times, its size |
| MemoryPools.ClassExists | uhcr/storage/memory_pool.py:213-222 | a class fits exactly up to 16 megabytes |
| MemoryPools.MemoryPool.Allocate | uhcr/storage/memory_pool.py:224-275 | with a positive size whose class has a free buffer, the last one released is handed out, a hit is counted and the pool's bytes fall by the class; otherwise a miss is counted and the system is asked; either way the buffer is live, large enough and held by no one else |
| MemoryPools.MemoryPool.Release | uhcr/storage/memory_pool.py:277-307 | a held buffer goes to the end of its class's list when the cap allows, and is freed otherwise |
| MemoryPools.MemoryPool.ReleaseAll | uhcr/storage/memory_pool.py:309-321 | every pooled buffer is freed and no held one touched |
| MemoryPools.MemoryPool.HeldOrPooled | uhcr/storage/memory_pool.py:224-321 | in every reachable state no buffer is both held and pooled, and none is pooled twice |
| MemoryPools.MemoryPool.HitsAndMisses | uhcr/storage/memory_pool.py:224-275 | hits plus misses count successful and failed allocations, so they equal the successful ones if and only if the system never failed |
| MemoryPools.PooledChange | uhcr/storage/memory_pool.py:254-262 | the byte count follows the free lists |
| StringPools.StringPool.Intern | uhcr/runtime/string_pool.py:87-124 | the entry for the content with one more handle, or a new one with the next id; at a thousand strings exactly the held entries stay beside the new one |
| StringPools.StringPool.Release | uhcr/runtime/string_pool.py:126-138 | one handle less, and the count never below zero |
| StringPools.StringPool.GarbageCollect | uhcr/runtime/string_pool.py:154-164 | a content stays if and only if its entry is held, with the same entry, and the result is the number of entries that were not |
| StringPools.CollectedOk | uhcr/runtime/string_pool.py:140-152 | collection keeps every string that is held |
| StringPools.CollectedExactly | uhcr/runtime/string_pool.py:140-152 | a collection keeps exactly the entries that have a handle |
| StringPools.StringPool.SameExactlyWhenEqual | uhcr/runtime/string_pool.py:87-164 | held strings are one object if and only if their contents, or ids, are equal, and each counts its handles |
| ListRuntime.SlicesRejoin | uhcr/runtime/list_runtime.py:171-196 | cutting at any bound, negative or beyond the ends, loses and repeats nothing |
| ListRuntime.SlicesJoin | uhcr/runtime/list_runtime.py:171-196 | adjacent slices join, and are as long as their bounds are apart |
| ListRuntime.NegativeBounds | uhcr/runtime/list_runtime.py:181-189 | negative bounds count from the end |
| ListRuntime.SliceElements | uhcr/runtime/list_runtime.py:171-196 | between bounds inside the list a slice is the elements from the first up to the second; bounds beyond the ends are the ends, and crossed bounds give nothing |
| ListRuntime.List.Append | uhcr/runtime/list_runtime.py:92-104 | appends, and fails if and only if the list was made with no capacity |
| ListRuntime.List.Pop | uhcr/runtime/list_runtime.py:106-119 | removes and returns the last element, or refuses an empty list |
| ListRuntime.List.Insert | uhcr/runtime/list_runtime.py:121-144 | inserts at any position from 0 to the length, and refuses the others |
| ListRuntime.List.Remove | uhcr/runtime/list_runtime.py:146-169 | removes the first occurrence, or refuses a value that is not there |
| ListRuntime.List.Slice | uhcr/runtime/list_runtime.py:171-196 | a new list equal to Python's slice, for all integers |
| ListRuntime.List.Grow | uhcr/runtime/list_runtime.py:198-211 | twice the capacity with the same elements |
| ListRuntime.List.GrowthIsAmortized | uhcr/runtime/list_runtime.py:92-211 | elements copied by growing are capacity minus initial capacity, and fewer than twice the appends and inserts |
| ListRuntime.FirstIndex | uhcr/runtime/list_runtime.py:155-163 | the place a search stops at is the first occurrence |
| Coordinators.RoundRobinShares | uhcr/network/coordinator.py:188-197 | from any cursor, m assignments give each worker exactly its share |
| Coordinators.SharesAreEven | uhcr/network/coordinator.py:188-197 | a share is m / n rounded down or up |
| Coordinators.LeastLoadedSpread | uhcr/network/coordinator.py:199-207 | least-loaded assignment never spreads loads beyond the larger of one and their first spread |
| Coordinators.TotalsGrow | uhcr/network/coordinator.py:185-186 | total active jobs grow by one for each assignment |
| CoordinatorObjects.LeastOf | uhcr/network/coordinator.py:199-207 | the earliest of the least loaded workers |
| CoordinatorObjects.HealthyInOrder | uhcr/network/coordinator.py:165-175 | the workers a job can go to are exactly the healthy ones, each once, in registration order |
| CoordinatorObjects.CandidatesExactly | uhcr/network/coordinator.py:229-244 | under affinity a worker is a candidate if and only if it has the architecture asked for, where some worker has, and then the instructions asked for, where some such worker has |
| CoordinatorObjects.ByAffinity | uhcr/network/coordinator.py:209-247 | the least loaded of the workers that match the hints, or of all when none does; of several the earliest |
| CoordinatorObjects.Coordinator.RegisterWorker | uhcr/network/coordinator.py:69-87 | a worker takes the very place of the one with its id, or comes last; all others keep theirs |
| CoordinatorObjects.Coordinator.AssignJob | uhcr/network/coordinator.py:151-186 | none if and only if no worker is healthy; otherwise the strategy's worker, ties to the earliest, has one more job and nothing else changes |
| CoordinatorObjects.ChosenIsStep | uhcr/network/coordinator.py:151-207 | an assignment is one step of the runs whose fairness is proved |
| Scheduler.ParallelFor | uhcr/runtime/scheduler.py:40-62 | one range for everything where there is one thread or no more iterations than threads; else consecutive ranges from 0 to the total, as many as threads at most, each a full chunk but the last |
| Scheduler.ChainCovers | uhcr/runtime/scheduler.py:49-62 | an index is in some range if and only if it is in [0, total) |
| Scheduler.RangesTile | uhcr/runtime/scheduler.py:49-62 | no index is in two ranges |
| Scheduler.AnyInterleaving | uhcr/runtime/scheduler.py:40-67 | once all workers are done, any interleaving of pointwise callbacks has the sequential result |

## Left out

- Sharing.ReachesExactly: exact for well-formedness of the result; a function that fails it may still keep its meaning on the paths its inputs take (`Sharing.UnreachedOnSomePath` gives a path of blocks, not an input that follows it).
- PipelineObjects.Interpret: takes the number of turns, because a function may loop forever.
- EndToEnd.OptimizedNativeCodeAgrees: arguments in registers, an aligned stack with room for the frame, and a frame below 2^31 bytes, which `NativeMain.FrameMadeExactly` shows is needed. The optimized function must assemble: folding can make a constant wider than 64 bits, which does not.
- Machine.CodeRunsItems: memory is 64-bit words at aligned addresses, and code and data do not overlap.
- JitObjects.JitFunction.Call: integer arguments of one signature, run by the interpreter. Where the runtime prefers native code, the result is the one of `Jit.JittedCodeAgrees`, modulo 2^64, and a plain result leaves RAX unspecified; the runtime's compile cache ignores operands and constants and is not transparent.
- JitObjects.TraceOperation: bodies that branch on, index or compare a traced value.
- VectorMultiply.MultipliesEachOnce: buffers shorter than the size, where a vector load is silently cut short; multiplication is any function.
- MemoryPools.MemoryPool.Allocate: addresses, alignment and contents of buffers; whether the system has memory is a parameter.
- StringPools.StringPool.Intern: strings that are not valid Unicode, hashing, and clearing the pool.
- CoordinatorObjects.Coordinator.AssignJob: job names are taken with their hints already parsed; an unknown strategy is round-robin; heartbeats and deregistration only change which workers are healthy or known.
- Scheduler.AnyInterleaving: callbacks that touch only their own index; thread creation and pinning.
- BranchPatching.WordAssembler.ResolveLabels: says nothing of the words after a failure, which leaves some of them patched.
- AssemblerObjects.X86Assembler.ResolveLabels: says nothing of the bytes after a failure.
- Division: folding floors, the interpreter divides exactly, and x86-64 code has no instruction for it.
- Floating-point opcodes: the algebraic reductions are not exact for them, and x86-64 code has no instruction for the scalar ones.
- LOAD and STORE in machine code: their element sizes differ from the interpreter's.
- Vectors in machine code: wide spill slots can overlap earlier slots.
- String, list, LOOP, BREAK, CONTINUE and PHI opcodes: the code generator only has placeholders for them.
- Arithmetic on list handles: handles are integers here, so it does not fail.
- The identity of Constant objects is a tag; two constants are one object only when their tags agree.
- The RISC-V code generator, AArch64 vector instructions, the other vectorized operations, and instructions other than branches of those two assemblers.
- Executable memory and calls through ctypes, GPU backends, hardware probing, servers, command line, plugins, storage back ends, logging and timing.
- Job lifecycle and byte chunking: true and easy.
