# A verified model of uASM

uASM is a small assembler, linker, virtual machine and ahead-of-time compiler. This project models the parts
of it in which something can go subtly wrong, and proves that it does not, or exactly when it does.

Code that works step by step in the C++ source is imperative here: emitters, readers, writers, the lexer, the
parser, the heap and the loop kernels are classes and methods with loops, each proved against a function that
says what it computes. The results about those functions are lemmas.

**Native backend against the interpreter.** `Arm64Machine` is an Arm state machine with a word decoder, after
the Arm Architecture Reference Manual (DDI 0487), sections C6.2 and C1.2.4. `Arm64Words` proves that each
instruction word decodes to what was meant, `Arm64Encoder` models the compiler of one function, `Codegen` the
concatenation and patching of all, `Relocation` what the patched words decode to. `NativeSyscalls` runs the
words around the supervisor call of a system call, `NativeErrors` says which functions and programs are refused
and why, and how many slots, parameters and arguments are counted. `Interpreter` is a big-step
semantics with a step bound, and the interpreter object proved against it; `InterpreterLaws` says what its
arithmetic means and exactly when it throws. `NativeLayout`, `NativeEffects`,
`NativeArith` and `Simulation` lead to the compiler correctness theorem in `CompilerCorrectness`. It also says
what holds at every step of a run: the stack pointer stays at or below where it was when a function was
entered, and no word from there on changes, so that the frames of live activations never overlap. `CompileExact`
says exactly which functions compile; `EndToEnd` connects all this to `Linker`, with a program that meets the
conditions (a call, a comparison, a taken branch) and a function outside them whose machine code returns
something else than the interpreter. Two conditions are on the source run (`CleanCall`): no register is read
before it is written with an i64, and each conditional branch has a `cmp` earlier in the same activation with
no call in between. `ParsedPrograms` shows what parsing and linking do not provide: neither counts operands,
and the compiler indexes them without a check. `ParallelCompile` models the worker threads of the
parallel compiler as steps that may interleave in any order, and which of several errors is reported.

**Heap and stack allocation.** `Heap` has the first-fit allocator with splitting over one byte memory, as
functions on the block list and as an object with the mutable list and memory; `Alloca` has the per-frame
lists and the account kept over whole call trees.

**Files.** `UoFormat` is the binary object format as `src/format/serializer.cpp` writes and reads it (the
layout in `spec/ISA.md` is a different one), `UoRoundTrip` and `UoTruncation` the theorems, `UoFiles` the
Writer and the Reader. `UoOldFormat` has the layout of files without a version word, `UoLayout` a whole file
byte by byte, and how files begin and flags read. `Lexer`, `Grammar`, `Parser` and `Disassembler` model the text form; `TextTokens`,
`TextModules`, `TextParse` and `TextPrograms` prove that printed programs parse back, `TextProduced` that
every parsed program is printable, `TextExact` that the condition is exact. `LexExact` says where the tokens of
a text stand, `ParamRefs` what `$name` stands for, `ParseExact` that a program is read only from the words it
is written with, and `TextOrder` in which order modules and functions are printed. The opcode table is a parameter, of
which only the entries of `call` and `ret` matter; `OpcodeTable` has its first 79 lines, which fix the opcode
numbers used here. A subtle point: an instruction that
could have operands but has none swallows the next mnemonic or label when its text is read, so it must be the
last one of its function. The parser never produces it anywhere else.

**Loops.** `Glob` (the file name matcher), `BitKernels` (Gray code, bit extract and deposit), `LimbChains`
(addc and subb), `IntegerLoops` (square root, power, gcd, lcm), `Utf8`, and `VectorLanes` (vector compress and
expand). `Utf8Exact` says which bytes are text and what they decode to, `BitExact` what the bit and lane kernels
do to each bit and lane.

`Ast` and `Bits` are shared: the program representation, and bitwise operations on natural numbers. The
64-bit, 128-bit and narrower widths of the C++ types are written out where they matter. Run
`dafny verify dfyconfig.toml` to verify the whole project.


## Model

| member | source | states |
|---|---|---|
| Arm64Words.DecodeAdd | src/codegen/arm64/encoder.cpp:54-56 | the word for an addition decodes to ADD of the same three registers |
| Arm64Words.DecodeSub | src/codegen/arm64/encoder.cpp:58-60 | the word for a subtraction decodes to SUB of the same three registers |
| Arm64Words.DecodeMul | src/codegen/arm64/encoder.cpp:62-65 | the word for a multiplication decodes to MADD with the zero register as addend |
| Arm64Words.DecodeSdiv | src/codegen/arm64/encoder.cpp:67-69 | the word for a division decodes to SDIV of the same three registers |
| Arm64Words.DecodeCmp | src/codegen/arm64/encoder.cpp:71-73 | the word for a comparison decodes to SUBS into the zero register, registers in order |
| Arm64Words.DecodeSlot | src/codegen/arm64/encoder.cpp:34-42 | store and load words of every slot below 4096 decode to an access at sp plus eight times the slot |
| Arm64Words.DecodeSpAdjust | src/codegen/arm64/encoder.cpp:111-123 | the frame adjustments decode to sp minus and plus the frame size, for sizes below 4096 |
| Arm64Words.DecodeLoadImm | src/codegen/arm64/encoder.cpp:24-32 | the four words of a constant decode to one MOVZ and three MOVK of its four 16-bit chunks |
| NativeEffects.LoadImm | src/codegen/arm64/encoder.cpp:24-32 | running the four words leaves exactly the 64-bit constant in the register and changes nothing else |
| Arm64Words.DecodePatch26 | src/codegen/arm64/encoder.cpp:93-99 | a patched B or BL decodes to the displacement if and only if it fits 26 bits |
| Arm64Words.DecodePatch19 | src/codegen/arm64/encoder.cpp:101-107 | a patched B.cond keeps its condition and decodes to the displacement if and only if it fits 19 bits |
| NativeLayout.MaxRegBounds | src/codegen/arm64/encoder.cpp:219-231 | the slot count exceeds every register a function names and is at most 510 when they are |
| NativeLayout.FrameSizeBounds | src/codegen/arm64/encoder.cpp:232 | the frame size is a multiple of 16, holds all slots and fits an unshifted 12-bit immediate for up to 510 slots |
| Arm64Encoder.CompileFunction | src/codegen/arm64/encoder.cpp:209-353 | the emitter loops yield the specified function: bytes, call fixups and each of the errors; what those words do is Simulation and NativeSyscalls, which errors NativeErrors |
| Arm64Encoder.Emitter.PatchBranches | src/codegen/arm64/encoder.cpp:342-350 | patching in place gives every pending branch its block offset, or reports the first label without a block |
| Arm64Encoder.ComputeMaxReg | src/codegen/arm64/encoder.cpp:219-231 | the nested loops find the highest slot count |
| NativeErrors.MaxRegExactly | src/codegen/arm64/encoder.cpp:219-231 | for every function: the slot count is that of the parameters or one more than the highest register used, register 0xFFFFFFFF apart, for which adding one wraps |
| NativeErrors.FrameOpensExactly | src/codegen/arm64/encoder.cpp:111-116 | the frame instruction opens a frame that holds all slots if and only if there are at most 510; above that the size overflows its field |
| NativeErrors.SupportedExactly | src/codegen/arm64/encoder.cpp:137-207 | the supported opcodes by number (the first sixteen and syscall) and the refused float types |
| NativeErrors.FirstParameters | src/codegen/arm64/encoder.cpp:237-239 | parameter k goes from register k to slot k; with CountsExactly: the first eight at most |
| NativeErrors.CountsExactly | src/codegen/arm64/encoder.cpp:237-239 | how many parameters are stored and how many arguments of a call or system call are loaded, also beyond eight |
| NativeErrors.RefusedExactly | src/codegen/arm64/encoder.cpp:209-353 | each error of the compiler if and only if its cause: an unsupported instruction; else an operand that cannot be loaded; else the first branch, in the order of the code, that names no block |
| NativeErrors.LinksExactly | src/codegen/codegen.cpp:29-51 | compiled functions link if and only if every call names one of them; otherwise the first call in the order of the code that does not is reported, and the entry is never missing |
| NativeErrors.FirstFailureExactly | src/codegen/codegen.cpp:64-75 | a program is refused with the error of the first function that does not compile |
| NativeSyscalls.NumbersAreKnown | src/codegen/arm64/encoder.cpp:164-179 | the system calls that are translated, with their numbers on both sides, and no others |
| NativeSyscalls.UpToSvc | src/codegen/arm64/encoder.cpp:326-332 | running the words of a system call up to svc: argument a is in x(a - 1) for the first three, x16 holds the Darwin number, and nothing else has changed |
| NativeSyscalls.ResultIsStored | src/codegen/arm64/encoder.cpp:333 | from any state behind svc the last word puts x0 into the slot of the destination and changes nothing else |
| NativeSyscalls.ArchitectureIsStored | src/codegen/arm64/encoder.cpp:321-325 | the pseudo call for the architecture leaves 3 in the slot of its destination |
| Codegen.LinkCompiledFunctions | src/codegen/codegen.cpp:21-51 | concatenation and in-place patching of calls give the specified code and entry offset, or the specified error |
| Codegen.CompileProgram | src/codegen/codegen.cpp:64-75 | compiling in order and linking gives the specified code or the first error |
| Relocation.RelocationTheorem | src/codegen/codegen.cpp:29-45 | in linked code every branch decodes to the first instruction of its block, every call to the start of its callee and every other word to itself, if and only if the displacement fits; targets always exist |
| Relocation.TargetBlockIsLast | src/codegen/arm64/encoder.cpp:247 | a branch goes to the last block that bears its label |
| Relocation.OtherBytesUnchanged | src/codegen/codegen.cpp:24-27 | the bytes of every word that is not a call are those of the compiled function, at its place in the plain concatenation |
| Linker.Link | src/linker/linker.cpp:23-72 | linking succeeds if and only if some program is linked from the objects (unique names, resolved calls, exported main), and then returns it; else the error is that of the first repeated name, or the first call in program order that names no function, or main missing or not exported |
| Linker.FlattenAdds | src/linker/linker.cpp:23-40 | the functions of the objects come in the order of the objects |
| Linker.NativeLinkCannotFail | src/codegen/codegen.cpp:33-49 | for a program accepted by link() neither error of the native linker occurs, and the entry offset is that of the function named main, which is exported |
| Linker.LinkedIsLinkable | src/linker/linker.cpp:23-72 | what the native linker needs of a linked program beyond linking is exactly that every instruction has the operands the compiler indexes |
| CompileExact.CompilesExactly | src/codegen/arm64/encoder.cpp:209-353 | a function compiles if and only if its instructions are supported, its operands can be loaded and every branch names one of its blocks |
| CompileExact.FunctionComes | src/codegen/arm64/encoder.cpp:245-338 | every call and branch in the listing of a function is one of its instructions, and a listing has at most 10 words and 34 for each instruction |
| Interpreter.Machine.Run | src/vm/interpreter.cpp:1041-1173 | the dispatch loop computes the outcome of the big-step semantics, for the modelled opcodes; what that semantics computes and when it fails is InterpreterLaws |
| InterpreterLaws.ArithMeans | src/vm/interpreter.cpp:94-108 | sums, differences and products are the numbers of 64 bits that agree modulo 2^64; a quotient exists if and only if the divisor is not zero, and is rounded toward zero |
| InterpreterLaws.TruncDivDivides | src/vm/interpreter.cpp:98-101 | x is q * y + r with |r| < |y| and r zero or of the sign of x |
| InterpreterLaws.QuotientUnique | src/vm/interpreter.cpp:98-101 | there is one such quotient |
| InterpreterLaws.BranchMeans | src/vm/interpreter.cpp:2729-2739 | a branch behind a comparison is taken if and only if the operands stand in its order |
| InterpreterLaws.FailsExactly | src/vm/interpreter.cpp:1057-1173 | an instruction on i64 fails if and only if an operand is no number, it divides by zero, a branch is taken to no block, or a call names no function |
| InterpreterLaws.ErrorsStick | src/vm/interpreter.cpp:1057-1173 | and then the run is stuck, for every program, frame and number of steps |
| InterpreterLaws.DivisionByZeroSticks | src/vm/interpreter.cpp:98-100 | so is every run that comes to a division by zero |
| InterpreterLaws.OtherErrors | src/vm/interpreter.cpp:1041-1056 | a wrong number of arguments, a function without blocks, the end of a block and an error of a callee |
| InterpreterLaws.ArgumentsArrive | src/vm/interpreter.cpp:1150-1160 | however many there are, argument a of a call is what its operand reads as and arrives in register a of the named function; every other register of the callee is unwritten |
| InterpreterLaws.NoValueIsZero | src/vm/interpreter.cpp:48-51 | a register that was never written, or that received the result of a call without a value, reads as zero |
| NativeArith.ArithAgrees | src/vm/interpreter.cpp:74-108 | 64-bit wrapping arithmetic of the interpreter and of the machine agree, division truncating on both sides |
| NativeArith.CompareAgrees | src/vm/interpreter.cpp:146-159 | the flags of SUBS order two words as compare() does |
| NativeArith.BranchAgrees | src/vm/interpreter.cpp:2729-2739 | each condition code holds in the flags exactly when the interpreter would branch |
| NativeEffects.Prologue | src/codegen/arm64/encoder.cpp:111-116 | the prologue saves x29 and the return address below sp and opens the frame, touching nothing above |
| NativeEffects.Leave | src/codegen/arm64/encoder.cpp:118-123 | the epilogue and return restore sp and x29 and go to the saved return address |
| NativeEffects.StoreParams | src/codegen/arm64/encoder.cpp:237-239 | parameters from x0 to x7 end up in their slots, and no other word changes |
| NativeEffects.LoadArgs | src/codegen/arm64/encoder.cpp:298-300 | arguments end up in x0 to x7 although later ones are loaded after earlier ones |
| Simulation.NextSim | src/codegen/arm64/encoder.cpp:250-275 | one straight-line instruction of the interpreter is simulated by its words: slots, flags and frame correspond again |
| Simulation.BranchSim | src/codegen/arm64/encoder.cpp:276-296 | a jump or conditional branch, taken or not, is simulated by its word |
| Simulation.CallSim | src/codegen/arm64/encoder.cpp:297-307 | the words of a call put the arguments in place and reach the callee with a return address behind the call |
| Simulation.ReturnSim | src/codegen/arm64/encoder.cpp:305 | back from a callee, the caller's slots, sp, x29 and saved words are as before and the result is in its slot |
| Simulation.CalleeKeeps | src/codegen/arm64/encoder.cpp:111-123 | whatever a callee did below sp, the frame of its caller still holds |
| Simulation.ExecSim | src/vm/interpreter.cpp:1057-1173 | forward simulation from any point of any activation, however deep the calls go; at every machine step in between sp is at or below that of the caller and no word from there on differs, so that live frames never overlap |
| Simulation.CallRunSim | src/vm/interpreter.cpp:1041-1173 | forward simulation of a whole call, frame opened and closed, with every step of it staying below the frame of the caller |
| CompilerCorrectness.NativeCodeIsCorrect | src/codegen/arm64/encoder.cpp:209-353 | compiler correctness: when the interpreter returns v, the linked code started at the function with the same arguments returns to the return address with v in x0, and sp and x29 as before; at every step of the run, however deep the calls, sp is at or below its start and every word from there on is unchanged |
| CompilerCorrectness.NativeProgramIsCorrect | src/codegen/codegen.cpp:47-50 | the same from the entry offset of the program |
| CompilerCorrectness.SmallProgramsFit | src/codegen/arm64/encoder.cpp:93-107 | in less than one mebibyte of code every displacement fits |
| CompilerCorrectness.UnwrittenRegisterIsGarbage | src/vm/interpreter.cpp:48-51 | outside the domain: returning a register that was never written returns zero in the interpreter and the stale stack word in native code |
| EndToEnd.LinkedCompilesExactly | src/codegen/codegen.cpp:64-75 | a linked program with the operands the compiler indexes compiles if and only if each of its functions is accepted |
| EndToEnd.LinkedIsCompilable | src/linker/linker.cpp:23-72 | conditions on the source program alone (linked, operands present, functions accepted, within the domain, a bound on the number of instructions) under which the correctness theorem applies |
| EndToEnd.MainReturnsSeven | src/codegen/arm64/encoder.cpp:209-353 | the conditions can be met together: the machine code of a program with a call, a comparison and a taken conditional branch leaves 7 in x0 |
| EndToEnd.LeakReturnsStackWord | src/codegen/arm64/encoder.cpp:309-318 | outside the domain: a function that returns a register nothing was written to returns, as machine code, the word 32 bytes below sp |
| EndToEnd.LeakDiffers | src/vm/interpreter.cpp:48-51 | a machine state from which that word is not the zero that the interpreter returns |
| ParsedPrograms.ParsedIsLinkable | src/frontend/parser.cpp:181-208 | a program that parses and links has what the compiler needs, destinations included, if and only if its instructions have the operands that the compiler indexes |
| ParsedPrograms.ShortOperandsPass | src/frontend/parser.cpp:181-193 | that condition is real: a main with the one-operand add.i64 r0, r1 parses and links, and does not meet it |
| ParallelCompile.RunInv | src/codegen/codegen.cpp:89-101 | every interleaving of worker steps keeps the invariant: right slots, disjoint writes, and in each worker the error of the last failure it has met |
| ParallelCompile.EverySlotOnce | src/codegen/codegen.cpp:94-96 | when all workers are done each slot was worked on once, by one worker, and holds what compiling its function alone gives |
| ParallelCompile.ErrorsMeanFailure | src/codegen/codegen.cpp:97-110 | an error was recorded if and only if some function fails to compile |
| ParallelCompile.CompileProgramParallel | src/codegen/codegen.cpp:77-119 | for every thread count and every complete schedule: the result of compileProgram, or both fail; with more than one worker the error is that of the last failure of the first worker that has one, with one worker that of compileProgram |
| ParallelCompile.WorkersProgress | src/codegen/codegen.cpp:94 | until all are done some worker can step, and each step shortens what is left |
| ParallelCompile.ReportedIsOne | src/codegen/codegen.cpp:103-110 | which function is reported does not depend on the schedule |
| ParallelCompile.OneFailureSameError | src/codegen/codegen.cpp:77-119 | if a single function fails the error is that of the sequential compiler |
| Heap.AllocGives | src/vm/interpreter.cpp:2677-2701 | an allocation gives a block that was not live, of exactly max(1, size) bytes, at the lowest fitting free block or else at the bump pointer; the others stay, boundaries are only added |
| Heap.AllocFails | src/vm/interpreter.cpp:2693 | allocation throws, for want of memory, if and only if no free block fits and the bump pointer would pass the end |
| Heap.AllocExtent | src/vm/interpreter.cpp:2677-2701 | an allocation adds no block boundaries but the two ends of the new block, and moves the bump pointer only when the block is carved from there |
| Heap.FreeGives | src/vm/interpreter.cpp:2703-2711 | freeing succeeds exactly for the offset of a live block, and removes that block alone; otherwise the error names the offset |
| Heap.ReallocGives | src/vm/interpreter.cpp:2720-2727 | reallocation: old and new block are disjoint, the old one ends up free, the new one live; it throws without effect for an untracked pointer or full memory |
| Heap.LiveDisjoint | src/vm/interpreter.cpp:2677-2701 | live blocks never overlap |
| Heap.EveryRunTiles | src/vm/interpreter.cpp:2677-2727 | in every state reachable by alloc, free and realloc the blocks tile the memory from 0 to the bump pointer, sizes at least 1 |
| Heap.EveryRunRefines | src/vm/interpreter.cpp:2677-2727 | along every run block boundaries only get finer |
| Heap.HeapMemory.Alloc | src/vm/interpreter.cpp:2677-2701 | the first-fit loop with in-place split does what the specification says |
| Heap.HeapMemory.Free | src/vm/interpreter.cpp:2703-2711 | the search loop frees the live block at the offset or throws |
| Heap.HeapMemory.BlockSize | src/vm/interpreter.cpp:2713-2718 | the size of the live block at the offset, or the error |
| Heap.HeapMemory.Realloc | src/vm/interpreter.cpp:2720-2727 | the first min(old, new) bytes move to the new block, no other byte changes, and when it throws neither blocks nor bytes change |
| Alloca.FreeAllSucceeds | src/vm/interpreter.cpp:2647-2650 | freeing the allocas of a frame succeeds if and only if they are distinct live blocks, and then removes exactly them |
| Alloca.ActivationKeeps | src/vm/interpreter.cpp:1163-1173 | over every call tree with ret, tailcall and stackfree the account balances as long as the program keeps its hands off alloca blocks |
| Alloca.AllocaLedger | src/vm/interpreter.cpp:1724-1735 | the live set at return is the entry set plus explicit allocations minus explicit frees, and freeing allocas never fails |
| Alloca.FreeingAnAllocaThrows | src/vm/interpreter.cpp:2648 | a program that frees its own alloca block makes the free at ret throw |
| Alloca.AllocasLeaveNothing | src/vm/interpreter.cpp:1724-1735 | a call tree that uses nothing but alloca and stackfree leaves the live blocks as it found them, and throws only when the memory runs out |
| Alloca.StackfreeExactly | src/vm/interpreter.cpp:1810-1813 | stackfree frees the blocks of the frame at once and nothing else |
| Alloca.ReleaseExactly | src/vm/interpreter.cpp:2703-2711 | an explicit free hits a block of the ledger, or an alloca block, which ends the honesty of the run, or throws |
| Alloca.Frame.Alloca | src/vm/interpreter.cpp:1767-1773 | alloca allocates and records the block in the frame |
| Alloca.Frame.FreeAllocas | src/vm/interpreter.cpp:2647-2650 | the backward loop frees the frame's blocks and clears the list, or throws |
| UoRoundTrip.LittleEndianReads | src/format/serializer.cpp:27-42 | n little-endian bytes of a number below 256^n read back as the number |
| UoRoundTrip.InstructionReads | src/format/serializer.cpp:75-83 | a written instruction reads back, labels as symbols and without its line |
| UoRoundTrip.FunctionReads | src/format/serializer.cpp:85-99 | a written function reads back without parameter names |
| UoRoundTrip.WrittenReads | src/format/serializer.cpp:226-276 | a written program, followed by any trailing bytes, reads back |
| UoTruncation.RoundTripExactly | src/format/serializer.cpp:226-276 | the round trip succeeds if and only if counts and strings fit their fields |
| UoTruncation.ProgramExtends | src/format/serializer.cpp:241-276 | what reads or fails on a prefix for another reason than its end does so alike on the whole |
| UoTruncation.ProgramGives | src/format/serializer.cpp:157-222 | whatever bytes are read, the program that comes out fits its fields |
| UoTruncation.EveryCutFails | src/format/serializer.cpp:246-276 | every strict prefix of a written file is rejected: inside the magic as bad magic, behind it for want of bytes |
| UoOldFormat.OldFilesRead | src/format/serializer.cpp:183-192 | files of the old layout (one byte of opcode, one type), written out independently, read back with the type on both sides, without a version word or with version 0 |
| UoLayout.SampleFile | src/format/serializer.cpp:226-239 | the bytes of a whole file written out, every kind of operand included |
| UoLayout.HeaderExactly | src/format/serializer.cpp:246-269 | how a file begins decides how it is read: the two magics by their letters, the sentinel, the version |
| UoLayout.OperandErrors | src/format/serializer.cpp:157-181 | an operand is refused exactly for a kind above 3 or for want of bytes |
| UoLayout.DestFlag | src/format/serializer.cpp:194 | any byte but zero is a set destination flag, in either version |
| UoLayout.ExportFlag | src/format/serializer.cpp:201-207 | any byte but zero exports a function |
| UoFiles.Writer.U32 | src/format/serializer.cpp:31-33 | the shifting loop appends the four bytes |
| UoFiles.Writer.Str | src/format/serializer.cpp:43-46 | length, truncated to 32 bits, and characters are appended |
| UoFiles.Writer.Operand | src/format/serializer.cpp:53-73 | an operand is appended as its kind byte and payload |
| UoFiles.Writer.Instruction | src/format/serializer.cpp:75-83 | an instruction is appended as specified |
| UoFiles.Writer.Function | src/format/serializer.cpp:85-99 | a function is appended as specified |
| UoFiles.WriteUo | src/format/serializer.cpp:226-239 | the file is the specified byte sequence |
| UoFiles.Reader.U64 | src/format/serializer.cpp:125-131 | the or-ing loop assembles eight bytes, or fails at the end of the data |
| UoFiles.Reader.Operand | src/format/serializer.cpp:157-181 | reads the operand the specification reads, or fails alike |
| UoFiles.Reader.Instruction | src/format/serializer.cpp:183-199 | reads either version of an instruction as specified |
| UoFiles.Reader.Function | src/format/serializer.cpp:201-222 | reads a function as specified |
| UoFiles.ReadUo | src/format/serializer.cpp:241-276 | reads a file as specified, of either layout; the theorems about that are those of UoRoundTrip, UoOldFormat, UoLayout and UoTruncation |
| Glob.MatchSegment | src/util/glob.cpp:12-31 | the backtracking loop terminates and returns true if and only if the name matches the pattern |
| Glob.LastStarSuffices | src/util/glob.cpp:16-19 | remembering only the last star loses no match |
| Glob.NothingLater | src/util/glob.cpp:29-30 | at the end of the name an earlier choice cannot match any more |
| Glob.NamePattern | src/util/glob.cpp:64-71 | the loop writes one star for each pair of stars |
| Glob.CollapseMatches | src/util/glob.cpp:64-71 | a pattern with pairs of stars means the same after they are replaced by single ones |
| BitKernels.PrefixXorOfGray | src/vm/interpreter.cpp:710 | the prefix exclusive or undoes the Gray code |
| BitKernels.GrayOfPrefixXor | src/vm/interpreter.cpp:710 | the Gray code undoes the prefix exclusive or |
| BitKernels.Ungray | src/vm/interpreter.cpp:711-715 | the log-step loop, for every width, returns the one number of the width whose Gray code was given |
| BitKernels.DepositOfExtract | src/vm/interpreter.cpp:656-678 | bdep(bext(v, m), m) is v & m |
| BitKernels.ExtractOfDeposit | src/vm/interpreter.cpp:656-678 | bext(bdep(v, m), m) is the low popcount(m) bits of v |
| BitKernels.Bext | src/vm/interpreter.cpp:656-666 | the loop extracts the bits under the mask |
| BitKernels.Bdep | src/vm/interpreter.cpp:668-678 | the loop deposits the low bits under the mask |
| BitExact.BitwiseOperators | src/vm/interpreter.cpp:656-678 | a bit of a conjunction, disjunction or exclusive or is that of the bits |
| BitExact.GrayBitwise | src/vm/interpreter.cpp:710 | a bit of the Gray code says whether a bit differs from the one above it |
| BitExact.ExtractBitwise | src/vm/interpreter.cpp:656-666 | each selected bit lands behind the selected ones below it, in order, and nothing stands above |
| BitExact.DepositBitwise | src/vm/interpreter.cpp:668-678 | each bit of the mask receives the next bit of the value, in order; the others are clear |
| LimbChains.AddStep | src/vm/interpreter.cpp:1365-1368 | one addc: result plus carry times 2^bits is the sum with the carry in |
| LimbChains.SubStep | src/vm/interpreter.cpp:1369-1372 | one subb: the difference, and the borrow out |
| LimbChains.StoredExactly | src/vm/interpreter.cpp:1357-1376 | a register receives the one number in the range of its type, signed or unsigned, that agrees in the low bits |
| LimbChains.AdditionIsExact | src/vm/interpreter.cpp:1357-1376 | n addc instructions from a clear carry add n-limb numbers modulo 2^(bits * n), and the carry says whether the sum went over |
| LimbChains.SubtractionIsExact | src/vm/interpreter.cpp:1357-1376 | n subb instructions subtract, and the carry is the final borrow |
| IntegerLoops.Uisqrt | src/vm/interpreter.cpp:362-371 | the Newton loop terminates with r * r <= n < (r + 1) * (r + 1) for every non-negative Int128 |
| IntegerLoops.Ipow | src/vm/interpreter.cpp:351-360 | square and multiply gives base to the exp modulo 2^128, and an error for a negative exponent |
| IntegerLoops.Gcd | src/vm/interpreter.cpp:505-513 | the loop computes Euclid's number |
| IntegerLoops.EuclidIsGreatest | src/vm/interpreter.cpp:505-513 | Euclid's number divides both operands, and every common divisor divides it and is at most it |
| IntegerLoops.Lcm | src/vm/interpreter.cpp:514-523 | the quotient times the operand fits 128 bits for operands of up to 64 |
| IntegerLoops.LcmIsLeast | src/vm/interpreter.cpp:514-523 | lcm times gcd is the product; the lcm is a common multiple that divides every common multiple, zero operands included |
| Utf8.EncodedIsLayout | src/vm/interpreter.cpp:2290-2316 | below 2^21 the encoder writes the layout of section 3 of RFC 3629 |
| Utf8.RoundTripExactly | src/vm/interpreter.cpp:2270-2316 | decoding what was encoded gives the code point if and only if it is below 2^21 |
| Utf8.EncodedString | src/vm/interpreter.cpp:2270-2350 | code points encoded back to back and terminated: each decodes at its start, the length counts them, validity accepts the bytes |
| Utf8.Utf8Decode | src/vm/interpreter.cpp:2270-2289 | the loop decodes as specified, with the three errors |
| Utf8.Utf8Encode | src/vm/interpreter.cpp:2290-2316 | writes exactly the encoded bytes at the address, or nothing |
| Utf8.Utf8Len | src/vm/interpreter.cpp:2317-2326 | counts the bytes before the terminator that are no continuation bytes |
| Utf8.Utf8Valid | src/vm/interpreter.cpp:2327-2350 | the nested loops decide validity, which Utf8Exact.ValidExactly states |
| Utf8Exact.ValidExactly | src/vm/interpreter.cpp:2327-2350 | bytes are valid if and only if they split into characters: a lead byte that announces n - 1 bytes, and n - 1 bytes with top bits 10 |
| Utf8Exact.BadFirstIsRejected | src/vm/interpreter.cpp:2333-2345 | so a byte that leads nothing, a cut character and a missing continuation byte are rejected |
| Utf8Exact.DecodeExactly | src/vm/interpreter.cpp:2270-2289 | decoding gives the code point where a character stands, and each error has its cause |
| Utf8Exact.LenExactly | src/vm/interpreter.cpp:2317-2326 | the length is the number of bytes before the first zero that are no continuation bytes; it fails if and only if there is no zero |
| Utf8Exact.EncodedBeyond | src/vm/interpreter.cpp:2305-2312 | from 2^16 on four bytes, the uppermost bits in the lead byte, whatever the size of the number |
| VectorLanes.ExpandOfCompress | src/vm/vector_ops.cpp:561-578 | expand(compress(v, m), m) is v on the selected lanes and zero elsewhere |
| VectorLanes.CompressOfExpand | src/vm/vector_ops.cpp:561-578 | compress(expand(v, m), m) is the first popcount(m) lanes of v, then zeros |
| VectorLanes.SetLane | src/vm/vector_ops.cpp:290-292 | writing a lane's bytes changes that lane and no other |
| VectorLanes.GetLane | src/vm/vector_ops.cpp:283-288 | reads a lane |
| VectorLanes.VCompress | src/vm/vector_ops.cpp:561-569 | the loop compresses, for every lane size, width and mask |
| VectorLanes.VExpand | src/vm/vector_ops.cpp:570-578 | the loop expands |
| BitExact.CompressedLanewise | src/vm/vector_ops.cpp:561-569 | a selected lane lands behind the selected ones before it, in order; zeros fill the rest |
| BitExact.ExpandedLanewise | src/vm/vector_ops.cpp:570-578 | a selected lane receives the next lane, in order; the others are zero |
| VectorLanes.VCompressstore | src/vm/interpreter.cpp:2428-2445 | stores the selected lanes from the address on, touching only popcount(m) lanes of memory; fails exactly when they do not fit, at the first that does not, with those before it stored |
| VectorLanes.VExpandload | src/vm/interpreter.cpp:2405-2427 | loads the selected lanes from consecutive memory, zero elsewhere; fails exactly at the first selected lane beyond the memory |
| VectorLanes.StoreThenLoad | src/vm/interpreter.cpp:2405-2445 | storing compressed and loading expanded agrees with expand of compress |
| Lexer.Lex | src/frontend/lexer.cpp:26-153 | the lexing loop yields the specified tokens with their lines, or the specified error; where those stand is LexExact |
| Lexer.LexNumber | src/frontend/lexer.cpp:46-93 | a number, with or without a fraction, as the two number branches take it |
| LexExact.Places | src/frontend/lexer.cpp:26-153 | each token is spelled at its place, cannot be longer, stands on the line it says, and between two tokens there are only blanks and comments up to the end of their line; numbers are clamped to 64 bits |
| LexExact.ErrorPlace | src/frontend/lexer.cpp:116-150 | a text is refused at a dollar sign without a name or a character that starts nothing, on its line |
| LexExact.FloatsAreRead | src/frontend/lexer.cpp:46-93 | a floating-point literal has the bits that strtod makes of its text |
| Parser.Parser.ParseParams | src/frontend/parser.cpp:103-112 | the parameter loop agrees with the grammar |
| Parser.Parser.ParseInstruction | src/frontend/parser.cpp:145-210 | reads an instruction as the grammar does, the shared `ret` and the call operands included |
| Parser.Parser.ParseOperands | src/frontend/parser.cpp:181-193 | the operand loop takes the first register as destination where one is wanted |
| Parser.Parser.ParseBlock | src/frontend/parser.cpp:131-143 | a block ends before the next label or at a token that is no identifier |
| Parser.Parser.ParseFunction | src/frontend/parser.cpp:94-129 | reads a function as the grammar does, filling the parameter map |
| Parser.Parser.Parse | src/frontend/parser.cpp:29-40 | parses a module as the grammar does |
| Parser.ParseModule | src/frontend/parser.cpp:258-267 | lexes and parses a source text; what it accepts is ParseExact.ModuleReadsOnly and, with every module of parsed shape, TextExact.RoundTripExactly |
| ParamRefs.ParamRefReads | src/frontend/parser.cpp:241-248 | `$name` is the register of the last parameter with that name, and an error if there is none |
| ParamRefs.BodyMoved | src/frontend/parser.cpp:241-248 | a function body parses, or fails, as if every `$name` in it were written as that register |
| ParamRefs.NamesAreRegisters | src/frontend/parser.cpp:94-129 | so the blocks of a function are those its body gives with registers for names, and no name is looked up |
| ParseExact.OperandExactly | src/frontend/parser.cpp:224-252 | an operand is a register, a number, a name or a known parameter, and nothing else |
| ParseExact.InstructionReadsOnly | src/frontend/parser.cpp:145-210 | an instruction is read only from its mnemonic, its type suffixes and its operands with commas between them, and has the line of its mnemonic |
| ParseExact.FunctionReadsOnly | src/frontend/parser.cpp:42-129 | a function is read only from its own words, separators, parameter names and types included |
| ParseExact.ModuleReadsOnly | src/frontend/parser.cpp:29-40 | a source text that parses consists, blanks and comments apart, of `module`, the name, and the words of its functions |
| Disassembler.WriteOperands | src/format/disassemble.cpp:88-117 | operands are listed in order, the destination of a call behind its name |
| Disassembler.Disassemble | src/format/disassemble.cpp:122-157 | the loops over modules, functions, blocks and instructions write the specified text |
| TextOrder.ModulesInOrder | src/format/disassemble.cpp:125-132 | every module is printed once, in the order of first appearance |
| TextOrder.FunctionsInOrder | src/format/disassemble.cpp:125-132 | with all its functions and no others, in their order |
| TextTokens.LexName | src/frontend/lexer.cpp:106-115 | a printed identifier lexes to one identifier token |
| TextTokens.LexInt | src/frontend/lexer.cpp:46-93 | a printed integer, negative or not, lexes to its value over the whole 64-bit range |
| TextTokens.LexReg | src/frontend/lexer.cpp:94-105 | a printed register lexes to its number |
| TextModules.LexInstruction | src/format/disassemble.cpp:82-118 | a printed instruction lexes to its mnemonic, suffixes and listed operands |
| TextModules.LexModule | src/format/disassemble.cpp:133-156 | a printed module lexes to its tokens |
| TextParse.InstructionReads | src/frontend/parser.cpp:145-210 | the tokens of an instruction parse to it, call operands and `ret` included |
| TextPrograms.InstructionsRead | src/frontend/parser.cpp:135-137 | the instructions of a block parse back, the last one bare or not |
| TextPrograms.PrintedReads | src/format/disassemble.cpp:122-157 | lexing and parsing the disassembly of a module of parsed shape gives it back up to parameter names and lines |
| TextProduced.InstructionProduces | src/frontend/parser.cpp:145-210 | a parsed instruction has the shape that printing preserves, and if it has no operands no operand follows it |
| TextProduced.ModuleProduces | src/frontend/parser.cpp:29-40 | every module parsed from source text without float immediates has that shape |
| TextProduced.TextRoundTrip | src/format/disassemble.cpp:122-157 | for every source text without float immediates that parses and links on its own, the disassembly of the program parses to the same module and links to the same program, up to parameter names and line numbers; of the opcode table only the entries of call and ret matter |
| TextExact.RoundTripExactly | src/format/disassemble.cpp:122-157 | a module without float immediates survives printing and parsing if and only if it has the shape of a parsed one |
| OpcodeTable.CoreTableOk | include/uasm/opcodes_core.def:1-83 | every opcode table that starts as the one of the source does, whatever follows, has what the text round trip asks of a table |
| OpcodeTable.OpcodeNumbers | include/uasm/opcodes_core.def:1-83 | the opcode numbers used throughout are the places of those mnemonics in the table |
| OpcodeTable.TypeNumbers | include/uasm/types.h:1-53 | the type names with their numbers, and the extensions that the vector types need |

## Left out

- CompilerCorrectness.NativeCodeIsCorrect: stated on the domain where it is true: i64 mov, arithmetic, cmp, branches, call and ret, at most 8 parameters, registers below 510 (NativeErrors.FrameOpensExactly: with more slots the prologue opens no frame for them), displacements that fit, code below 2^64 bytes, and runs that are clean; no claim about narrower or unsigned types, and none about runs that fail.
- Arm64Machine: `svc` is stuck, because the kernel is not part of the model, so that the correctness theorem does not reach programs with system calls; the words before and behind `svc` are proved in NativeSyscalls for slots below 4096; the stack is unbounded below, so that exhausting it is not modelled; code and stack are separate memories.
- Interpreter.Machine.Run: the semantics carries a step bound, and a run that exceeds it has the outcome OutOfFuel; only the opcodes the native backend compiles are interpreted, every other one fails, and a type other than i64 too; register 0xFFFFFFFF, at which the index arithmetic of a frame wraps, is like any other; the overflow flag, the frame pointer and the instruction counter of a frame are not modelled.
- Linker.Link: requires that a call instruction has an operand, as every parsed one has; the C++ code reads it without a check. The check for a duplicate export in link() can never fire, because a duplicate name is rejected before.
- Codegen.CompileProgram: requires distinct function names and an entry index in range, which linking provides (Linker.LinkedIsLinkable), and FunctionShaped, the operands that the compiler indexes, which neither parsing nor linking provides (ParsedPrograms.ShortOperandsPass): without them the C++ code reads past the end of a vector. A program read from a file may lack all three. The choice of a target and the executable wrapper are left out.
- Codegen.LinkCompiledFunctions: the same; with a repeated name the C++ code patches the calls of every function of that name inside the last one.
- ParallelCompile.CompileProgramParallel: compiling one function and storing the result is one step of a worker; a schedule is a list of worker numbers that runs until all are done.
- Heap.HeapMemory.Alloc: sizes and memories below 2^63, so that 64-bit sums do not wrap; the specification functions and the lemmas about them use unbounded sums.
- Alloca.AllocaLedger: an activation is the sequence of its heap actions, with computed pointers as the addresses they turn out to be; exceptions end the run.
- UoFiles.ReadUo: files are byte sequences; opening, reading and writing streams is left out, and error messages carry no path. A double is its 64-bit pattern, and a string a sequence of characters below 256.
- UoOldFormat.OldFilesRead: for programs that the old layout can hold: opcodes below 256 and the same type on both sides, which nothing writes any more.
- Glob.MatchSegment: directory listing, the suffix filter and the sorting of results are left out.
- LimbChains.AdditionIsExact: types of up to 64 bits; addc on 128-bit types is left out.
- IntegerLoops.Ipow: signed overflow of Int128 is taken to wrap.
- IntegerLoops.Lcm: operands of up to 64 bits, before narrowing to the type.
- Utf8.Utf8Encode: address sums do not wrap at 2^64, here and in VectorLanes.
- Lexer.Lex: characters are classified as in the "C" locale; strtod is a parameter.
- Disassembler.Disassemble: how a double prints is a parameter; the JSON and YAML dumps are left out. A type number that is no type prints as nothing.
- TextProduced.TextRoundTrip: programs of a single module without float immediates, which do not survive the default stream format; the parser reads one module header only.
- OpcodeTable.CoreTableOk: the lines of the table after `syscall` are not written out; nothing depends on them.
- Parser.ParseModule: errors carry a reason and a line, not the message text; the extension set is a set of numbers.
- Floating-point arithmetic, the remaining integer, string and vector opcodes, syscalls, threads, the JIT, the Mach-O writer, type tables and the command line are left out: foreign calls, or straight-line members.
