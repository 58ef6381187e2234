# A verified model of Milena's algorithmic cores

Milena compiles typed programs to register bytecode, verifies and runs that bytecode, translates it to C, sorts and
merges files of numbers that do not fit into memory, views strided arrays, encodes data plans and validates syntax
trees. This project models those parts in Dafny and proves what they promise. It is self-contained:
`dafny verify dfyconfig.toml` checks everything.

## How the model is built

Where the C code changes things step by step, the model does too: a method with loops over arrays, or a class whose
fields are reassigned. Each such method is proved equal to a pure specification function, or to satisfy a declarative
specification, and the theorems are about the specification.

| modules | what they model |
|---|---|
| `Floats`, `Hir` | binary64 values as bit patterns, arithmetic as a parameter; typed programs and the strict, left-to-right evaluator that gives them their meaning |
| `Bytecode`, `Wire`, `Words`, `ModuleFormat` | instructions, function tables, one machine step, runs with a budget; the byte format of modules and its encoder; the same byte by byte, and what each record does |
| `Lowering`, `LoweringFacts`, `HirCompiler`, `Compiler` | the compiler: lowering with back-patched branches (`HirCompiler` in place, `Lowering` its specification), function order, recursion check |
| `Typing`, `Compilable`, `Samples` | which programs compile: typing rules, counts of registers and instructions, recursion; two families of small programs from source to result |
| `CallGraph` | cycles, rankings, the compiler's recursive and the verifier's iterative depth-first search |
| `Simulation`, `CompilerCorrect`, `Totality`, `Declarations`, `Termination`, `Ownership` | what compiled code does |
| `Verifier`, `Verification`, `Signatures`, `CompilerVerified`, `Safety` | what the verifier accepts (specification, work-list implementation, and a signature for every opcode), and what acceptance is good for |
| `Interpreter`, `Native`, `NativeCorrect`, `Pipeline` | the machine loop; the C programs the backend emits, executed on the host stack; everything end to end |
| `SpillStore`, `MergeHeap`, `Merging`, `ExternalMerge`, `RunFiles`, `ExternalSort`, `SortSpace` | files of records on a disk that may fail at any time, also while cleaning up; the binary heap, the stable k-way merge, the names of scratch files, the sort in passes, and in closed form what a sort needs |
| `Arithmetic`, `ArrayLayout`, `ArrayViews`, `ArrayTranspose`, `ArrayOrder`, `ArrayBroadcast` | strided descriptors, their validation, slices, transposes, reshapes, broadcasts, row-major order and the odometer |
| `Utf8`, `DataPlan`, `PlanFormat` | the two UTF-8 scanners; the canonical form of data plans, and the same byte by byte |
| `PointerSet`, `AstValidation`, `LexicalPath` | the open-addressing set; the validation of syntax graphs; the path canonicalizer |

Numbers are bit patterns, and the host's operations on them are a `FloatModel`. Every theorem about the pipeline holds
for every model that is `WellBehaved`: zero and one are finite and compare as they should, and the whole numbers up to
256 are recognised. `BinarySixtyFourIsWellBehaved` shows that binary64 is such a model for any rounding. What number a
pattern stands for is `NumberValue`, from sign, exponent and fraction; comparisons of patterns are comparisons of those
numbers (`RankIsOrder`, `TestsAreOfValues`).

The main results, in the order of the pipeline:

- what the compiler emits computes what its source means, step for step (`SemanticPreservation`), for programs that
  declare their variables before use without anything left open (`DeclaredProgramsRunAsTheyMean`). The compiler does
  not check this: it binds a variable before it lowers the initializer (`src/bytecode_compiler.c:372-376`), so
  `SelfDeclarationIsAccepted` exhibits a program that is accepted, runs and has no meaning. The condition can be read
  off the syntax, and `DeclarationCheckIsExact` says precisely which programs fail it;
- a program compiles if and only if it is well formed, well typed, not recursive, and within limits on nesting, registers
  and instructions that are counted on the source (`CompilesIff`);
- compiled code needs no fuel (`CompiledCodeTerminates`), passes its own verifier (`CompiledCodeIsAccepted`), never
  shares a register between functions (`CompiledRegistersAreDisjoint`), and calls disturb nothing but their destination
  (`CompiledCallsDoNotInterfere`);
- the verifier accepts a program if and only if its markers are numbered, every instruction has a signature its operands
  fit, no function calls itself through others, and reachable code neither runs off its end nor fails to reach a RETURN
  (`AcceptsIff`); a straight-line instruction can be replaced by any other that fits, and every opcode occurs in an
  accepted program (`ReplacementIsAccepted`, `EveryOpcodeIsAccepted`);
- every accepted module, also one not made by the compiler, runs safely (`StepKeepsSafe`, `AcceptedProgramsRunSafely`):
  the exits for leaving the instruction stream, for unknown opcodes, for bad calls and for the frame limit are dead;
- the direct-style C program the native backend emits has the same value, the same failure class and the same step count
  (`BackendIsFaithful`, `BackendAgreesAt`);
- the byte format is a bijection between accepted modules and accepted programs (`AcceptedModules`, `EncodedDecodes`,
  `DecodedEncodes`), as is that of data plans (`VerifyData`, `EncodeInjective`). Both formats are also stated byte by
  byte (`HeaderBytes`, `RecordBytes`, `PlanBytes`), and what a record with a given first byte does to the registers is
  `RecordMeans`;
- a sort delivers the sorted permutation of its input exactly if the arguments, the names in use, the quotas and the
  numbers allow it (`SortDoubles`, with the condition in closed form in `SortableIff`), and its scratch files never exceed
  the quota. Whether
  it succeeds or fails, the rest of the disk is as it was, except for files left behind. The C code does leave files
  behind: the store creates a file and may then run out of memory, and a run whose name finds no memory is not removed
  (`LeftBehind` exhibits such a run). So the disk is unchanged after a failure if and only if no file was left behind,
  and only scratch files of the sort ever are;
- a merge does the same for its inputs (`MergeRuns`), whose torn tails it cuts off;
- array views contain exactly the elements they should, are valid whenever their source is, and are refused under exact
  conditions, for arrays without elements too. Which indices a slice selects is said without its normalised bounds
  (`SelectionIff`), and what broadcasting is without its rule for axes (`BroadcastsIff`);
- UTF-8 scanning and graph validation accept exactly what independent definitions say;
- a canonical path leads to the same place from every directory, and is the same for two paths if and only if they do
  (`CanonicalLeadsThere`, `CanonicalIff`).

No lemma relies on automatic induction; each carries its own.

## Model

| member | source | states |
|---|---|---|
| Floats.BinarySixtyFourIsWellBehaved | src/bytecode.c:124-139 | binary64 bit patterns, with any rounding of the operations, satisfy the assumptions all pipeline theorems make |
| Floats.RankIsOrder | src/external_sort.c:18-21 | the order in which patterns are sorted is that of the numbers they stand for, given by sign, exponent and fraction as multiples of 2^-1074 |
| Floats.TestsAreOfValues | src/bytecode.c:959-964 | the six comparisons of finite patterns compare the numbers they stand for, and the zeros are the patterns of the number zero |
| Floats.WholeValue | src/bytecode.c:393-403 | the patterns of the whole numbers up to 256 stand for just those multiples of one |
| Floats.WholeIff | src/bytecode.c:393-403 | the arity test finds n exactly in the patterns that stand for n, with n at most 256 |
| HirCompiler.LoweringState.EmitInstruction | src/bytecode_compiler.c:60-94 | succeeds exactly below the limit of 65536 instructions; then the list is the old one with the instruction behind it, and its index the old length |
| HirCompiler.LoweringState.AllocateRegister | src/bytecode_compiler.c:117-132 | hands out the next register of a counter that is never reset, up to 256, and notes its type |
| HirCompiler.LoweringState.PatchTarget | src/bytecode_compiler.c:96-113 | succeeds exactly for an existing branch and an admissible target; then length and all other instructions are as before, and the branch differs in its target only |
| HirCompiler.LoweringState.FindBinding | src/bytecode_compiler.c:134-141 | the most recent binding of a symbol |
| HirCompiler.LoweringState.BindLocal | src/bytecode_compiler.c:143-171 | succeeds exactly for a symbol without a binding, below the limit; then looking the symbol up gives this binding, and looking up any other what it gave before |
| HirCompiler.LoweringState.LowerExpression | src/bytecode_compiler.c:198-347 | succeeds and changes the state exactly as the functional specification of lowering, for every expression form |
| HirCompiler.LoweringState.LowerCall | src/bytecode_compiler.c:292-342 | arguments left to right, then moves into fresh consecutive registers, then CALL, as specified |
| HirCompiler.LoweringState.LowerStatement | src/bytecode_compiler.c:354-464 | the same for statements, with the flag that tells whether they always return |
| HirCompiler.LoweringState.LowerConditional | src/bytecode_compiler.c:418-459 | branches emitted with an open target and patched later leave the code the specification gives |
| HirCompiler.LoweringState.LowerStatements | src/bytecode_compiler.c:466-490 | statement lists; a statement after one that always returns is refused |
| HirCompiler.OrderFunctions | src/bytecode_compiler.c:492-574 | succeeds exactly for admitted programs, and puts `principal` first |
| HirCompiler.BuildGraph | src/bytecode_compiler.c:584-632 | the edge matrix is the call relation of the source, and building it fails exactly where the relation is undefined |
| HirCompiler.LowerProgram | src/bytecode_compiler.c:690-742 | all functions, one after another, with one register counter |
| HirCompiler.CompileHir | src/bytecode_compiler.c:651-796 | the whole compiler in place equals its specification `Compile`, and succeeds exactly for the programs that fit: well formed, well typed, not recursive, within the limits |
| Typing.ExprLowers | src/bytecode_compiler.c:198-347 | an expression is lowered if and only if it has the type written on it by rules for each form, is not nested too deep, and its registers and instructions, counted on the source, still fit; then it takes just as many |
| Typing.StmtLowers | src/bytecode_compiler.c:354-464 | the same for statements, together with the variables they bind and whether they always return |
| Typing.FunctionLowers | src/bytecode_compiler.c:690-742 | a function is lowered if and only if it is well typed and returns on every path, and its counts fit |
| Compilable.RankedIff | src/bytecode_compiler.c:576-649 | the call graph has a ranking if and only if no function of the source calls itself directly or through others |
| Compilable.CompilesIff | src/bytecode_compiler.c:492-796 | a program compiles if and only if it has between 1 and 64 resolved functions with symbols of their own, one `principal` without parameters that returns a number, no globals, no recursion, bodies that are well typed and return, nesting of at most 256, and counts of at most 256 registers and 65536 instructions |
| Compilable.CompiledFits | src/bytecode_compiler.c:690-742 | compiled code has exactly the registers and instructions counted on the source |
| Samples.FormulaRuns | src/bytecode_compiler.c:257-275 | for every arithmetic operator and all finite literals the program that returns their result compiles, is accepted, and for every budget ends with that result, or with a runtime error exactly where there is none |
| Samples.ChoiceRuns | src/bytecode_compiler.c:418-459 | for every comparison the program that chooses between two literals ends with the first if the comparison holds and otherwise with the second |
| Samples.OperatorBytes | include/bytecode.h:46-69 | each source operator with the number of its opcode |
| LoweringFacts.LowerExprOk | src/bytecode_compiler.c:198-347 | lowering an expression only appends: code, locals and registers of before stay, every new instruction is well-typed, and the result is in a register of the function with the type of the expression |
| LoweringFacts.LowerStmtOk | src/bytecode_compiler.c:354-464 | the code of a statement is appended, well-typed and complete: every branch leads forward and not past its end, and if the statement always returns the code ends in a RETURN |
| LoweringFacts.LowerFunctionOk | src/bytecode_compiler.c:694-741 | a lowered function is its marker, parameters in the first registers, and a body of forward branches that ends in a RETURN of the right type |
| CompilerCorrect.OrderedFacts | src/bytecode_compiler.c:492-574 | reordering keeps symbols distinct and all functions, and the entry takes no parameters and returns a number |
| Simulation.SimExpr | src/bytecode_compiler.c:198-347 | running the code of an expression leaves its value in the result register, or faults where evaluation does, and keeps all registers of the function allocated before |
| Simulation.SimStmt | src/bytecode_compiler.c:354-464 | running the code of a statement ends where its execution ends: after it with matching variables, about to return the same value, or in a fault |
| CompilerCorrect.SemanticPreservation | src/bytecode_compiler.c:198-490 | for every program the compiler accepts whose evaluation is defined there is one n such that, for every budget, the emitted code runs out of fuel below n and otherwise stops after exactly n instructions with the evaluator's value, or with a runtime error exactly where evaluation divides by zero or leaves the finite numbers |
| Totality.CompiledProgramHasMeaning | src/bytecode_compiler.c:366-392 | a compiled program that declares before use never gets stuck in the evaluator: types, arities and callees are right, all paths return, and calls never nest deeper than there are functions |
| Totality.DeclaredProgramsRunAsTheyMean | src/bytecode_compiler.c:651-796 | for compiled programs that declare before use, machine and evaluator agree under the default limits with no side condition |
| Totality.SelfDeclarationIsAccepted | src/bytecode_compiler.c:372-376 | a concrete program whose declaration uses its own variable: accepted, runs to zero, has no meaning, and fails the condition |
| Declarations.DeclarationCheckIsExact | src/bytecode_compiler.c:366-417 | the condition fails if and only if some path through the body of a function reads or assigns a variable that is neither a parameter nor declared on the way |
| Declarations.ListIsExact | src/bytecode_compiler.c:466-490 | what the check says of a statement list is exactly what all paths through it have in common |
| Termination.StepDescends | src/bytecode_compiler.c:96-113 | forward branches and ranked calls: every step of accepted code whose branches lead forward has a strictly smaller measure |
| Termination.CompiledCodeTerminates | src/bytecode_compiler.c:418-459 | for compiled code there is a number of steps, fixed by the code alone, within which every run stops, whatever the arithmetic does |
| Ownership.CompiledRegistersAreDisjoint | src/bytecode_compiler.c:117-132 | in compiled code every register belongs to one function: bodies write and parameters occupy only registers of their own function |
| Ownership.CallsDoNotInterfere | src/bytecode.c:984-1023 | with disjoint registers, from a CALL to the return of its frame no register of any function on the stack changes, except the destination of the call |
| Ownership.CompiledCallsDoNotInterfere | src/bytecode.c:984-1023 | the same for compiled programs with nothing left to assume: from whatever state a run has reached, a call changes no register of an active function but its destination |
| Ownership.ActiveOnce | src/bytecode.c:999-1018 | no function is active twice at the same time |
| CallGraph.RankedIffAcyclic | src/bytecode.c:482-517 | a finite graph can be ranked along its edges exactly if it has no cycle |
| CallGraph.VisitAll | src/bytecode_compiler.c:634-649 | the recursive search accepts exactly the call graphs without a cycle |
| CallGraph.Search | src/bytecode.c:482-517 | the iterative search with colours and row cursors accepts exactly the graphs without a cycle, and its own stack limit is never met |
| CallGraph.TurnOk | src/bytecode.c:491-516 | one turn of that search keeps the invariant of colours, cursors and stack, and stops only at a cycle |
| Verification.ReadTable | src/bytecode.c:246-275 | the function table is read from the markers, with the specified status for every malformed one |
| Verification.ReadTags | src/bytecode.c:292-328 | the type tables of version 1.2 are accepted exactly if lengths, tags and the entry's type are right |
| Verification.FillOwners | src/bytecode.c:284-289 | every position gets the function it belongs to |
| Verification.CheckOperands | src/bytecode.c:346-424 | the operand checks of one instruction, for all opcodes |
| Verification.CheckTypes | src/bytecode.c:425-479 | the type checks of one instruction, for all opcodes; together with the operand checks they amount to one of the signatures of the opcode (`Signatures.InstructionIff`) |
| Verification.CheckCode | src/bytecode.c:330-480 | the first complaint in instruction order, reserved bytes included, and the matrix of calls |
| Verification.CheckFlow | src/bytecode.c:525-579 | the work list accepts exactly the functions in which everything reachable stays inside, is no marker and a RETURN can be reached |
| Verification.Verify | src/bytecode.c:168-585 | the verifier gives exactly the status of its specification `VerifyStatus`, and accepts exactly the programs that are well made |
| Signatures.LayoutIff | src/bytecode.c:246-283 | the function table is right exactly if the code begins with a marker, at most 64 markers are numbered in order, their parameters lie in the register file, and none is followed by another or by the end |
| Signatures.StraightIff | src/bytecode.c:346-459 | the checks on an instruction that goes on to the next amount to one of the signatures of its opcode: tags of registers, unused fields zero, the kind of number it carries |
| Signatures.InstructionIff | src/bytecode.c:346-479 | the checks on any instruction, position by position: targets with no marker between, backward ones too, a RETURN of the tag of the function around it, arity and tags of a call as at the marker it names |
| Signatures.RecursionIff | src/bytecode.c:482-517 | the search finds no cycle exactly if no function calls itself directly or through others |
| Signatures.FlowsIff | src/bytecode.c:525-579 | the work list is content exactly if no reachable instruction but JUMP and RETURN is the last of its function, and some RETURN is reachable |
| Signatures.AcceptsIff | src/bytecode.c:168-585 | a program is accepted if and only if it is well made, said on instructions and markers alone: neither function table nor owners nor call graph are mentioned |
| Signatures.HeaderStatusIs | src/bytecode.c:209-328 | which status sizes, markers and tag tables are refused with |
| Signatures.StatusIs | src/bytecode.c:330-585 | with those in order, the first instruction that does not fit decides: an unknown opcode, operands that would not fit without tags either, or tags only; without one, calls and control flow decide |
| Signatures.ReplacementIsAccepted | src/bytecode.c:346-459 | an accepted program stays accepted when a straight-line instruction is replaced by any other that fits one of its signatures |
| Signatures.EveryOpcodeIsAccepted | src/bytecode.c:346-459 | every opcode occurs in an accepted program of version 1.2 |
| Verifier.AcceptedIff | src/bytecode.c:168-585 | acceptance restated as what a machine step needs |
| Verifier.TableFacts | src/bytecode.c:246-289 | checked markers tile the code: functions follow one another with non-empty bodies, and every marker starts one |
| Verifier.OwnerIs | src/bytecode.c:284-289 | ownership is lying between a function's marker and its end |
| CompilerVerified.CallGraphIsKept | src/bytecode_compiler.c:584-632 | the call graph the verifier reads off the bytecode is the one the compiler has read off the source |
| CompilerVerified.CompiledCodeIsAccepted | src/bytecode_compiler.c:694-792 | everything the compiler emits passes the verifier, so its internal-error exit is dead |
| Safety.StepKeepsSafe | src/bytecode.c:898-1032 | one step of an accepted module keeps: pc in the body of the function on top of the stack, saved return positions in their callers, destinations of the callee's return type, finite registers, booleans zero or one; it executes no marker, and halts only with a result, a fault or the frame limit |
| Safety.RunKeepsSafe | src/bytecode.c:898-1032 | all reachable states of an accepted module satisfy that invariant and have fewer frames than there are functions |
| Safety.DepthBound | src/bytecode.c:999-1018 | the rank of an active function plus its depth stays below the number of functions |
| Safety.AcceptedProgramsRunSafely | src/bytecode.c:835-1033 | with the default frame limit a run of an accepted module ends in a finite number, a runtime error or the step limit, and in nothing else |
| Interpreter.CopyArguments | src/bytecode.c:1015-1020 | arguments are copied out before parameters are written, so overlapping ranges do no harm |
| Interpreter.ExecuteCall | src/bytecode.c:997-1023 | checks and effect of CALL are those of one machine step |
| Interpreter.Loop | src/bytecode.c:898-1033 | the loop over mutable registers and frames computes the run of the specification |
| Interpreter.Execute | src/bytecode.c:835-1033 | verification, then the run; exactly the well-made programs are run |
| Native.Emit | src/bytecode_native.c:53-157 | the emitter succeeds exactly for translatable programs and emits the image of the program |
| Native.EmitFunction | src/bytecode_native.c:78-150 | one function: a label for every position, behind it the test of the budget and the translation of the instruction; it fails exactly at an instruction without one |
| NativeCorrect.GeneratedLabelsOk | src/bytecode_native.c:88-150 | the generated C jumps only to labels it has |
| NativeCorrect.BackendAgreesAt | src/bytecode_native.c:53-263 | for every accepted module and every budget the C program, which calls functions on the host stack, and the machine end alike: same value, runtime error as 70, step limit as 71, after the same number of steps |
| NativeCorrect.BackendIsFaithful | src/bytecode_native.c:53-263 | every accepted module is emitted, with all labels, and agrees under the default limits |
| NativeCorrect.AgreeCallee | src/bytecode_native.c:138-142 | a direct C call ends as the machine does between the CALL and the RETURN of its frame, with the same count of steps |
| Wire.OpcodesAgree | include/bytecode.h:46-69 | opcode numbers and opcodes correspond one to one |
| ModuleFormat.HeaderBytes | src/bytecode.c:766-771 | the sixteen bytes in front of the records, the place of the tag tables and the length of the module |
| ModuleFormat.RecordBytes | src/bytecode.c:772-801 | the fields of each record at their offsets, lowest byte first |
| ModuleFormat.RecordMeans | src/bytecode.c:919-998 | what the machine does at a record, by the number in its first byte: 3 adds, 4 subtracts, 7 negates, 14 jumps, and so on for all of them |
| ModuleFormat.CallRecordMeans | src/bytecode.c:999-1023 | a record 18 of an accepted module enters the function behind the record 17 with its number, with the arguments in the registers given there and a frame for the way back |
| ModuleFormat.HeaderRefusals | src/bytecode.c:190-240 | which headers and lengths are refused, and with which status, in the order of the checks |
| ModuleFormat.EncodableIff | src/bytecode.c:671-817 | the encoder accepts a program if and only if it is well made once zeros of either sign have been cleared from fields that carry no number, and has no type tables before version 1.2 |
| Wire.EncodedDecodes | src/bytecode.c:671-817 | decoding an encoded program gives the program, and verifying the bytes accepts it |
| Wire.DecodedEncodes | src/bytecode.c:168-345 | encoding what an accepted module decodes to gives its bytes back |
| Wire.AcceptedModules | src/bytecode.c:168-585 | the accepted byte strings are exactly the encodings of well-made programs |
| Wire.AcceptedEncodes | src/bytecode.c:671-817 | what the verifier accepts can be encoded, and is written unchanged |
| Wire.EncodedStatus | src/bytecode.c:803-814 | verifying what has been written gives the verdict on the program |
| Wire.VerifyModule | src/bytecode.c:190-585 | header, length, tables, reserved bytes, instructions and control flow are checked in the order of the source: the status is that of the first defect |
| Verifier.CleanStatus | src/bytecode.c:330-345 | without reserved bytes set the verdict is that on the decoded program, with any the module is refused |
| Wire.WriteRecord | src/bytecode.c:772-801 | one instruction of 24 bytes, little-endian, immediate only where there is one |
| Wire.Encode | src/bytecode.c:671-817 | status for status: size query, tables, immediates, verdict; the output buffer is written only on success, and then with the module and no more |
| Words.ReadIs | src/bytecode.c:85-122 | the bytes at a place read as a number exactly if they are its little-endian digits |
| Words.PutWord | src/bytecode.c:101-122 | writes the digits of a number and touches nothing behind them |
| Pipeline.SourceMachineAndNativeAgree | src/bytecode_compiler.c:651-796 | source, machine and generated C agree for every compiled program that declares before use, for every budget |
| Pipeline.CompileAndRun | src/bytecode.c:835-1033 | the machine never refuses what the compiler has emitted |
| Pipeline.CompileToModule | src/bytecode_compiler.c:748-796 | both encoder calls succeed, and the module decodes to what was compiled |
| SpillStore.Disk.Append | src/spill_store.c:491-524 | appends one number within the quota; after a failed write the file may hold anything that fits the quota and have a torn tail, other files are untouched |
| SpillStore.Disk.Open | src/spill_store.c:455-489 | creates a file; when there is no memory for its name the file is left behind, and nothing else changes |
| SpillStore.Disk.OpenReader | src/spill_store.c:165-275 | opens exactly files whose records are within the limits; a torn tail is cut off, the records stay |
| SpillStore.OccupiedPart | src/external_sort.c:110-119 | a file takes its own bytes of the disk: the sum over all files is that over the others and its own |
| SpillStore.UnchangedIff | src/external_sort.c:47-67 | where everything but the files left behind is as before, the disk is unchanged if and only if there are none |
| MergeHeap.Push | src/external_merge.c:32-36 | sifting up in the array keeps the heap order and adds one node |
| MergeHeap.Pop | src/external_merge.c:37-47 | takes a node that no other is before, by value and then run index, and keeps the heap order of the others |
| MergeHeap.SiftDownHeap | src/external_merge.c:37-47 | moving the hole down restores the heap order and loses nothing |
| Merging.MergeStep | src/external_merge.c:107-125 | writing the foremost record and refilling from its run keeps the invariant of the merge |
| Merging.MergeDone | src/external_merge.c:107-125 | when nothing is in front the output is the stable merge of runs that were all in order |
| Merging.MergeIsStable | src/external_merge.c:26-31 | in a stable merge values rise, equal values keep the order of their runs and records of one run their order |
| Merging.MergeKeepsOrder | src/external_merge.c:26-31 | the same in terms of the numbers that patterns stand for |
| Merging.GoodRunIff | src/external_merge.c:107-125 | a run is in order exactly if it holds finite numbers none of which is greater than a later one |
| Merging.StableMergeUnique | src/external_merge.c:26-31 | there is only one stable merge |
| Merging.MergedIsGood | src/external_merge.c:107-125 | the output is again finite and in order |
| ExternalMerge.OpenRuns | src/external_merge.c:78-92 | the heap starts with the first record of every non-empty run; torn tails of inputs are gone, and no others |
| ExternalMerge.MergeOne | src/external_merge.c:107-125 | one turn of the loop over heap, previous values and readers; a run that descends is an error |
| ExternalMerge.MergeLoop | src/external_merge.c:107-125 | the loop leaves the stable merge of all runs in the temporary file, or fails for a run out of order or a full quota |
| ExternalMerge.MergeRuns | src/external_merge.c:49-139 | on success there is one new file, the stable merge of the inputs, whose numbers rise as those of all inputs do; otherwise, and apart from it, all records are as before. Torn tails of inputs are cut off: no input changes if and only if none has one. At most the temporary file is left behind, and only if something failed. On a working disk it succeeds exactly if the runs are mergeable: arguments, names, readability, order and quota |
| RunFiles.RunPathInjective | src/external_sort.c:30-37 | different passes and runs have different file names |
| RunFiles.DigitsAreDecimal | src/external_sort.c:30-37 | the numbers in the names are decimal, without leading zeros |
| RunFiles.PartialIsNoRun | src/external_sort.c:30-37 | no run file has the name of a temporary file |
| RunFiles.GroupsCover | src/external_sort.c:140 | the groups of a pass cover all runs, none is empty, and they are fewer than the runs |
| RunFiles.Generation | src/external_sort.c:168 | two generations have no name in common, so removing the old one leaves exactly the new one |
| RunFiles.AddRunsOccupied | src/external_sort.c:110-119 | the run files take their own bytes of the disk and no more |
| RunFiles.NamesFreeIff | src/external_sort.c:94-184 | the names a sort of n numbers uses, computed from n, buffer and fan-in, are free exactly if those of the first runs and of every later pass are |
| ExternalSort.WriteRun | src/external_sort.c:50-67 | writes one run to a new file, exactly if the name is free and the quota suffices, on a working disk; on failure everything but files left behind is as before. When the store runs out of memory behind the creation of the file, that file is left |
| ExternalSort.LeftBehind | src/external_sort.c:50-67 | a run that fails and stays on the disk after cleaning up |
| ExternalSort.WriteRuns | src/external_sort.c:94-120 | as many sorted runs as buffers can be filled, which together hold the source; the scratch account equals the bytes on disk and is within the total quota; on failure no run is left but those left behind |
| ExternalSort.MergeGroup | src/external_sort.c:143-166 | one group into one run of the next pass, with the account kept equal to the bytes of both generations; on a working disk it succeeds if its two names are free and the quotas hold the numbers once and twice |
| ExternalSort.MergePass | src/external_sort.c:137-169 | a pass turns n runs into n divided by the fan-in, rounded up, which is fewer; the old generation is removed, and on failure both are, except for files left behind |
| ExternalSort.MergeAll | src/external_sort.c:136-196 | the passes end, and one file with everything remains; on a working disk exactly if the names of all later passes are free and the quotas suffice |
| ExternalSort.RemoveRuns | src/external_sort.c:47-49 | every run file of a pass is removed or left behind, and no other file touched |
| ExternalSort.SortDoubles | src/external_sort.c:72-196 | on success the output holds the rest of the source, no number greater than a later one. Apart from it and from files left behind the disk is as it was, torn tails included; on failure it is unchanged if and only if nothing was left behind, and only scratch files of the sort are ever left. The other files never hold more than the total quota beyond what was there. Success, on a source and a disk that work, is equivalent to a condition on the call: arguments, the names this sort uses, a file quota for the numbers and a total quota for twice the numbers, and all of them finite |
| SortSpace.NextRuns | src/external_sort.c:137-168 | with as many runs in pass p as numbers divided by the buffer times the fan-in to the p, rounded up, the next pass has the groups of these of at most the fan-in |
| SortSpace.ScratchIff | src/external_sort.c:94-184 | the names a sort uses: the temporary output, the runs read from the source, and runs and temporaries of each pass whose predecessor had more runs than the fan-in |
| SortSpace.SortableIff | src/external_sort.c:72-196 | what can be sorted, in closed form: arguments, free names by pass and run, 28 bytes a number within the file quota and 56 within the total, finite numbers |
| SortSpace.MergeableIff | src/external_merge.c:49-139 | what can be merged: between one input and the fan-in, which is two or more, each there, in order and within the quota, 28 bytes for every number of the output, and free names |
| SortSpace.FileBytes | src/spill_store.c:491-524 | a number takes 28 bytes of a file, another record 20 besides its own |
| ArrayLayout.ReachIffInside | src/array.c:129-163 | the two bounds of validation hold exactly if every element lies in the buffer as a whole |
| ArrayLayout.ElementsInside | src/array.c:165-253 | every in-shape coordinate of a validated array has its whole element in the buffer |
| ArrayLayout.ElementsAligned | src/array.c:203-251 | every element of a validated array is aligned |
| ArrayLayout.ReachableBounds | src/array.c:129-163 | lowest and highest position, with overflow reported only where the bounds cannot hold |
| ArrayLayout.Validate | src/array.c:165-253 | accepts exactly the valid descriptors, which are the usable ones |
| ArrayLayout.ValidIff | src/array.c:165-253 | validity element by element: every in-shape coordinate has its whole element in the buffer and aligned, the first in memory has an address, strides along axes of two or more are multiples of the alignment, zero strides are read-only, and the size is that of the shape |
| ArrayLayout.LocateElement | src/array.c:548-557 | the sum over the axes is the element's position and never leaves the range of a size on the way |
| ArrayViews.ViewIsValid | src/array.c:663-693 | a non-empty view all of whose elements are elements of a validated source, with admissible strides, is valid |
| ArrayViews.NormalizeSlice | src/array.c:756-788 | bounds omitted, negative or out of range are normalised as specified, for both signs of the step, and the count never exceeds the length; what that selects is `ArrayViews.SelectionIff` |
| ArrayViews.SelectionIff | src/array.c:756-788 | an index is selected if and only if it is on the axis, between the bounds as a caller reads them, and a whole number of steps from the first index that is: a negative bound counts from the end, one that is omitted or past the near end sets no limit, one past the far end lets nothing in |
| ArrayViews.SelectionSteps | src/array.c:756-788 | selected indices follow each other at the step |
| ArrayViews.WholeAxis | src/array.c:756-788 | without bounds, step 1 selects the whole axis in order and step -1 the whole axis reversed |
| ArrayViews.SliceShows | src/array.c:790-852 | the element of the view at c is that of the source with the c-th selected index in place of c along the axis |
| ArrayViews.SliceSelects | src/array.c:756-788 | selected are exactly the indices before the stop in steps from the start, and all of them exist |
| ArrayViews.SliceElements | src/array.c:790-852 | element c of the view is the source element at start + c * step |
| ArrayViews.CheckedStrideMultiply | src/array.c:733-754 | the product of two strides, and failure exactly if it does not fit |
| ArrayViews.SliceView | src/array.c:790-852 | of a validated array a slice succeeds exactly for admissible arguments, if the array is not empty or the view begins in the buffer, and then is a valid view of the selected elements |
| ArrayTranspose.TransposeElements | src/array.c:870-910 | the element at s of the source is the element at the permuted coordinates of the view |
| ArrayTranspose.TransposeIsOneToOne | src/array.c:870-910 | every coordinates of the view come from exactly one of the source |
| ArrayTranspose.PermuteAxes | src/array.c:893-906 | the marking loop accepts exactly the permutations of the axes |
| ArrayTranspose.TransposeView | src/array.c:870-910 | of a validated array exactly the permutations succeed, of an empty one those whose shape has no prefix too large, and the view is valid |
| ArrayTranspose.TransposeReverses | src/array.c:893-906 | without axes named, shape, strides and coordinates are reversed |
| ArrayOrder.RankOfLinear | src/array.c:559-567 | coordinates of an index below the size are in shape, and their index is that index |
| ArrayOrder.LinearOfRank | src/array.c:559-567 | the coordinates of the index of coordinates are those coordinates |
| ArrayOrder.RankIsLexicographic | src/array.c:559-567 | the index of coordinates is smaller exactly if they are smaller at the first axis where they differ |
| ArrayOrder.LinearCoordinates | src/array.c:559-567 | the loop of remainders and quotients computes the coordinates in place |
| ArrayOrder.IncrementIsNext | src/array.c:1636-1644 | incrementing coordinates is adding one to the index, also where it wraps around |
| ArrayOrder.OdometerIsLinear | src/array.c:1636-1644 | after i increments from the origin the odometer shows the coordinates of index i |
| ArrayOrder.IncrementCoordinates | src/array.c:1636-1644 | the loop increments in place and stays in shape |
| ArrayOrder.InOrderIsContiguous | src/array.c:615-629 | only contiguous arrays have all elements in row-major order one item size apart |
| ArrayOrder.ContiguousElements | src/array.c:615-629 | the i-th row-major element of a contiguous array is at byte_offset + i * itemsize |
| ArrayOrder.IsContiguous | src/array.c:615-629 | says yes exactly for validated arrays that are empty or contiguous; its overflow exit loses none |
| ArrayOrder.MakeContiguousStrides | src/array.c:298-327 | row-major strides, refused exactly if a stride or the bytes they stretch over cannot be represented |
| ArrayOrder.RowStridesAre | src/array.c:298-327 | the last stride is the item size, and each other one the next times the length of the next axis, or the next itself if that axis is empty |
| ArrayOrder.ReshapeKeepsOrder | src/array.c:695-731 | the i-th element of the view is the i-th element of the source |
| ArrayOrder.ReshapeView | src/array.c:695-731 | of a validated non-empty array a reshape succeeds exactly if the array is contiguous, the number of elements the same and the strides representable; of an empty one exactly if the new shape is empty too and its sizes and strides are admissible; the view is valid |
| ArrayBroadcast.BroadcastElements | src/array.c:912-958 | every element of the view is the source element that stands for it |
| ArrayBroadcast.BroadcastView | src/array.c:912-958 | a validated array broadcasts exactly to the shapes its own broadcasts to whose size is representable; the view is valid and read-only |
| ArrayBroadcast.BroadcastsIff | src/array.c:931-950 | a shape broadcasts to another if and only if it grows into it step by step: an axis more in front, or an axis of length one stretched |
| ArrayBroadcast.RepeatedLaws | src/array.c:1621-1634 | which source element stands for coordinates: the same if nothing has grown, and neither new axes nor stretched ones make a difference |
| ArrayBroadcast.BroadcastOffset | src/array.c:1621-1634 | computes the position of the element without the view, equal to the element offset in every view of that shape |
| ArrayBroadcast.CommonShape | src/array.c:1589-1619 | finds the smallest shape both operands broadcast to, and fails exactly if there is none |
| ArrayBroadcast.Allocate | src/array.c:357-411 | size and strides of a new array, refused exactly if size, bytes or strides cannot be represented |
| ArrayBroadcast.AllocatableIff | src/array.c:357-411 | for a shape without empty axes, the bytes and the strides decide |
| ArrayBroadcast.ElementWise | src/array.c:1893-1928 | the loop with the odometer computes the operation at every coordinates in row-major order, and fails exactly if it fails for some element |
| ArrayBroadcast.ComputedAt | src/array.c:1893-1928 | the value stored for coordinates is that of the operands' elements broadcast to the same coordinates |
| ArrayBroadcast.NoResultAt | src/array.c:1893-1928 | the operation fails at an index exactly if it has no value for the operands' elements broadcast to the coordinates of that index |
| ArrayBroadcast.BinaryOperation | src/array.c:1856-1933 | validation, common shape, allocation and loop together; incompatible shapes are reported exactly where no common shape exists, and otherwise it succeeds exactly if the result can be allocated |
| Utf8.DecodeEncodes | src/bytecode_data.c:75-115 | a byte sequence of the grammar in section 4 of RFC 3629 is the encoding of the scalar value it decodes to |
| Utf8.EncodeDecodes | src/bytecode_data.c:75-115 | encodings of scalar values follow the grammar and decode to the value |
| Utf8.WellFormedEncodes | src/bytecode_data.c:117-127 | well-formed strings are encodings of sequences of scalar values |
| Utf8.Utf8Next | src/bytecode_data.c:75-115 | succeeds exactly where the grammar has a character, always advances past it and nothing else, and yields the scalar value whose encoding was consumed |
| Utf8.ValidString | src/bytecode_data.c:117-127 | accepts exactly the non-empty well-formed strings of bounded length without NUL |
| Utf8.ValidIdentifier | src/bytecode_data.c:141-157 | accepts exactly the identifiers |
| PlanFormat.StringIff | src/bytecode_data.c:117-127 | the strings of the codec are the 1 to 4096 bytes that spell characters other than NUL |
| PlanFormat.IdentifierIff | src/bytecode_data.c:129-157 | the identifiers are the 1 to 255 bytes that spell letters, digits but not in front, underscores, and anything beyond ASCII |
| Utf8.ArrowUtf8Valid | src/arrow_ipc.c:165-192 | the second scanner accepts exactly the well-formed strings, so both accept the same |
| DataPlan.SuffixKeepsIdentifier | src/bytecode_data.c:159-169 | a valid identifier with its suffix is a valid identifier, if it is not too long |
| PlanFormat.ResultIsNamed | src/bytecode_data.c:159-163 | the result of operation 1 is called after the column with `_suma`, that of operation 2 with `_conteo` |
| PlanFormat.PlanIff | src/bytecode_data.c:171-234 | which plans can be encoded: operation and length of the column name, texts, limits and span |
| PlanFormat.PlanBytes | src/bytecode_data.c:241-330 | byte for byte, what the encoding of a plan is |
| DataPlan.FieldsIff | src/bytecode_data.c:241-330 | a byte string is the encoding of a plan exactly if it has the right fields at their offsets |
| DataPlan.DataEncode | src/bytecode_data.c:241-330 | writes the encoding of a valid plan into a large enough buffer and touches nothing behind it; refuses invalid plans and small buffers, in that order, and tells the size that would do |
| DataPlan.VerifyData | src/bytecode_data.c:357-526 | accepts exactly the encodings of valid plans, and returns the plan with the derived result name; for each kind of refusal there is exactly one condition on the bytes |
| PlanFormat.AcceptedPlans | src/bytecode_data.c:357-526 | the modules that are accepted, said on bytes, characters and numbers alone |
| PlanFormat.RefusalsAre | src/bytecode_data.c:357-470 | which bytes are refused for their magic, version, limits, operation or type |
| DataPlan.EncodeInjective | src/bytecode_data.c:241-330 | different plans have different encodings, so re-encoding an accepted module reproduces it |
| DataPlan.RoundTrip | src/bytecode_data.c:241-526 | verifying an encoded plan returns the plan |
| PointerSet.ProbeReaches | src/ast.c:88-105 | probing from anywhere gets to every slot |
| PointerSet.MaskIsRemainder | src/ast.c:77-79 | masking with the capacity less one takes the remainder, since capacities are powers of two |
| PointerSet.FindEmpty | src/ast.c:94-100 | probing meets an empty slot within one round, past full slots only |
| PointerSet.Pointers.Grow | src/ast.c:65-86 | the larger table holds the same pointers, all findable, and its capacity is again a power of two |
| PointerSet.Pointers.Insert | src/ast.c:88-105 | adds to the mathematical set, and says whether the pointer was new |
| AstValidation.Validate | src/ast.c:512-852 | terminates on every finite graph, and accepts exactly the proper trees: roots without parent whose reachable nodes have spans in order, agreeing parent links, and child spans inside their own |
| AstValidation.ProperIff | src/ast.c:790-851 | a child's span is inside exactly if every offset of it is one of the parent's; spans begin at line and column 1 or later and do not end before they begin |
| AstValidation.VisitNode | src/ast.c:790-847 | one node from the stack: it is new and sound, or the graph is no tree, and the stack holds what is still to be visited |
| AstValidation.OneWay | src/ast.c:790-851 | in an accepted graph there is only one walk from the root to each node |
| AstValidation.NoReturn | src/ast.c:790-851 | an accepted graph has no cycle |
| LexicalPath.CanonicalIdempotent | src/bytecode_data_runtime.c:92-152 | canonical paths are their own canonical form |
| LexicalPath.ComponentsAre | src/bytecode_data_runtime.c:121-127 | the components of a path are the non-empty pieces between its separators |
| LexicalPath.CanonicalLeadsThere | src/bytecode_data_runtime.c:92-152 | walking the canonical path ends, from every directory, where walking the path does: `.` stays, `..` goes up and stays at the root, a name goes down; and both are absolute or both relative |
| LexicalPath.CanonicalIff | src/bytecode_data_runtime.c:92-152 | two paths have the same canonical form if and only if both are absolute or both relative and they lead to the same place from every directory |
| LexicalPath.CanonicalShape | src/bytecode_data_runtime.c:92-152 | a canonical path is not empty, has no two separators next to each other, and ends in one only if it is the root |
| LexicalPath.DropName | src/bytecode_data_runtime.c:129-140 | `..` takes back exactly the last name and its separator |
| LexicalPath.DataLexicalPath | src/bytecode_data_runtime.c:92-152 | the in-place scan computes the canonical form, which leads where the path does, never longer than the path and one byte more, in a buffer of the path's length plus two |

## Left out

- Totality.DeclaredProgramsRunAsTheyMean: goes one way only, because whether an undeclared use is ever reached depends on computed values; which programs fail its condition is said exactly by `DeclarationCheckIsExact`.
- ArrayBroadcast.BinaryOperation: reading an element and the operation itself are parameters; type promotion, integer overflow checks and comparisons of mixed types are not modelled.
- ExternalSort.SortValues: stands for the library sort, of which only sortedness and permutation are used.
- AstValidation.Validate: the checks of a node's kind, payload and child count are one predicate on the node.
- Configured limits below the hard caps (`src/bytecode.c:46-83`) are not modelled; step and depth limits are parameters.
- Recovery of a torn tail writes a temporary file beside the input (`src/spill_store.c:225-270`) and renames it; that file, and what is left of it when this fails, is not modelled. A torn tail is a mark on a file: what its bytes are is not.
- That a name is taken is always seen, and a file that is there can be measured or the failure reported; the C code learns both by opening the file.
- The single-function loop of version 1.0 (`src/bytecode.c:588-653`) is treated as the case of one function that owns all code.
- Rounding and NaN payloads: arithmetic is a parameter, and stored numbers are bit patterns.
- The text of the emitted C, its compilation and its process are not modelled; the model is the C program the text denotes.
- Allocation failure outside the file store, the merge and the sort, error messages, source positions and byte offsets of diagnostics are not modelled; neither are buffers, paths and counters of the sort and the merge that exceed the range of a size.
- Files are sequences of records; the bytes of their headers, trailers and checksums, the operating system's rename and what happens between two processes are not modelled.
- Reference counts of array storage, `prepare_output` and `commit_output`: descriptors are values here, so aliasing of output and input is not modelled.
- Reductions, casts, masks and statistics over arrays, tables, SQL, CSV, Arrow streams and reports are not modelled.
- Windows path separators and drive letters in the path canonicalizer are not modelled.
