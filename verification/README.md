# A verified model of WABT

This project models the parts of WABT (the C toolchain for WebAssembly, at binary version 0xd) that do more
than look something up, and proves what they are for. Nothing of the original is executed; every statement below
is a theorem about the model, for all inputs.

## What is modelled

**The compiler of `wasm-interp`.** `Wasm` holds the syntax, `Semantics` an evaluator of expression trees with
fuel (sections 4.4.5 and 4.4.7 of the WebAssembly Core Specification 1.0; the numeric operators are
uninterpreted). `Typing` is the type discipline the code implements. `Validator` is the class of
`src/validator.c` with its type stack and labels; it accepts exactly the typed bodies. `Generator` is the class
of `src/binary-reader-interpreter.c`: type stack, label stack, drop/keep arithmetic, the istream as bytes, both
families of forward references and the patching in place. Its output is proved equal to the encoding of a
compositional compiler (`Compile`), whose code is symbolic assembly (`Assembly`): an operand not yet known is a
named hole at a byte offset, and patching those offsets is substitution. `Machine` is the byte machine,
`Interpreter` the thread object that refines it. `Safety`, `Steps`, `Simulation` and `Correctness` relate
evaluation of the tree to runs of the bytes, in both directions, through loops, branches out of any depth,
br_table, direct and indirect calls and mutual recursion. `Flow` and `CodeFlow` follow the height of the value
stack through whole runs: at every step it is the height the generator had when it emitted the next
instruction, above the frames of all calls that have not returned. `Room` draws from that how large the stacks
of a thread must be. `Toolchain` composes the validation of `wast2wasm` with the generation and running of
`wasm-interp`, which does not validate. `Gaps` says exactly where validation does not imply generation.

**From bytes to results.** `ByteGenerator` drives the code generator by the events that the reader makes of the
bytes of a function body, one after another; `ByteCompiler` reads functions and modules in this way. `EndToEnd`
joins the tools: a module that is validated and written, and whose code is read from the bytes alone and run,
gives what evaluating its trees gives. `Alignments` says that writing out an absent alignment changes neither typing nor
code.

**The binary format.** `Leb128`, `Binary` (bytes of a tree; a decoder as a stream of events over a stack of open
blocks), `RoundTrip`, `TreeBuilder` (the nodes of `src/binary-reader-ast.c` with their `next`, first-child and
else pointers in an arena, and the label stack that points into it), `Forest` (all functions of a module under
the one label stack that the tree builder has, blocks that are lost, and labels that are destroyed),
`BodyReader`, `FuncReader`, `CodeReader`, `OutputStream` (growing buffer, overlapping moves), `BinaryWriter`
(back-patched sizes in both size modes, runs of locals) and `Sections`.

**Names.** `BindingHash` is the chained-scatter hash table with its intrusive free list. `NameTables`,
`NameVars`, `NameVisitor` and `NamePasses` are the three passes that generate names, apply them and resolve
them.

**Literals.** `Literal`, `LiteralProofs` and `HexFloat` print and parse hexadecimal floating point, on bit
patterns; `HexDigits` says what number the digits read stand for, `Nearest`, `DroppedDigits` and `NearestLiterals`
when the float nearest to it is read. `TruncRange` relates the range tests of the truncating conversions to real values.

**Memory.** `StackAllocator` is the chunked allocator with marks.

## What was found

- The validator accepts bodies the generator rejects: an immutable global that is set (`Gaps.ImmutableGlobal`),
  a `tee_local` of another type (src/validator.c:764 checks the result the wrong way round), an indirect call
  without its key (src/validator.c:634 pops without a limit), a br_table to a loop with a result
  (src/binary-reader-interpreter.c:1422 compares the result of the loop). There is no fifth kind
  (`Gaps.ValidatedAgrees`).
- The reader of binaries accepts a function body whose blocks are not all closed (`FuncReader.UnclosedAccepted`);
  `Forest.AllClosed` counts exactly which ones close them. The labels left over stay for the next function of the
  section: `CodeReader.LabelLeaks` is a section that is accepted only because of them, and in which the second
  function writes into the first. In the end every label that is left is destroyed, and the expressions of its
  function with it (`Forest.Trees.DestroyLabels`): the tree that was accepted is gone.
- The callbacks for `block`, `loop` and `if` ignore that there is no label to append to: after the END of a
  function, a block is accepted and lost (`CodeReader.BlockLost`), and anything put into it goes into a node that
  has been freed (`CodeReader.BlockUsed`). `FuncReader.NextClean` says exactly which functions are accepted, and
  `CodeReader.TogetherIsAlone` where functions read together are those read one at a time.
- `shift_*_and_round_to_nearest` adds half only if the lowest bit that stays is set: the literal 0x2.000003p+0,
  of which 3/4 of a unit is lost, becomes 2 and not the float after it (`HexDigits.Misrounded`);
  `LiteralProofs.RoundsToNearest` says exactly when it rounds to nearest.
- The parser of hexadecimal floats reads 0x10.1 as 17: zeros before the dot are counted in the exponent, but the
  digits behind it are appended without them (`HexDigits.ZeroBeforeDot`). It loses the first digit of
  0x1.0000100001, because the bits of zeros between digits are not counted (`HexDigits.FirstDigitLost`).
  `HexDigits.FractionExact` and `FractionWithin` say exactly when a number is read as what it says.
- A digit that is dropped can matter: without its last digit 0x1.000001000001p+0 lies half way between two floats,
  and it becomes the lower, which is not the nearest (`NearestLiterals.DigitDropped`). `DroppedDigits.TailNearest` says
  exactly when dropped digits matter.
- 0x1.ffffffp-127 fails an assertion of make_float (src/literal.c:172): just below the normal numbers the rounded
  significand can be one bit too long, and is not masked (`NearestLiterals.AssertionFails`). `Nearest.ComposedWhen`
  says exactly when; where assertions are off the result is right.
- A negative exponent is read only until its digits are too many for a positive one: 0x1p-1280 is 2^-128
  (`NearestLiterals.ExponentCut`). `NearestLiterals.CutShort` and `CutUnsigned` say when an exponent that is cut short
  does no harm, and `NearestLiterals.LiteralNearest` when a literal becomes the nearest float.
- The f64-to-i32 range tests refuse values that fit once truncated (`TruncRange.Refused`, `RefusedNegative`,
  `RefusedUnsigned`); `TruncRange.F64ToI32Agrees` says for which values exactly.
- `stack_free` of the last allocation gives back the space of another block at the same address, if there is one
  (`StackAllocator.Allocator.StackFree`): two blocks can have one address when one of them is empty.
- The allocator, asked for exactly the space of a chunk, takes a chunk from the free list with its link: the
  chain of used chunks then runs on into the free list (`StackAllocator.ExactRequest`; `StackAllocator.TwoFree`
  comes to such a state).
- Applying names to two nested blocks with one name sends a branch to the wrong block
  (`NameVars.ShadowedBranch`); an export that is not of a function takes the name of a function
  (`NamePasses.ExportBack`); generated names can collide with names already there (`NameTables.GeneratedApart`).

## Model

| member | source | states |
|---|---|---|
| Toolchain.RunFunction | src/tools/wasm-interp.c:286-363 | running a function reports results, traps and mismatched arguments exactly as evaluating its tree does; it reports an exhausted value stack only if that is smaller than the greatest frame times one more than the calls allowed, an exhausted call stack only if evaluation needs more fuel than there are calls allowed, and no end only if the run goes on after so many instructions |
| Toolchain.CompileAndRun | src/tools/wasm-interp.c:286-363 | validating, compiling and running: the same, or a rejection with its reason |
| Toolchain.CompileModule | src/tools/wasm-interp.c:286-363 | after a successful compilation the istream holds the code of every function at its recorded entry; a failure names a real reason |
| Toolchain.PushArgs | src/tools/wasm-interp.c:303-322 | the arguments are pushed in order; wrong number or types, or a full stack, whichever comes first |
| EndToEnd.WriteAndRun | src/tools/wasm-interp.c:286-370 | a module that is validated and written, and whose code is read from the bytes alone and run, reports what evaluating its trees says, and no end only if the run goes on after so many instructions |
| EndToEnd.ValidateAndWrite | src/tools/wast2wasm.c:245-282 | nothing is written of a module with errors, and else its code section |
| EndToEnd.ReadCode | src/binary-reader-interpreter.c:1743-1780 | from the bytes that were written, the code of every function at its entry, exactly if all can be generated |
| ByteCompiler.ReadModule | src/binary-reader.c:1925-1960 | the reader's loop over functions makes the code that their trees are compiled to, exactly if all can be generated |
| ByteCompiler.ReadFunc | src/binary-reader.c:1932-1958 | so one function: size, runs of locals, body |
| ByteGenerator.GenerateBody | src/binary-reader.c:1215-1638 | the flat loop over the bytes of a body, callback by callback, appends the code of its tree, exactly if that can be generated |
| ByteGenerator.NotGenerable | src/binary-reader-interpreter.c:1272-1372 | an error in a block, however deep, is an error of the body around it |
| Alignments.ExplicitTyped | src/validator.c:214-227 | writing out absent alignments changes no types |
| Alignments.ExplicitCompiled | src/binary-reader-interpreter.c:1585-1608 | nor the code |
| Correctness.RunOfEvaluation | src/interpreter.c:800-901 | evaluation that ends has a run that ends the same way, evaluation that does not has runs of any length, and no step touches a cell or return address below the frame |
| Correctness.EvaluationOfRun | src/interpreter.c:800-901 | a run that ends, ends as evaluation with enough fuel does: same results, same trap, results exactly where the arguments were |
| Correctness.NeverUndefined | src/interpreter.c:501-525 | in generated code no assertion of the interpreter fails and no read leaves its stacks |
| Correctness.CallsFit | src/interpreter.c:518-523 | a call stack with room for as many calls as evaluation needs fuel is never exhausted |
| CodeFlow.HeightOfRun | src/interpreter.c:786-901 | at every step of every run, however deep its calls, the value stack is exactly as high as the generator had it when it emitted the next instruction, above the frames of the calls that have not returned |
| CodeFlow.LoadedFlows | src/binary-reader-interpreter.c:301-364 | in generated code every instruction leads, by falling through, branching, calling or returning, only to positions with the height it leaves |
| CodeFlow.CodeFlows | src/binary-reader-interpreter.c:1272-1429 | the same inside the code of an instruction list, through blocks, loops and both arms of an if |
| CodeFlow.StartOfCode | src/binary-reader-interpreter.c:1036-1141 | the height at an instruction is the number of locals and of the types on the type stack there |
| Flow.StepLevel | src/interpreter.c:800-901 | one step of the interpreter keeps the value stack at the height of its position, through calls and returns |
| Room.NeverExhausted | src/interpreter.c:473-476 | a value stack as large as the heights in the code and the limit of calls say is never exhausted, whatever is computed |
| Room.RunIsEvaluation | src/interpreter.c:800-901 | with such stacks a run ends exactly as evaluation does, without exception |
| Correctness.FramesUntouched | src/interpreter.c:838-844 | at no step of a call, however deep the calls inside it, is a caller's cell or return address changed |
| Correctness.GeneratedIsLoaded | src/binary-reader-interpreter.c:1158-1221 | what the generator emits is laid out as the correctness theorems need it |
| Simulation.SimCode | src/binary-reader-interpreter.c:342-364 | running the code of an instruction list leads to the result of evaluating it, with the value stack at the height the generator computed |
| Simulation.SimInstr | src/interpreter.c:800-901 | the same of one instruction |
| Simulation.SimBranch | src/binary-reader-interpreter.c:342-352 | a branch lands at its label with exactly the label's height and its values on top |
| Simulation.SimBrIf | src/binary-reader-interpreter.c:1387-1399 | the inverted br_unless and the jump behind it branch exactly when the condition holds |
| Simulation.SimBrTable | src/interpreter.c:822-837 | the table entry selected by the clamped key is the branch evaluation takes |
| Simulation.SimBlock | src/binary-reader-interpreter.c:1272-1282 | a block, entered and left normally or by any branch |
| Simulation.SimLoop | src/binary-reader-interpreter.c:1284-1294 | a loop, with as many rounds as there is fuel for |
| Simulation.SimIf | src/binary-reader-interpreter.c:1296-1372 | both arms, with and without else |
| Simulation.SimReturn | src/binary-reader-interpreter.c:1621-1631 | return from inside any nesting keeps exactly the results |
| Simulation.SimDirect | src/binary-reader-interpreter.c:1431-1454 | a direct call replaces its arguments by its results and resumes after the call |
| Simulation.SimIndirect | src/interpreter.c:903-916 | an indirect call traps or calls as the table and the signatures say |
| Simulation.SimFunc | src/interpreter.c:838-901 | a call from entry to return, for arbitrarily deep mutual recursion |
| Steps.StepGetLocal | src/binary-reader-interpreter.c:1544-1552 | the emitted depth picks the cell of that local |
| Steps.StepSetLocal | src/interpreter.c:886-891 | the emitted depth writes the cell of that local and no other |
| Steps.StepDropKeep | src/interpreter.c:505-511 | the emitted drop and keep remove exactly the cells below the kept value |
| Steps.StepTable | src/interpreter.c:822-837 | a table entry jumps, drops and keeps as its nine bytes say |
| Steps.StepReturn | src/interpreter.c:838-844 | return pops the frame and resumes at the pushed address |
| Steps.StepAlloca | src/interpreter.c:1652-1660 | the locals are zeroed, or the stack is exhausted |
| Safety.SafeCode | src/validator.c:577-778 | evaluating a typed list never goes wrong, and its result has the types computed |
| Safety.SafeInstr | src/validator.c:577-778 | the same of one instruction |
| Safety.SafeFunc | src/validator.c:791-825 | a typed function returns values of its result types, traps or runs on |
| Semantics.MoreFuelFunc | src/interpreter.c:786-901 | a result does not depend on how much fuel is left over |
| Machine.RunAdd | src/interpreter.c:786-901 | runs compose |
| Interpreter.Thread.Run | src/interpreter.c:786-802 | the thread object, on its arrays and stack tops, performs the machine's run |
| Interpreter.Thread.ExecOne | src/interpreter.c:800-802 | one round of the loop is one step of the machine |
| Interpreter.Thread.DropKeep | src/interpreter.c:505-511 | the macro on the value array |
| Interpreter.Thread.Alloca | src/interpreter.c:1652-1660 | the loop that clears the new cells |
| Interpreter.Thread.ExecTable | src/interpreter.c:822-837 | reading and obeying a table entry |
| Interpreter.Thread.ExecReturn | src/interpreter.c:838-844 | returning to the caller or leaving the loop |
| Interpreter.Thread.ExecIndirect | src/interpreter.c:903-916 | bounds, null and signature tests, in this order |
| Validator.CheckModule | src/validator.c:1025-1040 | no error is reported in the functions exactly when every body satisfies the type discipline |
| Validator.CheckFunc | src/validator.c:791-817 | the same of one function |
| Validator.Checker.CheckExprs | src/validator.c:544-566 | after a list the type stack above the limit is the typed stack, or holds the any marker, or an error was reported |
| Validator.Checker.CheckExpr | src/validator.c:577-778 | the same after one expression |
| Validator.Checker.CheckBr | src/validator.c:497-513 | a branch is accepted exactly if its label exists and its types are on top |
| Validator.Checker.CheckCall | src/validator.c:515-542 | arguments are replaced by results |
| Validator.Checker.CheckBlock | src/validator.c:544-566 | a block leaves exactly its signature |
| Validator.Checker.CheckIf | src/validator.c:680-694 | both arms are checked against the signature |
| Generator.Generator.GenerateModule | src/binary-reader-interpreter.c:1158-1221 | generation succeeds exactly if every body is generable; the bytes are those of the compositional compiler with all entries known, and no hole is left |
| Generator.Generator.GenerateFunc | src/binary-reader-interpreter.c:1158-1221 | one function body, in any order of definition |
| Generator.Generator.GenerateCode | src/binary-reader-interpreter.c:1374-1454 | an instruction list: the bytes appended, the type stack, and whether it succeeds |
| Generator.Generator.GenerateIf | src/binary-reader-interpreter.c:1296-1372 | both forward jumps of an if, patched |
| Generator.Generator.EmitDropKeep | src/binary-reader-interpreter.c:301-316 | the bytes of dropping and keeping, none if nothing is dropped |
| Generator.Generator.EmitBr | src/binary-reader-interpreter.c:342-352 | the bytes of a branch, its fixup recorded; its assertions hold |
| Generator.Generator.EmitBrTableOffset | src/binary-reader-interpreter.c:354-364 | the nine bytes of a table entry |
| Generator.Generator.FixupTopLabel | src/binary-reader-interpreter.c:366-381 | every branch to the label is patched, and nothing else |
| Generator.Generator.EmitFuncOffset | src/binary-reader-interpreter.c:383-393 | the callee's entry, or a fixup for it |
| Generator.Generator.FixupCalls | src/binary-reader-interpreter.c:1158-1179 | every call emitted before the function was known is patched |
| Generator.Generator.OnEnd | src/binary-reader-interpreter.c:1334-1372 | closing a block patches it and restores stack and labels |
| Generator.Generator.OnBrTable | src/binary-reader-interpreter.c:1401-1429 | the table and the jump over it |
| Generator.Generator.OnReturn | src/binary-reader-interpreter.c:1621-1631 | dropping everything below the results |
| Generator.Generator.OnLocalDecl | src/binary-reader-interpreter.c:1230-1256 | one ALLOCA for all runs, patched as they come |
| Assembly.PatchIsSubst | src/binary-reader-interpreter.c:297-393 | patching the bytes at all uses of a reference is encoding the substituted items: nothing else is overwritten, none is left |
| Compile.SubstCode | src/binary-reader-interpreter.c:366-381 | resolving a label or an entry in emitted code is compiling with it known |
| Compile.SubstFuncs | src/binary-reader-interpreter.c:1158-1179 | the same over all functions compiled so far |
| Fixups.BranchesClosed | src/binary-reader-interpreter.c:366-381 | once a label is closed no fixup for it remains and the others are untouched |
| Fixups.CallsEntered | src/binary-reader-interpreter.c:1175-1179 | once a function is entered no fixup for it remains |
| Heights.DeltaIsTyped | src/binary-reader-interpreter.c:1036-1141 | the change of height of an instruction is the difference of its types |
| Gaps.ValidatedAgrees | src/binary-reader-interpreter.c:1401-1575 | a validated body can be generated if and only if, wherever its typing comes to, each tee_local has the type of its local on top, each call_indirect its key, each set_global a mutable global, and each br_table has on top the results of the loops it goes to |
| Gaps.ValidatedFunc | src/validator.c:791-825 | without tee_local, call_indirect, set of an immutable global and br_table to a loop with a result, a validated body can be generated |
| Gaps.ImmutableGlobal | src/binary-reader-interpreter.c:1528-1542 | a validated body the generator rejects |
| Gaps.TeeOfAnotherType | src/validator.c:759-767 | a validated body the generator rejects |
| Gaps.IndirectOnNothing | src/validator.c:630-638 | a validated body the generator rejects |
| Gaps.TableToLoop | src/binary-reader-interpreter.c:1401-1429 | a validated body the generator rejects |
| Leb128.WriteU32 | src/binary-writer.c:81-91 | the loop writes the encoding, in at most five bytes |
| Leb128.WriteSigned | src/binary-writer.c:133-174 | the signed loop writes the encoding of the value, for 32 and 64 bits |
| Leb128.SizeU32 | src/binary-writer.c:68-79 | the length of the encoding |
| Leb128.U32RoundTrip | src/binary-reader.c:205-231 | what was written is read back with its exact length, whatever follows |
| Leb128.FixedRoundTrip | src/binary-writer.c:93-115 | so is the padded five-byte form |
| Leb128.I32RoundTrip | src/binary-reader.c:242-276 | signed 32 bits |
| Leb128.I64RoundTrip | src/binary-reader.c:287-342 | signed 64 bits |
| Leb128.U32Exact | src/binary-reader.c:205-231 | an accepted encoding is its base-128 sum: no bit is lost |
| Leb128.U32Shortest | src/binary-writer.c:81-91 | no encoding of a value is shorter than the one written |
| Leb128.SignedShortest | src/binary-writer.c:133-174 | no signed encoding of a value is shorter than the one written, at any width |
| Leb128.I32Shortest | src/binary-writer.c:133-174 | in particular none that the 32-bit reader accepts |
| Leb128.I64Shortest | src/binary-writer.c:133-174 | nor the 64-bit reader |
| RoundTrip.CodeRead | src/binary-reader.c:1215-1638 | reading the bytes of a list appends that list to the innermost open block |
| RoundTrip.BodyRead | src/binary-reader.c:1215-1638 | decoding a written body rebuilds its tree, with alignments written out |
| RoundTrip.ExplicitBytes | src/common.c:46-50 | an absent alignment is written as the natural one |
| TreeBuilder.Builder.AppendExpr | src/binary-reader-ast.c:117-130 | the new node is linked last in the innermost block, and every other link stays |
| TreeBuilder.Builder.OnElse | src/binary-reader-ast.c:606-623 | the else arm goes to the innermost if, which is the last node of its parent |
| TreeBuilder.Builder.OnEnd | src/binary-reader-ast.c:625-628 | closing a block makes it an expression of its parent |
| TreeBuilder.Builder.OnOpen | src/binary-reader-ast.c:512-525 | opening a block, loop or if, whether or not the node could be appended: without a label it is freed, and a label into it is pushed |
| TreeBuilder.TreeSpelled | src/binary-reader-ast.c:70-130 | the nodes reachable from the function spell its tree, and there are no others |
| TreeBuilder.SpellsOne | src/binary-reader-ast.c:70-130 | linked nodes spell one tree only |
| Forest.Trees.BeginFunctionBody | src/binary-reader-ast.c:479-487 | a label for the new function goes on top of what earlier functions left |
| Forest.Trees.Notify | src/binary-reader-ast.c:70-130 | an event goes to the innermost label, of whichever function; where there is none, END, else and a leaf are errors and a block leaves a stray label, which only END may follow without using a freed node |
| Forest.Within | src/binary-reader.c:1215-1638 | a body that is accepted on its own is accepted behind any labels, and touches no other function |
| Forest.FromClean | src/binary-reader.c:1215-1638 | where no label is left over, a body is read to its last END with a stray label left exactly if it is hollow: its function ends early, and nothing but lost blocks follows |
| Forest.LabelsLeft | src/binary-reader-ast.c:793-798 | how many labels a body leaves: those it found and opened, less the ENDs before its last |
| Forest.AllClosed | src/binary-reader-ast.c:793-798 | an accepted body has closed its blocks exactly if it has as many ENDs before the last as it opens blocks |
| Forest.Trees.DestroyLabels | src/binary-reader-ast.c:1144-1168 | in the end a function keeps its tree exactly if it has left no label, or the tree is empty; two labels of one function are destroyed one inside the other |
| BodyReader.Reader.ReadFunctionBody | src/binary-reader.c:1215-1638 | on the label stack it finds, the loop accepts, refuses, or uses a freed node exactly as the decoder says, and drives the builders by the same events |
| BodyReader.Reader.ReadTable | src/binary-reader.c:1268-1300 | the targets of a br_table and its default |
| FuncReader.FuncRead | src/binary-reader.c:1932-1958 | a written function is read back in either size mode: local types and tree, with alignments written out |
| FuncReader.Functions.ReadFunc | src/binary-reader.c:1932-1958 | whatever labels earlier functions left, the loop reads a function exactly if it decodes behind them, stray labels included, and every function is left as the linked nodes of its tree |
| FuncReader.Functions.OnLocalDecl | src/binary-reader-ast.c:488-503 | a run of locals is expanded |
| FuncReader.UnclosedAccepted | src/binary-reader.c:1215-1638 | a body of three bytes with an open block is accepted |
| FuncReader.NextAlone | src/binary-reader.c:1932-1958 | a function that decodes on its own decodes to the same behind any labels |
| FuncReader.NextClean | src/binary-reader.c:1932-1958 | with no label left over it decodes exactly if it does on its own or is hollow |
| CodeReader.CodeSectionRead | src/binary-reader.c:1925-1960 | a written code section is read back in either size mode: every function with its local types and its tree |
| CodeReader.TogetherAsAlone | src/binary-reader.c:1925-1960 | functions that decode one at a time decode together, to the same functions |
| CodeReader.TogetherIsAlone | src/binary-reader.c:1925-1960 | where every function but the last closes its blocks, any number of functions is accepted together if and only if one at a time, exactly if none is hollow |
| CodeReader.LabelLeaks | src/binary-reader-ast.c:793-798 | ten bytes that are accepted as two functions although the second is none, and whose nop lands in the first |
| CodeReader.BlockLost | src/binary-reader-ast.c:512-525 | six bytes that are accepted as a function although they are none, and whose block is lost |
| CodeReader.BlockUsed | src/binary-reader-ast.c:117-130 | seven bytes in the reading of which a freed node is used |
| CodeReader.NoneOpen | src/binary-reader-ast.c:793-798 | functions read one at a time leave no label exactly if each has as many ENDs as blocks |
| CodeReader.ReadCodeSection | src/binary-reader.c:1925-1960 | with one label stack for the whole section, the loop accepts exactly what decodes, says exactly when a freed node is used, and leaves every function as linked nodes |
| OutputStream.Stream.MoveData | src/writer.c:124-139 | overlapping moves lose no byte, growing included |
| OutputStream.Stream.EnsureCapacity | src/writer.c:98-109 | doubling keeps the contents |
| OutputStream.Stream.WriteDataAt | src/writer.c:111-122 | writing over the end or the middle |
| BinaryWriter.Writer.WriteCodeSection | src/binary-writer.c:769-786 | back-patching functions and section gives the bytes built bottom-up, minimal or padded |
| BinaryWriter.Writer.WriteFixupU32Leb128Size | src/binary-writer.c:189-207 | the size before the payload, moved as needed; the offset is the end |
| BinaryWriter.Writer.WriteExprList | src/binary-writer.c:287-475 | the bytes of a tree |
| BinaryWriter.Writer.WriteFuncLocals | src/binary-writer.c:485-528 | the number of runs, then the runs |
| BinaryWriter.CountRuns | src/binary-writer.c:485-505 | the first loop counts the runs the second one writes |
| BinaryWriter.RunsExpand | src/binary-writer.c:485-528 | the runs expand to the types they were made from |
| BinaryWriter.RunsMaximal | src/binary-writer.c:485-528 | neighbouring runs differ and none is empty |
| Sections.Reader.ReadBinary | src/binary-reader.c:2032-2081 | a file is accepted exactly if header and sections are as described, and the sections found are the only division |
| Sections.Reader.ReadSections | src/binary-reader.c:1986-2030 | accepted exactly if the bytes after the header divide into sections with increasing known codes, each read to its end |
| Sections.Reader.ReadSection | src/binary-reader.c:1986-2030 | one turn: the offset grows, or no section can stand here |
| Sections.SamePrefix | src/binary-reader.c:1986-2030 | a file has one division into sections |
| Sections.WrittenReadable | src/binary-writer.c:239-275 | what the writer wrote has the written sections, and is readable exactly if these are in order and read to their ends |
| BindingHash.Hash.InsertBinding | src/binding-hash.c:127-145 | one more binding of this name, and no other change, growing or not |
| BindingHash.Hash.HashNewEntry | src/binding-hash.c:43-89 | chains stay acyclic and disjoint and the free list exact, moving a colliding entry if need be |
| BindingHash.Hash.MoveAway | src/binding-hash.c:58-78 | an entry that sits in another's main slot is moved within its chain |
| BindingHash.Hash.HashResize | src/binding-hash.c:91-125 | growing keeps every binding |
| BindingHash.Hash.FindBindingIndexByName | src/binding-hash.c:147-160 | -1 if the name was never inserted, else an index bound to it |
| BindingHash.Hash.CheckDuplicateBindings | src/resolve-names.c:59-87 | an error exactly if two used entries carry equal names |
| BindingHash.Hash.MakeReverseMapping | src/ast.c:157-178 | with distinct indices the mapping names every bound index |
| BindingHash.ReverseOfFind | src/binding-hash.c:147-160 | with distinct names, find returns the one index bound |
| NameTables.GeneratedDiffer | src/generate-names.c:43-56 | two indices below 2^32 give two names |
| NameTables.GenerateAndBind | src/generate-names.c:66-100 | the unnamed are named and bound, the named stay |
| NameTables.GeneratedApart | src/generate-names.c:66-100 | no name is bound twice afterwards exactly if none that was there is one made up |
| NameTables.FindIsInverse | src/ast.c:24-28 | looking up an entity's name finds the entity |
| NameTables.FindInHash | src/binding-hash.c:147-160 | the lookup of the passes is the lookup of the hash |
| NameVars.ThereAndBack | src/apply-names.c:54-165 | one variable: applying succeeds exactly if the index is in range, and resolving gives it back |
| NameVars.ThereAndBackLabel | src/resolve-names.c:89-105 | a branch comes back exactly if its target is not shadowed |
| NameVars.ShadowedBranch | src/apply-names.c:54-81 | a branch that comes back to another block |
| NameVars.ThereAndBackLocal | src/ast.c:59-74 | locals are found behind the parameters |
| NameVars.GeneratedUnshadowed | src/generate-names.c:102-121 | in a decoded body no generated label is shadowed |
| NameVars.BodyThereAndBack | src/apply-names.c:167-279 | all variables of a body come back; applying fails exactly if one is out of range |
| NameVisitor.Visitor.VisitExprList | src/ast.c:603-730 | the walk changes exactly the variables of the list, each as its callback says, stopping where applying fails |
| NameVisitor.Visitor.FindLabelByVar | src/apply-names.c:54-68 | the loop finds the innermost label of that name |
| NameVisitor.BlockNamer.VisitExprList | src/generate-names.c:102-121 | every unnamed block gets the name of its number |
| NamePasses.Module.NameAndResolve | src/resolve-names.c:266-342 | generating, applying and resolving names of a decoded module succeeds and returns every index |
| NamePasses.ProgramThereAndBack | src/apply-names.c:281-342 | the theorem behind it, on values |
| NamePasses.Module.GenerateNames | src/generate-names.c:179-192 | what the first pass does to a module |
| NamePasses.Module.ApplyNames | src/apply-names.c:331-342 | what the second does, and exactly when it fails |
| NamePasses.Module.ResolveNames | src/resolve-names.c:319-342 | what the third does, and exactly when it reports errors |
| NamePasses.ExportBack | src/apply-names.c:303-308 | an export comes back exactly if it is of a function or out of the range of functions |
| LiteralProofs.PrintParse | src/literal.c:746-834 | printing and parsing gives back every 32-bit and 64-bit pattern: signed zeros, subnormals, infinities, NaN payloads |
| LiteralProofs.RoundsToNearest | src/literal.c:178-185 | exactly when the rounding shift rounds to nearest |
| HexDigits.Misrounded | src/literal.c:178-185 | a literal that is not read as the nearest float |
| HexDigits.WholeRead | src/literal.c:240-281 | digits without a dot: the significand is their value to within a unit exactly if no bit is lost, and their value exactly if no other digit than zero is dropped |
| HexDigits.FractionExact | src/literal.c:577-617 | digits with a dot, none but zeros dropped: they are read as what they say exactly if no bit is lost and nothing but zeros stands behind a zero and the dot |
| HexDigits.FractionWithin | src/literal.c:577-617 | digits with a dot, whatever is dropped: the significand is their value, or below it by less than one unit, exactly if no bit is lost and zeros before the dot do no harm; and it is their value exactly if besides no digit but zeros is dropped, or what is kept in the wrong place happens to be the same |
| Nearest.ComposeNearest | src/literal.c:312-362 | significand and exponent become the nearest float, normal or subnormal, infinite or zero, exactly if the one shift or the two that round them are in order |
| Nearest.TwiceNearer | src/literal.c:318-334 | two rounding shifts in a row give the nearer multiple exactly if the first does not carry up to half, or must not round up |
| Nearest.ComposedWhen | src/literal.c:170-176 | the assertion that the significand fits fails exactly if the exponent is the least one, more bits than the field has are rounded, and rounding carries out of all of them |
| LiteralProofs.NanFits | src/literal.c:187-225 | the payload of an accepted NaN fits and is not zero |
| DroppedDigits.TailNearest | src/literal.c:267-278 | a number of which the significand is only the beginning becomes the nearest float exactly if the significand does and the rest neither breaks a tie that was rounded down nor exceeds half a unit of the last place |
| DroppedDigits.HalfToTwice | src/literal.c:312-362 | what is composed of a number below the power of two that infinity stands for is zero, or more than half of the number and at most twice |
| NearestLiterals.LiteralNearest | src/literal.c:227-363 | a literal with a dot that is read to within a unit, whatever it drops, becomes the nearest float exactly if its shifts are in order and what is dropped does not matter, or fails an assertion exactly if the rounded significand does not fit |
| NearestLiterals.WholeNearest | src/literal.c:227-363 | so does one without a dot |
| NearestLiterals.DigitDropped | src/literal.c:267-278 | a literal that is not read as the nearest float because its last digit is dropped |
| NearestLiterals.AssertionFails | src/literal.c:318-341 | a literal that fails the assertion, and is read right where assertions are off |
| NearestLiterals.CutShort | src/literal.c:303-309 | a negative exponent that is cut short is read right exactly if the result is zero and the number is at most half of the least float; and it is that if no digit stands behind a dot |
| NearestLiterals.CutUnsigned | src/literal.c:303-309 | an exponent without a sign that is cut short is read right exactly if the result is infinite, or is zero and the number is at most half of the least float |
| NearestLiterals.ExponentCut | src/literal.c:303-309 | a literal next to zero that is read as 2^-128 |
| HexDigits.ZeroBeforeDot | src/literal.c:255-278 | a literal that is read as another number |
| HexDigits.FirstDigitLost | src/literal.c:266-277 | a literal whose first digit is lost |
| HexFloat.WriteHex | src/literal.c:746-834 | the cursor loops print what the specification function says |
| HexFloat.ReadLiteral | src/literal.c:709-744 | the parsing loops read what the specification function says, accepting and rejecting |
| HexFloat.ReadSignificand | src/literal.c:564-615 | significand, shift and exponent after the digits, dropped ones included |
| TruncRange.F32Decides | src/interpreter.c:281-299 | the f32 tests hold exactly when the truncated value fits the target |
| TruncRange.F64Decides | src/interpreter.c:356-364 | so do the f64 tests for 64-bit targets |
| TruncRange.F64ToI32Asks | src/interpreter.c:346-354 | the f64 tests for 32-bit targets hold exactly when the value fits before truncation, and are sound |
| TruncRange.F64ToI32Agrees | src/interpreter.c:346-354 | the tests agree with the range of the truncated value exactly if the value does not lie strictly between 2^31-1 and 2^31 or between -2^31-1 and -2^31, nor, unsigned, between 2^32-1 and 2^32 |
| TruncRange.Refused | src/interpreter.c:346-349 | a positive value that would fit and is refused |
| TruncRange.RefusedNegative | src/interpreter.c:346-349 | a negative one |
| TruncRange.RefusedUnsigned | src/interpreter.c:351-354 | an unsigned one |
| StackAllocator.Allocator.StackAlloc | src/stack-allocator.c:96-149 | a new aligned block inside one chunk, disjoint from every live block, in a new chunk exactly if the last one has no room; the invariants hold |
| StackAllocator.Allocator.StackRealloc | src/stack-allocator.c:151-194 | the first min(old, new) bytes are kept and no live block changes |
| StackAllocator.Allocator.StackFree | src/stack-allocator.c:196-216 | only the last allocation gives space back; the invariants are kept exactly if that is not also the space of another live block |
| StackAllocator.Allocator.StackMark | src/stack-allocator.c:237-257 | the state before the mark is what is remembered |
| StackAllocator.Allocator.StackResetToMark | src/stack-allocator.c:259-277 | exactly the blocks older than the mark stay live, and newer chunks go to the free list |
| StackAllocator.Allocator.StackDestroy | src/stack-allocator.c:218-235 | every chunk is released exactly once |
| StackAllocator.Allocator.AllocateChunk | src/stack-allocator.c:60-94 | a chunk of ordinary size comes from the free list if it can, with its link |
| StackAllocator.Allocator.FindChunk | src/stack-allocator.c:160-169 | the walk finds the chunk of the block |
| StackAllocator.ExactRequest | src/stack-allocator.c:107-115 | a request for exactly a chunk's space keeps chain and free list apart exactly if one chunk at most is free |
| StackAllocator.TwoFree | src/stack-allocator.c:96-149 | a mark, three requests and a reset come to a free list on which such a request goes wrong |
| StackAllocator.EachOnce | src/stack-allocator.c:218-235 | the two lists together hold every chunk once |

## Left out

- Imports, host calls and the translation of module indices to environment indices: the compiler core models a
  module without imports, whose indices are those of the environment.
- current_memory and grow_memory in compiled code, signatures with more than one result, and code after br,
  br_table, return or unreachable in the same sequence: `Typing.Representable` excludes them, and with them a
  failing assertion of emit_br on labels pushed in dead code.
- Validator.CheckModule: the checks of globals, imports, exports, tables, memories, segments and the start
  function.
- Validator.CheckFunc: the comparison of a signature written at a function with the type it names.
- Numeric operators, memory accesses and conversions: uninterpreted functions that may trap. The program counter
  that a trap leaves behind is not specified.
- EndToEnd.WriteAndRun: the sections other than code; the interpreter is given signatures, globals and table.
- ByteGenerator.GenerateBody: bytes that are not those of a tree; what the reader makes of any bytes is covered
  for the tree builder, in `BodyReader`.
- Functions with 2^32 locals or more, and an istream of 2^32 - 1 bytes or more.
- The tables of opcodes: names and texts, tracing and disassembly.
- Binary.DecodeAccess: an alignment exponent of 32 or more, which shifts too far in C, is read as alignment 0.
- RoundTrip.BodyRead: block signatures hold at most one type.
- Sections.Reader.ReadSections: the contents of sections other than code are an arbitrary function of the section
  and those before it.
- OutputStream.Stream.MoveData: writing to files, and the failure of an allocation.
- BindingHash.Hash.InsertBinding: the hash function is arbitrary; wasm_remove_binding, which uses a stored index
  as a slot number, is not modelled, and neither is what uninitialised slots hold beyond an arbitrary value.
- NameTables.Find: takes the oldest of several bindings of one name, where the hash may find any.
- NameVisitor.Visitor.VisitExprList: the variables and labels inside the expressions are kept in sequences in the
  order of the visit and overwritten there; the tree itself is a value.
- NamePasses.Module.ApplyNames: what a failing pass has already renamed is not specified.
- Literal parsing by strtof and strtod, decimal literals and integers; the acceptance of 'g' and 'G' by
  wasm_parse_hexdigit is modelled, their use is not. One format parameter stands for the 32-bit and 64-bit twins.
- StackAllocator.Allocator.StackRealloc: leaves the old block live.
- StackAllocator.Allocator.StackMark: the bytes of the mark inside its own block are not modelled; the mark is a
  value the caller holds. The allocator underneath supplies disjoint chunks and does not fail.
- NearestLiterals.LiteralNearest: how far from what it says a literal is read whose first digits are lost or whose
  zeros before the dot do harm; `HexDigits` says which literals these are.
- Environment mark and reset, the text lexer and ast-writer, the other tools, statistics and error texts.
