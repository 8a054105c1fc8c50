# A verification model of wgtcc

wgtcc compiles C11 to x86-64 in one pass: a preprocessor, a recursive-descent parser that turns structured
statements into labels and conditional jumps while it reads, and a generator that emits instructions from the tree.
This project models the parts of it where correctness is not obvious and proves what they are for. Code that only
computes is a function; objects with fields and loops are classes with the source's fields, and their methods are
proved equal to specification functions about which the main results speak.

How the files belong together:

- **Machine and expressions.** `Words`, `Memory`, `Machine` (registers, flags, a byte memory, jumps), `Expressions`
  (typed `int`/`long` expressions and their meaning, left to right), `Conversions` (the conversions that make a tree
  typed), `ExprCode` (the emitted code), `ExprCorrect` (simulation).
- **Statements.** `Statements` (the structured meaning, with continuations), `Lowering` (what parser and generator make
  of it), `FlatCode` (labels and jumps), `Layout` (which flat code stands for which statement), `FlatSim` and
  `FlatCorrect` (step simulation), `LoweringCorrect`, `LabelsApart`, `JumpsResolve`, `LoweringRuns` (same runs), `Acceptance` (which bodies are
  refused).
- **The whole compiler.** `Backend` (flat code to instructions), `CompilerCorrect`, and the imperative form of
  both halves: `Generator` with its counter `offset_`, `Parser` with its saved and restored destinations;
  `FunctionCompiler` runs one after the other.
- **Calls.** `Calls`, `ArgumentPlaces`, `CallsCorrect`, `CallsGenerator`, `Varargs`, `Align`.
- **Data.** `Bits`, `StructLayout`, `StructPlaces`, `StructNames`, `BitFields`, `StaticImage`, `StackImage`,
  `FrameAllocation`, `ConstantFolding`, `FoldingExact`.
- **Expression grammar.** `ExprGrammar`, `Precedence`, `TokenSequence`, `ExprParser`, `ExprExact` (what is accepted).
- **Preprocessor and scanner.** `Conditionals`, `NestedText`, `Numerals`, `MacroExpansion`, `Stringize`, `Escapes`.
- **Supporting structures.** `MemPool`; `RbStore`, `RbSearch`, `RbInsert`, `RbDelete`, `RbDeleteFix`, `RbBalance`,
  `RbTree` for the red-black tree; `Options`.

In several places the code does not do what C or its own comments ask for. The model follows the code there; a lemma
names an input that shows it, and another says for all inputs when the code does meet the requirement:
`continue` in a do-while loop, masks cut to 32 bits, structures passed or returned and the alignment of the stack, the
sixth integer parameter of a variadic function, `#elif` conditions behind an included group, alignment after merged
anonymous structures, bit-fields whose unit ends behind the structure, overflow and conversions in constant folding,
quotes in stringized tokens.

The project needs no library. `dafny verify dfyconfig.toml` checks all of it.

## Model

| member | source | states |
|---|---|---|
| ExprCorrect.CompileCorrect | src/code_gen.cc:301-342 | for every typed expression, from every machine that agrees with the variables, the emitted code ends behind itself with the value in the accumulator, exactly the assigned locals changed, everything else at or above the temporaries untouched; it faults exactly when a division does |
| Conversions.ElaborateTyped | src/ast.cc:181-195 | with the conversions put in, every tree over declared locals is typed, with the types that C gives |
| Conversions.ElaborateTypedSame | src/ast.cc:136-145 | a typed tree needs none, so converting twice is converting once |
| Conversions.ElaborateMeans | src/ast.cc:290-410 | the converted tree means what C says of the tree without conversions: operands in their common type, shifts in the left type, assignments in the type of the target |
| Conversions.CommonType | src/type.cc:173-186 | the common type of two operands holds exactly the values that one of their types holds |
| Conversions.SourceCompiled | src/ast.cc:554-583 | so the emitted code computes what C says, whatever mixture of the two types the operands have |
| ExprCorrect.SimulateOperands | src/code_gen.cc:308-311 | spilling the left operand below `offset_` and restoring it brings both operand values into their registers, whatever the right operand's code did |
| ExprCorrect.SimulateLogic | src/code_gen.cc:376-415 | the code of `&&` and `\|\|` evaluates the second operand only when C does and leaves 0 or 1 |
| ExprCorrect.SimulateChoice | src/code_gen.cc:740-745 | the code of `?:` evaluates one arm only and leaves its value widened to the common type |
| ExprCorrect.SimulateAssign | src/code_gen.cc:456-469 | an assignment to a local stores the converted value in its slot and leaves it in the accumulator |
| ExprCorrect.SimulateIncDec | src/code_gen.cc:706-737 | prefix and postfix `++`/`--` of an integer local store the wrapped sum; the postfix forms yield the value from before |
| ExprCorrect.DivideBlock | src/code_gen.cc:525-540 | the division instructions give quotient and remainder rounded to zero, or fault for a zero divisor or an overflowing quotient |
| ExprCorrect.CastBlock | src/code_gen.cc:613-630 | a conversion between `int` and `long` keeps the value modulo the width of the target |
| Expressions.EvalFits | src/code_gen.cc:301-342 | values and variables stay in the ranges of their types |
| GeneratorClass.Generator.VisitExpr | src/code_gen.cc:278-342 | the imperative generator appends exactly the code proved correct, hands out the same labels and leaves `offset_` as it found it |
| GeneratorClass.Generator.VisitUnaryOp | src/code_gen.cc:657-669 | the same for unary `+`, `-`, `~` and `!` of integers |
| GeneratorClass.Generator.GenCastOp | src/code_gen.cc:613-630 | the same for conversions between `int` and `long` |
| GeneratorClass.Generator.VisitBinaryOp | src/code_gen.cc:301-342 | the same for binary operators |
| GeneratorClass.Generator.GenAndOp | src/code_gen.cc:376-394 | the same for `&&` |
| GeneratorClass.Generator.GenOrOp | src/code_gen.cc:397-415 | the same for `\|\|` |
| GeneratorClass.Generator.VisitConditionalOp | src/code_gen.cc:740-745 | the same for `?:` |
| GeneratorClass.Generator.GenAssignOp | src/code_gen.cc:456-469 | the same for assignments to scalar locals |
| GeneratorClass.Generator.GenIncDec | src/code_gen.cc:706-737 | the same for increments and decrements of integer locals |
| GeneratorClass.Generator.VisitStmt | src/code_gen.cc:902-953 | for a node of the parser's tree the generator appends the machine code of the flat code laid out for it; `offset_` does not change over a statement |
| GeneratorClass.Generator.VisitIfStmt | src/code_gen.cc:902-926 | the same for the two-way test all loops are made of |
| GeneratorClass.Generator.VisitReturnStmt | src/code_gen.cc:939-953 | the same for a return of a scalar or of nothing |
| GeneratorClass.GenFuncBody | src/code_gen.cc:1292-1296 | the same for a whole body up to its return label |
| ParserClass.Parser.ParseStmt | src/parser.cc:2112-2140 | for the tree of a statement the parser, with its saved and restored destination fields, builds the node of the translation, meets the same errors, hands out the same labels, and has its fields back afterwards |
| ParserClass.Parser.ParseWhileStmt | src/parser.cc:2293-2321 | the same for `while` |
| ParserClass.Parser.ParseDoStmt | src/parser.cc:2333-2361 | the same for `do`, whose `continue` goes to the start of the body |
| ParserClass.Parser.ParseForStmt | src/parser.cc:2225-2290 | the same for `for`, whose `continue` goes to the step |
| ParserClass.Parser.ParseSwitchStmt | src/parser.cc:2391-2431 | the same for `switch`: cases and default of this switch only, the enclosing ones afterwards |
| ParserClass.Parser.ParseCaseStmt | src/parser.cc:2438-2463 | the same for `case` with a value or a range; an empty range is accepted anywhere and adds nothing |
| ParserClass.Parser.ParseDefaultStmt | src/parser.cc:2466-2480 | the same for `default`, and the error for a second one |
| ParserClass.Parser.ParseGotoStmt | src/parser.cc:2522-2536 | a jump to a known label, or one that waits |
| ParserClass.Parser.ParseLabelStmt | src/parser.cc:2539-2553 | a label becomes known once; a second one is an error |
| ParserClass.Parser.ExitFunc | src/parser.cc:26-45 | succeeds exactly if every waiting jump's label exists |
| ParserClass.ParseFunc | src/parser.cc:107-125 | for a whole body the parser succeeds exactly when the translation does; its nodes, laid out, are the flat code |
| FunctionCompiler.CompileFunc | src/parser.cc:107-125 | parser and generator one after the other accept a body exactly if nothing is wrong with its text in the sense of the next row, and then emit the machine code that the whole-compiler results are about |
| Acceptance.AcceptedIff | src/parser.cc:2107-2553 | a body is translated exactly if every `break` stands in a loop or switch, every `continue` in a loop, every `case` that is not an empty range in a switch and not above `INT_MAX`, no switch has two defaults, and the label names are distinct and hold every name that a `goto` wants; otherwise the error is that of a statement for which this fails |
| FlatCorrect.StepSimulates | src/parser.cc:2213-2480 | every step of the structured function is a run of its label-and-jump form that ends in a matching place |
| FlatCorrect.BreakStep | src/parser.cc:2494-2502 | `break` reaches the end of the innermost enclosing loop or switch, also after nested ones |
| FlatCorrect.ContinueStep | src/parser.cc:2483-2491 | `continue` reaches the innermost enclosing loop, through switches |
| FlatCorrect.DispatchRun | src/parser.cc:2417-2463 | the chain of comparisons goes to the first case whose value or range matches, else to default, else behind the switch; falling through is kept |
| FlatCorrect.GotoStep | src/parser.cc:2522-2553 | `goto` reaches the statement with that label wherever it is nested |
| FlatCorrect.Forward | src/parser.cc:2213-2553 | if the structured run is over after some number of steps, the flat run reaches a matching end |
| FlatCorrect.Backward | src/parser.cc:2213-2553 | if the flat run halts, the structured run is over in the same way |
| LabelsApart.TranslateApart | src/ast.h:109-115 | no label is defined twice in the code of a function |
| JumpsResolve.EveryJumpResolves | src/parser.cc:26-45 | every jump in the code of an accepted function goes to a label that is there exactly once |
| LoweringRuns.SameRuns | src/parser.cc:2213-2553 | the flat code and the structured body have the same terminating runs with the same variables and result, and fault on the same inputs |
| LoweringRuns.SameRunsUncaught | src/parser.cc:2213-2553 | the same against C's own rule for `continue`, on every input on which C's run never comes to one that a do-while loop catches |
| LoweringRuns.SameRunsAsC | src/parser.cc:2213-2553 | so on every input, when the text of the function has no such `continue` |
| Statements.RunsAgreeIff | src/parser.cc:2338-2341 | from any point of any function, the whole run under the compiled rule is the run that C asks for exactly if that run never comes to a `continue` which a do-while loop catches |
| Statements.NeverCaught | src/parser.cc:2338-2341 | functions whose text has no `continue` directly inside a do-while loop never come to one, over any run, through jumps and switches too |
| LoweringRuns.DoContinueDiverges | src/parser.cc:2338-2341 | `do continue; while (0);` ends in C and never ends as compiled |
| Backend.OpSimulates | src/code_gen.cc:902-961 | every step of the flat code is a non-empty run of the emitted instructions |
| Backend.MachineFollows | src/code_gen.cc:902-961 | so is every run of it |
| CompilerCorrect.MachineRefinesFunction | src/code_gen.cc:1292-1296 | whatever a terminating run of a function body does, its machine code does: same variables, the returned value in the accumulator, nothing else above the temporaries changed |
| CompilerCorrect.FunctionExplainsMachine | src/code_gen.cc:1292-1296 | whenever the machine code of a body ends or faults, the body ends or faults in the same way |
| CompilerCorrect.MachineRefinesC | src/code_gen.cc:1292-1296 | the first of these against C's rule for `continue`, on every input on which C's run never comes to one that a do-while loop catches |
| CompilerCorrect.CExplainsMachine | src/code_gen.cc:1292-1296 | the second of them against C's rule, on the same inputs |
| Align.MakeAlign | src/type.h:134-141 | a multiple of the alignment, at most one alignment away, upwards for offsets and downwards for negative ones |
| Calls.GetParamLocations | src/code_gen.cc:1195-1215 | the loop that gives out registers and memory places computes the specification below |
| Calls.LocateDistinct | src/code_gen.cc:1195-1215 | no register is given out twice, and only to parameters of its class |
| Calls.LocatePrefix | src/code_gen.cc:1195-1215 | a parameter's place does not depend on the parameters behind it |
| ArgumentPlaces.PlaceIs | src/code_gen.cc:1195-1215 | an integer is in the register whose number is the count of integers before it, behind the one for a structure result, while there are six; floating point likewise while there are eight; all else is in memory |
| CallsCorrect.ArgsArrive | src/code_gen.cc:1153-1171 | before a call every argument's value is in its register or its slot of memory, although arguments contain operators with spilled operands and calls themselves |
| CallsCorrect.CalleeReads | src/code_gen.cc:1239-1288 | what the caller put into the places of the parameters is what a callee with a scalar result finds in its slots, for every signature, variadic or not |
| CallsCorrect.CallRight | src/code_gen.cc:1149-1190 | the code of a call, with calls and operators nested in its arguments, yields the function's value of the argument values and keeps the caller's frame |
| CallsCorrect.CompileRight | src/code_gen.cc:1149-1190 | the same for constants, locals, structures, binary operators and calls, nested in any way |
| CallsCorrect.BinaryRight | src/code_gen.cc:308-311 | a spilled left operand, integer or floating, survives whatever calls the right operand makes |
| CallsGenerator.Generator.VisitFuncCall | src/code_gen.cc:1149-1190 | for a direct call with a scalar result the imperative caller emits exactly that code and leaves `offset_` as it found it |
| CallsGenerator.Generator.VisitBinaryOp | src/code_gen.cc:308-311 | the same for an operator whose operands may contain calls |
| CallsGenerator.Generator.VisitFuncDef | src/code_gen.cc:1239-1288 | the imperative callee with a scalar result saves and places its parameters as the results say |
| CallsGenerator.Generator.GenSaveArea | src/code_gen.cc:1302-1320 | the register save area, its vector part behind the test of `al` |
| CallsGenerator.Generator.CopyStruct | src/code_gen.cc:495-508 | copies in units of 8, 4, 2 and 1 bytes |
| CallsGenerator.AlignedIff | src/code_gen.cc:1148-1166 | for every signature and result: the stack is 16-byte aligned at a call exactly if the arguments in memory take, modulo 16, as many bytes as if each took 8, or 8 more than that when the call returns a structure |
| CallsGenerator.ScalarsAligned | src/code_gen.cc:1123-1191 | so it is whenever no structure is passed |
| CallsGenerator.StructShifts | src/code_gen.cc:1148-1166 | one structure of 16 bytes leaves it 8 bytes off |
| CallsGenerator.StructResultMisaligned | src/code_gen.cc:1148-1166 | a call with scalar arguments that returns a structure is always 8 bytes off |
| CallsGenerator.StructResultAligned | src/code_gen.cc:1148-1166 | with one structure of 16 bytes among its arguments it is aligned |
| CallsGenerator.BelowFrameIff | src/code_gen.cc:1148-1152 | what a call pushes lies below the caller's frame exactly if it returns no structure, or passes something in memory, or at least 8 bytes of the frame are in use; otherwise the return address overwrites the saved frame pointer |
| Varargs.GetParamRegOffsets | src/code_gen.cc:1008-1027 | the numbers `va_start` stores |
| Varargs.Walker.VaArg | src/code_gen.cc:1062-1119 | one `va_arg`: the save area while there is room, then the overflow area |
| Varargs.FindsAllIff | src/code_gen.cc:1008-1119 | `va_arg` finds all unnamed arguments, in order, of whatever classes and however many, exactly for named arguments with at most five integers whose places in memory are counted rightly |
| Varargs.SixthLost | src/code_gen.cc:1008-1027 | with six named integers the first unnamed one is looked for in the wrong place |
| Varargs.BytesMiscounted | src/code_gen.cc:1019-1026 | a named structure in memory is counted as 8 bytes whatever its size |
| Varargs.VarargsArrive | src/code_gen.cc:1062-1119 | reading at the addresses `va_arg` gives yields the unnamed arguments of the call |
| Varargs.UnnamedArrive | src/code_gen.cc:1030-1191 | from the caller's code to the callee's `va_arg`: the value of every unnamed argument expression arrives |
| Bits.MaskBits | src/ast.h:638-641 | the shifted all-ones constant has ones exactly at the bits of the field |
| StaticImage.DataSection.GenStaticDecl | src/code_gen.cc:829-894 | the directives of a static object make exactly as many bytes as its type has; each bit of an initializer is in its place and all other bits are zero |
| StaticImage.GetStaticInit | src/code_gen.cc:1515-1549 | each round yields the next integer or the next byte of bit-fields, which may share it or run over several |
| StaticImage.PackStep | src/code_gen.cc:1527-1547 | one round of the packing loop keeps what is packed and adds the bits of one initializer |
| StaticImage.ImageUnique | src/code_gen.cc:829-894 | the initializer list decides every byte |
| StackImage.Declaration.AddInit | src/ast.cc:664-672 | the list stays sorted, holds the new entry, and of the old ones exactly those with another place |
| StackImage.AddAll | src/ast.cc:664-672 | after any additions the list holds, for every place, the last entry given for it |
| StackImage.Declaration.ParseLiteralInitializer | src/parser.cc:1909-1946 | a string literal, cut to its array, is added in chunks of 8, 4, 2 and 1 bytes |
| StackImage.LiteralImage | src/parser.cc:1909-1946 | an object that holds these chunks holds the bytes of the literal |
| StackImage.StackInit.EmitZero | src/code_gen.cc:1424-1434 | zeroes exactly the gap |
| StackImage.StackInit.VisitDeclaration | src/code_gen.cc:787-826 | the stores that initialize a local object give the same bytes as the data directives for the same list |
| BitFields.Generator.EmitLoadBitField | src/code_gen.cc:439-453 | emits the load sequence the next rows are about |
| BitFields.Generator.EmitStoreBitField | src/code_gen.cc:477-492 | emits the store sequence |
| BitFields.LoadIsRight | src/code_gen.cc:439-453 | the load yields the field's bits, sign- or zero-extended by its type, for every field that can be placed |
| BitFields.StoreThenLoad | src/code_gen.cc:477-492 | loading after storing yields the value modulo the width of the field |
| BitFields.KeepsOthersIff | src/code_gen.h:176-180 | a store leaves all other bits of the unit alone exactly if the unit has at most 4 bytes or the field ends at or before bit 31 or at bit 64 |
| BitFields.OtherLost | src/code_gen.cc:477-492 | otherwise some store loses a bit of a neighbour |
| BitFields.StoreStaysInside | src/code_gen.cc:477-492 | nothing outside the unit is written |
| StructLayout.StructType.AddMember | src/type.cc:385-403 | the state after one ordinary member: in a structure it lies at the least multiple of its alignment not below the end of the members before it, in a union at 0; width and alignment grow to the least that hold it |
| StructLayout.StructType.AddBitField | src/type.cc:406-422 | the state after one bit-field: its entry where it was put, the width ending it at a multiple of the alignment kept for bit-fields |
| StructLayout.StructType.ParseBitField | src/parser.cc:1358-1418 | the entry where the two rows on its spot put it, or exactly which of the three errors it is |
| StructLayout.StructType.MergeAnony | src/type.cc:426-458 | refused exactly if a name is taken; otherwise the aggregate is placed like a member, and its members keep their places inside it |
| StructLayout.StructType.Finalize | src/type.cc:374-382 | drops exactly the unnamed bit-fields and keeps the order of the others |
| StructLayout.SpotIsFree | src/parser.cc:1375-1409 | the place chosen for a bit-field is behind all members and inside a unit of its type |
| StructLayout.SpotIff | src/parser.cc:1358-1373 | a width is accepted exactly if it is positive and fits the type of the bit-field; which error it is otherwise |
| StructLayout.SpotBehind | src/parser.cc:1375-1409 | in a structure a bit-field begins directly behind the last entry, bit by bit, if it ends within the first unit of its type, and otherwise with the first unit behind; in a union it begins at 0 |
| StructPlaces.StructInPlace | src/type.cc:385-458 | over any run of declarations of a structure every entry is where its own declaration and the end of the entry before it put it, ordinary members and aggregates at the least multiple of their alignment; the alignment is the largest of theirs, and the width ends the last entry |
| StructPlaces.UnionInPlace | src/type.cc:385-403 | in a union every ordinary member is at 0, and the width is the least multiple of the alignment that covers the largest |
| StructLayout.BuildIsSafe | src/type.cc:385-458 | after any declarations no two entries of the member list overlap, all lie inside the width, ordinary members are aligned, every bit-field starts in the first byte of its unit and fits it, and so does what each name stands for, inside an entry |
| StructNames.NamesApart | src/type.cc:385-458 | in a structure two names share no bit, through any nesting of anonymous structures and unions, unless an anonymous union holds both |
| StructNames.NamesAligned | src/type.cc:385-458 | the map of a structure has exactly the declared names, at any depth, each with the size and alignment declared for it and at a multiple of that alignment |
| StructLayout.BuildWidthFits | src/type.cc:385-422 | while nothing is merged, the width is a multiple of the alignment |
| StructLayout.StaysMultipleIff | src/type.cc:385-422 | whatever plain members and bit-fields follow, the width of a structure is a multiple of its alignment after them, exactly if it is now and the alignment is not above the one kept for bit-fields |
| StructLayout.MergedStaysMultipleIff | src/type.cc:426-458 | merging an aggregate keeps that exactly if the aggregate's alignment is not above the one kept for bit-fields |
| StructLayout.MergedThenBitField | src/type.cc:406-458 | `struct { struct { long x; }; char c : 1; }` has width 9 and alignment 8 |
| StructLayout.UnitInsideIff | src/parser.cc:1375-1409 | the unit through which a bit-field is read lies inside the object exactly if this is a union, the field is the first member or gets a unit of its own, or the unit ends within the alignment of bit-fields |
| StructLayout.UnitBehindEnd | src/parser.cc:1398-1409 | in `struct { char c; int b : 20; }` the unit of `b` ends at byte 5 of 4 |
| FrameAllocation.Allocator.AllocObjects | src/code_gen.cc:964-994 | the objects of a scope get disjoint, aligned slots below the old `offset_`, the most aligned first, each as high as its alignment allows |
| FrameAllocation.Allocator.VisitCompoundStmt | src/code_gen.cc:997-1005 | over nested blocks all objects have slots of their own, each as high below the one before as its alignment allows, and `offset_` never rises |
| FrameAllocation.Allocator.VisitExpr | src/code_gen.cc:200-228 | the temporaries of operators and calls, pushed structures included, in the order and at the places of a recursive description, each below all slots given out before and below those still in use; `offset_` comes back |
| FrameAllocation.CallBase | src/code_gen.cc:1149-1153 | the arguments of a call begin as high as they can if those in memory are to end at a multiple of 16 |
| FrameAllocation.GenFuncBody | src/code_gen.cc:1286-1294 | for a whole function: every register parameter has the next 8 bytes, every object one slot below them without wasted room, temporaries below the objects in scope |
| FrameAllocation.AllocatedFrameOk | src/code_gen.cc:964-994 | locals placed like this satisfy the assumption of the compiler theorems |
| ConstantFolding.ArithAgreesIff | src/evaluator.cc:9-70 | the evaluator's 64-bit result of one operator is the value in the operator's type exactly if the operands are fit: their exact sum, difference, product or shift is in the range of the type, and a divisor is neither 0 nor the one that overflows |
| ConstantFolding.FoldIsEval | src/evaluator.cc:9-125 | for every expression whose intermediate values fit, the evaluator gives its value, whatever the variables are |
| ConstantFolding.FoldMatchesCode | src/evaluator.cc:9-125 | and the emitted instructions compute the same value |
| FoldingExact.FoldIsLong | src/evaluator.cc:9-125 | for every expression without variables, fitting or not, the evaluator gives the value that the expression has with every type replaced by `long`, or an error exactly if a division in it faults |
| ConstantFolding.FoldOverflows | src/evaluator.cc:9-70 | `2147483647 + 1` folds to a value the code does not compute |
| ConstantFolding.FoldKeepsCast | src/evaluator.cc:73-100 | a conversion to `int` is not carried out by the evaluator |
| ExprGrammar.PrintParse | src/parser.cc:128-816 | at every level of precedence, parsing what was written, with whatever parentheses beyond those it needs, and going on is the same as going on with the tree |
| ExprGrammar.RoundTrip | src/parser.cc:128-816 | parsing a written expression, however parenthesised, gives its tree and consumes exactly its tokens, whatever follows that is no operator |
| ExprGrammar.Unambiguous | src/parser.cc:128-816 | expressions with the same tokens stand for the same tree |
| Precedence.Groups | src/parser.cc:128-745 | of two binary operators between three operands the second takes the middle one exactly if its section of the standard comes before that of the first |
| Precedence.AssignmentForms | src/parser.cc:748-816 | exactly the arithmetic, shift and bitwise operators have an assignment form |
| ExprExact.ParseSound | src/parser.cc:128-816 | what the parser accepts at a level was written so: the consumed tokens are a way to write an expression that stands for the tree |
| ExprExact.AcceptsIff | src/parser.cc:128-816 | the parser accepts exactly the token sequences that begin with a written expression |
| TokenSequenceClass.TokenSequence.Peek | src/token.cc:206-224 | the next token, newlines skipped, nothing consumed |
| TokenSequenceClass.TokenSequence.Next | src/token.h:323-332 | consumes one token; at the end it counts |
| TokenSequenceClass.TokenSequence.PutBack | src/token.h:333-342 | gives back the last token, across newlines and beyond the end |
| TokenSequenceClass.NextPutBack | src/token.h:323-342 | a token read and given back leaves what was read and what is to come unchanged |
| ExprParserClass.Parser.ParseExpr | src/parser.cc:128-130 | the chain of level methods on the moving cursor computes the grammar's parse, or fails where it fails, and terminates |
| ExprParserClass.Parser.ParseAssignExpr | src/parser.cc:748-816 | the same for assignments, with compound ones written out |
| ExprParserClass.Parser.ParseConditionalExpr | src/parser.cc:731-745 | the same for `?:`, also without a middle operand |
| ExprParserClass.Parser.ParseAdditiveExpr | src/parser.cc:600-612 | the same for one of the ten left-associative levels |
| ExprParserClass.Parser.ParseUnaryExpr | src/parser.cc:491-508 | the same for prefix operators |
| ExprParserClass.Parser.ParsePostfixExprTail | src/parser.cc:426-488 | the same for subscripts, members, calls and postfix operators |
| ExprParserClass.ParsePrinted | src/parser.cc:128-816 | on a printed expression with newlines anywhere the whole parser gives the expression and leaves nothing |
| ExprExact.ParseTokens | src/parser.cc:128-816 | the chain of methods accepts exactly such tokens, with newlines anywhere between them |
| Conditionals.Preprocessor.ParseElif | src/cpp.cc:530-584 | the stack after `#elif`, which pushes an entry of its own |
| Conditionals.Preprocessor.ParseElse | src/cpp.cc:587-614 | the stack after `#else`, refused behind another `#else` |
| Conditionals.Preprocessor.ParseEndif | src/cpp.cc:617-636 | pops down to and including the opening entry, or refuses |
| Conditionals.Preprocessor.Process | src/cpp.cc:467-636 | the stack machine over a whole file |
| Conditionals.NestedRun | src/cpp.cc:467-636 | on well-nested text, of any depth, the stack keeps exactly the lines all of whose conditionals are in their first true group, and is afterwards what it was before |
| NestedText.ClosesIff | src/cpp.cc:467-636 | from an empty stack, lines are accepted and close all they open exactly if they are those of a well-nested text, at most one `#else` last in each conditional, without bad conditions that are looked at; the text kept is C's |
| Conditionals.AgreesWithCIff | src/cpp.cc:530-584 | it agrees with C exactly if no ill-formed condition stands behind an included group |
| Conditionals.BadBehindStops | src/cpp.cc:530-584 | an `#elif` condition that C skips is evaluated and can be refused |
| MacroExpansion.Preprocessor.AddMacro | src/cpp.h:107-114 | the last definition of a name counts |
| MacroExpansion.Preprocessor.RemoveMacro | src/cpp.h:116-123 | a predefined macro stays |
| MacroExpansion.Preprocessor.Expand | src/cpp.cc:40-99 | the worklist terminates for every macro table and input, and computes the recursive definition; spellings and white space are those of the replacement by names |
| MacroExpansion.LineToken | src/cpp.cc:869-873 | for `__LINE__` the token put out is a numeral that reads as its line, everything else of the token kept |
| Numerals.DecimalReads | src/cpp.cc:869-873 | the spelling of a number consists of digits, reads from left to right as the number, and begins with 0 only for 0 |
| Numerals.NumeralUnique | src/cpp.cc:869-873 | no other spelling does so |
| MacroExpansion.RoundStep | src/cpp.cc:40-99 | one round keeps what the list expands to and lowers its weight |
| MacroExpansion.Preprocessor.FinalizeSubst | src/token.h:301-312 | every token gets the hide set, the first one the white space |
| MacroExpansion.ExpandTokenFinal | src/cpp.cc:40-99 | every macro name that is left is in its own hide set |
| MacroExpansion.ExpandIsRescan | src/cpp.cc:40-99 | hide sets give the replacement by names with the set of macros being replaced, as section 6.10.3.4 of C11 describes it, and the white space of the replaced name before the first token |
| MacroExpansion.ExpandAllMeans | src/cpp.cc:40-99 | the same for a whole list |
| Stringize.StringizeTokens | src/cpp.cc:207-230 | the literal that `#` writes |
| Stringize.Scanner.ScanLiteral | src/scanner.cc:228-243 | the value of a literal, or an error, as the results below on `Scan` say |
| Escapes.ScanIff | src/scanner.cc:294-360 | a text is accepted exactly if it begins with characters that are each written plainly, by a letter of the table, in one to three octal digits, in hexadecimal digits, or by a code of four or eight digits, and a quote; its value is the bytes these stand for, codes by the definition of UTF-8 |
| Escapes.ReadLiteral | src/scanner.cc:228-243 | the scanner itself does so |
| Escapes.WriteThenScan | src/scanner.cc:294-360 | every byte string, each byte in any of the spellings possible for it, is read back, if no digit behind a number is taken for a part of it |
| Escapes.Writable | src/scanner.cc:318-334 | every byte string has such a spelling |
| Escapes.Utf8Iff | src/encoding.cc:39-42 | the bytes of a code are the only ones that decode to it, in the shortest form; numbers from 0x110000 on have none |
| Stringize.RoundTripIff | src/scanner.cc:228-315 | scanning what `#` wrote gives the spellings, with a space exactly where there was white space, exactly if no token outside literals contains a quote or a backslash |
| Stringize.WriteAndRead | src/cpp.cc:207-230 | the two methods one after the other do so |
| MemPoolClass.MemPool.Alloc | src/mem_pool.h:59-75 | never a chunk in use; a new block only when none is free |
| MemPoolClass.MemPool.Free | src/mem_pool.h:79-88 | the chunk becomes the first free one |
| MemPoolClass.MemPool.Clear | src/mem_pool.h:92-99 | empties everything |
| MemPoolClass.Drive | src/mem_pool.h:59-99 | over any run of commands the chunks handed out are distinct, are what `allocated_` counts, and with the acyclic free list are all chunks of all blocks |
| RbTreeClass.RbTree.RotateLeft | test/data-structure/rbtree.c:47-66 | the pointer changes of a left rotation |
| RbTreeClass.RbTree.RotateRight | test/data-structure/rbtree.c:68-87 | and of a right one |
| RbStore.RotationLinked | test/data-structure/rbtree.c:47-66 | a left rotation keeps parent links, the nodes and their order |
| RbStore.RotateKeeps | test/data-structure/rbtree.c:47-87 | so does one to either side, which moves exactly the links it should |
| RbTreeClass.RbTree.FindPlace | test/data-structure/rbtree.c:90-96 | the search ends at an empty place where the key belongs, behind equal keys |
| RbTreeClass.RbTree.Insert | test/data-structure/rbtree.c:89-107 | the tree stays a sorted red-black tree with right parent links; the new node is the only change to the nodes and to their order |
| RbTreeClass.RbTree.InsertFixup | test/data-structure/rbtree.c:128-138 | the loop ends and mends the colors without touching nodes or order |
| RbTreeClass.RbTree.FixStep | test/data-structure/rbtree.c:110-126 | one turn of it, for either side |
| RbInsert.RecolorStep | test/data-structure/rbtree.c:112-116 | a red uncle: the trouble moves to the grandparent |
| RbInsert.InnerStep | test/data-structure/rbtree.c:118-121 | an inner grandchild becomes an outer one |
| RbInsert.OuterStep | test/data-structure/rbtree.c:122-124 | an outer grandchild: the last rotation ends the trouble |
| RbTreeClass.RbTree.Delete | test/data-structure/rbtree.c:169-203 | the tree stays a sorted red-black tree; exactly the one node goes and the others keep their order |
| RbTreeClass.RbTree.Transplant | test/data-structure/rbtree.c:140-151 | the pointer changes of a transplant, which also sets the parent of `nil` |
| RbTreeClass.RbTree.Minimum | test/data-structure/rbtree.c:153-159 | the leftmost node of a subtree |
| RbDelete.SpliceKeeps | test/data-structure/rbtree.c:174-181 | splicing out a red node keeps a red-black tree; a black one is missing on the ways through its place only |
| RbDelete.MoveKeeps | test/data-structure/rbtree.c:182-198 | the successor takes the place of the deleted node; what is missing then depends on the successor's own color |
| RbTreeClass.RbTree.DeleteFixup | test/data-structure/rbtree.c:231-241 | the loop ends and makes up for the missing black node |
| RbTreeClass.RbTree.DeleteStep | test/data-structure/rbtree.c:206-229 | one turn of it, for either side |
| RbDeleteFix.RedSibling | test/data-structure/rbtree.c:208-211 | a red sibling goes up |
| RbDeleteFix.BlackNephews | test/data-structure/rbtree.c:212-215 | two black nephews: the parent becomes the short node |
| RbDeleteFix.NearNephew | test/data-structure/rbtree.c:217-222 | a red near nephew becomes a far one |
| RbDeleteFix.FarNephew | test/data-structure/rbtree.c:223-227 | a red far nephew: after one rotation nothing is missing |
| RbTreeClass.RbTree.Find | test/data-structure/rbtree.c:243-248 | finds a node with the key exactly if there is one |
| RbBalance.SameBlacks | test/data-structure/rbtree.c:89-138 | in these trees all ways from a node to an end pass the same number of black nodes |
| RbBalance.Shallow | test/data-structure/rbtree.c:89-138 | so no way from the root is more than twice as long as another |

## Left out

- File handling, include search, the text of the assembler output, `.loc` lines, error messages: input and output.
- Pointers, arrays, members, calls and floating point inside compiled expressions: the compiler theorems are about signed `int` and `long` locals; calls have their own theorems.
- Unsigned types, `switch` on 64-bit values, and compound assignment to a left side with effects.
- `a ?: b` evaluates its first operand twice in the tree the parser builds; the grammar follows this, the compiler theorems have the three-operand form only.
- Finite tables (keywords, type ranks, declaration specifiers), attributes, and `main`.
- ExprCorrect.SimulateAssign: targets are locals; targets through pointers, whose address is kept in `%r10`, and structures are left out.
- ExprCorrect.SimulateIncDec: integer locals; pointers and floating point are left out.
- ExprCorrect.CastBlock: `int` and `long`; the types of 1 and 2 bytes, `_Bool`, pointers and floating point are left out.
- Conversions.ElaborateMeans: `int` and `long`; promotion of narrower types and conversions of pointers are left out.
- GeneratorClass.Generator.VisitUnaryOp: `&`, `*` and floating-point operands are left out; `++`, `--` and conversions have methods of their own.
- GeneratorClass.Generator.GenCastOp: the two integer types only, like `ExprCorrect.CastBlock`.
- GeneratorClass.Generator.GenAssignOp: targets are locals of the two integer types.
- GeneratorClass.Generator.GenIncDec: operands are locals of the two integer types.
- GeneratorClass.Generator.VisitStmt: compiled functions have their locals at function scope, so a compound statement allocates nothing; slots for nested scopes are in `FrameAllocation`.
- GeneratorClass.Generator.VisitReturnStmt: the copy of a structure result through `retAddrOffset_` is left out.
- ParserClass.Parser.ParseStmt: statements arrive as trees; their tokens, declarations and scopes are left out, those of expressions are in `ExprParser`.
- ParserClass.Parser.ParseGotoStmt: a jump that waits is resolved through the table of labels at the end of the function instead of being patched in place.
- ParserClass.Parser.ParseCaseStmt: a `case` with a value or a non-empty range outside every switch is an error here; the source dereferences a null pointer. The bounds arrive as values.
- ParserClass.Parser.ParseDefaultStmt: like the source it accepts a `default` outside every switch.
- ParserClass.ParseFunc: stops at flat code; `FunctionCompiler.CompileFunc` goes on to instructions.
- LoweringRuns.SameRunsAsC: the condition on the text is sufficient only; the exact condition, on runs, is in `Statements.RunsAgreeIff`.
- CompilerCorrect.MachineRefinesFunction: the body up to its return label; storing the parameters is in `CallsCorrect.CalleeReads`, and `leaveq` and `retq` are left out.
- CompilerCorrect.FunctionExplainsMachine: the body up to its return label.
- CompilerCorrect.MachineRefinesC: the body up to its return label.
- CompilerCorrect.CExplainsMachine: the body up to its return label.
- CallsCorrect.ArgsArrive: the scalar result of a call has no hidden argument; arguments have no side effects besides those of the functions they call, which do not write to the caller's frame.
- CallsCorrect.CalleeReads: functions with scalar results; the hidden address of a structure result is left out.
- CallsCorrect.CallRight: results are scalar; of calls that return a structure the stack is described, in `CallsGenerator.AlignedIff` and `CallsGenerator.BelowFrameIff`.
- CallsCorrect.CompileRight: constants, scalar and structure locals, two-operand operators without faults, and calls; assignments and jumps inside arguments are left out.
- CallsGenerator.Generator.VisitFuncCall: direct calls with scalar results; calls through pointers and structure results are left out.
- CallsGenerator.Generator.VisitFuncDef: functions with scalar results; the locals of the body are placed by `FrameAllocation`.
- CallsGenerator.Generator.GenSaveArea: the test of `%al` and its jump are one conditional store.
- Varargs.Walker.VaArg: the four fields of a `va_list` are fields of a record; the instructions that read and write them are left out.
- Varargs.UnnamedArrive: argument expressions as in `CallsCorrect.CompileRight`.
- StaticImage.GetStaticInit: address constants and floating-point values are left out.
- StackImage.StackInit.VisitDeclaration: integer initializers without bit-fields; pointers, floating point and structures as values are left out.
- StructLayout.StructType.ParseBitField: unnamed bit-fields of width 0 and the check for an integer type are left out.
- StructNames.NamesApart: a type whose declarations repeat a name is refused, as an assertion of the source demands for bit-fields.
- FrameAllocation.Allocator.VisitExpr: calls with scalar results; the room for a structure result is left out.
- FrameAllocation.GenFuncBody: parameters that come in memory have their places above the frame, and the register save area of a variadic function is not part of it; slots are aligned relative to the frame pointer.
- ConstantFolding.FoldIsEval: the evaluator for addresses and the one for floating point are left out.
- ExprGrammar.RoundTrip: no casts, `sizeof`, `_Alignof`, `_Generic` or compound literals, and no type checks while the tree is built.
- TokenSequenceClass.TokenSequence.Peek: `__func__` is not replaced, and the end of the tokens is a value of its own instead of a copied token.
- ExprParserClass.Parser.ParseExpr: the tree is the bare syntax; conversions that the source inserts are in `Conversions`.
- ExprParserClass.Parser.ParseUnaryExpr: `sizeof` and `_Alignof` are left out.
- Conditionals.Preprocessor.Process: the conditions are values; `defined` and the expressions themselves are left out.
- MacroExpansion.Preprocessor.Expand: macros without parameters; `##`, function-like macros, and tokens that become directives are left out.
- Stringize.Scanner.ScanLiteral: narrow strings; encoding prefixes and line splices are left out.
- Escapes.ScanIff: a code of the surrogate range is encoded like any other; whether a C++ library refuses it is not part of this model.
- MemPoolClass.MemPool.Alloc: a block has at least one chunk.
- RbTreeClass.RbTree.Insert: nodes are entries of maps from node to field, with `nil` as an entry like any other, instead of separate heap objects; freeing a node is left out.
