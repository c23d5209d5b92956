# Verified models of the toyc tool chain

toyc is a small self-hosted C tool chain: a compiler (`app/compiler/cgen.c`, `cgen_expr.c`), an
assembler (`toyas.c`), an object file writer (`elf_write.c`), an archiver (`toyar.c`), a static linker
(`toyld.c`), a preprocessor (`preproc.c`) and the C library it is linked with (`lib/time.c`). This
project models its cores in Dafny and proves that they do what they are for. The parts meet: the same
bytes that the code generator emits are written into an object file, read by the linker, merged,
relocated, loaded and executed by a model of the processor, and `CompiledObject.WrittenReadLinkedRun`
says that what comes out is what the source means.

Where the C code changes things step by step the model is a method or a class with mutable fields and
arrays, proved against functions on values; the theorems are lemmas about those functions. Run
`dafny verify dfyconfig.toml` to check everything.

## The modules

| files | what they hold |
|---|---|
| Words, WordFacts, Bytes, Texts | 32- and 64-bit words, what their operators do to every bit, little-endian fields and byte buffers, reading a text |
| X86 | the instructions the compiler emits, their encoding, an independent decoder, the processor |
| CSource | the int fragment of C as syntax trees and its meaning, an interpreter with fuel |
| CodeGen | the emitted code as a function of the syntax tree |
| Blocks, Frames, Snippets, Arguments, Statements, Activation | what single pieces of code do |
| Simulation | the induction over fuel and syntax |
| Emission, Labels, Uniqueness | bytes, labels, fixups, backpatching; every jump has its label |
| WholeProgram | the theorems about whole programs |
| Generator | the imperative generator, which emits exactly the specified bytes |
| Departures, Widths | where the generated code leaves C, with inputs that show it and exact conditions |
| Scopes, Shadowing | the two walks over a function body that number blocks and assign slots, C's scopes beside them, and where they disagree |
| Linking, LinkProofs, SymbolAddresses, ElfHeaders, Linker | what linking means, theorems about the loaded program, what stands at the address of a symbol, what the headers say, the linker |
| ObjectFile, ObjectHeaders, ObjectWriter | the object file format and what its headers say, writer and reader |
| Toolchain, CompiledObject | source, object, executable and processor together |
| ArchiveFile, Archiver | the archive format, the archiver and the two readers |
| Decimal, FloatLiteral, Rounding, Literals | decimal literals to binary64, how near the result is, and what cutting digits off costs |
| IfExpression, IfMeaning, IfPrinting, IfEvaluator | the expressions of #if, what digits, operators and names mean in them, printing and reading |
| Comments, StrippedText, DirectiveReader, SourceLines | comments, directive lines, continued lines and line numbers |
| MacroCalls, Substitution, ReplacementText | argument lists of macro calls, arguments in replacement texts, pasting, quoting and trailing arguments |
| Conditionals, Directives, HeaderFiles | conditional compilation, the scan as a function, guards, inclusion and removal |
| CallTerms, CallPaths, CallExpansion | calls of function macros inside each other |
| Preprocessor | the expander |
| Encoder, Assembler | the instruction encoder of the assembler and its local labels |
| Calendar | broken-down time |

## What the main theorems assume

Source programs. The theorems about compiled code hold for every program with `ProgramFits`: variables
and functions exist, calls have at most 14 arguments, frames and code stay below fixed sizes, a goto
label is defined once in its function, and every body satisfies `FaithfulStmt`. That predicate can be
read off the syntax tree. It excludes only expressions in which a 64-bit operation would see an operand
that is not sign-extended (`f() == x` with a local x), which is where the generator and C disagree
(`Widths.MixedOperands`, `Widths.SumTested`). Three departures depend on the run
and not on the text alone: a continue in a do-while, a switch body that runs off its end, and a function
that runs off its end without a return there. The flag `sealed` of a function says whether the compiler
puts a return behind it. In such a run the meaning of the source is the outcome `Departs`, so the theorems cover every run that does none of
the three; `Departures.DoContinueExactly`, `Departures.SwitchPopsTwice` and
`Departures.ImplicitReturnExactly` say what the code does then. A read of a variable without a value, a
shift count outside 0 to 31 and INT_MIN / -1 have no meaning in C and end a run in the same way.
Overflow of +, - and * wraps around, as on the target. && and || and the ternary test 32 bits, which is
all of an int. The order in which C may evaluate arguments is the compiler's.

The processor. Memory is a map of 4-byte words, the stack has no end, and instructions the compiler does
not emit are undefined.

Linking. `Linkable` says that all names resolve, all relocated fields lie inside their merged section
and all sizes stay below 0x70000000; that fields do not overlap is asked for only by the theorems about
fields.

Object files. `Writes` says that every size and offset fits its field and names contain no NUL.

Floats. The literal is any printed one whose first eighteen counted digits, scaled by the exponent, have an
integer part below 2^52 and at most 18 digits behind the point. Digits are counted from the first one that
is not zero before the point, and from the point on. What the literal itself is worth is compared with the
result in `Literals.ParseExactly`.

Archives. Member names have 1 to 15 characters without space or slash.

#if expressions. `nest` bounds how deeply macro values may lead to further macros; macros that refer to
themselves are not part of this model.

Preprocessor. The files that can be included are a map that the class is given; termination, the stack,
the counters and the growth of the output are proved for any map. The text that comes out is that of
`Directives.Scan`, a function, for every text and every map of files. The theorems
about that text are `Preprocessor.PreprocessBlocks`, about printed lines, whose definitions have values
without blanks at their ends and without comment marks, because only these are read as they are printed
(`DirectiveReader.DefineReads`), `HeaderFiles.IncludedTwice`, about guarded headers, and
`Preprocessor.PreprocessCalls`, about a line with calls of function
macros whose replacement texts consist of parameters, other words, marks and groups in parentheses, where
each call has as many arguments as the macro has parameters and none of them is empty, and names do not
run into each other (`CallTerms.Good`, `CallTerms.GoodDef`).

## Findings

Properties that one might expect of the code and that it does not have, each with an input and the exact
condition:

- continue in a do-while restarts the body without the test; `do { continue; } while (0)` never ends (`Departures.DoContinueSpins`, `Departures.DoContinueExactly`).
- A switch body that runs off its end enters the dispatch code again and pops once too often (`Departures.SwitchPopsTwice`, `Departures.OneCaseRunsOff`).
- A function that ends in `if (x) return;` has no return at its end (`Departures.ImplicitReturnExactly`, `Departures.EarlyReturnFallsThrough`).
- A call and another operand, such as a local or a negated value, in one comparison, division, remainder, shift or condition mix values whose upper halves are filled in different ways (`Widths.MixedOperands`, `Widths.AgreesExactly`, `Widths.SumTested`, `Widths.EqualNotFound`).
- Decimal literals are rounded up instead of to nearest, and 1.25 is not exact (`Rounding.NearestExactly`, `Rounding.OneAndAQuarter`, `Rounding.NearlyTwo`).
- Zeros behind the point count as digits, so a small literal with a positive exponent loses its real digits: 0.0000000000000000001e5 is read as 0 (`Literals.ParseExactly`, `Literals.ZerosCount`, `Literals.SixDigitsLost`).
- `#define F(+)` sends the reader of parameters into a loop that never ends (`DirectiveReader.ParamsRead`, `DirectiveReader.PlusEndless`).
- A value is cut at a comment mark even inside a string literal, so a definition is read as it was written only without one (`DirectiveReader.ValueExactly`, `DirectiveReader.QuotedComment`).
- #undef takes one definition away and leaves macros with parameters: a name defined twice alike, or with parameters, is still defined (`HeaderFiles.UndefExactly`, `HeaderFiles.TwiceDefined`).
- An indented #endif, #else or #if is not seen while text is being skipped (`SourceLines.EndifExactly`).
- Lines inside continued directives and calls are not counted, and `__LINE__` in the value of a macro is always 1 (`SourceLines.LinesExactly`, `SourceLines.ContinuedCounts`, `SourceLines.MacroLineExactly`).
- A continued line in a macro value loses the blanks at its start, so words run together (`SourceLines.JoinedExactly`, `SourceLines.ContinuedReads`).
- The arguments of pasted parameters are expanded first: with `#define A 1`, `A` pasted to `_t` is `1_t` (`ReplacementText.RawExactly`, `ReplacementText.ExpandedBeforePasting`).
- An empty operand in front of a paste operator takes the blank before it away, and `x a##b` is one word (`ReplacementText.OperatorsExactly`, `ReplacementText.EmptyLeft`).
- `, ## __VA_ARGS__` keeps its comma for a single empty argument, which is what a call with nothing between its parentheses has when the macro has no named parameters (`ReplacementText.CommaExactly`, `ReplacementText.EmptyCall`).
- A quoted argument keeps its white space as it is written, where C has single spaces (`ReplacementText.SpellingExactly`).
- In #if the escapes for alert, backspace, vertical tab and form feed and those with octal digits other than 0 do not have their values (`IfMeaning.EscapesExactly`).
- The executable announces .data and .bss with alignment 32, but they begin behind a text that is aligned to 16 (`SymbolAddresses.ThirtyTwoExactly`, `SymbolAddresses.SixteenOnly`).
- An empty comment between two names joins them (`Comments.CommentBlanked`, `Comments.EmptyCommentJoins`).
- In a follow-on argument list a parenthesis or a double quote in a character literal counts (`MacroCalls.OneCharacter`).
- The assembler encodes loads, stores and addresses with r12 as base, with r13 and in places rbp as base without displacement, with rsp as index, and byte immediates that do not fit, as something else (`Encoder.ReadsExactly`).
- A short jump to a local label further than 127 bytes away is emitted all the same (`Assembler.JumpsLand`).
- SEARCH_LOCAL compares block numbers by order, so a later local of an outer block, or one of a sibling block that is closed, can win; the compiler has no scope for a for statement and for the braces of a switch, so their variables are found behind them; and a static variable never hides an automatic one (`Scopes.UseFound`, `Shadowing.LaterOuterWins`, `Shadowing.SiblingWins`, `Shadowing.ForWins`, `Shadowing.SwitchWins`, `Shadowing.LoopFound`, `Shadowing.StaticLost`).
- A function macro is on the expand stack already while its arguments are expanded, so a call of it in its own argument is left over, unless an enclosing call of another macro scans it again: `ID(ID(1))` comes out as `ID(1)` (`CallExpansion.CallsExactly`, `CallExpansion.SelfCallStays`, `CallPaths.SameStay`).

## Model

| member | source | states |
|---|---|---|
| WholeProgram.Returns | app/compiler/cgen.c:928-1130 | Meaning is preserved for whole programs: if the source function returns or runs off its end for some amount of fuel, then the loaded bytes, entered as a caller enters them, reach the return address with the same value in eax, rsp and rbp back and every stack word above the return address unchanged |
| WholeProgram.Traps | app/compiler/cgen_expr.c:1333-1336 | If the source divides by zero, the loaded bytes stop with a divide fault |
| WholeProgram.Diverges | app/compiler/cgen.c:490-628 | If the source runs out of every amount of fuel, the loaded bytes run for any number of steps without stopping |
| WholeProgram.CallsLinked | app/compiler/cgen_expr.c:182-222 | Applying the recorded call relocations to the emitted text of all functions gives the text in which every call leads to the start of its function, and changes nothing else |
| WholeProgram.FunctionLabels | app/compiler/cgen.c:105-139 | Labels are sound in every function: each label number is defined at most once and between the counter before and after the function, every jump names a label that is defined exactly once, and every field is wide enough |
| WholeProgram.FunctionPlaced | app/compiler/cgen.c:1369-1481 | In the text of a whole program the code of every function stands at its start and decodes to that code |
| WholeProgram.ProgramLoaded | app/compiler/cgen.c:1369-1481 | A loaded program text meets every assumption of the simulation |
| Simulation.SimExpr | app/compiler/cgen_expr.c:390-2835 | Expression code is correct: from any state whose frame holds the store, running the code of e ends just behind it with the value of e in eax and the upper half of rax filled as FillOf says (sign-extended where Extended does), the locals as the source leaves them, and rsp, rbp and the stack above unchanged; or it faults, or is still running, exactly as the source |
| Simulation.SimLogic | app/compiler/cgen_expr.c:887-951 | The logical and and or give 0 or 1, and the code of the right operand does not run when the left one decides |
| Simulation.SimCond | app/compiler/cgen_expr.c:2623-2674 | Only the chosen arm of a conditional runs, and its value comes through the push and the pop that join the arms |
| Simulation.SimAssign | app/compiler/cgen_expr.c:2052-2130 | An assignment stores into its slot and keeps the value in eax |
| Simulation.SimCall | app/compiler/cgen_expr.c:2419-2570 | Caller and callee agree: a call with up to 14 arguments, however nested they are, gives parameter i the value of argument i, and leaves rsp where it was before the call |
| Simulation.SimCallBody | app/compiler/cgen_expr.c:2474-2570 | From the pushed arguments through the pops, the call, the whole callee and the clean-up of the stack |
| Simulation.SimFunction | app/compiler/cgen.c:928-1130 | A function entered with its arguments in place returns what its body returns, for the value, the fault and the endless run, also if it has no return at its end as long as it does not run off |
| Simulation.RunNeverNormal | app/compiler/cgen.c:1123-1130 | A body that ends in a return or a goto on every path never runs off its end, so a missing return does no harm |
| Simulation.SimRun | app/compiler/cgen.c:726-804 | A body runs through any number of gotos, each entering the body at its label, as the source does |
| CSource.LabelReached | app/compiler/cgen.c:726-804 | A goto finds every label of the function, however deep in it the label stands |
| Simulation.SimStmt | app/compiler/cgen.c:726-804 | Statement code is correct, entered at its top or at any label inside: it ends behind itself, at the break, continue or goto target or behind the epilogue, as the source does, with the same locals and with rsp at the frame base |
| Simulation.SimIfElse | app/compiler/cgen.c:459-488 | The chosen arm of an if runs and the other one does not, also when a goto enters one of the arms |
| Simulation.SimLoop | app/compiler/cgen.c:490-628 | Any loop of the shape test, body, step, jump back does what the loop does in the source, for every number of rounds |
| Simulation.SimWhile | app/compiler/cgen.c:490-516 | while, with continue leading to the test |
| Simulation.SimFor | app/compiler/cgen.c:518-628 | for, with each part optional and continue leading to the step |
| Simulation.SimDoWhile | app/compiler/cgen.c:740-765 | do-while whose body does not end in a continue |
| Simulation.SimSwitch | app/compiler/cgen.c:647-722 | switch: execution enters at the first matching case in source order, else at the default, else behind the switch, and falls through from case to case |
| Simulation.SelectTarget | app/compiler/cgen.c:647-722 | The value of a switch is pushed, popped exactly once in the dispatch code and selects the target, and rsp is back before the body runs |
| Simulation.SimReturn | app/compiler/cgen.c:407-455 | return computes its value and leaves through the epilogue |
| Statements.DispatchSteps | app/compiler/cgen.c:692-715 | The chain of comparisons, for single and for range cases, ends at the label of the first case that matches, or behind the chain |
| Statements.SelectSteps | app/compiler/cgen.c:692-722 | The chain together with the jump to the last default |
| Arguments.CallEnter | app/compiler/cgen_expr.c:2474-2565 | Popping the first six arguments into rdi to r9 and calling brings control to the function with the return address on the stack and all arguments where section 3.2.3 of the AMD64 psABI puts them |
| Arguments.DropSteps | app/compiler/cgen_expr.c:2566-2570 | After the return the stack arguments are gone and eax is sign-extended |
| Activation.PrologueSteps | app/compiler/cgen.c:1011-1098 | The prologue makes the frame and puts parameter i into its slot, from a register or from [rbp + 0x10 + 8k]; it moves the stack by 8 more than a multiple of 16, so that it is aligned to 16 as the ABI asks |
| Activation.EpilogueSteps | app/compiler/cgen.c:238-249 | The epilogue restores the frame of the caller whatever is still on the stack |
| Frames.StoreStep | app/compiler/toyc.h:572-577 | A store to a slot changes that variable and no other one |
| Frames.PushStep | app/compiler/toyc.h:542-549 | A push keeps every local and everything above it on the stack |
| Blocks.OpSteps | app/compiler/cgen_expr.c:1300-1354 | Every binary operator leaves what C says in eax, or faults where C divides by zero |
| Blocks.OpSub | app/compiler/cgen_expr.c:116-123 | Subtraction with operands exchanged wraps around as the machine does |
| Blocks.OpDiv | app/compiler/cgen_expr.c:1333-1334 | Division truncates toward zero and faults for a zero divisor, in 32 and in 64 bits |
| Blocks.OpMod | app/compiler/cgen_expr.c:1335-1336 | The remainder has the sign of the dividend |
| Blocks.OpShift | app/compiler/cgen_expr.c:1347-1349 | Shifts by 0 to 31, left with wrap-around and right with sign fill |
| Blocks.OpBits | app/compiler/cgen_expr.c:1350-1352 | The bit operators on two's complement values, also with 64-bit operands |
| Blocks.OpCmp | app/compiler/cgen_expr.c:135-141 | A comparison gives 0 or 1 by the signed order, from the flags of the subtraction |
| Snippets.SimConst | app/compiler/cgen_expr.c:395-420 | A constant is loaded with its sign |
| Snippets.SimIncDec | app/compiler/cgen_expr.c:1589-1678 | ++ and --, before and after, on a local: the right value and the stepped variable |
| Snippets.LogicTest | app/compiler/cgen_expr.c:887-915 | The test of the left operand either goes on or jumps over the whole right operand |
| Emission.Backpatch | app/compiler/cgen.c:196-219 | Backpatching is exact: the fixups of a piece of code turn its bytes into those in which every jump reaches its label, forward or backward, and touch no byte before or behind it |
| Emission.Relocate | app/compiler/cgen_expr.c:182-222 | Relocating the calls of a piece of code changes only their fields |
| Emission.Placed | app/compiler/cgen.c:131-219 | Bytes that were emitted and patched, loaded anywhere, decode at every position to the instruction meant there, and every jump and call goes where it should |
| Labels.FoundAll | app/compiler/cgen.c:141-149 | The search for a label finds the offset at which it was defined, if labels are defined once |
| Uniqueness.StmtFacts | app/compiler/cgen.c:726-804 | Generating a statement defines each new label once, defines a goto label once for each place the source names it, and uses only labels that are defined or belong to an enclosing loop or switch |
| Uniqueness.SwitchFacts | app/compiler/cgen.c:647-722 | The same for a switch, whose cases are numbered before its body |
| Uniqueness.SCodeSound | app/compiler/cgen.c:105-118 | Different goto labels keep different numbers |
| X86.DecodeEncode | app/compiler/toyc.h:542-549 | Decoding undoes encoding for every instruction the generator emits, wherever its bytes are |
| WordFacts.AndBits | app/compiler/cgen_expr.c:129-129 | Bit i of a bitwise and of two words, read by division and remainder, is 1 if and only if both operands have it, for all 32 bits and any two numbers; what the operator of C and the instruction of the processor both compute |
| WordFacts.OrBits | app/compiler/cgen_expr.c:130-130 | The same for or: either operand has the bit |
| WordFacts.XorBits | app/compiler/cgen_expr.c:131-131 | The same for exclusive or: exactly one operand has the bit |
| WordFacts.TruncDivExactly | app/compiler/cgen_expr.c:116-122 | Quotient and remainder of C are the one pair with a = b q + r in which r is smaller than b in size and has the sign of a |
| Words.LE4RoundTrip | app/compiler/toyc.h:546-549 | The four bytes of e4 read back as the value |
| Generator.CodeGenerator.Compile | app/compiler/cgen.c:1369-1481 | The program generates exactly the bytes and call relocations of the specification, function after function |
| Generator.CodeGenerator.Function | app/compiler/cgen.c:928-1130 | One function: prologue, body, implicit return, and all its jumps resolved in the buffer |
| Generator.CodeGenerator.Expr | app/compiler/cgen_expr.c:390-2835 | The recursive generator appends the bytes of the expression's code and reports the operand width |
| Generator.CodeGenerator.Statement | app/compiler/cgen.c:726-804 | The same for statements, with labels, fixups and goto labels as state |
| Generator.CodeGenerator.LogicRest | app/compiler/cgen_expr.c:887-951 | The three jumps of the logical and and or are emitted with placeholders and patched in place; the bytes are those with the final distances |
| Generator.CodeGenerator.Conditional | app/compiler/cgen_expr.c:2623-2674 | The same for the two jumps of a conditional expression |
| Generator.CodeGenerator.EmitJmp | app/compiler/cgen.c:157-175 | A jump is emitted with its distance if the label is known and recorded as a fixup otherwise |
| Generator.CodeGenerator.EmitJcc | app/compiler/cgen.c:177-194 | The same for a conditional jump |
| Generator.CodeGenerator.FindLabelOffset | app/compiler/cgen.c:141-149 | The offset of the first definition of the label, or -1 |
| Generator.CodeGenerator.ResolveFixups | app/compiler/cgen.c:196-219 | The buffer afterwards is the old one with every recorded field rewritten |
| Generator.CodeGenerator.GotoLabel | app/compiler/cgen.c:105-118 | A goto name gets its number at its first use and keeps it |
| Generator.CodeGenerator.CollectCases | app/compiler/cgen.c:652-669 | One label for each case in order; the last default counts |
| Generator.CodeGenerator.SwitchStatement | app/compiler/cgen.c:647-722 | The code of a switch and the break target restored |
| Generator.CodeGenerator.DispatchCases | app/compiler/cgen.c:692-715 | The comparisons of all cases in order |
| Generator.CodeGenerator.ForStatement | app/compiler/cgen.c:518-628 | The code of a for loop and both targets restored |
| Generator.CodeGenerator.CallFunction | app/compiler/cgen_expr.c:2419-2570 | The code of a call: arguments 7 and up from the last one back, then the first six in order, the pops, the call and the clean-up |
| Generator.CodeGenerator.SpillParameters | app/compiler/cgen.c:1011-1098 | The stores of all parameters |
| Generator.CodeGenerator.ImplicitReturn | app/compiler/cgen.c:1123-1130 | The epilogue is added exactly if the last byte emitted is not 0xC3 |
| Departures.DoContinueSpins | app/compiler/cgen.c:740-765 | do { continue; } while (0), which C leaves after one round, is compiled to a jump to itself |
| Departures.DoContinueExactly | app/compiler/cgen.c:740-765 | After a continue the code of do-while is at its top with the store of the body; this is the point and these are the values that C asks for if and only if the condition is true and leaves every variable with the value it had, or, for a variable without one, with what its slot happens to hold |
| Departures.SwitchPopsTwice | app/compiler/cgen.c:682-722 | For every switch and every run: the selector is popped a second time, leaving rsp 8 too high, if and only if the body runs off its end; in every other run the code does what C says, and rsp is back wherever the function goes on |
| Departures.OneCaseRunsOff | app/compiler/cgen.c:682-722 | switch (0) with the single case 0 and an empty statement is such a run |
| Departures.EarlyReturnHasNoEnd | app/compiler/cgen.c:1123-1130 | if (x) return; as the last statement: the function ends in 0xC3 and gets no return of its own |
| Departures.ImplicitReturnExactly | app/compiler/cgen.c:1123-1130 | For every function whose body runs off its end, through any gotos and calls: control returns to the caller if and only if the last byte of the body is not 0xC3, and otherwise goes on behind the function with its frame still open |
| Departures.EarlyReturnFallsThrough | app/compiler/cgen.c:1123-1130 | Called with 0, that function goes on behind its last byte with its frame open |
| Widths.MixedOperands | app/compiler/cgen_expr.c:1274-1324 | For every program and any two operands of which one is wide, compared, divided or shifted anywhere: the operation is done in 64 bits, with the upper half of each operand filled as its code leaves it, and the value in eax is that of C if and only if Agrees, the condition of AgreesExactly on the two values and fills |
| Widths.AgreesExactly | app/compiler/cgen_expr.c:141-166 | The 64-bit operators against the C operators when one operand is sign-extended and the other one, a or b, has its upper half filled in any known way: both directions. They agree exactly if the filled operand is carried as it is, or else, with it on the right, if a comparison comes out alike, if a division or remainder has a dividend smaller than it in absolute value (or both are INT_MIN, for the remainder), and always for a right shift; with it on the left, if a comparison comes out alike, if a divisor is 1 or -1, if the divisor of a remainder divides both it and 2^32, or if a shift count is 0 |
| Widths.WideOp | app/compiler/cgen_expr.c:141-166 | What the 64-bit code of comparison, division, remainder and right shift makes of any two signed operands |
| Widths.EqualNotFound | app/compiler/cgen_expr.c:1274-1300 | f() == x with int f(void) return -1 and x == -1 runs through the call and leaves a value other than 1 where C says 1; Faithful excludes it |
| Widths.SumTested | app/compiler/cgen.c:459-488 | if (l + r) for any two operands of which one is wide: the 64-bit sum is tested, which decides as C does if and only if both operands are carried as they are and not both are INT_MIN, or one of them is carried 2^32 off and they are not opposite |
| Toolchain.LinkedProgramReturns | app/compiler/toyld.c:893-1044 | From source to process: if p was compiled into an object, that object linked with others and the file loaded at 0x400000, then calling a function of p runs the loaded bytes to the return the source asks for |
| Toolchain.LinkedProgramTraps | app/compiler/toyld.c:893-1044 | The same for a division by zero |
| Toolchain.LinkedProgramDiverges | app/compiler/toyld.c:893-1044 | The same for a program that never stops |
| Toolchain.ProgramInText | app/compiler/toyld.c:836-887 | In the relocated text of the executable the object's part is the program with all its calls resolved |
| CompiledObject.IsProgramObject | app/compiler/elf_write.c:40-343 | The object that is read back is an object of the compiled program, if no other input defines its function names first |
| CompiledObject.FunctionResolves | app/compiler/toyld.c:817-834 | The symbol of a function, wherever the order of first mentions has put it, resolves to its address in the merged text |
| CompiledObject.OrderHas | app/compiler/cgen_expr.c:182-222 | Each compiled or called function has exactly one symbol, created by its first call or by its own definition, whichever comes first |
| CompiledObject.IndexStays | app/compiler/cgen_expr.c:182-222 | A symbol keeps its number while the table grows, so relocations recorded earlier stay right |
| CompiledObject.SymbolTable.Reference | app/compiler/cgen_expr.c:182-205 | A call finds the symbol of that name or adds an undefined global one |
| CompiledObject.SymbolTable.Define | app/compiler/cgen.c:255-288 | The end of a function defines its undefined symbol in place, or adds a symbol |
| CompiledObject.BuildTables | app/compiler/cgen_expr.c:182-222 | Compiling the functions one after the other fills the symbol table and the relocations of the object, with each symbol number fixed at its first mention |
| CompiledObject.WrittenReadLinkedRun | app/compiler/toyld.c:1046-1114 | The whole tool chain: source, object file bytes, the linker's reader, linking, loading and running bring a run that returns or runs off its end to what the source means |
| CompiledObject.WrittenReadLinkedTraps | app/compiler/toyld.c:1046-1114 | The same chain for a division by zero: the loaded executable stops with a divide fault |
| CompiledObject.WrittenReadLinkedDiverges | app/compiler/toyld.c:1046-1114 | The same chain for a program that never stops: the loaded executable runs for any number of steps |
| LinkProofs.TextByteLoaded | app/compiler/toyld.c:1087-1100 | Every text byte outside relocated fields is loaded at its section's base plus its offset |
| LinkProofs.DataByteLoaded | app/compiler/toyld.c:1087-1100 | The same for data |
| LinkProofs.BssByteLoaded | app/compiler/toyld.c:952-961 | Uninitialised data is loaded as zero |
| LinkProofs.TextFieldLoaded | app/compiler/toyld.c:836-877 | Every relocated text field holds S + A (64 and 32) or sign-extends so that field + P = S + A (PC32 and PLT32), with S the loaded address of the resolved symbol; section 4.4.1 of the AMD64 psABI |
| LinkProofs.DataFieldLoaded | app/compiler/toyld.c:836-887 | The same for data |
| LinkProofs.EntryLoaded | app/compiler/toyld.c:930-950 | Control starts at the address of the entry symbol |
| LinkProofs.LoadedImage | app/compiler/toyld.c:893-1044 | What a loader makes of the written file: text and data at 0x400000, zeros for bss, nothing behind it |
| ElfHeaders.HeaderSays | app/compiler/toyld.c:931-950 | Read at the places of the gABI, the header of the executable says: 64-bit, little-endian, executable file for the x86-64, one program header behind it, five section headers |
| ElfHeaders.SegmentSays | app/compiler/toyld.c:952-961 | The program header asks for one loaded segment, readable, writable and executable, with the sizes in the file and in memory, and with offset and address equal modulo its alignment |
| ElfHeaders.SectionsSay | app/compiler/toyld.c:974-1023 | The section headers stand where the header says and give name, type, flags, address and size of text, data and bss, and for the two that are in the file the place of their bytes |
| LinkProofs.ResolveIsFirst | app/compiler/toyld.c:750-815 | A name resolves to the address of the first definition, in input order and then symbol order |
| SymbolAddresses.DefinitionLoaded | app/compiler/toyld.c:735-748 | Counted from the address of a definition, the whole section that it stands in is in memory: every byte of the text or data of its input, outside relocated fields, and a zero for every byte of its uninitialised data, for any distinct section numbers |
| SymbolAddresses.SymbolLoaded | app/compiler/toyld.c:817-834 | The same through the symbol that a relocation names, local or resolved by name over all inputs |
| SymbolAddresses.AbsoluteIs | app/compiler/toyld.c:736-741 | A reference to an absolute symbol is relocated to its plain value |
| SymbolAddresses.SymbolsApart | app/compiler/toyld.c:680-713 | Definitions that do not overlap in their objects, or stand in different sections or inputs, do not overlap in memory |
| SymbolAddresses.AlignUpIs | app/compiler/toyld.c:672-675 | Rounding up gives the smallest multiple that is not below |
| SymbolAddresses.OffsetAligned | app/compiler/toyld.c:680-713 | Each input's part of a merged section begins at a multiple of the alignment |
| SymbolAddresses.ThirtyTwoExactly | app/compiler/toyld.c:703-711 | .data and .bss are announced with alignment 32; every part of them has such an address if and only if the merged text is a multiple of 32 bytes |
| SymbolAddresses.SixteenOnly | app/compiler/toyld.c:703-711 | An input with 16 bytes of text whose data begins at an address that is no multiple of 32 |
| LinkProofs.StoredField | app/compiler/toyld.c:836-877 | After any number of disjoint stores each field holds what was stored in it |
| LinkProofs.StoredOutside | app/compiler/toyld.c:836-877 | Stores leave every byte outside their fields alone |
| Linker.LeastClosedUnique | app/compiler/toyld.c:639-666 | There is at most one least closed set of members, so the loaded set does not depend on the order of the scan |
| Linker.StaticLinker.LazyLoadArchives | app/compiler/toyld.c:639-666 | Loading ends, and what is loaded is the least set of members closed under "offers a name that an input or loaded member needs" |
| Linker.StaticLinker.FindNeeded | app/compiler/toyld.c:639-666 | A member that is not loaded and offers a missing name; if none is found there is none |
| Linker.StaticLinker.IsNeeded | app/compiler/toyld.c:647-656 | A member is needed exactly if one of its indexed names is an undefined entry of the table |
| Linker.StaticLinker.SymIsUndef | app/compiler/toyld.c:468-478 | The name has an entry and the entry is undefined |
| Linker.StaticLinker.FindOrAddSym | app/compiler/toyld.c:723-734 | The entry of that name, added if it was missing; names stay unique |
| Linker.StaticLinker.RegisterInputUndefs | app/compiler/toyld.c:452-466 | Every name an input refers to has an entry afterwards, and no entry changes otherwise |
| Linker.StaticLinker.MergeSections | app/compiler/toyld.c:678-713 | Each section gets the aligned sum of those before it |
| Linker.StaticLinker.CopySections | app/compiler/toyld.c:1087-1100 | The merged sections are the inputs' sections with zeros between them |
| Linker.StaticLinker.CollectDefinitions | app/compiler/toyld.c:754-779 | The first definition of each name is the one that counts |
| Linker.StaticLinker.ResolveSymbols | app/compiler/toyld.c:750-815 | Succeeds exactly if every referenced name but the GOT symbol has a definition and the entry symbol exists; otherwise it names a name that is missing |
| Linker.ResolvableExactly | app/compiler/toyld.c:750-815 | All references can be resolved if and only if every global name that an input leaves undefined, but for those that start with _G, is defined by some input, and so is the entry symbol, at an address other than 0 |
| Linker.StaticLinker.FindSymValue | app/compiler/toyld.c:817-834 | The address of a symbol as the input sees it; fails exactly if its name is in no table |
| Linker.StaticLinker.ApplyOneRela | app/compiler/toyld.c:836-877 | One section's relocations, patched in place |
| Linker.StaticLinker.ApplyRelocations | app/compiler/toyld.c:879-887 | All fields of all inputs; fails exactly for a name without entry |
| Linker.AllKnownExactly | app/compiler/toyld.c:836-887 | Where linking has come so far, it fails exactly if some relocation has none of the five types or refers to a global symbol without a name |
| Linker.StaticLinker.WriteOutput | app/compiler/toyld.c:893-1044 | The bytes of the executable: ELF header, one program header, text and data from offset 0x1000, section headers |
| Linker.StaticLinker.Load | app/compiler/toyld.c:1046-1103 | Everything up to symbol resolution, ending in the specified tables and buffers |
| Linker.StaticLinker.Link | app/compiler/toyld.c:1102-1114 | Linking succeeds exactly if every reference can be resolved and every relocation has a supported type and a known symbol, and then gives the specified file |
| ObjectFile.Renumbering | app/compiler/elf_write.c:144-150 | The renumbering is a bijection from the symbols onto 1..n, and Order is its inverse |
| ObjectFile.RenumberingIsStable | app/compiler/elf_write.c:144-150 | Locals keep their order, globals keep theirs, and sh_info separates them (System V gABI chapter 4, Symbol Table) |
| ObjectFile.SameSymbol | app/compiler/elf_write.c:151-162 | After the renumbering a text relocation names the symbol it named before |
| ObjectFile.SameDataSymbol | app/compiler/elf_write.c:182-193 | The same for data relocations |
| ObjectFile.RoundTrip | app/compiler/toyld.c:273-354 | Reading what was written gives text, data, bss size, symbols and relocations back, up to the renumbering, for every object within the size limits of the format |
| ObjectFile.HeadersAgree | app/compiler/elf_write.c:271-333 | Read from the bytes of the file: sh_info of .symtab is one past the last local, so that exactly the entries from there on are global, sh_info of each relocation section is the section it relocates, and sh_link leads to the symbol table and its names (System V gABI chapter 4) |
| ObjectHeaders.SectionsSay | app/compiler/elf_write.c:277-335 | Each section of an object file has the type and the flags that the gABI gives to its name, no address, whole entries, and tables at multiples of eight |
| ObjectHeaders.SymbolSays | app/compiler/elf_write.c:225-263 | A written symbol says binding, type, section, offset and size at their places |
| ObjectFile.SectionFound | app/compiler/toyld.c:251-271 | The search for a section name ends at that section |
| ObjectFile.FindIs | app/compiler/toyld.c:251-271 | In any file the search ends at the first section of that name, or with -1 if and only if there is none |
| ObjectFile.SymbolsRead | app/compiler/elf_write.c:217-264 | The symbol table, read back with its string table, is the renumbered list |
| ObjectFile.RelocsRead | app/compiler/elf_write.c:163-216 | A relocation table reads back as the list |
| ObjectWriter.ObjectWriter.Renumber | app/compiler/elf_write.c:144-150 | Both passes together give every symbol its new number |
| ObjectWriter.ObjectWriter.RemapRelocs | app/compiler/elf_write.c:151-193 | Relocations are rewritten in place to the new numbers |
| ObjectWriter.ObjectWriter.WriteSymbols | app/compiler/elf_write.c:241-264 | One pass writes the local symbols, one the global ones |
| ObjectWriter.ObjectWriter.WriteSymbolTable | app/compiler/elf_write.c:217-264 | Null entry, locals, globals; sh_info is one past the last local |
| ObjectWriter.ObjectWriter.WriteSections | app/compiler/elf_write.c:140-216 | Everything from the text to the data relocations stands at the offsets computed before |
| ObjectWriter.ObjectWriter.PatchRows | app/compiler/elf_write.c:271-333 | The section headers are filled in last, in front of what is already there |
| ObjectWriter.ObjectWriter.WriteObject | app/compiler/elf_write.c:40-343 | The buffer holds exactly the bytes of the object file, and the relocation arrays were remapped on the way |
| ObjectWriter.BuildStrings | app/compiler/elf_write.c:48-73 | The string table and the place of every name in it |
| ObjectWriter.FindShByName | app/compiler/toyld.c:251-271 | The first section with that name, or -1 |
| ObjectWriter.ReadInput | app/compiler/toyld.c:273-354 | The reader: bad magic and missing sections are reported, everything else is taken apart |
| ObjectWriter.WriteThenRead | app/compiler/toyld.c:273-354 | Both programs one after the other: nothing is lost |
| Decimal.Mul10 | app/compiler/lex.c:173-181 | Times ten modulo 2^64 on two 32-bit words |
| Decimal.Div10 | app/compiler/lex.c:183-195 | Quotient and remainder by ten on two 32-bit words |
| Decimal.AddDigit | app/compiler/lex.c:197-201 | Addition with carry |
| Decimal.DivideDown | app/compiler/lex.c:260-279 | k divisions by ten split M into Q * 10^k + R with R below 10^k |
| Decimal.LeadingBit | app/compiler/lex.c:288-311 | Doubling R until it reaches D finds the leading bit of the fraction and what is left |
| Decimal.TopBit | app/compiler/lex.c:280-287 | The highest bit of the integer part |
| Decimal.ShiftQuotient | app/compiler/lex.c:321-339 | The integer part, without its leading bit, aligned under bit 52 |
| Decimal.Expand | app/compiler/lex.c:340-374 | The next bits are those of the quotient of R and D, and the last step rounds up unless R/D is exactly one half |
| Decimal.ScaleUp | app/compiler/lex.c:251-259 | Multiplication by the positive power of ten |
| Decimal.RoundUp | app/compiler/lex.c:375-391 | Adding one to the mantissa, with the carry into the exponent |
| Decimal.Convert | app/compiler/lex.c:251-397 | From digits and exponent to a bit pattern that is Converted: at the exponent of the value itself the significand is the value rounded up to 53 bits or one more, exact by a stated rule, also when the mantissa overflows |
| Rounding.NearestOrNeighbour | app/compiler/lex.c:205-397 | What is produced is a nearest binary64 value, or no binary64 value lies between it and a nearest one, as section 6.4.4.2 of ISO C11 allows; the comparison is with all finite binary64 values, subnormal ones and zero included |
| Rounding.NearestExactly | app/compiler/lex.c:340-391 | What is produced is a nearest binary64 value if and only if what the leading bit leaves is 0 or one half, or the part cut off is at least half a unit; the condition mentions only the value and the position of its leading bit |
| Rounding.Grid | app/compiler/lex.c:314-320 | In units of the last place of the value every binary64 value is whole or below 2^52 |
| Rounding.PatternMeans | app/compiler/lex.c:393-397 | The two words are the 64 bits of a binary64 number as section 3.4 of IEEE 754 lays them out: sign, biased exponent and fraction bits, and their value is the one all theorems on nearness are about |
| Rounding.OneAndAQuarter | app/compiler/lex.c:340-391 | 1.25 is a binary64 value, and its conversion is one unit too high |
| Rounding.NearlyTwo | app/compiler/lex.c:375-391 | 1.99999999999999978 overflows to 2, although the number below 2 is nearer |
| FloatLiteral.SignificandIs | app/compiler/lex.c:205-250 | Up to 18 digits nothing is lost; further digits are cut off and change the scale |
| FloatLiteral.ReadDigits | app/compiler/lex.c:212-233 | The scan of a printed number, with or without a point, reads its digits |
| FloatLiteral.ReadLiteral | app/compiler/lex.c:205-250 | Sign, significand and scale of any printed literal |
| FloatLiteral.ParseFloatLiteral | app/compiler/lex.c:205-397 | Every printed literal in range is scanned to its sign, its first eighteen counted digits and its scale, and these are converted accurately, a zero significand to a signed zero; what that means for the literal itself is in Literals |
| Literals.ParseExactly | app/compiler/lex.c:205-397 | For every printed literal in range, against its own value: the result is a nearest binary64 value or next to one if and only if the literal is Close, which compares its value with the rounded significand; and this always holds if no digit other than zero is cut off or the first counted digit is not zero |
| Literals.LiteralExactly | app/compiler/lex.c:205-397 | The same for a conversion that does not end at a zero significand, at the position of its leading bit |
| Literals.ShortLiteral | app/compiler/lex.c:205-250 | Up to eighteen counted digits, or zeros behind them, the result is always a nearest value or next to one |
| Literals.LongLiteral | app/compiler/lex.c:205-250 | So it is for any number of digits when the first counted one is not zero: the cut costs less than half a unit in the last place |
| Literals.ZeroExactly | app/compiler/lex.c:240-250 | Zero is a nearest value, or next to one, exactly for values up to one and a half of the smallest positive one |
| Literals.ZerosCount | app/compiler/lex.c:205-250 | 0.0000000000000000001e5, which is 1e-14, is read as 0: zeros behind the point use up the eighteen digits |
| Literals.SpelledOut | app/compiler/lex.c:205-330 | The literal -12.5e+3, character by character, and its value |
| Literals.SixDigitsLost | app/compiler/lex.c:205-250 | 0.000000000000000001234567e6 is read as 1e-12, and neither that nor a neighbour is nearest |
| IfPrinting.EvaluatesPrinted | app/compiler/preproc.c:1166-1209 | The evaluator inverts printing: the text of any expression tree, with only the parentheses precedence needs and any blanks, is consumed exactly and gives the tree's value; left association and unary operators binding tightest as in section 6.10.1 of ISO C11 |
| IfPrinting.Climb | app/compiler/preproc.c:1189-1201 | Precedence climbing reads one tree and goes on behind it, whatever the minimum precedence |
| IfPrinting.PrimaryIs | app/compiler/preproc.c:1166-1186 | A leaf, a unary operator or a parenthesised expression is one primary |
| IfPrinting.TextReads | app/compiler/preproc.c:1022-1163 | The lexer finds the tokens that were printed |
| IfPrinting.NeighboursApart | app/compiler/preproc.c:1022-1163 | Printed tokens do not run into each other without a blank |
| IfPrinting.MacroMeans | app/compiler/preproc.c:1108-1127 | A name whose macro is the text of a tree has the tree's value |
| IfMeaning.NumberDenotes | app/compiler/preproc.c:1027-1055 | Digits given as numbers and written with the glyphs 0-9, a-f or A-F read, in every base up to 16, as the number with these digits, reduced to a long; below 2^63 that number itself |
| IfMeaning.SumsMean | app/compiler/preproc.c:994-1019 | +, - and * give the long that differs from the exact result by a multiple of 2^64 |
| IfMeaning.QuotientsMean | app/compiler/preproc.c:994-1019 | / and % give the quotient and the remainder of section 6.5.5 of ISO C11 |
| IfMeaning.BitsMean | app/compiler/preproc.c:994-1019 | Every one of the 64 bits of the bitwise operators |
| IfMeaning.ShiftsMean | app/compiler/preproc.c:994-1019 | Shifts are multiplication with wrap-around, and division rounded down |
| IfMeaning.Binding | app/compiler/preproc.c:978-992 | The precedences are those of the grammar of ISO C11, line by line |
| IfMeaning.LookupIs | app/compiler/preproc.c:1108-1123 | The macro that is found is the first one of that name, and none is found if and only if there is none |
| IfMeaning.DefinedMeans | app/compiler/preproc.c:1081-1105 | defined n and defined(n) are 1 if and only if some macro is named n |
| IfMeaning.EscapesExactly | app/compiler/preproc.c:1056-1077 | A character constant with an escape has its value in C if and only if the escape is none of \a, \b, \v, \f and the octal digits 1 to 7 |
| IfEvaluator.NextToken | app/compiler/preproc.c:1022-1163 | The lexer, recursive through macro values, refines its specification and ends |
| IfEvaluator.ParsePrimary | app/compiler/preproc.c:1166-1186 | The same for primaries |
| IfEvaluator.ParseExpr | app/compiler/preproc.c:1189-1201 | The same for the climbing loop |
| IfEvaluator.IfEval | app/compiler/preproc.c:1204-1209 | 1 exactly if the expression is not zero |
| IfEvaluator.FindMacro | app/compiler/preproc.c:1108-1123 | The first macro of that name |
| Conditionals.StepsCounted | app/compiler/preproc.c:374-455 | Every conditional directive keeps the skip counter equal to the number of zero entries on the stack |
| Conditionals.RunCounted | app/compiler/preproc.c:350-463 | So does every run over any lines |
| Conditionals.SkipMeans | app/compiler/preproc.c:353-358 | The counter is zero exactly if every enclosing branch is the chosen one |
| Conditionals.FollowsBlocks | app/compiler/preproc.c:350-463 | Lines of nested blocks do what the nesting says: the chosen branches are emitted and their #defines obeyed, nothing in skipped text is, and a balanced input leaves stack and counter as they were |
| HeaderFiles.IfDefMeans | app/compiler/preproc.c:386-418 | The text behind #ifdef n comes out if and only if some macro is named n, behind #ifndef n if and only if none is, and the text behind #else otherwise; stated over the list of macros |
| HeaderFiles.IfMeans | app/compiler/preproc.c:428-444 | The text behind #if, for any printed expression, comes out if and only if its value is not 0 |
| HeaderFiles.GuardMeans | app/compiler/preproc.c:386-418 | A text between #ifndef G, #define G and #endif means its body if no macro is named G, and nothing otherwise |
| HeaderFiles.GuardHolds | app/compiler/preproc.c:386-418 | If the body does not remove G, the guarded text has no effect any more when it comes again |
| HeaderFiles.HeaderIncluded | app/compiler/preproc.c:150-195 | Including a file that is a guarded text without its comments puts the body out if the guard is not defined, and nothing otherwise |
| HeaderFiles.IncludedTwice | app/compiler/preproc.c:150-195 | A header that is included twice comes out once |
| HeaderFiles.IncludeReads | app/compiler/preproc.c:150-168 | A name in quotes is the file to include; one in angle brackets is refused |
| HeaderFiles.IncludeLine | app/compiler/preproc.c:150-195 | An inclusion puts out what the scan of the file puts out one level deeper, and the scan goes on behind the line with the macros the file has left |
| HeaderFiles.UndefExactly | app/compiler/preproc.c:77-82 | Behind #undef n no macro is named n if and only if it was defined at most once and not with parameters; other names are defined exactly if they were |
| HeaderFiles.TwiceDefined | app/compiler/preproc.c:77-82 | A name that was defined twice alike, as C allows, has its value still when it has been removed |
| HeaderFiles.OthersKept | app/compiler/preproc.c:77-82 | Another name whose definitions agree keeps its value |
| SourceLines.EndifExactly | app/compiler/preproc.c:350-358 | An #endif behind blanks closes the conditional if and only if no text is being skipped; one at the start of its line always does |
| SourceLines.LinesExactly | app/compiler/preproc.c:345-463 | The line number is right behind a pass of the scanner if and only if the text of the pass has no newline except as its last character, outside a literal |
| SourceLines.ContinuedCounts | app/compiler/preproc.c:357-463 | A directive continued on a second line counts as one line |
| SourceLines.LineIs | app/compiler/preproc.c:480-503 | __LINE__ comes out as the number of the line |
| SourceLines.DecimalReads | app/compiler/preproc.c:480-503 | The number is written with the decimal digits that denote it, the first one not 0 |
| SourceLines.MacroLineExactly | app/compiler/preproc.c:505-522 | __LINE__ in the value of an object macro comes out as 1, the number of the line if and only if the macro is used on line 1 |
| Conditionals.ClosesWell | app/compiler/preproc.c:374-455 | Opening, turning and closing a conditional restores stack and counter |
| Conditionals.ExpandsAll | app/compiler/preproc.c:505-522 | Where object macros nest within the limit of 64 levels, expanding a text replaces every macro name in it, and in the values, to the end |
| Directives.ScanPrinted | app/compiler/preproc.c:350-463 | Scanning the printed lines of a text, character by character and with the program's own reading of definitions, has the effect of its lines: the same macros, the same conditional stack, the same emitted text with its object macros expanded |
| Directives.BlocksScan | app/compiler/preproc.c:350-463 | A printed text of nested conditionals scans to its chosen branches with their object macros expanded, with the conditional stack as it was |
| Directives.IfDefReads | app/compiler/preproc.c:386-412 | A printed ifdef or ifndef line reads as its test, whatever the spaces and whatever follows the name |
| Directives.DirectiveIs | app/compiler/preproc.c:359-463 | Every printed directive does one step of its line, definitions and removals as the directive reader reads them |
| Directives.CleanScan | app/compiler/preproc.c:467-524 | Text without strings, directives and function macros is emitted with its object macros expanded, recursively and up to the nesting limit, and the scan goes on behind it |
| DirectiveReader.ParseDirective | app/compiler/preproc.c:227-329 | The reader of directive lines refines its specification: definitions with and without parameters, removals, inclusions and errors, told by the letters that the code looks at |
| DirectiveReader.ScanParams | app/compiler/preproc.c:254-271 | The parameter list of a macro: names, variadic mark, at most 128, and the case in which the loop does not advance |
| DirectiveReader.DefineReads | app/compiler/preproc.c:284-300 | A printed definition of one line is read as it was printed if and only if its value has no blanks at its ends and no comment mark |
| DirectiveReader.ValueExactly | app/compiler/preproc.c:284-300 | What is read of a value is the value if and only if it has no blanks at its ends and no comment mark |
| DirectiveReader.QuotedComment | app/compiler/preproc.c:284-300 | A definition whose value holds a string literal with a comment mark in it, which C keeps, is not read as it was printed |
| SourceLines.JoinedExactly | app/compiler/preproc.c:204-225 | Continued lines are joined as section 5.1.1.2 of ISO C11 joins them if and only if no continuation begins with a blank; otherwise the words on both sides run together |
| SourceLines.ContinuedReads | app/compiler/preproc.c:204-225 | One continued line, with and without a blank at its start |
| DirectiveReader.UndefReads | app/compiler/preproc.c:318-323 | A printed removal is read as it was printed if and only if its name has at most 255 characters |
| DirectiveReader.ParamsRead | app/compiler/preproc.c:254-271 | A printed parameter list is read as it was printed, with up to 128 parameters and with an ellipsis if there is one; at any other character behind the names the loop never ends |
| DirectiveReader.PlusEndless | app/compiler/preproc.c:254-271 | #define F(+) never ends, for any name F |
| Preprocessor.Preprocessor.PpBufImpl | app/compiler/preproc.c:345-894 | Expansion always ends: (levels left, length) decreases lexicographically over object macros, argument pre-expansion, rescans, paste follow-ons and includes; the expand stack is back at its height, the counter is right, output only grows, skipped text emits nothing; for every text, included files and line numbers among it, the macros of both kinds, the conditionals and the text that comes out are those of the scan, and the program stops with an error exactly where the scan says so |
| Preprocessor.PreprocessBlocks | app/compiler/preproc.c:345-894 | Running the scanner on a printed text of nested conditionals emits exactly the chosen branches with their object macros expanded, obeys exactly their definitions, and leaves the conditional stack as it was |
| Preprocessor.PreprocessCalls | app/compiler/preproc.c:541-880 | Running the scanner on a text with calls of function macros, nested in any way, emits what C means by it if and only if every chain of nested calls vanishes |
| Preprocessor.Preprocessor.PpBuf | app/compiler/preproc.c:335-343 | The same for a file: its text without comments is scanned, at the top level with the two built-in macros, and nothing below include level 32 |
| Preprocessor.Preprocessor.OneItem | app/compiler/preproc.c:350-893 | Every pass of the loop advances the cursor, and does one pass of the scan |
| Preprocessor.Preprocessor.OneName | app/compiler/preproc.c:480-893 | A name: line number, object macro, whose expansion comes out, call of a function macro, with what it expands to, or itself, as in one pass of the scan |
| Preprocessor.Preprocessor.Call | app/compiler/preproc.c:541-880 | A call comes out as in the scan: arguments split, trimmed and expanded one level deeper, put into the replacement text, this scanned again, all while the macro is on the stack, and the cursor behind the closing parenthesis or the follow-on list |
| Preprocessor.Preprocessor.Guarded | app/compiler/preproc.c:594-610 | The macro is on the expand stack while a text is expanded and popped again; what comes back is what the scan makes of the text with that stack |
| Preprocessor.Preprocessor.ExpandArguments | app/compiler/preproc.c:578-610 | The arguments of a call, trimmed as they are written, and each expanded by itself, one after the other |
| Preprocessor.Preprocessor.FollowOn | app/compiler/preproc.c:798-862 | A rescanned text that begins with the name of another function macro is scanned once more together with the argument list behind the call, as in the scan; any other one goes out |
| Preprocessor.Preprocessor.OneDirective | app/compiler/preproc.c:359-463 | A directive line is consumed with its newline and has its effect on macros and conditionals |
| Preprocessor.Preprocessor.DoConditional | app/compiler/preproc.c:374-455 | Which branch each conditional directive chooses, by the macros that are defined, and its effect on stack and counter; it fails exactly at nesting level 32 |
| Preprocessor.Preprocessor.DoDirective | app/compiler/preproc.c:227-329 | A directive line that is no conditional: the definition, with or without parameters, removal or inclusion that the reader finds in it is carried out, and the program stops exactly at too many parameters or a parameter list without progress |
| Preprocessor.Preprocessor.DoInclude | app/compiler/preproc.c:150-195 | An inclusion has the effect of the scan of the file without its comments, one level deeper; a file that is not there has none |
| Preprocessor.Preprocessor.FindFunction | app/compiler/preproc.c:525-536 | The first function macro of that name |
| MacroCalls.SplitPrinted | app/compiler/preproc.c:541-592 | The arguments that a call is written with, whatever literals, groups and inner commas they contain, are the ones it is split into; more than 128 are refused |
| MacroCalls.ArgumentText | app/compiler/preproc.c:541-592 | The span of each argument holds the text of that argument |
| Substitution.PlainSubstituted | app/compiler/preproc.c:616-783 | A replacement text of parameters, other words, marks and string literals becomes that text with each parameter that has an argument replaced by its expansion, or by the argument as it is written if the expansion is empty, and nothing else replaced, not even a name inside a string literal |
| ReplacementText.OperatorsExactly | app/compiler/preproc.c:616-783 | A replacement text of parameters, words, marks, literals, quoted parameters, paste operators, __VA_ARGS__ and , ## __VA_ARGS__, for any macro and any arguments: what is built is what these units put out one behind the other, the neighbours of a paste operator with nothing between them, if and only if no paste operator finds a blank in front of it |
| ReplacementText.SolidOperands | app/compiler/preproc.c:740-749 | So it is whenever each operand in front of a paste operator is not empty and does not end with a blank |
| ReplacementText.EmptyLeft | app/compiler/preproc.c:740-749 | x a##b with nothing for a and a word for b comes out as one word, where C has two |
| ReplacementText.TrailingIs | app/compiler/preproc.c:679-703 | The trailing arguments stand there in order, with commas between them |
| ReplacementText.CommaExactly | app/compiler/preproc.c:640-676 | The comma in front of trailing arguments goes when none are given, as GNU C has it, if and only if they are left out altogether; a single empty one keeps it |
| ReplacementText.EmptyCall | app/compiler/preproc.c:640-676 | A call with nothing between its parentheses, of a macro without named parameters, keeps the comma |
| ReplacementText.QuotedMeans | app/compiler/preproc.c:705-738 | A quoted argument is one string literal, and reading that literal as C does gives the argument back, character by character |
| ReplacementText.SpellingExactly | app/compiler/preproc.c:705-738 | It is the spelling that section 6.10.3.2 of ISO C11 asks for if and only if the white space in the argument is single spaces |
| ReplacementText.RawExactly | app/compiler/preproc.c:750-783 | Where at most one pasted argument is changed by its expansion: the text is that of section 6.10.3.1 of ISO C11, which leaves pasted arguments unexpanded, if and only if that one is not changed |
| ReplacementText.ExpandedBeforePasting | app/compiler/preproc.c:589-610 | With #define F(x) x##w and an object macro a with value v, F(a) puts v and w side by side, where C has a and w |
| ReplacementText.EmptyExpansion | app/compiler/preproc.c:770-778 | An argument that expands to nothing is put in unexpanded |
| Substitution.Substitute | app/compiler/preproc.c:616-783 | The imperative pass over a replacement text, with string operators, pasting, variadic arguments and the comma in front of them, refines its specification |
| CallExpansion.CallsExactly | app/compiler/preproc.c:541-880 | For any text with calls of function macros in arguments of each other, to any depth within the 64 levels: what comes out is the text with all calls replaced, arguments first, as section 6.10.3.1 of ISO C11 asks for, if and only if every chain of nested calls vanishes under Reduce, which looks only at the names of the macros called inside each other |
| CallExpansion.CallsExpand | app/compiler/preproc.c:541-880 | So all calls are replaced as long as no macro is called in its own arguments, however deep |
| CallExpansion.SelfCallStays | app/compiler/preproc.c:594-604 | n(n(t)), for a macro n that stands for its argument, comes out as n(t), where C means t |
| CallExpansion.WholeScan | app/compiler/preproc.c:541-880 | Scanning a text with calls gives, character by character, the text of its evaluation with the stack: a macro on the stack stays, another one is replaced by what its filled replacement text scans to |
| CallTerms.FullEval | app/compiler/preproc.c:594-796 | Whatever the stack holds, a scan does not change what C means by the text |
| CallTerms.MeansExactly | app/compiler/preproc.c:594-796 | The text behind a scan is what C means by the text before it if and only if no call is left in it |
| CallTerms.EvalGood | app/compiler/preproc.c:594-796 | A scan keeps texts well-formed, so that names do not run into each other and calls are still read as calls when they are scanned again |
| CallPaths.LeftExactly | app/compiler/preproc.c:594-796 | A scan leaves no call over if and only if every chain of macros called inside each other, through arguments that are used, vanishes |
| CallPaths.SameStay | app/compiler/preproc.c:594-604 | Of n calls of one macro inside each other all but the outermost stay |
| MacroCalls.ClosePrinted | app/compiler/preproc.c:813-836 | The closing parenthesis of a follow-on list without character literals is found |
| MacroCalls.OneCharacter | app/compiler/preproc.c:813-836 | With one character literal in it the list is closed where C closes it if and only if the character is neither a parenthesis nor a double quote |
| MacroCalls.SplitArguments | app/compiler/preproc.c:541-592 | The imperative split refines its specification |
| MacroCalls.MatchingParen | app/compiler/preproc.c:813-836 | The scan for the closing parenthesis refines its specification |
| MacroCalls.Trim | app/compiler/preproc.c:578-588 | Exactly the blanks at both ends of an argument go |
| Comments.StripAllComments | app/compiler/preproc.c:897-942 | The imperative pass gives the specified text and keeps every line at its number |
| Comments.LinesStay | app/compiler/preproc.c:897-942 | The text without comments has as many lines as before, from any position on |
| Comments.CommentsGone | app/compiler/preproc.c:897-942 | In a text without quotes no comment mark is left |
| Comments.StrippedTwice | app/compiler/preproc.c:1226-1230 | The second pass, which is made over every file that has been stripped already, changes nothing in such a text |
| Comments.CommentBlanked | app/compiler/preproc.c:916-928 | A block comment becomes one blank for each character between its marks, so what stands on both sides of it stays apart, as in C, if and only if it is not empty |
| StrippedText.StrippedIs | app/compiler/preproc.c:897-942 | In any text of code, string and character literals and comments the comments become blanks, one for each character, newlines stay, and the literals stay as they are with all comment marks in them |
| Comments.EmptyCommentJoins | app/compiler/preproc.c:916-928 | Two names with an empty comment between them come out as one name |
| ArchiveFile.ArchiveRoundTrip | app/compiler/toyld.c:501-629 | toyld reads back the members toyar wrote, in order with the same bytes, and the index with each name leading to its member |
| ArchiveFile.MembersRoundTrip | app/compiler/toyar.c:239-307 | toyar reads its own members back |
| ArchiveFile.MembersRead | app/compiler/toyld.c:523-600 | Scanning the parts finds every member at its header offset |
| ArchiveFile.IndexRead | app/compiler/toyld.c:601-628 | The symbol index reads as the list it was written for |
| ArchiveFile.MemberFound | app/compiler/toyld.c:494-499 | A header offset identifies its member |
| ArchiveFile.DecRead | app/compiler/toyld.c:486-492 | The decimal fields of a header read as what was written |
| ArchiveFile.NameOfField | app/compiler/toyld.c:525-592 | A name of 1 to 15 characters without space or slash comes back from its field |
| Archiver.SortIsPermutation | app/compiler/toyar.c:374-386 | The sorted index is sorted and a permutation of the collected symbols |
| Archiver.SortSyms | app/compiler/toyar.c:374-386 | Insertion sort in place |
| Archiver.RefsAre | app/compiler/toyar.c:314-371 | A name is collected for a member exactly if the member's symbol table offers it |
| Archiver.IndexLeads | app/compiler/toyar.c:314-386 | The index holds a name for a member exactly if the member offers the name |
| Archiver.ObjectOffers | app/compiler/toyar.c:314-371 | An object that elf_write made offers exactly its global definitions |
| Archiver.IndexLeadsToDefinitions | app/compiler/toyar.c:314-371 | Three programs agree: the index leads toyld to a member for a name exactly if that object defines the name |
| Archiver.WriteDec | app/compiler/toyar.c:118-123 | The digits of a number with leading zeros |
| Archiver.PutHeader | app/compiler/toyar.c:171-185 | A header appended to the buffer |
| Archiver.Layout | app/compiler/toyar.c:402-428 | The precomputed offsets are the positions of the headers in the finished archive |
| Archiver.BuildIndex | app/compiler/toyar.c:433-453 | The body of the index: count, big-endian header offsets, names |
| Archiver.PutMembers | app/compiler/toyar.c:466-500 | Every member is written where it was announced |
| Archiver.Collect | app/compiler/toyar.c:314-371 | The names an object offers |
| Archiver.WriteArchive | app/compiler/toyar.c:313-504 | The file is the specified archive of the members and their sorted index |
| Archiver.ScanParts | app/compiler/toyar.c:239-307 | The scan over the parts of an archive, for both readers |
| Archiver.ReadSymbolIndex | app/compiler/toyld.c:601-628 | The index of an archive |
| Archiver.FindArMember | app/compiler/toyld.c:494-499 | The member with that header offset, or -1 |
| Archiver.ReadArchiveFile | app/compiler/toyld.c:501-629 | The linker's reader as a whole |
| Archiver.WriteThenRead | app/compiler/toyar.c:313-504 | Both programs one after the other: the members and the sorted index come back |
| Encoder.Reads | app/compiler/toyas.c:598-829 | Each faithful instruction decodes to itself, whatever follows (sections 2.1.3 and 2.2.1 of the Intel SDM, volume 2A) |
| Encoder.StreamReads | app/compiler/toyas.c:598-829 | The concatenated bytes of any list of faithful instructions decode to that list |
| Encoder.ReadsExactly | app/compiler/toyas.c:598-829 | The encoder is right exactly for faithful operands, and nothing else decodes to what was meant: r12 is no base, r13 none without a displacement (nor rbp where the source leaves the displacement out), rsp no index, byte immediates fit, byte registers are al to bl |
| Encoder.WrongMemory | app/compiler/toyas.c:647-712 | The other memory operands do not decode at all |
| Encoder.WrongIndex | app/compiler/toyas.c:745-765 | rsp as an index decodes to something else |
| Encoder.WrongImmediate | app/compiler/toyas.c:641-646 | An immediate that does not fit is cut off |
| Encoder.ModRM | app/compiler/toyas.c:241-243 | The three fields of a ModRM byte can be read back |
| Assembler.Assembler.EncodeInstr | app/compiler/toyas.c:598-829 | The bytes of one instruction are appended, or the buffer is full |
| Assembler.Assembler.Assemble | app/compiler/toyas.c:865-1138 | The bytes of a list of faithful instructions decode to the list |
| Assembler.Assembler.DefineLocal | app/compiler/toyas.c:998-1004 | A numbered label is bound to the place of its last definition |
| Assembler.Assembler.JumpForward | app/compiler/toyas.c:793-815 | A jump to a label further down leaves a byte to be filled in |
| Assembler.Assembler.JumpBackward | app/compiler/toyas.c:793-815 | A jump back gets its distance at once, and reaches its label if and only if the distance fits a byte |
| Assembler.Assembler.ApplyLocalFixups | app/compiler/toyas.c:834-847 | All waiting bytes are filled in, in place, and each waiting jump then reaches its label if and only if the distance fits a byte |
| Assembler.PatchedIs | app/compiler/toyas.c:834-847 | Each waiting byte becomes the distance to its label and no other byte changes |
| Assembler.JumpsLand | app/compiler/toyas.c:793-847 | In the patched code the jump at each fixup decodes to a jump to its label if and only if the distance fits a byte |
| Calendar.GmtimeR | lib/time.c:57-111 | The fields always add up to t; from the epoch on they are a normal date and time with the right day of the week and of the year |
| Calendar.Mktime | lib/time.c:131-169 | The seconds of the fields, which stay as they are, with the derived fields corrected |
| Calendar.SecondsRoundTrip | lib/time.c:57-169 | mktime(gmtime_r(t)) is t for every t |
| Calendar.CivilRoundTrip | lib/time.c:57-169 | gmtime_r(mktime(tm)) gives every normal tm from 1970 on back |
| Calendar.SecondsUnique | lib/time.c:131-169 | The seconds of a normal date and time determine it: what makes gmtime_r and mktime inverse to each other, whose loops are proved in GmtimeR and Mktime |
| Calendar.SecondsOrder | lib/time.c:131-169 | Seconds follow the order of the calendar |
| Calendar.DaysBeforeIs | lib/time.c:82-95 | The sum over years equals the closed form of the Gregorian calendar |
| Calendar.MonthsBeforeIs | lib/time.c:24-27 | The days before each month in closed form |
| Calendar.MonthLengths | lib/time.c:24-27 | 31 and 30 days in turn, anew from August on, and 28 or 29 in February |
| Calendar.WeekdayIs | lib/time.c:75-79 | The day of the week of every date from 1970 on is the one of Zeller's congruence |
| Calendar.FindYear | lib/time.c:82-95 | Taking off whole years gives the year and the day in it |
| Calendar.FindMonth | lib/time.c:96-107 | Taking off whole months gives the month and the day in it |
| Scopes.WalksAgree | app/compiler/cgen.c:297-403 | The code generating walk gives every block the number the collecting walk gave it |
| Scopes.SlotsApart | app/compiler/cgen.c:345-352 | Slots are pairwise disjoint and lie in [-frame_size, 0) |
| Scopes.FrameFilled | app/compiler/cgen.c:345-352 | Every byte of the frame belongs to a slot |
| Scopes.UseFound | app/compiler/toyc.h:408-425 | At every declaration with an initialiser and every use in a function, with C's own scopes (compound statements, the braces of a switch, whole for statements, bodies of loops and arms of an if): the variable that C means, the last declaration of the innermost open scope, or none if that is static or outside the function, is found if and only if Clear: no later local of its name, in whatever block, is at most as deep and belongs to a block opened no later than the innermost open one, and for a name that is no local of the function no local of that name at all is at most as deep |
| Scopes.OutsideFound | app/compiler/toyc.h:408-425 | No local is found if and only if no local of that name anywhere in the function is at most as deep |
| Scopes.LooksSettled | app/compiler/cgen.c:297-403 | Along both walks what is open in C is open for the compiler: block numbers grow with depth, and the local of every declaration in an open scope has an open block with an open depth and number |
| Scopes.OneMeaning | app/compiler/toyc.h:408-425 | Every name at every place means exactly one variable, or none of the function |
| Scopes.DistinctFound | app/compiler/toyc.h:408-425 | With one local of each name every local that C means is found at every declaration and every use |
| Shadowing.LaterOuterWins | app/compiler/toyc.h:408-425 | In { { int x = 0; } int x; } the inner declaration stores into the slot of the outer variable, for any name |
| Shadowing.SiblingWins | app/compiler/toyc.h:408-425 | In { int x; { int x; } { x; } } the use means the outer variable and gets the slot of the closed block, for any name |
| Shadowing.ForWins | app/compiler/cgen.c:385-388 | In { int x; for (int x = 0; ...) ... x; }, the outer x being a local or a parameter, the use behind the loop means the outer variable and gets the slot of the loop's one, for any name |
| Shadowing.SwitchWins | app/compiler/cgen.c:392-395 | The same for a variable declared in the braces of a switch |
| Shadowing.LoopFound | app/compiler/cgen.c:385-388 | In { for (int x = 0; ...) ... x; } the use means a variable from outside the function and gets the slot of the loop's one, for any name |
| Shadowing.StaticLost | app/compiler/cgen.c:319-347 | In { int x; { static int x; x; } } the use means the static variable and gets the slot of the outer one, for any name |
| Scopes.Function.CollectLocals | app/compiler/cgen.c:297-403 | The first walk, over the mutable tables |
| Scopes.Function.SearchLocal | app/compiler/toyc.h:408-425 | The search over the table, with its second loop |
| Scopes.Function.GenerateStores | app/compiler/cgen.c:630-638 | The second walk: at each declaration and each use, the slot that the search finds |
| Scopes.BothWalks | app/compiler/cgen.c:928-934 | Both walks: at every place the search finds the variable that C means if and only if nothing hides it, and with one local of each name every local that C means is found |

## Left out

- Pointers, structs, unions, arrays, floating-point code, varargs, inline assembly and calls through pointers: not part of the modelled source language.
- The parser: syntax trees are the input, with every variable resolved to its slot; `Scopes` models how the compiler resolves them.
- System calls, file input and output, messages and exit codes: files are byte sequences, failures are results.
- Capacity limits: a full table or buffer is a precondition, a `Room` condition or a false result.
- Global variables and initialised data of compiled programs: the object of a compiled program has text and relocations only; object files in general have data and bss.
- WholeProgram.Returns: says nothing of runs in which a do-while body ends in continue, a switch body runs off its end or a function runs off its end without a return, because the code does not follow C there; see `Departures`.
- Simulation.SimDoWhile: the same for continue.
- Simulation.SimCall: at most 14 arguments, which is what the compiler's tables are made for.
- Generator.CodeGenerator.Compile: symbol names are function numbers; the names are given to the object in `CompiledObject`.
- Generator.CodeGenerator.GotoLabel: the table of goto names is a map.
- Linker.StaticLinker.Load: reading object files and archives into `inputs` and `archives` is modelled in ObjectWriter and Archiver, and the tables have no fixed size.
- Linker.StaticLinker.Link: relocation offsets outside their section, which the code does not check, are excluded by its precondition.
- Linker.StaticLinker.IsNeeded: a name counts as missing as soon as it is referred to, as in the code, even if a direct input defines it.
- ObjectWriter.ReadInput: places outside the file are reported as `Outside`; the code reads them unchecked.
- ObjectFile.RoundTrip: `app/compiler/elf_write.h` calls .bss section 4 in a comment; the code uses 5, and so does the model.
- Archiver.WriteArchive: names longer than 15 characters, written through the table of long names, are not modelled; reading that table is.
- Archiver.WriteThenRead: the same.
- Archiver.Collect: a symbol table that leaves the file gives no names; the code reads on.
- FloatLiteral.ParseFloatLiteral: integer parts from 2^52 on and more than 18 digits behind the point, after scaling, are outside the range the algorithm is made for; the exponent is an unbounded integer, where the code adds its digits up in an int.
- IfEvaluator.NextToken: the code passes the constant depth 1 to nested macro values, so that its own guard at 64 never stops it; `nest` stands for how deep the macros really go.
- IfPrinting.EvaluatesPrinted: long values wrap around, and shift counts and division follow the processor where C leaves them open.
- Conditionals.FollowsBlocks: directives that start at column 0 (`SourceLines.EndifExactly` has the indented ones); the code has no #elif.
- Substitution.Substitute: a # in front of a parameter without an argument, for which the code reads past its arguments, adds nothing in the model.
- ReplacementText.OperatorsExactly: in a macro with trailing arguments a comma is no operand of a paste operator except in front of these, and no other name begins like `__VA_ARGS__`.
- ReplacementText.SpellingExactly: compares with C for arguments without literals; in literals C keeps white space.
- ReplacementText.RawExactly: says nothing in the converse of texts in which several pasted arguments are changed by their expansion; pasted trailing arguments are not compared with C.
- HeaderFiles.IncludedTwice: the header is read from the start of the file to its end as a guarded text; text around the guard is left to `Directives.BlocksScan`.
- CallExpansion.CallsExactly: replacement texts that call macros themselves, object macros inside the arguments, literals, calls with empty arguments, and a call followed by a second argument list are described by `Directives.Scan`, but not compared with C.
- Preprocessor.Preprocessor.DoInclude: the search along include paths is a map from names to texts; a full macro table is not modelled.
- Conditionals.ExpandsAll: macros that nest deeper than 64 levels, among them those that lead to themselves, are left as they are at level 64 (`Conditionals.Expand` says how).
- Preprocessor.Preprocessor.DoConditional: names of more than 255 characters in #ifdef and #ifndef, which the code does not keep whole, are not modelled.
- Comments.CommentsGone: says nothing of texts with string and character literals, in which comment marks stay (`StrippedText.StrippedIs`).
- Assembler.Assembler.Assemble: the text form of instructions and symbols are not modelled, and memory operands are 64 bits wide; a store drops its displacement in the code, and the model's stores have none.
- Assembler.Assembler.JumpForward: a forward reference leads to the last definition of its number, as in the code.
- Calendar.GmtimeR: time and year are unbounded integers, where the code has a 64-bit time and an int year.
- Calendar.Mktime: the sums are unbounded, where the code adds hours, minutes and seconds up in an int; a month outside 0 to 12, for which the code reads outside its table, is excluded by the precondition.
- Calendar.SecondsUnique: says nothing of the loops, which are proved in `Calendar.GmtimeR` and `Calendar.Mktime`.
- X86.DecodeEncode: stack addresses in the processor model are unbounded, so running out of stack is not modelled.
- Scopes.DistinctFound: shadowing is left to `Scopes.UseFound`, which says exactly when it works.
- Widths.MixedOperands: operands with arithmetic on calls inside, such as f() + 1, whose upper half depends on an overflow, are not covered.
- Scopes.WalksAgree: declarations that the parser does not hand to the walks (prototypes, extern declarations in a block, typedefs and enumeration constants), braced initialisers and the search for static variables among the symbols are not modelled.
- app/tmake.c, app/shell.c, app/coreutils, app/graphics, app/audio, app/elf, app/compiler/cgen_asm.c, lib/string.c, lib/ctype.c and the other libraries: user interfaces, devices, wrappers and single loops.
