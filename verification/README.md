# ALCA, modelled and verified in Dafny

ALCA compiles a small typed rule language to byte code, runs the code on a stack machine for every
event, and watches the rules that trigger for ordered sequences. This project models the way from rule
text to verdict and proves that each stage does what the next one relies on. `dafny verify dfyconfig.toml`
checks all of it.

The stages, with their modules:

- **Text to tree.** `Scanner` says what the scanner makes of a text and `Grammar` and `Statements` what the
  parser makes of tokens; each has a writer and is proved inverse to it. `Lexer` and `Parser` are the
  scanner and the parser as classes that advance a cursor and keep a sticky error. `Source` joins the two
  round trips. `Lexemes`, `Precedence` and `Forms` write out what texts and tokens mean: numbers, symbols and
  escapes, how operators group, and the forms of the statements.
- **Tree to types.** `Checker` is the type checker with its environment and the annotations it writes;
  `Soundness` proves what an accepted body can no longer do, and `Typing` and `TypedFiles` give a typing
  relation of their own and prove that what it types is accepted. `Limits` and `Nesting` show, family by family
  of accepted bodies, what goes wrong where the checker takes something on trust.
- **Tree to code.** `Codegen` gives the code of a tree at an address, `Emitter` the one-pass emitter that
  appends to a growing buffer and patches jumps in place, `Arena` the buffer and the interned strings,
  `Compiler` the driver with its tables. `Linking`, `ControlFlow`, `Names` and `RuleTable` say what the
  finished image looks like.
- **Code to verdict.** `Instructions` and `Machine` define the instruction set and a reference semantics of
  the interpreter; `Vm` is the interpreter loop on its fixed stack. `Semantics` is an evaluator on trees that
  knows nothing of code; `Operators` writes out what its expressions mean, and `Bytecode` what the machine does
  at each byte. `Correctness` proves that machine and evaluator agree, `Rounds` that a rule halts
  exactly if it has a meaning, `Frame` what a run does not depend on, and `Quantifiers` derives the meaning of
  `for`. `Program` is the theorem about whole programs: `References` and `Roots` are about the rules a rule
  reaches, `Example` meets the conditions, `TwoFiles`, `Nameless` and `Shadows` show what repeated names, names
  without code and names of modules do, `Pipeline` starts from text. `Events` is the loop over the rules of one
  event, `Overflow` what a full stack makes of it, and `Dispatch` says which rules an event runs.
- **Verdicts to sequences.** `Sequences` is the detector, with its meaning over every history of triggers.
- **Underneath.** `HashMap` is the Robin Hood hash map that the program keeps its tables in.

Some conventions matter for reading the contracts. The reference semantics counts instructions in a
`fuel` argument, and lemmas about it return a sufficient amount; `Fault` stands for what the C program does
not survive (a failed assertion, a union read as the wrong member, undefined arithmetic). A loop in a class
method is specified by a function on values, and the lemmas are about that function. Memory is modelled as
little-endian, and integers are the 32-bit unsigned numbers of the program, with their wrap-around.

The code differs from its comments and its documentation in places, and the model follows the code: `and`
binds looser than `or`, and only `and` short-circuits (libalca/parser.c:43-46 has it otherwise); no event
runs a rule without an event (libalca/vm.c:297 says every one does); `for any` cannot be written, and
`for N` gives the last condition's value when the range runs out (docs/RULES.md:158-164); a sequence may
span exactly its limit (docs/SEQUENCES.md says less); a backslash does not protect a slash in a regex.

## Model

| member | source | states |
|---|---|---|
| Instructions.FetchEncoded | libalca/arena.c:152-166 | Fetching inverts encoding at every address and for every instruction: opcode, little-endian operand and interned string come back. |
| Instructions.AssembledListed | libalca/arena.c:152-166 | Placed bytes of an instruction list decode to exactly that list, whole instructions one after the other. |
| Instructions.AssembleStable | libalca/arena.c:87-100 | Interning more strings later leaves the bytes of code emitted earlier unchanged. |
| Correctness.Compiled | libalca/bytecode.c:51-318 | Compiler correctness: at any address, on any stack residue with room for the depth, with any registers and loop variable, the code of any expression, a `for` inside a `for` included, ends exactly at its end with the evaluator's value on the untouched residue and the evaluator's registers, or stops with the evaluator's error, or faults exactly as the evaluator says, however many rounds of its loops lead no nearer their end. |
| Correctness.CompiledAnd | libalca/bytecode.c:64-88 | `and` runs the code of its right operand only after a true left one, with the value false otherwise; both jumps land behind whole operands. |
| Correctness.CompiledMatches | libalca/bytecode.c:157-171 | A regex literal pushes pattern and flags, and the match instruction consumes three values. |
| Correctness.CompiledCall | libalca/bytecode.c:183-199 | Arguments evaluated from the last to the first reach the function in order, whatever they leave in the registers. |
| Correctness.CompiledLoop | libalca/bytecode.c:230-301 | The machine's loop (head test, condition, verdict, step, exit) computes the evaluator's rounds from any register state. |
| Correctness.VerdictSteps | libalca/bytecode.c:254-281 | The hand-counted displacements +27 and +10 and the patched jump leave the loop or go to the next round exactly as the quantifier decides. |
| Correctness.CompiledReference | libalca/vm.c:861-883 | A reference to an earlier rule runs it in an activation of its own and pushes its verdict; the caller's registers are untouched. |
| Correctness.RuleCompiled | libalca/vm.c:380-965 | Run from its entry point on any stack with room, a rule halts with its verdict and the stack exactly as before, or with the evaluator's error and everything below its start intact. |
| Rounds.MoreRounds | libalca/bytecode.c:230-301 | The meaning of a tree does not depend on how many rounds the evaluator grants a loop, once they suffice. |
| Rounds.EndlessRuns | libalca/bytecode.c:230-301 | Where the evaluator gives up on a loop after some number of rounds, the machine takes more than that many steps. |
| Rounds.HaltsExactly | libalca/vm.c:380-965 | A rule whose references lead to earlier rules and whose identifiers have code comes to an end, on any stack with room, if and only if the evaluator gives it a meaning with some number of rounds; loops inside loops included. |
| Rounds.SameMeaning | libalca/bytecode.c:230-301 | Any two numbers of rounds that give a rule a meaning give it the same. |
| References.RootedMeans | libalca/bytecode.c:142 | A rule has a meaning if it and all rules it reaches were compiled under a module name, or have no identifiers. |
| Frame.MoreFuel | libalca/vm.c:380-965 | A run that ends, ends the same way however many more steps it is granted. |
| Frame.FrameKept | libalca/vm.c:380-965 | A run that ends on a stack of its own ends the same way on top of any other values, which stay as they are, unless it meets the end of the stack. |
| Frame.HeightKept | libalca/vm.c:39-47 | No run, whatever the code, leaves more than 256 values on the stack. |
| Frame.RuleResidue | libalca/vm.c:393-402 | A rule that stops with an error leaves on every stack the values it leaves on an empty one, at most as many as its depth, on top of what lay below. |
| Correctness.FindLinked | libalca/compiler.c:269-283 | Searching the compiled rule table by name finds the rule the source-level search finds, or none when it finds none. |
| Semantics.IndexFrom | libalca/compiler.c:269-283 | The rule found by name has that name and no earlier one does; if none is found none has it. |
| Semantics.RegistersKept | libalca/bytecode.c:51-228 | Evaluating an expression without a `for` changes no register, rule references included. |
| Operators.WordsMean | libalca/vm.c:461-529 | Digit k of a bitwise result, for every k below 32, is the connective of the digits k of the operands; shifts multiply and divide by powers of two. |
| Operators.DigitsDetermine | libalca/vm.c:495-529 | Numbers with the same digits are the same, so that these statements determine the results. |
| Operators.ArithmeticMeans | libalca/vm.c:416-460 | For any operand expressions with numeric values, sum, difference and product are those modulo 2^32, quotient and remainder those of natural numbers, undefined for the divisor 0. |
| Operators.BitwiseMeans | libalca/vm.c:495-529 | The digits of the bitwise and, or and exclusive or of any operand expressions. |
| Operators.ShiftsMean | libalca/vm.c:461-494 | Shifts by less than 32 multiply modulo 2^32 and divide; by 32 they are undefined, and by more error 25. |
| Operators.ComparisonsMean | libalca/vm.c:530-621 | The comparisons give 1 or 0 exactly as the unsigned numbers compare. |
| Operators.ConnectivesMean | libalca/vm.c:622-639 | `or` looks at both operands; `and` gives 0 for a left 0, with the registers left behind it, and else the truth of the right operand. |
| Operators.TextsMean | libalca/vm.c:734-808 | `contains`, `startswith` and `endswith` hold exactly if the left text is the right one with something around, behind or in front of it; `==` and `!=` compare whole texts. |
| Operators.CaselessMean | libalca/vm.c:743-822 | The case-blind operators, the same with a text that differs from the right one in the case of the letters A to Z only. |
| Operators.UnaryMeans | libalca/vm.c:640-655 | `!` and `not` give 1 exactly for 0, `-` the number that adds up to 0 modulo 2^32, and `~` the inverted digits. |
| Operators.LengthMeans | libalca/vm.c:853-860 | `#` is the length of a text. |
| Operators.LiteralsMean | libalca/bytecode.c:137-171 | Literals, the module of the event (error 14 if it is not loaded) and the loop variable. |
| Operators.ReferenceMeans | libalca/vm.c:861-883 | A name of an earlier rule has that rule's value, run with four registers that are zero, and leaves the registers alone. |
| Operators.FieldMeans | libalca/vm.c:906-917 | A field of an object is itself if it is an array, a struct or a function, and else the value it holds. |
| Operators.IndexMeans | libalca/vm.c:918-932 | Index k gives item k, counted from 0; behind the last item, and on what is no array, it is error 26. |
| Operators.MatchMeans | libalca/vm.c:823-852 | A match hands modifiers, pattern and the left operand to the regex engine. |
| Operators.CallMeans | libalca/vm.c:884-905 | A call hands the values of its arguments, in the order written, to the function, and gives its result or its error. |
| Bytecode.NumberByteRuns | libalca/include/alca/bytecode.h:25-52 | One turn of the machine at the bytes 1 to 10, 12 to 16, 18, 19 and 21 to 23 on two numbers, by the number of the opcode. |
| Bytecode.TextByteRuns | libalca/include/alca/bytecode.h:44-74 | One turn at the bytes 17, 20 and 105 to 111 on two texts. |
| Bytecode.TopByteRuns | libalca/include/alca/bytecode.h:23-85 | One turn at the bytes 11, 24, 25, 104, 113, 205 and 254, which look at the value on top. |
| Bytecode.JumpByteRuns | libalca/include/alca/bytecode.h:57-59 | The bytes 26, 27 and 28 jump to their operand, lowest byte first, on zero, on any other number and always, and leave the stack alone. |
| Bytecode.MoveByteRuns | libalca/include/alca/bytecode.h:62-87 | The bytes 100 and 101 push their operand; 206 and 207 load and store one of four registers. |
| Bytecode.NameByteRuns | libalca/include/alca/bytecode.h:64-80 | The bytes 102, 103 and 202 push the interned string at their operand, the module of that name and the field of that name. |
| Bytecode.ObjectByteRuns | libalca/include/alca/bytecode.h:75-81 | The bytes 112 and 203 match a text and take an item out of an array. |
| Bytecode.CallByteRuns | libalca/vm.c:884-905 | The byte 201 calls the function on top with the arguments below their number, the first argument lying on top of the others. |
| Bytecode.RuleByteRuns | libalca/vm.c:861-883 | The byte 200 runs the first rule of the name with registers of its own and pushes the verdict; an error is handed on. |
| Bytecode.FullByteRuns | libalca/vm.c:39-47 | A push on 256 values ends the run, without an error, with the result 24. |
| Bytecode.UnknownByteRuns | libalca/vm.c:955-959 | Bytes that are no opcode end the run with error 27. |
| Quantifiers.AllStopsEarly | libalca/bytecode.c:257-260 | `for all` is left with false at the first false condition; nothing after it is evaluated or matters. |
| Quantifiers.AnyStopsEarly | libalca/bytecode.c:261-264 | The `any` form of the loop is left at the first condition that holds, with true. |
| Quantifiers.AtLeastStopsEarly | libalca/bytecode.c:265-282 | `for N` is left with true at the match that fills the quota, whatever the later conditions are; the count starts over at 2^32. |
| Quantifiers.ForAll | libalca/bytecode.c:230-301 | `for all` is the conjunction over a non-empty range, and false over an empty one. |
| Quantifiers.ForAny | libalca/bytecode.c:254-299 | The `any` form of the loop is the disjunction over its range, and false over an empty one. |
| Quantifiers.ForAtLeast | libalca/bytecode.c:230-301 | The exact verdict of `for N`: true if and only if the range is not empty and N conditions (at least one) hold or the last one does. |
| Quantifiers.ForOne | libalca/bytecode.c:230-301 | `for 1` is exactly the disjunction, on every range. |
| Quantifiers.ForAtLeastExact | libalca/bytecode.c:298-299 | `for N` means "at least N conditions hold" if and only if N of them hold or the last one does not. |
| Quantifiers.ForCountsOn | libalca/vm.c:390 | A counted `for` anywhere in a rule counts on, modulo 2^32, from the matches an earlier one left, and over an empty range yields the last condition of an earlier one; its exact verdict. |
| Quantifiers.AtLeastVerdict | libalca/bytecode.c:265-299 | The loop of `for N` from any index, last value and count: true if and only if some match brings the wrapping count to N or the last condition holds. |
| Quantifiers.AllAsCount | libalca/bytecode.c:230-301 | `for all i in (0..n)` and `for n i in (0..n)`, documented as equivalent, are so if and only if all conditions hold or the last one does not. |
| Quantifiers.ForTwoMiscounts | libalca/bytecode.c:298-299 | A concrete `for 2` with a single match that is true. |
| Quantifiers.OnlyCounterMatters | libalca/vm.c:390 | A condition sees only the loop counter of the registers, so neither count nor bounds can disturb it. |
| Vm.Interpreter.Push | libalca/vm.c:39-47 | Pushing on a full stack fails and changes nothing; otherwise the value is on top. |
| Vm.Interpreter.Pop | libalca/vm.c:49-52 | Popping takes the top value; an empty stack is excluded by the assertion. |
| Vm.Interpreter.ComputeOne | libalca/vm.c:403-860 | The instructions with one operand do in place what the reference step says. |
| Vm.Interpreter.ComputeTwo | libalca/vm.c:403-860 | The instructions with two operands do in place what the reference step says, operands in the right order. |
| Vm.Interpreter.CallFunction | libalca/vm.c:884-905 | A call takes function, count and arguments off the stack and pushes the result, or stops with the function's error. |
| Vm.Interpreter.RunNested | libalca/vm.c:861-883 | A nested activation, its error and its overflow exit, are those of the reference semantics, and execution resumes behind the call. |
| Vm.Interpreter.ExecCode | libalca/vm.c:380-965 | The interpreter loop over the fixed stack ends with the error, the result and the stack of the reference semantics. |
| Arena.Buffer.Extend | libalca/arena.c:49-57 | The buffer grows by whole chunks, just enough, and keeps its contents. |
| Arena.Buffer.Append | libalca/arena.c:121-166 | Appending returns the old size as the offset and leaves what was there in front. |
| Arena.Buffer.Replace | libalca/arena.c:130-133 | Overwriting changes exactly the bytes named. |
| Arena.InternKeeps | libalca/arena.c:87-100 | Interning keeps every earlier offset readable and makes the new string readable at its own. |
| Arena.OffsetsDiffer | libalca/arena.c:87-119 | Distinct strings have distinct offsets. |
| Arena.InternedForever | libalca/arena.c:87-109 | Whatever is interned later, the string read at an offset once returned is the one that was added. |
| Arena.StringArena.AddString | libalca/arena.c:87-100 | Adding a string returns its one offset, the old one if it is there already. |
| Arena.StringArena.Get | libalca/arena.c:103-109 | Reading at an offset gives the string that starts there if it was interned, also at offsets nobody returned. |
| Arena.StringArena.Find | libalca/arena.c:112-119 | Finding a string gives its offset exactly if it was interned. |
| Emitter.Builder.Patch | libalca/bytecode.c:28-32 | A patch turns one placeholder into its jump and alters no other byte, so no earlier code. |
| Emitter.Builder.EmitAnd | libalca/bytecode.c:51-134 | Emitting `and` in one pass, with a patch, appends exactly the assembled listing. |
| Emitter.Builder.EmitRange | libalca/bytecode.c:230-301 | Emitting a `for` in one pass, with its patches, appends exactly the assembled listing, and leaves no loop variable in scope. |
| Emitter.Builder.EmitCall | libalca/bytecode.c:183-199 | Emitting a call appends arguments from the last to the first, their count, the callee and the call. |
| Emitter.Builder.EmitLiteral | libalca/bytecode.c:136-181 | Identifiers become module, loop variable or rule reference by the emitter's state; without a module name they leave no code. |
| Emitter.Builder.EmitField | libalca/bytecode.c:203-216 | A field access is unwrapped exactly if its annotation is no array, struct or function. |
| Emitter.Builder.EmitExpr | libalca/bytecode.c:303-318 | Emitting any tree appends its assembled listing to the untouched earlier code and interns its strings in order. |
| Emitter.Builder.EmitRule | libalca/bytecode.c:320-336 | A rule with an event sets the module name, one without keeps the last; the body is followed by the halt instruction. |
| ControlFlow.CodeJumps | libalca/bytecode.c:64-296 | Every jump in the code of an expression, patched or computed, goes to an instruction of that code or right behind it. |
| ControlFlow.JumpsStayInside | libalca/bytecode.c:331-334 | In the image, every jump of a compiled rule lands on the first byte of a decodable instruction of the same rule. |
| ControlFlow.CodeRefers | libalca/bytecode.c:136-216 | Code refers to no string but those interned for it. |
| Checker.FileChecker.CheckSequence | libalca/checker.c:637-671 | The members of a sequence are checked in order, and the first failure ends the check. |
| Checker.FileChecker.Check | libalca/checker.c:673-692 | Checking a file goes on after errors, refuses redefinitions, annotates the trees and forgets the private names at the end. |
| Soundness.Sound | libalca/checker.c:449-557 | Type soundness: under `Proper`, whatever the checker accepts evaluates, in annotated form, to a value of the announced type, to an error code or to undefined arithmetic, unless it meets an identifier without code; never with an operand of the wrong kind, a missing field or an unknown rule. |
| Soundness.SoundPath | libalca/checker.c:167-380 | A dotted path the checker follows to a struct or a scalar leads the machine to an object that conforms or a value of that type. |
| Soundness.PathCall | libalca/checker.c:128-165 | A call with the right number of arguments of the right types gives a value of the declared type. |
| Soundness.AccessGood | libalca/checker.c:195-235 | A declared field of a conforming object is there, wrapped or unwrapped as its type says. |
| Soundness.SoundLoop | libalca/checker.c:527-555 | Every round of a `for` keeps numbers in all four registers and ends in a Boolean. |
| Soundness.CanonEval | libalca/bytecode.c:84-134 | The value of a tree depends only on what the emitter reads off the annotations: string comparison or not, container or not. |
| Soundness.ResolveShape | libalca/checker.c:449-557 | Checking only annotates: it neither adds nor removes loops, regexes or missing children. |
| Limits.PathPastScalar | libalca/checker.c:227-235 | In every scope, any path that reaches a scalar is accepted with that scalar's type when a further field follows, whatever the field is called. |
| Limits.PathPastScalarFaults | libalca/vm.c:906-916 | Such a body faults if and only if the path up to the scalar yields a value; otherwise it fails as the path does. |
| Limits.IndexPastScalar | libalca/checker.c:227-235 | The same for a path that goes on behind its scalar with an indexed field. |
| Limits.IndexPastScalarFaults | libalca/vm.c:906-932 | It faults whenever the path up to the scalar yields a value. |
| Limits.UncheckedIndex | libalca/checker.c:319-332 | In every scope, the index in front of a further field does not enter the verdict at all: any other expression in its place is accepted alike, and none is annotated. |
| Limits.UncheckedIndexFaults | libalca/vm.c:918-932 | It faults whenever array and index yield values and the index is no number. |
| Limits.BareIndexAccepted | libalca/checker.c:319-332 | `file.sections[file.sizes[i]].name` is accepted for every number `i`, and its inner access stays without the annotation that the emitter needs. |
| Limits.BareIndexFaults | libalca/bytecode.c:203-228 | Its code faults for every `i`, whatever conforming values the module holds. |
| Limits.WrongArity | libalca/checker.c:128-165 | In every scope, and for functions that return structs as for others, every wrong number of arguments is accepted, too many, too few or none, if each has a type. |
| Limits.EmptyCallRefused | libalca/checker.c:128-165 | A call without arguments of a function that takes none is refused. |
| Limits.WrongArityRuns | libalca/vm.c:884-905 | The machine passes on exactly the arguments written, however many. |
| Limits.MissingArgumentFaults | libalca/vm.c:884-905 | A module and a function that conform to their declaration, and an accepted call without the one argument declared, whose comparison faults. |
| Limits.ComparedRegex | libalca/checker.c:502-511 | In every scope, a string and a regex may be compared with every operator that strings may, not only `matches`. |
| Limits.ComparedRegexFaults | libalca/bytecode.c:165-171 | The code of such a comparison, whatever the operator and the pattern, faults on every stack with room whenever its left operand yields a value. |
| Limits.SelfReferenceAccepted | libalca/checker.c:464-487 | A rule that names itself is accepted, the test for recursion not being reached. |
| Limits.SelfReferenceNeverEnds | libalca/vm.c:393-402 | Such a rule runs out of every number of steps, on every stack. |
| Nesting.NestedForAccepted | libalca/checker.c:527-555 | In every scope, every `for` whose condition is a `for` is accepted, if the bounds and the inner condition are and the two variables are new. |
| Nesting.LooksOnce | libalca/vm.c:390 | The outer loop has the value of its first condition, whatever its other elements are, unless a round of the inner loop was decided early: the inner loop leaves its counter at its end. |
| Nesting.FiveSixesMeans | libalca/vm.c:390 | A nested loop on two elements that meets a quota of five in its third round, after two that led no nearer its end. |
| Nesting.NestedForNeverEnds | libalca/vm.c:390 | With a false inner condition, a non-empty outer range and an inner one that ends more than one behind its start, the rule runs out of every number of steps, on every stack with room: the inner loop resets the counter the outer one reads. |
| Nesting.NestedForEnds | libalca/vm.c:390 | Exactly when such a rule ends: if and only if the outer quantifier is `all`, the outer range is empty, or the inner range ends at most one behind its start; it is false then. |
| Limits.OnlyAndShortCircuits | libalca/bytecode.c:64-88 | After a false left operand `and` survives a right operand that divides by zero; `or` after a true one does not. |
| Typing.Complete | libalca/checker.c:449-557 | Completeness of the checker: every expression that the typing relation types is accepted with that type. The relation gives operators by literal sets, fields, items and calls by the declarations, and loops by numeric bounds, a new variable and a Boolean condition; it calls no function of the checker. |
| Typing.PathComplete | libalca/checker.c:167-380 | A typed path is followed to its end, with the type that its declaration says. |
| Typing.CallTraced | libalca/checker.c:128-165 | A call of a function of the module with at least one argument, each of its parameter's type, is accepted. |
| Typing.Sufficient | libalca/checker.c:449-557 | Of proper expressions the checker accepts no more than the typing relation types. |
| Typing.AcceptedExactly | libalca/checker.c:559-570 | Of proper bodies the checker accepts exactly those typed as Boolean. |
| TypedFiles.MemberAccepted | libalca/checker.c:649-668 | A member of a sequence passes if it is a rule of the same file or a typed body, and if it is proper only then. |
| TypedFiles.FileAccepted | libalca/checker.c:673-692 | A file whose names are new, whose events' modules are known and whose bodies are typed passes, and leaves all its names but the private ones; a proper file passes only then. |
| TypedFiles.FilesAccepted | libalca/checker.c:673-692 | Completeness for whole programs: files that are typed, one after the other, pass; of proper files exactly the typed ones do. |
| TypedFiles.VisibleNames | libalca/checker.c:572-612 | A name is in scope if it was before the file or if a statement above introduces it. |
| TypedFiles.VisibleRules | libalca/checker.c:593-609 | Inside a typed file a name stands for a rule exactly if it did before the file or a statement above declares the rule, private or not. |
| TypedFiles.PublicRules | libalca/checker.c:59-73 | Behind typed files a name stands for a rule of a file exactly if that file declares it without the word `private`. |
| Compiler.CompilerState.FindModuleOrdinal | libalca/compiler.c:224-245 | The table walk computes `FindOrdinal`: the ordinal of the first module whose name starts the event's name, or the error. |
| Compiler.FindOrdinal | libalca/compiler.c:232-244 | The ordinal is that of the first entry from the index on that agrees with the event in the characters compared; there is none if and only if no entry agrees. |
| Compiler.PrefixMeans | libalca/compiler.c:232-244 | For entries as an import makes them, agreeing means that the event's name starts with the module's. |
| Compiler.CompilerState.FindRuleIndex | libalca/compiler.c:269-283 | The first rule-table entry whose offset reads as the name, or none. |
| Compiler.CompilerState.CompileImport | libalca/compiler.c:384-405 | An import adds a module only if its name has not been interned before; an unknown module is an error after interning. |
| Compiler.CompilerState.CompileRule | libalca/compiler.c:407-444 | The in-place step computes `RuleProgress`: new code at the end, strings interned name first, one entry with code start, ordinal and name offset, and for each failing exit what it leaves behind; `Linking.RuleProgressBuilt` says what that is worth. |
| Compiler.CompilerState.CompileSequence | libalca/compiler.c:446-477 | Members are looked up or compiled in order; errors do not stop the others, the last is returned, and the entry is added anyway. |
| Compiler.CompilerState.CompileStatements | libalca/compiler.c:551-599 | The statement loop computes `ProgramProgress`, going on after errors and returning the last; `Linking.ProgramBuilt` says what that is worth. |
| Compiler.ProgramGrows | libalca/compiler.c:551-599 | Compiling further statements neither moves nor removes code, rules, modules or sequences, and success of the whole means success of every part. |
| Linking.ProgramBuilt | libalca/compiler.c:551-599 | After any statements, failed ones included, every rule entry leads to the name and the complete code of its rule. |
| Linking.BuiltLinked | libalca/vm.c:163-171 | Decoding the image the compiler left gives back the rules it was given. |
| Linking.StatementBuilt | libalca/compiler.c:384-477 | Each kind of statement keeps that invariant. |
| Linking.ProgramJumps | libalca/compiler.c:551-599 | In the image of any program, every jump of every compiled rule lands on the first byte of a decodable instruction of the same rule. |
| Names.SingleFileUnique | libalca/checker.c:581-604 | In a program of one accepted file no earlier table entry has the name of a declared rule, also counting the name that rules in sequences appear under. |
| Names.SequencePlaced | libalca/compiler.c:446-477 | Where names are unique, every index compiled for an accepted sequence leads to the rule its member stands for, and to the first of that name. |
| Names.SequencesPlaced | libalca/compiler.c:551-599 | The final image of accepted files with unique names has one sequence entry for every sequence statement, in order, with its span and the indices of its members' rules. |
| Names.SingleFilePlaced | libalca/compiler.c:551-599 | For a single accepted file it always does, the names being unique. |
| Names.FindBuilt | libalca/compiler.c:269-283 | Looking a name up in the compiled table is looking it up among the rules. |
| Program.FilesInStep | libalca/compiler.c:355-382 | Checking and compiling all files in step: every rule name in scope stands for a compiled rule of that name and event, every rule, with or without an event, was checked where all names stand for strictly earlier entries, and the module name it was compiled under is no rule and no variable there. |
| Program.RuleSafe | libalca/checker.c:581-635 | By induction over the table, every rule, also one without an event, is safe, and refers only to earlier rules. |
| Program.ProgramRuns | libalca/compiler.c:601-624 | The main theorem: in an accepted, compiled program with proper bodies every rule, with or without an event, halts on every stack with room, with the evaluator's verdict and the stack as it was, with the evaluator's error, or on undefined arithmetic; only where a rule reaches an identifier compiled without a module name, nothing is said. |
| Roots.AcceptedMentions | libalca/checker.c:464-557 | An accepted, proper body mentions only its module and rules of its own event other than itself. |
| Roots.UniqueRooted | libalca/bytecode.c:142 | Where names are unique, no rule that an event runs reaches an identifier without code. |
| Roots.SingleFileRooted | libalca/compiler.c:601-624 | So in a program of one accepted file none does. |
| Nameless.NamelessTakes | libalca/bytecode.c:136-156 | A rule that is a name without code answers with what its caller left on top of the stack, takes it away, and underflows the empty stack. |
| Nameless.ReferenceUnderflows | libalca/vm.c:861-883 | A rule that refers to such a rule underflows the empty stack, and has no meaning. |
| Nameless.PairUnderflows | libalca/checker.c:673-692 | Two accepted files with proper bodies where an event runs such a rule: the private name leads to a rule of the first file, compiled before any event. |
| Program.OwnNamesReached | libalca/compiler.c:269-283 | Names are unique if and only if every declared rule is the one that a search for its name finds. |
| Pipeline.TextRuns | libalca/compiler.c:601-624 | All stages in a row, for any number of files: each text is scanned and parsed back to its file, and every rule halts as the main theorem says; in a single file no rule with an event reaches an identifier without code. |
| Example.ExampleRuns | libalca/compiler.c:601-624 | The conditions of the main theorem can all be met: a concrete program goes through checker, compiler and machine and answers true. |
| TwoFiles.SecondFileReadsFirst | libalca/checker.c:673-692 | Two accepted files with a private rule of one name: the rule of the second file that refers to it runs the one of the first, and answers 1 where its own file says false. |
| Events.ExecEvent | libalca/vm.c:328-357 | The loop over the rules, for every event whose rules halt: it goes on after errors, reports every rule that triggers unless it is private or in a sequence, and the sequences it completes, hands every trigger to the detector, returns the last error, and leaves what the last rule left on the stack. |
| Events.EventMeans | libalca/vm.c:328-357 | Where there is room the rules halt: exactly the due rules whose meaning is true trigger, exactly those whose meaning is an error err, and on the stack lies what was there and at most the depths of the rules that erred. |
| Events.MeaningTriggers | libalca/vm.c:342-352 | So there a rule triggers if and only if it is due and true, and errs, with the evaluator's error, if and only if it is due and means one. |
| Events.TriggeredExactly | libalca/vm.c:342-352 | Each due rule whose result is not zero triggers once, in table order, and no other. |
| Events.RulesReported | libalca/vm.c:348-350 | A rule is reported, with the second of its trigger, if and only if it triggers and is neither private nor part of a sequence. |
| Events.SequencesReported | libalca/vm.c:351-352 | A sequence is reported for a second if and only if some rule that triggers in it, private or not, completes it. |
| Events.ReportsOrdered | libalca/vm.c:328-357 | Reports come in the order of the rule table, a rule before the sequences that it completes and these in the order of theirs; none is made twice. |
| Events.LastErrorExactly | libalca/vm.c:337-341 | The error returned is that of the last rule that errs, and 0 if and only if none does. |
| RuleTable.ProgramListed | libalca/compiler.c:407-477 | A program that compiles without an error has one table entry for every rule of its text, in the order of the text, with its name, body and event: private as declared, part of a sequence exactly if written in place in one. |
| RuleTable.DeclarationPlace | libalca/compiler.c:551-599 | Every declaration is among those entries, with its flag, behind the rules of all statements before it. |
| RuleTable.DeclaredReported | libalca/vm.c:328-357 | Of a compiled program an event reports exactly the rules that trigger and were declared with a name and without the word `private`; a rule without an event never triggers. |
| RuleTable.ModulesListed | libalca/compiler.c:384-405 | After any statements entry k of the module table is that of an import in the text, with the number k + 1 and the version of the module. |
| Events.LeakyLeaves | libalca/vm.c:393-402 | A concrete rule that stops with an error and leaves one value on the stack, on every stack with room. |
| Events.FullStackReached | libalca/vm.c:393-402 | After 255 runs of it the stack is full. |
| Overflow.FirstCode | libalca/bytecode.c:303-318 | The code of every body begins with the push of its leftmost operand. |
| Overflow.FullStack | libalca/vm.c:39-47 | On a full stack every rule ends at its first instruction and leaves the stack full: without an error and with a result that is not zero, or with the error for a module that is not loaded; through a reference, as the rule referred to. |
| Overflow.MeaningCovered | libalca/vm.c:39-47 | That covers every rule with a meaning, undefined arithmetic included. |
| Events.FullEvent | libalca/vm.c:328-357 | So an event that finds the stack full triggers every due rule, whatever it says, unless it begins with a module that is not loaded, and leaves the stack full for the next event. |
| Events.FalseTriggers | libalca/vm.c:343-348 | In a program with the leaking rule, once the stack is full, every event for the rule `false` triggers it, and the stack stays full. |
| Dispatch.ProgramDispatched | libalca/compiler.c:224-245 | After any statements every rule with an event has the ordinal of the first imported module whose name its event starts with. |
| Dispatch.DueExactly | libalca/vm.c:331-337 | A rule is run if and only if the event's type starts the name of that module. |
| Dispatch.DispatchExactly | libalca/vm.c:337 | Rules are run on the events they are declared for, and on no others, if and only if no imported name starts another. |
| Dispatch.DueOnItsEvents | libalca/vm.c:331-337 | In that case a compiled rule is run exactly on the events of the module it is declared for. |
| Dispatch.ShortNameMisdirects | libalca/vm.c:337 | Of `fil` and `file`, in either order of import: a rule for `file` run on events of `fil`, and one not run on its own. |
| Dispatch.FilesImported | libalca/checker.c:573-580 | At every point of an accepted program every imported module is in scope under its own name. |
| Dispatch.EventInScope | libalca/compiler.c:224-245 | So the module of a compiled rule's event is, unless an imported name properly starts the event's. |
| Shadows.RuleShadowed | libalca/bytecode.c:146-148 | Otherwise a rule may have the module's name, and a reference to it gives the module. |
| Shadows.VariableAccepted | libalca/checker.c:527-555 | A loop variable may have it as well. |
| Shadows.VariableShadowed | libalca/bytecode.c:146-148 | Comparing such a variable with a number faults, for every quantifier and non-empty range. |
| Shadows.ShadowedFaults | libalca/checker.c:673-692 | An accepted and compiled program in which it does. |
| HashMap.Table.Get | libalca/hashmap.c:371-390 | A lookup returns the binding of the mathematical map, or none, and its probe ends. |
| HashMap.Table.Set | libalca/hashmap.c:309-357 | Setting updates the mathematical map at this key only and returns exactly the previous binding; the table is doubled first exactly if six tenths of its buckets are used. |
| HashMap.Table.Insert | libalca/hashmap.c:322-356 | The probe loop with displacement ends, conserves all bindings and counts right. |
| HashMap.Table.Delete | libalca/hashmap.c:416-460 | Deleting removes this key only and returns its binding; the table is halved exactly if no more than a tenth of its buckets is left in use and it is larger than it was made. |
| HashMap.Table.Remove | libalca/hashmap.c:430-448 | The backward shift re-establishes the ring, wrap-around included, and leaves every other key findable. |
| HashMap.Table.Resize | libalca/hashmap.c:257-299 | Rebuilding into a table of any sufficient power-of-two size keeps the map and the count and gives every entry its new home. |
| HashMap.Perform | libalca/hashmap.c:309-460 | Over any run of set, get and delete the table answers exactly as a mathematical map does. |
| HashMap.Table.Items | libalca/hashmap.c:528-539 | Iterating from the start yields every binding exactly once. |
| HashMap.RunUsed | libalca/hashmap.c:322-356 | Between its home and its bucket an entry passed only entries at least as far from theirs. |
| HashMap.Absent | libalca/hashmap.c:371-390 | A probe that meets a free bucket, or an entry nearer its home, has passed every bucket where the key could be. |
| HashMap.FreeExists | libalca/hashmap.c:314-321 | A table with fewer bindings than buckets has a free bucket, which ends every probe. |
| HashMap.ProbeDisplaces | libalca/hashmap.c:347-353 | Once an entry nearer its home is met the key being set is nowhere in the table; table and carried entry together still hold everything once. |
| HashMap.ProbeMeetsKey | libalca/hashmap.c:340-346 | A displaced entry never takes the replace branch. |
| HashMap.ShiftOn | libalca/hashmap.c:434-446 | Moving the next entry back by one keeps every entry in place and the hole legal. |
| HashMap.DibBound | libalca/hashmap.c:35-39 | A stored distance is at most the number of entries. |
| HashMap.CarriedDibBound | libalca/hashmap.c:322-356 | A carried distance is at most one more, so 16 bits suffice below 65535 entries. |
| HashMap.Capacity | libalca/hashmap.c:133-147 | The smallest power of two from 16 on that is not below the capacity wanted, with a growth threshold strictly inside the table. |
| Sequences.Detector.Update | libalca/vm.c:236-278 | A trigger is noted for every sequence that monitors its rule, and exactly the sequences the history completes are reported, in table order. |
| Sequences.Detector.Sequential | libalca/vm.c:247-274 | The loop over a sequence's rules answers whether their last trigger times ascend in both parts, none missing, and whether the first and the last are within the span. |
| Sequences.StateIsLast | libalca/vm.c:238-246 | After every history the table holds the last trigger time of each rule and nothing else. |
| Sequences.ReportedExactly | libalca/vm.c:251-274 | With increasing times and distinct rules, a report is made if and only if the last triggers stand in order, end with the newest, keep the span, and their microseconds do not fall. |
| Sequences.ReportSound | libalca/vm.c:251-274 | Every report is witnessed by triggers of the rules in sequence order, ending with the trigger being processed, within the span. |
| Sequences.ReportComplete | libalca/vm.c:257-258 | If each rule was triggered last in sequence order and within the span, the report hangs on the microseconds alone. |
| Sequences.MissedAcrossSecond | libalca/vm.c:257-258 | 1.9 s and then 2.1 s: in order, not reported. |
| Sequences.MissedAfterRepeat | libalca/vm.c:242-246 | A B A C is not reported for A B C. |
| Sequences.ReportedAgain | libalca/vm.c:266-276 | A sequence is reported once more at every further trigger of its last rule. |
| Sequences.RepeatedRuleAtOnce | libalca/vm.c:192-195 | A sequence that names one rule twice is reported at its first trigger. |
| Sequences.TiesInAnyOrder | libalca/vm.c:257-258 | Equal times are reported in any order. |
| Grammar.ParseAt | libalca/parser.c:174-551 | Every parsing function goes forward, fails only with an error set, and never clears one. |
| Grammar.ParsePrinted | libalca/parser.c:174-551 | Parser inverts printer: a canonical tree of any level, printed anywhere and followed by a token that cannot continue it, is parsed back and nothing more is consumed. |
| Grammar.ParsedPrints | libalca/parser.c:174-551 | Printer inverts parser: every tree parsed without error is canonical, so no child is missing, and prints to the tokens consumed up to optional commas and `any`. |
| Grammar.PrintInjective | libalca/parser.c:344-551 | Two canonical trees with the same tokens are the same tree. |
| Grammar.LeftPrinted | libalca/parser.c:344-546 | Chains of operators of one level fold to the left, whichever tighter ones stand between. |
| Grammar.PostfixPrinted | libalca/parser.c:301-329 | Chains of calls, fields and indexes are read from the left, whatever follows. |
| Grammar.ArgumentsPrinted | libalca/parser.c:249-272 | Printed arguments are read back in order, the commas between them skipped, up to and including the closing parenthesis. |
| Grammar.AnyRefused | libalca/parser.c:182-195 | `for any x` is an error. |
| Precedence.ChainParsed | libalca/parser.c:331-551 | Precedence and associativity for chains of any length: operands without parentheses between operators, `not` in front of any of them where it may stand, are read as the tree that splits the chain at the last of its loosest operators; the sets of equally tight operators are written out. |
| Precedence.PairParsed | libalca/parser.c:344-546 | a o1 b o2 c groups to the right exactly if o2 is in a tighter set than o1, for all pairs of operators. |
| Precedence.PrefixParsed | libalca/parser.c:331-342 | The prefix operators take the operand behind them, with its calls, fields and indexes, and no binary operator. |
| Precedence.NotParsed | libalca/parser.c:497-508 | `not` reaches as far as the next `and` or `or`. |
| Precedence.PrimaryOperands | libalca/parser.c:226-247 | Literals and chains in parentheses are operands, with their tokens. |
| Precedence.ForOperand | libalca/parser.c:174-224 | A `for` is an operand: quantifier, variable, start, end and condition in this order of tokens. |
| Precedence.PostfixOperands | libalca/parser.c:249-329 | Fields, indexes and calls behind an operand are operands; indexes and arguments are chains. |
| Forms.CommasOptional | libalca/parser.c:249-272 | Arguments may stand with commas between and behind them, and without. |
| Forms.AnyPassed | libalca/parser.c:183-193 | In front of `all` or a number the word `any` is passed over. |
| Statements.ProgramPrinted | libalca/parser.c:569-716 | Parsing a printed program gives the program back. |
| Statements.ProgramCanonical | libalca/parser.c:680-716 | Every program that parses consists of canonical trees. |
| Statements.MembersPrinted | libalca/parser.c:622-658 | References and rules in place are told apart and read back in order. |
| Forms.RuleForm | libalca/parser.c:569-589 | The tokens of a rule, its event and its chain in braces give that rule, private exactly if the word stands in front. |
| Forms.SequenceForm | libalca/parser.c:591-667 | The tokens of a sequence with a rule declared elsewhere and one written in place, and a time limit, give that sequence. |
| Forms.LimitForm | libalca/parser.c:600-618 | A limit of n seconds is n, of n minutes 60 n modulo 2^32, and none is 0. |
| Forms.ImportForm | libalca/parser.c:670-678 | `event` and a name are an import. |
| Forms.MembersAdjoin | libalca/parser.c:621-657 | Members may follow one another without a comma. |
| Forms.UnclosedRefused | libalca/parser.c:226-247 | A parenthesis that is not closed behind its chain is error 4, and a body that is not closed error 2. |
| Forms.MissingRefused | libalca/parser.c:553-567 | Where a statement, a body, a field name or an operand is missing the errors are 3, 3, 3 and 2. |
| Parser.TokenParser.Expression | libalca/parser.c:331-551 | The in-place descent refines the grammar: its tree, cursor and sticky error are those of `Grammar.ParseAt`, about which both round trips are proved. |
| Parser.TokenParser.BinaryLevel | libalca/parser.c:344-361 | The loop that reassigns its operand refines the grammar's fold, so chains of one level associate to the left (`Grammar.LeftPrinted`), and it gives up with the error of a failed operand. |
| Parser.TokenParser.CallExpression | libalca/parser.c:301-329 | The postfix loop refines the grammar's chain, so calls, fields and indexes apply in the order written (`Grammar.PostfixPrinted`). |
| Parser.TokenParser.FinishCall | libalca/parser.c:249-272 | The argument loop collects the arguments in order, skips a comma after each, and keeps the error of a failed one (`Grammar.ArgumentsPrinted`). |
| Parser.TokenParser.RangeExpression | libalca/parser.c:174-224 | A `for` is read with its quantifier, variable, bounds and condition, or fails at the first token that is missing; a failed condition keeps its error even if the parenthesis follows (`Grammar.RangePrinted`). |
| Parser.TokenParser.Members | libalca/parser.c:622-658 | The member loop tells references from rules in place and collects both in order (`Statements.MembersPrinted`). |
| Parser.TokenParser.Span | libalca/parser.c:600-617 | A time limit is read in seconds or minutes, minutes wrapping at 32 bits, and any other unit is an error; without one the limit is 0. |
| Parser.TokenParser.Parse | libalca/parser.c:680-721 | The statement loop gives the program of `Statements.ParseProgram`, which inverts the printer, and no tree at all once an error is set. |
| Scanner.WrittenScanned | libalca/lexer.c:364-499 | Scanner inverts writer: any writable token list, written with spaces, is read back followed by one end-of-file token. |
| Scanner.SymbolScanned | libalca/lexer.c:371-470 | Two-character operators are read whole, one-character ones are not extended over a space. |
| Scanner.NumberScanned | libalca/lexer.c:233-266 | Every number below 2^32 is read back from its decimal form. |
| Lexemes.HexadecimalScanned | libalca/lexer.c:233-266 | `0x` and the digits of a number of any size in base 16, in either case, are read as that number: modulo 2^32 below 2^64, and 2^32 - 1 from there on. |
| Lexemes.DecimalScanned | libalca/lexer.c:233-266 | The same for base 10, with leading zeros. |
| Lexemes.LettersIgnored | libalca/lexer.c:233-266 | The letters A to F behind a decimal number are taken with it and do not count. |
| Scanner.EscapedRead | libalca/lexer.c:192-231 | Escaping and reading a string are inverse. |
| Scanner.RegexScanned | libalca/lexer.c:152-190 | A regex after `matches` is read back with its pattern and exactly its modifier bits. |
| Scanner.WordScanned | libalca/lexer.c:268-338 | Words are read whole, to the first character that cannot continue them, and become a keyword's token or an identifier. |
| Lexemes.SpellingScanned | libalca/lexer.c:268-488 | Every symbol and every reserved word is read from its spelling, all written out. |
| Lexemes.IdentifierScanned | libalca/lexer.c:268-338 | Letters, digits and underscores that begin with no digit are an identifier unless they are one of 21 reserved words. |
| Lexemes.SlashScanned | libalca/lexer.c:364-488 | A slash is a division, unless it stands behind `matches` or opens a comment. |
| Lexemes.OthersSkipped | libalca/lexer.c:364-488 | White space and characters that begin no token are passed over, and a lone backslash is a dot. |
| Lexemes.EscapesDefined | libalca/lexer.c:204-218 | A letter may stand behind a backslash exactly if it is one of eleven, each with the code of its character. |
| Lexemes.EscapeScanned | libalca/lexer.c:201-218 | In a string each of them adds that character, and any other letter is an error. |
| Lexemes.QuotedScanned | libalca/lexer.c:192-231 | Text between two equal quotes, of any of three kinds, is a string. |
| Lexemes.ModifierBits | libalca/lexer.c:152-190 | The letters behind a regex set the bits 0x8, 0x20, 0x400 and 0x2000, in any order and however often they are repeated. |
| Lexemes.BlockCommentEnds | libalca/lexer.c:340-360 | A comment in `/*` ends behind the first `*/`, and is an error exactly without one. |
| Lexemes.LineCommentEnd | libalca/lexer.c:340-360 | A line comment ends behind the first line end. |
| Lexemes.CommentSkipped | libalca/lexer.c:340-360 | Comments add no token. |
| Scanner.LastLineComment | libalca/lexer.c:340-360 | Every text with a line comment and no line end behind it is refused, wherever the comment begins. |
| Scanner.LineCommentEnds | libalca/lexer.c:340-360 | A line comment has an end if and only if a line end follows. |
| Scanner.OpenStringVanishes | libalca/lexer.c:192-231 | Any string that is not closed before the end of the text, and holds no line end or backslash, vanishes without an error, wherever it begins and whichever quote it has. |
| Scanner.PlainUnfinished | libalca/lexer.c:192-231 | Text without the quote, a backslash or a line end leaves a string unfinished. |
| Lexer.TextLexer.HandleString | libalca/lexer.c:192-231 | The string loop in place: escapes, the closing quote, a line end as an error, and behind `matches` the cascade to regex modifiers, as in `Scanner.EscapedRead` and `Scanner.PatternRead`. |
| Lexer.TextLexer.HandleRegex | libalca/lexer.c:152-190 | The modifier loop sets each bit once whatever is repeated; a regex that ends with the text yields no token. |
| Lexer.TextLexer.HandleInteger | libalca/lexer.c:233-266 | Decimal and hexadecimal numbers are read up to the first other character, saturated by the C library and cut to 32 bits; `0x` without digits is an error here. |
| Lexer.TextLexer.ScanOne | libalca/lexer.c:364-488 | One turn adds exactly the token of `Scanner.ScanToken`, or none, or panics; a slash opens a regex only after `matches`. |
| Lexer.TextLexer.ScanAll | libalca/lexer.c:490-499 | The scan of a whole text gives the token list of `Scanner.Scan`, which inverts the writer, with one end-of-file token. |
| Source.TextRoundTrip | libalca/parser.c:718-721 | Writing a program as text, scanning and parsing it gives the program back. |

## Left out

- Correctness.Compiled: says nothing of an evaluation that meets an identifier without code, a reference to a rule that is not an earlier one, or more rounds of a loop than were granted; `Nameless`, `Limits.SelfReferenceNeverEnds` and `Rounds.HaltsExactly` say what the machine does then. A loop variable is still in scope in its own bounds, as in the emitter.
- Soundness.Sound: assumes the conditions of `Proper`, each of which the checker does not test: no self-reference, no nested `for`, a regex only after `matches`, paths that end at their first scalar, inner indexes that are numbers and need no annotation, and the declared number of arguments. `Limits` and `Nesting` have a family of accepted bodies for each, and say how the machine then goes wrong.
- Typing.Sufficient: assumes the same conditions; what the checker accepts beyond the typing relation are the families in `Limits` and `Nesting`.
- Program.ProgramRuns: division by zero and shifts by exactly 32 are undefined in C and remain a possible outcome. Of bodies it assumes `Proper`, and that the event's module is in scope under its own name, which `Dispatch.EventInScope` derives where no imported name properly starts the event's; `Shadows` has what goes wrong otherwise. Of a rule that is not `Rooted` it says nothing if evaluation meets an identifier without code (`Nameless.PairUnderflows`).
- Grammar.ParsedPrints: commas and the word `any` are compared away, because the parser skips them without a trace.
- Names.SequencesPlaced: for several files unique names are a hypothesis; where a private name is declared twice, member and reference lead to the first rule of that name (`TwoFiles.SecondFileReadsFirst`).
- Events.ExecEvent: is specified for events whose rules all halt; `Events.EventMeans` and `Events.FullEvent` give that for a stack with room and for a full one, and between the two the contract speaks of the reference semantics only.
- Emitter.Builder.EmitLiteral: outside a `for` the program compares every identifier other than the module's with a null loop variable (libalca/bytecode.c:150), which C leaves undefined; the model takes it as no match.
- Vm.Interpreter.ExecCode: is specified for runs that halt without a fault; that accepted programs have only such runs, undefined arithmetic aside, is the theorem about programs.
- Scanner.WrittenScanned: text is characters; bytes above 127, line numbers and warnings are not modelled, and a string without characters, whose token value is a null pointer, is not writable (`Lexemes.QuotedScanned` leaves it out too).
- Lexer.TextLexer.HandleInteger: the prefix `0x` without digits, for which the program converts a null pointer, is modelled as an error.
- The type checker works on values that stand for the tree and the environment map; the annotations it writes in place are modelled as a new tree. Two inputs that make the program hang or crash (parentheses inside a dotted path, a call of a literal) are modelled as refused.
- The verdict of `ac_compiler_check_ast` is that of the last file only; the theorems ask that every file passes.
- The hash function is a parameter; `hash & mask` is the remainder by the number of buckets, a power of two; running out of memory, clearing, seeds and the settings of load factor and growth are left out.
- Regex matching and the functions of modules are parameters of the machine that may return anything; contexts are trees of typed fields, and unmarshalling event data, version checks and callbacks are left out.
- Trigger times are inputs; the clock is not modelled.
- The export format has no reader in the repository and is left out, as are file access, freeing memory, error texts and the command line.
