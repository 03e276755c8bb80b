# HOSC verification

A Dafny model of the HOSC tool chain and proofs about it. It covers six parts of the repository:

- **The bootstrap language** (`bootstrap/src`): a code generator with 16-bit jumps, an 8-bit constant pool and block
  locals in absolute stack slots; the stack machine that runs its bytes; the interpreter that walks the same tree over a
  chain of scopes; the disassembler. Files `Bs*.dfy` except those of the next point.
- **Its macro rewriter**: call-by-name substitution with rewriting of the result. `BsMacros`, `BsSubstitution`,
  `BsRewriter`.
- **The standalone compiler** (`legacy/standalone-compiler`): the import resolver, the prefix rewriter and the bytecode
  file format. `HcImports`, `HcPrefixes`, `HcSegments`, `HcBytecode`.
- **The loop machine of the framework** (`framework/src`): a line parser that back-patches loop brackets into flat code,
  and the executor with one counter for each instruction. `FwParser`, `FwNesting`, `FwLoops`, `FwTraceLaws`.
- **The second front end** (`compiler/src`): lexer, recursive-descent parser with error recovery and a depth limit,
  expression printer, edit-distance table. `CpLexer`, `CpLexLaws`, `CpTexts`, `CpExprParser`, `CpLevels`, `CpCallLaws`,
  `CpStatements`, `CpStmtPrinter`, `CpPrinter`, `EditDistance`.
- **The source formatter** (`tools/hosc_cli.c`). `Formatter`.

## How it is built

Code that the repository writes as steps on a mutable structure is a class with methods here: `BsRuntime.Runtime`
(scopes), the interpreter's methods in `BsTreeWalk`, `BsCompiler.Chunk` and `BsCompiler.Compiler` (emission, placeholder
bytes, patching), `BsMachine.Machine`, `BsRewriter.Rewriter`, `HcImports.ImportContext`, `FwParser.Program` and
`FwParser.Parser`, `CpExprParser.Parser` (also used by the methods of `CpStatements`), `Formatter.Output`. Every method is
proved against a function of the old state. The theorems are then stated about those functions, so they hold of the
methods.

The main results, in order of weight:

1. **Compiler correctness** (`BsCorrectness.CompilerCorrect`, `BsCorrectness.SameTermination`,
   `BsProgramSafety.CompileAndRun`). For every program of the language both engines share that compiles within the limits
   of the format, every start and every run of the interpreter that stays where the engines agree: if the interpreter
   finishes, the machine reaches its halt instruction with exactly that output and those globals; if it fails, the machine
   reports an error after exactly that output; and the machine stops only if the interpreter does. Where the engines do
   not agree is decided by a flag of the interpreter's state (`clean`). Besides what the code generator does not
   translate, four constructs clear the flag or are kept out of the language, and for each the exact condition of
   agreement is proved: `BsValue.BinaryAgreement` for operators, `BsSimOperators.LogicAgreement` for the logical ones,
   `BsLimits.ElselessIf` for an `if` without `else`, `BsAssignments.AssignmentExactly` and
   `BsAssignments.AssignmentInStep` for assignments at every depth.
2. **What programs compute** (`BsOperatorLaws`, `BsCountingLoop.LoopCounts`, `BsCountingLoop.MachineCounts`,
   `BsForLoops.ForIsWhile`). Laws that do not mention how an operator is computed fix arithmetic, order, equality, truth
   and texts in both engines; a counting loop prints exactly its numbers in the interpreter and, compiled, in the machine.
   A for loop is its init and its while loop in a block, for conditions that can be read off before the loop starts;
   `BsForLoops.ContinueSkipsUpdate` is the loop on which the two forms part.
3. **Stack discipline** (`BsProgramSafety.StackDiscipline`), whatever the operand types: in every reachable state the
   height is what the tree says, no pop underflows, every slot read or written lies below the top. The one exception, the
   second pop of an `if` without `else`, is harmless exactly when no local is live; `BsLimits.EscapesTheStack` is a program
   on which the machine reads above its stack although the interpreter prints the expected text.
4. **Emitted code** (`BsDisassembler.ProgramSweep`, `BsDisassembler.TargetsAreStarts`, `BsOperands.OperandsDenote`): the
   linear sweep of the disassembler meets exactly the emitted instructions, every jump target is one of them, and every
   constant operand denotes, in the final pool, the value the tree has at that place. `BsCorrectness.NamesAndSlots` is the
   agreement of names and stack slots at every statement boundary.
5. **Scopes** (`BsScopeDiscipline.StmtEvolves`, `BsScopeDiscipline.BlockEvolves`): every evaluation, whatever its status,
   returns to the same scopes; a block adds or removes no enclosing name and changes no enclosing constant.
6. **Macro expansion** (`BsSubstitution.ExpansionMeans`, `BsMacros.ExpansionIsLighter`, `BsRewriter.RewritingIsFinal`): an
   expansion with literal arguments does, as an expression and as a statement, what the macro's body does in a scope that
   binds its parameters; expansion ends for registries whose macros do not call each other in a cycle, although arguments
   are copied unexpanded; what it leaves invokes no macro and is left alone when it is rewritten again.
7. **Imports** (`HcImports.FlatteningIsExact`, `HcImports.BodyIsRest`): flattening succeeds exactly when everything
   reachable exists, resolves and is free of cycles; the result holds each body once, behind those it imports; a body is
   the lines of its file in their order without imports and package lines; a failure names a file that is at fault.
8. **Loops** (`FwParser.ParseScript`, `FwLoops.FlatRefinesNested`, `FwLoops.NeverAstray`, `FwNesting.NestingIsKept`,
   `FwTraceLaws.ActionsCounted`): an accepted script is the flat form of a nesting, and the machine runs it with the trace
   of that nesting, in which an action is done as often as the product of the counts around it; the nesting is the one in
   which a brace closes the innermost block, exactly under a condition on the numbers of open loops.
9. **Printing and parsing** (`CpLevels.LeanTextComesBack`, `CpStmtPrinter.ProgramComesBack`, `CpPrinter.PrinterInProgram`,
   `CpPrinter.PrinterAndParser`): an expression comes back from the text with the fewest parentheses, so associativity and
   precedence are those of a table written independently of the parser, exactly unless it is nested beyond the parser's
   limit; every statement, function and program comes back from its tokens; the repository's own printer, used among
   declarations that decide which calls are accepted, is undone by lexer and parser.
10. **Recovery** (`CpStatements.EverySourceEnds` and the methods beside it): the parser ends on every token list, never
    passes the end of the file, restores its depth, and every accepted statement takes at least one token.
11. **Edit distance** (`EditDistance.TableIsMetric`), **refused calls** (`CpCallLaws.CallRefused`), **lexemes**
    (`CpLexLaws`), **bytecode files** (`HcBytecode.RoundTrip`, `HcBytecode.TruncatedIsRejected`), **prefixes**
    (`HcPrefixes.RewritingDeletesPrefixesOnly`, `HcPrefixes.CodeOnlyExactly`, `HcSegments.DeletesInCode`), **formatting**
    (`Formatter.FormatIsExact`, `Formatter.InkIsKept`).

## Where the code and its intent differ

The model follows the code in each case:

- An `if` without `else` pops twice on its true path (bootstrap/src/bs_codegen.c:278-292): `BsLimits.ElselessIf` and
  `BsLimits.EscapesTheStack`.
- The logical operators give a boolean in the interpreter and the deciding operand in the machine
  (bootstrap/src/bs_interpreter.c:121-148, bootstrap/src/bs_codegen.c:136-155): `BsSimOperators.LogicAgreement`.
- Assigning to an unknown name or to a constant defines the name in the interpreter's current scope; the machine
  overwrites the slot or the global it knows, constant or not, or ignores an unknown name
  (bootstrap/src/bs_interpreter.c:220-223, bootstrap/src/bs_vm.c:253-273). `BsAssignments.AssignmentExactly` says when
  this makes a difference: not for a constant of the same block, nor at top level for a constant the program declares
  there, but for an unknown name and for a constant of an enclosing scope. `BsAssignments.AssignmentParts` is a program on
  which the engines print different values; `BsLimits.GlobalAssignment` is the condition for the global scope alone.
- An import path with two slashes in a row becomes a prefix, and the prefix rewriter can then delete characters the
  scanner would have read as a comment (legacy/standalone-compiler/hosc_compiler.c:211-223 and 487-574):
  `HcPrefixes.CodeOnlyExactly` for exactly which lists of prefixes are safe, `HcPrefixes.HarmfulPrefix` for an instance.
- A closing brace belongs to a loop as long as one is open, also when a function was opened inside it
  (framework/src/hosc_framework.c:2104-2125): `FwNesting.NestingIsKept` for exactly when that changes the nesting,
  `FwParser.FunctionInsideLoop` for an instance.
- A failed assignment is not taken back before the parser recovers, so `x = 1 2;` is accepted as the expression `2`
  (compiler/src/parser.c:1287-1309): `CpStatements.AssignmentCanBeLost`, and `CpStatements.AssignmentKept` for when an
  assignment is kept.
- A function runs in the scopes of its caller, so it sees the parameters of the function that called it, but not those of
  a macro: `BsSubstitution.CalleeSeesParameter`. The update of a for loop runs behind a continue:
  `BsForLoops.ContinueSkipsUpdate`.
- Negative integer literals print as a negation, and the smallest 32-bit one does not pass the lexer
  (compiler/src/codegen.c:260-275, compiler/src/lexer.c:57-598): `CpPrinter.LiteralAgreement`.

## Model

| member | source | states |
|---|---|---|
| BsValue.BinaryAgreement | bootstrap/src/bs_interpreter.c:150-213 | the two engines' operator tables give the same value on exactly the operand types and divisors listed by EnginesAgree, for every operator and operands |
| BsOperatorLaws.MachineOnIntegers | bootstrap/src/bs_vm.c:116-228 | on integers the machine's instructions give the interpreter's results, save for quotients and for remainders by zero |
| BsOperatorLaws.SumLaws | bootstrap/src/bs_interpreter.c:171-175 | zero and one, commutativity, associativity and cancellation fix what + computes on integers |
| BsOperatorLaws.DifferenceLaws | bootstrap/src/bs_interpreter.c:171-176 | a difference added to its subtrahend gives the minuend back |
| BsOperatorLaws.ProductLaws | bootstrap/src/bs_interpreter.c:171-177 | zero, one, commutativity and distribution over the sum fix what * computes on integers |
| BsOperatorLaws.QuotientLaws | bootstrap/src/bs_interpreter.c:178-179 | quotient times divisor plus remainder is the dividend, the remainder is smaller than the divisor and has the sign of the dividend, and both are 0 for the divisor 0 |
| BsOperatorLaws.NegationLaws | bootstrap/src/bs_interpreter.c:104-113 | a number and its negation sum up to 0 |
| BsOperatorLaws.OrderLaws | bootstrap/src/bs_interpreter.c:180-182 | a is less than a + 1 with nothing between, < is irreflexive and transitive, and exactly one of a < b, a == b, b < a is true |
| BsOperatorLaws.ComparisonLaws | bootstrap/src/bs_interpreter.c:180-185 | > is the converse of <, <= and >= are the negations of > and <, != is the negation of ==, and each gives a boolean |
| BsOperatorLaws.EqualityLaws | bootstrap/src/bs_value.c:144-165 | values without floats and functions are equal exactly if they are the same, and values of different types never |
| BsOperatorLaws.TruthLaws | bootstrap/src/bs_value.c:167-182 | exactly null, false, 0, the empty string and zero floats are false, and ! turns truth around |
| BsOperatorLaws.ConcatenationLaws | bootstrap/src/bs_vm.c:116-150 | strings are joined in the order of the operands, and numbers enter with their printed text, in both engines |
| BsOperatorLaws.IntegerTexts | bootstrap/src/bs_value.c:118-142 | the printed text of an integer, read back as decimal digits, is that integer, without leading zeros and with a sign only for negative ones |
| BsOperatorLaws.ValueTexts | bootstrap/src/bs_value.c:118-142 | null, booleans and strings are printed by their names and by themselves |
| BsOperatorLaws.LogicLaws | bootstrap/src/bs_interpreter.c:121-148 | the logical and evaluates its right operand exactly if the left one is true, the logical or exactly if it is false, and the result is a boolean |
| BsOperatorLaws.MachineRefuses | bootstrap/src/bs_vm.c:116-205 | the machine refuses a binary operation if and only if it is a sum of something else than numbers and strings, a division by zero, or a remainder of anything but integers with a divisor other than 0 |
| BsScopes.AssignBindings | bootstrap/src/bs_runtime.c:62-81 | an assignment changes the value of one existing binding and adds or removes no name in any scope |
| BsScopes.PoppedBindings | bootstrap/src/bs_runtime.c:129-139 | whatever is defined in a pushed scope is gone after the pop, and enclosing names and constants are as before |
| BsScopes.DefineParamsChain | bootstrap/src/bs_interpreter.c:245-249 | binding parameters touches the innermost scope only |
| BsScopeDiscipline.ExprEvolves | bootstrap/src/bs_interpreter.c:80-303 | evaluating any expression, whatever its status, leaves as many scopes as before, each enclosing scope with the same names and unchanged constants, and only adds output |
| BsScopeDiscipline.BinaryEvolves | bootstrap/src/bs_interpreter.c:119-215 | the same for short-circuit and ordinary binary operators |
| BsScopeDiscipline.CallEvolves | bootstrap/src/bs_interpreter.c:227-298 | the same for calls of commands and of function values |
| BsScopeDiscipline.FunctionEvolves | bootstrap/src/bs_interpreter.c:260-291 | the same for a function value found by name, including a body that fails or returns |
| BsScopeDiscipline.CommandEvolves | bootstrap/src/bs_interpreter.c:230-258 | the same for native and user-defined commands |
| BsScopeDiscipline.BodyEvolves | bootstrap/src/bs_interpreter.c:260-291 | a body run in its own scope adds or removes no name outside it, whatever its status |
| BsScopeDiscipline.StmtEvolves | bootstrap/src/bs_interpreter.c:305-560 | every statement with every status (ok, returned, broken, continued, error, out of fuel) leaves the scope chain at its depth with enclosing names and constants kept |
| BsScopeDiscipline.BlockEvolves | bootstrap/src/bs_interpreter.c:328-340 | a block adds no name to an enclosing scope, removes none and keeps every enclosing constant |
| BsScopeDiscipline.IfEvolves | bootstrap/src/bs_interpreter.c:341-354 | the same invariant over both branches |
| BsScopeDiscipline.ForEvolves | bootstrap/src/bs_interpreter.c:370-412 | the same for a for loop, whose own scope is popped on every way out |
| BsScopeDiscipline.LoopEvolves | bootstrap/src/bs_interpreter.c:355-412 | the same over any number of rounds of a loop |
| BsScopeDiscipline.CustomCallEvolves | bootstrap/src/bs_interpreter.c:478-552 | the same for custom calls with and without a body |
| BsScopeDiscipline.ProgramEvolves | bootstrap/src/bs_interpreter.c:562-593 | a whole program, with its call of main, ends with the scopes it started with |
| BsInterpreterLaws.DefinedIsFound | bootstrap/src/bs_runtime.c:37-60 | a definition is found with its constness and touches no other name |
| BsInterpreterLaws.AssignedIsFound | bootstrap/src/bs_runtime.c:62-81 | assignment succeeds exactly for an innermost binding that is no constant, is found afterwards, and touches no other name |
| BsInterpreterLaws.ScopesHide | bootstrap/src/bs_runtime.c:129-139 | a new scope hides nothing, a name defined in it hides the outer one, and the pop undoes it |
| BsInterpreterLaws.PrintWrites | bootstrap/src/bs_interpreter.c:437-447 | print appends the text of its value, with a line break or without |
| BsInterpreterLaws.ParameterIsArgument | bootstrap/src/bs_interpreter.c:278-281 | inside a call the i-th parameter is the i-th argument |
| BsInterpreterLaws.ReturningCall | bootstrap/src/bs_interpreter.c:260-291 | a function whose body is "return e" has the value of e where its parameters are bound to the arguments; a failing body gives null, and what it printed stays printed |
| BsInterpreterLaws.CallsFind | bootstrap/src/bs_interpreter.c:227-298 | a call that names no command runs the function value in scope on its arguments from left to right, and is an error without one |
| BsInterpreterLaws.ForWithoutUpdate | bootstrap/src/bs_interpreter.c:370-412 | a for loop without an update is its init and a while loop in a block, for every body, continue and break included |
| BsForLoops.ForIsWhile | bootstrap/src/bs_interpreter.c:355-412 | a for loop ends exactly as its init and the while loop whose body ends with the update, with the same output and scopes, for block bodies that do not continue the loop and for conditions and updates that define no name |
| BsForLoops.ContinueSkipsUpdate | bootstrap/src/bs_interpreter.c:390-405 | with a continue the two forms differ: the for loop still updates and ends, the while form never does |
| BsForLoops.ContinuesOnly | bootstrap/src/bs_interpreter.c:305-560 | a statement ends with the status of a continue only if one stands in it outside of inner loops and functions |
| BsForLoops.Settled | bootstrap/src/bs_interpreter.c:80-303 | an expression that assigns only bound names that are no constants leaves every scope with the names it had |
| BsInterpreterLaws.LoopControl | bootstrap/src/bs_interpreter.c:355-368 | break ends a while loop normally, continue goes on with the next round, return and errors pass through, a false condition ends it |
| BsInterpreterLaws.ForCounts | bootstrap/src/bs_interpreter.c:370-412 | for (var i = k; i < n; i = i + 1) prints k, ..., n - 1 and leaves no variable behind |
| BsCountingLoop.LoopCounts | bootstrap/src/bs_interpreter.c:355-368 | while (i < n) prints and increments i: from i == k it prints exactly k, ..., n - 1, ends normally with i at n, and changes nothing else |
| BsCountingLoop.ProgramCounts | bootstrap/src/bs_interpreter.c:562-593 | the same for the whole program with its two declarations, in the interpreter |
| BsBytecode.FetchEncode | bootstrap/src/bs_vm.c:48-50 | wherever an instruction's bytes stand, the machine's decoder finds that instruction and the position behind it, 16-bit operands included |
| BsVm.StepNPlus | bootstrap/src/bs_vm.c:69-360 | runs compose: a steps and then b steps are a plus b steps |
| BsVm.StepNStops | bootstrap/src/bs_vm.c:69-360 | a machine that has stopped stays as it is for every further step |
| BsVm.PopManyAll | bootstrap/src/bs_vm.c:300-333 | popping as many values as were pushed gives the arguments in order and the stack below them |
| BsVm.DoBinary | bootstrap/src/bs_vm.c:116-228 | a binary instruction in place replaces the two topmost values by the operator's result |
| BsVm.DoJumpIfFalse | bootstrap/src/bs_vm.c:279-285 | a conditional jump in place goes to the patched target or on, and keeps its condition on the stack |
| BsVm.DoLoop | bootstrap/src/bs_vm.c:286-291 | a backward jump in place goes back by its distance from behind its operand |
| BsVm.DoNativeCommand | bootstrap/src/bs_vm.c:300-333 | a native command in place takes its arguments off the stack and pushes its result |
| BsCodegen.AddConstantGrows | bootstrap/src/bs_bytecode.c:44-61 | adding a constant keeps the pool free of duplicates, moves no earlier entry, and the returned index holds an equal constant |
| BsCodegen.ExprPool | bootstrap/src/bs_codegen.c:88-236 | over the compilation of any expression the pool only grows at its end and stays free of duplicates |
| BsCodegen.StmtPool | bootstrap/src/bs_codegen.c:238-367 | the same over any statement |
| BsCodegen.ProgramPool | bootstrap/src/bs_codegen.c:369-382 | the pool of a compiled program holds no two equal constants |
| BsSlots.LookupAt | bootstrap/src/bs_runtime.c:83-100 | the chain's answer is the innermost binding of the name |
| BsSlots.ResolveAgrees | bootstrap/src/bs_codegen.c:55-62 | a slot is found exactly when some block scope binds the name, and it holds the chain's value; otherwise the chain's answer is the global scope's |
| BsSlots.AssignAgrees | bootstrap/src/bs_codegen.c:177-192 | a permitted assignment to a local changes its slot and nothing else; to any other name the global scope and nothing else |
| BsSlots.DeclareAgrees | bootstrap/src/bs_codegen.c:242-259 | a declaration in a block, also a second one of the same name, keeps slots and names in agreement: the compiler adds a slot where the interpreter overwrites |
| BsSlots.PushAgrees | bootstrap/src/bs_codegen.c:64-66 | entering a block keeps slots and names in agreement |
| BsSlots.PopAgrees | bootstrap/src/bs_codegen.c:68-76 | leaving a block drops the slots of exactly the locals whose scope goes, and agreement is kept |
| BsLocals.LocalsAfter | bootstrap/src/bs_codegen.c:238-367 | after an exact compilation of a statement the locals are those before plus the ones it declares in its own scope |
| BsLayout.AndLayout | bootstrap/src/bs_codegen.c:136-145 | the code of the short-circuit and has its operand codes, its patched jump and its pop at the stated offsets, when the distance fits 16 bits |
| BsLayout.OrLayout | bootstrap/src/bs_codegen.c:146-155 | the same for the short-circuit or with its two jumps |
| BsLayout.IfLayout | bootstrap/src/bs_codegen.c:276-295 | the same for an if without else: the patched distance leads to the pop behind the branch |
| BsLayout.IfElseLayout | bootstrap/src/bs_codegen.c:276-295 | the same for an if with else: both patched distances lead behind the branch they skip |
| BsLayout.WhileLayout | bootstrap/src/bs_codegen.c:297-311 | the same for a while: the exit jump leads to the last pop and the backward jump to the condition |
| BsSimExpr.ConstantAt | bootstrap/src/bs_codegen.c:50-53 | while the pool has at most 256 entries an emitted constant operand still denotes the value it was emitted for in the final pool |
| BsSimExpr.SimRead | bootstrap/src/bs_codegen.c:108-122 | a compiled read pushes the value the scope chain gives, or faults where the interpreter reports an undefined name |
| BsSimExpr.SimWrite | bootstrap/src/bs_codegen.c:177-192 | a compiled assignment leaves both engines with the same names and values |
| BsSimExpr.SimUnaryOp | bootstrap/src/bs_vm.c:95-115 | the unary instructions give the interpreter's value or fault where it fails |
| BsSimOperators.SimExpr | bootstrap/src/bs_codegen.c:88-236 | the machine, run on the code of any expression from a state in step with the interpreter, pushes the interpreter's value with the same output, or faults where the interpreter fails |
| BsSimOperators.LogicAgreement | bootstrap/src/bs_interpreter.c:121-148 | the interpreter's boolean and the operand the machine leaves are equal exactly when that operand is a boolean |
| BsSimOperators.SimLogic | bootstrap/src/bs_codegen.c:136-155 | the jumps of the logical operators evaluate the right operand exactly when the left one does not decide |
| BsSimOperators.SimBinary | bootstrap/src/bs_codegen.c:131-175 | simulation of an ordinary operator with its operands in order |
| BsSimOperators.SimArgs | bootstrap/src/bs_codegen.c:193-231 | arguments end up on the stack in their order, or the first failing one stops both engines |
| BsSimOperators.SimCall | bootstrap/src/bs_codegen.c:193-231 | simulation of a call of a native command |
| BsSimStmt.SimStmt | bootstrap/src/bs_codegen.c:238-367 | from matching states a statement's code takes the machine to the state matching the interpreter's, for every normal, failing and unfinished run |
| BsSimStmt.SimStmts | bootstrap/src/bs_codegen.c:238-367 | the same for a statement list with its growing locals |
| BsSimStmt.SimBlock | bootstrap/src/bs_codegen.c:267-274 | the same for a block, whose locals are popped one by one at its end |
| BsSimStmt.SimIfElse | bootstrap/src/bs_codegen.c:276-295 | the same for an if with else |
| BsSimStmt.SimIf | bootstrap/src/bs_codegen.c:276-295 | the same for an if without else where no local is live |
| BsSimStmt.SimWhile | bootstrap/src/bs_codegen.c:297-311 | the same for a while over any number of rounds, each costing the machine at least one step |
| BsSimStmt.SimCustomCall | bootstrap/src/bs_codegen.c:345-360 | the same for a command statement, whose result is dropped |
| BsCorrectness.SimProgram | bootstrap/src/bs_codegen.c:369-382 | the machine halts, faults or runs on just as the interpreter finishes, fails or uses up its fuel, with the same output and globals |
| BsCorrectness.NamesAndSlots | bootstrap/src/bs_codegen.c:55-83 | at every statement boundary of matching runs a name has a slot exactly if a block scope binds it, and that stack slot holds the value the scope chain gives |
| BsCorrectness.CompilerCorrect | bootstrap/src/bs_codegen.c:369-382 | compiler correctness over whole programs: a finished run is matched by reaching OP_HALT with exactly that output and those globals and by no other outcome, a failed one by an error after that output, an unfinished one by as many machine steps |
| BsCorrectness.SameTermination | bootstrap/src/bs_vm.c:69-360 | the machine stops if and only if the interpreter ends for some amount of fuel |
| BsCountingLoop.ProgramCompiles | bootstrap/src/bs_codegen.c:238-382 | the counting program compiles within the format's limits from every pool with room for its constants |
| BsCountingLoop.MachineCounts | bootstrap/src/bs_vm.c:69-360 | the machine, run on the compiled counting program, halts with exactly k, ..., n - 1 printed |
| BsMachineLaws.ReturnPrintsAndHalts | bootstrap/src/bs_vm.c:348-354 | the return instruction writes the top value with a line break and halts |
| BsMachineLaws.ReturnCompiled | bootstrap/src/bs_codegen.c:323-332 | a compiled return of a boolean writes its name and halts, from anywhere in a chunk |
| BsMachineLaws.RefusedInstructions | bootstrap/src/bs_vm.c:293-299 | the call instruction and unknown opcodes are errors |
| BsMachineLaws.OtherCommands | bootstrap/src/bs_vm.c:300-333 | a command that is not native takes its arguments and gives null, an unknown one is an error |
| BsRuntime.Find | bootstrap/src/bs_runtime.c:37-60 | the walk along an entry list finds the first entry of the name or shows that it is unbound |
| BsRuntime.Runtime.Define | bootstrap/src/bs_runtime.c:37-60 | the entry list changed in place means the innermost scope with that name rebound and every other scope as before |
| BsRuntime.Runtime.Get | bootstrap/src/bs_runtime.c:83-100 | the walk outwards returns the innermost binding's value |
| BsRuntime.Runtime.AssignVar | bootstrap/src/bs_runtime.c:62-81 | the innermost binding gets the value unless it is a constant or there is none, and then nothing changes |
| BsRuntime.Runtime.PushEnv | bootstrap/src/bs_runtime.c:129-132 | a new empty innermost scope |
| BsRuntime.Runtime.PopEnv | bootstrap/src/bs_runtime.c:134-139 | the innermost scope goes, but the global one never |
| BsTreeWalk.EvalExpression | bootstrap/src/bs_interpreter.c:80-303 | the walk over the mutable runtime has the status, value and new state of the reference evaluator, about which the theorems speak |
| BsTreeWalk.EvalOperator | bootstrap/src/bs_interpreter.c:119-215 | the same for binary operators with short circuits |
| BsTreeWalk.EvalInvocation | bootstrap/src/bs_interpreter.c:227-298 | the same for calls |
| BsTreeWalk.CallWithScope | bootstrap/src/bs_interpreter.c:260-291 | the same for a body in a scope of its own |
| BsTreeWalk.EvalStatement | bootstrap/src/bs_interpreter.c:305-560 | the same for every kind of statement |
| BsTreeWalk.EvalForLoop | bootstrap/src/bs_interpreter.c:370-412 | the same for a for loop with its scope |
| BsTreeWalk.EvalRounds | bootstrap/src/bs_interpreter.c:355-412 | the same for the endless inner loop of while and for |
| BsTreeWalk.EvalCallStatement | bootstrap/src/bs_interpreter.c:478-552 | the same for custom calls |
| BsTreeWalk.EvalDefinition | bootstrap/src/bs_interpreter.c:450-477 | the same for functions, commands and macros |
| BsTreeWalk.EvalMain | bootstrap/src/bs_interpreter.c:582-592 | the call of main in a scope of its own, if the program left a function of that name |
| BsTreeWalk.EvalProgramTree | bootstrap/src/bs_interpreter.c:562-593 | the same for a program and its call of main |
| BsCompiler.Chunk.Write | bootstrap/src/bs_bytecode.c:32-42 | appends one byte to the growing array and leaves the earlier bytes and the pool alone |
| BsCompiler.Chunk.Patch | bootstrap/src/bs_codegen.c:37-41 | overwrites two earlier bytes and nothing else |
| BsCompiler.Chunk.Add | bootstrap/src/bs_bytecode.c:44-61 | returns the position of the first equal constant, appending only if there is none |
| BsCompiler.Compiler.EmitJump | bootstrap/src/bs_codegen.c:30-35 | appends the opcode and a two-byte placeholder and returns the placeholder's position |
| BsCompiler.Compiler.PatchJump | bootstrap/src/bs_codegen.c:37-41 | the placeholder becomes the distance from behind it to the end of the code, high byte first, cut to 16 bits |
| BsCompiler.Compiler.EmitLoop | bootstrap/src/bs_codegen.c:43-48 | appends a jump back to the loop's start over its own three bytes, cut to 16 bits |
| BsCompiler.Compiler.ResolveLocal | bootstrap/src/bs_codegen.c:55-62 | the newest local of the name |
| BsCompiler.Compiler.PushLocal | bootstrap/src/bs_codegen.c:78-83 | a new local at the current depth, silently refused at 256 |
| BsCompiler.Compiler.EndScope | bootstrap/src/bs_codegen.c:68-76 | drops the locals of the closed scope and emits one pop for each |
| BsCompiler.Compiler.EmitExpr | bootstrap/src/bs_codegen.c:88-236 | back-patching emission appends exactly the code and constants of the compilation function, or reports failure when it does |
| BsCompiler.Compiler.EmitBinary | bootstrap/src/bs_codegen.c:131-175 | the same for binary operators, jumps patched |
| BsCompiler.Compiler.EmitCall | bootstrap/src/bs_codegen.c:193-231 | the same for calls |
| BsCompiler.Compiler.EmitStmt | bootstrap/src/bs_codegen.c:238-367 | the same for statements, with the locals and the scope depth left behind |
| BsCompiler.Compiler.EmitBlock | bootstrap/src/bs_codegen.c:267-274 | the same for blocks |
| BsCompiler.Compiler.EmitDecl | bootstrap/src/bs_codegen.c:242-259 | the same for declarations, global or local |
| BsCompiler.Compiler.EmitIf | bootstrap/src/bs_codegen.c:276-295 | the same for conditionals, both jumps patched in place |
| BsCompiler.Compiler.EmitWhile | bootstrap/src/bs_codegen.c:297-311 | the same for loops, exit jump patched in place |
| BsCompiler.Compiler.EmitProgram | bootstrap/src/bs_codegen.c:369-382 | on a fresh chunk: code and pool of the whole program |
| BsMachine.Machine.Push | bootstrap/src/bs_vm.c:26-33 | pushes in the fixed array, and nothing at 1024 values |
| BsMachine.Machine.Pop | bootstrap/src/bs_vm.c:35-42 | pops the top, and gives null without change on an empty stack |
| BsMachine.Machine.ReadShort | bootstrap/src/bs_vm.c:48-50 | the two bytes at the instruction pointer, high byte first |
| BsMachine.Machine.Turn | bootstrap/src/bs_vm.c:75-357 | one turn of the fetch loop over the mutable machine is one step of the specification |
| BsMachine.Machine.PopArgs | bootstrap/src/bs_vm.c:300-333 | popping arguments from the last to the first yields them in call order |
| BsMachine.Machine.Run | bootstrap/src/bs_vm.c:69-360 | the loop for any number of turns is that many steps |
| BsHeights.HeightEnds | bootstrap/src/bs_codegen.c:88-236 | by the heights read off the tree an expression starts with nothing of its own on the stack and ends with one value |
| BsHeights.PointEnds | bootstrap/src/bs_codegen.c:238-367 | a statement ends at its starting height, plus one for a declaration in a scope |
| BsHeights.SizeOfExpr | bootstrap/src/bs_codegen.c:88-236 | emitted code is as long as the tree says, for every pool and every set of locals |
| BsHeights.SizeOfStmt | bootstrap/src/bs_codegen.c:238-367 | the same for statements that compile exactly |
| BsDiscipline.StepEffect | bootstrap/src/bs_vm.c:69-360 | an instruction whose needs are met stays inside the machine's arrays and changes the height by exactly what it takes and gives, whatever the operand types |
| BsDiscipline.ExprStep | bootstrap/src/bs_codegen.c:88-236 | inside an expression's code one step keeps the height the tree gives for the new position, or stops the machine |
| BsStackSafety.StmtStep | bootstrap/src/bs_codegen.c:238-367 | the same for the code of a statement |
| BsStackSafety.StmtsStep | bootstrap/src/bs_codegen.c:267-274 | the same for statement lists and the pops at the end of a block |
| BsStackSafety.IfStep | bootstrap/src/bs_codegen.c:276-295 | the same for conditionals |
| BsStackSafety.LoosePop | bootstrap/src/bs_vm.c:35-42 | the last pop of an if without else changes nothing but the position when the stack is empty |
| BsStackSafety.WhileStep | bootstrap/src/bs_codegen.c:297-311 | the same for loops, whose backward jump returns to the starting height |
| BsProgramSafety.RunKeepsDiscipline | bootstrap/src/bs_vm.c:69-360 | the stack invariant holds after any number of steps from any state that has it |
| BsProgramSafety.StackDiscipline | bootstrap/src/bs_vm.c:26-46 | in every reachable state of a compiled program: an instruction start, the height the tree gives, operands present, slots below the top, constants in range, no overflow |
| BsProgramSafety.CompileAndRun | bootstrap/src/bs_vm.c:69-360 | compiling and running on the classes never leaves an array, and a stop agrees with every interpreter run that ends where the engines agree |
| BsSweep.ExprSweep | bootstrap/src/bs_bytecode.c:89-141 | the linear sweep through an expression's code stops exactly at its instruction starts |
| BsSweep.StmtSweep | bootstrap/src/bs_bytecode.c:89-141 | the same for statements |
| BsSweep.StmtsSweep | bootstrap/src/bs_bytecode.c:89-141 | the same for statement lists |
| BsDisassembler.Disassemble | bootstrap/src/bs_bytecode.c:143-148 | lists every instruction start of the chunk once, in order, with the instruction the machine would execute there |
| BsDisassembler.ProgramSweep | bootstrap/src/bs_bytecode.c:63-148 | on a compiled program the sweep visits exactly the emitted instruction starts and ends at the chunk's end |
| BsDisassembler.TargetsAreStarts | bootstrap/src/bs_codegen.c:30-48 | every jump of a compiled program leads to an instruction start inside the chunk, and every constant operand is in range |
| BsDisassembler.ProgramsAreListable | bootstrap/src/bs_bytecode.c:143-148 | a compiled program can be disassembled without leaving the chunk or the pool |
| BsOperands.DenotesSome | bootstrap/src/bs_codegen.c:50-53 | an operand byte emitted for a value denotes it in every pool that extends the one it was emitted with |
| BsOperands.ExprUse | bootstrap/src/bs_codegen.c:88-236 | inside the code of an expression an instruction carries a constant exactly where the tree asks for one, and the operand denotes that value in the final pool |
| BsOperands.StmtUse | bootstrap/src/bs_codegen.c:238-367 | the same inside the code of a statement, with the locals live there deciding between slots and names |
| BsOperands.OperandsDenote | bootstrap/src/bs_codegen.c:369-382 | over a whole compilation every constant, global and command operand still denotes the value it was emitted for, and no other instruction carries one |
| BsLimits.ElselessIf | bootstrap/src/bs_codegen.c:276-295 | behind the taken branch of an if without else one value too many is gone, so slots and names still agree if and only if no local is live |
| BsAssignments.PermittedIsAssigned | bootstrap/src/bs_runtime.c:62-81 | the interpreter's assignment succeeds if and only if the innermost binding of the name exists and is no constant |
| BsAssignments.AssignmentExactly | bootstrap/src/bs_interpreter.c:216-226 | at every depth: from matching states, slots, names and globals match behind an assignment if and only if the innermost binding may be assigned, or the name is a constant of the same block, or the name is global at top level and no constant of the machine; otherwise no slots at all would match |
| BsAssignments.AssignmentInStep | bootstrap/src/bs_codegen.c:177-192 | the same for the compiled code: the machine arrives behind it and is in step with the interpreter under exactly that condition |
| BsAssignments.StoreRuns | bootstrap/src/bs_vm.c:253-273 | the emitted store writes the value on top into the name's slot, or into the global if it exists and is no constant, and changes nothing else |
| BsAssignments.ShadowingCode | bootstrap/src/bs_codegen.c:238-382 | the exact bytes and pool of a program that assigns to a global constant inside a block |
| BsAssignments.AssignmentParts | bootstrap/src/bs_interpreter.c:216-226 | that program compiles within the limits and ends normally in both engines, but the interpreter prints true and keeps its constant while the machine prints false |
| BsLimits.GlobalAssignment | bootstrap/src/bs_interpreter.c:216-226 | in the global scope alone: the interpreter's and the machine's globals agree after an assignment if and only if the name exists and is not a constant of the machine |
| BsLimits.EscapingCode | bootstrap/src/bs_codegen.c:238-382 | the exact bytes of a program with an if without else under a live local |
| BsLimits.EscapesTheStack | bootstrap/src/bs_vm.c:262-266 | after six steps of that program the machine reads a slot above the top of its stack |
| BsLimits.InterpreterPrints | bootstrap/src/bs_interpreter.c:562-593 | the interpreter runs the same program normally and prints its variable |
| BsMacros.SubstWeight | bootstrap/src/bs_ast_rewriter.c:19-142 | the weight of a tree with arguments substituted, copies included, is its weight with the parameters bound to the arguments' weights |
| BsMacros.ExpansionIsLighter | bootstrap/src/bs_ast_rewriter.c:144-165 | one expansion weighs exactly one less than the call, although arguments are substituted unexpanded |
| BsMacros.KidIsLighter | bootstrap/src/bs_ast_rewriter.c:225-292 | every child the rewriter descends into is lighter than its parent |
| BsMacros.RewrittenIsMacroFree | bootstrap/src/bs_ast_rewriter.c:167-292 | the rewritten tree invokes no registered macro outside definition bodies |
| BsMacros.RewrittenIsExpandable | bootstrap/src/bs_ast_rewriter.c:167-292 | the rewritten tree defines nothing and can be rewritten again |
| BsMacros.RewrittenMacroFree | bootstrap/src/bs_ast_rewriter.c:167-292 | a tree without macro invocations comes back unchanged |
| BsSubstitution.SubstNothing | bootstrap/src/bs_ast_rewriter.c:19-142 | substituting no parameters gives the same tree |
| BsSubstitution.SubstThemselves | bootstrap/src/bs_ast_rewriter.c:19-142 | a tree whose parameters are replaced by identifiers of their own names is the same tree, for every kind of node |
| BsSubstitution.UnmentionedSubst | bootstrap/src/bs_ast_rewriter.c:19-142 | a tree that does not mention the parameters comes back as it was, whatever the arguments |
| BsSubstitution.SubstitutedExpr | bootstrap/src/bs_ast_rewriter.c:19-142 | an expression with literals in place of its parameters has the status, value, output and later bindings that it has in a scope that binds the parameters to them |
| BsSubstitution.SubstitutedStmt | bootstrap/src/bs_ast_rewriter.c:19-142 | the same for every statement, loops, calls and definitions included |
| BsSubstitution.ExpansionMeans | bootstrap/src/bs_ast_rewriter.c:144-165 | the expansion of a macro call with literal arguments does what the macro's body does in a scope that binds its parameters |
| BsSubstitution.CallScope | bootstrap/src/bs_interpreter.c:278-281 | for parameters of different names that scope is the one a call makes |
| BsSubstitution.CalleeSeesParameter | bootstrap/src/bs_ast_rewriter.c:19-142 | why functions in scope must not mention the parameters: one that does reads them in the bound scope and not behind an expansion |
| BsRewriter.RewrittenIsUnique | bootstrap/src/bs_ast_rewriter.c:167-292 | the result does not depend on the ranking by which the registry was found to be acyclic |
| BsRewriter.Rewriter.Rewrite | bootstrap/src/bs_ast_rewriter.c:167-292 | the recursion over calls, expansions and children ends, with the weight as its measure, and gives the rewritten tree |
| BsRewriter.Rewriter.RewriteStatement | bootstrap/src/bs_ast_rewriter.c:167-187 | a definition is registered and kept as it is; anything else is rewritten under the registry and leaves it alone |
| BsRewriter.Rewriter.RewriteProgram | bootstrap/src/bs_ast_rewriter.c:167-292 | each statement is handled under the definitions that precede it, and the registry ends with all of them |
| BsRewriter.RewritingIsFinal | bootstrap/src/bs_ast_rewriter.c:167-292 | the result is free of macro calls and unique; it can be rewritten again, and that gives the same tree and no other |
| BsRewriter.DefinitionTakesEffect | bootstrap/src/bs_ast_rewriter.c:144-187 | behind a macro's definition its calls expand to its body with its arguments, a trailing block being the last of them; a command's definition makes a command; no other name changes |
| HcPrefixes.RewritePrefixedCalls | legacy/standalone-compiler/hosc_compiler.c:487-574 | the scanner's one pass with a mode yields the text without the marked characters |
| HcPrefixes.OnlyCodeIsDeleted | legacy/standalone-compiler/hosc_compiler.c:487-574 | with no exposed prefix in the list every character of a string literal or comment survives, in every text and from every mode of the scanner |
| HcPrefixes.WholeOccurrences | legacy/standalone-compiler/hosc_compiler.c:518-560 | every deleted character belongs to a whole deleted occurrence of a prefix and its point in front of a name |
| HcPrefixes.RewritingDeletesPrefixesOnly | legacy/standalone-compiler/hosc_compiler.c:487-574 | the output is the input minus whole prefix occurrences in ordinary code, and without prefixes it is the input |
| HcPrefixes.TwoSlashes | legacy/standalone-compiler/hosc_compiler.c:211-223 | of the prefixes an import can give, exactly those with two slashes in a row hold the start of a comment |
| HcPrefixes.ExposedDeletes | legacy/standalone-compiler/hosc_compiler.c:518-536 | for every such prefix that no earlier one shadows there is a text from which part of a comment disappears |
| HcPrefixes.CodeOnlyExactly | legacy/standalone-compiler/hosc_compiler.c:487-574 | strings and comments survive in every text if and only if each prefix with two slashes in a row is shadowed by an earlier one |
| HcPrefixes.HarmfulPrefix | legacy/standalone-compiler/hosc_compiler.c:487-574 | the instance a//b: a character of the comment in a//b.c disappears |
| HcSegments.EveryOccurrenceGoes | legacy/standalone-compiler/hosc_compiler.c:518-560 | without an exposed prefix every occurrence of a prefix that starts in ordinary code is deleted |
| HcSegments.OrdinaryIsCode | legacy/standalone-compiler/hosc_compiler.c:487-574 | in a text put together from code, string literals and comments exactly the code is ordinary, escaped quotes included |
| HcSegments.DeletesInCode | legacy/standalone-compiler/hosc_compiler.c:487-574 | in such a text characters are deleted in code alone, and every prefix that starts there is deleted |
| HcImports.LoadSound | legacy/standalone-compiler/hosc_compiler.c:576-798 | a successful load adds each file once, behind what it imports, and only files reachable from the one asked for |
| HcImports.LoadFails | legacy/standalone-compiler/hosc_compiler.c:576-719 | an error is real: a reachable file is missing, imports something unresolvable, or lies on a cycle |
| HcImports.StackIsCycle | legacy/standalone-compiler/hosc_compiler.c:602-612 | a file found on the active stack is reachable from itself by at least one import |
| HcImports.OrderedIsClosed | legacy/standalone-compiler/hosc_compiler.c:576-798 | the loaded files hold everything reachable from the entry, and none of them is on a cycle |
| HcImports.FlatteningIsExact | legacy/standalone-compiler/hosc_compiler.c:576-819 | success if and only if everything reachable exists, resolves and is acyclic; then the text is every reachable body exactly once behind those it imports; a failure names a file at fault |
| HcImports.ImportContext.Resolve | legacy/standalone-compiler/hosc_compiler.c:576-798 | the recursion with its active and loaded lists ends, restores the active list and gives what the depth-first specification says |
| HcImports.ImportContext.ResolveLines | legacy/standalone-compiler/hosc_compiler.c:656-745 | the same for the import lines of one file |
| HcImports.ImportContext.CollectPrefixes | legacy/standalone-compiler/hosc_compiler.c:720-728 | the prefixes of a file's import lines, each once |
| HcImports.Flatten | legacy/standalone-compiler/hosc_compiler.c:800-819 | the entry call succeeds exactly for mergeable projects, returns a merged text, and otherwise a justified error |
| HcImports.MarkDropped | legacy/standalone-compiler/hosc_compiler.c:652-655 | a byte order mark at the start is dropped once and nothing else is |
| HcImports.LinesOfText | legacy/standalone-compiler/hosc_compiler.c:656-666 | the lines of a text, joined, are the text, and only the last may lack its line break |
| HcImports.BodyInSplit | legacy/standalone-compiler/hosc_compiler.c:730-742 | the body of two runs of lines is the two bodies in order |
| HcImports.BodyOfOne | legacy/standalone-compiler/hosc_compiler.c:730-742 | a body line is kept as it is, an import or package line leaves nothing |
| HcImports.BodyIsRest | legacy/standalone-compiler/hosc_compiler.c:656-745 | the body is the join of exactly the lines that are neither imports nor package lines, in their order |
| HcImports.PrefixesGiven | legacy/standalone-compiler/hosc_compiler.c:720-728 | a prefix is removed if and only if some import line gives it, and each is listed once |
| HcImports.TargetsNamed | legacy/standalone-compiler/hosc_compiler.c:690-700 | a file is imported if and only if some import line names it |
| HcImports.PackageIsFirst | legacy/standalone-compiler/hosc_compiler.c:672-689 | the package line is the first of its kind |
| HcImports.PlainEntry | legacy/standalone-compiler/hosc_compiler.c:800-819 | flattening a file without directives gives its text without the byte order mark |
| HcBytecode.Write | legacy/standalone-compiler/hosc_compiler.c:860-915 | the bytes written for an instruction list: header, count and one record for each |
| HcBytecode.Read | legacy/standalone-compiler/hosc_compiler.c:940-1015 | the cursor loop accepts and returns what the format says, checking every length before it reads |
| HcBytecode.ReadBack | legacy/standalone-compiler/hosc_compiler.c:940-1015 | a record read back is its instruction, up to operands its opcode does not carry, exactly when its string is not too long |
| HcBytecode.RoundTrip | legacy/standalone-compiler/hosc_compiler.c:860-1015 | a written list is read back exactly when it keeps the limits on count and string length, whatever follows in the file; otherwise it is rejected |
| HcBytecode.TruncatedIsRejected | legacy/standalone-compiler/hosc_compiler.c:940-1015 | every proper beginning of a written file is rejected |
| HcBytecode.FourBytes | legacy/standalone-compiler/hosc_compiler.c:860-870 | lengths and counts are four bytes, the lowest first |
| HcBytecode.FileStart | legacy/standalone-compiler/hosc_compiler.c:860-870 | a file starts with "HBC1" and the number of its instructions |
| HcBytecode.IntegerBytes | legacy/standalone-compiler/hosc_compiler.c:875-886 | an integer operand is eight bytes in two's complement, the lowest first |
| HcBytecode.RecordStart | legacy/standalone-compiler/hosc_compiler.c:871-911 | a record starts with its opcode and the kind of operand the opcode carries |
| HcBytecode.KeptExactly | legacy/standalone-compiler/hosc_compiler.c:871-911 | an instruction comes back as it was if and only if it holds no null string and no operand its opcode does not carry |
| HcBytecode.AllKeptInOrder | legacy/standalone-compiler/hosc_compiler.c:860-915 | instructions come back in their order |
| FwLoops.RunFollows | framework/src/hosc_framework.c:3199-3252 | from idle counters the machine does the events of a nested stretch and leaves all counters as they were |
| FwLoops.TimesFollows | framework/src/hosc_framework.c:3199-3252 | with k rounds left the counter runs the body k times, sleeping between rounds, and is reset |
| FwLoops.ForeverFollows | framework/src/hosc_framework.c:3199-3252 | a loop without a positive count repeats its body for any number of rounds |
| FwLoops.ProgramIsLinked | framework/src/hosc_framework.c:1983-2043 | begin and end of every loop name each other and loops are properly nested |
| FwLoops.NeverAstray | framework/src/hosc_framework.c:3199-3252 | after any number of steps, whatever the counts, the invalid-target error and the branch for a counter of 0 have not been reached |
| FwLoops.FlatRefinesNested | framework/src/hosc_framework.c:2966-3260 | the flat program does the trace of the nested repetition, and ends there if every count is positive |
| FwLoops.Execute | framework/src/hosc_framework.c:2966-3260 | on a program whose loops all end the executor terminates with the trace of the nesting |
| FwLoops.EndOfRound | framework/src/hosc_framework.c:3221-3252 | the end instruction decrements, jumps back or resets as the step says |
| FwTraceLaws.RunInParts | framework/src/hosc_framework.c:2966-3260 | a list in two parts does the events of the first and, if that comes to its end, those of the second |
| FwTraceLaws.RoundsInParts | framework/src/hosc_framework.c:3199-3252 | a round is a poll and the body, rounds are separated by one pause, and none stands at either end |
| FwTraceLaws.LoopCounts | framework/src/hosc_framework.c:3199-3252 | a loop of count rounds does each event of its body count times, polls in each round and pauses between two rounds |
| FwTraceLaws.ActionsCounted | framework/src/hosc_framework.c:2966-3260 | in nested finite loops an action is done as often as the product of the counts around it says |
| FwParser.PartialClose | framework/src/hosc_framework.c:2013-2043 | adding the end and patching the begin turns an open loop into a finished one and changes nothing else |
| FwParser.Program.Add | framework/src/hosc_framework.c:325-332 | appends to the fixed array until it is full |
| FwParser.Program.Patch | framework/src/hosc_framework.c:2013-2043 | sets the target of one earlier begin |
| FwParser.Parser.LoopBegins | framework/src/hosc_framework.c:1983-2011 | opens a loop unless the stack or the program is full |
| FwParser.Parser.LoopEnds | framework/src/hosc_framework.c:2013-2043 | closes the innermost loop with mutually inverse links |
| FwParser.Parser.Take | framework/src/hosc_framework.c:2100-2125 | one line changes the program, the loop stack and the function depth as the specification's step does |
| FwParser.ParseScript | framework/src/hosc_framework.c:2045-2468 | a script is accepted exactly when its brackets close and it fits, and the program is then the flat form of the nesting its lines describe |
| FwParser.ScriptsComeBack | framework/src/hosc_framework.c:2045-2468 | every nesting within the limits on depth and length is the parse of its own script |
| FwParser.FunctionInsideLoop | framework/src/hosc_framework.c:2100-2125 | a function's closing brace inside a loop closes the loop, and the rest of the loop is left outside |
| FwNesting.ReadsAsUsual | framework/src/hosc_framework.c:2100-2125 | from every state of the parser with all functions outside the open loops, the rest of a script that opens no function in a loop is read as if each brace closed the innermost block, refusals included |
| FwNesting.NoFunctionInLoop | framework/src/hosc_framework.c:2045-2468 | every script that opens no function inside a loop is accepted or refused, and nested, as under the usual rule for braces |
| FwNesting.SameEmission | framework/src/hosc_framework.c:2100-2125 | the parser is never behind the usual rule in closing loops, and the two emit the same instructions if and only if it is not ahead at any statement or loop begin |
| FwNesting.NestingIsKept | framework/src/hosc_framework.c:2045-2468 | for every accepted script the usual rule gives a nesting too, and it is the same one if and only if both rules have the same number of loops open at every statement and loop begin |
| EditDistance.BestScript | compiler/src/parser.c:30-56 | some edit script turns one name into the other at the table's cost |
| EditDistance.NoCheaperScript | compiler/src/parser.c:30-56 | no edit script is cheaper than the table's value |
| EditDistance.Symmetric | compiler/src/parser.c:30-56 | the distance does not depend on the order of the names |
| EditDistance.ZeroIsEqual | compiler/src/parser.c:30-56 | the distance is 0 if and only if the names are equal |
| EditDistance.Triangle | compiler/src/parser.c:30-56 | a detour over a third name is never shorter |
| EditDistance.TableIsMetric | compiler/src/parser.c:30-56 | what the table gives for names cut to 60 characters is the least number of insertions, deletions and substitutions, and a metric |
| EditDistance.MinEditDistance | compiler/src/parser.c:30-56 | the nested loops over the 64 by 64 table compute that distance of the names cut to 60 characters |
| EditDistance.FindClosest | compiler/src/parser.c:64-126 | the scan gives the first among the closest words within two edits, and none exactly when no word is that close |
| EditDistance.FindClosestKeyword | compiler/src/parser.c:64-79 | the same over the keyword list |
| CpLexer.ScanString | compiler/src/lexer.c:57-598 | the string loop undoes escapes and finds the closing quote, or fails at a line break or the end |
| CpLexer.ScanRaw | compiler/src/lexer.c:57-598 | the raw-string loop unifies line breaks, undoes escaped backticks and finds the closing one |
| CpLexer.ScanNumber | compiler/src/lexer.c:57-598 | digits, fraction and exponent as far as they go; an integer that does not fit 32 bits is an error |
| CpLexer.Tokenize | compiler/src/lexer.c:57-598 | the one loop over the source gives the tokens of the text closed by an end-of-file token, or the error |
| CpLexLaws.LexWord | compiler/src/lexer.c:99-141 | an identifier-like word in front of anything that does not continue it gives one token |
| CpLexLaws.WordMeans | compiler/src/lexer.c:107-139 | the twenty reserved words give their keyword, true and false the boolean of their name, every other word a name, each if and only if |
| CpLexLaws.LexBlanks | compiler/src/lexer.c:74-83 | blanks and line breaks give no token |
| CpLexLaws.LexLineComment | compiler/src/lexer.c:493-501 | a comment of two slashes reaches to the end of its line |
| CpLexLaws.LexBlockComment | compiler/src/lexer.c:502-520 | a block comment reaches to its first end |
| CpLexLaws.LexOpenComment | compiler/src/lexer.c:514-518 | a block comment without an end is refused |
| CpLexLaws.LexLone | compiler/src/lexer.c:469-588 | each symbol of one character gives its token |
| CpLexLaws.LexComparing | compiler/src/lexer.c:397-444 | =, !, < and > take an equals sign behind them, and stand alone otherwise |
| CpLexLaws.LexPair | compiler/src/lexer.c:445-468 | ampersands and bars count in pairs, and a single one is an unknown character |
| CpLexLaws.LexSlash | compiler/src/lexer.c:521-526 | a slash that starts no comment divides |
| CpLexLaws.LexFloat | compiler/src/lexer.c:302-374 | digits with a fraction, an exponent or both give one float token with all of that text |
| CpLexLaws.EscapeMeans | compiler/src/lexer.c:244-257 | what each escape in a string stands for |
| CpLexLaws.LexOpenString | compiler/src/lexer.c:274-279 | a string literal reaches over no line break and not over the end of the text |
| CpLexLaws.LexRaw | compiler/src/lexer.c:143-225 | a raw literal keeps its characters, a backtick behind a backslash included |
| CpLexLaws.RawLineBreaks | compiler/src/lexer.c:155-195 | the three ways to break a line in a raw literal mean the same |
| CpExprParser.Parser.Advance | compiler/src/parser.c:130-134 | moves on by one token but never past the end of the file |
| CpExprParser.Parser.Expression | compiler/src/parser.c:728-733 | ends, restores the depth, and returns the tree, cursor and error flag of the specification, also on failure |
| CpExprParser.Parser.Tier | compiler/src/parser.c:541-726 | the same for each of the six tiers |
| CpExprParser.Parser.TierRest | compiler/src/parser.c:541-726 | the loop of a tier builds the left-associative tree |
| CpExprParser.Parser.Operand | compiler/src/parser.c:521-539 | the same for unary operators |
| CpExprParser.Parser.Primary | compiler/src/parser.c:390-519 | the same for literals, names, calls and parentheses |
| CpExprParser.Parser.CallHere | compiler/src/parser.c:423-487 | the same for a call behind its parenthesis, with the refusal of misspelled names |
| CpExprParser.Parser.PathHere | compiler/src/parser.c:300-330 | a dotted path, or the place where it breaks off |
| CpExprParser.Parser.Accepts | compiler/src/parser.c:430-473 | a name is refused exactly when it is unknown and looks like a misspelling of a known one |
| CpExprParser.Parser.Config | compiler/src/parser.c:339-388 | the properties of audio.play become its one argument, the source |
| CpExprParser.Parser.Arguments | compiler/src/parser.c:478-484 | the argument loop gives the arguments in order or stops at the first that fails |
| CpLevels.TierIsLevel | compiler/src/parser.c:541-726 | each tier of the parser takes exactly the operators of one level of an independent table |
| CpLevels.ParseLink | compiler/src/parser.c:585-604 | operators of one level are taken from left to right, each with a tighter right operand |
| CpLevels.ParseLean | compiler/src/parser.c:541-726 | every printable expression comes back from the tokens with no parentheses but those its operators need, exactly unless it is nested beyond the limit |
| CpLevels.ParseLeanExpr | compiler/src/parser.c:728-733 | the same for a whole expression in front of any token that does not continue it, so that associativity and precedence are fixed |
| CpLevels.ParseLeanArgs | compiler/src/parser.c:478-484 | the same for argument lists |
| CpLevels.LexWritten | compiler/src/lexer.c:57-598 | the text of such an expression lexes to its tokens in front of anything that may follow |
| CpLevels.LeanTextComesBack | compiler/src/parser.c:541-733 | writing an expression with the fewest parentheses, lexing and parsing gives it back, exactly unless it is nested beyond the limit |
| CpCallLaws.LiteralParsed | compiler/src/parser.c:390-422 | a literal of any kind is an expression by itself, floats and booleans included |
| CpCallLaws.DeclaredFound | compiler/src/parser.c:81-126 | a name counts as declared if and only if func stands in front of it somewhere in the tokens |
| CpCallLaws.ClosestIsGood | compiler/src/parser.c:64-126 | the scan keeps the first among the closest words within two edits |
| CpCallLaws.CallRefused | compiler/src/parser.c:430-473 | a call is refused if and only if its name has three letters or more, is neither builtin nor declared, and the first closest known word of three letters or more is within the edits allowed for its length |
| CpCallLaws.ConfigParsed | compiler/src/parser.c:339-388 | whatever properties audio.play is given, its last source is the argument, and without one the call is refused |
| CpPrinter.LexPrinted | compiler/src/codegen.c:260-387 | lexing a printed expression gives its tokens in front of whatever follows |
| CpPrinter.StringBodyOf | compiler/src/codegen.c:183-211 | the lexer undoes the printer's escapes on every string |
| CpPrinter.LexNumber | compiler/src/lexer.c:57-598 | printed digits lex back to their number |
| CpPrinter.ParsePrinted | compiler/src/parser.c:541-733 | parsing the tokens of a printed expression gives the expression and stops right behind it, exactly if it is not nested too deeply |
| CpTexts.LexAppended | compiler/src/lexer.c:57-598 | the tokens of a text behind which a cut is safe, followed by those of any other text, are the tokens of both together |
| CpTexts.NoEndInside | compiler/src/lexer.c:57-598 | no text contains the token that marks its end |
| CpPrinter.PrinterInProgram | compiler/src/codegen.c:260-387 | an expression printed into a program, at any depth and among any declarations, comes back from the tokens of the whole text and the parser stops right behind it; the surrounding tokens are untouched; only nesting beyond the limit is refused |
| CpPrinter.PrinterAndParser | compiler/src/codegen.c:260-387 | the same for an expression that is the whole text: all of it is used |
| CpPrinter.LiteralAgreement | compiler/src/codegen.c:260-275 | a 32-bit integer literal comes back as itself if and only if it is not negative |
| CpStatements.StatementAt | compiler/src/parser.c:1253-1258 | every statement accepted before the end of the file takes at least one token, the cursor stays inside the list, an error stays set, and statements nest at most 256 deep |
| CpStatements.InnerAt | compiler/src/parser.c:1260-1309 | the same invariants for the dispatch, at the depth one higher |
| CpStatements.StatementsAt | compiler/src/parser.c:1321-1332 | the statement loop stops only where a block or case ends, and what it collects nests within the limit |
| CpStatements.BlockAt | compiler/src/parser.c:1311-1344 | a block that is refused always has an error message |
| CpStatements.DeclarationsAt | compiler/src/parser.c:1517-1531 | an accepted declaration list ends at the end of the file and has no more members than there are tokens |
| CpStatements.SkipsToFirstStop | compiler/src/parser.c:243-264 | skipping takes at least one token and stops behind the first semicolon, even one in parentheses, or before the first closing brace or statement start outside parentheses |
| CpStatements.AssignmentKept | compiler/src/parser.c:1287-1309 | an assignment becomes a statement if and only if its expression parses and a statement may end behind it; otherwise parsing goes on where it failed |
| CpStatements.AssignmentCanBeLost | compiler/src/parser.c:1287-1309 | an accepted source text without error message from which an assignment has disappeared |
| CpStatements.TooManyBraces | compiler/src/parser.c:185-199 | more opening braces in a row than the depth limit leaves room for are refused with an error |
| CpStatements.DeclarationsInTurn | compiler/src/parser.c:1517-1531 | accepted declarations stand one behind the other from where parsing starts to the end of the file: each starts where the one before stopped and stops strictly further on |
| CpStatements.EverySourceEnds | compiler/src/parser.c:1507-1576 | for every text the lexer accepts parsing ends, and the declarations of an accepted program were read one behind the other, each from at least one token, up to the end of the file, and nest within the limit |
| CpStatements.ConsumeEnd | compiler/src/parser.c:236-241 | a statement may end at a semicolon, which is taken, or before a brace, the end or the start of another |
| CpStatements.SkipStatement | compiler/src/parser.c:243-264 | the loop with its parenthesis count stops where the specification says |
| CpStatements.Binding | compiler/src/parser.c:739-801 | declarations and assignments, with cursor and error flag also on failure |
| CpStatements.PrintStatement | compiler/src/parser.c:803-839 | print with or without parentheses; every failure sets the error |
| CpStatements.ForHead | compiler/src/parser.c:1066-1147 | the head of a for loop in both its forms; every failure sets the error |
| CpStatements.Statement | compiler/src/parser.c:1253-1258 | ends on every token list, restores the depth on every way out and gives the specified tree, cursor and error flag |
| CpStatements.StatementInside | compiler/src/parser.c:1260-1309 | the same for the dispatch over the first token |
| CpStatements.Otherwise | compiler/src/parser.c:1287-1309 | the same for assignment, expression, keyword hint and skipping, with the cursor restored only where the code does |
| CpStatements.BlockStatement | compiler/src/parser.c:1311-1344 | the same for blocks |
| CpStatements.IfStatement | compiler/src/parser.c:980-1025 | the same for conditionals and else-if chains |
| CpStatements.WhileStatement | compiler/src/parser.c:1027-1051 | the same for while |
| CpStatements.ForStatement | compiler/src/parser.c:1053-1161 | the same for for |
| CpStatements.SwitchStatement | compiler/src/parser.c:932-978 | the same for switch |
| CpStatements.SwitchCases | compiler/src/parser.c:941-971 | the same for the loop over cases and their statements |
| CpStatements.FunctionDeclaration | compiler/src/parser.c:1346-1444 | the same for functions and their parameters |
| CpStatements.Declarations | compiler/src/parser.c:1517-1531 | the loop of the program ends at the end of the file or at the first refused declaration |
| CpStatements.ParseProgram | compiler/src/parser.c:1507-1535 | a new parser run on any token list ends with the specified program or refusal |
| CpStmtPrinter.StatementComesBack | compiler/src/parser.c:1253-1309 | every writable statement comes back from its tokens as the same tree, with the cursor right behind it, if its nesting fits the limit |
| CpStmtPrinter.StatementsComeBack | compiler/src/parser.c:1321-1332 | statements one behind the other come back in their order |
| CpStmtPrinter.SimpleComesBack | compiler/src/parser.c:1260-1309 | let, var, assignment, print, return, text, break, continue, import, window and expression statements come back |
| CpStmtPrinter.BlockComesBack | compiler/src/parser.c:1311-1344 | blocks come back |
| CpStmtPrinter.IfComesBack | compiler/src/parser.c:980-1025 | the first block is the one for a true condition and the part behind else the other, else-if chains included |
| CpStmtPrinter.WhileComesBack | compiler/src/parser.c:1027-1051 | while loops come back |
| CpStmtPrinter.ForComesBack | compiler/src/parser.c:1053-1161 | init, condition, update and body of a for loop come back in their places, each present or missing |
| CpStmtPrinter.InitComesBack | compiler/src/parser.c:1066-1110 | the init of a for loop: let, var, assignment, expression or nothing |
| CpStmtPrinter.UpdateComesBack | compiler/src/parser.c:1112-1147 | its update: assignment, expression or nothing |
| CpStmtPrinter.SwitchComesBack | compiler/src/parser.c:932-978 | switch comes back with its subject and its cases |
| CpStmtPrinter.CasesComeBack | compiler/src/parser.c:941-971 | cases and default come back in their order, each with its own statements |
| CpStmtPrinter.ParamsComeBack | compiler/src/parser.c:1346-1444 | parameters come back in their order |
| CpStmtPrinter.FunctionComesBack | compiler/src/parser.c:1346-1444 | a function comes back with its name, parameters and body |
| CpStmtPrinter.DeclarationsComeBack | compiler/src/parser.c:1517-1531 | declarations come back in their order up to the end of file |
| CpStmtPrinter.ProgramComesBack | compiler/src/parser.c:1507-1535 | a whole program comes back from its tokens: package and declarations, without an error |
| CpStmtPrinter.ConstIsLet | compiler/src/parser.c:1260-1286 | const binds like let |
| CpStmtPrinter.BarePrint | compiler/src/parser.c:803-839 | print without parentheses prints the same |
| CpStmtPrinter.PrintsText | compiler/src/parser.c:841-892 | prints takes a string in brackets |
| CpStmtPrinter.ForCondition | compiler/src/parser.c:1053-1161 | a for loop may have a condition alone, without parentheses |
| Formatter.FormattedIsClean | tools/hosc_cli.c:137-186 | the result has no tab, no carriage return and no blank before a line break |
| Formatter.CleanIsUnchanged | tools/hosc_cli.c:137-186 | a text in normal form comes back as it is |
| Formatter.FormatIsExact | tools/hosc_cli.c:137-186 | the result always has the normal form, formatting is idempotent, and a text is unchanged if and only if it has the normal form |
| Formatter.LineByLine | tools/hosc_cli.c:146-158 | a line behind any of the three line breaks is expanded, stripped and ended by a newline, and the next line starts behind its break |
| Formatter.ExpandOne | tools/hosc_cli.c:159-167 | a tab is four blanks wherever it stands, any other character itself |
| Formatter.ExpandAppends | tools/hosc_cli.c:146-173 | characters are expanded one by one, in order |
| Formatter.StripsBlanks | tools/hosc_cli.c:148-151 | only blanks at the end of a line are stripped, and all of them |
| Formatter.InkIsKept | tools/hosc_cli.c:137-186 | the characters that can be seen stay, in their order |
| Formatter.EnsureCapacity | tools/hosc_cli.c:124-135 | the buffer is large enough and keeps what was written |
| Formatter.Output.Put | tools/hosc_cli.c:137-186 | one character written inside the ensured capacity, and nothing written before it changes |
| Formatter.Output.PutTab | tools/hosc_cli.c:159-167 | a tab becomes four blanks within the ensured capacity |
| Formatter.Output.DropBlanks | tools/hosc_cli.c:148-151 | trailing blanks of the current line go, and never those of an earlier one |
| Formatter.Output.EndLine | tools/hosc_cli.c:148-158 | the current line, stripped and ended, joins the finished ones |
| Formatter.FormatSource | tools/hosc_cli.c:137-186 | the one pass over the input with its growing buffer produces the formatted text |
| Formatter.CheckFormatted | tools/hosc_cli.c:303-312 | a change is reported if and only if the text does not have the normal form |

## Left out

- Floating point: sums, comparisons, conversions and texts of floats, and the division that the machine carries out on doubles, are uninterpreted functions shared by both engines (`Host` in `BsValue`); floats in lexer and printer keep their text.
- Integers are mathematical: signed overflow of the C code is not modelled.
- Division in the simulation: the machine divides through doubles and reports an error on zero, the interpreter divides integers and gives 0; `BsValue.BinaryAgreement` states the operands on which they agree.
- Functions, user-defined commands, for, break, continue and return are outside the compiler theorem, because the code generator emits nothing for most of them; they are inside the scope theorems.
- BsCorrectness.CompilerCorrect: stated for runs that stay where the engines agree and for programs that compile within the format's limits; the lemmas of `BsAssignments`, `BsLimits`, `BsValue` and `BsSimOperators` say where agreement ends. Float literals are outside without such a condition, and so is a print node with both or neither of its flags, which the parser never builds (bootstrap/src/bs_parser.c:494).
- BsCompiler.Compiler.EmitExpr: after a refused expression the code already emitted is not described, as after every other refused compilation.
- Native commands are an uninterpreted function of their name and arguments, without effect on scopes.
- Line numbers of chunks, and line and column numbers of tokens and errors.
- Texts of error messages: the parser's message is a flag, the other components name the kind of error.
- The parser of the bootstrap language: its block loop does not stop on errors, so there is no termination to prove.
- Definitions inside macro bodies or arguments: expansion works under a fixed registry, and a definition is registered when it stands on its own in the program.
- BsRewriter.Rewriter.Rewrite: a tree is rebuilt from its rewritten children where the C code replaces them in place.
- Registries whose macros call each other in a cycle, and calls with too few arguments: expansion of the former need not end, and the latter read missing arguments.
- The text of import lines: which lines are imports, what they resolve to and which prefix they give is a parameter of the project (`HcImports.Project`), as are the files that exist; reading, path joining and path normalisation are not modelled.
- The virtual machine that executes the standalone compiler's bytecode files, and its opcodes' meaning.
- The syntax of the framework's other statements: a line is a statement, a loop begin, a function begin, a closing brace or malformed.
- Quit events, polling and drawing in the framework's executor: the trace records statements and sleeps.
- The C back end beyond expressions, with its types of variables and buffers.
- CpLexer.ScanNumber: the source refuses a float literal for which strtod reports ERANGE (compiler/src/lexer.c:357-358); the model accepts it, because floats keep their text.
- CpLexer.Tokenize: accepts the same float literals out of range that the source refuses.
- CpPrinter.PrinterInProgram: floats and boolean literals are excluded, as in PrinterAndParser; the text in front of the expression ends with a blank, a bracket, a comma, a semicolon or a colon that no comment or literal contains.
- CpPrinter.PrinterAndParser: floats and boolean literals are excluded; the printer writes booleans as 0 and 1, which come back as numbers.
- BsForLoops.ForIsWhile: the condition is one that suffices, not the exact one: the body is a block without a continue for this loop, and names assigned by condition and update are bound and no constants when the loop starts. Loops without an update have no such condition (`BsInterpreterLaws.ForWithoutUpdate`).
- BsSubstitution.ExpansionMeans: arguments are literals, and neither the body's calls and definitions nor the functions and commands in scope mention the parameters, because a function reads the names of its caller's scopes (`BsSubstitution.CalleeSeesParameter`).
- CpStmtPrinter.StatementComesBack: statements are written as tokens, not as text; bodies and branches are blocks or, behind else, another if, as the grammar asks.
- CpLevels.LeanTextComesBack: floats and boolean literals are excluded, as in PrinterAndParser; `CpCallLaws.LiteralParsed` and `CpLexLaws` have them one by one.
- BsMachineLaws.ReturnCompiled: stated for a boolean; a return is outside the compiler theorem, since the machine prints its value and halts.
- Arrays of tokens without an end-of-file token: the lexer always writes one.
- Memory: allocation failures, ownership, clone and free.
- Windows, audio, themes, command lines, the interactive shell, editors and build scripts.
