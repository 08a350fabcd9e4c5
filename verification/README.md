# Dalin L, modelled and proved

Dalin L is a small language with a lexer, an expression parser, a formatter, a tree-walking interpreter, a type
unifier, a latency verifier and a module resolver; a bytecode compiler and a stack machine (the DLVM); and a control
plane that schedules and stores tasks. This project models the parts of it that have a law to prove, in Dafny.

How the model is built:

- Code that updates objects in place is a class with the same fields (`Compiler`, `Vm`, `Runtime`, `DependencyGraph`,
  `ModuleResolver`, `Scanner`, `ExprParser`, `CapabilityScheduler`, `InMemoryTaskStore`, `RedisStore`); its methods are
  proved against specification functions, and the laws are lemmas about those functions.
- Machine integers are bounded: `i64` arithmetic panics or wraps according to the build profile (`Profile`), `u16`
  constant indices and array lengths and `i16` jump offsets wrap, and latency sums are `u64` additions that panic or
  wrap by the profile.
- Clocks, fresh ids, the neighbour relation of the clustering, pattern matching and the text of an error are
  parameters.
- Redis and its pub/sub channel are a key-value map and a channel that delivers to every subscriber in order; one step
  of the state machine is one publish, one local broadcast or one turn of a subscriber's loop, in any interleaving.

The files, bottom up: `Prelude`, `Chains` (paths in a graph) and `Ast` are shared. `Bytecode`, `BytecodeCompiler`,
`VirtualMachine`, `CompilerCorrectness` and `ProgramCorrectness` are the DLVM. `RuntimeValues`, `LocalPrograms`,
`Interpreter`, `CallBehaviour` and `CallerFrames` are the tree-walking interpreter, and `ProgramAgreement` sets the two
side by side. `DependencyGraph`, `ModuleResolver` and `Dbscan` are the graph algorithms. `Lexer`, `Parser`,
`RoundTrip`, `PlainTokens`, `TidyTokens`, `Formatter` and `Reassociation` are the way from text to trees and back.
`Latency` and `LatencyBounds` are the latency verifier. `Scheduler` and `SchedulerRuns`, `TaskStore` and
`RedisTaskStore`, and `EventBridge` are the control plane. `Unification` is the type unifier.

Where the code does not do what its documentation or its shape suggests, the model follows the code, a lemma says for
all inputs when the two agree, and another gives an input on which they do not:

- A conditional on the empty string takes the else-branch in the interpreter and the then-branch on the machine
  (`TruthAgreesIff`, `ConditionalAgreesIff`, `EmptyStringConditionDiffers`).
- A program that ends in a `let` answers None in the interpreter and the value on the machine (`ProgramsAgreeIff`,
  `FinalLetDiffers`). The bytecode compiler emits nothing for an `if` statement, so `if true { return 1 } return 2`
  answers 1 in the interpreter and 2 on the machine (`IfStatementIsDropped`, `IfTrueDiffers`).
- `topological_sort` compares the number of emitted nodes with the number of registered modules. A dependency that is
  not registered can hide a cycle or fake one, and a dependency listed twice fakes one (`SortSucceedsIff`,
  `RegisteredSortFailsIff`, `AcyclicSortSucceedsIff`, `HiddenCycle`, `UnregisteredFakesCycle`, `DuplicateFakesCycle`).
- The clustering marks a point that is not a core point as used when its own turn comes first, so such a point joins a
  cluster exactly if a chain of core points that begins earlier ends next to it (the last `ensures` of `Dbscan`,
  `LosesFirstPoint`).
- The formatter prints no parentheses and no escapes: exactly the canonical trees come back, and a tree that only needs
  parentheses comes back as its regrouping. A conditional in a branch of a conditional is read as a statement and comes
  back as 0. Only strings without quotes and backslashes come back, and negative literals come back as negations
  (`ComesBackIffCanonical`, `FormattingIsStable`, `NestedConditionalReadsZero`, `StringComesBackIff`,
  `NegativesComeBackNegated`).
- A block is an operand, so braces group like parentheses: without keywords, and with no parenthesis but those of calls,
  what the parser reads is the tree whose tokens it consumed exactly if it consumed no brace, and `{1 + 2} * {3}` is
  read as a tree that needs parentheses. A conditional that is lost in a branch is kept in doubled braces
  (`ExprSound`, `BracesGroup`, `BracesRegroup`, `DoubleBracesKeep`). Where every brace opens a branch, only canonical
  trees are read (`ExprShape`).
- `unify` of a variable with itself is reported as an infinite type (`UnifiableFailsIff`, `SelfUnificationFails`).
- The idempotency index joins parent and key with a slash and takes no parent for an empty one, so a submission can be
  answered with a record that is not its own: a parent with a slash can meet another parent, and an empty parent meets
  no parent (`RegisterAnswersOwnIff`, `SlashedParentsCollide`, `EmptyParentCollides`).
- The interpreter's return flag stays set after a call, so a call statement whose callee returns ends the block it
  stands in; a callee with no return in it lets the block go on (`SkippedIff`, `QuietCalleeGoesOn`, `CalleeEndsBlock`).
- A function body sees the scopes of its caller. Callers make no difference exactly if the body run on its own misses no
  name (`SameForAllIff`, `CallerDoesNotMatter`, `CallerMattersIff`, `CallerMatters`).
- In a release build the latency sums wrap, and a program that breaks its limits can pass as clean; a clean result means
  that every function keeps its limit exactly if every true cost fits `u64`, which is also when a debug build does not
  panic (`CleanMeansWithinIff`, `BuildsAgree`, `WrappedSumIsClean`).

## Model

| member | source | states |
|---|---|---|
| Prelude.QuotTruncates | dlvm/src/lib.rs:283-295 | integer division truncates toward zero: the remainder is smaller than the divisor and has the sign of the dividend |
| BytecodeCompiler.WrappedDistance | dlvm/src/compiler.rs:190-222 | the patched `i16` offset is the distance between jump and target modulo 2^16, wherever in the code the jump lies |
| BytecodeCompiler.NoPatchOverflow | dlvm/src/compiler.rs:190-222 | with at most 32767 instructions the patched offsets are exact and no `i16` subtraction overflows |
| BytecodeCompiler.Compiler.Compile | dlvm/src/compiler.rs:40-58 | a program becomes one entry function whose code ends in Return unless it is empty, whose pool holds its string constants |
| BytecodeCompiler.Compiler.CompileStmts | dlvm/src/compiler.rs:40-58 | appends the code and constants of the statements and leaves what was there before alone |
| BytecodeCompiler.Compiler.CompileExpr | dlvm/src/compiler.rs:119-252 | code and pool only grow, by exactly the code and the constants of the expression |
| BytecodeCompiler.Compiler.CompileIf | dlvm/src/compiler.rs:190-222 | emitting placeholders and patching them in place gives the same code as laying out the branches with known distances; nothing else changes |
| BytecodeCompiler.Compiler.Patch | dlvm/src/compiler.rs:203-222 | only the two placeholder jumps change |
| BytecodeCompiler.Compiler.CompileCall | dlvm/src/compiler.rs:165-189 | a builtin call replaces the call it emitted first; every other call keeps it |
| BytecodeCompiler.Compiler.AddConstant | dlvm/src/compiler.rs:82-86 | constants only grow; the index is the old length cut to 16 bits |
| VirtualMachine.Vm.Run | dlvm/src/lib.rs:217-233 | the run loop computes the machine's steps from a fresh start, and its result is the top of the stack or None |
| VirtualMachine.Vm.ExecuteOp | dlvm/src/lib.rs:236-503 | every instruction changes instruction pointer, stack, call stack and output as the step function says, or fails with its error |
| VirtualMachine.Vm.ExecuteReturn | dlvm/src/lib.rs:393-406 | Return cuts the stack to the frame's base, pushes the result and resumes the function the return address falls in, or stops |
| VirtualMachine.Vm.ExecuteMakeArray | dlvm/src/lib.rs:492-500 | popping and reversing gives the topmost values in stack order, or underflow |
| VirtualMachine.Vm.ExecuteBuiltin | dlvm/src/lib.rs:536-572 | print, println, len and assert on the top of the stack, output included; any other index is an invalid opcode |
| VirtualMachine.Vm.PopBool | dlvm/src/lib.rs:526-534 | the truth of the popped value |
| VirtualMachine.StepsAdd | dlvm/src/lib.rs:217-233 | running a steps and then b steps is running a + b steps |
| VirtualMachine.StoppedSteps | dlvm/src/lib.rs:217-233 | a stopped machine stays as it is |
| CompilerCorrectness.ExprRuns | dlvm/src/compiler.rs:119-252 | from any stack, in any surrounding code, compiled code pushes exactly the value of its expression, or fails with its error, within as many steps as it has instructions |
| CompilerCorrectness.IfRuns | dlvm/src/compiler.rs:190-222 | the same for conditionals: the patched jumps skip exactly the branch not taken |
| CompilerCorrectness.ArrayRuns | dlvm/src/compiler.rs:224-230 | the same for arrays with at most 65535 elements |
| CompilerCorrectness.IfLoaded | dlvm/src/compiler.rs:190-222 | where condition, branches and jumps lie in the code of a conditional, with exact offsets |
| ProgramCorrectness.CodeIsSelfContained | dlvm/src/compiler.rs:119-252 | compiled code is not empty, and all its jumps go forward and land inside it or just behind it |
| ProgramCorrectness.MachineNeverUnderflows | dlvm/src/lib.rs:236-503 | running compiled code from any stack, the machine never stops for a missing operand or an unknown builtin |
| ProgramCorrectness.StmtsRun | dlvm/src/compiler.rs:88-117 | from the start of any statement suffix the machine reaches the result of those statements within the length of their code |
| ProgramCorrectness.ProgramRuns | dlvm/src/lib.rs:217-233 | compile then run gives the value of the first Return, else of the last statement, else None, within as many steps as there are instructions |
| ProgramCorrectness.ReturnEnds | dlvm/src/lib.rs:393-406 | code after a top-level Return has no effect on the result |
| ProgramCorrectness.MeaningAgrees | compiler/src/runtime.rs:967-1074 | what the interpreter evaluates an expression to, the machine evaluates it to as well, as long as no condition is the empty string |
| ProgramCorrectness.BinaryAgrees | compiler/src/runtime.rs:1211-1294 | where the interpreter accepts the operands of the ten shared operators, the machine's instruction gives the same value |
| ProgramCorrectness.CompiledCodeMatchesInterpreter | dlvm/src/compiler.rs:119-229 | compiler correctness against the interpreter: its value is what the code leaves on the stack, with nothing below it touched |
| ProgramCorrectness.TruthAgreesIff | dlvm/src/lib.rs:526-534 | the two truth tests agree on a value exactly if it is not the empty string |
| ProgramCorrectness.ConditionalAgreesIff | compiler/src/runtime.rs:1296-1308 | a conditional with different branches compiles correctly exactly if its condition is not the empty string |
| ProgramCorrectness.EmptyStringConditionDiffers | compiler/src/runtime.rs:1296-1308 | a conditional on which interpreter and machine differ |
| ProgramAgreement.ProgramsAgreeIff | dlvm/src/compiler.rs:40-117 | compile then run answers what the interpreter answers, for a program that runs through, exactly if what runs of it ends in a return or an expression or leaves no value |
| ProgramAgreement.IfStatementIsDropped | dlvm/src/compiler.rs:88-117 | of an if statement with a return in it the machine runs nothing: it answers the return behind, where the interpreter answers the one inside |
| ProgramAgreement.IfTrueDiffers | dlvm/src/compiler.rs:88-117 | a program that answers 1 in the interpreter and 2 on the machine |
| ProgramAgreement.FinalLetDiffers | compiler/src/runtime.rs:768-776 | a program that ends in a let, which answers None in the interpreter and the value on the machine |
| LocalPrograms.ClosedMeansTheSame | compiler/src/runtime.rs:967-1074 | an expression without names means the same whatever the scopes and functions are |
| LocalPrograms.RunsInOrder | compiler/src/runtime.rs:750-763 | a block runs its parts in order, and statements behind a part that returns or fails have no effect |
| Interpreter.Runtime.Lookup | compiler/src/runtime.rs:280-287 | a name means its innermost binding |
| Interpreter.Runtime.EvalExpr | compiler/src/runtime.rs:967-1205 | scopes below the current one are never changed, an Ok restores height and depth, an expression without calls changes nothing and has its scoped meaning, and a call has the meaning of its callee |
| Interpreter.Runtime.ExecStmt | compiler/src/runtime.rs:766-964 | the same for statements, calls as whole operands included: the return flag, the scope stack and the depth counter implement structured returns, block scopes and nested calls |
| Interpreter.Runtime.ExecBlock | compiler/src/runtime.rs:750-763 | a block ends at its first return, or behind the first call of a function that returned; its value is that of its last statement otherwise, and only its own scope changes |
| Interpreter.Runtime.ExecWhile | compiler/src/runtime.rs:815-832 | the loop runs its body in a fresh scope per turn until the condition fails or the body returns |
| Interpreter.Runtime.ExecEach | compiler/src/runtime.rs:833-865 | the same for every element of an iterable |
| Interpreter.Runtime.SelectArm | compiler/src/runtime.rs:866-885 | the first arm that matches and whose guard holds is taken |
| Interpreter.Runtime.CallFn | compiler/src/runtime.rs:662-747 | existing scopes survive every call, an Ok restores scopes and depth in programs without try, the depth limit of 64 and the phase and governance checks refuse, and otherwise the call is a run of the body above the scopes of its caller |
| Interpreter.Runtime.CallByName | compiler/src/runtime.rs:655-659 | a call from outside: an unknown name is an error, a known one runs the function |
| CallBehaviour.CallDecides | compiler/src/runtime.rs:750-763 | what a block does with a call statement in it: only if the callee ends without a return do the statements behind run |
| CallBehaviour.SkippedIff | compiler/src/runtime.rs:750-763 | no statement behind a call statement matters, whichever it is, exactly if the callee returns or fails |
| CallBehaviour.QuietCalleeGoesOn | compiler/src/runtime.rs:750-763 | the statements behind a call of a function without a return and without calls run, unless the call fails |
| CallBehaviour.QuietNeverReturns | compiler/src/runtime.rs:750-964 | a block without a return and without calls never ends in a return, whatever loops and branches it takes |
| CallBehaviour.NamedCall | compiler/src/runtime.rs:1018-1038 | a call by a name no variable hides runs the function of that name on the evaluated arguments |
| CallBehaviour.CalleeEndsBlock | compiler/src/runtime.rs:750-763 | a run in which a callee that returns 1 ends its caller before the caller can return 2 |
| CallBehaviour.CallerDoesNotMatter | compiler/src/runtime.rs:705-712 | a body without calls that reads only supplied parameters and its own definitions means the same for every caller |
| CallerFrames.SameForAllIff | compiler/src/runtime.rs:705-712 | any body without calls that reads no function by name and is allowed to run means the same for every caller exactly if its run above no scopes does not end with an undefined name |
| CallerFrames.BlockExtends | compiler/src/runtime.rs:280-287 | a run that misses no name is the same above any scopes that define more |
| CallerFrames.BlockFinds | compiler/src/runtime.rs:280-287 | no run ends with an undefined name that a scope below defines |
| CallerFrames.CallerMattersIff | compiler/src/runtime.rs:705-712 | a straight-line body whose operands are literals, names, arrays, options and results means the same for every caller exactly if it reads only supplied parameters and its own definitions |
| CallBehaviour.CallerMatters | compiler/src/runtime.rs:705-712 | a body that answers 1 to one caller and fails for another |
| DependencyGraph.DependencyGraph.HasCycle | compiler/src/module.rs:211-220 | true exactly if the graph has a cycle, on any graph |
| DependencyGraph.DependencyGraph.HasCycleUtil | compiler/src/module.rs:222-245 | a true answer exhibits a cycle; a false one extends an order in which dependencies come first and restores the recursion stack |
| DependencyGraph.DependencyGraph.TopologicalSort | compiler/src/module.rs:247-295 | the in-place counters and queue compute the greedy order, independent of hash-map iteration, on any graph |
| DependencyGraph.DependencyGraph.EmitNode | compiler/src/module.rs:273-287 | counters never drop below zero and a node is queued exactly when its counter reaches zero |
| DependencyGraph.EmissionIsGreedy | compiler/src/module.rs:262-287 | every emitted node was the largest name among the ready ones, and no ready node is left |
| DependencyGraph.GreedyIsOrdered | compiler/src/module.rs:247-295 | on every graph each node is emitted at most once and after all its dependencies |
| DependencyGraph.EmittedIffNotStuck | compiler/src/module.rs:247-295 | a node is emitted exactly if it reaches no module that lists a dependency twice or lies on a cycle |
| DependencyGraph.EmitsAllIffAcyclic | compiler/src/module.rs:247-295 | without duplicate dependencies everything is emitted exactly if there is no cycle |
| DependencyGraph.SortFailsIffCyclic | compiler/src/module.rs:289-294 | with registered dependencies, none listed twice, the sort fails exactly on a cycle, and otherwise lists every module once behind its dependencies |
| DependencyGraph.SortSucceedsIff | compiler/src/module.rs:289-294 | on any graph the sort succeeds exactly if as many nodes are unregistered as modules reach a duplicate or a cycle |
| DependencyGraph.RegisteredSortFailsIff | compiler/src/module.rs:289-294 | with every dependency registered it fails exactly on a cycle or a dependency listed twice |
| DependencyGraph.AcyclicSortSucceedsIff | compiler/src/module.rs:289-294 | on an acyclic graph it succeeds exactly if every dependency is registered |
| DependencyGraph.HiddenCycle | compiler/src/module.rs:289-294 | a cyclic graph it sorts without complaint |
| DependencyGraph.UnregisteredFakesCycle | compiler/src/module.rs:289-294 | an acyclic graph with an unregistered dependency, reported as circular |
| DependencyGraph.DuplicateFakesCycle | compiler/src/module.rs:255-264 | an acyclic graph it reports as circular |
| Chains.LayeredIsAcyclic | compiler/src/module.rs:222-245 | an order with dependencies first excludes cycles |
| Chains.NoSinkIsCyclic | compiler/src/module.rs:262-287 | a non-empty set in which everything depends on something in the set holds a cycle |
| ModuleResolver.ModuleResolver.Resolve | compiler/src/module.rs:507-522 | a module not yet loaded is added empty, loaded ones are untouched |
| ModuleResolver.ModuleResolver.ResolveAll | compiler/src/module.rs:524-529 | terminates on any module map and lists every reachable module exactly once, the root last; sub-modules come first exactly if no cycle lies behind the root |
| ModuleResolver.ModuleResolver.ResolveRecursive | compiler/src/module.rs:531-558 | what one call adds to order, visited set and loaded modules, on cyclic maps too |
| Dbscan.Dbscan | compiler/src/j1_pattern_learning.rs:155-207 | clusters are disjoint, duplicate-free and of size at least two; two core points share one exactly if core points link them; other members touch a core member; which other points belong to a cluster, exactly |
| Dbscan.LosesFirstPoint | compiler/src/j1_pattern_learning.rs:174-177 | three points in a row of which the first, a neighbour of the only core point, ends in no cluster and the last does |
| Dbscan.Expand | compiler/src/j1_pattern_learning.rs:171-205 | the queue loop terminates and collects one linked cluster that leaves no visited core point with an unvisited neighbour |
| Dbscan.ClusterAdded | compiler/src/j1_pattern_learning.rs:171-205 | adding an expanded cluster keeps all of that |
| Lexer.Scanner.NextToken | compiler/src/lexer.rs:234-353 | one token, stamped with line and column of its first character, as a function of text and position |
| Lexer.Scanner.Advance | compiler/src/lexer.rs:96-106 | line and column are always those of the position |
| Lexer.Scanner.SkipWhitespace | compiler/src/lexer.rs:108-150 | skips exactly blanks and comments |
| Lexer.Scanner.Tokenize | compiler/src/lexer.rs:355-366 | the tokens of the whole text, or the first error |
| Lexer.LexemeAt | compiler/src/lexer.rs:234-353 | every token but Eof strictly advances, and Eof is read exactly at the end |
| Lexer.EndsWithOneEof | compiler/src/lexer.rs:355-366 | a token list ends with Eof and has no other |
| Lexer.TokensAreLexemes | compiler/src/lexer.rs:355-366 | positions aside, tokens are the lexemes of the text |
| Formatter.SpacedWordsLexBack | compiler/src/lexer.rs:152-353 | names, keywords, integers and operators separated by blanks are lexed as exactly those tokens |
| Parser.ExprParser.ParseExpression | compiler/src/parser.rs:996-1017 | the parser object computes the grammar function, pipe stages included |
| Parser.ExprParser.Binary | compiler/src/parser.rs:1031-1079 | the climbing loop computes its recursive form, leaving the position behind the operand not taken |
| Parser.ExprParser.Primary | compiler/src/parser.rs:1104-1286 | literals, names, calls, members, indexes, groups, arrays, option words, conditionals and blocks, or an error |
| Parser.ExprParser.IfOperand | compiler/src/parser.rs:1107-1111 | a conditional as an operand, whose branches have the values of their last statements |
| Parser.ExprParser.BracedOperand | compiler/src/parser.rs:1226-1234 | a block as an operand: its last statement, 0 if it has none |
| Parser.ExprParser.IfStatement | compiler/src/parser.rs:577-595 | condition, then-block and else-block, a chained else-if nested in the else-block |
| Parser.ExprParser.Block | compiler/src/parser.rs:836-847 | the statements between braces in order, or an error |
| Parser.ExprParser.Statement | compiler/src/parser.rs:129-221 | an if statement, or an expression with an optional semicolon |
| RoundTrip.DigitsReadBack | compiler/src/lexer.rs:164-193 | decimal notation reads back as the number |
| RoundTrip.ExprBack | compiler/src/parser.rs:1031-1079 | a canonical tree's tokens, with an ending token behind them, parse to the tree and stop there |
| RoundTrip.NestedConditionalIsLost | compiler/src/parser.rs:1311-1330 | a then-branch that is itself a conditional is read back as 0 |
| RoundTrip.BracedOperand | compiler/src/parser.rs:1226-1234 | the tokens of a canonical tree in braces are read as that tree, in any surrounding tokens; a conditional keeps its tree |
| RoundTrip.BracesGroup | compiler/src/parser.rs:1226-1234 | with braces around its sides every operation on canonical trees is read back, whether or not it is canonical |
| RoundTrip.DoubleBracesKeep | compiler/src/parser.rs:1288-1330 | a then-branch that is a conditional is kept in two pairs of braces, and the tree read is not canonical |
| PlainTokens.ExprSound | compiler/src/parser.rs:1031-1286 | where no keyword stands and every parenthesis belongs to a call, the parser reads a canonical tree with exactly the consumed tokens if and only if it consumes no brace |
| TidyTokens.ExprShape | compiler/src/parser.rs:577-1286 | where moreover every brace opens the branch of a conditional, the parser only builds canonical trees, conditionals included, which begin with an if only where the tokens do, and closes what it opens |
| TidyTokens.TreeFits | compiler/src/parser.rs:577-595 | in the tokens of any tree every brace opens a branch, wherever they stand |
| TidyTokens.ParsesBackIffCanonical | compiler/src/parser.rs:1019-1286 | a tree, conditionals included, survives being written without parentheses and parsed exactly if it is canonical |
| TidyTokens.CanonicalIsUnique | compiler/src/parser.rs:1019-1079 | no two canonical trees have the same tokens |
| TidyTokens.BracesRegroup | compiler/src/parser.rs:1226-1234 | tokens with braces and without keywords that are read as a tree that is not canonical |
| Formatter.FormatLexes | fmt/src/main.rs:70-99 | the text of a printable tree is lexed as the tree's tokens, wherever it stands |
| Formatter.ComesBackIffCanonical | fmt/src/main.rs:70-99 | formatting a printable tree, lexing and parsing gives it back exactly if it is canonical |
| Formatter.NestedConditionalReadsZero | fmt/src/main.rs:89-96 | the same from text to tree: printed as it is, read back with 0 in the branch |
| Formatter.FormatIsInjective | fmt/src/main.rs:70-99 | canonical trees that print alike are equal |
| Formatter.StringComesBackIff | fmt/src/main.rs:74-74 | a printed string is lexed back as itself exactly if it has no quote and no backslash |
| Formatter.NegativesComeBackNegated | fmt/src/main.rs:72-72 | a negative literal comes back as a negation, the smallest one as a negated name |
| Reassociation.ParsesToCanon | compiler/src/parser.rs:1031-1102 | the tokens of any tree none of whose branches begins with an if parse to its canonical regrouping, which is the tree itself exactly if that is canonical |
| Reassociation.CanonIsCanonical | compiler/src/parser.rs:1019-1079 | the regrouping of such a tree needs no parentheses |
| Reassociation.GroupsByLevel | compiler/src/parser.rs:1019-1029 | text with two operators is read with the tighter one's operands together, from the left at equal levels, for the six levels |
| Reassociation.FormattingIsStable | fmt/src/main.rs:70-99 | every such printed tree can be read back, and printing what was read gives the same text again |
| Latency.LatencyVerifier.Verify | compiler/src/latency.rs:47-89 | the violations are the annotated functions whose charge exceeds their limit; in a debug build a sum that leaves u64 panics |
| Latency.LatencyVerifier.AnalyzeCallChain | compiler/src/latency.rs:94-100 | the charge is the true chain cost if that fits u64; if not, a debug build panics and a release build wraps |
| Latency.ExprLatencyFaithful | compiler/src/latency.rs:144-184 | in both builds the sums of an expression are its true cost if that fits u64; a debug build panics exactly if it does not |
| Latency.StmtLatencyFaithful | compiler/src/latency.rs:103-141 | the same for statements |
| Latency.BuildsAgree | compiler/src/latency.rs:47-89 | a debug build gets through exactly if every true chain cost fits u64, and then a release build reports the same |
| LatencyBounds.CleanMeansWithinIff | compiler/src/latency.rs:47-100 | after a clean release run every function keeps its limit exactly if no true chain cost leaves u64 |
| LatencyBounds.CallsAreCharged | compiler/src/latency.rs:144-184 | a counted call costs at least what its callee declares |
| LatencyBounds.ChainLimit | compiler/src/latency.rs:94-184 | along a chain of counted calls the limit drops by at least five per call |
| LatencyBounds.CleanCallGraph | compiler/src/latency.rs:47-184 | a clean program has no counted recursion and no call chain longer than a fifth of its first limit, in a release build provided no true cost leaves u64 |
| LatencyBounds.ExprBounded | compiler/src/latency.rs:144-184 | no execution of a counted expression costs more than it is charged |
| LatencyBounds.BodyBounded | compiler/src/latency.rs:94-100 | no execution of a function costs more than it declares |
| LatencyBounds.CleanExecutions | compiler/src/latency.rs:47-89 | a clean verification bounds every execution of every function, at any call depth, in a release build under the same proviso |
| LatencyBounds.CleanFunctionsRun | compiler/src/latency.rs:47-89 | in a clean program every function has an execution within a fifth of its limit in call levels |
| LatencyBounds.WrappedSumIsClean | compiler/src/latency.rs:94-100 | a program a release build calls clean although a function calls one with a far larger limit |
| Scheduler.ChoiceCorrect | control-plane/src/scheduler.rs:180-211 | placement picks the first least-loaded node that covers the capability, is allowed and has room, and none only if there is none |
| Scheduler.ChoiceIsBest | control-plane/src/scheduler.rs:180-211 | and such a node is what it picks |
| Scheduler.CapabilityScheduler.PlaceTask | control-plane/src/scheduler.rs:180-211 | the scan with a mutable best makes that choice, takes one slot on it and moves breakers that cooled down to half-open |
| Scheduler.CapabilityScheduler.ReleaseSlot | control-plane/src/scheduler.rs:214-218 | one slot less on the first node of that name, nothing else |
| Scheduler.CapabilityScheduler.RecordFailure | control-plane/src/scheduler.rs:221-226 | one more failure on that node's breaker, opened with the current time from the threshold on |
| Scheduler.CapabilityScheduler.RecordSuccess | control-plane/src/scheduler.rs:228-232 | that node's breaker is closed with a count of zero |
| Scheduler.AddReplaces | control-plane/src/scheduler.rs:249-259 | of the added node there is exactly one afterwards, last, with its seed as load and a closed breaker; all other nodes keep their state and order |
| SchedulerRuns.BreakersFollowHistory | control-plane/src/scheduler.rs:94-147 | over every run with a monotone clock each breaker is a function of the failures and successes reported for its node |
| SchedulerRuns.AllowedIff | control-plane/src/scheduler.rs:116-133 | closed exactly below the threshold since the last success; allowed exactly then or after the cooldown |
| SchedulerRuns.NeverPickedWhileOpen | control-plane/src/scheduler.rs:180-232 | no placement picks a node whose breaker is open and still warm |
| SchedulerRuns.FailureReopens | control-plane/src/scheduler.rs:135-141 | a further failure at the threshold, half-open included, opens the breaker with a fresh timer |
| SchedulerRuns.LoadsFollowHistory | control-plane/src/scheduler.rs:180-218 | each load is its seed plus placements minus releases |
| SchedulerRuns.QuotaHolds | control-plane/src/scheduler.rs:180-218 | over every run with matched releases and seeds within quota every load stays within quota |
| SchedulerRuns.LoadIsConserved | control-plane/src/scheduler.rs:180-259 | over every matched run, additions included, the total load is the seeds plus placements minus releases, less the load that replaced nodes were carrying |
| TaskStore.InMemoryTaskStore.RegisterTask | control-plane/src/registry.rs:84-115 | a known parent and key answer with the stored record and change nothing; a new one adds record, index entry and Submitted event |
| TaskStore.InMemoryTaskStore.SetTaskStatus | control-plane/src/registry.rs:117-124 | one record changes status and one event is logged, or nothing happens |
| TaskStore.InMemoryTaskStore.CancelTask | control-plane/src/registry.rs:133-143 | the same for cancelling |
| TaskStore.InMemoryTaskStore.List | control-plane/src/registry.rs:150-170 | the scan lists each matching record once, and no other |
| TaskStore.RunIsConsistent | control-plane/src/registry.rs:84-143 | the idempotency index and the records agree in every reachable store |
| TaskStore.LogReproducesStatuses | control-plane/src/registry.rs:84-143 | replaying the event log reproduces every status |
| TaskStore.OneTaskPerKey | control-plane/src/registry.rs:84-115 | at most one record and one Submitted event per parent and key, over every run |
| TaskStore.IdemKeyInjective | control-plane/src/registry.rs:84-115 | parents that are not empty and have no slash never share an index key |
| TaskStore.RegisterAnswersOwnIff | control-plane/src/registry.rs:84-115 | over every run a submission is answered with a record of its own parent and key exactly if it is new or the first registration with its index key had that parent and key |
| TaskStore.RegisterAnswersOwn | control-plane/src/registry.rs:84-115 | so it always is in a run whose parents are neither empty nor slashed |
| TaskStore.SlashedParentsCollide | control-plane/src/registry.rs:84-115 | with slashes it may be answered with another one |
| TaskStore.EmptyParentCollides | control-plane/src/registry.rs:84-115 | an empty parent may be answered with a record that has none |
| RedisTaskStore.KeysApart | control-plane/src/store_redis.rs:102-158 | the key families of the Redis layout never meet |
| RedisTaskStore.RegistrationRepresents | control-plane/src/store_redis.rs:112-158 | the four writes of a registration keep the layout a representation of the simple store |
| RedisTaskStore.RecordUpdated | control-plane/src/store_redis.rs:160-205 | rewriting one record keeps the indexes valid |
| RedisTaskStore.RedisStore.RegisterTask | control-plane/src/store_redis.rs:112-158 | same answer and same new contents as the simple store |
| RedisTaskStore.RedisStore.SetTaskStatus | control-plane/src/store_redis.rs:160-173 | the same for a status change |
| RedisTaskStore.RedisStore.CancelTask | control-plane/src/store_redis.rs:188-205 | the same for cancelling |
| RedisTaskStore.RedisStore.ChildrenOf | control-plane/src/store_redis.rs:211-216 | the children index gives the records a scan by parent gives |
| RedisTaskStore.RedisStore.List | control-plane/src/store_redis.rs:218-230 | the same with and without a parent |
| RedisTaskStore.RedisStore.FetchMany | control-plane/src/store_redis.rs:238-246 | every id of an index has its record, fetched once |
| RedisTaskStore.RunBoth | control-plane/src/store_redis.rs:112-246 | on any run of commands, listings included, both stores give the same answers, command by command |
| EventBridge.EveryRunDelivers | control-plane/src/store_redis.rs:57-100 | in every interleaving a node's local stream and queues hold exactly the channel's events: the remote ones in order, its own each once |
| EventBridge.NeverRepublished | control-plane/src/store_redis.rs:57-87 | the channel holds what was published and nothing a subscriber sent back |
| EventBridge.AtMostOnce | control-plane/src/store_redis.rs:57-100 | each event reaches each local stream at most once, and exactly once when the queues are drained |
| EventBridge.RemoteInOrder | control-plane/src/store_redis.rs:57-87 | events of one remote origin arrive in channel order without a gap |
| Unification.Unify | compiler/src/ty.rs:213-253 | the source's recursion computes the one-binding specification |
| Unification.UnifyConcrete | compiler/src/ty.rs:227-252 | two concrete types unify exactly if they agree up to an absent error parameter, and bind nothing |
| Unification.Bind | compiler/src/ty.rs:162-174 | a binding is refused exactly for the variable itself |
| Unification.ApplyResolves | compiler/src/ty.rs:176-211 | resolving terminates in a concrete type or an unbound variable |
| Unification.ApplyIsIdempotent | compiler/src/ty.rs:176-211 | resolving twice is resolving once |
| Unification.UnifyStaysAcyclic | compiler/src/ty.rs:213-253 | the substitution stays acyclic, and a failure leaves it unchanged |
| Unification.UnifyMakesAgree | compiler/src/ty.rs:213-253 | after success both sides resolve to agreeing types |
| Unification.UnifyIsMostGeneral | compiler/src/ty.rs:213-253 | every assignment that equates the two sides satisfies the new bindings |
| Unification.UnifyKeepsBindings | compiler/src/ty.rs:213-253 | and no earlier binding is forgotten |
| Unification.UnifiableFailsIff | compiler/src/ty.rs:213-253 | a unifiable pair fails exactly if both sides resolve to the same unbound variable |
| Unification.SelfUnificationFails | compiler/src/ty.rs:162-174 | a variable does not unify with itself |

## Left out

- Floating point: no float literals, values, operators or `f32` embeddings; the clustering takes any symmetric neighbour relation instead of a cosine distance.
- Operator strings: the model has one constructor per operator the parser can produce.
- DLVM instructions the compiler never emits (float loads, index, member, spawn, send, receive, closures) are not modelled.
- DLVM meaning of pipes, calls of user functions and calls of builtins with other than one argument: the code is modelled, no agreement is claimed; names load None, `!` emits nothing and `%`, `&&`, `||`, `=` become Add, as in the code.
- BytecodeCompiler.Compiler.CompileIf: patching wraps as a release build does; a debug build panics on some code longer than 32767 instructions.
- VirtualMachine.Vm.Run: takes a step budget, because hand-written code can loop for ever; compiled code needs no more steps than instructions.
- Interpreter.Runtime.ExecWhile: follows at most `loopFuel` turns and then fails with a marked error, because a `while` can loop for ever.
- Interpreter.Runtime.ExecStmt: full meaning is stated for statements whose calls are whole operands of a let, expression or return statement, to functions of the same kind without a cognitive phase; for calls inside expressions, pipes, match expressions, spawn and try only scopes and depth.
- Interpreter.Runtime.CallFn: restored scopes and depth are stated for programs without try/catch, because errors leave scopes and depth behind and a catch keeps them.
- Interpreter logs (events, cognitive history, governance checks, time warnings), pattern matching and error texts are parameters or absent.
- ModuleResolver.ModuleResolver.Resolve: the path table and the Result wrapper, which is never an error, are absent.
- Lexer.LexemeAt: letters that are neither ASCII nor in the Chinese blocks start no name here.
- Lexer.Scanner.Tokenize: error texts and their positions are absent.
- Parser.ExprParser.Primary: `match` and float literals count as errors, and error positions are absent.
- Parser.ExprParser.Statement: the statements that begin with a keyword other than `if` count as errors.
- ProgramAgreement.ProgramsAgreeIff: excludes if, loop, match and assert statements, for which the compiler emits nothing.
- Reassociation.ParsesToCanon: trees with a branch that begins with an if are excluded, because that branch is read as statements; that they never come back is part of ComesBackIffCanonical.
- CallerFrames.CallerMattersIff: the operands are literals, names, arrays, options and results, which fail for a name only; for all other bodies SameForAllIff has the condition.
- CallerFrames.SameForAllIff: bodies that read a function by name are outside, because a variable of a caller can hide the function.
- TidyTokens.ExprShape: one-way, because a block can also be an operand of a canonical tree.
- PlainTokens.ExprSound: integers are taken in plain decimal notation without leading zeros, since other notations are not what a tree prints.
- Statements of the formatter and the parser: only expressions are modelled.
- Latency annotations: the parsed number of `@latency` is a field; positions the analyser does not count (arrays, match, assert, try) and loop turns are outside the bounded executions.
- Scheduler: `sync_nodes` rebuilds the nodes despite its comment and is a fresh start; `load_snapshot` and `place_by_spec` only wrap what is modelled.
- SchedulerRuns.LoadIsConserved: releases must match placements; duplicate submits and double cancels in the server are outside it.
- Redis: concurrent registrations (lookup and writes are separate steps), network failures, undecodable records and lag of the local broadcast buffer are absent.
- The other stores, the handshake, the two-layer effect and capability types, RPC, the language server, the command line and code generation are not modelled.
