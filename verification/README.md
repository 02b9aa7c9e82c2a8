# A verified model of the NovaLang toolchain

NovaLang is a small expression language with a compiler written in C++ and, beside it, an incremental garbage
collector. This project models both in Dafny and proves what they are for. It is one module per component and is
checked by `dafny verify dfyconfig.toml`.

The pattern is the same everywhere. A component that changes things step by step is a class whose methods keep the
loops, cursors, counters and in-place updates of the original. Each method is proved to compute a function of the old
state, and the properties are lemmas about those functions.

**Garbage collector** (`Gc*.dfy`). Memory is a map from addresses to headers with mark bits and `next` links
(`GcCollector`); `GcModel` is the same collector on values. An undisturbed cycle frees and finalizes exactly the
unreachable objects whatever its step budgets (`GcCycle`), takes an exactly known number of steps (`GcLatency`), and
determines exactly which allocation starts the next one (`GcThreshold`). With a mutator between the steps no reachable
object is lost on any permitted run (`GcRuns`). The collector has no write barrier: which stores and root changes can lose
an object is stated exactly, for a program that goes on by dropping pointers and for one that goes on in any permitted way
(`GcBarrier`, `GcLostObjects`, `GcForbidden`). It allocates unmarked objects at the head of the list: which of them their
own allocation frees is stated exactly too (`GcAllocation`).

**Lowering and optimiser** (`Syntax`, `Ir`, `Lowering*.dfy`, `Optimizer`, `OptimizerStore`, `LoweredTrees`). The language
has no assignment, so a meaning is a value together with the history of calls, answered by an oracle that sees that
history; loops have fuel, and running out of it is an observation. Lowering keeps meanings and types; the optimiser keeps
meanings wherever the matches it collapses have silent scrutinees, which is exactly when collapsing is right; and the
in-place optimiser produces that same tree, frees every other node exactly once and uses none afterwards.

**LLVM backend** (`Llvm*.dfy`, `LoweredTyping`, `Compiler`). Output is instructions instead of text, run by a machine
that checks phi predecessors. The emitted function returns, gets stuck or runs forever exactly when the tree is done, goes
wrong or diverges. A phi names the labels of its branches, while LLVM checks before anything runs that it names the
blocks that branch to its own: that is so if and only if the branches of every `if` with a value, at any depth and whether
they run or not, open no block. Blocks, names and dominance are always as LLVM demands (`LlvmPhis`, `LlvmDominance`), and
so are the types of all operands where the tree is well typed (`LlvmTypes`). `Compiler.ProgramIsSoundIff` says this of
whole programs, and `Compiler.CompilerIsRightOnLowered` puts lowering, optimiser and backend together.

**Lexer, formatter, parser** (`Lexer*.dfy`, `Formatter*.dfy`, `Parser*.dfy`, `Printer`, `PrintedSpelling`,
`Program*.dfy`, `AcceptedTokens`). Tokens tile the source, and each keyword and mark is read from its one spelling.
`Printer` is the grammar written the other way round, with all that can be written in more ways than one left to a style;
the parser takes tokens for a tree if and only if they are a way of writing it (`ParserGrammar`). The layout of formatted
text follows from the tokens alone (`FormatterLayout`); lexing it again keeps the tokens exactly under two conditions on
them. Since the parser accepts neither of the two token patterns that formatting breaks, the formatter keeps all tokens and
the program on every source it is run on; comments are lost, because the lexer skips them.

**Semantic tables and effects** (`Expr*.dfy`, `Exhaustiveness`, `Effect*.dfy`, `CleanPrograms`, `RunMeaning`, `SelfCalls`).
The open-addressing index behaves as a map for any hash function; the exhaustiveness warning is exact; a program has no
diagnostics exactly when every name is bound and every callee fits where it stands. The single-pass effect analysis stores
the least solution of the program's effect equations, which is what the declaration leads to through calls, and no run
performs more than it allows, where runs have the values that lowering is proved to keep. What it records about each node
is right in that node's scope; inside a recursive function, and for a function with a parenthesised body, it is stated
exactly when that is the final answer.

Where the code does not do what it is meant to, the model keeps the code, shows a concrete input, and proves the exact
condition under which it is right. Where the code and `nova.g4` or a comment disagree, the model follows the code: the
grammar asks for at least one arm in a match and has no payloads in variant lists, while the parser takes a match without
arms and variants with payloads; `NOVA_TOKEN_ARROW_FN` is called an alias of the arrow (`include/nova/token.h`), but the
parser accepts only `->` behind a lambda's parameters. The formatter writes two blanks behind a comma, an arrow and
`else` where a word follows, since it puts one behind these and another in front of the word (tools/nova_fmt.cpp:80-106).

## Model

| member | source | states |
|---|---|---|
| `GcMarking.MarkAllEffect` | src/gc.cpp:271-287 | reporting pointers marks exactly the non-null ones and pushes exactly those that were not marked yet, each once |
| `GcMarking.ScanEffect` | src/gc.cpp:113-124 | after the roots are scanned exactly their non-null targets are marked, each is on the mark stack once, and the tri-colour invariant holds |
| `GcMarking.TraceOneEffect` | src/gc.cpp:126-135 | tracing the top of the stack keeps the tri-colour invariant, marks exactly its targets besides what was marked, and makes one more object black |
| `GcMarking.TraceEffect` | src/gc.cpp:126-135 | a budget blackens at most so many objects, and exactly so many if grey ones are left; the tri-colour invariant survives any budget |
| `GcMarking.TraceStaysWithin` | src/gc.cpp:126-135 | tracing never marks outside a set that its own pointers do not leave, so nothing unreachable is marked |
| `GcMarking.EmptyStackMarksAllReachable` | src/gc.cpp:126-135 | when the mark stack is empty every object reachable from the roots is marked |
| `GcSweeping.SweepEffect` | src/gc.cpp:137-159 | sweeping a budget judges exactly that many list elements: marked ones stay in order and lose their mark, the others leave the list, the heap and the counters, are logged as freed, and finalized if they have a finalizer |
| `GcSweeping.SweepTwice` | src/gc.cpp:137-159 | stopping at the cursor and going on later equals sweeping in one go |
| `GcCycle.FirstStep` | src/gc.cpp:289-329 | from idle, one step leaves the cycle marking with so many objects traced, sweeping with so many judged, or finished |
| `GcCycle.MarkingStep` | src/gc.cpp:289-329 | the same for a step taken while marking, at every distance from the end |
| `GcCycle.SweepingStep` | src/gc.cpp:289-329 | the same for a step taken while sweeping |
| `GcCycle.CycleResult` | src/gc.cpp:289-329 | whatever the budgets, a run of steps that ends a cycle ends in the one state Finished, and enough steps always end it |
| `GcCycle.FinishedState` | src/gc.cpp:104-329 | the finished cycle leaves exactly the reachable objects, in order and unmarked; every other object was freed once and finalized once if it can be; counters and live bytes agree; the new threshold is live bytes plus growth percent of them, rounded down, or 1024, and 1024 exactly when 100*live + live*growth < 102500; marked plus swept is the starting count |
| `GcCycle.BudgetsDoNotMatter` | src/gc.cpp:289-339 | two undisturbed cycles with any two budget sequences end in the same state |
| `GcLatency.ExactLatency` | src/gc.cpp:289-329 | with n objects, r reachable and budget b a cycle takes exactly max(1, ceil(r/t)) - 1 + max(1, ceil(n/s)) steps, not one less, where t is b/2 rounded down and s is b - t, both at least one |
| `GcThreshold.NextStepIsExact` | src/gc.cpp:217-245 | behind a cycle that left so many live bytes, allocations run no step until live and added bytes exceed 1024 and a hundred times the added ones exceed live*growth, and the first that gets there runs one |
| `GcThreshold.DefaultThreshold` | src/gc.cpp:161-195 | without a configuration the first threshold is 65536, and whatever was done before, a cycle sets 1024 below 410 live bytes and two and a half times the live bytes from there on |
| `GcRuns.RemoveRootCounts` | src/gc.cpp:258-269 | removing a root takes one entry for the slot out of the table, if there is one, and no other |
| `GcLatency.WhileMarking` | src/gc.cpp:289-309 | after k undisturbed steps of marking exactly k times the trace budget has been traced |
| `GcLatency.WhileSweeping` | src/gc.cpp:302-313 | after j undisturbed steps of sweeping exactly j times the sweep budget has been judged |
| `GcRuns.StepIsSafe` | src/gc.cpp:289-329 | a step, at any point of a cycle and after any permitted mutation, keeps the safety invariant |
| `GcRuns.LinkIsSafe` | src/gc.cpp:231-238 | linking a fresh object in at the head keeps the invariant at any point of a cycle, also under the cursor |
| `GcRuns.LinkSpares` | src/gc.cpp:231-238 | the fresh object is spared by the running cycle exactly when the sweep cursor is not still at the head |
| `GcRuns.ReachableIsSpared` | src/gc.cpp:126-159 | in a safe state every object reachable from the roots is in the list and will not be freed by this cycle |
| `GcRuns.ActionIsSafe` | src/gc.cpp:217-329 | every permitted action of the program (step, allocation, root or field change) keeps the invariant |
| `GcRuns.RunIsSafe` | src/gc.cpp:217-339 | the invariant holds after every permitted run |
| `GcRuns.NoReachableObjectIsLost` | src/gc.cpp:161-339 | after every permitted run from a new collector the counters equal the list's length and byte sum, the list has no duplicates, and every reachable object is in it |
| `GcAllocation.FreshSurvives` | src/gc.cpp:217-245 | the object nova_gc_alloc returns is still allocated if and only if no step ran, or the cursor had left the head, or the step did not reach the end of marking |
| `GcAllocation.FreshIsSpared` | src/gc.cpp:217-245 | exactly when the running cycle will not free the returned object either |
| `GcAllocation.EndsMarkingIff` | src/gc.cpp:289-309 | at any point, whatever the mutator did, the step of an allocation ends marking exactly when the objects on the mark stack and the unmarked ones they lead to are at most 64 |
| `GcAllocation.EndsMarkingFromRest` | src/gc.cpp:289-309 | from rest that is: at most 64 reachable objects |
| `GcAllocation.EndsMarkingInCycle` | src/gc.cpp:289-309 | in an undisturbed cycle with d objects traced: at most d + 64 reachable objects |
| `GcAllocation.FreshIsFreed` | src/gc.cpp:231-242 | concrete failure: under the default threshold of 65536 an allocation of 70000 bytes is swept by its own step, before it is returned |
| `GcBarrier.StepKeepsApart` | src/gc.cpp:289-329 | a step commutes with storing a pointer into an object that neither the roots nor the mark stack lead to, and keeps it so |
| `GcBarrier.ShieldedStep` | src/gc.cpp:289-329 | a step while marking commutes with storing a pointer into a traced object whose paths all pass through the stored one; when marking ends the pointer is harmless or its object is unreachable |
| `GcLostObjects.StoreLosesIff` | src/gc.cpp:271-287 | a store of a spared object can lose something reachable, by pointers being dropped and steps run after it, if and only if marking runs, the object stored into has been traced and is reachable around the stored one, and the stored one is unmarked |
| `GcLostObjects.ForbiddenStoreLosesIff` | src/gc.cpp:271-287 | a store of a spared object can be followed by permitted actions that lose something reachable if and only if Permitted forbids it and the store adds an edge |
| `GcLostObjects.AssignLosesIff` | src/gc.cpp:113-124 | for assigning a root variable: if and only if marking runs, the variable is a root and the object is unmarked |
| `GcLostObjects.RegisterLosesIff` | src/gc.cpp:247-256 | for registering a root: if and only if marking runs and the variable holds an unmarked object |
| `GcForbidden.StoreLosesExactly` | src/gc.cpp:271-287 | the same as StoreLosesIff for any allocated object: storing one that the running cycle has condemned can lose it if and only if the object stored into is reachable and the store adds an edge |
| `GcForbidden.AssignLosesExactly` | src/gc.cpp:113-124 | assigning any allocated object to a root variable can lose something by deletions if and only if Permitted forbids it |
| `GcForbidden.RegisterLosesExactly` | src/gc.cpp:247-256 | and so for registering a root, whatever it holds |
| `GcForbidden.ForbiddenStoreLosesExactly` | src/gc.cpp:271-287 | Permitted asks for no more than it must: a store of any allocated object can be followed by permitted actions that lose something reachable if and only if Permitted forbids it, it adds an edge, and the object stored into is not condemned itself |
| `GcLostObjects.LostWithoutBarrier` | src/gc.cpp:271-287 | concrete failure, reached from a new collector by permitted actions: storing an unmarked object into a traced one and clearing the other pointer loses a reachable object |
| `GcCollector.NovaGC.constructor` | src/gc.cpp:161-195 | a new collector is empty and idle with the configured threshold |
| `GcCollector.NovaGC.MarkPtr` | src/gc.cpp:271-287 | sets the mark bit, counts and pushes as the specification Mark does; nothing else changes |
| `GcCollector.NovaGC.ScanRootTable` | src/gc.cpp:113-124 | scans the root table once per cycle |
| `GcCollector.NovaGC.TraceSome` | src/gc.cpp:126-135 | pops and traces up to the budget, as TraceStep says |
| `GcCollector.NovaGC.PassObject` | src/gc.cpp:137-159 | moves the cursor past a marked object and clears its mark |
| `GcCollector.NovaGC.Unlink` | src/gc.cpp:147-158 | redirects the pointer the cursor stands on, so that the list is the same without the object |
| `GcCollector.NovaGC.FreeObject` | src/gc.cpp:137-159 | unlinks, finalizes, uncounts and frees the unmarked object under the cursor |
| `GcCollector.NovaGC.SweepSome` | src/gc.cpp:137-159 | sweeps up to the budget, as SweepStep says |
| `GcCollector.NovaGC.BeginCollection` | src/gc.cpp:104-111 | resets cursor, counters and flags for a new cycle |
| `GcCollector.NovaGC.CollectStep` | src/gc.cpp:289-329 | one step computes the specification Step and keeps the collector safe |
| `GcCollector.NovaGC.Collect` | src/gc.cpp:331-339 | runs steps of 256 until the cycle is over; from idle the result is Finished |
| `GcCollector.NovaGC.Allocate` | src/gc.cpp:217-245 | returns null for size 0 or a failed allocation and otherwise does what Alloc says, step included |
| `GcCollector.NovaGC.LinkIn` | src/gc.cpp:225-238 | links the zeroed object in at the head and counts it |
| `GcCollector.NovaGC.AddRoot` | src/gc.cpp:247-256 | appends a root |
| `GcCollector.NovaGC.DropRoot` | src/gc.cpp:258-269 | removes the first occurrence of a root by moving the last one into its place |
| `Lowering.LowersWhole` | src/ir.cpp:103-319 | lowering yields a tree without null pointers if and only if the source has no lambda and every callee and stage is a name |
| `Lowering.LoweringKeepsMeaning` | src/ir.cpp:43-319 | for such sources the lowered tree has the same value, the same calls in the same order and the same divergence at every fuel |
| `LoweringTypes.LoweringKeepsTypes` | src/ir.cpp:43-319 | every node of a lowered tree has the type found for the source node it comes from; for empty blocks and missing else parts that is Unit |
| `Lowering.LowerPipeline` | src/ir.cpp:174-216 | the loop over the stages nests them to the left, each call's first argument being the stages before it, and gives up at the first stage it cannot lower |
| `Lowering.StagesKeepMeaning` | src/ir.cpp:174-216 | the nested calls mean what applying the stages one after another means |
| `Optimizer.OptimizeNormalizes` | src/ir.cpp:331-433 | optimising terminates in a normal form at every depth, and optimising again changes nothing |
| `Optimizer.NormalIsFixed` | src/ir.cpp:331-433 | a tree in normal form is returned as it is |
| `Optimizer.OptimizeRules` | src/ir.cpp:342-425 | one-item sequences, constant conditions and one-arm binding-free matches become exactly the part they select, at every depth |
| `Optimizer.OptimizeKeepsMeaning` | src/ir.cpp:331-433 | value, history of calls and divergence are kept, for every tree, wherever each collapsed match that is reached has a silent scrutinee selecting the arm |
| `Optimizer.CollapseIsRightIffSilent` | src/ir.cpp:402-425 | collapsing a one-arm match is right for every body if and only if its scrutinee makes no call, terminates and selects the arm |
| `Compiler.CollapseChangesMeaning` | src/ir.cpp:402-425 | concrete failure: in `match f() { A -> 1 }`, which the parser builds, the call of f disappears |
| `OptimizerStore.IRStore.FreeTree` | src/ir.cpp:441-494 | freeing a tree frees exactly its nodes: the log of frees, which every free and overwrite has to account for, grows by each of them once and by nothing else |
| `OptimizerStore.IRStore.Hoist` | src/ir.cpp:351-360 | overwriting a node with its only child and freeing the child leaves that tree at the node's address |
| `OptimizerStore.IRStore.RewriteSequence` | src/ir.cpp:342-361 | the in-place rule for sequences owns exactly the nodes of its result |
| `OptimizerStore.IRStore.RewriteIf` | src/ir.cpp:367-387 | the in-place rule for constant conditions frees the condition and the branch not taken |
| `OptimizerStore.IRStore.RewriteWhile` | src/ir.cpp:389-400 | the in-place rule for while false frees both children and becomes Unit |
| `OptimizerStore.IRStore.RewriteMatch` | src/ir.cpp:402-425 | the in-place rule for one-arm matches frees the scrutinee |
| `OptimizerStore.IRStore.Optimize` | src/ir.cpp:331-433 | run on an unshared tree the in-place optimiser leaves at the same address exactly the tree Optimizer.Optimize describes, unshared again; the log of frees grows by every other node of the tree, each exactly once; other memory is untouched, and no freed node is used |
| `LoweredTrees.LoweredIsSound` | src/ir.cpp:103-319 | what lowering hands over has null pointers at most as call arguments, which is what the in-place optimiser can take |
| `LlvmNames.FunctionDefinesOnce` | src/codegen.cpp:98-104 | every label and temporary number the counters pass over is defined by exactly one emitted instruction, and no other is defined |
| `LlvmNames.FunctionLabelsDistinct` | src/codegen.cpp:98-104 | no label occurs twice in a function, so jumps have one target |
| `LlvmSimulation.FunctionFollows` | src/codegen.cpp:122-248 | with any amount of fuel the emitted function returns the body's value after the same calls, is stuck in a branch where the body goes wrong, and makes at least that many instructions where its loops use the fuel up |
| `LlvmSimulation.CompiledFunctionIsRight` | src/codegen.cpp:122-285 | the emitted function returns a value and a history, gets stuck, or runs forever if and only if the tree is done with them, goes wrong, or diverges |
| `LlvmSimulation.PhiIsRightIff` | src/codegen.cpp:199-239 | what the machine, which reads a phi when it gets there, makes of a phi over any branches: it gets past if and only if the branch that ran opened no block of its own. LLVM asks more, see FlowIsSoundIffDirect |
| `LlvmSimulation.NestedIfIsMiscompiled` | src/codegen.cpp:229-238 | concrete failure: an if with a value nested in a branch of another, both conditions a parameter, is left alone by the optimiser and does not get past the outer phi when the parameter is true |
| `Compiler.NestedHasASource` | src/codegen.cpp:229-238 | the parser builds a source that is lowered to that tree |
| `LlvmPhis.FunctionBlocksFit` | src/codegen.cpp:122-285 | in every emitted function each block ends in its one branch or return, phis come first in their block, and every branch leads to a label of the function |
| `LlvmDominance.FunctionDominates` | src/codegen.cpp:122-285 | along every way through the branches of an emitted function, whether it can be run or not, each temporary is defined before it is used, the operand of a phi before the edge it names |
| `LlvmPhis.PhisFitIffDirect` | src/codegen.cpp:199-239 | every phi of an emitted function names exactly the blocks that branch to its own, as LLVM demands, if and only if the branches of every if with a value, at any depth and whether they run or not, open no block |
| `LlvmDominance.FlowIsSoundIffDirect` | src/codegen.cpp:122-285 | blocks, names, dominance and phis are as LLVM demands if and only if that is so; phis are all that can be wrong |
| `LlvmTypes.FunctionTypesFit` | src/codegen.cpp:122-285 | in the code of a well-typed body every call argument, condition, phi operand and returned value has the type it is used with, by the instruction that defines it; literals fit theirs |
| `LlvmTypes.FunctionCallsFitIff` | src/codegen.cpp:167-188 | every emitted call has the argument and result types its callee is defined with if and only if that is so of every call in the tree |
| `LlvmTypes.FunctionIsSoundIff` | src/codegen.cpp:122-285 | flow, names and types of a function with a well-typed body are as LLVM demands if and only if its phis are direct |
| `Compiler.ProgramIsSoundIff` | src/codegen.cpp:199-291 | a program of well-typed functions is as LLVM demands if and only if names and parameters are in order, every call is one of a function of the program with its types, and no phi in any function is wrong |
| `LlvmPhis.NestedIsRejected` | src/codegen.cpp:229-238 | concrete failure: in the tree of NestedIfIsMiscompiled the outer phi names a block that does not branch to its own |
| `LlvmPhis.ElseIfIsRejected` | src/codegen.cpp:229-238 | concrete failure where the branch that runs is a number: `if c {1} else if c {2} else {3}` with c true runs through on the machine, but its phi names a block that does not branch to its own |
| `Compiler.ElseIfHasASource` | src/codegen.cpp:229-238 | the parser builds a source that is lowered to that tree, and the optimiser leaves it alone |
| `LlvmEmission.LLVMEmitter.StatementOf` | src/codegen.cpp:122-147 | writes exactly the instructions of a statement behind what was written, advances both counters accordingly, and fails exactly on strings, lists and matches |
| `LlvmEmission.LLVMEmitter.ExprOf` | src/codegen.cpp:149-248 | the same for an expression, with the operand that names its value |
| `LlvmEmission.LLVMEmitter.WhileOf` | src/codegen.cpp:130-144 | the blocks of a loop, its three labels taken before the condition is emitted |
| `LlvmEmission.LLVMEmitter.IfOf` | src/codegen.cpp:199-239 | the blocks of an if, its three labels taken after the condition is emitted, and the phi naming the two branch labels |
| `LlvmEmission.LLVMEmitter.ProgramOf` | src/codegen.cpp:250-291 | all functions with counters running on, or nothing if any body cannot be emitted |
| `Compiler.ProgramHasItsFunctions` | src/codegen.cpp:250-291 | a program is emitted if and only if every body is supported, and then each function has its own body's code |
| `LoweredTyping.OptimizeKeepsTyping` | src/codegen.cpp:250-285 | the optimiser keeps a tree well typed, its type unless that is void, and its branches free of blocks where they were |
| `LoweredTyping.WellTypedIsSafe` | src/codegen.cpp:250-285 | a tree the backend takes collapses no match, so the optimiser's exception does not arise |
| `Compiler.CompilerIsRightOnLowered` | src/codegen.cpp:250-285 | the same as CompilerIsRight with the condition on what lowering hands over instead of the optimised tree |
| `Compiler.CompilerIsRight` | src/codegen.cpp:250-285 | from source expression through lowering, optimiser and backend: the machine returns, gets stuck or runs forever if and only if the source is done, goes wrong or diverges, with the same value and calls |
| `Lexer.AlphaByOneBit` | src/lexer.cpp:6-10 | setting bit 0x20 and comparing with lower-case letters accepts exactly the 52 letters |
| `LexerRun.SkippedIsBlank` | src/lexer.cpp:129-149 | skipping goes over white space and comments only, and over all of it |
| `LexerRun.NovaLexer.Advance` | src/lexer.cpp:116-127 | line and column stay those computed from the newlines before the position |
| `LexerRun.NovaLexer.LexString` | src/lexer.cpp:165-200 | single and triple quoted literals end where the specification says, or run to the end as an error |
| `LexerStrings.ClosesAtFirstUnescapedQuote` | src/lexer.cpp:173-196 | a literal ends at the first closing quote, or three, that no backslash escapes, and is open if there is none |
| `LexerRun.NovaLexer.LexNumber` | src/lexer.cpp:202-217 | digits, and digits behind a point |
| `LexerRun.NovaLexer.LexIdentifier` | src/lexer.cpp:219-232 | a whole word, as a keyword or identifier |
| `LexerRun.NovaLexer.Next` | src/lexer.cpp:234-291 | the next token is the one the specification finds behind the blanks, with its place |
| `LexerRun.NovaLexer.Tokenize` | src/lexer.cpp:293-309 | terminates; tokens are ordered disjoint slices with only blank text between them, with the line and column of their start; the last is Eof at the end of the source or an error; their texts are Lex(source) |
| `LexerRun.ColumnIsUnique` | src/lexer.cpp:116-127 | the column of a position is determined by the text |
| `LexerSpelling.MarkIffSpelled` | src/lexer.cpp:20-291 | each keyword and each mark is read from the one spelling the grammar gives it, and from nothing else |
| `LexerSpelling.NameIff` | src/lexer.cpp:219-232 | a text is read as a name if and only if it is a word and no spelling of a keyword |
| `LexerSpelling.NumeralIff` | src/lexer.cpp:202-217 | a text is read as a number if and only if it is digits, and perhaps a point and more digits |
| `LexerSpelling.TextIff` | src/lexer.cpp:165-200 | a text is read as a string if and only if it stands between quotes, or three if it begins with three, and the first closing quotes that no backslash escapes are its end |
| `FormatterRoundTrip.ScanStops` | src/lexer.cpp:165-291 | locality: a lexeme is read the same with any text behind it that does not extend it |
| `FormatterRoundTrip.LexIsWellFormed` | src/lexer.cpp:293-309 | every token of a source without errors is read from its own lexeme alone |
| `Formatter.WriteToken` | tools/nova_fmt.cpp:54-109 | what the switch writes for one token and how it changes indentation, line state and previous type |
| `Formatter.FormatTokens` | tools/nova_fmt.cpp:47-114 | the loop writes the specified text for all tokens before Eof and ends in a newline |
| `FormatterLayout.FormatIsLaidOut` | tools/nova_fmt.cpp:37-114 | the text is laid out as follows from the tokens alone: where a line begins and ends, four blanks of indentation for each open brace, and how many blanks stand between two tokens of a line |
| `FormatterLayout.EveryTokenStands` | tools/nova_fmt.cpp:47-114 | what one sees in the text: a token that leads its line stands behind exactly its margin, braces stand alone, lines end behind braces and semicolons and in front of `else`, and any other token stands behind its neighbour and the stated number of blanks |
| `FormatterRoundTrip.TextMayFollow` | tools/nova_fmt.cpp:37-114 | no missing space lets two lexemes touch that would merge |
| `FormatterRoundTrip.LexFormat` | tools/nova_fmt.cpp:47-114 | unless a number without a point is followed by a point, lexing the formatted text gives the same tokens, `=>` turned into `->` |
| `FormatterRoundTrip.RoundTripIff` | tools/nova_fmt.cpp:47-114 | lexing the formatted text gives the same tokens if and only if there is no `=>` and no number without a point followed by a point |
| `FormatterRoundTrip.SourceRoundTrip` | tools/nova_fmt.cpp:47-114 | the same for the tokens of any source that lexes |
| `FormatterRoundTrip.FormatTwice` | tools/nova_fmt.cpp:47-114 | formatting is idempotent, `=>` included |
| `FormatterRoundTrip.TokensAreLost` | tools/nova_fmt.cpp:85-107 | concrete failures: the tokens of `1 .` and of `=>` |
| `AcceptedTokens.FormatterKeepsAcceptedPrograms` | tools/nova_fmt.cpp:116-150 | on every source the parser accepts, which are the only ones the tool formats, no token is lost and the same program is parsed; comments, which are no tokens, are lost |
| `AcceptedTokens.ProgramTidy` | src/parser.cpp:587-604 | the parser accepts no error token, no `=>` and no point behind a number without one |
| `AcceptedTokens.PrintedProgramsComeBack` | src/parser.cpp:587-604 | a program whose names are words that are no keywords and whose literals are spelled as such, printed in any style, formatted as text and lexed, gives the printed tokens, and parsed it is the same program |
| `ParserRoundTrip.ExprRound` | src/parser.cpp:325-409 | for every printable tree and every way of writing it, parsing its tokens returns it and leaves what was behind them, wherever that does not continue it |
| `ParserRoundTrip.CallRound` | src/parser.cpp:294-308 | argument lists in a row are read as calls nested to the left |
| `ParserRoundTrip.StagesRound` | src/parser.cpp:310-323 | stages are read in order up to the first token that is not a pipe operator |
| `ParserRoundTrip.ItemsRound` | src/parser.cpp:411-426 | items of a block with optional semicolons |
| `ParserRoundTrip.ArmsRound` | src/parser.cpp:343-368 | arms of a match with optional semicolons and optional bindings |
| `ParserRoundTrip.ArgsRound` | src/parser.cpp:164-198 | arguments, named or not |
| `ParserRoundTrip.ParamsRound` | src/parser.cpp:136-162 | parameter lists with optional types |
| `ParserRoundTrip.LambdaRound` | src/parser.cpp:107-134 | a printed lambda is recognised by the lookahead and read back |
| `ParserRoundTrip.ParenRound` | src/parser.cpp:256-292 | a parenthesised expression is never taken for a lambda |
| `ParserGrammar.ExprParsedIffWritten` | src/parser.cpp:107-426 | the parser takes tokens for an expression, up to some rest, if and only if they are a way of writing it and the rest does not continue it |
| `ParserGrammar.ProgramParsedIffWritten` | src/parser.cpp:428-604 | the parser takes tokens for a program if and only if they are a way of writing it, up to an end of file; it reports an error for all others |
| `ParserImage.PrintableIffParsed` | src/parser.cpp:256-426 | the printable trees are exactly the trees the parser builds from some tokens |
| `ParserImage.PrintableProgramIffParsed` | src/parser.cpp:428-604 | the same for whole programs |
| `ProgramRoundTrip.ProgramRound` | src/parser.cpp:428-604 | parsing the tokens of a program, written in any way, returns it and leaves the end of file |
| `ParserRun.NovaParser.LooksLikeLambda` | src/parser.cpp:107-134 | the scan decides what LookaheadLambda specifies |
| `ParserRun.NovaParser.ParamList` | src/parser.cpp:148-162 | reads a parameter list or reports, as ParseParams says |
| `ParserRun.NovaParser.ArgumentList` | src/parser.cpp:164-198 | reads an argument list or reports, as ParseArgs says |
| `ParserRun.NovaParser.ListExpression` | src/parser.cpp:237-254 | reads a list literal or reports |
| `ParserRun.NovaParser.Primary` | src/parser.cpp:256-292 | reads a primary expression or reports, stepping back for blocks and lists |
| `ParserRun.NovaParser.CallExpression` | src/parser.cpp:294-308 | the loop over argument lists |
| `ParserRun.NovaParser.PipeExpression` | src/parser.cpp:310-323 | the loop over stages |
| `ParserRun.NovaParser.MatchArms` | src/parser.cpp:343-368 | the loop over arms |
| `ParserRun.NovaParser.Expression` | src/parser.cpp:370-409 | reads an expression or reports exactly where ParseExpr fails |
| `ParserRun.NovaParser.BlockItems` | src/parser.cpp:411-426 | the loop over the items of a block |
| `ParserRun.NovaParser.TypeDecl` | src/parser.cpp:528-545 | reads a type declaration or reports |
| `ParserRun.NovaParser.Parse` | src/parser.cpp:587-604 | reads a program up to the end of the tokens or reports an error exactly where ParseProgram fails |
| `ExprIndex.SomeSlotEmpty` | src/semantic.cpp:155-170 | a table with fewer entries than slots has an empty slot, so probing ends |
| `ExprIndex.AbsentBehindGap` | src/semantic.cpp:172-188 | a key whose probe sequence reaches an empty slot is nowhere in the table |
| `ExprIndex.PlacingKeepsTable` | src/semantic.cpp:155-170 | putting a key into the first empty slot on its way keeps every key findable, whatever the hashes |
| `ExprIndex.Index.Probe` | src/semantic.cpp:138-141 | the probe loop ends at the key or at the first empty slot on its way |
| `ExprIndex.Index.Reserve` | src/semantic.cpp:113-153 | afterwards the capacity is a power of two at least as required and the entries are the same |
| `ExprIndex.Index.Rehash` | src/semantic.cpp:132-144 | moves every entry to the new table and loses none |
| `ExprIndex.Index.Insert` | src/semantic.cpp:155-170 | the table holds the old map with the key updated; the required capacity always leaves a slot empty |
| `ExprIndex.Index.Lookup` | src/semantic.cpp:172-188 | the value of a present key, and -1 otherwise |
| `ExprRecords.Records.Record` | src/semantic.cpp:197-217 | each expression stays once in the list with its index entry pointing at it, and its entry becomes what was recorded last |
| `ExprRecords.Records.LookupExpr` | src/semantic.cpp:809-815 | returns the most recent record about an expression, or none |
| `Exhaustiveness.CheckMatchExhaustiveness` | src/semantic.cpp:524-550 | warns if and only if some variant has no arm, duplicate and unknown arm names included |
| `Exhaustiveness.NoWarningIffEveryValueFindsAnArm` | src/semantic.cpp:524-550 | there is no warning if and only if matching any value of the type finds an arm |
| `EffectSolutions.EffectsBounded` | src/semantic.cpp:388-707 | effects are monotone in the masks of the scope and grow by no more than those |
| `EffectSolutions.SelfCallsAddNothing` | src/semantic.cpp:719-750 | the mask computed while the function counts as effect-free solves its own equation |
| `EffectSolutions.AnalysisSolves` | src/semantic.cpp:788-807 | for a program without diagnostics the stored masks solve all effect equations at once |
| `EffectSolutions.AnalysisIsLeast` | src/semantic.cpp:788-807 | and no scope that meets the equations as inequalities gives any name a smaller mask |
| `CleanPrograms.ResolvedIffFine` | src/semantic.cpp:388-707 | nothing is reported in an expression if and only if at every place in it names are bound, callees and stages are functions or constructors that take what they are given and no local name hides, and no binder repeats a name |
| `CleanPrograms.CleanIffFine` | src/semantic.cpp:709-807 | nothing is reported in a program if and only if each declaration is new and fine in the scope of those before it, where a function knows itself |
| `CleanPrograms.ScopeOfDecls` | src/semantic.cpp:709-807 | that scope has the constructors and the names of the declarations, functions with the number of their parameters |
| `CleanPrograms.FirstDefinitionCounts` | src/semantic.cpp:86-98 | a name keeps what it was first defined as, also where a second definition is reported |
| `CleanPrograms.CleanProgramsNeverStray` | src/semantic.cpp:388-807 | no call of any function of a program without diagnostics, cut off anywhere, comes upon a name that stands for nothing or calls what is no function or constructor |
| `SelfCalls.FoundIsRightIff` | src/semantic.cpp:735-748 | what is found for an expression inside a recursive function, under any binders, is right if and only if the function is not called there or its mask is found there anyway |
| `SelfCalls.FoundInBody` | src/semantic.cpp:735-748 | the same in the function's own scope, where it is never too large; for the body as a whole it is always right |
| `SelfCalls.SelfCallIsUnderstated` | src/semantic.cpp:735-748 | concrete failure: in `fun f() = { !1; f() }`, which the parser builds, nothing is found for the call of f |
| `EffectNotes.NotesAreRight` | src/semantic.cpp:388-707 | in an expression without diagnostics the last record about the node at any path holds the node's effects in its own scope, a stage's what the stage adds; parenthesised expressions and other paths have none |
| `EffectNotes.ProgramNotesAreRight` | src/semantic.cpp:788-807 | the same for every node of every declaration of a program, whatever is recorded before and after |
| `EffectReachability.EffectsExplained` | src/semantic.cpp:656-707 | the mask of an expression has a bit exactly when the expression contains the construct outside lambdas, or calls or reads a name whose mask has it |
| `EffectReachability.MaskIsReachability` | src/semantic.cpp:719-807 | the stored mask has a bit if and only if the declaration leads to an async or `!` through some number of calls and global names |
| `EffectRuns.ExecCovered` | src/semantic.cpp:656-707 | whatever an expression performs when run, finished or not, its mask allows |
| `RunMeaning.ExecMeans` | src/semantic.cpp:656-707 | such a run, when it ends, yields the value that the semantics used for lowering gives the expression, under any oracle that answers calls as the declared functions do; SomeOracleAnswers says that there is one |
| `EffectRuns.CallsStayWithinMasks` | src/semantic.cpp:719-750 | any call of any function of a program without diagnostics, cut off anywhere, performs only what the stored mask allows |
| `EffectContext.SemanticContext.DefineAll` | src/semantic.cpp:86-98 | defines names in an inner scope one by one, reports exactly when one repeats, and keeps the first |
| `EffectContext.SemanticContext.AnalyzeExpr` | src/semantic.cpp:656-707 | merges exactly the specified mask, reports exactly when something is unresolved or bound twice, and makes exactly the specified records in order |
| `EffectContext.SemanticContext.AnalyzeIdentifier` | src/semantic.cpp:438-447 | a name's own effects; an unknown name is reported |
| `EffectContext.SemanticContext.AnalyzeItems` | src/semantic.cpp:388-436 | the loops over the items of a block and the elements of a list |
| `EffectContext.SemanticContext.AnalyzeIf` | src/semantic.cpp:596-618 | condition and branches in order; the mask joins all three |
| `EffectContext.SemanticContext.AnalyzeWhile` | src/semantic.cpp:620-630 | condition and body in order |
| `EffectContext.SemanticContext.AnalyzeLambda` | src/semantic.cpp:632-654 | the body is analysed and recorded in the scope of the parameters and adds no effects |
| `EffectContext.SemanticContext.AnalyzeCall` | src/semantic.cpp:449-478 | callee, arguments and the callee's mask; an uncallable callee is reported and its arguments skipped |
| `EffectContext.SemanticContext.AnalyzeStage` | src/semantic.cpp:480-522 | a stage that is no call is recorded as an expression and then as a stage; one that cannot be called is recorded with the effects of the pipeline so far |
| `EffectContext.SemanticContext.AnalyzePipeline` | src/semantic.cpp:480-522 | the loop over stages accumulates their masks |
| `EffectContext.SemanticContext.AnalyzeMatch` | src/semantic.cpp:552-594 | the loop over arms, each in its own scope |
| `EffectContext.SemanticContext.AnalyzeFun` | src/semantic.cpp:719-750 | defines the function without effects, analyses the body, and stores its mask |
| `EffectContext.SemanticContext.AnalyzeLet` | src/semantic.cpp:709-717 | defines the name with the effects of its value |
| `EffectContext.SemanticContext.AnalyzeProgram` | src/semantic.cpp:788-807 | analyses the declarations in order; scope, reports and records are the specified ones |
| `EffectContext.SemanticContext.LookupEffects` | src/semantic.cpp:809-815 | finds the effects in the last record about a node, or nothing |
| `EffectContext.SemanticContext.FunctionEffects` | src/ir.cpp:531-533 | a lowered function gets the effects recorded about its body, or none |
| `EffectNotes.LoweredEffectsAreRightIff` | src/ir.cpp:531-533 | those are the mask the analysis stored for the function if and only if the body is not a parenthesised expression or the mask is empty |
| `EffectNotes.WrappedEffectIsLost` | src/ir.cpp:531-533 | concrete failure: `fun f() = (!1)`, which the parser builds, is lowered without effects |

## Left out

Garbage collector:
- GcRuns.NoReachableObjectIsLost: the mutator may only do what GcRuns.Permitted allows, because there is no write barrier; GcLostObjects says what happens otherwise
- failure to grow the mark stack, which would leave an object marked but untraced (src/gc.cpp:283-285)
- growth of the root table, out-of-memory, `size_t` overflow, nova_gc_destroy and nova_gc_stats
- what a finalizer does: finalizer calls are logged
- a payload and its header are one address; the fields of an object are a sequence of pointers

Lowering and optimiser:
- OptimizerStore.IRStore.FreeTree: argument, item and arm arrays, binding names and texts are part of their node, not allocations of their own, so their frees are not modelled
- OptimizerStore.IRStore.RewriteSequence: nor is that of the items array
- OptimizerStore.IRStore.RewriteMatch: nor those of the arms and bindings arrays
- OptimizerStore.IRStore.Optimize: the memory is that of the nodes
- types are opaque numbers, given by a function of the expression; named arguments lose their names, as in the code
- async, await and `!` do not change a value in this semantics
- nova_ir_lower's loop over functions and its parameter types; allocation failure in lowering

LLVM backend:
- LlvmSimulation.CompiledFunctionIsRight: trees are WellTyped (conditions are i1, no void arguments, a node with a value has the type of what computes it) and branches of an if with a value open no block; without the second condition LLVM does not take the function, as FlowIsSoundIffDirect says
- LlvmSimulation.PhiIsRightIff: is about an outermost if on the machine, which does not check a function before it runs it
- LlvmTypes.FunctionIsSoundIff: of trees that are not WellTyped only flow and names are described
- LlvmEmission.LLVMEmitter.StatementOf: emits instructions, not text, so it does not fail on an argument list whose text exceeds 1024 bytes, nor cut a name to the size of a value buffer
- LlvmEmission.LLVMEmitter.ExprOf: the same
- LlvmEmission.LLVMEmitter.ProgramOf: the same, and opening the output file always succeeds
- Compiler.ProgramHasItsFunctions: the same
- parameters spelled like temporaries or `entry`; parameters and temporaries are different operands here
- number formatting; a value buffer nobody wrote to is a distinct operand
- the C backend, files, `system`, flags and paths

Lexer and formatter:
- growth of the token array; characters are bytes and a source holds no NUL
- AcceptedTokens.PrintedProgramsComeBack: names must be words that are no keywords, and literals spelled as such
- reading and writing files

Parser:
- ParserRun.NovaParser.Primary: at the end of the tokens behind an opening parenthesis or bracket the original never returns (src/parser.cpp:36-41, 256-292) and the model reports an error
- ParserRun.NovaParser.Parse: stops at the first error, while the original goes on to report more
- start tokens of expressions, line numbers of diagnostics, the flag body_is_block

Semantic analysis:
- EffectContext.SemanticContext.AnalyzeExpr: types are not modelled beyond what a name stands for (function, constructor or value, with its number of parameters), so type errors are not reported; the recorded type ids are a parameter
- EffectContext.SemanticContext.AnalyzeItems: elements of a list with different types are not reported
- EffectContext.SemanticContext.AnalyzeIf: a condition that is no Bool and branches of different types are not reported
- EffectContext.SemanticContext.AnalyzeWhile: a condition that is no Bool is not reported
- EffectContext.SemanticContext.AnalyzeLambda: parameter annotations are not resolved
- EffectContext.SemanticContext.AnalyzeCall: a callee is a name, parenthesised or not; functions bound by let, passed as values or returned by calls are not called
- EffectContext.SemanticContext.AnalyzeStage: the same for stages
- EffectContext.SemanticContext.AnalyzePipeline: the same for stages, and stages whose types do not fit are not reported
- EffectContext.SemanticContext.AnalyzeMatch: whether an arm's bindings are defined, which the scrutinee's type decides, is a parameter
- EffectContext.SemanticContext.AnalyzeFun: type annotations are ignored
- EffectContext.SemanticContext.AnalyzeProgram: type declarations are not registered; the constructors are given from outside
- EffectContext.SemanticContext.AnalyzeLet: a let that holds a function is stored as a plain value
- allocation failure in the index and the record list; `slot & (capacity - 1)` is written as a remainder
