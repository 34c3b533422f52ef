# A verified model of the sandboxed shell and Python runtime

The repository is a deterministic, in-memory bash and Python runtime. This project models the parts of
it where the code is much cleverer than what it promises, and proves that the promise is kept.

* **The Python compiler** (`Python*.dfy`). `PythonSource` gives the meaning of expressions and statements:
  `and`, `or`, chained comparison, conditional expressions, calls, `if`, `while` and `for` with `else`,
  `break`, `continue`, `return`, `raise` and `try`/`finally`, over an arbitrary runtime whose every operation
  may raise and may change the world. `PythonMachine` is the virtual machine with its operand and block
  stacks. `PythonLayout` says which code a statement becomes, `PythonCompiler` is the compiler as written
  (it appends, remembers jumps, patches them in place, and writes cleanups inline), and
  `PythonExpressions`, `PythonStatements` and `PythonCorrectness` prove that the code means the source; `PythonGuard` says for which programs, and
  `PythonLocals` what names hold.
* **Patterns** (`ShellPattern`, `PatternPrinting`, `PatternMeanings`, `PatternMatcher`, `PatternReplacement`). A glob is parsed to a tree that denotes a
  set of texts; the backtracking matcher decides that set; replacement is leftmost longest.
* **The file system** (`VirtualPath`, `PathRewriting`, `FileTree`, `FileTreeLaws`, `FileTreeConditions`, `FileSystem`). `FileTree` keeps a map from
  paths to entries and the three running counters; `FileSystem` is the heap of nodes that implements it;
  `FileTreeLaws` says what every operation and every run keeps, and `FileTreeConditions` when an operation
  succeeds, what it takes and which error it answers otherwise.
* **Variables, scopes and forks** (`ShellVariables`, `ShellScopes`, `ShellSessions`, `ShellBindings`). The one-string storage
  refines a sparse map, the copy-on-touch chain refines a map, and a shell that forks by sharing refines one
  that copies everything.
* **Arithmetic** (`ShellIntegers`, `ShellArithmetic`, `ShellArithmeticPrinting`, `ShellArithmeticLaws`,
  `ShellArithmeticStores`, `ShellArithmeticValues`, `ShellArithmeticRefusals`, `ShellEvaluator`). The precedence parser that evaluates as it reads gives the meaning of the tree
  whose text it is given.
* **Braces** (`CyclicSteps`, `BraceRanges`, `BraceNumerals`, `BraceItems`, `BraceExpansion`, `BraceExpander`, `BraceLaws`). Expansion is the
  product of its parts, ranges read from their text and stepped through in machine integers.
* **The interpreter under a budget** (`ShellCommands`, `ShellCommandLaws`, `ShellPrograms`, `ShellOutcomes`, `ShellInterpreter`). Control flow is data, every
  command and iteration is charged, and so every program ends.
* **Field splitting and quoting** (`FieldSplitting`, `ShellQuoting`), and **numbers** (`PythonNumbers`).
* **The shell's lexer and grammar** (`ShellWords`, `ShellNesting`, `ShellNestingLaws`, `ShellWordParts`, `ShellLexer`, `ShellSyntax`, `ShellParsing`, `ShellGrammar`, `ShellParserSoundness`, `ShellParserCompleteness`,
  `ShellTrees`, `ShellParser`, `ShellParserLaws`, `ShellMeanings`). `ShellWords` says where quotes, expansions and words end, and `ShellNesting` and `ShellWordParts` give the grammar that is so read; the lexer cuts any
  script into pieces that leave out blanks and comments only, or refuses it for a piece that never closes. A phrase keeps every token it is written with; `ShellGrammar` says
  which phrases are well written in front of which tokens; the recursive descent reads exactly those, and
  `ShellTrees` says which tree it builds for each.

Where the source updates state, the model is a method or a class proved against a function on values,
and the theorems are about that function.

## Where the code differs from what one expects

The model does what the code does. These are its surprises, each with its exact condition:

* A `break` or `continue` inside a cleanup is compiled for the loop that is innermost where the cleanup is
  written *inline*, and drops every pending return value. The theorems about the compiler ask that no loop
  exit is written in a cleanup where that happens (`Guarded`), which is exactly what the emitted exits need
  (`GuardedExactly`); `BreakLandsAtLoopHeight` says when the code of a break is right, and `LoopInCleanupUnderflows` and `ReturnThroughLoopUnbalances` give a family of programs for each half.
* A bracket that does not match is tried again as a literal `[`, because -1 stands for both
  failures (`BracketRetryShows`, `BracketMatchesItself`). Of several stars before a parenthesis none begins a group
  (`OneStarBeginsAGroup`). `${v//*/x}` replaces the empty match after the last character too (`EndIsReplaced`).
* Moving a file onto itself takes it off the counters and keeps it (`RenameAccounted`). A move asks neither
  for the depth nor the length of names (`RenameBounded`). The guard against moving a directory into itself compares
  characters, so a relative target gets past it (`GuardExactly`) and the directory is gone (`MovedBelowItself`).
* A subscript below -1 written to an empty array cannot be read back (`ReadBack`).
* References that come back to themselves make a lookup run for ever (`LookupReturnsExactly`, `CycleNeverReturns`), a change through a
  reference to nothing overwrites the reference (`ChangeReachesExactly`), and `Set`, by which arithmetic, `for` and `${x:=…}`
  assign, never follows one (`AssignmentStays`).
* `&&` and `||` evaluate both sides (`StrictnessShows`) and `?:` both branches (`ConditionalShows`).
* Ranges are stepped through in machine integers, so some never end (`LetterRangeEnds`, `NumberRangeEnds`) and some come back
  at the other side (`LettersInOrder`). A letter range that comes upon a backslash hides the group after it
  (`SpecialInOrder`, `BackslashHidesAGroup`), and one that comes round can come upon `{`, so the number of groups
  ahead does not always fall (`CountFallsExactly`, `BraceAmongLetters`).
* One result more than the limit on brace expansion passes (`LimitExactly`).
* A `#` anywhere inside `$(…)` or another parenthesis in a word hides the rest of its line from the lexer, so `$(echo ${#x})` on the
  last line is refused (`HashHidesTheLine`, `HashRefusesTheWord`, `LengthInSubstitution`).
* Control flow raised by a loop's condition is forgotten (`ConditionFlowIsLost`, `RunIsAsMeantExactly`): `while break` runs its
  body for ever (`WhileBreakNeverEnds`).
* The parser drops the condition and the branch of an `if` that has an `elif` (`ElifLosesTheFirstBranch`). `((...))` stops one
  parenthesis early when its text ends with one (`ArithmeticReadsAll`). The commands of a `case` branch are one list, so the
  next line is another branch or an error (`SecondLineIsAnotherBranch`, `NextLineByItsTokens`, `SubshellLineIsLost`).
  Each `time` forgets an odd number of `!` before it, at any depth of `time ! time …` (`TimeForgetsNegationExactly`), redirections after a group or subshell that is the
  body of a function are not part of it (`DefinitionExactly`), and `coproc` takes any word that could be a name for
  the name of the process when a word or a parenthesis follows, `while` and `until` too (`CoprocessNameExactly`, `LoopTakenForAName`).
  A whole script is read as it is written if and only if it has no `elif`, no such `time` and no such redirections, however
  deep (`ReadAsWrittenExactly`).
* Parsing in base 10 accepts `0x`, `0o` and `0b` prefixes (`DecimalPrefixExactly`).

## Model

| member | source | states |
|---|---|---|
| PythonCorrectness.CompiledBodyMeansTheSource | src/Computerwelt.Emulation.Python/Compilation/Compiler.cs:1235-1324 | main theorem of the compiler: for any statement the compiler accepts, whose emitted loop exits land where they belong (`GuardedExactly`), the emitted body halts in a machine state exactly when some amount of fuel lets the source end in the exit and the world of that state; so a body that never ends is compiled to code that never ends |
| PythonLocals.CompiledStraightLine | src/Computerwelt.Emulation.Python/Runtime/VirtualMachine.cs:991-1046 | for any list of assignments of constants and then `return x`: the compiled code halts, and with the value of the last assignment to `x`, or, without one, what `x` held before, or the exception for an unbound name |
| PythonLocals.OtherNamesKeepTheirs | src/Computerwelt.Emulation.Python/Runtime/VirtualMachine.cs:1041-1046 | the compiled body of `x = v1; y = v2; return x` returns v1, for all values and two names |
| PythonLocals.AssignBinds | src/Computerwelt.Emulation.Python/Compilation/Compiler.cs:425 | an assignment ends normally exactly when its right side has a value; the name then evaluates to that value, every other name to what it did or to the same exception, and no object has changed |
| PythonLocals.NamedBinds | src/Computerwelt.Emulation.Python/Compilation/Compiler.cs:1491-1496 | the same for an assignment inside an expression, which evaluates to what it binds |
| PythonLocals.ForBinds | src/Computerwelt.Emulation.Python/Compilation/Compiler.cs:877-902 | the same for the target of a `for`: a pass is its body run in the world in which the target alone is bound, to the item |
| PythonLocals.NameExactly | src/Computerwelt.Emulation.Python/Runtime/VirtualMachine.cs:991-1015 | a name has a value exactly when it is bound |
| PythonCorrectness.NeverCrashes | src/Computerwelt.Emulation.Python/Runtime/VirtualMachine.cs:848-890 | no run of such a body ever finds too few operands, no block of a `try` to take off, no handler that was entered to end, no exception to raise again, or no instruction at all |
| PythonCorrectness.LenientMeansTheSource | src/Computerwelt.Emulation.Python/Runtime/VirtualMachine.cs:1660-1702 | so the machine, which lets all that pass in silence, makes exactly the same steps, and the main theorem is true of it |
| PythonMachine.StrictIsLenient | src/Computerwelt.Emulation.Python/Runtime/VirtualMachine.cs:848-890 | a run of the strict machine that does not crash is the run of the lenient one |
| PythonCorrectness.RunBody | src/Computerwelt.Emulation.Python/Compilation/Compiler.cs:453-531 | one run of a whole body, fuel and all: it halts with the exit of the source (a value returned, an exception, or None at the end), or is still running after at least as many steps as the source had fuel |
| PythonCorrectness.BreakLandsAtLoopHeight | src/Computerwelt.Emulation.Python/Compilation/Compiler.cs:552-580 | the code of a break reaches the exit of its loop, with the pending values and the iterator popped and the loop's own base left, if and only if no pending return value was already gone: the exact condition under which `_pendingReturns` is right |
| PythonGuard.GuardedExactly | src/Computerwelt.Emulation.Python/Compilation/Compiler.cs:552-580 | the guard is exact: a body is guarded and accepted if and only if every `break` and `continue` that its compilation emits, in each place a cleanup is written at, goes to the loop it belongs to and finds no return value waiting that was waiting when that loop began |
| PythonCorrectness.LoopInCleanupUnderflows | src/Computerwelt.Emulation.Python/Compilation/Compiler.cs:917-923 | for every returned value and true test: `while` with `break` inside a cleanup that a `return` crosses passes the compiler, returns in the source and underflows the operand stack in the machine |
| PythonCorrectness.ReturnThroughLoopUnbalances | src/Computerwelt.Emulation.Python/Compilation/Compiler.cs:558-568 | for all values: `return` in an inner loop, crossing `finally: break`, ends both loops in the source; in the code that copy of the `break` leaves the inner loop only, and the block of the `try` is taken off twice |
| PythonStatements.RunStmt | src/Computerwelt.Emulation.Python/Compilation/Compiler.cs:461-505 | the simulation, statement by statement, in any enclosing loops and cleanups: control arrives where the exit of the source says, with the operand stack, the block stack and the world that exit demands |
| PythonStatements.RunUnwind | src/Computerwelt.Emulation.Python/Compilation/Compiler.cs:939-983 | the code written before an early exit runs each cleanup crossed once, innermost first, with its block taken off, keeps a pending return value on the stack, and stops at the first cleanup that itself exits |
| PythonStatements.RunReturn | src/Computerwelt.Emulation.Python/Compilation/Compiler.cs:506-531 | a return evaluates, runs every cleanup around it, and halts with that value, unless a cleanup exits in another way |
| PythonStatements.RunJump | src/Computerwelt.Emulation.Python/Compilation/Compiler.cs:552-580 | a break or continue runs the cleanups inside its loop and lands at that loop's height |
| PythonStatements.RunForLoop | src/Computerwelt.Emulation.Python/Compilation/Compiler.cs:877-902 | a `for` from its head: the iterator stays under the body and goes exactly once, at exhaustion, break or any exit |
| PythonStatements.RunWhile | src/Computerwelt.Emulation.Python/Compilation/Compiler.cs:857-875 | a `while` with its `else`, run any number of times, agrees with the recursive meaning of the loop |
| PythonStatements.RunIf | src/Computerwelt.Emulation.Python/Compilation/Compiler.cs:839-855 | only the chosen branch runs, and both ends meet |
| PythonStatements.RunTryNormal | src/Computerwelt.Emulation.Python/Compilation/Compiler.cs:985-1030 | the cleanup as entered after the body falls through |
| PythonStatements.RunTryRaising | src/Computerwelt.Emulation.Python/Runtime/VirtualMachine.cs:930-971 | the cleanup as entered by an exception: the machine cuts the stack to the block's depth, runs the cleanup with the exception current, and raises it again, unless the cleanup exits |
| PythonExpressions.RunExpr | src/Computerwelt.Emulation.Python/Compilation/Compiler.cs:1400-1531 | the code of any expression, from any stack: it ends one past its last instruction with exactly the source value pushed and all beneath untouched, or throws the source exception; the world shows that each operand was evaluated as often, and in the order, the source says |
| PythonExpressions.RunBool | src/Computerwelt.Emulation.Python/Compilation/Compiler.cs:1544-1560 | `and`/`or` over any number of operands: the deciding operand is the value and the rest are never run |
| PythonExpressions.RunChain | src/Computerwelt.Emulation.Python/Compilation/Compiler.cs:1562-1607 | a chained comparison evaluates each middle operand once, stops at the first false link, and leaves one value through either exit |
| PythonExpressions.RunAll | src/Computerwelt.Emulation.Python/Compilation/Compiler.cs:1680-1732 | arguments are pushed in order, and an exception among them drops those already pushed |
| PythonLayout.RejectedExactlyOutsideLoops | src/Computerwelt.Emulation.Python/Compilation/Compiler.cs:552-556 | a body is refused if and only if it has a break or continue with no loop around it |
| PythonMachine.ThrowIgnoresTop | src/Computerwelt.Emulation.Python/Runtime/VirtualMachine.cs:930-971 | where an exception goes does not depend on what lies above every block's depth |
| PythonSource.ExitsAreWritten | src/Computerwelt.Emulation.Python/Compilation/Compiler.cs:506-580 | a statement only ends in a return, break or continue it contains outside inner loops |
| PythonCompiler.PatchResolves | src/Computerwelt.Emulation.Python/Compilation/Compiler.cs:117-128 | patching the remembered jumps in place, one at a time, gives the same code as writing the final target from the start |
| PythonCompiler.Compiler.Patch | src/Computerwelt.Emulation.Python/Compilation/Compiler.cs:119-120 | the in-place change of one operand |
| PythonCompiler.Compiler.PatchAll | src/Computerwelt.Emulation.Python/Compilation/Compiler.cs:122-128 | the in-place change of every remembered operand and nothing else |
| PythonCompiler.Compiler.CompileExpression | src/Computerwelt.Emulation.Python/Compilation/Compiler.cs:1400-1531 | the instructions appended are the layout that RunExpr runs |
| PythonCompiler.Compiler.CompileBoolOp | src/Computerwelt.Emulation.Python/Compilation/Compiler.cs:1544-1560 | emits and back-patches the short-circuit jumps |
| PythonCompiler.Compiler.CompileCompare | src/Computerwelt.Emulation.Python/Compilation/Compiler.cs:1562-1607 | emits and back-patches the chain exits |
| PythonCompiler.Compiler.CompileCall | src/Computerwelt.Emulation.Python/Compilation/Compiler.cs:1680-1732 | callee, arguments, one call |
| PythonCompiler.Compiler.CompileStatement | src/Computerwelt.Emulation.Python/Compilation/Compiler.cs:461-505 | accepts exactly what is not refused, appends the layout RunStmt runs, records its open jumps with their loops, and puts `_finallies` and `_pendingReturns` back |
| PythonCompiler.Compiler.CompileIf | src/Computerwelt.Emulation.Python/Compilation/Compiler.cs:839-855 | the same for `if`, with and without `else` |
| PythonCompiler.Compiler.CompileWhile | src/Computerwelt.Emulation.Python/Compilation/Compiler.cs:857-875 | the same for `while`: break jumps patched past the `else`, continue jumps to the test |
| PythonCompiler.Compiler.CompileFor | src/Computerwelt.Emulation.Python/Compilation/Compiler.cs:877-902 | the same for `for` |
| PythonCompiler.Compiler.CompileJump | src/Computerwelt.Emulation.Python/Compilation/Compiler.cs:552-580 | the jump, its cleanups and pops, recorded with the innermost loop |
| PythonCompiler.Compiler.CompileReturn | src/Computerwelt.Emulation.Python/Compilation/Compiler.cs:506-531 | the pending value is counted while the cleanups are written, and not afterwards |
| PythonCompiler.Compiler.UnwindFinallies | src/Computerwelt.Emulation.Python/Compilation/Compiler.cs:939-983 | the cleanups written inline are those the layout names, each compiled with itself and those inside it off the list, and the list comes back |
| PythonCompiler.Compiler.CompileTryFinally | src/Computerwelt.Emulation.Python/Compilation/Compiler.cs:985-1030 | both copies of the cleanup and the handler around the second |
| PythonCompiler.CompileBody | src/Computerwelt.Emulation.Python/Compilation/Compiler.cs:1235-1324 | from an empty compiler: no code exactly when a loop exit is outside loops, and else the code of the main theorem |
| PythonNumbers.FormatRadix | src/Computerwelt.Emulation.Python/Builtins/Builtins.cs:958-975 | the loop computes the digits of the number |
| PythonNumbers.TryParseRadix | src/Computerwelt.Emulation.Python/Builtins/Builtins.cs:1118-1201 | the loops compute the parse the round trip is about, with its sign, prefix, underscores and leading zeros |
| PythonNumbers.RadixRoundTrip | src/Computerwelt.Emulation.Python/Builtins/Builtins.cs:958-975 | the digits of n in radix r are valid digits without underscore and read back as n |
| PythonNumbers.PrefixedRoundTrip | src/Computerwelt.Emulation.Python/Builtins/Builtins.cs:906-910 | what `bin`, `oct` and `hex` print parses to the integer it came from, in its own base, in base 0, and in base 10 too, which the source lets through |
| PythonNumbers.SeparatedReads | src/Computerwelt.Emulation.Python/Builtins/Builtins.cs:1160-1180 | separators between groups of digits are well placed and do not count |
| PythonNumbers.DecimalPrefixExactly | src/Computerwelt.Emulation.Python/Builtins/Builtins.cs:1147-1157 | in base 10 a prefixed text reads as in the base of its prefix, and is refused, as no decimal number is so written, if and only if it is refused there |
| PythonNumbers.RoundsToNearest | src/Computerwelt.Emulation.Python/Builtins/Builtins.cs:891-904 | the result is a multiple no other multiple is nearer than, and in a tie it is the even one, for negative values too |
| PatternMatcher.IsMatch | src/Computerwelt.Emulation.Bash/Interpreter/PatternMatcher.cs:23-28 | the glob matcher accepts exactly the declarative language of the parsed pattern |
| PatternMatcher.Match | src/Computerwelt.Emulation.Bash/Interpreter/PatternMatcher.cs:123-217 | from any two positions: the text length when the rest of the text is in the language of the rest of the pattern and -1 when it is not; it always terminates |
| PatternMatcher.MatchStar | src/Computerwelt.Emulation.Bash/Interpreter/PatternMatcher.cs:157-180 | a run of stars matches any split, whichever is tried first |
| PatternMatcher.TryEverySplit | src/Computerwelt.Emulation.Bash/Interpreter/PatternMatcher.cs:170-179 | the descending loop succeeds exactly when some suffix of the text matches |
| PatternMatcher.MatchBracket | src/Computerwelt.Emulation.Bash/Interpreter/PatternMatcher.cs:222-299 | a bracket ends where its grammar says, hits exactly its members or their complement, and answers -1 both when it is not closed and when it does not match |
| PatternMatcher.MatchMember | src/Computerwelt.Emulation.Bash/Interpreter/PatternMatcher.cs:238-283 | one member: a named class, a range or a character, with its length |
| PatternMatcher.MatchExtGlob | src/Computerwelt.Emulation.Bash/Interpreter/PatternMatcher.cs:305-406 | each of the five groups followed by the rest of the pattern agrees with the language |
| PatternMatcher.MatchSome | src/Computerwelt.Emulation.Bash/Interpreter/PatternMatcher.cs:332-350 | some alternative on some prefix, the rest after it |
| PatternMatcher.MatchRepeated | src/Computerwelt.Emulation.Bash/Interpreter/PatternMatcher.cs:365-379 | one or more repetitions on a non-empty prefix, the rest after it |
| PatternMatcher.MatchNone | src/Computerwelt.Emulation.Bash/Interpreter/PatternMatcher.cs:382-401 | a prefix that no alternative matches, the rest after it |
| PatternMatcher.MatchesRepeated | src/Computerwelt.Emulation.Bash/Interpreter/PatternMatcher.cs:408-429 | the slice is empty or a concatenation of pieces each in some alternative |
| PatternMatcher.RepeatedAt | src/Computerwelt.Emulation.Bash/Interpreter/PatternMatcher.cs:415-426 | such a concatenation exists if and only if it has one whose first piece is not empty, which is what the search tries |
| PatternMatcher.FindGroupEnd | src/Computerwelt.Emulation.Bash/Interpreter/PatternMatcher.cs:431-456 | the index of the closing parenthesis of the group, by nesting depth, or -1 |
| PatternMatcher.SplitAlternatives | src/Computerwelt.Emulation.Bash/Interpreter/PatternMatcher.cs:458-486 | the alternatives at depth nought |
| ShellPattern.OneStarBeginsAGroup | src/Computerwelt.Emulation.Bash/Interpreter/PatternMatcher.cs:157-165 | of stars before a parenthesis, one begins a group and more do not: if and only if |
| ShellPattern.BracketRetryShows | src/Computerwelt.Emulation.Bash/Interpreter/PatternMatcher.cs:182-198 | the second try as text changes the verdict if and only if the bracket fails on a `[` and what follows it stands in the text |
| ShellPattern.BracketMatchesItself | src/Computerwelt.Emulation.Bash/Interpreter/PatternMatcher.cs:182-198 | so `[c]` matches the text `[c]`, for every small letter |
| PatternPrinting.ParseReads | src/Computerwelt.Emulation.Bash/Interpreter/PatternMatcher.cs:123-216 | the text of any sequence of plain and escaped characters, `?`, `*`, brackets with members, ranges and classes, and nested groups parses to what its pieces say, for every nesting |
| PatternPrinting.MembersRead | src/Computerwelt.Emulation.Bash/Interpreter/PatternMatcher.cs:222-299 | the members of a bracket are read one by one up to the `]` that closes it: characters, escapes, ranges and classes |
| PatternPrinting.ChoiceSplits | src/Computerwelt.Emulation.Bash/Interpreter/PatternMatcher.cs:458-486 | the text of a group is cut at its own bars, not at those of groups, escapes or brackets inside it |
| PatternPrinting.ChoiceEnds | src/Computerwelt.Emulation.Bash/Interpreter/PatternMatcher.cs:431-456 | and ends at its own parenthesis |
| PatternPrinting.UnclosedGroupIsNever | src/Computerwelt.Emulation.Bash/Interpreter/PatternMatcher.cs:305-330 | a group that is never closed matches nothing |
| PatternPrinting.NoGroupsUnlessAsked | src/Computerwelt.Emulation.Bash/Interpreter/PatternMatcher.cs:123-216 | where extended patterns are off, nothing parses to a group |
| PatternPrinting.RangeTakes | src/Computerwelt.Emulation.Bash/Interpreter/PatternMatcher.cs:493-508 | of single characters `[a-z]` takes exactly those from one end to the other, and where case is ignored those whose other case is; `[!a-z]` and `[^a-z]` take exactly the others |
| PatternMeanings.WordsMatchThemselves | src/Computerwelt.Emulation.Bash/Interpreter/PatternMatcher.cs:123-216 | plain text matches itself, up to case where that is ignored, and nothing else |
| PatternMeanings.StarTakesAnything | src/Computerwelt.Emulation.Bash/Interpreter/PatternMatcher.cs:123-216 | `a*b` matches exactly the texts that begin with a, end with b and are at least as long as both |
| PatternMeanings.QuestionTakesOne | src/Computerwelt.Emulation.Bash/Interpreter/PatternMatcher.cs:123-216 | `a?b` matches exactly a, one character and b |
| PatternMeanings.GroupsTakeWords | src/Computerwelt.Emulation.Bash/Interpreter/PatternMatcher.cs:305-406 | of words: `@(…)` matches exactly one of them, `?(…)` that or nothing, `!(…)` exactly everything else |
| PatternMeanings.GroupsTakeRows | src/Computerwelt.Emulation.Bash/Interpreter/PatternMatcher.cs:305-430 | `*(…)` matches exactly any number of them in a row, `+(…)` at least one |
| PatternReplacement.MatchPrefix | src/Computerwelt.Emulation.Bash/Interpreter/PatternMatcher.cs:33-50 | the shortest or longest prefix that matches, or -1 exactly when none does |
| PatternReplacement.MatchSuffix | src/Computerwelt.Emulation.Bash/Interpreter/PatternMatcher.cs:54-70 | the shortest or longest suffix that matches, or -1 exactly when none does |
| PatternReplacement.FindSubstring | src/Computerwelt.Emulation.Bash/Interpreter/PatternMatcher.cs:74-92 | the leftmost longest match from a position on, or none when none exists |
| PatternReplacement.Replace | src/Computerwelt.Emulation.Bash/Interpreter/Expander.cs:889-941 | the text with every chosen span replaced, the spans in order and apart: the longest prefix, the longest suffix, the first match, or every match |
| PatternReplacement.ReplaceMatches | src/Computerwelt.Emulation.Bash/Interpreter/Expander.cs:911-941 | the loop behind the last two, which steps past empty matches |
| PatternReplacement.EveryMatchIsReplaced | src/Computerwelt.Emulation.Bash/Interpreter/Expander.cs:920-941 | no match is left: each one starts inside, or at the start of, a replaced span |
| PatternReplacement.OnlyMatchesAreReplaced | src/Computerwelt.Emulation.Bash/Interpreter/Expander.cs:920-941 | each replaced span matches, and nothing longer from the same start does |
| PatternReplacement.ReplacedOrdered | src/Computerwelt.Emulation.Bash/Interpreter/Expander.cs:920-941 | the spans are disjoint, increasing and inside the text, for zero-length matches too |
| PatternReplacement.SpliceIdentity | src/Computerwelt.Emulation.Bash/Interpreter/Expander.cs:889-941 | putting each span's own text back gives the text: every other character is kept, in order |
| PatternReplacement.LeftmostLongestUnique | src/Computerwelt.Emulation.Bash/Interpreter/PatternMatcher.cs:74-92 | at most one span is leftmost longest |
| PatternReplacement.LeftmostLongestExists | src/Computerwelt.Emulation.Bash/Interpreter/PatternMatcher.cs:74-92 | and when anything matches there is one |
| PatternReplacement.EndIsReplaced | src/Computerwelt.Emulation.Bash/Interpreter/Expander.cs:920-941 | the empty span at the very end is replaced if and only if the pattern matches the empty text, so `*` replaces twice |
| VirtualPath.Normalize | src/Computerwelt.Emulation.Bash/Core/VPath.cs:212-264 | the loop that pushes and pops segments computes the normal form |
| VirtualPath.NormalizeIdempotent | src/Computerwelt.Emulation.Bash/Core/VPath.cs:212-264 | normalizing twice is normalizing once |
| VirtualPath.NormalizeCompositional | src/Computerwelt.Emulation.Bash/Core/VPath.cs:57-73 | normalizing a joined path needs only the normal form of its first part, for every non-empty first part |
| PathRewriting.NameCancels | src/Computerwelt.Emulation.Bash/Core/VPath.cs:205-260 | wherever they stand in a path, a name and the `..` after it cancel |
| PathRewriting.DotVanishes | src/Computerwelt.Emulation.Bash/Core/VPath.cs:205-260 | a `.` is no step |
| PathRewriting.SeparatorsMerge | src/Computerwelt.Emulation.Bash/Core/VPath.cs:205-260 | a doubled separator counts once |
| PathRewriting.LastSeparatorGoes | src/Computerwelt.Emulation.Bash/Core/VPath.cs:205-260 | one at the end does not count |
| PathRewriting.RootHasNoParent | src/Computerwelt.Emulation.Bash/Core/VPath.cs:205-260 | `..` at the root goes nowhere |
| PathRewriting.NamesStay | src/Computerwelt.Emulation.Bash/Core/VPath.cs:205-260 | names between single separators stay as they are, after any `..` in front that a relative path keeps; with the five laws before, that is what normalization does to any path |
| PathRewriting.ResolvesFromHere | src/Computerwelt.Emulation.Bash/Core/VPath.cs:82-98 | a relative path is resolved from the directory given, an absolute one from the root |
| VirtualPath.AbsoluteNormal | src/Computerwelt.Emulation.Bash/Core/VPath.cs:212-264 | an absolute result has no empty, `.` or `..` segment and is the text of its segments |
| VirtualPath.RelativeNormal | src/Computerwelt.Emulation.Bash/Core/VPath.cs:212-264 | a relative result is `.` or has `..` only in front |
| VirtualPath.ResolveStaysAbsolute | src/Computerwelt.Emulation.Bash/Core/VPath.cs:82-90 | from an absolute directory nothing resolves above the root |
| VirtualPath.IsUnderIsPrefix | src/Computerwelt.Emulation.Bash/Core/VPath.cs:165-183 | the character comparison holds exactly when one list of segments is a prefix of the other |
| VirtualPath.JoinRelativeTo | src/Computerwelt.Emulation.Bash/Core/VPath.cs:189-205 | joining the relative path back gives the path, for every absolute path under the base |
| VirtualPath.NoSegments | src/Computerwelt.Emulation.Bash/Core/VPath.cs:158-159 | only the empty path and the root have no segments |
| FileSystem.InMemoryFileSystem.constructor | src/Computerwelt.Emulation.Bash/FileSystems/InMemoryFileSystem.cs:31-46 | a root and /tmp, with counters that agree, or the error that the limits leave the constructor with |
| FileSystem.InMemoryFileSystem.ValidIsTree | src/Computerwelt.Emulation.Bash/FileSystems/InMemoryFileSystem.cs:612-664 | a heap whose nodes are wired as `Valid` says is a tree rooted at `/` |
| FileSystem.InMemoryFileSystem.TryResolve | src/Computerwelt.Emulation.Bash/FileSystems/InMemoryFileSystem.cs:553-581 | walking the children finds the node at a path exactly when there is one |
| FileSystem.InMemoryFileSystem.ResolveParent | src/Computerwelt.Emulation.Bash/FileSystems/InMemoryFileSystem.cs:526-548 | the directory that holds the last name, or the error |
| FileSystem.InMemoryFileSystem.ReadFile | src/Computerwelt.Emulation.Bash/FileSystems/InMemoryFileSystem.cs:88-101 | the bytes at the path, or the error |
| FileSystem.InMemoryFileSystem.EnsureCapacity | src/Computerwelt.Emulation.Bash/FileSystems/InMemoryFileSystem.cs:462-478 | refused exactly when one of the three quotas would be passed |
| FileSystem.InMemoryFileSystem.WriteFile | src/Computerwelt.Emulation.Bash/FileSystems/InMemoryFileSystem.cs:409-460 | the tree, the counters and the error after a write or an append, and every other node kept |
| FileSystem.InMemoryFileSystem.CreateDirectory | src/Computerwelt.Emulation.Bash/FileSystems/InMemoryFileSystem.cs:341-399 | the same for a directory, with or without its parents |
| FileSystem.InMemoryFileSystem.Remove | src/Computerwelt.Emulation.Bash/FileSystems/InMemoryFileSystem.cs:128-155 | the same for removal of a file or a whole subtree: the removal of `FileTree`, whose success, effect and errors RemoveExactly and RemoveRefused state on the tree |
| FileSystem.InMemoryFileSystem.ReleaseAccounting | src/Computerwelt.Emulation.Bash/FileSystems/InMemoryFileSystem.cs:506-524 | the recursion over the children takes off exactly what a recount of the subtree finds |
| FileSystem.InMemoryFileSystem.Rename | src/Computerwelt.Emulation.Bash/FileSystems/InMemoryFileSystem.cs:221-259 | the same for a move: the node itself is relinked, and its subtree with it |
| FileSystem.InMemoryFileSystem.Copy | src/Computerwelt.Emulation.Bash/FileSystems/InMemoryFileSystem.cs:262-276 | the same for a copy |
| FileTreeLaws.RunKeeps | src/Computerwelt.Emulation.Bash/FileSystems/InMemoryFileSystem.cs:128-524 | over every sequence of operations the nodes form a tree within the quotas, and the counters equal a recount unless a move puts a file onto itself |
| FileTreeLaws.RunWithinQuotas | src/Computerwelt.Emulation.Bash/FileSystems/InMemoryFileSystem.cs:462-478 | so the bytes and files really in the tree never pass their quotas |
| FileTreeLaws.ApplyKeeps | src/Computerwelt.Emulation.Bash/FileSystems/InMemoryFileSystem.cs:128-524 | what each one operation keeps |
| FileTreeLaws.WriteKeeps | src/Computerwelt.Emulation.Bash/FileSystems/InMemoryFileSystem.cs:409-460 | a write keeps tree, counters and quotas, whether or not it succeeds |
| FileTreeLaws.WriteReads | src/Computerwelt.Emulation.Bash/FileSystems/InMemoryFileSystem.cs:409-460 | reading gives what was written, or the old bytes and then the new, and no other path reads differently |
| FileTreeLaws.AppendAppend | src/Computerwelt.Emulation.Bash/FileSystems/InMemoryFileSystem.cs:409-460 | two appends that succeed are one append of both |
| FileTreeLaws.MakeKeeps | src/Computerwelt.Emulation.Bash/FileSystems/InMemoryFileSystem.cs:341-399 | making directories keeps tree, counters and quotas, also when it fails half way |
| FileTreeLaws.MakeMakes | src/Computerwelt.Emulation.Bash/FileSystems/InMemoryFileSystem.cs:341-399 | only missing ancestors are added; all of them exist on success; without `recursive` a failure changes nothing |
| FileTreeLaws.RemoveKeeps | src/Computerwelt.Emulation.Bash/FileSystems/InMemoryFileSystem.cs:128-155 | removal keeps tree, counters and quotas |
| FileTreeConditions.RemoveExactly | src/Computerwelt.Emulation.Bash/FileSystems/InMemoryFileSystem.cs:128-155 | a removal succeeds if and only if the path is there and either it is recursive or nothing lies below; what it takes is exactly what lies at or below the path, everything else keeps its entry, and a refused one changes nothing |
| FileTreeConditions.RemoveRefused | src/Computerwelt.Emulation.Bash/FileSystems/InMemoryFileSystem.cs:133-147 | each error of a removal comes exactly under its own condition on the tree: the root, no name, a file on the way, nothing there, or something below |
| FileTreeConditions.ResolveParentExactly | src/Computerwelt.Emulation.Bash/FileSystems/InMemoryFileSystem.cs:526-548 | a path has a place if and only if what it lies in is a directory; otherwise a file is on the way, or something is missing |
| FileTreeConditions.WriteExactly | src/Computerwelt.Emulation.Bash/FileSystems/InMemoryFileSystem.cs:409-460 | a write succeeds if and only if the path has a place that no directory takes, its name and depth are within the limits and the tree with the file in it, recounted, is within the quotas; then that is the tree, and otherwise nothing changes |
| FileTreeConditions.WriteRefused | src/Computerwelt.Emulation.Bash/FileSystems/InMemoryFileSystem.cs:409-460 | each refused write answers the first of its reasons that holds |
| FileTreeConditions.CopyExactly | src/Computerwelt.Emulation.Bash/FileSystems/InMemoryFileSystem.cs:269-284 | a copy succeeds if and only if there is a file whose contents could be written there |
| FileTreeConditions.MakeExactly | src/Computerwelt.Emulation.Bash/FileSystems/InMemoryFileSystem.cs:341-399 | a directory is made if and only if no file is in the way, every name is short enough, the path is not too deep unless it is there, and, without `recursive`, only its last name is missing |
| FileTreeConditions.MakeStops | src/Computerwelt.Emulation.Bash/FileSystems/InMemoryFileSystem.cs:341-399 | made with all above it, it stops at the first name that cannot be, with that name's error, and exactly the directories before that are added |
| FileTreeConditions.RenameExactly | src/Computerwelt.Emulation.Bash/FileSystems/InMemoryFileSystem.cs:227-267 | a move succeeds if and only if its source is there, its target has a place that no full directory takes, and the guard lets it pass; otherwise nothing changes |
| FileTreeConditions.RenameRefused | src/Computerwelt.Emulation.Bash/FileSystems/InMemoryFileSystem.cs:227-267 | each refused move answers the first of its reasons that holds |
| FileTreeLaws.RemoveUndoesWrite | src/Computerwelt.Emulation.Bash/FileSystems/InMemoryFileSystem.cs:128-155 | removing a file just created gives back the whole state, counters too |
| FileTreeLaws.RenameKeepsTree | src/Computerwelt.Emulation.Bash/FileSystems/InMemoryFileSystem.cs:221-259 | a move keeps the tree |
| FileTreeLaws.RenameMoves | src/Computerwelt.Emulation.Bash/FileSystems/InMemoryFileSystem.cs:221-259 | exactly the named subtree moves; what was at the target is gone and every other lookup is unchanged |
| FileTreeLaws.RenameBack | src/Computerwelt.Emulation.Bash/FileSystems/InMemoryFileSystem.cs:221-259 | moving to a free path and back gives back the whole state |
| FileTreeLaws.RenameAccounted | src/Computerwelt.Emulation.Bash/FileSystems/InMemoryFileSystem.cs:239-251 | after a move the counters still equal a recount if and only if the target is not the source or beneath it |
| FileTreeLaws.RenameOntoItself | src/Computerwelt.Emulation.Bash/FileSystems/InMemoryFileSystem.cs:239-251 | for absolute paths that is only a file moved onto itself: the node stays |
| FileTreeLaws.RenameBounded | src/Computerwelt.Emulation.Bash/FileSystems/InMemoryFileSystem.cs:221-259 | a move keeps the depth and name limits if and only if the moved subtree fits at its target, which the code does not ask |
| FileTreeLaws.RelativeTargetPassesTheGuard | src/Computerwelt.Emulation.Bash/FileSystems/InMemoryFileSystem.cs:227-232 | the input that shows it: `a/b` for `/a` |
| FileTreeLaws.GuardExactly | src/Computerwelt.Emulation.Bash/FileSystems/InMemoryFileSystem.cs:227-232 | for an absolute source the guard holds if and only if the target is absolute and at or below it |
| FileTreeLaws.MovedBelowItself | src/Computerwelt.Emulation.Bash/FileSystems/InMemoryFileSystem.cs:248-251 | a move to below itself that gets past the guard leaves the tree without the whole subtree |
| FileTreeLaws.WriteBounded | src/Computerwelt.Emulation.Bash/FileSystems/InMemoryFileSystem.cs:480-504 | a write keeps the limits on depth and names |
| FileTreeLaws.MakeBounded | src/Computerwelt.Emulation.Bash/FileSystems/InMemoryFileSystem.cs:480-504 | so does making directories |
| FileTreeLaws.ApplyBounded | src/Computerwelt.Emulation.Bash/FileSystems/InMemoryFileSystem.cs:480-504 | every operation keeps them if and only if it is no move, or one that fits |
| FileTreeLaws.RunBounded | src/Computerwelt.Emulation.Bash/FileSystems/InMemoryFileSystem.cs:480-504 | so over every run whose moves fit nothing is nested or named beyond the limits |
| FileTreeLaws.CopyReads | src/Computerwelt.Emulation.Bash/FileSystems/InMemoryFileSystem.cs:262-276 | the copy reads as the original |
| ShellVariables.ShellVariable.SetScalar | src/Computerwelt.Emulation.Bash/Interpreter/ShellVariable.cs:132-148 | the abstract contents after a scalar assignment, from either form of storage |
| ShellVariables.ShellVariable.SetIndexed | src/Computerwelt.Emulation.Bash/Interpreter/ShellVariable.cs:154-173 | the same for one subscript |
| ShellVariables.ShellVariable.SetAssociative | src/Computerwelt.Emulation.Bash/Interpreter/ShellVariable.cs:176-180 | the same for one key |
| ShellVariables.ShellVariable.SetArray | src/Computerwelt.Emulation.Bash/Interpreter/ShellVariable.cs:183-189 | the same for a whole array |
| ShellVariables.ShellVariable.AppendArray | src/Computerwelt.Emulation.Bash/Interpreter/ShellVariable.cs:192-196 | the same for an append, which starts after the highest subscript |
| ShellVariables.ShellVariable.Fill | src/Computerwelt.Emulation.Bash/Interpreter/ShellVariable.cs:200-215 | the loop behind both |
| ShellVariables.ShellVariable.GetElement | src/Computerwelt.Emulation.Bash/Interpreter/ShellVariable.cs:218-240 | what a subscript reads, negative ones from the highest |
| ShellVariables.ShellVariable.UnsetElement | src/Computerwelt.Emulation.Bash/Interpreter/ShellVariable.cs:243-269 | the contents without one element |
| ShellVariables.ShellVariable.Count | src/Computerwelt.Emulation.Bash/Interpreter/ShellVariable.cs:310-314 | the number of elements of the map |
| ShellVariables.ShellVariable.IsUnset | src/Computerwelt.Emulation.Bash/Interpreter/ShellVariable.cs:96-98 | whether the element a scalar read would give is missing |
| ShellVariables.ShellVariable.NormalizeIndex | src/Computerwelt.Emulation.Bash/Interpreter/ShellVariable.cs:317-326 | which subscript a negative one means |
| ShellVariables.ShellVariable.Clone | src/Computerwelt.Emulation.Bash/Interpreter/ShellVariable.cs:357-372 | a new object with equal contents, nothing shared |
| ShellVariables.ReadBack | src/Computerwelt.Emulation.Bash/Interpreter/ShellVariable.cs:154-173 | what is written at a subscript is read back, unless the array is empty and the subscript below -1: if and only if |
| ShellVariables.FilledAt | src/Computerwelt.Emulation.Bash/Interpreter/ShellVariable.cs:200-215 | a fill changes the run of subscripts it covers and no other |
| ShellVariables.AppendedArray | src/Computerwelt.Emulation.Bash/Interpreter/ShellVariable.cs:192-196 | setting an array and appending to it is setting the concatenation |
| ShellVariables.ScalarKeepsTheRest | src/Computerwelt.Emulation.Bash/Interpreter/ShellVariable.cs:132-148 | a scalar assigned to an array changes element nought only |
| ShellVariables.ScalarReadsBack | src/Computerwelt.Emulation.Bash/Interpreter/ShellVariable.cs:132-149 | a scalar assignment reads back, whatever the variable was, and changes no attribute |
| ShellVariables.IndexedKeepsTheRest | src/Computerwelt.Emulation.Bash/Interpreter/ShellVariable.cs:154-174 | writing one element leaves every other as it is |
| ShellVariables.AppendsAfterTheHighest | src/Computerwelt.Emulation.Bash/Interpreter/ShellVariable.cs:192-214 | values are appended after the highest subscript in use, in order, and what is there stays, with its gaps |
| ShellVariables.UnsetTakesTheElement | src/Computerwelt.Emulation.Bash/Interpreter/ShellVariable.cs:243-270 | an unset takes exactly the element its subscript means: it is read no more, and every other stays |
| ShellVariables.NegativeCountsBack | src/Computerwelt.Emulation.Bash/Interpreter/ShellVariable.cs:317-330 | a subscript below nought counts from one past the highest in use |
| ShellScopes.Scope.constructor | src/Computerwelt.Emulation.Bash/Interpreter/ShellState.cs:576-590 | an empty layer |
| ShellScopes.Scope.Share | src/Computerwelt.Emulation.Bash/Interpreter/ShellState.cs:591-592 | a new layer over this one shows the same bindings and owns none |
| ShellScopes.Scope.TryPeek | src/Computerwelt.Emulation.Bash/Interpreter/ShellState.cs:650-664 | looks through the chain without touching it |
| ShellScopes.Scope.TryGet | src/Computerwelt.Emulation.Bash/Interpreter/ShellState.cs:600-618 | copies on first touch: the same bindings afterwards, and the object returned is the layer's own |
| ShellScopes.Scope.Define | src/Computerwelt.Emulation.Bash/Interpreter/ShellState.cs:621-625 | one binding changes |
| ShellScopes.Scope.Remove | src/Computerwelt.Emulation.Bash/Interpreter/ShellState.cs:628-639 | one binding goes, and a borrowed one is hidden |
| ShellScopes.Scope.Entries | src/Computerwelt.Emulation.Bash/Interpreter/ShellState.cs:645-646 | every visible name once, each with an object of this layer |
| ShellScopes.Scope.CollectNames | src/Computerwelt.Emulation.Bash/Interpreter/ShellState.cs:666-682 | the names through the chain, each once, none hidden |
| ShellSessions.ShellState.Execute | src/Computerwelt.Emulation.Bash/Interpreter/ShellState.cs:515-549 | main theorem: any script of assignments, lookups through references, removals, enumerations, scope changes and nested forks whose lookups all return gives the bindings and observations of shells that copy everything on a fork; the frame says that nothing an ancestor can see is written |
| ShellSessions.ShellState.ExecuteOne | src/Computerwelt.Emulation.Bash/Interpreter/ShellState.cs:515-549 | one step of it; for a fork, the whole script of the fork |
| ShellSessions.ShellState.Fork | src/Computerwelt.Emulation.Bash/Interpreter/ShellState.cs:515-549 | a fork shows its parent's bindings and consists of new objects only |
| ShellSessions.ShellState.Search | src/Computerwelt.Emulation.Bash/Interpreter/ShellState.cs:203-235 | the innermost layer that binds the name, and its own copy of the variable |
| ShellSessions.ShellState.LookupRaw | src/Computerwelt.Emulation.Bash/Interpreter/ShellState.cs:224-235 | a lookup changes no binding |
| ShellSessions.ShellState.Set | src/Computerwelt.Emulation.Bash/Interpreter/ShellState.cs:279-301 | assignment goes to the defining layer or the outermost, refused when read-only |
| ShellSessions.ShellState.SetLocal | src/Computerwelt.Emulation.Bash/Interpreter/ShellState.cs:304-319 | assignment in the innermost layer |
| ShellSessions.ShellState.GetOrCreateAndAlter | src/Computerwelt.Emulation.Bash/Interpreter/ShellState.cs:322-334 | the variable a name leads to is changed where it lives; if there is none, a new one takes the place of the name |
| ShellSessions.ShellState.Unset | src/Computerwelt.Emulation.Bash/Interpreter/ShellState.cs:341-367 | the innermost binding of the name at the end of the references goes, refused when read-only |
| ShellSessions.ShellState.AllVariables | src/Computerwelt.Emulation.Bash/Interpreter/ShellState.cs:370-383 | every name that can be read, no other, each once and with its innermost variable |
| ShellSessions.ShellState.PushScope | src/Computerwelt.Emulation.Bash/Interpreter/ShellState.cs:136-137 | one more empty layer |
| ShellSessions.ShellState.PopScope | src/Computerwelt.Emulation.Bash/Interpreter/ShellState.cs:140-146 | one layer fewer, never none |
| ShellSessions.ShellState.FindDefiningScope | src/Computerwelt.Emulation.Bash/Interpreter/ShellState.cs:498-509 | the index of the innermost layer that binds the name |
| ShellSessions.ShellState.Lookup | src/Computerwelt.Emulation.Bash/Interpreter/ShellState.cs:148-203 | the variable at the end of the references from a name, found without changing a binding |
| ShellSessions.ShellState.MakeReference | src/Computerwelt.Emulation.Bash/Builtins/Core/VariableBuiltins.cs:211-228 | `local -n`: a variable of the innermost layer becomes a reference |
| ShellSessions.LookupReturnsExactly | src/Computerwelt.Emulation.Bash/Interpreter/ShellState.cs:148-170 | a lookup returns if and only if the references from the name end after some number of hops |
| ShellSessions.CycleNeverReturns | src/Computerwelt.Emulation.Bash/Interpreter/ShellState.cs:148-170 | the script that shows it: two references to each other, and a look at one of them |
| ShellSessions.ChangeReachesExactly | src/Computerwelt.Emulation.Bash/Interpreter/ShellState.cs:322-334 | a change through references reaches the variable at their end if and only if there is one; otherwise it makes none, and the reference itself becomes an ordinary variable |
| ShellSessions.AssignmentStays | src/Computerwelt.Emulation.Bash/Interpreter/ShellState.cs:279-301 | an assignment by arithmetic, `for` or `${x:=…}` changes the variable of the name itself and no other, whatever it refers to |
| ShellBindings.NewNamesAreGlobal | src/Computerwelt.Emulation.Bash/Interpreter/ShellState.cs:279-298 | a name that nothing binds is assigned in the outermost scope, and nothing else changes |
| ShellBindings.OldNamesStayWhereTheyAre | src/Computerwelt.Emulation.Bash/Interpreter/ShellState.cs:279-298 | any other is assigned in the innermost scope that binds it, its attributes kept, unless and only unless it is readonly there |
| ShellBindings.LocalsAreInnermost | src/Computerwelt.Emulation.Bash/Interpreter/ShellState.cs:304-320 | `local` binds in the innermost scope, whatever binds the name further out |
| ShellBindings.UnsetShowsTheOuterOne | src/Computerwelt.Emulation.Bash/Interpreter/ShellState.cs:341-368 | an unset takes the innermost binding, so that the next one out shows again; it is refused exactly when that binding is readonly |
| ShellBindings.ChangesStayWhereTheyAre | src/Computerwelt.Emulation.Bash/Interpreter/ShellState.cs:322-336 | a change to an ordinary variable is made where it is bound, or to a new one in the outermost scope |
| ShellBindings.ListsEveryName | src/Computerwelt.Emulation.Bash/Interpreter/ShellState.cs:370-384 | a listing has exactly the names some scope binds, with the value of the innermost |
| ShellBindings.ReferencesForward | src/Computerwelt.Emulation.Bash/Interpreter/ShellState.cs:149-178 | a name made a reference leads to its target's variable |
| ShellBindings.GlobalsOutliveTheFunction | src/Computerwelt.Emulation.Bash/Interpreter/ShellState.cs:137-147 | what a function assigns to a name bound nowhere is there when it has returned |
| ShellBindings.LocalsEndWithTheFunction | src/Computerwelt.Emulation.Bash/Interpreter/ShellState.cs:137-147 | what it makes local it reads itself, and afterwards the name reads, and the scopes are, as before |
| ShellBindings.OnwardCuts | src/Computerwelt.Emulation.Bash/Interpreter/ShellState.cs:149-178 | a lookup leaves off a reference's subscript, from its first bracket on |
| ShellSessions.StayPlain | src/Computerwelt.Emulation.Bash/Interpreter/ShellState.cs:279-367 | without references every lookup returns, and no step but `local -n` makes one |
| ShellArithmeticLaws.EvaluatePrinted | src/Computerwelt.Emulation.Bash/Interpreter/ArithmeticEvaluator.cs:41-104 | main theorem: the text of any expression, with only the parentheses that precedence and associativity ask for and any blanks, evaluates to the meaning of the tree, with the same errors and the same variables afterwards |
| ShellArithmeticStores.StoredReadsBack | src/Computerwelt.Emulation.Bash/Interpreter/ArithmeticEvaluator.cs:603-650 | for every 64-bit number, name and depth below the limit: reading the name after the number was stored gives the number and changes nothing, and no other text changes |
| ShellArithmeticStores.AwayReads | src/Computerwelt.Emulation.Bash/Interpreter/ArithmeticEvaluator.cs:603-635 | every other name that does not lead to it reads as before, with the same value or error: one that holds a number, nothing, or the text of an expression that, however deep, does not read it |
| ShellArithmeticStores.NamesAreFollowed | src/Computerwelt.Emulation.Bash/Interpreter/ArithmeticEvaluator.cs:603-635 | one whose text is the name reads as the number stored |
| ShellArithmeticStores.AssignAnswers | src/Computerwelt.Emulation.Bash/Interpreter/ArithmeticEvaluator.cs:107-149 | `x = e, x` evaluates to what `e` does, as text, and leaves no other variable changed by the store |
| ShellArithmeticStores.LeavesItsValue | src/Computerwelt.Emulation.Bash/Interpreter/ArithmeticEvaluator.cs:107-149 | after `x = e`, `x op= e`, `++x` and `--x`, reading `x` in the same text gives the value that was answered |
| ShellArithmeticStores.CompoundIsBinary | src/Computerwelt.Emulation.Bash/Interpreter/ArithmeticEvaluator.cs:107-149 | `x op= e` is `x = x op e` where nothing is assigned in between |
| ShellArithmeticStores.StepIsAssignment | src/Computerwelt.Emulation.Bash/Interpreter/ArithmeticEvaluator.cs:419-493 | `++x` is `x = x + 1`, and `x++` leaves the same and answers what `x` was |
| ShellArithmeticStores.DirectReads | src/Computerwelt.Emulation.Bash/Interpreter/ArithmeticEvaluator.cs:603-635 | a sign and digits with blanks around them are read as their number, if it is in range |
| ShellArithmeticRefusals.NothingIsNought | src/Computerwelt.Emulation.Bash/Interpreter/ArithmeticEvaluator.cs:41-61 | blank text is nought, and so is a variable that is not set |
| ShellArithmeticRefusals.SelfReferenceFails | src/Computerwelt.Emulation.Bash/Interpreter/ArithmeticEvaluator.cs:603-612 | a variable whose text is its own name cannot be read at any depth |
| ShellArithmeticRefusals.CloseTooMany | src/Computerwelt.Emulation.Bash/Interpreter/ArithmeticEvaluator.cs:41-61 | an expression followed by a parenthesis is evaluated and then a syntax error |
| ShellArithmeticRefusals.CloseMissing | src/Computerwelt.Emulation.Bash/Interpreter/ArithmeticEvaluator.cs:428-441 | one in an open parenthesis is evaluated, and then the close is missing |
| ShellArithmeticRefusals.ColonMissing | src/Computerwelt.Emulation.Bash/Interpreter/ArithmeticEvaluator.cs:155-171 | of a conditional without its second half both operands are evaluated, and then the colon is missing |
| ShellArithmeticValues.SumsWrap | src/Computerwelt.Emulation.Bash/Interpreter/ArithmeticEvaluator.cs:317-366 | sums, differences and products are the 64-bit numbers congruent to the exact ones |
| ShellArithmeticValues.DividesExactly | src/Computerwelt.Emulation.Bash/Interpreter/ArithmeticEvaluator.cs:657-661 | division and remainder fail exactly by zero and for the one quotient out of range, and are otherwise the division that rounds toward zero |
| ShellArithmeticValues.OnlyOneTruncates | src/Computerwelt.Emulation.Bash/Interpreter/ArithmeticEvaluator.cs:657-661 | there is one such quotient and remainder |
| ShellArithmeticValues.ShiftsExactly | src/Computerwelt.Emulation.Bash/Interpreter/ArithmeticEvaluator.cs:294-315 | a left shift multiplies by the power of two of the last six bits of its count and wraps, a right shift divides by it and rounds down |
| ShellArithmeticValues.PowersExactly | src/Computerwelt.Emulation.Bash/Interpreter/ArithmeticEvaluator.cs:663-690 | a power wraps; below exponent 0 it is the inverse power where that is an integer, and 0 otherwise |
| ShellArithmeticValues.BitsExactly | src/Computerwelt.Emulation.Bash/Interpreter/ArithmeticEvaluator.cs:197-238 | the bitwise operators join the bits in two's complement |
| ShellArithmeticValues.BaseReadsInText | src/Computerwelt.Emulation.Bash/Interpreter/ArithmeticEvaluator.cs:549-570 | in the text, `base#digits` reads as its number wrapped to 64 bits, for every base from 2 to 64 and every number |
| ShellArithmeticValues.HexReads | src/Computerwelt.Emulation.Bash/Interpreter/ArithmeticEvaluator.cs:495-547 | after `0x` a numeral is hexadecimal, and refused past 64 bits |
| ShellArithmeticValues.OctalReads | src/Computerwelt.Emulation.Bash/Interpreter/ArithmeticEvaluator.cs:495-547 | after `0` it is octal |
| ShellArithmeticValues.DecimalReads | src/Computerwelt.Emulation.Bash/Interpreter/ArithmeticEvaluator.cs:495-547 | any other is decimal, and refused past the largest number |
| ShellArithmeticValues.ZeroThenDecimalReads | src/Computerwelt.Emulation.Bash/Interpreter/ArithmeticEvaluator.cs:495-547 | and one after `0` with an 8 or a 9 is decimal |
| ShellArithmeticLaws.Reads | src/Computerwelt.Emulation.Bash/Interpreter/ArithmeticEvaluator.cs:96-417 | for every level and any continuation: the text of the tree is read and nothing of what follows |
| ShellArithmeticLaws.ReadsChain | src/Computerwelt.Emulation.Bash/Interpreter/ArithmeticEvaluator.cs:173-366 | a left-associative level, stopped where its loop may go on |
| ShellArithmeticLaws.NoAssignment | src/Computerwelt.Emulation.Bash/Interpreter/ArithmeticEvaluator.cs:107-149 | the text of a tree without assignment at its head is never taken for one |
| ShellArithmeticLaws.QuietEval | src/Computerwelt.Emulation.Bash/Interpreter/ArithmeticEvaluator.cs:155-195 | without assignments evaluation changes no variable, and where it has a value that is the value under short-circuit rules |
| ShellArithmeticLaws.StrictnessShows | src/Computerwelt.Emulation.Bash/Interpreter/ArithmeticEvaluator.cs:173-195 | evaluating both sides of `&&` or `\|\|` can be seen if and only if the left side decides and the right side fails |
| ShellArithmeticLaws.ConditionalShows | src/Computerwelt.Emulation.Bash/Interpreter/ArithmeticEvaluator.cs:155-171 | evaluating both branches of `?:` can be seen if and only if the branch not taken fails and the other does not, or fails differently |
| ShellArithmeticLaws.SkippedDivisionFails | src/Computerwelt.Emulation.Bash/Interpreter/ArithmeticEvaluator.cs:185-195 | `0 && 1/0` is an error |
| ShellEvaluator.EvaluateInternal | src/Computerwelt.Emulation.Bash/Interpreter/ArithmeticEvaluator.cs:41-59 | the evaluator, which advances a position and writes variables, computes the functions the laws are about; it terminates by recursion depth and text left |
| ShellEvaluator.ArithmeticEvaluator.ParseAssignment | src/Computerwelt.Emulation.Bash/Interpreter/ArithmeticEvaluator.cs:107-149 | the same for an assignment, with its backtracking; what it stores reads back by StoredReadsBack and LeavesItsValue |
| ShellEvaluator.ArithmeticEvaluator.ParseTernary | src/Computerwelt.Emulation.Bash/Interpreter/ArithmeticEvaluator.cs:155-171 | the same for the conditional |
| ShellEvaluator.ArithmeticEvaluator.ParseBinary | src/Computerwelt.Emulation.Bash/Interpreter/ArithmeticEvaluator.cs:173-366 | the same for the ten left-associative levels |
| ShellEvaluator.ArithmeticEvaluator.ParseOperators | src/Computerwelt.Emulation.Bash/Interpreter/ArithmeticEvaluator.cs:173-366 | the loop of one of these levels |
| ShellEvaluator.ArithmeticEvaluator.ParsePower | src/Computerwelt.Emulation.Bash/Interpreter/ArithmeticEvaluator.cs:368-382 | the same for `**`, to the right |
| ShellEvaluator.ArithmeticEvaluator.ParseUnary | src/Computerwelt.Emulation.Bash/Interpreter/ArithmeticEvaluator.cs:384-417 | the same for signs and negations |
| ShellEvaluator.ArithmeticEvaluator.ParsePostfix | src/Computerwelt.Emulation.Bash/Interpreter/ArithmeticEvaluator.cs:428-489 | the same for names, parentheses and increments |
| ShellEvaluator.ArithmeticEvaluator.ParseNumber | src/Computerwelt.Emulation.Bash/Interpreter/ArithmeticEvaluator.cs:495-547 | the same for literals |
| ShellEvaluator.ArithmeticEvaluator.ReadVariable | src/Computerwelt.Emulation.Bash/Interpreter/ArithmeticEvaluator.cs:603-635 | a variable whose text is an expression is evaluated one level deeper, up to the limit |
| ShellIntegers.Power | src/Computerwelt.Emulation.Bash/Interpreter/ArithmeticEvaluator.cs:663-690 | the squaring loop gives the mathematical power wrapped to 64 bits |
| ShellIntegers.PowWrap | src/Computerwelt.Emulation.Bash/Interpreter/ArithmeticEvaluator.cs:663-690 | wrapping the base first does not matter |
| ShellIntegers.WrapProduct | src/Computerwelt.Emulation.Bash/Interpreter/ArithmeticEvaluator.cs:340-366 | wrapping the factors first does not matter |
| ShellIntegers.ParseInBase | src/Computerwelt.Emulation.Bash/Interpreter/ArithmeticEvaluator.cs:549-569 | the digit loop gives the number wrapped to 64 bits, or the error for the first bad digit |
| ShellIntegers.DecimalNumber | src/Computerwelt.Emulation.Bash/Interpreter/ArithmeticEvaluator.cs:495-547 | decimal digits read back as the number |
| ShellIntegers.ShiftedIsFloor | src/Computerwelt.Emulation.Bash/Interpreter/ArithmeticEvaluator.cs:294-315 | an arithmetic right shift is division rounded down |
| BraceLaws.ExpandsToProduct | src/Computerwelt.Emulation.Bash/Interpreter/BraceExpander.cs:25-89 | main theorem: the text of any balanced term (literals, comma groups, ranges with harmless items, groups kept as text, nested and in a row) expands to exactly its left-major product, in order, with the items that the text of each range stands for |
| BraceLaws.WordMatching | src/Computerwelt.Emulation.Bash/Interpreter/BraceExpander.cs:128-163 | the scan for a closing brace passes over the text of any term |
| BraceLaws.ChoiceSplits | src/Computerwelt.Emulation.Bash/Interpreter/BraceExpander.cs:165-205 | splitting the text of a comma group gives the texts of its items |
| BraceLaws.GroupFound | src/Computerwelt.Emulation.Bash/Interpreter/BraceExpander.cs:92-126 | the scan finds the first group of a term and its close |
| BraceLaws.AppendStrings | src/Computerwelt.Emulation.Bash/Interpreter/BraceExpander.cs:62-89 | the words of two terms in a row are the product of their words |
| BraceExpander.FindOpeningBrace | src/Computerwelt.Emulation.Bash/Interpreter/BraceExpander.cs:92-126 | the first brace outside quotes, escapes and `${` |
| BraceExpander.FindMatchingBrace | src/Computerwelt.Emulation.Bash/Interpreter/BraceExpander.cs:128-163 | the brace that closes it, or -1 |
| BraceExpander.SplitAlternatives | src/Computerwelt.Emulation.Bash/Interpreter/BraceExpander.cs:165-205 | the items at depth nought |
| BraceExpander.Expand | src/Computerwelt.Emulation.Bash/Interpreter/BraceExpander.cs:17-23 | the expansion, whole; the limit error exactly when some call on the way begins with more results than the limit; no end only when there is no expansion |
| BraceExpander.LimitExactly | src/Computerwelt.Emulation.Bash/Interpreter/BraceExpander.cs:25-30 | where no group keeps its braces, the expander is stopped if and only if there are at least two results more than the limit: one more than the limit passes |
| BraceExpander.ExpandInto | src/Computerwelt.Emulation.Bash/Interpreter/BraceExpander.cs:25-89 | the same, appended to the shared list; it ends because every result is shorter than the text it comes from |
| BraceExpansion.AlternativesFit | src/Computerwelt.Emulation.Bash/Interpreter/BraceExpander.cs:165-205 | no alternative is longer than the body |
| BraceItems.ItemsFit | src/Computerwelt.Emulation.Bash/Interpreter/BraceExpander.cs:211-294 | a range has an item and none is longer than the text of the range, wrapped numbers included |
| BraceItems.RangeCharacters | src/Computerwelt.Emulation.Bash/Interpreter/BraceExpander.cs:211-222 | what is written with any other character than digits, signs, letters, blanks and dots is no range |
| BraceRanges.TryExpandRange | src/Computerwelt.Emulation.Bash/Interpreter/BraceExpander.cs:211-294 | the items of a range from its text: numbers with their step and padding, or letters; or that it is none; or that it never ends |
| BraceNumerals.NumbersRead | src/Computerwelt.Emulation.Bash/Interpreter/BraceExpander.cs:211-258 | as text: two written numbers, signed or padded, and a step, if any, are the numbers from one to the other by the size of the step, whatever its sign; no range exactly when the step is nought or out of range |
| BraceNumerals.LettersRead | src/Computerwelt.Emulation.Bash/Interpreter/BraceExpander.cs:261-291 | the same for two letters |
| BraceNumerals.WidthExactly | src/Computerwelt.Emulation.Bash/Interpreter/BraceExpander.cs:236-240 | the items are as wide as the longer end exactly when one end has a zero in front that no plus hides |
| BraceNumerals.ItemsReadBack | src/Computerwelt.Emulation.Bash/Interpreter/BraceExpander.cs:305-316 | each item reads back as its number and is as wide as the width, or its digits where they are more |
| BraceNumerals.NumbersInOrder | src/Computerwelt.Emulation.Bash/Interpreter/BraceExpander.cs:242-256 | where the step after the last number stays within 64 bits, the items are the plain progression |
| BraceNumerals.LettersOneByOne | src/Computerwelt.Emulation.Bash/Interpreter/BraceExpander.cs:275-289 | two letters without a step are all characters from one to the other, in order, up or down |
| BraceRanges.CutAtDots | src/Computerwelt.Emulation.Bash/Interpreter/BraceExpander.cs:213-217 | the parts between the `..`, from the left |
| BraceRanges.NumberRange | src/Computerwelt.Emulation.Bash/Interpreter/BraceExpander.cs:242-258 | the numbers stepped through in 64 bits, each with its padding |
| BraceRanges.LetterRange | src/Computerwelt.Emulation.Bash/Interpreter/BraceExpander.cs:261-291 | the characters stepped through in 16 bits, for every step |
| CyclicSteps.Walk | src/Computerwelt.Emulation.Bash/Interpreter/BraceExpander.cs:242-291 | the loop in machine integers goes through the steps up to the first past the end, if there is one |
| CyclicSteps.EndsExactly | src/Computerwelt.Emulation.Bash/Interpreter/BraceExpander.cs:242-291 | there is one if and only if the residue of the start by the greatest common divisor of step and size says so, in any ring of integers and in both directions |
| CyclicSteps.ProgressionExactly | src/Computerwelt.Emulation.Bash/Interpreter/BraceExpander.cs:242-291 | the values are the plain progression if and only if the step after the last of them is past the end |
| BraceRanges.LetterRangeEnds | src/Computerwelt.Emulation.Bash/Interpreter/BraceExpander.cs:275-289 | a letter range ends if and only if, going up, the step is no multiple of 65536, and, going down, the residue of its first letter by gcd(65536, step) lies below its end |
| BraceRanges.NumberRangeEnds | src/Computerwelt.Emulation.Bash/Interpreter/BraceExpander.cs:242-256 | the same for numbers, in 64 bits |
| BraceRanges.LettersInOrder | src/Computerwelt.Emulation.Bash/Interpreter/BraceExpander.cs:275-289 | a letter range is the plain progression if and only if the step after its last letter, in 16 bits, is past the end |
| BraceRanges.LettersInOrderBelow | src/Computerwelt.Emulation.Bash/Interpreter/BraceExpander.cs:275-289 | for steps below 65414 that is: always going up, and going down if and only if the step is no larger than the last letter |
| BraceItems.EndlessLetters | src/Computerwelt.Emulation.Bash/Interpreter/BraceExpander.cs:283-289 | the input that shows it: `{c..a}` with step 128 never ends |
| BraceLaws.EndlessGroup | src/Computerwelt.Emulation.Bash/Interpreter/BraceExpander.cs:53-61 | and then the word has no expansion, whatever stands around the range |
| BraceItems.ItemsHarmless | src/Computerwelt.Emulation.Bash/Interpreter/BraceExpander.cs:53-61 | the items take part in no further expansion if and only if they are numbers or the letters come upon none of six characters on their way |
| BraceItems.SpecialInOrder | src/Computerwelt.Emulation.Bash/Interpreter/BraceExpander.cs:275-289 | a range in order comes upon one of them if and only if it is the backslash, between its ends and a multiple of the step away; never upon a brace |
| BraceExpansion.CountFallsExactly | src/Computerwelt.Emulation.Bash/Interpreter/BraceExpander.cs:53-61 | with an item in the place of its range the number of `{` falls if and only if the item is not `{` |
| BraceItems.BraceAmongLetters | src/Computerwelt.Emulation.Bash/Interpreter/BraceExpander.cs:283-289 | the input that shows it: the second item of `{b..a..65511}` is `{` |
| BraceLaws.BackslashHides | src/Computerwelt.Emulation.Bash/Interpreter/BraceExpander.cs:92-126 | an item that is a backslash hides the character after it from the scan for groups |
| BraceLaws.BackslashHidesAGroup | src/Computerwelt.Emulation.Bash/Interpreter/BraceExpander.cs:92-126 | so a group of plain text after it stays as it was written |
| ShellInterpreter.Interpreter.ExecuteAsync | src/Computerwelt.Emulation.Bash/Interpreter/Interpreter.cs:147-202 | every program ends under a finite budget, by (iterations left, commands left, size), with the outcome of the specification and the nesting counters put back |
| ShellInterpreter.Interpreter.ExecuteSimpleAsync | src/Computerwelt.Emulation.Bash/Interpreter/Interpreter.cs:1000-1104 | one command is charged before it acts |
| ShellInterpreter.Interpreter.CallFunctionAsync | src/Computerwelt.Emulation.Bash/Interpreter/Interpreter.cs:1173-1214 | the depth is charged and given back, and a `return` ends here |
| ShellInterpreter.Interpreter.ExecuteListAsync | src/Computerwelt.Emulation.Bash/Interpreter/Interpreter.cs:313-370 | a list runs its right side exactly as the specification says: not after a left side that ends otherwise than normally, and after `&&` and `\|\|` by its exit code (RightIsNotRun, RightIsRun, LeftIsAll) |
| ShellInterpreter.Interpreter.ExecuteIfAsync | src/Computerwelt.Emulation.Bash/Interpreter/Interpreter.cs:463-488 | a condition, then one branch |
| ShellInterpreter.Interpreter.ExecuteLoopAsync | src/Computerwelt.Emulation.Bash/Interpreter/Interpreter.cs:490-587 | `while`, `until`, `for` and the arithmetic `for` as one loop, charged at each pass |
| ShellInterpreter.Interpreter.Decide | src/Computerwelt.Emulation.Bash/Interpreter/Interpreter.cs:668-725 | whether a pass of the loop begins, for each of the kinds of loop |
| ShellInterpreter.ExecutionBudget.ChargeCommand | src/Computerwelt.Emulation.Bash/Limits/ExecutionBudget.cs:51-59 | one command fewer, or the limit |
| ShellInterpreter.ExecutionBudget.ChargeLoopIteration | src/Computerwelt.Emulation.Bash/Limits/ExecutionBudget.cs:66-79 | one iteration fewer, refused by the limit of the loop or of the run |
| ShellInterpreter.ExecutionBudget.EnterFunction | src/Computerwelt.Emulation.Bash/Limits/ExecutionBudget.cs:110-119 | one frame fewer, or the limit |
| ShellCommandLaws.BreakEndsTheNthLoop | src/Computerwelt.Emulation.Bash/Interpreter/Interpreter.cs:731-777 | `break n` under any number of lists, branches, calls and at least n loops ends exactly the n-th loop out, keeps all output, and the rest goes on normally |
| ShellCommandLaws.ContinueResumesTheNthLoop | src/Computerwelt.Emulation.Bash/Interpreter/Interpreter.cs:731-777 | `continue n` goes on with exactly the n-th loop out |
| ShellCommandLaws.BreakPastAllLoops | src/Computerwelt.Emulation.Bash/Core/ControlFlow.cs:52-55 | with fewer loops than n, everything around is left with the levels that remain |
| ShellPrograms.TakenContinues | src/Computerwelt.Emulation.Bash/Interpreter/Interpreter.cs:313-370 | each single step down, into the left or right side of a list, a condition, a branch, a loop, its body or its next iteration, or a function, leaves the outcome as it is with one frame more |
| ShellPrograms.RunIsFrames | src/Computerwelt.Emulation.Bash/Interpreter/Interpreter.cs:147-202 | wherever a run has got to, by any path through lists, branches, loops and calls, the outcome of the whole is what the constructs around make of that place |
| ShellOutcomes.RightIsNotRun | src/Computerwelt.Emulation.Bash/Interpreter/Interpreter.cs:343-355 | after `&&` and a failure, and after `\|\|` and a success, the outcome is the left side's exit code, output and budget, for every right side |
| ShellOutcomes.RightIsRun | src/Computerwelt.Emulation.Bash/Interpreter/Interpreter.cs:357-369 | otherwise, unless `set -e` stops the sequence, it is the right side's, run where the left ended and after its output |
| ShellOutcomes.LeftIsAll | src/Computerwelt.Emulation.Bash/Interpreter/Interpreter.cs:313-341 | a list whose left side spends the budget, ends otherwise than normally, stands alone or is stopped by `set -e` is its left side, for every right side |
| ShellOutcomes.TestsDoNotAbort | src/Computerwelt.Emulation.Bash/Interpreter/Interpreter.cs:334-355 | `a && b; c` with `set -e` goes on to `c` when `a` fails and stops when `b` does |
| ShellOutcomes.GroupingDoesNotMatter | src/Computerwelt.Emulation.Bash/Interpreter/Interpreter.cs:313-370 | `(a && b) && c` runs as `a && (b && c)`, and so for `\|\|` and `;` |
| ShellOutcomes.OneBranch | src/Computerwelt.Emulation.Bash/Interpreter/Interpreter.cs:463-488 | an `if` runs the branch its condition's exit code chooses, after the condition's output; with none it is a success, and nothing more is run or charged |
| ShellOutcomes.ConditionIsAll | src/Computerwelt.Emulation.Bash/Interpreter/Interpreter.cs:463-472 | a condition that ends otherwise than normally is all of the `if` |
| ShellOutcomes.ItemsAtAnEnd | src/Computerwelt.Emulation.Bash/Interpreter/Interpreter.cs:543-587 | a `for` with no item left ends with what it had and charges nothing; with one left and nothing to charge the run is over; else the body runs with the variable set |
| ShellOutcomes.NoItems | src/Computerwelt.Emulation.Bash/Interpreter/Interpreter.cs:543-587 | a `for` over nothing succeeds without output |
| ShellOutcomes.TestAtAnEnd | src/Computerwelt.Emulation.Bash/Interpreter/Interpreter.cs:668-725 | an arithmetic `for` whose test is nought ends with what it had, one iteration charged |
| ShellOutcomes.ConditionAtAnEnd | src/Computerwelt.Emulation.Bash/Interpreter/Interpreter.cs:490-541 | a `while` whose condition fails, or an `until` whose condition succeeds, ends with what it had and the condition's output |
| ShellOutcomes.CommandsAreCharged | src/Computerwelt.Emulation.Bash/Interpreter/Interpreter.cs:1000-1104 | a command that is no function costs one command and leaves its output at the end of the log |
| ShellOutcomes.CallsAreCharged | src/Computerwelt.Emulation.Bash/Interpreter/Interpreter.cs:1173-1214 | a function costs one command, and one frame while it runs; a `return` in it gives its exit code and any other control flow goes on outside |
| ShellOutcomes.ReturnEndsTheCall | src/Computerwelt.Emulation.Bash/Interpreter/Interpreter.cs:1173-1214 | `return` under any lists, branches and loops ends exactly the innermost call, with its code, all output so far, and the frame given back |
| ShellOutcomes.ExitLeavesEverything | src/Computerwelt.Emulation.Bash/Interpreter/Interpreter.cs:731-777 | `exit` leaves every list, branch, loop and call, with its code, all output and all frames given back |
| ShellPrograms.BreakInAProgram | src/Computerwelt.Emulation.Bash/Interpreter/Interpreter.cs:731-777 | main theorem of control flow: `break n` or `continue n` at any place of a program, under at least n loops, makes the whole run what the constructs outside the n-th loop make of its normal end, or of its going on |
| ShellPrograms.ConditionFlowIsLost | src/Computerwelt.Emulation.Bash/Interpreter/Interpreter.cs:502-518 | in every iteration the loop does the same whatever control flow its condition ended with |
| ShellPrograms.ConditionFlowIsHonouredExactly | src/Computerwelt.Emulation.Bash/Interpreter/Interpreter.cs:502-518 | that is what is meant if and only if there is none, or it is a `break` of this loop and the test fails |
| ShellPrograms.RunIsAsMeantExactly | src/Computerwelt.Emulation.Bash/Interpreter/Interpreter.cs:502-518 | and the whole run from there on is the one meant if and only if the same holds, for every turn but the one whose test passes while `continue` means to test again |
| ShellPrograms.WhileBreakNeverEnds | src/Computerwelt.Emulation.Bash/Interpreter/Interpreter.cs:502-518 | the input that shows it: `while break; do :; done` runs until the budget is spent, for every budget |
| ShellCommandLaws.MoreBudget | src/Computerwelt.Emulation.Bash/Limits/ExecutionBudget.cs:51-79 | a run that ends within its budget ends the same under any larger one, in commands, iterations, iterations of a loop and frames, and spends the same |
| ShellCommandLaws.OutputIsKept | src/Computerwelt.Emulation.Bash/Interpreter/Interpreter.cs:313-370 | the output of a run is exactly what its commands wrote, in order |
| FieldSplitting.AppendSplit | src/Computerwelt.Emulation.Bash/Interpreter/Expander.cs:1060-1134 | the scanner appends the fields of the rule to the field under construction, and copies text as it is when there is nothing to split on |
| FieldSplitting.SplitFollowsTheRule | src/Computerwelt.Emulation.Bash/Interpreter/Expander.cs:1060-1134 | whenever a text reads as white space, then fields each with one delimiter (white space with at most one other separator), those are the fields |
| FieldSplitting.SplitCuts | src/Computerwelt.Emulation.Bash/Interpreter/Expander.cs:1060-1134 | and every text reads in that way |
| FieldSplitting.SplitKeepsTheRest | src/Computerwelt.Emulation.Bash/Interpreter/Expander.cs:1060-1134 | no field holds a separator, and the other characters survive in order |
| FieldSplitting.SpaceSeparatesWords | src/Computerwelt.Emulation.Bash/Interpreter/Expander.cs:1060-1134 | with white space only, no field is empty |
| ShellQuoting.QuoteRoundTrip | src/Computerwelt.Emulation.Bash/Interpreter/Expander.cs:1035-1048 | main theorem: for every string, the lexer cuts the quoted form into exactly one word, which parses to literal parts only and expands to exactly the one field it came from |
| ShellQuoting.QuoteIsOneWord | src/Computerwelt.Emulation.Bash/Parsing/Lexer.cs:233-344 | wherever in a script the quoted form stands, a word that begins there takes all of it |
| ShellQuoting.QuoteThenRest | src/Computerwelt.Emulation.Bash/Parsing/Lexer.cs:63-89 | in front of the end or of whatever cuts a word it is the next token, whole; only digits before `<` or `>` are a descriptor |
| ShellQuoting.CommandLineReads | src/Computerwelt.Emulation.Bash/Interpreter/Expander.cs:1035-1048 | the lexer cuts values quoted and joined with blanks into as many words, each of which expands to its value |
| ShellQuoting.QuoteInjective | src/Computerwelt.Emulation.Bash/Interpreter/Expander.cs:1035-1048 | different strings are quoted differently |
| ShellQuoting.EscapeRoundTrip | src/Computerwelt.Emulation.Bash/Interpreter/Expander.cs:1221-1272 | unescaping an escaped text gives it back, and an escaped text has no active metacharacter |
| ShellQuoting.AppendQuoted | src/Computerwelt.Emulation.Bash/Interpreter/Expander.cs:1221-1244 | the loop over runs appends the escaped text |
| ShellQuoting.UnescapeField | src/Computerwelt.Emulation.Bash/Interpreter/Expander.cs:1252-1272 | the loop removes the escapes |
| ShellLexer.Lexer.Tokenize | src/Computerwelt.Emulation.Bash/Parsing/Lexer.cs:42-54 | the tokens of the specification with the bodies of the here-documents, or none where the specification has none; what those tokens are is LexemesCover, and when there are none RefusedExactly |
| ShellLexer.LexemesCover | src/Computerwelt.Emulation.Bash/Parsing/Lexer.cs:42-54 | a script that is not refused is cut into tokens that are in bounds, written there, in order and apart, with only blanks, continued lines and comments between them (and here-documents after a line end), and one end mark, last |
| ShellLexer.RefusedExactly | src/Computerwelt.Emulation.Bash/Parsing/Lexer.cs:42-54 | a script is refused if and only if one of its words has a piece that is opened and never closed |
| ShellLexer.Lexer.NextToken | src/Computerwelt.Emulation.Bash/Parsing/Lexer.cs:63-89 | the next token of the specification, and the position, the waiting here-documents and their bodies after it |
| ShellLexer.NextReads | src/Computerwelt.Emulation.Bash/Parsing/Lexer.cs:63-89 | the next token stands after nothing but blanks and comments and is what is written there: a word up to what cuts it, an operator in its spelling, a descriptor before `<` or `>`; there is none exactly when a word there has a piece that never closes |
| ShellLexer.Lexer.SkipBlanksAndComments | src/Computerwelt.Emulation.Bash/Parsing/Lexer.cs:91-122 | skips blanks, continued lines and comments up to the end of the specification |
| ShellLexer.SkipStops | src/Computerwelt.Emulation.Bash/Parsing/Lexer.cs:91-122 | and nothing of the kind stands there |
| ShellLexer.SkipIsBlank | src/Computerwelt.Emulation.Bash/Parsing/Lexer.cs:91-122 | and nothing but them was skipped |
| ShellLexer.Lexer.LexWord | src/Computerwelt.Emulation.Bash/Parsing/Lexer.cs:233-344 | the word of the specification, or the descriptor; a word names the first here-document that waits for its delimiter |
| ShellWords.WordIsCut | src/Computerwelt.Emulation.Bash/Parsing/Lexer.cs:233-344 | a word ends at the end of the script or at the first sign outside quotes and groups that cuts it, none stands between its pieces before that, and it is refused if and only if a piece is opened and never closed |
| ShellWords.WordKept | src/Computerwelt.Emulation.Bash/Parsing/Lexer.cs:233-344 | a word keeps every character that was written but for continued lines |
| ShellWordParts.WordExactly | src/Computerwelt.Emulation.Bash/Parsing/Lexer.cs:233-344 | main theorem of words: the word at a place is a text up to an end if and only if some parts spell it (letters, escapes, continued lines, quotes, expansions, substitutions and groups, nested in any way) and something that cuts it comes next |
| ShellWordParts.PieceOfPart | src/Computerwelt.Emulation.Bash/Parsing/Lexer.cs:233-344 | each such part is taken whole |
| ShellWordParts.PartOfPiece | src/Computerwelt.Emulation.Bash/Parsing/Lexer.cs:233-344 | and whatever is taken is such a part |
| ShellWordParts.AssignmentPrefixExactly | src/Computerwelt.Emulation.Bash/Parsing/Lexer.cs:351-396 | a parenthesis opens a list of values exactly after a name, an index in brackets perhaps, a plus perhaps, and an equals sign |
| ShellWordParts.GroupFitsExactly | src/Computerwelt.Emulation.Bash/Parsing/Lexer.cs:233-344 | a parenthesis goes on with a word exactly there, and after the sign of an extended pattern |
| ShellWordParts.NestedSubstitution | src/Computerwelt.Emulation.Bash/Parsing/Lexer.cs:709-721 | an example: `$(f $(g))` is one word |
| ShellNestingLaws.ParensExactly | src/Computerwelt.Emulation.Bash/Parsing/Lexer.cs:669-729 | inside parentheses the scan ends at a place if and only if plain characters, quotes, escapes, comments and nested parentheses, in any nesting, spell the text up to the close before it |
| ShellNestingLaws.BracesExactly | src/Computerwelt.Emulation.Bash/Parsing/Lexer.cs:616-666 | the same inside `${` |
| ShellNestingLaws.DoubleExactly | src/Computerwelt.Emulation.Bash/Parsing/Lexer.cs:418-464 | the same inside double quotes, with every expansion in them |
| ShellNestingLaws.EscapedExactly | src/Computerwelt.Emulation.Bash/Parsing/Lexer.cs:466-490 | the same inside back quotes and `$'` |
| ShellNestingLaws.ArithmeticExactly | src/Computerwelt.Emulation.Bash/Parsing/Lexer.cs:578-614 | the same inside `$((`, which takes a second close along where there is one |
| ShellNestingLaws.ParensCount | src/Computerwelt.Emulation.Bash/Parsing/Lexer.cs:709-721 | over text without quotes, escapes and number signs a parenthesis is closed at the first place where closes outnumber openings, and never exactly when they never do |
| ShellNestingLaws.BracesCount | src/Computerwelt.Emulation.Bash/Parsing/Lexer.cs:616-666 | the same for braces |
| ShellNestingLaws.ArithmeticCount | src/Computerwelt.Emulation.Bash/Parsing/Lexer.cs:578-614 | the same for an arithmetic expansion, over any text, but for the second close |
| ShellWords.UnclosedExactly | src/Computerwelt.Emulation.Bash/Parsing/Lexer.cs:233-344 | what a piece that never closes is: a quote, a back quote, an expansion, an array or pattern group, or a process substitution with no end of its own |
| ShellWords.NeverClosedExactly | src/Computerwelt.Emulation.Bash/Parsing/Lexer.cs:418-729 | double quotes, parentheses and braces are never closed if and only if no beginning of the script closes them with its last character: what closes them depends on nothing after it |
| ShellWords.NoQuoteExactly | src/Computerwelt.Emulation.Bash/Parsing/Lexer.cs:398-416 | a single quote is closed by the next one, and never closed exactly when there is none |
| ShellWords.HashHidesTheLine | src/Computerwelt.Emulation.Bash/Parsing/Lexer.cs:698-706 | a `#` in plain text inside parentheses hides the rest of its line, the closing parenthesis too |
| ShellWords.HashRefusesTheWord | src/Computerwelt.Emulation.Bash/Parsing/Lexer.cs:698-706 | so on the last line such a substitution is refused, whatever else the line holds |
| ShellWords.LengthInSubstitution | src/Computerwelt.Emulation.Bash/Parsing/Lexer.cs:698-706 | the input that shows it: `$(echo ${#x})` |
| ShellLexer.Lexer.ConsumeQuoted | src/Computerwelt.Emulation.Bash/Parsing/Lexer.cs:398-416 | up to the quote the specification names, kept whole, or unclosed exactly when it names none |
| ShellLexer.Lexer.ConsumeDoubleQuoted | src/Computerwelt.Emulation.Bash/Parsing/Lexer.cs:418-464 | the same for double quotes, with the expansions inside them |
| ShellLexer.Lexer.ConsumeDollar | src/Computerwelt.Emulation.Bash/Parsing/Lexer.cs:492-550 | the same for what follows a `$` |
| ShellLexer.Lexer.ConsumeArithmetic | src/Computerwelt.Emulation.Bash/Parsing/Lexer.cs:578-614 | the same for `$((`, up to `))` or a single parenthesis |
| ShellLexer.Lexer.ConsumeBraceExpansion | src/Computerwelt.Emulation.Bash/Parsing/Lexer.cs:616-666 | the same for `${` |
| ShellLexer.Lexer.ConsumeBalanced | src/Computerwelt.Emulation.Bash/Parsing/Lexer.cs:669-729 | the same up to a matching parenthesis, over quotes, escapes and comments; which one that is ParensExactly and ParensCount say |
| ShellLexer.Lexer.CollectPendingHereDocuments | src/Computerwelt.Emulation.Bash/Parsing/Lexer.cs:735-768 | the bodies of all waiting here-documents, one after the other, each in its place |
| ShellLexer.Lexer.CollectBody | src/Computerwelt.Emulation.Bash/Parsing/Lexer.cs:742-764 | the body of one of them, and the position past its delimiter |
| ShellLexer.BodyReads | src/Computerwelt.Emulation.Bash/Parsing/Lexer.cs:742-764 | for any lines that are not the delimiter, with leading tabs stripped or not, the body is those lines and ends at the line that is |
| ShellLexer.LongestOperator | src/Computerwelt.Emulation.Bash/Parsing/Lexer.cs:136-210 | of the operators written at a place the longest is read, and none where a substitution begins |
| ShellLexer.OperatorIsWritten | src/Computerwelt.Emulation.Bash/Parsing/Lexer.cs:136-210 | an operator that is read is written there |
| ShellParserLaws.AcceptsExactly | src/Computerwelt.Emulation.Bash/Parsing/Parser.cs:112-125 | main theorem of the parser: it accepts a stream of tokens as a script if and only if the stream is that script, well written: nothing is skipped, read twice or read past the end, and every well written script is accepted as itself |
| ShellParserLaws.Unambiguous | src/Computerwelt.Emulation.Bash/Parsing/Parser.cs:136-180 | no stream of tokens is two scripts |
| ShellParserLaws.ListExactly | src/Computerwelt.Emulation.Bash/Parsing/Parser.cs:136-180 | the same for a list in front of anything |
| ShellParserLaws.ElifLosesTheFirstBranch | src/Computerwelt.Emulation.Bash/Parsing/Parser.cs:320-329 | the tree of an `if` is what the words mean if and only if no `elif` follows: otherwise the first condition and its branch are gone |
| ShellParserLaws.ArithmeticReadsAll | src/Computerwelt.Emulation.Bash/Parsing/Parser.cs:517-556 | balanced text between double parentheses is read whole if and only if it is empty or does not end with a parenthesis |
| ShellParserLaws.SecondLineIsAnotherBranch | src/Computerwelt.Emulation.Bash/Parsing/Parser.cs:595-648 | after any list and line ends in a `case` branch, whatever follows is read as a further branch, or refused exactly when it cannot be one |
| ShellParserLaws.NextLineByItsTokens | src/Computerwelt.Emulation.Bash/Parsing/Parser.cs:595-620 | a line is refused when its first tokens are no patterns, and otherwise its words are the patterns of a branch |
| ShellParserLaws.SubshellLineIsLost | src/Computerwelt.Emulation.Bash/Parsing/Parser.cs:595-648 | the input that shows it: a subshell of one word on the second line is a branch with nothing to do |
| ShellParserLaws.TimeForgetsNegationExactly | src/Computerwelt.Emulation.Bash/Parsing/Parser.cs:211-236 | the tree of a pipeline is what the exclamation marks in front of it and of every `time` inside it mean if and only if no `time`, at any depth, has an odd number of them in front of it |
| ShellParserLaws.DefinitionExactly | src/Computerwelt.Emulation.Bash/Parsing/Parser.cs:859-872 | the body of a function is the command that stands there if and only if it is not a group or subshell with redirections |
| ShellParserLaws.CoprocessNameExactly | src/Computerwelt.Emulation.Bash/Parsing/Parser.cs:428-446 | a coprocess is named if and only if the first word could be a name and a word or parenthesis follows |
| ShellParserLaws.LoopTakenForAName | src/Computerwelt.Emulation.Bash/Parsing/Parser.cs:428-446 | where `coproc while` (or `until`) parses, the keyword is the name and the command begins after it if a word or `(` comes next, and otherwise there is no name and the loop is the command |
| ShellMeanings.ReadAsWrittenExactly | src/Computerwelt.Emulation.Bash/Parsing/Parser.cs:209-361 | for a whole script: the trees answered are those of what the script means (each `elif` an `if` of its own, each `! time x` a `time ! { x; }`, redirections after a function its own) if and only if it has, at any depth, no `elif`, no `time` behind an odd number of `!` and no redirection right behind a group or subshell that is the body of a function |
| ShellMeanings.GraftWritten | src/Computerwelt.Emulation.Bash/Parsing/Parser.cs:859-872 | giving a function the redirections that follow it changes none of the tokens |
| ShellParsing.ParseList | src/Computerwelt.Emulation.Bash/Parsing/Parser.cs:136-180 | a list uses up at least one token, and the mutual recursion of all productions ends by the tokens left |
| ShellParsing.ParseCommand | src/Computerwelt.Emulation.Bash/Parsing/Parser.cs:259-297 | so does a command of any kind |
| ShellParsing.ParseCases | src/Computerwelt.Emulation.Bash/Parsing/Parser.cs:582-593 | the branches of a `case` end too |
| ShellParserSoundness.SoundList | src/Computerwelt.Emulation.Bash/Parsing/Parser.cs:136-180 | what a list was read from is the list, written out, and well written there |
| ShellParserSoundness.SoundPipe | src/Computerwelt.Emulation.Bash/Parsing/Parser.cs:209-252 | the same for a pipeline, with `!` and `time` |
| ShellParserSoundness.SoundCommand | src/Computerwelt.Emulation.Bash/Parsing/Parser.cs:259-297 | the same for any command with its redirections |
| ShellParserSoundness.SoundBody | src/Computerwelt.Emulation.Bash/Parsing/Parser.cs:311-692 | the same for every compound command |
| ShellParserSoundness.SoundItems | src/Computerwelt.Emulation.Bash/Parsing/Parser.cs:939-999 | the same for assignments, words and redirections, and where a simple command ends |
| ShellParserSoundness.SoundOr | src/Computerwelt.Emulation.Bash/Parsing/Parser.cs:694-784 | the same for conditional expressions |
| ShellParserSoundness.SoundBlock | src/Computerwelt.Emulation.Bash/Parsing/Parser.cs:882-918 | the same for blocks, with or without separators |
| ShellParserCompleteness.CompleteList | src/Computerwelt.Emulation.Bash/Parsing/Parser.cs:136-180 | a well written list is read back as it was |
| ShellParserCompleteness.CompletePipe | src/Computerwelt.Emulation.Bash/Parsing/Parser.cs:209-252 | the same for a pipeline |
| ShellParserCompleteness.CompleteCommand | src/Computerwelt.Emulation.Bash/Parsing/Parser.cs:259-297 | the same for any command |
| ShellParserCompleteness.CompleteBody | src/Computerwelt.Emulation.Bash/Parsing/Parser.cs:311-692 | the same for every compound command |
| ShellParserCompleteness.CompleteItems | src/Computerwelt.Emulation.Bash/Parsing/Parser.cs:939-999 | the same for simple commands |
| ShellParserCompleteness.CompleteOr | src/Computerwelt.Emulation.Bash/Parsing/Parser.cs:694-784 | the same for conditional expressions |
| ShellParserCompleteness.CompleteArithmetic | src/Computerwelt.Emulation.Bash/Parsing/Parser.cs:517-556 | the same for arithmetic text that does not close itself |
| ShellParserCompleteness.CompleteBlock | src/Computerwelt.Emulation.Bash/Parsing/Parser.cs:882-918 | the same for blocks |
| ShellParser.ParseText | src/Computerwelt.Emulation.Bash/Parsing/Parser.cs:36-42 | from the text: what the lexer cuts is what the parser reads, and what either refuses is refused |
| ShellParser.Parse | src/Computerwelt.Emulation.Bash/Parsing/Parser.cs:112-125 | the parser that moves an index answers the trees of the phrases the functions read, or fails when they do |
| ShellParser.Parser.ParseList | src/Computerwelt.Emulation.Bash/Parsing/Parser.cs:136-180 | one list, built to the left for `&&` and `\|\|`; the index never passes the end mark |
| ShellParser.Parser.ParsePipeline | src/Computerwelt.Emulation.Bash/Parsing/Parser.cs:209-252 | one pipeline |
| ShellParser.Parser.ParseCommand | src/Computerwelt.Emulation.Bash/Parsing/Parser.cs:259-297 | one command, chosen by its first tokens |
| ShellParser.Parser.ParseSimpleCommand | src/Computerwelt.Emulation.Bash/Parsing/Parser.cs:939-999 | one simple command, gathered in three lists |
| ShellParser.Parser.ParseIf | src/Computerwelt.Emulation.Bash/Parsing/Parser.cs:311-338 | an `if`; from the first `elif` on, what follows answers for all |
| ShellParser.Parser.ParseElseTail | src/Computerwelt.Emulation.Bash/Parsing/Parser.cs:340-361 | an `elif` or `else` and what follows |
| ShellParser.Parser.ParseFor | src/Computerwelt.Emulation.Bash/Parsing/Parser.cs:385-426 | a `for` over words or with arithmetic |
| ShellParser.Parser.ParseCase | src/Computerwelt.Emulation.Bash/Parsing/Parser.cs:568-593 | a `case` |
| ShellParser.Parser.ParseCaseItem | src/Computerwelt.Emulation.Bash/Parsing/Parser.cs:595-648 | one branch |
| ShellParser.Parser.ReadUntilDoubleRightParen | src/Computerwelt.Emulation.Bash/Parsing/Parser.cs:517-556 | arithmetic text |
| ShellParser.Parser.ParseConditionalOr | src/Computerwelt.Emulation.Bash/Parsing/Parser.cs:694-705 | a conditional expression |
| ShellParser.Parser.ParseBlockUntil | src/Computerwelt.Emulation.Bash/Parsing/Parser.cs:882-903 | a block |

## Left out

Weaker than the source:

- CompiledBodyMeansTheSource: asks that every emitted loop exit lands where it belongs, because the code is wrong otherwise; see GuardedExactly and LoopInCleanupUnderflows. Names are locals, and constants and names are carried in instructions instead of pool indices. Operators and iterators are parameters that may do anything to the world.
- NeverCrashes: same programs as CompiledBodyMeansTheSource.
- RunKeeps: the counters are kept for moves that do not put a file onto itself, because that is the exact condition; see RenameAccounted. Symbolic links, modes, timestamps and locks are not modelled.
- ExpandsToProduct: a range whose letters come upon a special character is not a term, because it may be expanded again; see ItemsHarmless. Only literals without quotes, `$` and backslash are terms.
- TryExpandRange: a step that has no absolute value (the smallest number) and a loop without end are one answer, NoResult; trailing NUL characters, which the library lets pass, are not.
- EvaluatePrinted: array subscripts are not modelled (`[` is a syntax error in the model); read-only variables are not modelled.
- ParsePostfix: array subscripts are not modelled.
- ReadVariable: array elements are not modelled.
- SetIndexed: subscripts are unbounded integers; wrap-around at 64 bits is not modelled.
- ExecuteOne: as Execute.
- MakeReference: the name is not checked, and the target is assigned as text; array literals and integer variables are not modelled.
- Execute: asks that the script's lookups return, which is the exact condition (LookupReturnsExactly); functions, aliases and traps of a forked shell are not modelled, and of the options only the one that exports assignments is; the parent is idle while a fork runs.
- RunIsAsMeantExactly: leaves out the turn in which the test passes and `continue` means to test again, because both runs may then spend the same budget; ConditionFlowIsLost covers it for a single turn.
- ExecuteSimpleAsync: expansion and builtins are a parameter and charge nothing themselves.
- CallFunctionAsync: positional parameters, the scope of a call and temporary assignments are not modelled.
- ExecuteListAsync: the ERR trap and standard error are not modelled.
- ExecuteAsync: traps, pipelines, redirections, `case`, `select`, subshells, builtins that run further commands, the deadline and the work units are not modelled; what a simple command does is a parameter.
- AppendSplit: which characters are white space is a parameter.

- ParseFor: the header of an arithmetic `for` is kept as tokens; cutting it into its three clauses is not modelled.
- ParseConditionalOr: `=~` is not an operator.
- AcceptsExactly: tokens are given, `=~` is not an operator, and the parser's own fuel and the overflow of a descriptor number are not modelled.

Not modelled:

- Python `except`, `with`, classes, generators, closures, comprehensions, exception context and tracebacks, and the limit on instructions.
- Jumps out of a plain `try`/`except` body, which emit no `PopBlock`.
- Listing and seeding of the file system, usage reports, and symbolic links.
- The halves of surrogate pairs, which letters can reach by coming round: each has a character of its own in the model, outside the Basic Multilingual Plane.
- The culture of case mapping (letters are a parameter), and floating point numbers.
- The order of a directory's or an associative array's entries.
- The inside of words: `WordParser` and the recognition of assignments are parameters of the parser, and so are their errors.
- Offsets, lines and spans in the trees, the attachment of here-document bodies to redirections, and the wording of syntax errors; arithmetic text is kept as tokens. The operand of `=~` is cut from the source by offsets and is not part of this model, so there `=~` is not an operator.
- Redirection, restoring the assignments in front of a command, and POSIX regular expressions.
