# Verified model of perf-prof's core algorithms

perf-prof reads kernel ring buffers, merges them in time order and analyses pairs of events. This
project models the parts of it that are algorithms rather than I/O, and proves what they are for:

| part | files |
|---|---|
| expression compiler and stack machine (`expr.c`) | `Words`, `WordLaws`, `ExprSyntax`, `ExprLaws`, `ExprCode`, `ExprMachine`, `ExprCorrect`, `ExprProgram`, `ExprParse`, `ExprPrecedence`, `ExprErrors`, `ExprPrinting`, `ExprSpelling`, `ExprLexer`, `ExprNumerals`, `ExprCompiler`, `ExprTheorem`, `ExprRaw` |
| time-ordered merge of ring buffers (`order.c`) | `MinHeap`, `OrderLog`, `Order` |
| two-event matcher with and without a timeline (`multi-trace.c`) | `Matcher`, `MatcherExact`, `MatcherDeferred`, `MatcherLate`, `MatcherDelayed`, `TimelineNodes`, `Timeline` |
| the merge feeding the matcher | `Pipeline` |
| fork tracking (`ptrace.c`) | `Ptrace` |
| event stream over TCP (`net.c`, `event-spread.c`) | `Net` |
| clock conversion (`convert.c`) | `Convert` |
| task-time accounting (`task-state.c`, `latency_helpers.c`) | `TaskState`, `Latency` |
| calendar decoding (`localtime.c`) | `Localtime` |
| options, lists without repeats, powers of two | `Common` |

`dafny verify dfyconfig.toml` checks the whole project. Code that updates state in place is a class
or a method with loops, specified by functions on values; the theorems are about those functions.

## How the model reads the source

**Expressions.** Source text is lexed into tokens; the one-pass compiler (`ExprCompiler.CompilerState`)
writes words into a buffer, patches branches and rewrites the last load, exactly as `expr` does, and is
proved equal to a functional one-pass compiler (`ExprParse`). That compiler is proved to emit, for the
text of a tree, the code of the tree (`ExprCode.Code`), and running that code is proved to give the value
and memory of a direct recursive evaluator (`ExprSyntax.Value`). What the evaluator, its loads and its
operators give is stated in plain arithmetic, with the sizes and ranges of C's types written out
(`WordLaws`, `ExprLaws`), and so is what the lexer makes of literals (`ExprNumerals`). Branch targets are code indices. The
meaning of the language is that of the code: `a||b` and `a&&b` yield an operand, casts change only the
type, assignments and pre-increments yield the untruncated value, arithmetic is 64-bit with wrap-around,
shift counts are taken modulo 64, division by zero and the one overflowing quotient stop the machine.
Lvalues are names, `*e`, `e[i]`, and those in parentheses. Facts a reader of the documentation would not
expect are stated as lemmas:

- The lvalue test looks at a raw word. For every well-typed tree it passes exactly for lvalues and for the
  trees that end in a load or in a word that happens to be its number (`ExprRaw.Raw`, `ExprRaw.RawTest`):
  `+x`, `(char)x`, the last branch of `?:`, the right operand of `&&` and `||`, `p++` for a `long *p`,
  `x*y` for a `long y`.
- Assigning to such an operand, stepping it or taking its address is then accepted. The code still decodes
  into whole instructions exactly when the operand does not end in `?:`, `&&` or `||`
  (`ExprRaw.RawProgram`): otherwise the branch over that operand lands inside an instruction. The text
  `x && y = 5` is accepted for two `int` fields, and with `x == 0` its code leaves the program
  (`ExprRaw.AndAssignAccepted`, `ExprRaw.AndAssignRunsAway`).
- `-5` and `-(5)` compile to different code with the same value (`ExprPrinting.MinusLiteral`). These are the
  only parentheses that change the code: with parentheses added anywhere it stays the same exactly if no
  `-n` becomes `-(n)` (`ExprSpelling.SameCodeExactly`).

**Merge.** A ring is an append-only stream with a cursor; how much of it is visible grows at any moment,
chosen freely by every read. Loss prediction, pauses, both timestamp repairs, loss reports, un-reading and
reference counting are modelled; what the records contain, and when they arrive, is arbitrary. What becomes
of a LOST record, and where a report comes from, are part of the invariant (`OrderLog.Kept`). A LOST record
is reported with its own ring and count at the ring's next sample, or superseded by the ring's next LOST
record, or the last of the ring's visible records. Every report is of the last LOST record kept back before
it, which has not been reported; it starts at its ring's last delivered sample and ends at its next one. The
count is that of another ring only for a report of the loop, when that other ring had nothing more to read. A
count that is still pending at the end of a call, or when a ring is first read, is dropped. Timestamps are
unchanged over any number of calls that each find the rings sorted and no unread sample older than the popped
time; each call notes what it found.

**Merge and matcher.** A loss found when a ring is first read starts at the ring's last delivered sample,
which may lie before the popped time (the check at order.c:507). A reported pair spans a reported loss exactly
if it had been reported before the loss was (`Pipeline.MergedPairsExactly`). So the promise that none does
holds if and only if, at each loss report that starts before the popped time, no pair reported so far spans it
(`Pipeline.PromiseExactly`); it always does when ranges are kept per instance. Two rings and two calls for
which it does not hold are given turn by turn (`Pipeline.LateLossHappens`, `Pipeline.EarlyLossSpanned`).

**Matcher.** `Matcher.Step` is what one sample or one loss report does in the mode without a timeline.
`Timeline.Tracer` is the mode with one: nodes, pending list, needed list, backup tree, counters, skipped
events, deferred loss handling and freeing. Both are proved against `Matcher.Run`; with a delay after the
second event the timeline is proved against a matcher in which events wait (`MatcherDelayed.DelayRun`). A lost range affects
all events, or the events of one instance when events are keyed by instance.

**Fork tracking.** Events arrive in any order the kernel allows: no event for a process after its exit or
detach, one FORK per child, no further first stop. Which device clones succeed is arbitrary.

**Event stream.** Every `send` takes any number of bytes or none, every `recv` returns any number of bytes
that fit. A record is a whole perf record longer than its 8-byte header, with its size in the header.

**Clocks** are computed in explicit 64-bit arithmetic. **Task times** follow one node per pid. **Calendar**
fields are computed with C's division; the formula is that of section 4.16 (Seconds Since the Epoch) of
IEEE Std 1003.1-2017.

## Model
| member | source | states |
|---|---|---|
| `WordLaws.RoundTrip` | expr.c:505-518 | a value of 1, 2, 4 or 8 bytes, negative ones included, is loaded as it was stored |
| `WordLaws.Truncates` | expr.c:505-518 | what is loaded differs from any other value stored by a multiple of the number of values of that size |
| `WordLaws.LoadRange` | expr.c:505-510 | every load gives a number in the signed range of its size |
| `WordLaws.StoredByte` | expr.c:512-518 | byte i of what was stored is the i-th byte of the value, low bytes first |
| `WordLaws.StoreElsewhere` | expr.c:512-518 | no byte outside the stored ones changes |
| `WordLaws.BitwiseBits` | expr.c:523-525 | `|`, `^` and `&` bit by bit |
| `WordLaws.Shifted` | expr.c:532-533 | a left shift multiplies by a power of two modulo 2^64, a right shift divides by it rounding down |
| `WordLaws.Truncated` | expr.c:537-538 | the remainder of a division has the sign of the dividend and is smaller than the divisor |
| `WordLaws.BytesReversed` | expr.c:542-543 | `ntohl` and `ntohs` give the low bytes in reverse order as a signed number |
| `Words.WrapUndo` | expr.c:331-333 | post-increment's correction restores the old value in 64-bit arithmetic |
| `ExprSyntax.InstructionMeans` | expr.c:523-538 | the instruction emitted for each binary operator computes what the evaluator says the operator means |
| `ExprLaws.FieldReads` | expr.c:229-236 | an int, short, char or long field that holds a number evaluates to it, negative ones included |
| `ExprLaws.AssignReads` | expr.c:283-287 | an assignment has the value of its right side; the field then holds it, or what is congruent to it in its range, and no other byte changes |
| `ExprLaws.LocationReads` | expr.c:252-256 | an lvalue evaluates to what is stored at its location in the size of its type |
| `ExprLaws.DerefAddrOf` | expr.c:252-261 | `*&e` is `e` |
| `ExprLaws.IndexIsDeref` | expr.c:336-344 | `l[r]` is `*(l + r)` |
| `ExprLaws.ElementReads` | expr.c:336-344 | element i of an array field is read i elements behind its first, with elements of 1, 2, 4 or 8 bytes |
| `ExprLaws.Steps` | expr.c:270-335 | `++` and `--` before and behind a location: the value given, and the value stored one element or 1 further |
| `ExprLaws.FieldSteps` | expr.c:270-335 | so a field that can hold the next number holds it afterwards |
| `ExprLaws.PointerMoves` | expr.c:310-320 | adding an integer to a pointer, or taking it away, moves it by that many elements |
| `ExprLaws.PointersApart` | expr.c:315-317 | the difference of two pointers into an array is the difference of their indices |
| `ExprLaws.LogicMeans` | expr.c:297-298 | `||` and `&&` leave the right side alone when the left decides |
| `ExprLaws.UnaryMeans` | expr.c:262-269 | `!`, `~`, `+` and `-` in plain arithmetic |
| `ExprLaws.BinMeans` | expr.c:299-323 | operands are evaluated left to right, and the operator is applied to their values |
| `ExprLaws.Wraps` | expr.c:534-536 | sums, differences and products are exact modulo 2^64 |
| `ExprLaws.Divides` | expr.c:537-538 | division fails exactly for a zero divisor and the one quotient that does not fit, and otherwise truncates |
| `ExprLaws.CallMeans` | expr.c:542-543 | what the two built-in functions give |
| `ExprSyntax.TypesAreGood` | expr.c:195-347 | every well-typed tree has a type whose width the machine can load and store |
| `ExprCode.LvalueCode` | expr.c:259-332 | the code of an lvalue is its address code followed by the load that the compiler rewrites |
| `ExprCode.CodeBound` | expr.c:195-347 | emitted words are at most twelve per token |
| `ExprCode.DepthBound` | expr.c:477-549 | stack depth is at most the number of tokens |
| `ExprSpelling.DepthBySize` | expr.c:477-549 | every stack slot is paid for with two words, so what fits the code buffer fits the stack |
| `ExprCorrect.CodeCorrect` | expr.c:195-347 | for every well-typed tree, any stack with room and any memory, running its code leaves the evaluator's value in `a`, its effects in memory and the stack as it was, or traps where the evaluator does |
| `ExprCorrect.AddrCorrect` | expr.c:259-344 | the address code of an lvalue computes its location |
| `ExprCorrect.BinRuns` | expr.c:299-323 | the code of each binary operator, with pointer scaling and pointer difference, computes the evaluator's arithmetic |
| `ExprProgram.ProgramCorrect` | expr.c:437-443 | comma-separated expressions run one after the other, the last one's value remains |
| `ExprProgram.ImageCorrect` | expr.c:477-549 | a compiled program returns its value within as many steps as it has words |
| `ExprProgram.CodeShaped` | expr.c:281-298 | the code of a tree decodes into whole instructions and every branch goes forward to an instruction boundary inside or just behind it |
| `ExprProgram.ImageShaped` | expr.c:437-447 | so does a whole program, from word 1 to its end |
| `ExprProgram.StepAdvances` | expr.c:483-548 | on such code every step moves forward to another boundary or stops |
| `ExprProgram.ExprRun` | expr.c:477-549 | the interpreter loop halts on such code with the outcome of its steps |
| `ExprProgram.RunCompiled` | expr.c:477-549 | interpreting a compiled program gives the value of its trees |
| `ExprParse.Expr` | expr.c:195-347 | a successful parse consumes tokens and emits at most twelve words for each |
| `ExprPrecedence.ParseTree` | expr.c:281-347 | the text of a grouped tree at its level parses into exactly its code and type, and the climbing loop goes on behind it |
| `ExprPrecedence.ParseAt` | expr.c:281-347 | an expression followed by a token of lower level is parsed to its end |
| `ExprErrors.NoOperand` | expr.c:199-279 | the end of the text, a type name, and every operator that is no prefix are refused where an operand is expected |
| `ExprErrors.NoRightOperand` | expr.c:299-323 | so behind a binary operator |
| `ExprErrors.Unclosed` | expr.c:247-250 | a parenthesis that is not closed is refused |
| `ExprErrors.BadIndex` | expr.c:336-344 | so is a bracket that is not closed, or an index on what is no pointer |
| `ExprErrors.NoColon` | expr.c:288-295 | so is a `?` without its `:` |
| `ExprErrors.NotAPointer` | expr.c:252-256 | so is `*` on what is no pointer |
| `ExprErrors.Undefined` | expr.c:229-232 | so is a name that is no field |
| `ExprErrors.BadCall` | expr.c:217-224 | so is a call of what is no function |
| `ExprErrors.BadSizeof` | expr.c:206-213 | so is `sizeof` without a type in parentheses |
| `ExprErrors.BadCast` | expr.c:240-243 | so is a cast that is not closed |
| `ExprPrinting.DressedCode` | expr.c:247-250 | parentheses, added anywhere but around a literal right behind a minus, leave code and address code unchanged |
| `ExprSpelling.SameCodeExactly` | expr.c:247-269 | with parentheses added anywhere the code is the same if and only if no `-n` has become `-(n)` |
| `ExprPrinting.PrecedenceTheorem` | expr.c:826-850 | the tokens with only the parentheses the documented table requires, and those with parentheses around every operand but a negated literal, compile to the same code, that of the tree |
| `ExprTheorem.SpellingTheorem` | expr.c:111-850 | from characters: however an expression is parenthesised, as long as operands that bind less tightly are in parentheses, its text lexes and compiles to the code of its tree and EXIT, which is that of the unparenthesised tree if and only if no `-n` has become `-(n)` |
| `ExprTheorem.TextTheorem` | expr.c:111-850 | so the text with the fewest parentheses and the text with parentheses around every operand but a negated literal compile alike |
| `ExprPrinting.MinusLiteral` | expr.c:265-269 | `-5` and `-(5)` differ in code and agree in value |
| `ExprPrinting.ProgramParses` | expr.c:437-443 | the text of a program compiles to the code of its trees and EXIT |
| `ExprPrinting.CompileAndRun` | expr.c:437-549 | compiling and running the tokens of a program gives the value of its last expression |
| `ExprLexer.LexInvertsWrite` | expr.c:111-193 | lexing what was written gives the tokens back |
| `ExprLexer.TokenLexes` | expr.c:111-193 | so for each single token before a blank |
| `ExprNumerals.DecimalLexes` | expr.c:142-145 | digits that do not begin with 0 are read as the number they spell in base 10, modulo 2^64 |
| `ExprNumerals.OctalLexes` | expr.c:149-152 | behind a 0, in base 8 |
| `ExprNumerals.HexLexes` | expr.c:146-148 | behind 0x or 0X, in base 16, in either case |
| `ExprNumerals.NameLexes` | expr.c:121-141 | any word of letters, underscores and later digits that is no keyword is one name |
| `ExprNumerals.SkipsComment` | expr.c:117-164 | comments behind `#` and `//` are skipped |
| `ExprCompiler.CompilerState.Next` | expr.c:111-193 | the in-place lexer reads the next token of the text |
| `ExprCompiler.CompilerState.Expression` | expr.c:195-347 | the in-place compiler with its cursors, emitted words and patches does what the functional one does, and fails exactly when it does, in a buffer that holds what is emitted and what `&` takes back meanwhile |
| `ExprCompiler.CompilerState.ParseCond` | expr.c:288-296 | both reserved branch words end up with the right targets |
| `ExprCompiler.CompilerState.ParseAssign` | expr.c:283-287 | the last load becomes a pushed address and the store follows |
| `ExprCompiler.CompilerState.KeepLocation` | expr.c:272-325 | the address is pushed in front of the load that stays |
| `ExprCompiler.ExprCompile` | expr.c:434-447 | a text whose code fits the code buffer compiles exactly when the functional compiler succeeds, to the same words |
| `ExprTheorem.EvaluateText` | expr.c:355-549 | writing a program, lexing and compiling the text, and interpreting the code gives the value of the program |
| `ExprRaw.RawTest` | expr.c:259-325 | for every well-typed tree the test passes behind its code exactly if it is an lvalue or meets a condition on its form, types and constants that is computed without its code |
| `ExprRaw.ProductAsLvalue` | expr.c:283-285 | so a product with a variable is taken for an lvalue exactly when the variable is a long |
| `ExprRaw.RawIsCode` | expr.c:259-335 | for lvalues the rewritten words are the code of the tree, as `CodeCorrect` is about |
| `ExprRaw.RawCompiles` | expr.c:259-335 | an assignment, a step or an address of a well-typed operand is accepted exactly when the operand passes, and the words emitted |
| `ExprRaw.RawShape` | expr.c:281-345 | the image decodes into whole instructions with branches to their boundaries exactly when the operand does not end in a conditional or a short-circuit operator |
| `ExprRaw.RawProgram` | expr.c:259-447 | both for the text as a whole program |
| `ExprRaw.AndAssignAccepted` | expr.c:283-298 | `x && y = n` is accepted for two int fields, with a branch into the middle of an instruction |
| `ExprRaw.AndAssignRunsAway` | expr.c:477-549 | run with `x == 0` it leaves the program |
| `MinHeap.RootIsLeast` | order.c:752-761 | the root of a heap has the least key |
| `MinHeap.Heapify` | order.c:751-752 | heap order and the same entries |
| `MinHeap.Pop` | order.c:910-912 | heap order and the same entries without the root |
| `Order.LeastHeadAdvances` | order.c:846-863 | delivering the least head, repaired, never goes back behind the popped time, and leaves only that ring possibly behind |
| `Order.Merger.EventInit` | order.c:417-521 | the ring's next sample enters with its own timestamp or, if that is too early, the popped time; the records before it are handed over or kept back, entry by entry, and a loss among them is reported with the sample; without a sample everything visible has been read |
| `Order.Merger.HeapInit` | order.c:616-663 | every ring with a sample enters the heap once and its device is referenced once |
| `Order.Merger.ReadNext` | order.c:867-892 | the entries made on the way to the next sample, the pending loss that results, and that a ring without a sample has been read to its visible end; a target position is hit when the cursor stands there |
| `Order.Merger.Deliver` | order.c:846-867 | the head is delivered at a time not before the popped time; the unordered counter stays 0 |
| `Order.Merger.Advance` | order.c:869-913 | the next sample re-enters the heap with its own timestamp, and a pending loss is then reported from the popped time to that sample; or the ring, read to its visible end, leaves the heap and its reference is put; nothing else becomes late |
| `Order.Merger.ReportLoss` | order.c:898-908 | a loss reported from the loop starts at the popped time, and the branch for unordered losses is never taken |
| `OrderLog.SpaceIs` | order.c:411-415 | the ring has space for a number of bytes exactly if they leave one free |
| `Order.PredictsLoss` | order.c:800-808 | the visible end is marked as a possible loss exactly when there is no space for the watermark and one more record |
| `Order.Merger.KeepsBack` | order.c:800-823 | loss prediction changes nothing but its own two fields; a head is kept back only at a marked end with nothing visible behind it, and is when nothing more is ever written |
| `Order.Merger.Merge` | order.c:752-919 | no sample later than the time limit is delivered, and none behind the delivery with which the target ring reaches the target position; the loop ends with an empty heap, at a head beyond the time limit or paused, or there |
| `Order.Merger.PutBack` | order.c:922-933 | un-reading leaves every cursor at its first undelivered record and puts every reference |
| `Order.Merger.OrderProcess` | order.c:665-934 | whatever the rings hold: delivered times never decrease, losses start where deliveries stand, each LOST record is reported with its ring or superseded or the ring's last, every report is of a LOST record not reported before and reaches from its ring's last delivered sample to its next one, counters of unordered events stay 0, references balance; no call delivers a sample later than its time limit, or anything behind the delivery with which its target ring reaches the end it had; a call ends with everything visible handled, the target position handled, or a next sample that is paused or beyond the limit; a call whose target ring is empty delivers nothing; a nested call changes nothing; if rings are sorted and nothing is late, no timestamp is changed |
| `Order.Merger.Run` | order.c:665-934 | the same over any number of calls, timestamps included if each call finds the rings so, and nothing later than the latest of their time limits |
| `OrderLog.PassageAnswered` | order.c:450-519 | whatever a passage to the next sample reads, no LOST record is left without one of the three outcomes |
| `OrderLog.PassageReported` | order.c:450-908 | and what it reports is the pending count, from the ring's last delivered sample to the sample found; without a sample the count stays pending |
| `OrderLog.ReportedOnce` | order.c:450-908 | no LOST record is reported twice |
| `Order.NoneLostOrRepeated` | order.c:869-933 | between calls exactly the records below each cursor have been handled, once and in order, samples and only samples by delivery; LOST records and only those are kept back, if the ring's device asks for losses |
| `Matcher.SweepFacts` | multi-trace.c:1466-1549 | after looking at the lost ranges a range around the event blocks it, ranges behind it are gone, and only the first can have been reclaimed |
| `Matcher.InsertFacts` | multi-trace.c:1004-1013 | ranges stay sorted by start when one is registered |
| `Matcher.RunGuarantees` | multi-trace.c:1466-1549 | over whole runs: no backed-up event is older than the end of a range that is gone, and none is kept inside a range |
| `Matcher.LossSafety` | multi-trace.c:978-1549 | for ranges registered before later samples, every reported pair ends by a range's start or begins after its end, for any number of overlapping ranges |
| `MatcherExact.VerdictByInputs` | multi-trace.c:1466-1549 | an event is blocked exactly when a registered range lies around it, and may be backed up exactly when moreover none starts with it |
| `MatcherExact.LoseExact` | multi-trace.c:1480-1548 | the backed-up events left for an event are exactly those that hold their key and have survived every range by its time |
| `MatcherExact.ExactPairs` | multi-trace.c:1318-1549 | exactly which pairs are reported, for any timely mixture of samples and lost ranges: the second looks, the first was backed up under the same key and not acted on since, the tracepoints are paired, the first is earlier, and every range known by then begins no earlier than the second or began before and ended by the first; each pair once, in the order of the second samples |
| `Pipeline.MergedIsTimely` | order.c:450-908 | deliveries and all loss reports, from the loop and from initialisation, leave the merge in an order in which no report comes too late for the matcher, with per-instance ranges or if none found at init starts before the popped time |
| `Pipeline.MergedPairsSafe` | order.c:450-908 | so no pair found in the merged stream spans a loss reported by the merge |
| `MatcherLate.RunGuarded` | multi-trace.c:978-1549 | with one list for all instances, samples in time order and ranges registered at any moment: from its registration on a range is listed, or gone with every older backed-up event |
| `MatcherLate.LateRanges` | multi-trace.c:978-1549 | so a pair spans a range exactly if it spans it and had been reported when the range was registered |
| `Pipeline.MergedPairsExactly` | order.c:450-908 | the same for every loss the merge reports |
| `Pipeline.PromiseExactly` | order.c:506-515 | no reported pair spans a reported loss if and only if none reported so far spans a loss that is reported with a start before the popped time |
| `Pipeline.LateLossHappens` | order.c:417-913 | two rings whose turns over two calls, each as its method promises, end in such a report |
| `Pipeline.EarlyLossSpanned` | order.c:506-515 | and a pair already reported spans it |
| `MatcherDeferred.SweepNorm` | multi-trace.c:1466-1549 | the verdict on an event depends only on the ranges that would be left, so looking at them late does not matter |
| `MatcherDeferred.SimilarHandle` | multi-trace.c:1723-1729 | two matchers that agree up to deferred ranges agree after an event both handle |
| `MatcherDeferred.SimilarSkip` | multi-trace.c:1699-1703 | and after an event one of them skips |
| `MatcherDeferred.SimilarLost` | multi-trace.c:978-1015 | and after a registered range |
| `TimelineNodes.CountMark` | multi-trace.c:190-207 | counters stay right when a node becomes unneeded |
| `TimelineNodes.CountDelete` | multi-trace.c:282-299 | and when the first node is freed |
| `TimelineNodes.CountAdd` | multi-trace.c:233-280 | and when a node is added |
| `Timeline.SweepLosses` | multi-trace.c:1480-1548 | the loop over a lost list gives the verdict of `Matcher.Sweep` |
| `Timeline.InsertLoss` | multi-trace.c:1008-1012 | the loop over the list inserts behind ranges that start no later |
| `Timeline.Tracer.Unback` | multi-trace.c:190-207 | removing from the backup makes the node unneeded and counts it |
| `Timeline.Tracer.Reclaim` | multi-trace.c:919-954 | a loss drops exactly the backed-up events it affects |
| `Timeline.Tracer.FirstPending` | multi-trace.c:1437-1464 | the first pending node is taken in hand unless the 64-bit deadline holds it back |
| `Timeline.Tracer.EventLost` | multi-trace.c:1466-1549 | lost ranges, backup and the node's decisions become those of `Matcher.Lose` |
| `Timeline.Tracer.TryCallTwo` | multi-trace.c:1318-1384 | pairs and backup become those of `Matcher.CallTwo` |
| `Timeline.Tracer.TryBackup` | multi-trace.c:1386-1435 | the backup becomes that of `Matcher.Keep`, and the node is backed up or unneeded |
| `Timeline.Tracer.Process` | multi-trace.c:1710-1730 | one pending event is handled as without a timeline |
| `Timeline.Tracer.Add` | multi-trace.c:233-280 | the node takes its place in the timeline, traced ones also at the end of the pending list |
| `Timeline.Tracer.FreeUnneeded` | multi-trace.c:301-356 | neither needed nodes nor the window before them are freed, and neither BUG branch is reached; without a window the timeline then begins with a needed node, with one it begins in the window of the first node that is needed |
| `Timeline.Tracer.Sample` | multi-trace.c:1694-1734 | for time-ordered samples the partition, the counters and agreement with the mode without a timeline are kept; the timeline has been freed as above behind an event that is not kept or is untraced, and whenever a pair is reported |
| `Timeline.Tracer.Lost` | multi-trace.c:978-1015 | a registered range keeps them too |
| `Timeline.Tracer.Partition` | multi-trace.c:140-299 | every node is pending, backed up (in the backup under its key and in the needed list) or unneeded, and in one of these only |
| `Timeline.Tracer.WindowKept` | multi-trace.c:301-356 | whatever has left the timeline lies at least `before_event1` before every backed-up event, when all times exceed `before_event1` |
| `Timeline.Tracer.Flush` | multi-trace.c:847-858 | the final flush empties everything and returns every gauge to 0 without a BUG message |
| `Timeline.PlayTimeline` | multi-trace.c:1578-1744 | for time-ordered input and `after_event2 == 0`, timeline mode reports exactly the pairs of the mode without a timeline, in the same order |
| `Timeline.PlayDelayed` | multi-trace.c:1437-1744 | with a delay, whatever the ranges, timeline mode reports exactly the pairs of `MatcherDelayed.DelayRun`, in the same order, and the same events wait |
| `Timeline.Tracer.ProcessPending` | multi-trace.c:1706-1734 | pending events are handled in turn as long as the first one's time has come, by the 64-bit deadline |
| `MatcherDelayed.HandleRegister` | multi-trace.c:978-1549 | a range that starts behind an event makes no difference to it, whether it is registered before or after the event is handled |
| `MatcherDelayed.DelayedIs` | multi-trace.c:1437-1744 | with ranges that start behind the samples before them, the delayed matcher has the pairs and the backup of the matcher without a delay on the inputs up to the first event whose time has never come, and the events behind it wait |
| `MatcherDelayed.DelayedPairs` | multi-trace.c:1437-1744 | for samples in time order, none before the clock has run for the delay, those are the events `after_event2` or more behind the last sample |
| `Timeline.PlayLight` | multi-trace.c:1735-1743 | the mode without a timeline is `Matcher.Run` |
| `Timeline.Light.Sample` | multi-trace.c:1735-1743 | one sample without a timeline is one `Matcher.Step`; backup counters equal the number of entries |
| `Ptrace.Tracker.PutPid` | ptrace.c:117-169 | a reference is dropped; the last one frees the node and drops its reference on the parent |
| `Ptrace.ClonesAre` | ptrace.c:374-386 | a child gets exactly one device for each of its parent's devices that could be cloned |
| `Ptrace.ContinuesMeans` | ptrace.c:374-391 | it goes on exactly if it is not to be detached and some device of its parent could be cloned |
| `Ptrace.ChildSettles` | ptrace.c:360-526 | after both events in either order: the parent is released once, the child is continued exactly if the parent is not to be detached and one of its devices could be cloned, with exactly those clones, and is otherwise detached and freed |
| `Ptrace.Tracker.SettleChild` | ptrace.c:360-391 | the in-place form of the same: the parent's devices are cloned and its reference put, and the child continued, or detached if it is to be or has no device |
| `Ptrace.Tracker.OnFork` | ptrace.c:393-486 | the parent is released once; the child exactly if its first stop came before; all invariants hold and no BUG message appears |
| `Ptrace.Tracker.OnStop` | ptrace.c:488-526 | a first stop keeps the child stopped until the FORK is in, then it is released once; later stops continue or detach |
| `Ptrace.Tracker.OnExited` | ptrace.c:528-531 | an exit drops the own reference and keeps the invariants |
| `Ptrace.Tracker.OnClose` | ptrace.c:255-300 | every process loses the device; one that loses its last is to be detached, with its waiting children; in whatever order the list is walked |
| `Ptrace.Tracker.OnCloseAll` | ptrace.c:238-309 | with the devices cloned from it: exactly the device and its clones, transitively, that still have a process are taken from every process at once, in whatever order lists and children are walked |
| `Ptrace.ClosedMeans` | ptrace.c:238-309 | every process keeps the devices that are not closed; it is to be detached from then on exactly if it was before, had one and has none left, or waits for a parent that is |
| `Ptrace.ClosedTwice` | ptrace.c:255-306 | closing one set of devices and then another closes both |
| `Ptrace.Tracker.OnAttach` | ptrace.c:171-236 | a seized process has its node and one more device and is not to be detached; nothing else changes |
| `Ptrace.ForkStopCommute` | ptrace.c:360-526 | FORK then first stop, and first stop then FORK, end in the same nodes, links, flags, reference counts and actions |
| `Ptrace.ForkInv` | ptrace.c:393-486 | a FORK keeps the invariant, with the exact actions it takes |
| `Ptrace.StopInv` | ptrace.c:488-526 | a stop keeps the invariant, with the exact actions it takes |
| `Ptrace.ForkNewInv` | ptrace.c:360-391 | settling a child keeps the invariant |
| `Ptrace.LetGoInv` | ptrace.c:159-169 | dropping an own reference keeps it |
| `Ptrace.ClosedInv` | ptrace.c:238-309 | closing a device keeps it: a waiting child is marked for detaching exactly when its parent is |
| `Ptrace.ReferenceCount` | ptrace.c:117-169 | a node's reference count is its own reference, if held, plus the number of nodes whose parent it is; its initial child list is exactly those children, none of which has seen both events |
| `Ptrace.FreedAtZero` | ptrace.c:159-169 | a node whose own reference is gone remains only while children wait |
| `Net.LostRecordReads` | net.c:476-482 | a LOST record is framed, its header and id are those of PERF_RECORD_LOST byte by byte, and its count reads back |
| `Net.Sender.BufWrite` | net.c:81-96 | the circular buffer's contents grow by exactly the bytes written, wrapping or not |
| `Net.Sender.BufSend` | net.c:98-127 | everything in the buffer is offered to the socket, in two parts if it wraps; if all of it is taken all of it is on the wire; for every partial send, bytes on the wire followed by the buffer are unchanged, except for one LOST record, which is made exactly when the last part has been taken, drops are pending and there is room |
| `Net.Sender.TcpSend` | net.c:447-486 | a record is taken whole, always so if it fits at once, or counted as dropped when it does not fit after what the buffer holds has been offered to the socket |
| `Net.Receiver.ProcessEvents` | event-spread.c:417-438 | whole records are handed over, and what is left is less than the next one |
| `Net.Receiver.Receive` | net.c:295-324 | for every chunking, processed records followed by the leftover are the bytes received, and the leftover never fills the buffer |
| `Net.AllProcessed` | event-spread.c:417-438 | when all bytes have arrived every record has been processed |
| `Net.Link.Send` | net.c:447-486 | sending keeps both ends in step |
| `Net.Link.Pump` | net.c:98-127 | so does a socket that takes more bytes |
| `Net.Link.Deliver` | net.c:295-324 | so does any portion that arrives, and there is always room for more |
| `Net.Link.EndToEnd` | net.c:81-486 | the records processed are those sent, in order, all of them once all bytes are through; dropped sends equal the counts in LOST records plus the pending count |
| `Convert.RangeShift` | convert.c:684-692 | the bits left for the factor, exactly |
| `Convert.ClocksCalcMultShift` | convert.c:655-707 | a shift is found exactly when shift 1 fits; it is then the largest in 1..32 that fits, the factor is to*2^shift/from to the nearest, and cycles*mult stays below 2^64 for every cycles up to maxsec*from |
| `Convert.ScaledFits` | convert.c:698-701 | no intermediate leaves 64 bits |
| `Convert.SplitForm` | convert.c:41-52 | the quotient and remainder form is floor((ns-zero)*2^shift/mult) |
| `Convert.SplitProduct` | include/linux/math64.h:51-64 | the product in 32-bit halves equals the 128-bit one |
| `Convert.TscRoundTrip` | convert.c:41-62 | cycles to ns and back lose at most ceil(2^shift/mult) cycles |
| `Convert.NsRoundTrip` | convert.c:41-62 | ns to cycles and back lose at most ceil(mult/2^shift) ns |
| `Convert.PerfToTscMonotone` | convert.c:41-52 | later ns are not earlier cycles while nothing overflows |
| `Convert.TscToPerfMonotone` | convert.c:54-62 | later cycles are not earlier ns while nothing overflows |
| `Convert.OffsetAhead` | convert.c:390-427 | the event clock is put forward by the offset, and only if times are converted |
| `Convert.EvRoundTrip` | convert.c:390-427 | the event clock and back: the same bound with any offset, exact without TSC |
| `Convert.ClockRoundTrip` | convert.c:390-427 | and the other way round |
| `TaskState.AgreesAfter` | task-state.c:795-915 | each event of a task extends the telescoping sum: what is recorded never exceeds, and for a lawful task equals, the time from the making of its node to its last change of phase, its death included |
| `TaskState.TouchKeeps` | task-state.c:795-915 | a new interval lies behind all others of its task |
| `TaskState.RightKind` | task-state.c:803-895 | a lawful task's time is recorded under the phase it was in: running, waiting to run, or the reported sleep state |
| `TaskState.SwitchBooked` | task-state.c:795-866 | a switch puts `next` on the CPU and records its wait as RUNDELAY; `prev` goes off in the state reported, or is gone if dead, and its run is recorded; nothing else changes |
| `TaskState.WakeupBooked` | task-state.c:869-915 | a wakeup puts its own task in the run queue and records its reported sleep; nothing else changes |
| `TaskState.LawfulSteps` | task-state.c:767-793 | what a lawful task may do in each phase, and the phase that follows |
| `TaskState.TaskStates.Sample` | task-state.c:734-920 | time-ordered events keep all of this; unless a lost range drops it, a switch leaves `next` on the CPU since then and `prev` off in the state reported or gone, and a wakeup leaves its task in the run queue |
| `TaskState.TaskStates.EventLost` | task-state.c:699-732 | a range around the event drops it, one behind it has cleared all tasks |
| `TaskState.TaskStates.Lost` | task-state.c:626-654 | a registered range keeps it |
| `TaskState.TaskStates.TimeConserved` | task-state.c:795-915 | intervals of a task are disjoint, sum to no more than the time since its first event, to exactly the time from the making of its node to its last change of phase while its switches and wakeups are lawful and its states reported, alive or dead, and none enters a lost range |
| `TaskState.TaskStates.DistConserved` | task-state.c:795-915 | the sums the latency distribution keeps for a task, over all its kinds, add up to the time recorded for it |
| `TaskState.RowsTotal` | latency_helpers.c:177-204 | feeding intervals one by one, the rows of a task sum to its recorded time |
| `Latency.LatencyDist.Input` | latency_helpers.c:177-204 | every node is the summary of what was fed to its slot |
| `Latency.SummaryMeans` | latency_helpers.c:29-204 | count, sum, least and greatest of exactly the latencies fed to a slot |
| `Latency.CountsTogether` | latency_helpers.c:29-204 | a node counts the calls with its instance and key, as far as the distribution is kept by them, and those of them above a threshold |
| `Localtime.YearLength` | localtime.c:53-58 | the leap rule, and that the standard's day count grows by the length of the year |
| `Localtime.YearOf` | localtime.c:83-90 | the year loop ends with the year and day of the day number |
| `Localtime.MonthOffsets` | localtime.c:64-102 | the days before each month as a formula in numbers |
| `Localtime.MonthOf` | localtime.c:98-102 | the month loop ends with the month and day of the day of the year, by that formula |
| `Localtime.NolocksLocaltime` | localtime.c:60-106 | the fields satisfy the standard's formula for every time; month and day agree with the day of the year by the formula in numbers; all are in range exactly when the adjusted time is not negative |
| `Localtime.OneDate` | localtime.c:60-106 | two well-formed dates with the same seconds are equal, so decoding inverts the formula |

## Left out
- expr.c: string and character literals (they are syntax errors here), `printf`, `ksymbol`, `strncmp`, symbol-table growth, the identifier hash (names are compared whole) and `expr_load_glo`; the trees of the theorems call the built-in functions with one argument, the compiler parses argument lists.
- expr.c: the opcodes LEA, JSR, ENT, LEV and those of the functions above, which the compiler never emits for such source, stop the machine.
- ExprCompiler.CompilerState.Next: a string or character literal comes out as its bare quote, which no parser rule takes.
- ExprCompiler.ExprCompile: the source does not check its 1024-word code buffer; the contract asks for a text that fits: what it emits plus two words for each `&`, which may take a load back on the way, or twelve words per token, which also covers texts that are refused.
- ExprTheorem.EvaluateText: asks the same of the text.
- ExprRaw.RawProgram: is about one assignment, step or address whose operand is itself well-typed; an operand that contains another such rewrite of what is no lvalue is not covered.
- order.c: stream queues, rings that are not mapped, overwrite mode, clocks of child devices, and the byte layout of rings beyond what loss prediction needs.
- order.c: the library's heap sinks an element bottom-up; the model's sinks it top-down, with the same contract.
- OrderLog.Answered: says nothing of LOST records that count 0, which are not reported.
- order.c: `break_reason` and the pause statistics.
- multi-trace.c: nested tracing, `two(A, NULL)` calls, the remaining-event callbacks and printing, roles and key programs (their results are fields of an event), and the immediate reclaim used without time order.
- Timeline.Tracer.FreeUnneeded: the branch that would remove a needed node from the backup is counted and proved unreachable, and its body is not modelled.
- Timeline.PlayTimeline: asks for `after_event2 == 0` and time-ordered samples; with a delay it is `PlayDelayed`.
- MatcherDelayed.DelayedPairs: before the clock has run for the delay the 64-bit deadline wraps and nothing is held back; what then has been handled is `MatcherDelayed.Due`, which `DelayedIs` is about.
- Pipeline.PromiseExactly: with ranges per instance it asks that each ring is an instance, as `order.c` hands samples and losses of a ring over with the same `ins`.
- Matcher.LossSafety: per-instance ranges must be registered in the order of their starts, as `order.c` reports them.
- Ptrace.Tracker.OnFork: asks, like the other handlers, that no event comes for a process after its exit or detach, and that a process forks only after it has been released.
- Ptrace.Tracker.OnClose: is one device; its clones are closed in `OnCloseAll`.
- Ptrace.ForkStopCommute: is about a child whose two events see the same device clones succeed.
- ptrace.c: workload processes, attaching again after a detach, attaching a device to a child that still waits, failed allocations, signals and group stops.
- Net.Sender.TcpSend: asks for one whole record per call, as event-spread.c sends them.
- net.c, event-spread.c: connection errors and closing, a callback that fails, the char-device ring, and records of 8 bytes or less; the overlapping `memcpy` of the leftover is read as a move.
- Convert.SplitForm: is about shifts up to 32 and a factor of 32 bits that is not 0, as the kernel publishes them.
- convert.c: the KVM clock, reading the factors from the kernel, and writing the converted time into the event.
- task-state.c: S/D mode, pid and comm filters, copies of events and printing.
- latency_helpers.c: quantiles, sorting for output and 64-bit overflow of sums.
- Everything else in the repository: profilers that only read counters, option parsing, symbol lookup, flame graphs, heat maps and output.
