# Verified models of skynet's hard parts

This project models the parts of the skynet actor server (and of its vendored LPeg) whose correctness does not
depend on I/O, and proves what they promise. Code that changes things in place is modelled as classes, arrays and
loops and proved against specification functions; concurrent protocols are state machines with one step for each
shared access or locked region, and their theorems hold for every run. Code and comments sometimes disagree;
the models follow the code.

* **LPeg** (`peg_*.dfy`). Parsing expression grammars get a fuelled meaning (`PegTree.Peg`), the parsing machine a
  step function. The compiler, with first and follow sets, head-fail tests, the reuse of an enclosing choice,
  dominating tests, tail calls and the peephole pass, preserves meaning. `PegEmit.CompileState` is the compiler as it
  is written, filling and patching a growing code array; `PegMatch.Match` is the interpreter loop with its bounded
  stack; `PegFix` turns sequences and choices right associative in the flat node array. Matching an accepted pattern
  always ends, and so does following the jumps of its code. The check on left recursion has two gaps, and a rule can
  fall through each and never answer. A nested grammar forgets the accumulator that marks a pattern as passable
  (`3rd/lpeg/lptree.c:1038-1039`, `PegVerify.LostFlagDiverges`). And look-behinds are taken for free of calls
  (`3rd/lpeg/lptree.c:1009-1011`), although a predicate inside one may call rules; following the jumps of such a rule
  does not end either (`PegGaps.BehindDiverges`, `PegGaps.BehindJumps`). Accepted here is what the code accepts, less
  the grammars with a trapped rule (`PegGaps.AcceptedIff`): one that may come back to itself without having moved
  forward, and may come back without having moved back. There is a measure on the rules that each call lowers if and
  only if none is trapped (`PegGraph.AdvancesIff`), and `PegGaps.RefusedIff` names the gap that each refused grammar
  falls through. In terms of what patterns mean, accepted is exactly what has no loop that never ends on the empty
  subject, predicates taken for granted, and calls that advance (`PegLoops.AcceptedMeans`). The short cuts of the
  operators that build patterns keep their meaning, and the usual search pattern, compiled, finds the first occurrence
  of a string (`PegBuild.SearchCompiled`). What is compiled does not depend on the depth to which the model follows
  calls (`PegStable.CompileSettles`).
* **Timer** (`timer*.dfy`). The hierarchical wheel fires every timer exactly once, as many ticks after its request as
  its delay says, in the order the timers were added, although its 32-bit clock wraps.
* **Mailboxes and scheduling** (`mailbox.dfy`, `scheduler*.dfy`). No service ever runs on two threads at once, no
  message is lost or delivered twice, and a mailbox that holds messages always has exactly one holder. Histories read
  from the steps of a run (`SchedulerRuns`) say what becomes of a service: only one whose initialisation succeeded is
  ever called, one whose initialisation failed loses its handle, any other keeps it until it is killed. And from every
  reachable state (`SchedulerProgress`) the oldest message of a service can be brought to its callback, and a service
  without a handle to its end. A thread that launches a service uses the context after it gave up its reference
  (`skynet-src/skynet_server.c:165-175`); `Scheduler.LateUse` says exactly when the context is gone by then, and
  `Scheduler.LateInitRun` and `Scheduler.LateLogRun` are such runs.
* **Socket write path** (`socket_*.dfy`). What is written to a connection is whole packets back to back. This fails
  in one situation: `force_close` frees the two lists before it takes the lock
  (`skynet-src/socket_server.c:473-506`), so a direct write can follow a packet that was cut off. That is possible if
  and only if the connection looks open to senders, a packet is written in part and no request is announced
  (`SocketSafety.CloseBreaksIff`); `SocketSafety.BrokenRun` is such a run, and the theorems on the stream hold for
  every run without that step. No packet is lost without a reason: in every run, each is written, waits, is carried by
  its sender or was dropped by one of three closing steps (`SocketConserve.Conserved`), and as long as nobody closes
  the connection everything can still be written (`SocketDrain.CanBeWritten`).
* **Lock and snapshots** (`rwlock.dfy`, `stm*.dfy`). The reader/writer lock excludes and does not deadlock; every
  snapshot counts its holders and is freed exactly once; a read returns a snapshot that was current while it ran, and
  the object's is always that of the last update (`StmFresh`).
* **Index, stream and codec cores**: the read-only shared hash (`sharedata.dfy`), packet reassembly (`frames.dfy`,
  `netpack.dfy`), the chunked read buffer (`readbuffer.dfy`), the serializer (`seri*.dfy`), 64-bit modular powers and
  the key exchange (`crypt.dfy`), base 64 (`base64.dfy`), and the registry of handles and names (`handles.dfy`,
  `handle_names.dfy`). Three gaps are stated exactly: a base equal to the modulus is not reduced (`Crypt.PowMod`), a
  base-64 text with an ignored character at its end is refused although such characters are skipped elsewhere
  (`Base64.TrailingRefused`), and registering a service reads a null slot when the scan passes the last handle index
  and only slot 0 is free (`Handles.Registry.Register`); `Handles.ToNullRead` gets there from a new registry.

`dafny verify dfyconfig.toml` checks the project.

## Model

| member | source | states |
|---|---|---|
| `PegTree.PegMono` | 3rd/lpeg/lpvm.c:149-360 | more fuel never changes the answer of a pattern, so its meaning is one partial function |
| `PegTree.PegUnique` | 3rd/lpeg/lpvm.c:149-360 | any two sufficient amounts of fuel give the same answer |
| `PegTree.EmptyLoopDiverges` | 3rd/lpeg/lptree.c:949-969 | a loop whose body matches the empty string never answers: what checkloops is there to exclude |
| `PegAnalysis.NullableSound` | 3rd/lpeg/lpcode.c:196-230 | a pattern that checkaux finds not nullable never matches without taking a character |
| `PegAnalysis.NoFailSound` | 3rd/lpeg/lpcode.c:196-230 | a pattern that checkaux finds nofail never fails |
| `PegAnalysis.FixedLenSound` | 3rd/lpeg/lpcode.c:236-273 | a pattern of fixed length n takes exactly n characters whenever it matches |
| `PegAnalysis.GetFirstSound` | 3rd/lpeg/lpcode.c:276-371 | the contract of getfirst for every tree: outside the set the pattern fails or matches empty before a character outside follow; result 0 means it fails at the end of input |
| `PegAnalysis.HeadFailExact` | 3rd/lpeg/lpcode.c:373-399 | for headfail trees the set under full follow is exact: the pattern succeeds iff the next character is in it |
| `PegVerify.FlagKept` | 3rd/lpeg/lptree.c:1002-1042 | the accumulator nb makes the result of verifyrule true iff the check does not end at a non-nullable nested grammar |
| `PegVerify.LostFlagDiverges` | 3rd/lpeg/lptree.c:1038-1039 | a family of accepted rules that never answer: the nested-grammar case forgets the accumulator |
| `PegEnds.PartEnds` | 3rd/lpeg/lptree.c:1045-1063 | every part of an accepted pattern answers at every position of every subject; each call lowers the measure of its grammar |
| `PegSettle.PartFirst` | 3rd/lpeg/lpcode.c:294-371 | on accepted patterns first sets do not depend on the bound put on followed calls, so the bounded analysis is the one of the code |
| `PegSettle.PartChecks` | 3rd/lpeg/lpcode.c:196-230 | the same for checkaux |
| `PegSettle.PartHead` | 3rd/lpeg/lpcode.c:377-399 | the same for headfail |
| `PegFix.FixedMeans` | 3rd/lpeg/lptree.c:100-126 | the final adjustment of a pattern and of the rules it refers to does not change what it means |
| `PegFix.FixedShape` | 3rd/lpeg/lptree.c:78-90 | the adjusted tree is right associative everywhere and has the same size |
| `PegFix.CorrectAssociativity` | 3rd/lpeg/lptree.c:78-90 | the in-place loop over the flat tree computes the right-associative form and leaves the cells around it |
| `PegFix.TurnOnce` | 3rd/lpeg/lptree.c:81-89 | one turn of the loop: memmove of the first part and two nodes written anew |
| `PegFix.FinalFix` | 3rd/lpeg/lptree.c:100-126 | the recursive adjustment of a flat tree yields the flat adjusted tree |
| `PegFix.FinalFixRules` | 3rd/lpeg/lptree.c:1079-1097 | the same over the rules of a grammar under construction |
| `PegMachine.StepsAdd` | 3rd/lpeg/lpvm.c:149-360 | runs compose |
| `PegMachine.ConvAnswers` | 3rd/lpeg/lpvm.c:149-360 | states whose runs meet give the same answers |
| `PegShapes.TestStep` | 3rd/lpeg/lpcode.c:614-635 | a test goes on iff the next character is in its set, and then dominates the code behind it |
| `PegShapes.NotRuns` | 3rd/lpeg/lpcode.c:823-838 | the code of a not-predicate, in both forms, does what the predicate means given the code of its body |
| `PegShapes.AndShortRuns` | 3rd/lpeg/lpcode.c:720-726 | matching and walking back is the and-predicate for patterns of fixed length |
| `PegShapes.ChoiceByTestRuns` | 3rd/lpeg/lpcode.c:684-693 | a choice decided by its test alone |
| `PegShapes.ChoiceReusedRuns` | 3rd/lpeg/lpcode.c:694-698 | an optional pattern that reuses the enclosing choice |
| `PegShapes.ChoiceStackedRuns` | 3rd/lpeg/lpcode.c:699-711 | a choice that saves its second alternative |
| `PegShapes.RepByTestRuns` | 3rd/lpeg/lpcode.c:786-794 | one round of a loop that its test leaves |
| `PegShapes.RepStackedRuns` | 3rd/lpeg/lpcode.c:795-811 | a loop that saves where it goes on, or reuses the enclosing choice |
| `PegCorrect.GenCorrect` | 3rd/lpeg/lpcode.c:919-944 | code generation preserves meaning: from the start of the code of any tree the machine gets to its end at the position the meaning gives, or to a failure, relative to opt, the dominating test and the follow set |
| `PegCorrect.ChoiceCorrect` | 3rd/lpeg/lpcode.c:677-712 | the case of choices, all three forms |
| `PegCorrect.RepCorrect` | 3rd/lpeg/lpcode.c:777-813 | the case of loops, all forms |
| `PegCorrect.GrammarCorrect` | 3rd/lpeg/lpcode.c:868-884 | the case of grammars: calls, tail calls and returns |
| `PegCorrect.CallCorrect` | 3rd/lpeg/lpcode.c:844-861 | a closed call, or a jump before a return, runs its rule |
| `PegCalls.GenSound` | 3rd/lpeg/lpcode.c:919-944 | generated code can be walked by instruction sizes, and its open calls name rules of the grammar in force |
| `PegCalls.CorrectCloses` | 3rd/lpeg/lpcode.c:844-861 | every open call becomes a call of its rule, or a jump to it when a return follows |
| `PegLabels.GenInside` | 3rd/lpeg/lpcode.c:540-554 | no label of generated code leads outside it |
| `PegPeephole.Simulate` | 3rd/lpeg/lpcode.c:947-995 | code that differs only by followed jumps answers the same |
| `PegPeephole.PeepAtRewrites` | 3rd/lpeg/lpcode.c:962-990 | one step of the peephole pass leaves at every place what was there, up to followed jumps |
| `PegPeephole.PeepholeAnswers` | 3rd/lpeg/lpcode.c:956-995 | the peephole pass keeps the answer of every run |
| `PegCompile.GeneratedCorrect` | 3rd/lpeg/lpcode.c:1001-1007 | the code before the peephole pass answers what the pattern means |
| `PegCompile.CompileCorrect` | 3rd/lpeg/lpcode.c:1001-1011 | compiled code answers what the pattern means, for every subject and start |
| `PegCompile.AnswerUnique` | 3rd/lpeg/lpvm.c:149-360 | a run has one answer |
| `PegMatch.MatchDecides` | 3rd/lpeg/lptree.c:1156-1174 | matching an accepted pattern always ends, with what the pattern means and nothing else |
| `PegMatch.GeneratedChainsEnd` | 3rd/lpeg/lpcode.c:641-645 | following jumps ends from every place of the code generated for an accepted pattern |
| `PegChains.PartChains` | 3rd/lpeg/lpcode.c:641-645 | every chain of jumps inside the code of a part of an accepted pattern ends |
| `PegChains.EntryChains` | 3rd/lpeg/lpcode.c:641-645 | jumps alone lead through code only where a pattern may take nothing, and into rules that are lower |
| `PegMatch.MatchStack.constructor` | 3rd/lpeg/lpvm.c:149-159 | the stack starts with the choice that gives up |
| `PegMatch.MatchStack.Double` | 3rd/lpeg/lpvm.c:66-83 | the stack array doubles up to the limit and keeps its entries |
| `PegMatch.MatchStack.PushFrame` | 3rd/lpeg/lpvm.c:237-255 | pushes, growing when full; fails only at the limit |
| `PegMatch.MatchStack.Resave` | 3rd/lpeg/lpvm.c:262-268 | a partial commit saves another position in the choice on top |
| `PegMatch.MatchStack.Pop` | 3rd/lpeg/lpvm.c:256-261 | takes the top entry |
| `PegMatch.Backtrack` | 3rd/lpeg/lpvm.c:280-294 | a failure drops pending calls and resumes the last choice |
| `PegMatch.Span` | 3rd/lpeg/lpvm.c:225-232 | walks over the longest run of characters of the set |
| `PegMatch.Execute` | 3rd/lpeg/lpvm.c:169-355 | one instruction on the stack array is one step of the machine |
| `PegMatch.Match` | 3rd/lpeg/lpvm.c:149-360 | the interpreter loop returns the answer of the run, and overflows iff the run needs more than the limit |
| `PegMatch.MatchPattern` | 3rd/lpeg/lptree.c:1156-1174 | matching an accepted pattern with compiled code gives what the pattern means, unless the stack is too small |
| `PegEmit.CompileState.constructor` | 3rd/lpeg/lpcode.c:1001-1004 | starts with an empty code array |
| `PegEmit.CompileState.ReallocCode` | 3rd/lpeg/lpcode.c:471-480 | another size, the same code |
| `PegEmit.CompileState.NextInstruction` | 3rd/lpeg/lpcode.c:483-488 | one more cell, in an array of twice the size when full |
| `PegEmit.CompileState.AddInstruction` | 3rd/lpeg/lpcode.c:494-499 | appends an instruction |
| `PegEmit.CompileState.JumpToThere` | 3rd/lpeg/lpcode.c:543-546 | sets the label of one instruction and nothing else |
| `PegEmit.CompileState.JumpToHere` | 3rd/lpeg/lpcode.c:552-554 | sets the label of an earlier instruction to the end of the code |
| `PegEmit.CompileState.GenChar` | 3rd/lpeg/lpcode.c:561-567 | appends the code of a character |
| `PegEmit.CompileState.GenCharset` | 3rd/lpeg/lpcode.c:588-605 | appends the code of a set |
| `PegEmit.CompileState.GenTestSet` | 3rd/lpeg/lpcode.c:614-635 | appends a test with an open label, which later code sees as the dominating test |
| `PegEmit.CompileState.FindTarget` | 3rd/lpeg/lpcode.c:641-645 | the loop over jumps ends, at the final target, inside the code |
| `PegEmit.CompileState.GenTree` | 3rd/lpeg/lpcode.c:919-944 | the recursive generator appends exactly the code of the tree |
| `PegEmit.CompileState.GenSeq` | 3rd/lpeg/lpcode.c:899-912 | the same for sequences, with the follow set and the test each half sees |
| `PegEmit.CompileState.GenChoice` | 3rd/lpeg/lpcode.c:677-712 | the same for choices, with the labels patched |
| `PegEmit.CompileState.GenRep` | 3rd/lpeg/lpcode.c:777-813 | the same for loops |
| `PegEmit.CompileState.GenNot` | 3rd/lpeg/lpcode.c:823-838 | the same for not-predicates |
| `PegEmit.CompileState.GenAnd` | 3rd/lpeg/lpcode.c:720-736 | the same for and-predicates |
| `PegEmit.CompileState.GenCapture` | 3rd/lpeg/lpcode.c:745-757 | the same for captures |
| `PegEmit.CompileState.GenBehind` | 3rd/lpeg/lpcode.c:659-663 | the same for look-behinds |
| `PegEmit.CompileState.GenGrammar` | 3rd/lpeg/lpcode.c:868-884 | the same for grammars |
| `PegEmit.CompileState.CloseCalls` | 3rd/lpeg/lpcode.c:844-861 | the in-place loop closes every open call as specified; the assertions on rule starts and on the end hold |
| `PegEmit.CompileState.PeepOne` | 3rd/lpeg/lpcode.c:961-992 | one instruction of the pass, with its redo |
| `PegEmit.CompileState.Shorten` | 3rd/lpeg/lpcode.c:956-995 | the in-place pass computes the specified code, and its jump chasing ends |
| `PegEmit.CompileState.CompileTree` | 3rd/lpeg/lpcode.c:1001-1011 | the compiler as written produces the specified code for every accepted pattern |
| `PegEmit.MatchTree` | 3rd/lpeg/lptree.c:1156-1174 | compiling and matching an accepted pattern gives what it means, unless the stack is too small |
| `PegTargets.ClosingStep` | 3rd/lpeg/lpcode.c:848-858 | closing calls from one instruction to the next keeps what the loop relies on |
| `PegTargets.PeepingStep` | 3rd/lpeg/lpcode.c:959-993 | each step of the pass keeps jump chains finite and labels inside |
| `PegTargets.FinalMoved` | 3rd/lpeg/lpcode.c:641-645 | final targets do not depend on where code lies that no jump leaves |
| `PegEmit.CompileState.GenChoiceByTest` | 3rd/lpeg/lpcode.c:684-693 | a choice decided by its test, both labels patched |
| `PegEmit.CompileState.GenChoiceReused` | 3rd/lpeg/lpcode.c:694-698 | an optional pattern that reuses the enclosing choice |
| `PegEmit.CompileState.GenChoiceStacked` | 3rd/lpeg/lpcode.c:699-711 | a choice that saves its second alternative, three labels patched |
| `PegEmit.CompileState.GenRepByTest` | 3rd/lpeg/lpcode.c:786-794 | a loop that its test leaves, with its jump back |
| `PegEmit.CompileState.GenRepStacked` | 3rd/lpeg/lpcode.c:795-811 | a loop that saves where it goes on |
| `PegEmit.CompileState.GenAllRules` | 3rd/lpeg/lpcode.c:876-880 | the rules of a grammar and where they start |
| `PegEmit.CompileState.ChaseLabel` | 3rd/lpeg/lpcode.c:651-653 | moves one label to its final destination |
| `PegEmit.WholeReady` | 3rd/lpeg/lpcode.c:1001-1011 | the code of an accepted pattern meets what the generator and the pass rely on |
| `PegPeephole.JumpRewritten` | 3rd/lpeg/lpcode.c:970-990 | a jump that becomes what it jumps to, or a commit with a label followed again, keeps what is reached |
| `PegEnds.RuleEnds` | 3rd/lpeg/lptree.c:1002-1042 | a used rule of an accepted grammar answers everywhere, and one that the check on left recursion does not let pass never matches the empty string |
| `PegVerify.KeptWorks` | 3rd/lpeg/lptree.c:1000-1042 | with the accumulator kept, nb makes the result true on every pattern, as its comment promises |
| `PegVerify.KeptRejects` | 3rd/lpeg/lptree.c:1038-1039 | the corrected check rejects the accepted rules that never answer |
| `PegVerify.KeptAccepts` | 3rd/lpeg/lptree.c:1038-1039 | it accepts a rule that loses the accumulator where that does no harm |
| `PegVerify.RejectsChains` | 3rd/lpeg/lptree.c:1002-1042 | each check rejects exactly the patterns with a chain of more left calls than there may be rules, through what that check lets pass |
| `PegVerify.HidesIff` | 3rd/lpeg/lptree.c:1022-1039 | when the code takes a pattern for not passable and the corrected check does not: a non-nullable nested grammar decides, reached with the accumulator set |
| `PegVerify.MissedIff` | 3rd/lpeg/lptree.c:1002-1042 | exactly when verifyrule accepts a pattern that the check with the accumulator kept rejects |
| `PegStable.GenSettles` | 3rd/lpeg/lpcode.c:919-944 | the code of a part of an accepted pattern does not depend on the bound put on followed calls |
| `PegStable.CompileSettles` | 3rd/lpeg/lpcode.c:1001-1011 | so compiled code is that of the unbounded analyses |
| `PegStable.VerifySettles` | 3rd/lpeg/lptree.c:1002-1042 | the check on left recursion does not depend on the bound |
| `PegStable.AcceptedSettles` | 3rd/lpeg/lptree.c:1045-1063 | nor does acceptance as a whole, with the checks on loops |
| `PegVerify.KeptSound` | 3rd/lpeg/lptree.c:1002-1042 | a pattern that the corrected check does not let pass never matches the empty string |
| `PegGraph.AdvancesIff` | 3rd/lpeg/lptree.c:1002-1063 | for any graph of calls with the spans of their positions: there is a measure that every call lowers iff no rule comes back to itself both without leading on and without leading back |
| `PegAdvance.ShortestSound` | 3rd/lpeg/lpcode.c:196-230 | a match takes at least the characters that the lower bound counts |
| `PegAdvance.LongestSound` | 3rd/lpeg/lpcode.c:236-273 | and at most those that the upper bound counts |
| `PegAccept.AdvanceVerified` | 3rd/lpeg/lptree.c:1002-1042 | rules with such a measure are not left recursive for the corrected check |
| `PegAccept.BuiltIff` | 3rd/lpeg/lptree.c:1045-1063 | the nested grammars of a pattern are accepted here iff the checks of the code accept them and no used rule is trapped |
| `PegEnds.PatternEnds` | 3rd/lpeg/lptree.c:1156-1174 | an accepted pattern answers at every position of every subject |
| `PegGaps.AcceptedIff` | 3rd/lpeg/lptree.c:1045-1063 | a pattern is accepted here iff the code accepts it and no rule of it is trapped (what the check on loops refuses is in PegLoops) |
| `PegGaps.BehindDiverges` | 3rd/lpeg/lptree.c:1009-1011 | a rule that looks for itself behind nothing is accepted by the code and never answers |
| `PegGaps.BehindTrapped` | 3rd/lpeg/lptree.c:1009-1011 | it is trapped |
| `PegGaps.BehindJumps` | 3rd/lpeg/lpcode.c:641-645 | its code is a jump to itself, so following jumps does not end |
| `PegGaps.TrappedIff` | 3rd/lpeg/lptree.c:1002-1063 | a grammar has a trapped rule iff the corrected check rejects one or a call inside a look-behind traps one |
| `PegGaps.RefusedIff` | 3rd/lpeg/lptree.c:1002-1063 | a grammar that the code accepts is refused here iff the lost accumulator hides a chain of left calls or a call inside a look-behind traps a rule: the two gaps of verifyrule |
| `PegGaps.LeaveAdvances` | 3rd/lpeg/lptree.c:1009-1011 | if no call inside a look-behind comes back to its rule, the corrected check on left recursion is enough |
| `PegGaps.LeavingAccepted` | 3rd/lpeg/lptree.c:1009-1011 | a look-behind with a call that does not come back is accepted |
| `PegGaps.ForwardAccepted` | 3rd/lpeg/lptree.c:1009-1011 | so is one that comes back further on |
| `PegGaps.BackwardAccepted` | 3rd/lpeg/lptree.c:1009-1011 | and one that comes back further to the front each time |
| `PegShapes.FullCaptureSpans` | 3rd/lpeg/lpcode.c:746-752 | the length a full capture is told is what its pattern matched, so it starts where the pattern did |
| `PegLoops.CheckAuxMeans` | 3rd/lpeg/lpcode.c:196-230 | checkaux is exact on the empty subject: nullable, and nofail, iff the pattern matches it, predicates taken for granted, or for failed |
| `PegLoops.LoopsIff` | 3rd/lpeg/lptree.c:952-970 | checkloops refuses a pattern iff one of its loops never ends on the empty subject, predicates taken for granted |
| `PegLoops.RuleLoopsIff` | 3rd/lpeg/lptree.c:952-970 | the same for the used rules of a grammar |
| `PegLoops.PlainChecks` | 3rd/lpeg/lpcode.c:196-230 | of a pattern without predicates checkaux says exactly whether it matches the empty subject |
| `PegLoops.PlainLoopsIff` | 3rd/lpeg/lptree.c:952-970 | and checkloops refuses exactly those with a loop that never ends on it |
| `PegLoops.AcceptedMeans` | 3rd/lpeg/lptree.c:1045-1063 | acceptance without the checks: no loop idles, and used rules advance by their calls |
| `PegBuild.LiteralMeans` | 3rd/lpeg/lptree.c:441-454 | a string as a pattern matches where the string is |
| `PegBuild.NumberMeans` | 3rd/lpeg/lptree.c:419-435 | a number as a pattern matches that many characters, a negative one where fewer are left |
| `PegBuild.SeqMeans` | 3rd/lpeg/lptree.c:532-543 | the short cuts of the sequence operator keep the meaning |
| `PegBuild.ChoiceMeans` | 3rd/lpeg/lptree.c:551-569 | so do those of the choice operator, for sets, patterns that cannot fail, and false |
| `PegBuild.MinusMeans` | 3rd/lpeg/lptree.c:627-646 | the difference matches as its first pattern where the second does not match |
| `PegBuild.StarChecked` | 3rd/lpeg/lptree.c:572-603 | the repetition operator refuses exactly the bodies that checkloops would refuse |
| `PegBuild.AtLeastMeans` | 3rd/lpeg/lptree.c:576-584 | at least m: it matches as often as it can, and fails iff that is not often enough |
| `PegBuild.AtMostMeans` | 3rd/lpeg/lptree.c:585-599 | at most m: it stops there or where the pattern fails, and never fails |
| `PegBuild.FixedLenIff` | 3rd/lpeg/lpcode.c:236-273 | fixedlen gives a length iff every way through the pattern takes that many characters |
| `PegBuild.BehindEndsHere` | 3rd/lpeg/lptree.c:680-690 | what a look-behind finds always ends at the current position |
| `PegBuild.BehindMeans` | 3rd/lpeg/lptree.c:680-690 | a look-behind for a string matches iff the string ends here |
| `PegBuild.AndMeans` | 3rd/lpeg/lptree.c:605-622 | the and-predicate is the not-predicate of the not-predicate |
| `PegBuild.PairsMatch` | 3rd/lpeg/lpvm.c:149-360 | a recursive rule that pairs two characters matches as many of the one as of the other |
| `PegBuild.EvenMatch` | 3rd/lpeg/lpvm.c:149-360 | a grammar starts with its first rule and calls others: an even number of a character |
| `PegBuild.SearchFinds` | 3rd/lpeg/lpvm.c:149-360 | the pattern (1 - w)^0 * w finds the first occurrence of w, and fails iff there is none |
| `PegBuild.SearchCompiled` | 3rd/lpeg/lptree.c:1156-1174 | so does its compiled code, and it answers nothing else |
| `TimerPlaces.PlaceWraps` | skynet-src/skynet_timer.c:75-94 | the slot computed from the wrapped clock is the one of the unbounded clock, for delays below 2^31 |
| `TimerPlaces.TickPlaces` | skynet-src/skynet_timer.c:119-139 | a tick changes the slot only of timers in the list that cascades |
| `Timer.TickMoves` | skynet-src/skynet_timer.c:109-139 | emptying the cascading list into the others leaves every timer where add_node would put it now, in order |
| `Timer.CurrentList` | skynet-src/skynet_timer.c:159-170 | the list the clock points at holds exactly what is due now |
| `Timer.Wheel.constructor` | skynet-src/skynet_timer.c:188-209 | an empty wheel |
| `Timer.Wheel.LinkClear` | skynet-src/skynet_timer.c:59-65 | empties a list and returns its nodes |
| `Timer.Wheel.Link` | skynet-src/skynet_timer.c:68-72 | appends to one list |
| `Timer.Wheel.AddNode` | skynet-src/skynet_timer.c:75-94 | puts a node into the list of its place |
| `Timer.Wheel.Add` | skynet-src/skynet_timer.c:96-106 | a timer asked for with a delay is due that many ticks from now, behind all pending ones of its tick |
| `Timer.Wheel.MoveList` | skynet-src/skynet_timer.c:109-116 | redistributes one list, keeping the order |
| `Timer.Wheel.Shift` | skynet-src/skynet_timer.c:119-139 | a tick of the clock keeps every timer in its place |
| `Timer.Wheel.Execute` | skynet-src/skynet_timer.c:159-170 | sends exactly what is due, in order, while other threads add timers |
| `Timer.Wheel.Update` | skynet-src/skynet_timer.c:173-185 | one tick, with its pending timers |
| `Timer.RunAhead` | skynet-src/skynet_timer.c:173-185 | in every run pending timers lie ahead of the clock |
| `Timer.RunFires` | skynet-src/skynet_timer.c:96-185 | in every run, what is sent at a tick is exactly what was asked for at that tick, each once, in the order of the adds; the rest is pending |
| `Timer.Run` | skynet-src/skynet_timer.c:96-185 | the wheel sends, for every run of adds and ticks, exactly the log of what was asked for: tick by tick, each at the clock of its request plus its delay |
| `Timer.Wheel.AddAll` | skynet-src/skynet_timer.c:96-106 | timers added by other threads while the lock is free |
| `Timer.Wheel.TakeDue` | skynet-src/skynet_timer.c:159-166 | takes the list of what is due |
| `Timer.AtFired` | skynet-src/skynet_timer.c:159-170 | without what is due, that list is empty and the others are as they were |
| `Timer.RunLog` | skynet-src/skynet_timer.c:96-185 | all that a run sends, and when: tick by tick what was asked for, nothing else and nothing twice |
| `Timer.FiresOnTime` | skynet-src/skynet_timer.c:96-106 | a timer added with a delay has fired at the clock of its request plus the delay iff the clock got there |
| `Rings.RingPop` | skynet-src/skynet_mq.c:138-172 | taking from a ring buffer takes the first element |
| `Rings.RingPush` | skynet-src/skynet_mq.c:190-209 | adding to a ring buffer that is not full appends |
| `Mailbox.Raised` | skynet-src/skynet_mq.c:152-158 | the overload threshold after doubling is above the length, and not needlessly |
| `Mailbox.MessageQueue.constructor` | skynet-src/skynet_mq.c:77-96 | a mailbox starts empty and marked as queued |
| `Mailbox.MessageQueue.Length` | skynet-src/skynet_mq.c:111-125 | the number of messages, across the wrap of the ring |
| `Mailbox.MessageQueue.Pop` | skynet-src/skynet_mq.c:138-172 | takes the oldest message, or gives up the token when there is none |
| `Mailbox.MessageQueue.Expand` | skynet-src/skynet_mq.c:175-187 | doubles a full ring and keeps its messages in order |
| `Mailbox.MessageQueue.Push` | skynet-src/skynet_mq.c:190-209 | appends, growing when full, and queues the mailbox unless it is already in a place |
| `Mailbox.MessageQueue.MarkRelease` | skynet-src/skynet_mq.c:219-228 | marks the mailbox and queues it unless it is already in a place |
| `Mailbox.MessageQueue.Drain` | skynet-src/skynet_mq.c:230-237 | drops every message in order |
| `Scheduler.ReachInv` | skynet-src/skynet_server.c:126-351 | the invariant of mailboxes, contexts and the global queue holds after every run of any number of threads (what a run does with each service is in SchedulerRuns) |
| `Scheduler.MoveKeeps` | skynet-src/skynet_server.c:297-351 | each step of a thread keeps it |
| `Scheduler.OneAtATime` | skynet-src/skynet_server.c:297-351 | no service runs on two threads at once, and none is called before it is launched |
| `Scheduler.OneHolder` | skynet-src/skynet_mq.c:44-75 | a mailbox is in at most one place, and one that holds messages is in exactly one |
| `Scheduler.MessagesConserved` | skynet-src/skynet_mq.c:230-250 | pushed messages are those delivered, then dropped, then waiting, in order; a mailbox is freed only released and empty |
| `Scheduler.RefsCount` | skynet-src/skynet_server.c:196-227 | a context counts the registry and its holders; a holder still finds it; no mailbox is released twice (uses after the last reference of a launch are in Scheduler.LateUse) |
| `Scheduler.LateUse` | skynet-src/skynet_server.c:164-172 | when a launch marks the context initialised, or writes its log line, the context is gone iff its handle is retired, nobody holds it and nobody is about to delete it |
| `Scheduler.LateInitRun` | skynet-src/skynet_server.c:164-172 | a run in which it is gone when it is marked initialised |
| `Scheduler.LateLogRun` | skynet-src/skynet_server.c:164-175 | a run in which it is gone before the log line |
| `SchedulerRuns.RefusedNeverRuns` | skynet-src/skynet_server.c:173-182 | a service whose initialisation failed is never marked as initialised and never called, no message reaches it, and it has lost its handle when its creator is done |
| `SchedulerRuns.SucceededIsLaunched` | skynet-src/skynet_server.c:163-172 | one whose initialisation succeeded is marked as initialised, or gone, when its creator is done |
| `SchedulerRuns.CalledSucceeded` | skynet-src/skynet_server.c:297-351 | only a service whose initialisation succeeded is ever called |
| `SchedulerRuns.KeepsHandle` | skynet-src/skynet_server.c:163-182 | unless its initialisation failed, a service has its handle iff nobody killed it |
| `SchedulerRuns.PushedIsCalled` | skynet-src/skynet_server.c:297-351 | what was pushed into a mailbox is, in order: what the service was called with, a message just taken for it, what was dropped, what waits |
| `SchedulerRuns.SentIsPushed` | skynet-src/skynet_server.c:230-240 | what a thread sent to a service that had its handle it has pushed, in order, but for a message it carries |
| `SchedulerRuns.QueueIsFair` | skynet-src/skynet_mq.c:44-75 | mailboxes leave the global queue in the order they came |
| `SchedulerProgress.TurnTakes` | skynet-src/skynet_server.c:320-345 | a turn calls the service once or, with weight w, as often as there were messages behind the first divided by 2^w |
| `SchedulerProgress.ShiftDivides` | skynet-src/skynet_server.c:322 | shifting the length of a mailbox divides it by 2^w |
| `SchedulerProgress.CanBeCalled` | skynet-src/skynet_server.c:297-351 | in every reachable state, some continuation calls a registered service with the oldest message that waits for it |
| `SchedulerProgress.CanBeFreed` | skynet-src/skynet_server.c:196-228 | and one frees the mailbox of a service without a handle, every message delivered or dropped |
| `SocketStream.LockedPiece` | skynet-src/socket_server.c:1658-1727 | under the lock a direct write starts only when no packet is written in part |
| `SocketStream.SendStream` | skynet-src/socket_server.c:650-681 | each write of the socket thread continues the packet that is written in part |
| `SocketStream.SenderStream` | skynet-src/socket_server.c:1676-1717 | a direct write continues the stream |
| `SocketStream.ServerStream` | skynet-src/socket_server.c:650-884 | every step of the socket thread keeps the shape of the stream |
| `SocketOrder.SenderCount` | skynet-src/socket_server.c:1191-1221 | the counter of announced requests is right after every step of a sender |
| `SocketOrder.SocketSize` | skynet-src/socket_server.c:838-904 | wb_size is what the lists still hold |
| `SocketOrder.WriteOrder` | skynet-src/socket_server.c:1676-1717 | a direct write comes behind every earlier packet of its sender and priority |
| `SocketOrder.HandOrder` | skynet-src/socket_server.c:914-980 | queueing keeps the order of one sender and priority (nothing is lost by it: SocketOrder.HandLine) |
| `SocketSafety.SenderKeeps` | skynet-src/socket_server.c:1658-1727 | every step of a sender keeps the whole invariant |
| `SocketSafety.SocketKeeps` | skynet-src/socket_server.c:650-980 | so does every step of the socket thread, but for the one of SocketSafety.CloseBreaksIff |
| `SocketSafety.ReachInv` | skynet-src/socket_server.c:650-980 | it holds in every run without that step, for any number of senders |
| `SocketSafety.StreamSafe` | skynet-src/socket_server.c:650-980 | what is written is whole packets back to back plus at most one partial one, each sender and priority in call order |
| `SocketSafety.AssertionsHold` | skynet-src/socket_server.c:796-836 | the assertions of send_buffer_ and of the counter hold in these runs |
| `SocketSafety.UnsafeCloseBreaks` | skynet-src/socket_server.c:473-506 | freeing the lists of an open connection in mid-packet, outside the lock and with no request announced, lets a direct write break the stream, whoever holds the lock |
| `SocketSafety.BrokenRun` | skynet-src/socket_server.c:473-506 | such a run exists |
| `SocketSlot.Slot.SendList` | skynet-src/socket_server.c:650-681 | the loop over a list takes exactly the steps of the protocol, for every answer of the kernel |
| `SocketSlot.Slot.RaiseUncomplete` | skynet-src/socket_server.c:766-781 | the low packet sent in part becomes the high list |
| `SocketSlot.Slot.SendBuffers` | skynet-src/socket_server.c:796-836 | high list, then low list; what is asserted there holds |
| `SocketSlot.Slot.SendBuffer` | skynet-src/socket_server.c:838-864 | the whole call is a run of protocol steps from the lock to waiting again |
| `SocketSlot.Slot.SendSocket` | skynet-src/socket_server.c:914-980 | queueing a request is the protocol step: a connection that is going down drops it; else one of high priority, or one that finds nothing waiting, joins the high list, any other the low list |
| `SocketSlot.Slot.ForceClose` | skynet-src/socket_server.c:473-506 | closing under the lock is two protocol steps |
| `SocketSafety.CloseBreaksIff` | skynet-src/socket_server.c:473-506 | when the lists are about to be freed outside the lock, some continuation breaks the stream iff the connection looks open, a packet is written in part and no request is announced |
| `SocketSafety.GoesDownShaped` | skynet-src/socket_server.c:473-506 | from any other such state every continuation keeps the stream whole |
| `SocketSafety.UnsafeRunBreaks` | skynet-src/socket_server.c:473-506 | a run with that step could have gone on, from the step, to break the stream |
| `SocketOrder.HandLists` | skynet-src/socket_server.c:933-980 | which list a request joins, by kind of connection and priority |
| `SocketOrder.HandLine` | skynet-src/socket_server.c:914-980 | a request from the pipe is dropped iff the connection is going down; else it stays behind all that wait or, with high priority, behind the high list |
| `SocketConserve.Conserved` | skynet-src/socket_server.c:473-980 | for every run and packet: it was handed over as often as it is written, waits somewhere, is carried by its sender, or was dropped by one of three steps |
| `SocketConserve.NothingLost` | skynet-src/socket_server.c:914-980 | while the connection is never half-closed, closed or freed, nothing is dropped |
| `SocketConserve.AllWritten` | skynet-src/socket_server.c:650-980 | once nothing waits any more, the packets handed over are exactly those written in full |
| `SocketConserve.GentleFrees` | skynet-src/socket_server.c:1003-1035 | without an error, an abort or a request to close at once, the lists are empty whenever they are freed |
| `SocketDrain.CanBeWritten` | skynet-src/socket_server.c:650-980 | as long as nobody closes an open connection, some continuation writes everything that was handed over so far |
| `SocketDrain.HalfCloseEnds` | skynet-src/socket_server.c:796-836 | a half-closed connection closes once everything that waits is written |
| `SocketDrain.CanBeClosed` | skynet-src/socket_server.c:1008-1035 | an open connection can be closed with everything written that was handed over so far |
| `RwLock.StepInv` | skynet-src/rwlock.h:17-48 | every access of a thread keeps: the counters are the readers and the writer that are inside or entering |
| `RwLock.Excludes` | skynet-src/rwlock.h:17-48 | a writer is inside alone, for any number of threads and any interleaving |
| `RwLock.GetsOn` | skynet-src/rwlock.h:17-48 | while nobody is inside, some thread that wants to be gets on: no deadlock |
| `RwLock.WriterPasses` | skynet-src/rwlock.h:28-43 | an undisturbed writer is inside after three accesses, and leaves the lock as it was |
| `RwLock.ReaderPasses` | skynet-src/rwlock.h:17-48 | so is a reader, after four |
| `Stm.RunInv` | lualib-src/lua-stm.c:47-115 | the invariant of snapshots holds in every run (which snapshot is current is in StmFresh) |
| `Stm.CopyCounts` | lualib-src/lua-stm.c:47-72 | each copy counts its holders; it is freed at most once, only when nobody holds it, and then it is |
| `Stm.HeldIsAlive` | lualib-src/lua-stm.c:94-104 | a copy that stm_copy is about to return, or that anybody holds, is not freed |
| `Stm.LockFitsStep` | lualib-src/lua-stm.c:94-115 | each access takes the lock as its place requires |
| `StmFresh.ObjectIsCurrent` | lualib-src/lua-stm.c:106-115 | while nobody writes, the object points to the copy of the last update that had the lock |
| `StmFresh.UpdatePublishes` | lualib-src/lua-stm.c:106-115 | the copy of a finished update was current at some moment of it |
| `StmFresh.ReadIsFresh` | lualib-src/lua-stm.c:94-104 | a finished read leaves in the reader box a copy that was current at some moment of the read |
| `StmFresh.ReadsLatest` | lualib-src/lua-stm.c:94-115 | a read that starts after an update ended, with no other change until it ends, returns the copy of that update |
| `StmFresh.UpdateEnds` | lualib-src/lua-stm.c:106-115 | an undisturbed update ends, and its copy is the one of the object |
| `StmFresh.ReadEnds` | lualib-src/lua-stm.c:94-104 | an undisturbed read ends with the copy of the object |
| `SharedData.FreeSlot` | lualib-src/lua-sharedata.c:252-260 | a key that is not yet in the table finds a free slot, so the search for one never runs out |
| `SharedData.AllUsed` | lualib-src/lua-sharedata.c:238-273 | the finished table is full: as many slots as hash pairs |
| `SharedData.LinkChains` | lualib-src/lua-sharedata.c:261-268 | linking a slot in behind its main slot keeps chains acyclic and on their own keys |
| `SharedData.CountSize` | lualib-src/lua-sharedata.c:67-89 | the number of pairs that go to the hash |
| `SharedData.FillNoColliding` | lualib-src/lua-sharedata.c:213-235 | first pass: array values, and the first key of each main slot |
| `SharedData.NextFree` | lualib-src/lua-sharedata.c:252-260 | the first free slot from a place on |
| `SharedData.FillColliding` | lualib-src/lua-sharedata.c:238-273 | second pass: every other key in a free slot, linked in behind its main slot |
| `SharedData.Table.constructor` | lualib-src/lua-sharedata.c:278-327 | both passes build a table of exactly the source pairs, for any hash function |
| `SharedData.Table.LookupKey` | lualib-src/lua-sharedata.c:503-531 | finds the slot of a key iff it is in the hash, with the nocolliding shortcut |
| `SharedData.Table.Index` | lualib-src/lua-sharedata.c:534-567 | indexing finds the value of a key iff the source has it |
| `SharedData.Table.NextKey` | lualib-src/lua-sharedata.c:591-647 | the key after a key in the order of visits |
| `SharedData.VisitsAll` | lualib-src/lua-sharedata.c:591-647 | the visits are exactly the keys of the source, each once |
| `SharedData.LinkIn` | lualib-src/lua-sharedata.c:261-268 | links a free slot in behind a main slot |
| `SharedData.Table.ArrayNext` | lualib-src/lua-sharedata.c:593-625 | the next key of the array part, or else the first hash key |
| `Frames.Pack` | lualib-src/lua-netpack.c:437-452 | packing refuses messages of 64 KiB and more, and puts the size in front |
| `Frames.UnframeConcat` | lualib-src/lua-netpack.c:189-215 | cutting a stream into packets can be continued: what is left plus the next bytes |
| `Frames.StreamUnframes` | lualib-src/lua-netpack.c:437-452 | packed messages back to back are cut into exactly those messages, nothing left |
| `NetPack.Queue.constructor` | lualib-src/lua-netpack.c:134-148 | nothing waits |
| `NetPack.Queue.FindUncomplete` | lualib-src/lua-netpack.c:93-114 | takes out the partial packet of one connection and no other |
| `NetPack.Queue.SaveUncomplete` | lualib-src/lua-netpack.c:169-180 | keeps the partial packet of one connection |
| `NetPack.Queue.ExpandQueue` | lualib-src/lua-netpack.c:134-148 | a full ring gets room and keeps its packets in order |
| `NetPack.Queue.PushData` | lualib-src/lua-netpack.c:151-167 | queues a packet |
| `NetPack.Queue.PushMore` | lualib-src/lua-netpack.c:189-215 | queues all whole packets of the rest and keeps the partial one |
| `NetPack.Queue.Filter` | lualib-src/lua-netpack.c:228-307 | one chunk: a packet, several queued ones, or nothing yet, and what waits afterwards |
| `NetPack.Queue.Pop` | lualib-src/lua-netpack.c:396-410 | the oldest packet |
| `NetPack.Queue.CloseUncomplete` | lualib-src/lua-netpack.c:218-225 | drops what waits for one connection |
| `NetPack.Receive` | lualib-src/lua-netpack.c:227-410 | every connection gets the packets of its own bytes in order, for any interleaving and cutting of chunks |
| `NetPack.MessagesArrive` | lualib-src/lua-netpack.c:228-452 | so packed messages arrive as they were sent |
| `NetPack.Queue.FilterFresh` | lualib-src/lua-netpack.c:270-306 | a chunk that starts a packet |
| `NetPack.Queue.Whole` | lualib-src/lua-netpack.c:253-269 | a packet is complete: alone it is the result, with more behind it it is queued |
| `NetPack.Queue.Take` | lualib-src/lua-netpack.c:227-410 | one chunk and, after "more", everything that is ready |
| `ReadBuffer.Buffer.constructor` | lualib-src/lua-socket.c:72-81 | an empty buffer |
| `ReadBuffer.Buffer.NewPage` | lualib-src/lua-socket.c:55-70 | a page of fresh pool nodes, none lost |
| `ReadBuffer.Buffer.Push` | lualib-src/lua-socket.c:101-151 | appends a chunk, with a node of the pool |
| `ReadBuffer.Buffer.ReturnFreeNode` | lualib-src/lua-socket.c:154-170 | the first node goes back to the pool |
| `ReadBuffer.Buffer.PopLString` | lualib-src/lua-socket.c:173-212 | takes exactly the first bytes, over any number of chunks |
| `ReadBuffer.Buffer.Pop` | lualib-src/lua-socket.c:238-255 | exactly the bytes asked for, or nothing |
| `ReadBuffer.Buffer.ReadAll` | lualib-src/lua-socket.c:279-295 | everything, and all nodes go back |
| `ReadBuffer.Buffer.Clear` | lualib-src/lua-socket.c:262-276 | drops everything |
| `ReadBuffer.Buffer.CheckSep` | lualib-src/lua-socket.c:305-322 | whether the separator starts at a place, over as many chunks as it takes |
| `ReadBuffer.Buffer.ReadLine` | lualib-src/lua-socket.c:330-366 | exactly the bytes before the first separator, found iff there is one; checking changes nothing |
| `ReadBuffer.Buffer.PopAcross` | lualib-src/lua-socket.c:181-211 | takes bytes over several chunks |
| `LittleEndian.LowRound` | lualib-src/lua-seri.c:143-174 | the low bytes of a number give the number back |
| `Seri.IntRound` | lualib-src/lua-seri.c:143-400 | the shortest integer form is read back |
| `Seri.StrRound` | lualib-src/lua-seri.c:191-210 | the three string forms are read back |
| `Seri.PackRound` | lualib-src/lua-seri.c:297-553 | reading a packed value gives it back and stops behind it, for every legal value |
| `Seri.TableRound` | lualib-src/lua-seri.c:218-465 | the same for tables, with the array-size escape and the nil behind the pairs |
| `Seri.ListRound` | lualib-src/lua-seri.c:343-598 | unpacking a packed list gives the list |
| `SeriBlocks.WriteBlock.constructor` | lualib-src/lua-seri.c:88-94 | an empty list of blocks |
| `SeriBlocks.WriteBlock.Push` | lualib-src/lua-seri.c:66-85 | appends bytes over blocks of 128 |
| `SeriBlocks.WriteBlock.Seri` | lualib-src/lua-seri.c:535-553 | the blocks back to back |
| `SeriBlocks.WriteBlock.PutInteger` | lualib-src/lua-seri.c:143-174 | appends the specified bytes of an integer |
| `SeriBlocks.WriteBlock.PutString` | lualib-src/lua-seri.c:191-210 | appends the specified bytes of a string |
| `SeriBlocks.WriteBlock.PackOne` | lualib-src/lua-seri.c:297-340 | appends the specified bytes of a value, or refuses exactly when it nests too deep |
| `SeriBlocks.PackList` | lualib-src/lua-seri.c:343-612 | packs a list of values into the specified bytes |
| `SeriRead.ReadBlock.Read` | lualib-src/lua-seri.c:119-128 | the next bytes, or nothing when too few are left |
| `SeriRead.ReadBlock.GetInteger` | lualib-src/lua-seri.c:360-400 | reads what the specification reads |
| `SeriRead.ReadBlock.UnpackOne` | lualib-src/lua-seri.c:468-532 | reads a value as specified, and fails on exactly the same streams; lengths and sizes are int, a negative length and a NaN as a key fail |
| `SeriRead.UnpackList` | lualib-src/lua-seri.c:556-598 | unpacks as specified |
| `SeriRead.RoundTrip` | lualib-src/lua-seri.c:343-612 | packing and unpacking through the blocks gives the values back |
| `SeriBlocks.WriteBlock.PackArray` | lualib-src/lua-seri.c:218-237 | appends the array part |
| `SeriBlocks.WriteBlock.PackHash` | lualib-src/lua-seri.c:240-257 | appends the pairs and the nil behind them |
| `SeriBlocks.WriteBlock.PackTableValue` | lualib-src/lua-seri.c:283-294 | appends a table |
| `SeriRead.ReadBlock.GetString` | lualib-src/lua-seri.c:424-432 | reads a string as specified; a length of 2^31 or more is negative and fails |
| `SeriRead.ReadBlock.GetTable` | lualib-src/lua-seri.c:435-465 | reads a table as specified; a key that is NaN fails |
| `SeriWire.FirstBytes` | lualib-src/lua-seri.c:130-141 | nil and truth values as bytes |
| `SeriWire.WordBytes` | lualib-src/lua-seri.c:176-189 | a double and a pointer as bytes |
| `SeriWire.NumberWidths` | lualib-src/lua-seri.c:143-174 | integers as bytes: type, width, low byte first |
| `SeriWire.NegativeWidths` | lualib-src/lua-seri.c:143-174 | negative integers as bytes, in two's complement |
| `SeriWire.StringBytes` | lualib-src/lua-seri.c:191-210 | strings as bytes |
| `SeriWire.TableBytes` | lualib-src/lua-seri.c:218-294 | tables as bytes |
| `SeriWire.LongTableBytes` | lualib-src/lua-seri.c:218-231 | long array parts as bytes |
| `SeriWire.DepthLimit` | lualib-src/lua-seri.c:297-302 | packing refuses what lies inside of more than 32 tables |
| `SeriWire.AnyWidth` | lualib-src/lua-seri.c:360-400 | every width that an integer fits reads as the integer |
| `SeriWire.IntShortest` | lualib-src/lua-seri.c:143-174 | and no form that reads as the integer is shorter than the one it is packed into |
| `SeriWire.StrShortest` | lualib-src/lua-seri.c:191-210 | no form that reads as a string is shorter than the one it is packed into |
| `SeriWire.ValueMore` | lualib-src/lua-seri.c:468-532 | more bytes behind a value do not change it |
| `SeriWire.CutIsInvalid` | lualib-src/lua-seri.c:468-553 | a packed value that is cut short is refused, wherever it is cut |
| `Crypt.MulModP` | lualib-src/lua-crypt.c:795-815 | the product modulo P, although doubling wraps in 64 bits |
| `Crypt.PowModP` | lualib-src/lua-crypt.c:817-828 | powers by squaring |
| `Crypt.PowMod` | lualib-src/lua-crypt.c:830-836 | a^b mod P for all words iff not (a == P and b == 1), where the result is P |
| `Crypt.DhExchange` | lualib-src/lua-crypt.c:870-888 | the public key of an exponent x is 5^x modulo 2^64 - 59, the low byte first; zero is refused |
| `Crypt.DhSecret` | lualib-src/lua-crypt.c:853-866 | the secret of a public key and an exponent; zero is refused |
| `Crypt.SecretOf` | lualib-src/lua-crypt.c:853-888 | the secret is the power of the product of the exponents |
| `Crypt.PublicNotZero` | lualib-src/lua-crypt.c:853-888 | no public key is zero |
| `Crypt.KeyRound` | lualib-src/lua-crypt.c:838-851 | a key that was pushed reads back as the number |
| `Crypt.Agree` | lualib-src/lua-crypt.c:853-888 | both sides compute the same secret for all non-zero exponents |
| `Crypt.AddModP` | lualib-src/lua-crypt.c:799-806 | a sum modulo P without wrapping |
| `Crypt.DoubleModP` | lualib-src/lua-crypt.c:807-811 | doubling modulo P |
| `Crypt.PowMul` | lualib-src/lua-crypt.c:853-888 | powers of powers multiply exponents |
| `Base64.GroupRound` | lualib-src/lua-crypt.c:892-1010 | four characters decode to bytes iff those bytes encode to them |
| `Base64.RoundTrip` | lualib-src/lua-crypt.c:892-1010 | decoding undoes encoding |
| `Base64.DecodesExactly` | lualib-src/lua-crypt.c:935-1010 | a text decodes iff, without ignored characters, it is groups each written for one to three bytes, and its last character counts |
| `Base64.TrailingRefused` | lualib-src/lua-crypt.c:960-966 | an ignored character at the end makes the text invalid |
| `Base64.EncodeText` | lualib-src/lua-crypt.c:892-933 | the encoding loop and its padding |
| `Base64.DecodeText` | lualib-src/lua-crypt.c:935-1010 | the decoding loops; they stay inside the buffer |
| `Base64.TakeGroup` | lualib-src/lua-crypt.c:960-977 | the next four characters that count, or the end of the text |
| `Base64.PutGroup` | lualib-src/lua-crypt.c:978-1006 | the bytes of a group, or an error |
| `Base64.PutLast` | lualib-src/lua-crypt.c:913-930 | the padded group at the end |
| `Base64.FillIs` | lualib-src/lua-crypt.c:963-977 | characters are taken until enough of them count |
| `Base64.Alphabet` | lualib-src/lua-crypt.c:895-900 | the digits are the letters of the standard alphabet, in their order |
| `Handles.LiveDistinct` | skynet-src/skynet_handle.c:34-71 | services in the table have distinct handles |
| `Handles.HashDoubles` | skynet-src/skynet_handle.c:62-66 | one more low bit tells apart what shared a slot |
| `Handles.ScanReaches` | skynet-src/skynet_handle.c:40-58 | a scan reaches every slot but, when it passes the last index, slot 0 |
| `Handles.FirstSkipped` | skynet-src/skynet_handle.c:40-58 | and then it does not reach slot 0 |
| `Handles.SpreadKeeps` | skynet-src/skynet_handle.c:60-69 | doubling keeps the services and their places; none collide |
| `Handles.Registry.constructor` | skynet-src/skynet_handle.c:246-263 | four empty slots, index 1, the harbor in the high bits |
| `Handles.Registry.Register` | skynet-src/skynet_handle.c:34-71 | the handle is the first empty slot in scan order, of the table or of the doubled one; it was not live, and not issued before until the index wraps; when the table is full or a null slot is read, exactly |
| `Handles.Registry.Grab` | skynet-src/skynet_handle.c:136-153 | finds a service iff its handle is live |
| `Handles.Registry.Retire` | skynet-src/skynet_handle.c:73-110 | takes out the service of a handle and exactly its names, and leaves the other slots |
| `HandleNames.CompareChains` | skynet-src/skynet_handle.c:165-178 | the order of names is transitive |
| `HandleNames.BindsOnce` | skynet-src/skynet_handle.c:155-183 | a name stands for one handle |
| `HandleNames.Names.FindName` | skynet-src/skynet_handle.c:155-183 | binary search finds the handle of a name, or 0 iff there is none |
| `HandleNames.Names.InsertBefore` | skynet-src/skynet_handle.c:185-209 | shifts or copies, and puts the name at its place |
| `HandleNames.Names.InsertName` | skynet-src/skynet_handle.c:211-244 | adds exactly one binding in order, or refuses a name that is taken |
| `HandleNames.Names.Drop` | skynet-src/skynet_handle.c:86-97 | compaction takes out exactly the names of one handle and keeps the order |
| `Handles.ScanFails` | skynet-src/skynet_handle.c:40-58 | a scan finds no slot iff the table is full, up to slot 0 when it passes the last index |
| `Handles.Registry.Scan` | skynet-src/skynet_handle.c:40-58 | the first empty slot in scan order |
| `Handles.Registry.DoubleSlots` | skynet-src/skynet_handle.c:60-69 | the doubled table, unless a slot it reads as a service is empty |
| `Handles.HalfEmpty` | skynet-src/skynet_handle.c:60-69 | after doubling the next scan succeeds |
| `HandleNames.Names.Search` | skynet-src/skynet_handle.c:163-178 | halving finds the name, or the place where it would be |
| `HandleNames.InsertedKeeps` | skynet-src/skynet_handle.c:185-209 | a name at its place keeps the order and adds one binding |
| `HandleNames.WithoutBinds` | skynet-src/skynet_handle.c:86-97 | without the names of one handle the order and the other bindings stay |
| `Handles.ComeAndGo` | skynet-src/skynet_handle.c:34-110 | a service that registers and retires beside three others leaves the table as it was and the index at the next multiple of four and one |
| `Handles.ToNullRead` | skynet-src/skynet_handle.c:34-71 | registrations and retirements lead from a new registry to the read of a null slot |

## Left out

LPeg

- PegTree.Peg: bounds calls and loop turns by a fuel; the main theorems say that enough fuel exists or hold for any that suffices.
- PegAnalysis.GetFirst: calls are followed to a depth and then answered conservatively, where the code cuts recursion by clearing keys; on accepted patterns the depth makes no difference, neither to the sets (PegSettle) nor to the code and the checks (PegStable).
- Match-time captures, capture values (positions and results of captures) and open calls outside grammars: a capture only matches its body.
- PegCodegen.Gen: an instruction is one cell with its operands as a value, followed by empty cells for the room they take; how sets and offsets lie in those cells is not modelled.
- PegEmit.CompileState.GenTree: takes the final code as a ghost argument, to know that jump chains end; the flat tree is read as a value.
- PegFix.FinalFix: the resolution of rule names to rules is not modelled; calls name their rules already.
- PegMatch.Match: the capture array and memory that runs out are not modelled; the initial stack has the size of the constant in lptypes.h.
- PegBuild.StarChecked: patterns are put together without open calls, which exist only while a grammar is being built; keys, constant tables and grammars from Lua tables are left out.
- PegMatch.MatchPattern: the conversion of the start position given to `lp_match`, and its results as Lua values, are left out.

Timer, mailboxes, sockets, locks

- Timer.Wheel.AddNode: masks and shifts of the clock are written as quotients and remainders; lists are sequences.
- Timer.RunFires: the clock source, time jumps and delays of zero, which are answered without the wheel, are not modelled.
- Scheduler.ReachInv: registering a handle and creating its mailbox is one step; the log line behind a launch is no step of its own, Scheduler.LateUse holds at any time; the monitor, profiling, endless detection and harbors are left out.
- Scheduler.OneAtATime: the global queue is a sequence, each of its locked regions one step.
- SocketSafety.StreamSafe: one connection over one lifetime of its slot; UDP, user objects, reading, the event poller, warnings and reports are left out; `write` accepts any prefix or fails, the request pipe is a queue.
- SocketConserve.GentleFrees: what a direct write leaves behind while the socket thread closes is dropped, and so are requests that reach a half-closed connection, as in the code.
- SchedulerProgress.CanBeCalled: says that a continuation exists; that the threads take it depends on the operating system's scheduler, which is not modelled.
- SocketSlot.Slot.SendBuffer: the methods of the socket thread are proved as calls; senders, which run in between, are state-machine steps only.
- RwLock.Excludes: the threads are a fixed number; each atomic access is one step of a sequentially consistent memory.
- Stm.CopyCounts: the final free of the object itself and its own counter are not modelled.

Index, stream and codec cores

- SharedData.Table.LookupKey: strings are compared by content instead of by index into a string table, any hash function is allowed, and integer keys are in the range of `int`; nested tables are values.
- SharedData.Table.constructor: the order in which Lua enumerates a table is the order of the given pairs, the same in both passes.
- NetPack.Receive: chunks are not empty; pointers, copying and freeing of buffers are values.
- ReadBuffer.Buffer.Pop: negative counts are not modelled; chunks and separators are not empty.
- SeriRead.ReadBlock.GetString: a negative length ends in an error as in the code; where the cursor points by then is not modelled.
- Seri.Unpack: a table is the list of its pairs as read; that a float key with an integral value becomes an integer, and that a repeated key overwrites, is not modelled.
- Seri.PackRound: a double is its eight bytes, a pointer a number; `__pairs` metamethods, strings of 2 GiB and more and array sizes that do not fit are left out.
- Crypt.Agree: DES, hashes and hex are left out; that 2^64 - 59 is prime is not proved, and nothing here rests on it.
- Base64.EncodeText: the two tables are written as arithmetic on character codes.
- Handles.Registry.Register: registering and telling the service its handle is one step under the lock; the loop that retires every service is left out.
- HandleNames.Names.Search: a name is its bytes without the final zero.
- Lua stack handling, garbage collection, memory allocation failures and error jumps are results or left out everywhere.
