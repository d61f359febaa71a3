# Verified models of the skynet game server's C cores

Each group of modules models one core of the server as the code has it and proves, for all inputs,
runs or reachable states, that it does what it is for.  `dafny verify dfyconfig.toml` checks
everything.

- **Pattern matching** (`Lpeg*`): LPeg's static analyses, the optimising compiler from pattern trees
  to backtracking code (with grammars, captures and the peephole pass), the machine that runs the
  code, the checks that accept a pattern, and the in-place rotation of the flat tree.  Main result:
  every accepted pattern, compiled and run on any subject, stops with exactly the end position and
  captures that parsing expressions define, or with a stack overflow exactly when its code needs a
  deeper stack than allowed; analyses and jump chains, which the program follows without a bound, end.
- **TCP write path** (`TcpWrite`, `TcpProof`): workers that may write to the socket directly, two
  priority lists and a socket thread, as interleaved steps.  Main result: whatever the interleaving
  and however `write` splits data, the stream is never torn and every sender's order is kept.
- **Actor scheduler** (`Scheduler*`, `MessageQueue`): message queues, the global run queue, contexts
  with reference counts, and any number of threads.  Main results: a queue is owned exactly once, no
  service is dispatched twice at a time, no message is stranded, lost or reordered, everything is
  freed exactly once.
- **Timing wheel** (`TimerWheel`, `SkynetTimer`): five levels of slots over a wrapping 32-bit clock
  deliver what a plain list of deadlines would.
- **Number conversion** (`Bignum*`): word arithmetic with carries and borrows, the quotient estimate
  that needs one correction, the cached powers of five, up to correctly rounded decimal digits.
- **Shared copies** (`Stm*`): a spinning reader/writer lock and reference-counted copies under all
  interleavings.
- **Frozen tables** (`ShareData`), **stream framing** (`NetPack`), **serialisation** (`Seri*`),
  **DES** and **Diffie-Hellman** (`Des`, `DhExchange`), **SHA-1 and HMAC** (`Sha1`), **cluster
  packages** (`Cluster`) and **card plays** (`Land`, `LandKinds`): an imperative form each, proved
  against a short specification, and the round trip, agreement or classification it exists for.

Code that changes objects or arrays step by step is a class or a method with loops, proved against a
function of its inputs or old state; code with several threads is a state machine over its atomic
steps; everything else is functions and lemmas.  Integer widths and wrap-around are written out; a
signed 32-bit word that overflows wraps around (`Ints`), where the C standard leaves it undefined.

Where the code does not do what it is meant to, the code is modelled as it is and the exact
condition is proved:

- The left-recursion check of LPeg forgets at a sub-grammar that nothing may have been consumed yet.
  It lets a left-recursive grammar through exactly where it differs from the walk that remembers
  (`LpegLeft.StrictIsExact`, `LpegLeft.LetThrough`, `LpegVerify.LeftRecursionAccepted`).
- `skynet_context_new` marks a service ready, and reads it for two log lines, after giving up its
  reference; a service retired during its own initialisation is always read after it was freed
  (`SchedulerTheorems.CreatorMayWriteLate`, `SchedulerTheorems.CreatorMayReadLate`,
  `SchedulerTheorems.CreatorReadsFreed`, `SchedulerTheorems.LateUses`).
- `skynet_context_new` registers a handle before it makes the queue, so that a thread may push to a
  queue that is not there (`SchedulerTheorems.GrabbedWithoutQueue`, `SchedulerTheorems.QueueWindow`,
  `SchedulerTheorems.QueuesAreSafe`).
- `powmodp` does not reduce a base equal to the prime when the exponent is one
  (`DhExchange.PowModPReduced`).
- The bit count of SHA-1 is wrong for a single update of 2^29 bytes or more unless the low word
  happens to overflow (`Sha1.CountsRight`, `Sha1.OneUpdate`, `Sha1.TextCounted`).
- `lconcat` keeps sizes in signed 32-bit words: messages of 2^31 bytes and more are packed and
  announced, and do not come back (`Cluster.JoinsBelow2G`, `Cluster.TwoGDoNotComeBack`).
- `ldesdecode` compares a signed index with an unsigned length: a single block that decrypts to eight
  zero bytes makes it read below the buffer (`Des.StaysInsideUnless`, `Des.ZeroBlockReadsBelow`).
- `ldesencode` and `ldesdecode` index texts with a signed 32-bit word: texts of 2^31 bytes and more do
  not come back (`Des.DecodeEncode`, `Des.LongTextFails`).
- `lua-seri.c` keeps all lengths in signed 32-bit words: values do not come back when a string or an
  array has 2^31 items or all of them together 2^31 bytes with the header (`SeriBack.PackUnpack`,
  `SeriBack.StringLost`, `SeriBack.TwoGAreLost`).
- `lua-sharedata.c` cuts integer keys to 32 bits, so that a lookup may find another key's value
  (`ShareData.NarrowIsExact`, `ShareData.Table.IndexConf`).
- `AnalyseOutCard` takes the whole run of triples: five triples in a row and one card are refused
  (`LandKinds.TripleRowPlays`, `LandKinds.LongRowFails`, `LandKinds.TenToSixFails`).
- `setmaxstack` with less than 400 has no effect: the stack starts with 400 entries
  (`LpegVm.Limit`, `LpegMatch.MatchLimited`).
- The comments of `lua-cluster.c` put the limit of a single request package at 32 K inclusive; the
  code already cuts a request of exactly 32 K, as modelled, and a response only above 32 K.

## Model

| member | source | states |
|---|---|---|
| LpegAnalysis.NullableSound | skynet/3rd/lpeg/lpcode.c:196-230 | a tree that `nullable` rejects consumes input on every success |
| LpegAnalysis.NofailSound | skynet/3rd/lpeg/lpcode.c:196-230 | a tree that `nofail` accepts never fails, on any subject |
| LpegAnalysis.FixedLenSound | skynet/3rd/lpeg/lpcode.c:236-275 | a fixed length n means that every success consumes exactly n bytes |
| LpegAnalysis.HasCapturesSound | skynet/3rd/lpeg/lpcode.c:152-172 | a tree in which no capture is found leaves the capture list alone, through recursive calls too |
| LpegAnalysis.FirstSound | skynet/3rd/lpeg/lpcode.c:294-370 | a next byte outside the first set makes the tree, followed by anything that starts inside the follow set, fail; a set that does not accept the empty string makes it fail at the end of input |
| LpegAnalysis.HeadfailSound | skynet/3rd/lpeg/lpcode.c:377-399 | for a headfail tree, failing depends exactly on the next byte being outside its first set |
| LpegAnalysis.NofailFirstFull | skynet/3rd/lpeg/lpcode.c:294-370 | a tree that never fails reports the full first set and the empty string |
| LpegVm.FinalStep | skynet/3rd/lpeg/lpvm.c:149-293 | a step of the machine does not change where the run ends |
| LpegVm.HaltsOnce | skynet/3rd/lpeg/lpvm.c:149-293 | the outcome of a run does not depend on when it is looked at |
| LpegCalls.CorrectCallsResolves | skynet/3rd/lpeg/lpcode.c:844-862 | every open call becomes a call, or a jump exactly when jumps lead from it to a return; nothing else changes |
| LpegCalls.GrammarPlaced | skynet/3rd/lpeg/lpcode.c:868-885 | in the code of a grammar every rule stands, followed by a return, at the position its calls name |
| LpegTheorem.GenCorrect | skynet/3rd/lpeg/lpcode.c:919-945 | for every tree, follow set, reused outer choice (`opt`) and dominating test (`tt`): running the generated code is failing, or continuing behind it at the position and with the captures the tree means, before every continuation that starts inside the follow set |
| LpegTheorem.ChoiceCorrect | skynet/3rd/lpeg/lpcode.c:677-711 | both forms of a choice, with and without a choice point, mean ordered choice |
| LpegTheorem.RepCorrect | skynet/3rd/lpeg/lpcode.c:777-813 | span, test-only and choice-point loops mean greedy repetition, also when an outer choice is reused |
| LpegTheorem.NotCorrect | skynet/3rd/lpeg/lpcode.c:823-836 | both forms of a negative look-ahead mean it |
| LpegTheorem.AndCorrect | skynet/3rd/lpeg/lpcode.c:720-737 | walking back over a match of fixed length means look-ahead, as the form with a choice does |
| LpegTheorem.BehindCorrect | skynet/3rd/lpeg/lpcode.c:659-664 | look-behind means matching n bytes earlier and staying in place |
| LpegTheorem.CaptureCorrect | skynet/3rd/lpeg/lpcode.c:745-757 | a single full-capture entry and an open/close pair record what the capture means |
| LpegTheorem.CallCorrect | skynet/3rd/lpeg/lpcode.c:887-893 | calls and tail calls mean the rule they name |
| LpegTheorem.GrammarCorrect | skynet/3rd/lpeg/lpcode.c:868-885 | a grammar means its initial rule |
| LpegLayout.GenLaid | skynet/3rd/lpeg/lpcode.c:438-460 | generated code can be read instruction by instruction by the sizes of the instructions |
| LpegJumps.GenContained | skynet/3rd/lpeg/lpcode.c:543-556 | jumps in generated code stay inside it |
| LpegPeephole.Simulates | skynet/3rd/lpeg/lpcode.c:956-995 | a rewritten program follows every run of the original one that ends, also through stacks that hold return and choice addresses in different but equivalent form |
| LpegPeephole.PeepholeAnswers | skynet/3rd/lpeg/lpcode.c:956-995 | optimising all jumps of any laid-out code keeps every answer of the machine on every subject |
| LpegBound.BoundSuffices | skynet/3rd/lpeg/lpcode.c:641-645 | every chain of jumps that ends at all ends within as many jumps as there are instructions, so cutting the walk there changes nothing |
| LpegVerify.StrictRuleSound | skynet/3rd/lpeg/lptree.c:1002-1042 | for the walk that keeps its flag at sub-grammars: the answer false means not nullable and not flagged |
| LpegVerify.StrictMonotone | skynet/3rd/lpeg/lptree.c:1002-1042 | that walk accepts no less at greater depths or with the flag cleared, and whatever it accepts the code's walk accepts too |
| LpegVerify.VerifyRuleSound | skynet/3rd/lpeg/lptree.c:1002-1042 | where no sub-grammar is met while the flag is set, the answer of the code's walk means the same |
| LpegLeft.StrictIsExact | skynet/3rd/lpeg/lptree.c:1002-1063 | a grammar of at most MAXRULES rules passes the walk that keeps its flag if and only if no rule reaches itself by calls made before input is consumed |
| LpegLeft.LetThrough | skynet/3rd/lpeg/lptree.c:1002-1063 | the code accepts every grammar without left recursion; one it accepts is left recursive if and only if the two walks differ on a rule in use, where the code's walk has met a sub-grammar with its flag set |
| LpegLeft.VoidIsNullable | skynet/3rd/lpeg/lptree.c:1002-1042 | which calls come before input is consumed is decided as the program's `nullable` decides it |
| LpegLeft.SneakyIsLetThrough | skynet/3rd/lpeg/lptree.c:1038-1039 | a rule that looks ahead on a sub-grammar and then calls itself is left recursive, and let through if and only if the sub-grammar is not nullable |
| LpegLeft.FlaggedIsAccepted | skynet/3rd/lpeg/lptree.c:1038-1039 | a loop over a sub-grammar that is not nullable meets it with the flag set and is rightly accepted |
| LpegVerify.LeftRecursionAccepted | skynet/3rd/lpeg/lptree.c:1038-1039 | the walk forgets the flag at a sub-grammar: a left-recursive rule behind a look-ahead on a grammar is rejected exactly when that grammar is nullable, and otherwise accepted although it has no answer |
| LpegVerify.AcceptedTerminates | skynet/3rd/lpeg/lptree.c:952-1063 | a pattern that passes the loop check and the left-recursion check and is not left recursive has an answer on every subject from every position |
| LpegMatch.CompiledAnswers | skynet/3rd/lpeg/lpcode.c:919-945 | before the jumps are optimised, the machine stops with the answer of the pattern |
| LpegMatch.CompilerCorrect | skynet/3rd/lpeg/lpcode.c:1001-1012 | for every well-formed pattern, subject and position, if the pattern has an answer the machine stops with exactly that end position and those captures, or fails exactly then |
| LpegMatch.MatchTotal | skynet/3rd/lpeg/lpvm.c:149-293 | for every accepted pattern the machine, given stack enough, always stops, with the pattern's answer and never in a state that breaks one of its assertions |
| LpegMatch.MatchLimited | skynet/3rd/lpeg/lpvm.c:66-90 | for every limit set by `setmaxstack`: the machine with that limit stops with the pattern's answer, or with an overflow exactly when the stack of the unlimited machine passes the limit (the larger of the limit and INITBACK) |
| LpegVm.LimitedSame | skynet/3rd/lpeg/lpvm.c:237-255 | step for step, a machine with a limited stack does what the unlimited one does until the limit would be passed, and overflows exactly then |
| LpegSettle.CheckSettles | skynet/3rd/lpeg/lpcode.c:196-230 | for accepted patterns `nullable` and `nofail` do not depend on how deep calls are followed, from some depth on |
| LpegSettle.FirstSettles | skynet/3rd/lpeg/lpcode.c:294-370 | nor does the first set |
| LpegSettle.HeadfailSettles | skynet/3rd/lpeg/lpcode.c:377-399 | nor does `headfail` |
| LpegSettle.CapturesSettle | skynet/3rd/lpeg/lpcode.c:133-172 | nor does `hascaptures`, which enters no call twice on one path |
| LpegSettle.FindStill | skynet/3rd/lpeg/lpcode.c:236-275 | nor does `fixedlen`: a length once found stays, and no new one is found after as many steps as there are rules |
| LpegSettle.CodeSettles | skynet/3rd/lpeg/lpcode.c:919-945 | so the code of an accepted pattern is the same for every depth from some depth on, which is the code of the program that follows calls without a bound |
| LpegSettle.AcceptedDeeper | skynet/3rd/lpeg/lptree.c:952-1063 | a pattern accepted at some depth is accepted at every greater one |
| LpegProgram.TheProgram | skynet/3rd/lpeg/lpcode.c:1001-1012 | for every accepted pattern there is a depth from which on it stays accepted, its code does not change, all chains of jumps in the code end, and the machine, within any stack limit, answers on every subject as the pattern means |
| LpegEnds.CornerOf | skynet/3rd/lpeg/lpcode.c:919-945 | the jumps from the start of a tree's code lead to a call only where the left-recursion walk has followed that call, and leave the code only where the walk says the tree can be passed |
| LpegEnds.JumpsEnd | skynet/3rd/lpeg/lpcode.c:641-645 | in the code of an accepted pattern every chain of jumps ends, wherever it starts |
| LpegEnds.ResolvingEnds | skynet/3rd/lpeg/lpcode.c:844-862 | so do the chains followed while calls are still being resolved |
| LpegEnds.PeepholeEnds | skynet/3rd/lpeg/lpcode.c:956-995 | and those in the code that the peephole pass has changed so far |
| LpegCompiler.CompileState.AddCharset | skynet/3rd/lpeg/lpcode.c:573-581 | the cells of a charset are appended and nothing else changes |
| LpegCompiler.CompileState.JumpToThere | skynet/3rd/lpeg/lpcode.c:543-556 | an offset is set so that the instruction leads to the target; all other cells stay |
| LpegCompiler.CompileState.EmitCharset | skynet/3rd/lpeg/lpcode.c:588-609 | an empty, singleton, full or general charset becomes fail, char, any or set, and nothing at all after a test for the same charset |
| LpegCompiler.CompileState.EmitTestset | skynet/3rd/lpeg/lpcode.c:614-634 | appends the test that passes over what follows when the next byte is outside the set, or nothing |
| LpegCompiler.CompileState.Codegen | skynet/3rd/lpeg/lpcode.c:919-945 | appending and patching in place yields exactly the code that is proved correct |
| LpegCompiler.CompileState.EmitChoice | skynet/3rd/lpeg/lpcode.c:677-711 | the same for a choice, with its three patched offsets |
| LpegCompiler.CompileState.EmitRep | skynet/3rd/lpeg/lpcode.c:777-813 | the same for a repetition |
| LpegCompiler.CompileState.EmitNot | skynet/3rd/lpeg/lpcode.c:823-836 | the same for a negative look-ahead |
| LpegCompiler.CompileState.EmitAnd | skynet/3rd/lpeg/lpcode.c:720-737 | the same for a look-ahead |
| LpegCompiler.CompileState.EmitGrammar | skynet/3rd/lpeg/lpcode.c:868-885 | the same for a grammar, with all its calls resolved |
| LpegCompiler.CompileState.FindFinalTarget | skynet/3rd/lpeg/lpcode.c:641-645 | the walk over a chain of jumps finds its end |
| LpegCompiler.CompileState.CorrectCallsInPlace | skynet/3rd/lpeg/lpcode.c:844-862 | resolving the calls of the last part of the code in place changes that part as specified and leaves the code before it |
| LpegCompiler.CompileState.Peephole | skynet/3rd/lpeg/lpcode.c:956-995 | the in-place pass over the code computes the rewriting that keeps all answers |
| LpegCompiler.CompileState.Compile | skynet/3rd/lpeg/lpcode.c:1001-1012 | the buffer ends up with the optimised code of the pattern |
| LpegCompiler.Execute | skynet/3rd/lpeg/lpvm.c:149-293 | executing one instruction on position, stack and captures is one step of the machine or a failure there |
| LpegCompiler.Match | skynet/3rd/lpeg/lpvm.c:149-293 | the interpreter loop, with a stack that doubles up to its maximum, stops with the outcome of the machine or with the overflow error exactly when the machine needs a deeper stack |
| LpegCompiler.CompileAndMatch | skynet/3rd/lpeg/lpvm.c:149-293 | compiling an accepted pattern and interpreting the code returns the end position and captures the pattern means, nothing exactly when it fails, or the overflow error exactly when the code needs more stack than allowed |
| LpegAssoc.CorrectAssociativity | skynet/3rd/lpeg/lptree.c:78-90 | moving cells of the flat tree down in place yields the cells of the rotated tree and touches nothing outside |
| LpegAssoc.RotatedMeans | skynet/3rd/lpeg/lptree.c:71-90 | rotating left-associated sequences and choices keeps their meaning, captures included, and ends with a first child of another kind |
| LpegAssoc.FinalFix | skynet/3rd/lpeg/lptree.c:54-126 | the recursion over the flat array leaves the cells of the tree with every sequence and choice rotated and every call by name turned into the distance to its rule, and the called rules marked; or it stops at the first name, from left to right, that the grammar does not define |
| LpegAssoc.RotatedNames | skynet/3rd/lpeg/lptree.c:71-126 | rotating changes neither the order of the names called nor what they are resolved to |
| LpegAssoc.FixedLead | skynet/3rd/lpeg/lptree.c:54-126 | a node is rotated before the calls below it are resolved, so that in the finished cells every distance leads to the rule of the call's own name |
| LpegAssoc.MarkedIs | skynet/3rd/lpeg/lptree.c:54-69 | a rule's key is set exactly when it is called, to a name it is called by |
| LpegRules.FixRules | skynet/3rd/lpeg/lptree.c:930-946 | the same for all rules of a grammar one after the other |
| LpegRules.RuleStands | skynet/3rd/lpeg/lptree.c:930-946 | finishing the bodies moves no rule |
| LpegRules.CallsReachRules | skynet/3rd/lpeg/lptree.c:54-126 | in the finished array of a grammar every call leads to the cell of a rule that is called by a name of it |
| LpegRules.BodiesReadBack | skynet/3rd/lpeg/lptree.c:54-126 | and to the rule of its own name: read back, each body is the rotated body with its names resolved |
| LpegAssoc.FixedIsRightAssociated | skynet/3rd/lpeg/lptree.c:100-126 | in the result no sequence starts with a sequence and no choice with a choice |
| LpegAssoc.FixedMeans | skynet/3rd/lpeg/lptree.c:93-126 | the result, in the grammar whose rules are treated alike, means the same on every subject |
| TcpProof.StepKeeps | skynet/skynet-src/socket_server.c:806-865 | every step of a sending worker and of the socket thread keeps the invariant of the write path |
| TcpProof.DirectWriteKeeps | skynet/skynet-src/socket_server.c:1509-1567 | a worker that writes to the socket itself, and leaves the rest of its packet to the socket thread, keeps it |
| TcpProof.TakeRequestKeeps | skynet/skynet-src/socket_server.c:786-865 | queueing a request, on the high list whenever nothing is queued, keeps it |
| TcpProof.ServerWriteHighKeeps | skynet/skynet-src/socket_server.c:549-579 | one write from the high list, of any accepted prefix, keeps it |
| TcpProof.ServerWriteLowKeeps | skynet/skynet-src/socket_server.c:688-728 | one write from the low list, with a partly sent head raised to the high list, keeps it |
| TcpProof.DirectWriteOrder | skynet/skynet-src/socket_server.c:1503-1567 | a direct write never overtakes an earlier packet of the same sender |
| TcpProof.EveryRun | skynet/skynet-src/socket_server.c:1503-1586 | in every interleaving of any number of workers and however `write` splits the data: the wire holds whole packets and part of at most one more; each sender's packets of one priority are written in order and exactly once; wb_size is the number of unsent bytes; a low head is never partly sent and the step-4 assertion holds; only the lock holder writes; waiting data keeps the write event on; when nothing waits everything sent is on the wire |
| SchedulerProof.StepKeeps | skynet/skynet-src/skynet_server.c:297-352 | every atomic step of every thread keeps the exact counts: references to a context are the table's and its holders', a queue has one owner while scheduled or released |
| SchedulerProof.NewKeeps | skynet/skynet-src/skynet_server.c:125-157 | a new service starts registered, owned by its creator with two references, and without a queue until the creator's next step |
| SchedulerProof.EveryReachableState | skynet/skynet-src/skynet_server.c:125-352 | the counts hold in every state of every run |
| SchedulerTheorems.Ownership | skynet/skynet-src/skynet_mq.c:43-75 | a queue that is scheduled or released and not freed is on the global list once or in one thread's hands, never both; any other queue has no owner |
| SchedulerTheorems.OneDispatcher | skynet/skynet-src/skynet_server.c:297-352 | no two threads dispatch one service at once, and its context and queue outlive the dispatch |
| SchedulerTheorems.NotStranded | skynet/skynet-src/skynet_mq.c:137-210 | a queue with a message in it always has an owner |
| SchedulerTheorems.Fifo | skynet/skynet-src/skynet_mq.c:137-250 | what was pushed is what was dispatched, then dropped, then still queued, in that order; messages are dropped only after the service is gone |
| SchedulerTheorems.HistoryGrows | skynet/skynet-src/skynet_mq.c:137-250 | no step takes a message out of the history, revives a service, or touches a freed queue |
| SchedulerTheorems.StepsAreSafe | skynet/skynet-src/skynet_mq.c:97-104 | no step uses a freed queue (so none is freed twice); none but the creator's three late ones uses a freed context, none but a push a queue that is not made yet; a queue is put on the list only when it is not there, marked for release once, freed empty and off the list; a dispatched service has been initialised |
| SchedulerTheorems.ContextLife | skynet/skynet-src/skynet_server.c:196-228 | a context is allocated exactly while it is registered or some thread holds or deletes it, and its count is the number of these holders |
| SchedulerTheorems.CreatorMayWriteLate | skynet/skynet-src/skynet_server.c:163-168 | the creator marks the service ready after giving up its reference, and a concrete run lets that write hit a freed context |
| SchedulerTheorems.CreatorMayReadLate | skynet/skynet-src/skynet_server.c:168-172 | concrete runs let the two log lines read a freed context too |
| SchedulerTheorems.CreatorReadsFreed | skynet/skynet-src/skynet_server.c:163-172 | a service retired during its own initialisation is deleted by its creator, which then reads its handle: a concrete run |
| SchedulerTheorems.LateUses | skynet/skynet-src/skynet_server.c:163-172 | in every state of every run, a late write or read hits a live context exactly when the service is still registered or another thread holds it; after `skynet_context_release` returned NULL it never does |
| SchedulerTheorems.GrabbedWithoutQueue | skynet/skynet-src/skynet_server.c:155-156 | a concrete run grabs a context between its registration and the making of its queue, and pushes to a queue that is not there |
| SchedulerTheorems.QueueWindow | skynet/skynet-src/skynet_server.c:155-156 | a queue about to be used is missing exactly when the use is a push and the creator is still about to make it |
| SchedulerTheorems.QueuesAreSafe | skynet/skynet-src/skynet_server.c:155-156 | in no state of a run is a thread about to use a missing queue if and only if no step of the run grabs a context before its queue is made |
| SchedulerTheorems.Rest | skynet/skynet-src/skynet_server.c:297-352 | when no thread is busy and the list is empty, every service is either ready with all messages dispatched, or gone with context and queue freed and every message dispatched or dropped |
| MessageQueue.Ring.ExpandQueue | skynet/skynet-src/skynet_mq.c:174-187 | doubling the ring keeps the messages and their order |
| MessageQueue.Ring.Push | skynet/skynet-src/skynet_mq.c:189-209 | a message goes to the end, whatever the wrap-around and growth |
| MessageQueue.Ring.Pop | skynet/skynet-src/skynet_mq.c:137-171 | the oldest message leaves; the overload mark is raised exactly when the length exceeds the threshold, which doubles past it, and is reset on empty |
| MessageQueue.Ring.Length | skynet/skynet-src/skynet_mq.c:111-125 | the number of messages, below the capacity |
| MessageQueue.Ring.Overload | skynet/skynet-src/skynet_mq.c:127-135 | the overload mark is reported once and reset |
| TimerWheel.PlacesAfterEntering | skynet/skynet-src/skynet_timer.c:118-139 | when the clock enters a slot, exactly the deadlines in that slot change place, and they move to lower levels; all others stay where `add_node` would put them now |
| TimerWheel.PlacesWithinBlock | skynet/skynet-src/skynet_timer.c:118-139 | otherwise a tick changes no place |
| TimerWheel.DueSlot | skynet/skynet-src/skynet_timer.c:159-170 | the slot of the present tick is exactly what is due, in insertion order |
| TimerWheel.SlotsAfterEntering | skynet/skynet-src/skynet_timer.c:108-139 | putting the entered slot's list again gives every slot its part of the list of deadlines in insertion order |
| SkynetTimer.Timer.AddNode | skynet/skynet-src/skynet_timer.c:74-92 | the node goes to the end of the slot for its deadline and the present time |
| SkynetTimer.Timer.MoveList | skynet/skynet-src/skynet_timer.c:108-116 | the detached nodes are put again one by one, in order |
| SkynetTimer.Timer.TimerShift | skynet/skynet-src/skynet_timer.c:118-139 | one tick, wrap-around included, after which every slot again holds what `add_node` would put there |
| SkynetTimer.Timer.Timeout | skynet/skynet-src/skynet_timer.c:211-231 | a positive delay adds a deadline to the list, any other is answered at once |
| SkynetTimer.Timer.TimerExecute | skynet/skynet-src/skynet_timer.c:159-170 | exactly what is due is delivered; calls made meanwhile add nothing to the present slot, so the loop runs at most once |
| SkynetTimer.Timer.TimerUpdate | skynet/skynet-src/skynet_timer.c:172-185 | the first delivery finds nothing, the clock ticks, and exactly the timers of the new tick are delivered in order |
| SkynetTimer.Run | skynet/skynet-src/skynet_timer.c:58-185 | over any run and any number of turns of the 32-bit clock, update n delivers exactly the timers set at tick s with delay d where s + d = n, in the order they were set; the wheel keeps exactly the later ones |
| SkynetTimer.DeliveredInOrder | skynet/skynet-src/skynet_timer.c:58-185 | a timer is delivered at its own tick after exactly the earlier-set timers of that tick |
| SkynetTimer.NothingLostOrRepeated | skynet/skynet-src/skynet_timer.c:58-185 | at every moment each timer has been delivered or is still to come, and not both |
| BignumOps.MultAdd | skynet/3rd/lua-cjson/dtoa.c:612-667 | b*m+a, for any factor and addend below 2^31, in place whenever the result fits, in a larger number otherwise |
| BignumDigits.S2b | skynet/3rd/lua-cjson/dtoa.c:669-703 | the number all the digits write, with the decimal point anywhere, in the least power of two of words that holds that many digits; it is never reallocated |
| BignumMult.Mult | skynet/3rd/lua-cjson/dtoa.c:805-913 | the product, without leading zero words |
| BignumMult.MulRow | skynet/3rd/lua-cjson/dtoa.c:805-913 | one row adds y*a at its place and its carry lands in a word that was zero |
| BignumDecimal.PowersOfFive.Get | skynet/3rd/lua-cjson/dtoa.c:915-971 | node i of the cache holds 5^(4*2^i), made once and kept |
| BignumDecimal.Pow5Mult | skynet/3rd/lua-cjson/dtoa.c:917-971 | b*5^k for every k, leaving the cache valid |
| BignumShift.LShift | skynet/3rd/lua-cjson/dtoa.c:974-1031 | b*2^k for every k, across words |
| BignumOps.Cmp | skynet/3rd/lua-cjson/dtoa.c:1034-1065 | the sign of the difference, for numbers of equal length or whose longer one has no leading zero word |
| BignumOps.Diff | skynet/3rd/lua-cjson/dtoa.c:1068-1156 | the distance of two numbers without leading zero words, and which one is greater |
| BignumShift.Hi0Bits | skynet/3rd/lua-cjson/dtoa.c:707-737 | the number of leading zero bits of a word |
| BignumShift.DShift | skynet/3rd/lua-cjson/dtoa.c:2105-2117 | the shift that brings the top word to four leading zero bits, counted modulo 32 |
| BignumShift.FourLeadingZeros | skynet/3rd/lua-cjson/dtoa.c:2105-2117 | a divisor shifted by the given bits and that shift has exactly four leading zero bits in its top word |
| BignumQuorem.EstimateNotTooLarge | skynet/3rd/lua-cjson/dtoa.c:2149 | the quotient of the top word by the divisor's top word plus one never exceeds the true quotient |
| BignumQuorem.EstimateNearlyEnough | skynet/3rd/lua-cjson/dtoa.c:2149 | and is at most one too small while it is less than the divisor's top word |
| BignumQuorem.Quorem | skynet/3rd/lua-cjson/dtoa.c:2119-2241 | the quotient and, in place, the remainder, with a single correction |
| BignumDigits.ReadyToDivide | skynet/3rd/lua-cjson/dtoa.c:4145-4159 | with four leading zero bits in the divisor, every dividend below ten times it has no more words and needs at most one correction |
| BignumDigits.TakeDigits | skynet/3rd/lua-cjson/dtoa.c:4283-4298 | the digits taken so far and the remainder always make up the dividend; taking stops at remainder zero or at the limit |
| BignumDigits.RoundedDigits | skynet/3rd/lua-cjson/dtoa.c:4283-4330 | the digits are the quotient correctly rounded, ties to even, with no zero at either end, also when nines carry into a new place |
| BignumDigits.QuotientDigits | skynet/3rd/lua-cjson/dtoa.c:4145-4330 | the same from an unscaled dividend and divisor, whose common shift does not matter |
| StmProof.StepKeeps | skynet/lualib-src/lua-stm.c:93-115 | every atomic step of readers, writers and releasers keeps the counts |
| StmProof.Exclusion | skynet/skynet-src/rwlock.h:17-48 | a thread inside the write lock is alone: no second writer and no reader inside |
| StmProof.CountsAreExact | skynet/lualib-src/lua-stm.c:47-55 | a copy's reference count is the current slot plus everything that holds it, and the lock's counters count their holders |
| StmProof.NeverFreedInUse | skynet/lualib-src/lua-stm.c:205-235 | a message is freed at most once, and never while current, in a reader's box, held, or about to be taken |
| StmProof.NoLeak | skynet/lualib-src/lua-stm.c:205-235 | when no thread is under way exactly the copies that are neither current nor in a box have been freed |
| ShareData.FreeSlot | skynet/lualib-src/lua-sharedata.c:237-272 | while a key is missing there is a free slot, so the assertion of the second pass holds |
| ShareData.FirstPassInsert | skynet/lualib-src/lua-sharedata.c:212-235 | filling a free main position keeps all chains |
| ShareData.SecondPassInsert | skynet/lualib-src/lua-sharedata.c:237-272 | linking a slot right behind the main position keeps all chains complete and acyclic |
| ShareData.CountSize | skynet/lualib-src/lua-sharedata.c:67-89 | the number of keys outside the array part |
| ShareData.Table.FillNoColliding | skynet/lualib-src/lua-sharedata.c:212-235 | the array part is filled and every key's main position is taken by a key of the same position |
| ShareData.Table.FillColliding | skynet/lualib-src/lua-sharedata.c:237-272 | every remaining key finds a slot |
| ShareData.ConvTable | skynet/lualib-src/lua-sharedata.c:276-325 | the frozen table stands for the source table, with no slot to spare |
| ShareData.Table.LookupKey | skynet/lualib-src/lua-sharedata.c:501-530 | the walk ends and finds a key exactly when it is stored |
| ShareData.NarrowIsExact | skynet/lualib-src/lua-sharedata.c:196 | a script key survives the cut to 32 bits exactly when it is a string or within 32 bits |
| ShareData.CutLoses | skynet/lualib-src/lua-sharedata.c:191-210 | a table of cut keys can hold all values of a script table under their keys if and only if keys that are cut to the same one have the same value |
| ShareData.Table.Index | skynet/lualib-src/lua-sharedata.c:532-566 | agrees with the source table on present and on absent keys, for any string hash |
| ShareData.Table.IndexConf | skynet/lualib-src/lua-sharedata.c:532-566 | looking up a script key finds what its 32-bit form stands for, which is the script's own answer exactly when the key is in range or its 32-bit form is absent |
| ShareData.Table.NextKey | skynet/lualib-src/lua-sharedata.c:589-646 | the key after a present key, or the first one, in one fixed order; nothing after a key that is not there |
| ShareData.Table.NextConf | skynet/lualib-src/lua-sharedata.c:589-646 | the same for script keys, cut to 32 bits first: the first key, the one after an array item or after a key of the hash part, or none |
| ShareData.Table.Visit | skynet/lualib-src/lua-sharedata.c:589-646 | iterating from nil follows that order to its end |
| ShareData.Table.VisitsAll | skynet/lualib-src/lua-sharedata.c:589-646 | the order holds exactly the keys of the source table |
| ShareData.Table.VisitsOnce | skynet/lualib-src/lua-sharedata.c:589-646 | and none twice |
| NetPack.FramesConcat | skynet/lualib-src/lua-netpack.c:188-215 | only the incomplete rest of a stream matters for what later bytes mean |
| NetPack.PackThenFrame | skynet/lualib-src/lua-netpack.c:436-452 | packed messages, one after the other, parse into themselves with nothing left |
| NetPack.LPack | skynet/lualib-src/lua-netpack.c:436-452 | refuses exactly messages of 64 K or more |
| NetPack.Filter.Find | skynet/lualib-src/lua-netpack.c:92-114 | a connection's record leaves its bucket and all others stay |
| NetPack.Filter.Save | skynet/lualib-src/lua-netpack.c:169-180 | a connection gets a record and all others stay |
| NetPack.Filter.ExpandQueue | skynet/lualib-src/lua-netpack.c:133-148 | a full ring moves, in order, to one with QUEUESIZE more cells |
| NetPack.Filter.PushData | skynet/lualib-src/lua-netpack.c:150-167 | a packet goes to the end of the queue, whatever the wrap-around and growth |
| NetPack.Filter.Pop | skynet/lualib-src/lua-netpack.c:396-410 | the oldest packet leaves, or there is none |
| NetPack.Filter.PushMore | skynet/lualib-src/lua-netpack.c:188-215 | the buffer's packets are queued and its rest is kept |
| NetPack.Filter.FilterData | skynet/lualib-src/lua-netpack.c:227-307 | what was kept and the new chunk together are parsed: delivered at once when they are exactly one packet, queued in order otherwise, and the rest is kept, for this connection alone |
| NetPack.Filter.Close | skynet/lualib-src/lua-netpack.c:217-225 | closing forgets the connection's rest and no other's |
| NetPack.Run | skynet/lualib-src/lua-netpack.c:84-410 | for every cut of the streams into chunks, every mixture of connections and every connection closed or failed at any time, each connection gets exactly the packets of its own streams in order, and the filter keeps exactly the rest of those still open |
| NetPack.PackThenFilter | skynet/lualib-src/lua-netpack.c:396-452 | packing, cutting anywhere and filtering is the identity on the stream since the last closing |
| Seri.IntegerBack | skynet/lualib-src/lua-seri.c:142-174 | an integer of any of the six widths reads back, negative ones too |
| Seri.StringBack | skynet/lualib-src/lua-seri.c:190-213 | short and long strings read back |
| Seri.CountBack | skynet/lualib-src/lua-seri.c:217-236 | array sizes read back, around the escape at 31 too |
| Seri.ValueBack | skynet/lualib-src/lua-seri.c:296-340 | every value, nested to any depth, reads back from its bytes, leaving what follows |
| SeriCode.WriteBlock.Push | skynet/lualib-src/lua-seri.c:65-85 | bytes are appended, wherever they fall across blocks |
| SeriCode.WriteBlock.Serialise | skynet/lualib-src/lua-seri.c:534-565 | the blocks are joined behind the id header, as far as the `int` length says; from 2^31 bytes in all there is no buffer, or the header is written past its end |
| SeriCode.PackOne | skynet/lualib-src/lua-seri.c:296-340 | appends the bytes of a value, and fails exactly for one nested more than 32 deep; lengths of strings and arrays are cut to an `int` |
| SeriRead.UnpackOne | skynet/lualib-src/lua-seri.c:523-531 | reads what the remaining bytes mean, or rejects them exactly when they mean nothing |
| SeriRead.UnpackTable | skynet/lualib-src/lua-seri.c:434-465 | the same for tables, with the loop over items and the loop over pairs |
| SeriRead.Pack | skynet/lualib-src/lua-seri.c:617-645 | the header and the bytes of all values as the length makes them, or nothing exactly when one is nested too deep |
| SeriRead.Unpack | skynet/lualib-src/lua-seri.c:568-615 | all values behind the header, for buffers of every length |
| SeriBack.PackUnpack | skynet/lualib-src/lua-seri.c:359-615 | values come back, whatever the id, if and only if all strings and arrays in them have fewer than 2^31 items and header and values fewer than 2^31 bytes |
| SeriBack.DecodeMore | skynet/lualib-src/lua-seri.c:434-531 | what is read does not depend on the bytes behind it |
| SeriBack.CutShort | skynet/lualib-src/lua-seri.c:434-531 | a proper part of the bytes of some values never reads as those values |
| SeriBack.StringLost | skynet/lualib-src/lua-seri.c:320-324 | a string of 2^31 bytes comes back empty |
| SeriBack.TwoGAreLost | skynet/lualib-src/lua-seri.c:534-551 | for two strings of 2^30 bytes there is no buffer |
| Des.PermutationsUndo | skynet/lualib-src/lua-crypt.c:203-226 | the final permutation undoes the initial one and the other way round |
| Des.RoundsUndo | skynet/lualib-src/lua-crypt.c:228-242 | rounds with pairwise reversed subkeys on exchanged halves run backwards, for any S-boxes |
| Des.CryptUndo | skynet/lualib-src/lua-crypt.c:315-337 | the block transformation with reversed subkeys undoes itself |
| Des.DesEncode | skynet/lualib-src/lua-crypt.c:365-398 | whole blocks and a padded tail, for every length, with the index and the number of bytes left as `int`s |
| Des.DesDecode | skynet/lualib-src/lua-crypt.c:400-438 | decrypts and strips; refuses a bad length or bad padding; reads outside the buffer exactly for a single block of eight zero bytes or a last index that is negative as an `int` |
| Des.Strip | skynet/lualib-src/lua-crypt.c:424-434 | takes off at most seven zeros and one byte 0x80, and nothing else; with the guard as it is, modulo 2^64 |
| Des.StaysInsideUnless | skynet/lualib-src/lua-crypt.c:424-434 | every byte the loop looks at is inside the buffer if and only if the text is not a single block of eight zeros and its last index is not negative as an `int` |
| Des.ZeroBlockReadsBelow | skynet/lualib-src/lua-crypt.c:424-434 | before a block of eight zeros the loop looks at every byte down to the first one that is not zero |
| Des.DecodeEncode | skynet/lualib-src/lua-crypt.c:365-438 | for every schedule and text, decoding undoes encoding, whatever the new buffers held, if and only if the text has fewer than 2^31 bytes (FIPS 46-3, the enciphering and deciphering computations) |
| Des.LongTextFails | skynet/lualib-src/lua-crypt.c:378-394 | of a text of 2^31 + 7 bytes no block is encrypted, and decoding reads outside its buffer |
| DhExchange.MulModP | skynet/lualib-src/lua-crypt.c:716-736 | a*b modulo P for every a up to P and every 64-bit b, without leaving 64 bits |
| DhExchange.PowModP | skynet/lualib-src/lua-crypt.c:738-749 | congruent to a^b modulo P for every exponent from one |
| DhExchange.PowModPReduced | skynet/lualib-src/lua-crypt.c:752-757 | equal to a^b mod P exactly unless a is P and b is one, where it returns P |
| DhExchange.PublicValueNotZero | skynet/lualib-src/lua-crypt.c:791-809 | no power of the generator is zero modulo P, so a public value is never refused |
| DhExchange.Agree | skynet/lualib-src/lua-crypt.c:774-809 | both sides compute the same secret for all non-zero exponents |
| Sha1.CountsRight | skynet/lualib-src/lsha1.c:199-201 | the two counter words hold the bit count exactly when an update is below 2^29 bytes (modulo 2^61) or the low word overflows |
| Sha1.Context.Update | skynet/lualib-src/lsha1.c:190-216 | for data of any length, state, low word and buffer stand for the whole message so far |
| Sha1.Context.Final | skynet/lualib-src/lsha1.c:219-244 | the padding loop ends and the digest is that of the message with the counter words as its length |
| Sha1.HashesStandard | skynet/lualib-src/lsha1.c:219-244 | what is hashed is the message padded as in section 4 of RFC 3174 if and only if all updates were counted right |
| Sha1.OneUpdate | skynet/lualib-src/lsha1.c:249-261 | a text hashed at once is counted right if and only if it has fewer than 2^29 bytes (modulo 2^61) |
| Sha1.HashParts | skynet/lualib-src/lsha1.c:190-244 | for parts of any length the digest with the counter as it is; that of the whole message, however it is cut, when the parts are counted right, as all are below 2^29 bytes |
| Sha1.XorKey | skynet/lualib-src/lsha1.c:265-272 | the key is changed byte by byte in place |
| Sha1.TextCounted | skynet/lualib-src/lsha1.c:300-304 | behind the key's block a text is counted right if and only if it has fewer than 2^29 bytes (modulo 2^61) or fewer than 64 bytes are missing to a multiple of 2^29 |
| Sha1.HmacRight | skynet/lualib-src/lsha1.c:274-312 | the code is that of section 2 of RFC 2104 whenever key and text are counted right |
| Sha1.HmacSha1 | skynet/lualib-src/lsha1.c:274-312 | for keys and texts of every length what the counter makes of them, which below 2^29 bytes is the keyed digest of section 2 of RFC 2104 |
| Cluster.PartsJoin | skynet/lualib-src/lua-cluster.c:140-163 | the parts join to the message and are as many as announced, at every multiple of 32 K |
| Cluster.RequestBack | skynet/lualib-src/lua-cluster.c:224-355 | a request comes back with address, session, push flag and payload; a long one as an announcement and parts of which exactly the last is marked, which are joined again if and only if the message has fewer than 2^31 bytes |
| Cluster.JoinsBelow2G | skynet/lualib-src/lua-cluster.c:525-556 | the size is read into a signed 32-bit word: from 2^31 bytes on the buffer asked for is nearly 2^64 bytes |
| Cluster.TwoGDoNotComeBack | skynet/lualib-src/lua-cluster.c:525-556 | a message of 2^31 bytes is packed, announced rightly, and not joined |
| Cluster.ResponseBack | skynet/lualib-src/lua-cluster.c:467-522 | a successful response comes back, a long one if and only if it has fewer than 2^31 bytes; an error comes back up to its first 32 K |
| Cluster.PackRequest | skynet/lualib-src/lua-cluster.c:165-203 | packages whose 16-bit sizes are right, refused exactly for a session that is not positive or a bad name, and a next session in range |
| Cluster.PackMulti | skynet/lualib-src/lua-cluster.c:140-163 | the loop over the parts writes them in order with the right markers |
| Cluster.PackResponse | skynet/lualib-src/lua-cluster.c:380-461 | packages whose 16-bit sizes are right |
| Cluster.ConcatParts | skynet/lualib-src/lua-cluster.c:525-556 | the joined parts exactly when they have the announced size; size and offset are signed 32-bit words |
| Land.SortCardList | skynet/3rd/land/GameLogic.cpp:423-469 | a descending permutation of the cards, in place; more than 54 cards are refused |
| Land.DescendingUnique | skynet/3rd/land/GameLogic.cpp:423-469 | there is only one such arrangement |
| Land.AnalyseCards | skynet/3rd/land/GameLogic.cpp:848-886 | groups cards as the reference grouping does |
| Land.GroupsPartition | skynet/3rd/land/GameLogic.cpp:848-886 | the groups partition the cards |
| Land.GroupsByCount | skynet/3rd/land/GameLogic.cpp:848-886 | in a sorted hand the ranks among groups of one to three are those with that many cards beyond whole fours, and among groups of four those with four cards or more |
| Land.OrderDoesNotMatter | skynet/3rd/land/GameLogic.cpp:218-420 | type and rank of a play depend only on which cards it holds |
| LandKinds.AnalyseOutCard | skynet/3rd/land/GameLogic.cpp:218-420 | the kind and rank found are those the cards make by their numbers of each rank, and none is found exactly when they make none |
| LandKinds.KindOfPlay | skynet/3rd/land/GameLogic.cpp:218-420 | for every kind and rank: the program sees it if and only if the cards make it, said by how many cards of each rank there are; single, pair, triple, lines of at least five, three or two consecutive ranks below two, triples with single cards or pairs, four with two or two pairs, bomb, both jokers |
| LandKinds.NoPlay | skynet/3rd/land/GameLogic.cpp:218-420 | no play is seen if and only if the cards make none |
| LandKinds.LineIsFound | skynet/3rd/land/GameLogic.cpp:285-327 | consecutive ranks with the same number of cards each, and nothing else, are found as a line |
| LandKinds.ScanIsTopRun | skynet/3rd/land/GameLogic.cpp:333-359 | the scan over triples ends with the first whole run of at least two from the top, or a single triple, and with nothing else |
| LandKinds.TopRunUnique | skynet/3rd/land/GameLogic.cpp:333-359 | a hand has at most one such run |
| LandKinds.OneTest | skynet/3rd/land/GameLogic.cpp:229-417 | a hand passes at most one of the tests, so the order of trying them does not matter |
| LandKinds.TripleRowPlays | skynet/3rd/land/GameLogic.cpp:333-366 | k triples in a row with k other cards, at most 20 in all, are a play if and only if the row cannot be made longer |
| LandKinds.LongRowFails | skynet/3rd/land/GameLogic.cpp:333-366 | five triples in a row and one card are no play, though four of the triples have four cards beside them |
| LandKinds.TenToSixFails | skynet/3rd/land/GameLogic.cpp:333-366 | such a hand |
| LandKinds.RulesMatterOnce | skynet/3rd/land/GameLogic.cpp:5442-5452 | of the rule flags only the one about triples with pairs ever decides anything |
| LandKinds.BombOfFour | skynet/3rd/land/GameLogic.cpp:396-405 | in hands from one pack of cards a bomb is four cards of its rank, although the rank is computed twice |
| LandKinds.CompareCard | skynet/3rd/land/GameLogic.cpp:738-779 | the second play beats the first by its kind (both jokers, then bombs), or as the same kind with as many cards and a higher rank, and not otherwise |
| LandKinds.NothingBeatsItself | skynet/3rd/land/GameLogic.cpp:738-779 | no arrangement of the same cards beats another |
| LandKinds.BeatingIsTransitive | skynet/3rd/land/GameLogic.cpp:738-779 | beating is transitive, and never mutual, under any rule flags |

## Left out

- LPeg run-time captures, the production of capture values, the table of constants and the printing of patterns.
- LPeg constructors' simplifications (`lp_seq`, `lp_choice`, `lp_sub`): trees are taken as built.
- LPeg: the limit on the number of captures; charsets are sets, so the byte loop that classifies a charset is not modelled.
- LpegAnalysis.FirstSound: like all results about the analyses it holds for every depth `d` to which calls are followed; LpegSettle.CodeSettles shows that the depth does not matter from some depth on.
- LpegVerify.AcceptedTerminates: says nothing about the left-recursive grammars that the check lets through; which those are is LpegLeft.LetThrough.
- LpegMatch.CompilerCorrect: the jumps of the code are followed for as many steps as there are instructions; LpegEnds.JumpsEnd and LpegBound.BoundSuffices show that the program's walks end within them.
- LpegAssoc.FinalFix: an inner grammar is a single cell, because the pass does not enter it; the key fields of the cells are an array of their own.
- TCP: sockets that are not connected yet, closing and half-closing, write errors, UDP, user objects, and the request format in the pipe; `sending` saturates at its 16-bit limit by making the sender wait.
- Scheduler: the handle table is a map from handles to contexts, and a handle is not given to a second service; monitoring, profiling and the count of all contexts are not modelled; what a thread does after it used a queue that was not there, or a context that was freed, is undefined in the program, and in the model it stays where it is, or goes on.
- MessageQueue.Ring.Push: capacities and thresholds are integers, here and in NetPack.Filter.PushData; the program's `int` holds fewer than 2^31 entries.
- Timer: reading the system clock and the number of updates it asks for; the memory of nodes; lists are sequences.
- Number conversion: the free lists of numbers, the floating-point fast paths, the shortest-digits branch, and reading or composing the bits of a double.
- Shared copies: the lifetime of the enclosing object; closing leaves it to its readers.
- ShareData.ConvTable: the integer keys of the source table are within 32 bits, as the node stores them, and its array has fewer than 2^31 items; a script table with other keys is converted with its keys cut, two of which may become one (ShareData.CutLoses says when a value is lost); nested tables and the numbering of strings are abstract values and keys.
- Stream framing: buffers are values, and connection events other than data, closing and errors are not modelled.
- Seri.ValueBack: tables are compared as array part and visited pairs, which is stronger than as maps; a key written as a real number without a fraction, which no table has, would be read as an integer; tables with a `__pairs` hook are not modelled.
- SeriRead.Unpack: a string length of 2^31 and more is refused at once, where the program fails to make a string of that size.
- Des.DesDecode: the key schedule and the S-boxes are parameters.
- Sha1.HmacSha1: the compression function is a parameter.
- Cluster: a message has fewer than 2^32 bytes, the size that is announced; who collects the parts of which session is not modelled.
- Land: the playing strategy, random deals, sorting by count and removing cards.
- Further services and libraries of the repository (gate, harbor, database drivers, debugging, logging, configuration).
