# Verification of the skynet runtime

skynet is an actor runtime: services exchange messages through queues, worker threads run the services, a
timer thread wakes them up and a socket thread writes for them. It carries along LPeg, which matches text, and
wepoll, which waits for sockets on Windows.
This project models the parts of it where being right is hardest, and proves in Dafny that they are.

`dafny verify dfyconfig.toml` checks everything.

## What is modelled

**LPeg, the compiler and its virtual machine.** `LpegTree` gives patterns without captures and their meaning as
parsing expressions; `LpegAnalysis` the analyses that steer the code generator; `LpegGen` the code it emits, as a
function of the pattern, the `opt` flag, the dominating test and the follow set; `LpegVm` the instructions;
`LpegCompile` the emitter itself, which appends to and patches a code array; `LpegMatch` the interpreter, a loop
over an instruction pointer, a subject position and a stack array. `LpegCorrect` proves the emitted code correct;
`LpegTail`, `LpegChains` and `LpegPeephole` do the same for tail calls and jump threading; `LpegLeads` and
`LpegCircles` say exactly when chains of jumps end, and with them the compiler; `LpegBuild` is about the operators
that build patterns. `LpegGrammar` is about the checks on grammars. It shows three rules that pass them and never
end, and states a repaired check: it keeps a flag that the code forgets at sub-grammars, follows a look-behind of
length 0 like a predicate, and lets no other look-behind call a rule. For all patterns that the repaired check
accepts, matching ends; what it accepts, the code accepts too. The compiled program is right without any check on
grammars, whenever the pattern has a result and the compiler ends. The analyses recurse to a bounded call depth
here. `LpegEnds` says when their unbounded recursion in the code ends, and `LpegDepth` shows that the program then
no longer depends on the bound, and that for patterns that the repaired check accepts they all end within a stated
depth; `LpegMarks` shows that the marks with which the code stops the recursion of `fixedlen` give the same
lengths. `LpegExact` and `LpegLanguage` show where the analyses are exact and not only safe, and `LpegRecursion`
what the checks for left recursion reject. `LpegShape` and `LpegCharset` are the ground below.

**The actor scheduler.** `SchedQueue` has the circular message queue and the linked global list, as classes.
`SchedModel` is a transition system with one step per critical section or atomic operation and any number of
threads; a thread is its call stack, so that a callback may send, kill and launch. `SchedInvariant`,
`SchedSteps` and `SchedSafety` prove its invariant, `SchedResults` draws the conclusions, and `SchedDispatch` follows
the messages that a worker takes.

**The timing wheel.** `TimerWheel` says where a timer belongs and how one tick of a wrapping 32-bit clock
changes that; `TimerUpdate` has the operations of the timer, with other threads adding timers in the window
in which an update frees the lock; `TimerRuns` is about whole runs.

**The TCP send path.** `TcpSocket` has the write side of a connected socket, with a kernel that takes any
prefix; `TcpSenders` any number of senders that write directly or through the control pipe, access by access;
`TcpOrder` what holds in every run.

**The registry of services.** `Handles` has the hash table of handles, which doubles, and the sorted array of
names, both changed in place.

**The reader/writer lock and shared memory objects.** `RwLock` has the spinning lock, access by access, for any
number of threads. `Stm` has one shared object on top of it, with a writer and any number of readers that come and
go: reference counts, the exchange of the copy, and who frees what.

**Package reassembly.** `Netpack` cuts the chunks that sockets deliver into packages, with a hash table of
incomplete packages and a circular queue; `NetpackRuns` is about whole runs with any number of sockets.

**Shared configuration data.** `ShareTable` has the frozen hash table: counted, filled in two passes, then read and
iterated.

**The serializer.** `LuaSeri` says which bytes stand for a value and what a stream of bytes means, `LuaFormat`
which streams are read; `SeriBlocks` has the chain of blocks that is written to and the reader.

**Cryptography.** `CryptDh` has the key exchange in wrapping 64-bit arithmetic, `CryptDes` the block cipher with
its padding.

**wepoll, epoll on Windows.** `RbTree` has red-black trees as values and the rebalancing steps at a position;
`RbHeap` the tree itself, nodes with child and parent links that are changed in place; `EpollQueue` the
intrusive queue; `EpollPort` the sockets of a port: what is polled, what is queued, and when a socket may be
freed; `EpollRuns` whole runs of its operations.

`Bytes`, `Circular`, `Sets` and `Wrappers` are shared by several of these.

## Where the code falls short

Each of these is stated by lemmas, with the input or the run and the exact condition where there is one.

- LPeg accepts rules that never end: one that is left recursive behind a sub-grammar (`LostFlagAccepted`,
  `LostFlagDiverges`), and two that call themselves inside a look-behind (`CallBehindAccepted`,
  `CallBehindDiverges`, `CallBackAccepted`, `CallBackDiverges`). For the first and the second of them the code
  generator does not end either (`NeverEnds`). For another rule the closing of calls does not end, because tail calls
  make a circle of jumps (`JumpLoopAccepted`, `JumpLoopHangs`); `CompilesExactly` says when.
- After a launch the creator still uses the context that it no longer has a reference to, in three places; each is
  a use of freed memory exactly when the service is gone by then (`OnlyLateUses`, `LateUsesHappen`).
- When two readers of a shared object close at the same time and they are the last, one of them gives back the lock
  after the other has ended the object (`OnlyLateUnlocks` says that nothing else touches it then, `LateUnlock` is such
  a run).
- The search for a free handle can miss slot 0. Then the table is doubled although a slot is empty, and that slot is
  used as a service (`SearchFailsExactly`, `Register`, and `MissedSlotRun` for a run that gets there).
- An assertion of the send path fails exactly for a user object at the head of the low list (`AbortsExactly`,
  `ObjectAborts`); without user objects of low priority it never does (`PlainNeverAborts`).
- A package can overtake earlier ones of its socket that still wait in the queue (`OrderKept`, `OvertakeExample`);
  not if the queue is emptied before each chunk, as the gate server does unless a handler blocks (`EmptiedInOrder`).
- The frozen table cuts integer keys off at 32 bits, so that other keys answer for them (`IndexExact`,
  `AlwaysRight`), and counts slots before the cut, so that some may never be filled and are read (`SlotsExact`,
  `Index`, `NoGarbage`).
- The modular power is wrong for the modulus itself as base with exponent 1, which the key exchange does not
  use (`PowerExact`).

Functions that only compute are not listed below; they carry the name of the C function they model in a
comment. Assumptions are stated under "Left out".

## Model

| member | source | states |
|---|---|---|
| LpegMatch.OptimizedCorrect | 3rd/lpeg/lpcode.c:1001-1010 | Main result for LPeg: whenever a capture-free pattern has a result and the compiler ends, the compiled program, with test elimination, choice reuse, tail calls and jump threading all on, halts with that result |
| LpegMatch.CompiledCorrect | 3rd/lpeg/lpcode.c:1001-1010 | For every capture-free pattern that the repaired check accepts, every subject and start position: the pattern has exactly one result, and the optimized program halts with it and with no other |
| LpegMatch.PatternMatch | 3rd/lpeg/lpvm.c:148-360 | The two imperative halves together, whatever the checks on grammars say: compile a pattern in place, run the interpreter on the emitted array, and get what the pattern means, whenever it means anything and the compiler ends |
| LpegMatch.AcceptedMatch | 3rd/lpeg/lpvm.c:148-360 | In particular for every pattern that the repaired check accepts |
| LpegMatch.Compile | 3rd/lpeg/lpcode.c:1001-1010 | Whenever the compiler ends, the code array that it leaves is the optimized program |
| LpegMatch.Match | 3rd/lpeg/lpvm.c:148-360 | The interpreter loop with its doubling backtrack stack returns a result of the program, for every program that has one |
| LpegVm.HaltsOnce | 3rd/lpeg/lpvm.c:148-360 | A program has one result only |
| LpegTree.PegDeterministic | 3rd/lpeg/lpvm.c:148-360 | A pattern has one result only, at whatever call depth it is found |
| LpegMatch.Machine.Turn | 3rd/lpeg/lpvm.c:163-294 | One turn of the loop over instruction pointer, subject position and stack array is one step of the abstract machine |
| LpegMatch.Machine.DoubleStack | 3rd/lpeg/lpvm.c:66-84 | Doubling keeps the entries and makes room |
| LpegMatch.PlainProgramCorrect | 3rd/lpeg/lpcode.c:1001-1010 | Before tail calls and jump threading: for every pattern without calls outside a grammar, whatever the checks on its grammars say: whenever the pattern has a result at some call depth, the plain program halts with it |
| LpegCorrect.GenCorrect | 3rd/lpeg/lpcode.c:677-951 | The general statement, by induction on the pattern: for any `opt`, any dominating test `tt` that passed and any follow set `fl`, the emitted code reaches its end with the right position, or gives up exactly where the continuation would fail because the next character is outside `fl`, or, with `opt`, leaves the outer choice entry updated instead of a new one |
| LpegCorrect.SeqCorrect | 3rd/lpeg/lpcode.c:899-912 | Sequence: the test may be passed on only to the first part that consumes, and the follow set of the first part is the first set of the second |
| LpegCorrect.ChoiceCorrect | 3rd/lpeg/lpcode.c:677-713 | Ordered choice in all its three layouts (test alone, test and partial commit, reused or fresh choice entry) |
| LpegCorrect.ThenElseCorrect | 3rd/lpeg/lpcode.c:682-694 | When failure of the first alternative depends on the next character alone, or the first sets are disjoint, no choice entry is needed |
| LpegCorrect.OrElseCorrect | 3rd/lpeg/lpcode.c:703-713 | The general choice, with the entry pushed before the first alternative and committed after it |
| LpegCorrect.TestLoopCorrect | 3rd/lpeg/lpcode.c:784-793 | A repetition guarded by a test only, correct because the body cannot fail after its first character or what follows fails on that character |
| LpegCorrect.ChoiceLoopCorrect | 3rd/lpeg/lpcode.c:794-815 | A repetition with partial commits, with or without reuse of the outer choice entry |
| LpegCorrect.NotCorrect | 3rd/lpeg/lpcode.c:823-836 | Negative look-ahead with fail-twice, or a test alone for a body decided by its first character |
| LpegCorrect.AndCorrect | 3rd/lpeg/lpcode.c:720-740 | Positive look-ahead of a fixed-length body as match and step back, otherwise with back-commit |
| LpegCorrect.BehindCorrect | 3rd/lpeg/lpcode.c:659-664 | Look-behind |
| LpegCorrect.GrammarCorrect | 3rd/lpeg/lpcode.c:868-884 | A grammar: the initial call, the rules one after the other and their returns |
| LpegTail.TailCallsPreserve | 3rd/lpeg/lpcode.c:844-861 | Turning calls that lead to a return into jumps keeps the result of every run, by a simulation in which the return entries of the plain run are thinned out |
| LpegTail.GenTail | 3rd/lpeg/lpcode.c:844-861 | The code with tail calls is, cell by cell, the plain code with such calls turned into jumps |
| LpegPeephole.PeepholePreserves | 3rd/lpeg/lpcode.c:956-995 | The jump-threading pass, including the case that rewrites a jump into a return or a commit, keeps the result of every run of any well-formed code whose jump-only chains end |
| LpegPeephole.PatchPreserves | 3rd/lpeg/lpcode.c:956-995 | One rewritten instruction keeps the result of every run |
| LpegCircles.ProgramEnds | 3rd/lpeg/lpcode.c:641-653 | In the code of a pattern without a circle of tail calls every jump-only chain ends, so that the final target exists and the pass stops |
| LpegCircles.CompilesExactly | 3rd/lpeg/lpcode.c:641-653 | Exactly: all chains of the program end if and only if no sub-grammar for which code is emitted has a circle of rules, each of which reaches a tail call of the next with nothing but jumps before it. The condition is read off the pattern |
| LpegCircles.EndsExactly | 3rd/lpeg/lpcode.c:844-861 | For one rule: the chain from its start ends exactly if the walk from rule to rule gets out within as many steps as there are rules |
| LpegCircles.FineCompiles | 3rd/lpeg/lptree.c:1045-1063 | The grammars that the repaired check accepts have no such circle |
| LpegLeads.GenLead | 3rd/lpeg/lpcode.c:677-951 | Where jumps lead from the start of the code of any pattern, read off the pattern: to an instruction, to the end, or to a call and whether that is a tail call |
| LpegChains.RuleChainEnds | 3rd/lpeg/lpcode.c:844-861 | For what the repaired check accepts by another way: if the chain of a used rule did not end, the machine would never get through the rule, although matching it ends |
| LpegCompile.CompileState.Codegen | 3rd/lpeg/lpcode.c:919-951 | The recursive emitter appends exactly the specified code to the code array and leaves the rest alone |
| LpegCompile.CompileState.CodeChar | 3rd/lpeg/lpcode.c:561-567 | A character that the dominating test has checked is emitted as `any` |
| LpegCompile.CompileState.CodeCharset | 3rd/lpeg/lpcode.c:588-607 | A set by its kind; one that the dominating test has checked is emitted as `any` |
| LpegCompile.CompileState.CodeTestSet | 3rd/lpeg/lpcode.c:614-635 | A test instruction with an open label, or none when the pattern may accept at the end of the subject |
| LpegCompile.CompileState.CodeChoice | 3rd/lpeg/lpcode.c:677-713 | Emission of a choice, with labels patched in place |
| LpegCompile.CompileState.CodeRep | 3rd/lpeg/lpcode.c:777-815 | Emission of a repetition |
| LpegCompile.CompileState.CodeNot | 3rd/lpeg/lpcode.c:823-836 | Emission of a negative look-ahead |
| LpegCompile.CompileState.CodeAnd | 3rd/lpeg/lpcode.c:720-740 | Emission of a positive look-ahead |
| LpegCompile.CompileState.CodeSeq | 3rd/lpeg/lpcode.c:899-944 | Emission of a sequence |
| LpegCompile.CompileState.CodeGrammar | 3rd/lpeg/lpcode.c:868-884 | Emission of a grammar, with the rule positions collected and the open calls closed |
| LpegCompile.CompileState.CloseCalls | 3rd/lpeg/lpcode.c:844-861 | The loop over the emitted instructions that closes calls in place equals the specified rewriting, cell by cell |
| LpegCompile.CompileState.FinalTarget | 3rd/lpeg/lpcode.c:641-645 | The loop follows a chain of jumps to its end |
| LpegCompile.CompileState.PeepholePass | 3rd/lpeg/lpcode.c:956-995 | The in-place pass, with its `redo`, terminates and equals the specified rewriting |
| LpegCharset.CharsetType | 3rd/lpeg/lpcode.c:41-82 | The loop over the 32 bytes classifies a set as empty, single, full or generic exactly by its members, and finds the single one |
| LpegCharset.BitIndex | 3rd/lpeg/lpcode.c:55-64 | The halving tests find the one bit of a byte |
| LpegCharset.Disjoint | 3rd/lpeg/lpcode.c:97-101 | The byte-wise test implies that no character is in both sets |
| LpegAnalysis.NullableSound | 3rd/lpeg/lpcode.c:180-231 | A pattern that is not nullable never matches the empty string |
| LpegAnalysis.NofailSound | 3rd/lpeg/lpcode.c:180-231 | A nofail pattern never fails |
| LpegAnalysis.NofailIsNullable | 3rd/lpeg/lpcode.c:180-231 | A nofail pattern is nullable |
| LpegAnalysis.FixedlenSound | 3rd/lpeg/lpcode.c:236-276 | The fixed length is the length of every match |
| LpegAnalysis.GetfirstSound | 3rd/lpeg/lpcode.c:278-372 | A match starts with a character of the first set, given that what follows an empty match starts in the follow set; and at the end of the subject it needs a non-zero result |
| LpegAnalysis.HeadfailExact | 3rd/lpeg/lpcode.c:374-404 | For a headfail pattern the first set is exact: in front of one of its characters it does not fail, and it does not accept at the end |
| LpegGrammar.GrammarTerminates | 3rd/lpeg/lptree.c:1045-1063 | Matching a grammar that the repaired check accepts ends on every subject from every position |
| LpegGrammar.TerminatesLeft | 3rd/lpeg/lptree.c:1002-1042 | The measure: nesting of grammars, what is left of the subject, what is left of the rules that the check may pass without consuming, and the pattern |
| LpegGrammar.VerifyruleSound | 3rd/lpeg/lptree.c:1002-1042 | A flag that the repaired check leaves cleared means that the pattern cannot match the empty string |
| LpegGrammar.RepairedAccepted | 3rd/lpeg/lptree.c:1045-1063 | What the repaired check accepts, the check of the code accepts |
| LpegGrammar.KeptFollowsMore | 3rd/lpeg/lptree.c:1002-1042 | Rule by rule: the repaired check follows everything that the check of the code follows, and its flag is set whenever the other one is |
| LpegGrammar.RepairedExamples | 3rd/lpeg/lptree.c:1002-1042 | The repaired check rejects the three accepted rules that never end, and accepts a loop over a sub-grammar that does |
| LpegDepth.VerifyruleExact | 3rd/lpeg/lptree.c:1002-1042 | For rules that the repaired check accepts: the flag is set exactly for a nullable pattern or when it was set before, and the recursion of `checkaux` ends within a stated number of calls |
| LpegDepth.FirstDepthEnough | 3rd/lpeg/lpcode.c:294-372 | For the same rules `getfirst`, which also goes into look-behinds and predicates, ends within the same number of calls; without the repair it may not, as NeverEnds shows |
| LpegDepth.HeadfailDepthEnough | 3rd/lpeg/lpcode.c:374-404 | and `headfail` within twice as many |
| LpegDepth.LengthSettled | 3rd/lpeg/lpcode.c:236-276 | Fixed lengths settle too: with each call depth at least one more rule gets its length, until none changes |
| LpegEnds.AuxSettles | 3rd/lpeg/lpcode.c:196-229 | For every pattern: once the recursion of `checkaux` ends within d calls, a greater bound gives the same answer, so that the bounded recursion here agrees with the unbounded one there |
| LpegEnds.FirstSettles | 3rd/lpeg/lpcode.c:294-372 | The same for `getfirst` |
| LpegEnds.HeadSettles | 3rd/lpeg/lpcode.c:377-404 | The same for `headfail` |
| LpegEnds.NeverEnds | 3rd/lpeg/lpcode.c:294-372 | For the rule with the lost flag and the one that calls itself in a look-behind of length 0, both accepted by the code, `getfirst` and so the code generator end within no number of calls |
| LpegDepth.GenSettles | 3rd/lpeg/lpcode.c:677-951 | For every pattern, under any dominating test, follow set and place: the code is the same at all depths from one on at which the analyses that the code generator asks for end |
| LpegDepth.ProgramSettles | 3rd/lpeg/lpcode.c:1001-1010 | So is the whole program, that of the unbounded recursion in the code, whatever check the pattern passes |
| LpegDepth.CodeDepth | 3rd/lpeg/lpcode.c:677-951 | All analyses that the code generator asks for end within a stated number of calls for every pattern that the repaired check accepts |
| LpegDepth.DepthIrrelevant | 3rd/lpeg/lpcode.c:1001-1010 | For all patterns with sub-grammars nested h deep, every depth from a stated one on accepts the same patterns and gives the same program |
| LpegMarks.MarksAgree | 3rd/lpeg/lpcode.c:133-145 | At every node of a pattern the length that is found by marking visited calls equals the one that is found at every call depth from a stated one on |
| LpegGrammar.LostFlagAccepted | 3rd/lpeg/lptree.c:1038-1039 | The code returns the nullability of a sub-grammar and forgets a flag already set: a left-recursive rule is accepted |
| LpegGrammar.LostFlagDiverges | 3rd/lpeg/lptree.c:1038-1039 | and has no result at any call depth |
| LpegGrammar.CallBehindAccepted | 3rd/lpeg/lptree.c:1009-1011 | The comment says that a look-behind cannot have calls, but one can, through a predicate of length 0: a rule that calls itself there is accepted |
| LpegGrammar.CallBehindDiverges | 3rd/lpeg/lptree.c:1009-1011 | and has no result at any call depth |
| LpegGrammar.CallBackAccepted | 3rd/lpeg/lptree.c:1009-1011 | A rule that calls itself in a look-behind of length 1 is accepted as well |
| LpegGrammar.CallBackDiverges | 3rd/lpeg/lptree.c:1009-1011 | and has no result at any call depth |
| LpegCircles.JumpLoopAccepted | 3rd/lpeg/lptree.c:1045-1063 | A rule that the code accepts |
| LpegCircles.JumpLoopHangs | 3rd/lpeg/lpcode.c:844-861 | and in whose code every jump at the start leads to another jump, so that following them to the final target never ends |
| LpegCircles.JumpLoopCircle | 3rd/lpeg/lpcode.c:844-861 | It is a circle of one rule |
| LpegBuild.ChoiceKeeps | 3rd/lpeg/lptree.c:551-567 | The simplifications of a choice keep its meaning |
| LpegBuild.Seq | 3rd/lpeg/lptree.c:532-542 | The simplifications of a sequence keep its meaning |
| LpegBuild.SubKeeps | 3rd/lpeg/lptree.c:627-646 | A difference of sets means what the general difference means |
| LpegBuild.AtLeast | 3rd/lpeg/lptree.c:572-584 | The loop builds n copies before the repetition, or reports a body that may match the empty string; `RefusesExactly` says which those are |
| LpegExact.RefusesExactly | 3rd/lpeg/lptree.c:578-579 | Exactly: a body without calls and predicates is refused if and only if it matches the empty subject |
| LpegExact.StarExactly | 3rd/lpeg/lptree.c:572-585 | A body without calls is refused if and only if it is nullable; if it is not refused, p^n is the greedy repetition |
| LpegExact.OpenNullableIs | 3rd/lpeg/lpcode.c:191-200 | With open calls taken as not nullable: a pattern found nullable is so in every grammar, and one that is not found so is not, provided that the called rules are not nullable |
| LpegExact.EmptyExact | 3rd/lpeg/lpcode.c:180-231 | `nofail`, and without predicates `nullable`, are exact on all patterns without negative predicates and look-behinds, with all their grammars: they hold of those that match the empty subject |
| LpegExact.SameWithoutPredicates | 3rd/lpeg/lpcode.c:184-187 | Without predicates the two are equivalent, as the comment says |
| LpegLanguage.FirstExact | 3rd/lpeg/lpcode.c:278-372 | Read as a regular expression, a pattern without calls and predicates has as its first set exactly the characters with which a word can begin, and those of the follow set if the empty word is one, which the returned value tells |
| LpegLanguage.LengthExact | 3rd/lpeg/lpcode.c:236-276 | Its fixed length is the length of all words, and without one there are words of two lengths |
| LpegLanguage.NullableIsEmptyWord | 3rd/lpeg/lpcode.c:180-231 | It is nullable exactly if the empty word is one |
| LpegLanguage.MatchIsWord | 3rd/lpeg/lpvm.c:148-360 | and whatever it matches is a word |
| LpegRecursion.RejectsExactly | 3rd/lpeg/lptree.c:1002-1063 | The repaired check rejects for left recursion exactly the grammars with a circle of rules, each of which can call the next with nothing consumed before |
| LpegRecursion.RejectsOnlyRecursion | 3rd/lpeg/lptree.c:1002-1063 | and the check of the code rejects no others |
| LpegRecursion.CodeAgrees | 3rd/lpeg/lptree.c:1002-1042 | Without sub-grammars and without calls in look-behinds the check of the code is the repaired one |
| LpegRecursion.CodeExact | 3rd/lpeg/lptree.c:1002-1063 | So there the checks of the code are exact: they accept those with 1 to 250 rules that call no others, repeat no nullable pattern and are not left recursive |
| LpegRecursion.FineNotRecursive | 3rd/lpeg/lptree.c:1002-1063 | A circle is longer than the number of rules that the check passes |
| LpegBuild.AtLeastIsGreedy | 3rd/lpeg/lptree.c:576-585 | p^n for a body that is not nullable matches as often as possible and fails below n |
| LpegBuild.AtMostIsGreedy | 3rd/lpeg/lptree.c:586-601 | p^-n matches as often as possible up to n times and does not fail |
| LpegBuild.CorrectAssociativity | 3rd/lpeg/lptree.c:78-90 | The loop ends with the left operand no longer of the same kind, and keeps the meaning |
| SchedQueue.MessageQueue.constructor | skynet-src/skynet_mq.c:77-96 | A new queue is empty and flagged as scheduled, so that pushes do not list it |
| SchedQueue.MessageQueue.Length | skynet-src/skynet_mq.c:111-125 | The length of the circular buffer |
| SchedQueue.MessageQueue.Overload | skynet-src/skynet_mq.c:127-135 | Reading the overload mark clears it |
| SchedQueue.MessageQueue.Pop | skynet-src/skynet_mq.c:137-172 | Takes the oldest message, or clears the scheduled flag of an empty queue; the overload mark and threshold |
| SchedQueue.MessageQueue.NoteLength | skynet-src/skynet_mq.c:152-159 | The threshold doubles until it is not exceeded |
| SchedQueue.RaisedIs | skynet-src/skynet_mq.c:157-159 | and is the smallest that will do among those that doubling gives |
| SchedQueue.MessageQueue.ExpandQueue | skynet-src/skynet_mq.c:174-187 | Doubling a full circular buffer keeps its messages in order |
| SchedQueue.MessageQueue.Push | skynet-src/skynet_mq.c:189-209 | Appends behind all messages, and lists the queue exactly when nobody has it |
| SchedQueue.MessageQueue.MarkRelease | skynet-src/skynet_mq.c:219-228 | Sets the release flag and lists the queue unless somebody has it |
| SchedQueue.MessageQueue.DropQueue | skynet-src/skynet_mq.c:230-237 | Drops all messages, in order |
| SchedQueue.MessageQueue.Release | skynet-src/skynet_mq.c:239-250 | A released queue is dropped, any other is listed again |
| SchedQueue.GlobalQueue.Push | skynet-src/skynet_mq.c:43-56 | The linked list as a sequence: append |
| SchedQueue.GlobalQueue.Pop | skynet-src/skynet_mq.c:58-75 | The linked list as a sequence: take the first |
| SchedSafety.InvariantHolds | skynet-src/skynet_server.c:126-352 | The invariant of the scheduler holds in every state of every run, for any number of threads: reference counts, one place per queue, who has to mark and to free, conservation of messages |
| SchedSafety.RunKeeps | skynet-src/skynet_server.c:297-352 | Every act of every thread keeps it |
| SchedSteps.ExecKeeps | skynet-src/skynet_server.c:126-352 | One act and one service: what the act holds before, the acts in its place hold after |
| SchedSteps.GrabsOwnContext | skynet-src/skynet_server.c:305-341 | The context that a worker grabs under the handle of its queue is the context of that queue, which line 341 asserts |
| SchedResults.OnePlace | skynet-src/skynet_mq.c:15-18 | A queue that is flagged or released is in exactly one place, once in the global list or with one thread; any other queue is empty and nowhere |
| SchedResults.OneThreadRuns | skynet-src/skynet_server.c:261-285 | At most one thread runs the code of a service, and the callback only after a successful init |
| SchedResults.NotReadyYet | skynet-src/skynet_server.c:139-183 | As long as a service is being launched it is not ready, and no callback of it runs |
| SchedResults.LaunchPossible | skynet-src/skynet_server.c:126-160 | A launch is possible with every handle that is not in the table and that no live queue has |
| SchedResults.WaitingIsScheduled | skynet-src/skynet_mq.c:189-209 | A queue with messages is never left unscheduled |
| SchedResults.Conservation | skynet-src/skynet_server.c:305-346 | Every message pushed was given to the callback, or discarded because there is none, or is in the hands of the one thread that has the queue, or was dropped, or still waits: each once and in order; only a released queue drops |
| SchedDispatch.HandledRuns | skynet-src/skynet_server.c:261-285 | What is recorded as handled is with the callback of its own service, which the thread runs next with this very message; what is recorded as discarded met no callback |
| SchedDispatch.CallbackRuns | skynet-src/skynet_server.c:332-336 | A worker with a message in hand that finds a callback runs it with that message |
| SchedDispatch.CallbackReturns | skynet-src/skynet_server.c:261-285 | While the callback runs it may make calls; when it returns the worker goes on with the next message |
| SchedDispatch.TakesOldest | skynet-src/skynet_server.c:318-322 | A message is taken only by the thread that has the queue, is the oldest one, and is then in its hands |
| SchedDispatch.OneGo | skynet-src/skynet_server.c:314-341 | One call takes as many messages as it is to take, and at least one, before it goes on to the next queue: a worker without a weight exactly one |
| SchedDispatch.GoSize | skynet-src/skynet_server.c:322-324 | How many: the share of what waits when the first message has been taken |
| SchedDispatch.ShareIs | skynet-src/skynet_server.c:323-324 | which is the length shifted right by the weight of the worker |
| SchedDispatch.ListedInTurn | skynet-src/skynet_mq.c:43-75 | A step puts one queue behind all others of the global list, or hands the first one to the thread that takes the step, or leaves the list |
| SchedDispatch.FirstListedFirst | skynet-src/skynet_mq.c:43-75 | In every run the queues leave the global list in the order in which they came into it |
| SchedResults.RecordsGrow | skynet-src/skynet_mq.c:98-104 | Over any run and any continuation: records only grow, and a freed queue is never touched again |
| SchedResults.DropReplies | skynet-src/skynet_server.c:116-124 | A dropped message is answered with an error from the dead service to its source |
| SchedResults.FreedLast | skynet-src/skynet_mq.c:230-250 | A queue is freed only when no reference, registration or custody is left; until then some thread or the list still has it, so that none is leaked |
| SchedResults.OnlyLateUses | skynet-src/skynet_server.c:157-183 | No assertion fails and no freed queue or context is used by any act of any run, except three: `ctx->init = true`, the log line of the launch, and the caller that reads the handle of the new service, all after the creator gave up its reference. Each is a use of freed memory exactly when no reference is left then |
| SchedResults.LateUsesHappen | skynet-src/skynet_server.c:165-173 | A run for each of the three: another thread retires the new service in between |
| TimerRuns.Run | skynet-src/skynet_timer.c:171-185 | The wheel refines a list: in every run, for every interleaving of adds and updates and across any number of wrap-arounds, the k-th update hands over exactly the timers due at k, in the order in which they were added |
| TimerRuns.FiresInOrder | skynet-src/skynet_timer.c:95-106 | A timer with delay d fires at exactly the d-th update after it was added, behind those for that update that were added before |
| TimerRuns.FiresOnce | skynet-src/skynet_timer.c:171-185 | What has fired and what still waits add up to what was added: nothing twice, nothing lost |
| TimerUpdate.Timer.AddNode | skynet-src/skynet_timer.c:74-93 | Links a node at the end of the one list where it belongs |
| TimerUpdate.Timer.TimerAdd | skynet-src/skynet_timer.c:95-106 | Adds to the waiting timers, every list staying what the clock asks for |
| TimerUpdate.Timer.Timeout | skynet-src/skynet_timer.c:211-231 | A delay that is not positive is answered at once, any other waits |
| TimerUpdate.Timer.MoveList | skynet-src/skynet_timer.c:108-116 | Spreads a list over the wheels, in order |
| TimerUpdate.Timer.SpreadBlock | skynet-src/skynet_timer.c:122-138 | The loop over the levels spreads the one list of the block that the clock enters |
| TimerUpdate.Timer.TimerShift | skynet-src/skynet_timer.c:118-139 | After a tick every waiting timer is in the list that `add_node` would choose for it now |
| TimerUpdate.Timer.TimerExecute | skynet-src/skynet_timer.c:159-170 | Hands over the due list once, whatever other threads add while the lock is free |
| TimerUpdate.Timer.TimerUpdate | skynet-src/skynet_timer.c:172-185 | Hands over exactly the timers due at the next tick |
| TimerWheel.SlotStep | skynet-src/skynet_timer.c:118-139 | One tick changes the place of exactly the timers of one list, which move to lower wheels; also at wrap-around |
| TimerWheel.RouteStep | skynet-src/skynet_timer.c:108-139 | Spreading that list gives every list its right contents in order of addition, because the lists it fills were empty |
| TimerWheel.NearIsDue | skynet-src/skynet_timer.c:159-170 | The near list of the clock holds exactly the timers that are due |
| TcpSocket.Socket.SendListTcp | skynet-src/socket_server.c:740-784 | The loop over the list, with retries, short writes and errors, equals the specified sending |
| TcpSocket.Socket.RaiseUncomplete | skynet-src/socket_server.c:877-892 | The begun package of the low list becomes the high list |
| TcpSocket.Socket.SendLists | skynet-src/socket_server.c:907-947 | The four steps of sending. The first assertion fails exactly for a user object at the head of the low list, and then nothing has changed; the others are proved |
| TcpSocket.Socket.SendBuffer_ | skynet-src/socket_server.c:949-975 | The rest of a direct write goes before all lists; the socket stays sound and the packages keep their order |
| TcpSocket.Socket.SendSocket | skynet-src/socket_server.c:1025-1091 | Appends to the list of the priority, or to the high one when both are empty |
| TcpSocket.AppendPlace | skynet-src/socket_server.c:1038-1076 | Where a package goes: to empty lists with high priority, whatever its own; else one of low priority goes behind all others and leaves the high list as it is, and one of high priority goes before all those in the low list |
| TcpSocket.AppendLows | skynet-src/socket_server.c:1038-1076 | Appending puts a package of low priority into the high list only when both lists are empty |
| TcpSocket.SendLowsFew | skynet-src/socket_server.c:885-935 | and sending only when it raises a package that counts as begun |
| TcpSocket.Socket.WriteDirectly | skynet-src/socket_server.c:1858-1900 | A direct write, complete or with its rest left for the socket thread |
| TcpSocket.SendListKeeps | skynet-src/socket_server.c:740-784 | Whatever the kernel answers, whole packages leave the front of the list and at most the next is begun |
| TcpSocket.SendBufferKeeps | skynet-src/socket_server.c:899-975 | Whatever the kernel answers, the line of all packages stays the same and the bytes written stay whole packages and one begun |
| TcpSenders.AppendKeeps | skynet-src/socket_server.c:1017-1091 | Appending puts a package behind all others of its sender and priority |
| TcpSenders.DirectKeeps | skynet-src/socket_server.c:1858-1900 | A direct write with nothing begun and nothing of this sender waiting puts the package behind all others of its sender |
| TcpOrder.InvariantHolds | skynet-src/socket_server.c:1845-1934 | The invariant of senders and socket thread holds in every state of every run, for any number of senders and any short writes |
| TcpOrder.MovesKeep | skynet-src/socket_server.c:1840-1860 | The two checks of a direct writer, access by access: what the first and the second tell it together |
| TcpOrder.WholePackages | skynet-src/socket_server.c:899-975 | The bytes on the wire are whole packages followed by a part of at most one, the next in line |
| TcpOrder.SendOrder | skynet-src/socket_server.c:1845-1934 | The packages of a sender with one priority are written in the order in which it sent them; what is not written yet is the rest |
| TcpOrder.OneLowAhead | skynet-src/socket_server.c:1013-1081 | In every reachable state at most one package of low priority is in the high list; all others wait behind everything of high priority |
| TcpOrder.LowComesUp | skynet-src/socket_server.c:885-935 | It was sent to a socket whose lists were empty, or raised because it counts as begun |
| TcpOrder.WritesDirectly | skynet-src/socket_server.c:1841-1895 | A sender that finds nothing on the way and nothing waiting writes directly, with its next five accesses |
| TcpOrder.AllWritten | skynet-src/socket_server.c:928-930 | When nothing waits any more, everything has been written and `wb_size` is 0 |
| TcpOrder.Bookkeeping | skynet-src/socket_server.c:1303-1332 | `wb_size` counts the listed bytes, the socket is watched exactly while something waits, the counter of requests does not underflow, and one sender at most writes directly |
| TcpOrder.AbortsExactly | skynet-src/socket_server.c:868-909 | In every reachable state where the socket thread would write, the assertion fails exactly when a user object heads the low list |
| TcpOrder.PlainNeverAborts | skynet-src/socket_server.c:868-909 | As long as no user object is sent with low priority it never fails |
| TcpOrder.ObjectAborts | skynet-src/socket_server.c:868-909 | A run in which it fails |
| RbHeap.SearchTree.Add | wepoll/wepoll.c:2038-2071 | Insertion on nodes with parent links: a key that is there is refused and nothing changes; otherwise the keys and the nodes gain exactly this one, and order, colours, black heights and all links are right again |
| RbHeap.SearchTree.Del | wepoll/wepoll.c:2098-2169 | Removal: exactly this node and its key leave, and the tree is a sound red-black tree with consistent links again |
| RbHeap.SearchTree.Find | wepoll/wepoll.c:2171-2182 | Search finds a node with the key exactly when the key is in the tree |
| RbHeap.SearchTree.Descend | wepoll/wepoll.c:2041-2054 | The way down of an insertion ends at the node with the key or at the one empty place where it fits |
| RbHeap.SearchTree.RotateLinks | wepoll/wepoll.c:1982-2009 | The assignments of a rotation: which links change, and that no others do |
| RbHeap.SearchTree.Rotate | wepoll/wepoll.c:1982-2009 | A rotation at any place, in either direction, rebuilds the tree with the same keys in the same order |
| RbHeap.SearchTree.InsertStep | wepoll/wepoll.c:2019-2036 | One round after an insertion: recolouring or one or two rotations bring the red node closer to the root or end the violation |
| RbHeap.SearchTree.FixInsert | wepoll/wepoll.c:2061-2068 | The loop after an insertion ends with a red-black tree of the same keys |
| RbHeap.SearchTree.RemoveBlack | wepoll/wepoll.c:2082-2096 | One round after a removal, for a black sibling: either the tree is settled or the black node is missing one level up |
| RbHeap.SearchTree.SiblingUp | wepoll/wepoll.c:2076-2081 | The case of a red sibling |
| RbHeap.SearchTree.NearTurn | wepoll/wepoll.c:2084-2089 | The case of a red nephew on the near side |
| RbHeap.SearchTree.FarTurn | wepoll/wepoll.c:2090-2092 | The case of a red nephew on the far side |
| RbHeap.SearchTree.FixRemove | wepoll/wepoll.c:2155-2168 | The loop after a removal ends with a red-black tree of the same keys; the sibling it dereferences always exists |
| RbHeap.SearchTree.Successor | wepoll/wepoll.c:2110-2112 | The loop to the leftmost node of the right subtree |
| RbHeap.SearchTree.DelMiddle | wepoll/wepoll.c:2124-2140 | A node with two children: its successor leaves its place and takes over the links and the colour |
| RbTree.HeightBound | wepoll/wepoll.c:1982-2182 | The height of a red-black tree is at most twice the binary logarithm of its size plus one |
| RbTree.PushUpKeeps | wepoll/wepoll.c:2023-2026 | Recolouring with a red uncle keeps order and black heights and moves the only violation up |
| RbTree.RotateInnerKeeps | wepoll/wepoll.c:2028-2032 | The inner rotation keeps order and black heights |
| RbTree.OuterPathKeeps | wepoll/wepoll.c:2033-2035 | The outer rotation ends the violation |
| RbTree.RedSiblingKeeps | wepoll/wepoll.c:2076-2081 | A red sibling is turned into a black one without changing what is missing |
| RbTree.PaintSiblingKeeps | wepoll/wepoll.c:2096 | Painting the sibling moves the missing black node to the parent, or ends there when the parent is red |
| RbTree.NearNephewKeeps | wepoll/wepoll.c:2084-2089 | The near red nephew becomes a far one |
| RbTree.FarNephewKeeps | wepoll/wepoll.c:2090-2092 | The far red nephew gives the missing black node |
| RbTree.RemoveBalance | wepoll/wepoll.c:2146-2153 | After a node with at most one child has left, nothing is to do, or its child turns black, or exactly one black node is missing |
| RbTree.SuccessorSorted | wepoll/wepoll.c:2110-2140 | The successor can stand in for the node above it: the keys stay sorted and lose exactly one |
| EpollQueue.Queue.Append | wepoll/wepoll.c:1492-1497 | The ring of links as a sequence: append |
| EpollQueue.Queue.Prepend | wepoll/wepoll.c:1485-1490 | The ring of links as a sequence: prepend |
| EpollQueue.Queue.Last | wepoll/wepoll.c:1481-1483 | The last node, if there is one |
| EpollQueue.Queue.Remove | wepoll/wepoll.c:1509-1512 | The node leaves, the others keep their order, and it is linked to itself again |
| EpollQueue.Queue.MoveToStart | wepoll/wepoll.c:1499-1502 | The node goes to the start |
| EpollQueue.Queue.MoveToEnd | wepoll/wepoll.c:1504-1507 | The node goes to the end |
| EpollQueue.Queue.Enqueued | wepoll/wepoll.c:1518-1520 | The test on one link tells whether a node is in the queue |
| EpollPort.Port.Acquire | wepoll/wepoll.c:996-1014 | The last group of the queue, or a new one when that is full or missing; it gains a socket, and once it is full it goes to the start |
| EpollPort.Port.ReleaseGroup | wepoll/wepoll.c:1016-1026 | The group loses a socket and goes to the end of the queue; full groups stay in front |
| EpollPort.Port.SetEvent | wepoll/wepoll.c:1715-1730 | After a change of the wanted events the socket is covered by its poll, or queued, or has a cancelled poll to complete |
| EpollPort.Port.SockUpdate | wepoll/wepoll.c:1774-1834 | An update that succeeds takes the socket off the queue with everything wanted covered, or its poll cancelled, or the closed socket freed; one that fails changes nothing; no outstanding poll is lost |
| EpollPort.Port.SockDelete | wepoll/wepoll.c:1678-1705 | A socket leaves the tree and the update queue at once, and memory only when no poll of it is outstanding, unless forced |
| EpollPort.Port.FeedEvent | wepoll/wepoll.c:1836-1889 | A completion frees a deleted or closed socket; otherwise it reports exactly the events that occurred and are wanted, queues a new poll, and disarms a one-shot socket |
| EpollPort.Port.UpdateEvents | wepoll/wepoll.c:1170-1186 | The loop over the update queue ends, with an empty queue or an error; no outstanding poll is lost, the sockets that remain keep what is wanted of them, and only a queued socket without a poll may go |
| EpollPort.Port.PollBegin | wepoll/wepoll.c:1211-1223 | When a thread starts to wait, every wanted event of every socket is polled, or a cancelled poll is about to complete; no outstanding poll is lost |
| EpollPort.Port.PollEnd | wepoll/wepoll.c:1193-1241 | Feeding a batch of completions: each refers to a socket that still exists, exactly these polls are over, and the events returned are, in order, what each completion tells of what is wanted |
| EpollPort.Port.CtlAdd | wepoll/wepoll.c:1321-1336 | Adding a socket, with all ways in which that can fail and leave things as they were; also while threads wait, outstanding polls survive and the other sockets keep what is wanted of them |
| EpollPort.Port.CtlMod | wepoll/wepoll.c:1338-1351 | Changing the wanted events of a registered socket; also while threads wait, outstanding polls survive and the other sockets keep what is wanted of them |
| EpollPort.Port.CtlDel | wepoll/wepoll.c:1353-1361 | Removing a socket: it lives on exactly when a poll of it is outstanding; the other sockets and all polls stay as they are |
| EpollPort.Port.Delete | wepoll/wepoll.c:1139-1168 | Closing the port frees every socket and group once; the assertions about empty groups and an empty queue hold |
| EpollPort.SizesSum | wepoll/wepoll.c:996-1026 | The sizes of any groups add up to the number of their sockets |
| EpollPort.EventsCovered | wepoll/wepoll.c:1732-1772 | A poll for some events can report all the known ones among them, except EPOLLMSG, and always the closing of the socket |
| EpollPort.PolledExactly | wepoll/wepoll.c:1732-1751 | What a poll for each single event watches for |
| EpollPort.PolledTogether | wepoll/wepoll.c:1732-1751 | A poll for several events watches for what any of them does |
| EpollPort.ReportedExactly | wepoll/wepoll.c:1753-1772 | An event is reported exactly when something occurred that a poll for this event alone watches for, or a connect failed and the event goes with that; unknown events never are |
| EpollPort.ToldExactly | wepoll/wepoll.c:1849-1872 | The same for all kinds of completions; an error is reported exactly for a failed request or a failed connect |
| EpollPort.CoveredWatched | wepoll/wepoll.c:1777-1805 | A poll that covers what is wanted has asked the system for all that goes with it |
| EpollRuns.Run | wepoll/wepoll.c:1139-1361 | In every run of the operations from a new port, whatever the system answers: a poll that is started and not over belongs to a socket that still exists, every wanted event is polled, queued or waits for a cancelled poll, no socket is in two queues, and full groups come first |
| EpollRuns.Perform | wepoll/wepoll.c:1139-1361 | One operation, if it is possible; polls are over exactly when their completions are fed |
| EpollRuns.FullOnesFirst | wepoll/wepoll.c:996-1026 | No group that has room is before a full one in the queue |
| Handles.HandleStorage.constructor | skynet-src/skynet_handle.c:246-265 | An empty registry |
| Handles.HandleStorage.Search | skynet-src/skynet_handle.c:41-58 | The first handle of the search that has an empty slot, which no registered service has; or none, exactly when no handle that is tried has one |
| Handles.HandleStorage.Double | skynet-src/skynet_handle.c:60-69 | The doubled table has the same services, each in the slot of its handle; no two collide, which line 64 asserts |
| Handles.HandleStorage.Register | skynet-src/skynet_handle.c:34-71 | The new service is registered under a handle of this harbor that nobody else has, the first with an empty slot unless the table must grow, and nothing else changes. It fails in exactly two cases: the table cannot grow any more, or the search missed an empty slot 0 that is then used as a service |
| Handles.HandleStorage.Grab | skynet-src/skynet_handle.c:136-153 | Finds exactly the services that are registered |
| Handles.HandleStorage.Retire | skynet-src/skynet_handle.c:73-110 | Exactly this service and its names go |
| Handles.HandleStorage.DropNames | skynet-src/skynet_handle.c:86-97 | The loop that closes the gaps keeps the other names in order |
| Handles.HandleStorage.RetireAll | skynet-src/skynet_handle.c:112-134 | The loop ends with no service left |
| Handles.HandleStorage.FindPlace | skynet-src/skynet_handle.c:163-178 | The binary search finds the name, or the place where it belongs |
| Handles.HandleStorage.FindName | skynet-src/skynet_handle.c:155-183 | The handle that a search through all names finds, or 0 |
| Handles.HandleStorage.InsertNameBefore | skynet-src/skynet_handle.c:185-209 | One more name at this place, in a larger array when the old one is full |
| Handles.HandleStorage.NameHandle | skynet-src/skynet_handle.c:211-244 | A name that exists is refused; otherwise exactly this name is given, and all others keep their handles |
| Handles.Doubled | skynet-src/skynet_handle.c:62-66 | In a table of twice the size a handle stays in its slot or moves up by the old size |
| Handles.HarborAside | skynet-src/skynet_handle.c:48-56 | The harbor in the upper bits does not change the slot |
| Handles.Visits | skynet-src/skynet_handle.c:43-48 | The search visits every slot, except slot 0 when it starts again at 1 on the way |
| Handles.MissesZero | skynet-src/skynet_handle.c:43-48 | and then it does miss slot 0 |
| Handles.SearchFailsExactly | skynet-src/skynet_handle.c:43-58 | So the search fails exactly when the table is full, or full but for slot 0 and it starts again at 1 on the way |
| Handles.MoveOne | skynet-src/skynet_handle.c:62-66 | A service that is moved to the doubled table finds its slot empty |
| Handles.HalfFree | skynet-src/skynet_handle.c:59-70 | After a doubling one of two slots is empty, so that the next search succeeds |
| Handles.LookupWithout | skynet-src/skynet_handle.c:86-97 | Retiring a handle takes exactly its names away |
| Handles.LookupInserted | skynet-src/skynet_handle.c:185-209 | A name that is put where it belongs changes no other |
| Handles.MissedSlotRun | skynet-src/skynet_handle.c:43-63 | A run that ends there: three services stay while a fourth comes and goes until the handles are used up; the next registration takes the empty slot 0 for a service |
| RwLock.InvariantHolds | skynet-src/rwlock.h:18-77 | In every run of any number of threads: `read` counts the threads between increment and decrement, `write` is set exactly while one thread is between test-and-set and release, and nobody reads while somebody writes |
| RwLock.Exclusion | skynet-src/rwlock.h:18-77 | A writer is alone, with no reader and no other writer |
| RwLock.TurnKeeps | skynet-src/rwlock.h:18-77 | Every single access keeps that |
| RwLock.NoDeadlock | skynet-src/rwlock.h:18-77 | In every run, as long as some thread wants the lock and none has it, those who have asked can go on, without any thread asking anew, so that one gets it |
| RwLock.ReadersTogether | skynet-src/rwlock.h:18-44 | Readers do not keep each other out: with no writer about, a reader gets in by its own three accesses and all others go on reading |
| RwLock.WriterKeepsOut | skynet-src/rwlock.h:24-62 | A writer that waits keeps new readers and other writers out, whoever moves |
| Stm.InvariantHolds | lualib-src/lua-stm.c:26-130 | The invariant of one writer and any number of readers that come and go, access by access, through the accesses of the lock |
| Stm.AccessKeeps | lualib-src/lua-stm.c:47-126 | Every access that is begun is possible and keeps it |
| Stm.NeverFails | lualib-src/lua-stm.c:56-115 | No assertion fails and no copy is used that was freed, in any run |
| Stm.HeldIsLive | lualib-src/lua-stm.c:93-105 | A copy that the object or anybody still refers to has not been freed |
| Stm.LastIsLive | lualib-src/lua-stm.c:213-239 | The message that a reader was given stays until the reader gives it up |
| Stm.FreedOnce | lualib-src/lua-stm.c:47-54 | No copy is freed twice; it has been freed exactly when nobody refers to it and nobody is about to free it |
| Stm.AllFreed | lualib-src/lua-stm.c:47-83 | When writer and readers are gone every copy has been freed exactly once |
| Stm.ReadIsFresh | lualib-src/lua-stm.c:93-105 | A read gives a copy that was the newest at some time during the read and is not older than the one before, or nothing when the writer is gone |
| Stm.TopGrows | lualib-src/lua-stm.c:107-115 | A newer copy is never replaced by an older one |
| Stm.ReferenceExact | lualib-src/lua-stm.c:56-91 | The counter of the object is the number of those that may use it, and 0 only when all are gone |
| Stm.AssertionsHold | lualib-src/lua-stm.c:56-105 | The assertions on the counters and on the object hold where they are made |
| Stm.OnlyLateUnlocks | lualib-src/lua-stm.c:56-83 | Once the last reference to the object is gone, the only accesses to it that are still to come are those of readers that have given up theirs and have not yet given back the lock |
| Stm.LateUnlock | lualib-src/lua-stm.c:74-83 | and there is a run with such an access: two readers close at the same time |
| Stm.RestsOutside | lualib-src/lua-stm.c:56-91 | Whoever has nothing more to do has given back the lock, except the one that ended the object |
| Netpack.PacksCut | lualib-src/lua-netpack.c:188-215 | A stream may be cut anywhere: what is left of the first part goes before the second |
| Netpack.PackedParse | lualib-src/lua-netpack.c:430-452 | What is packed is parsed again: the packages come out, and the beginning of another one stays |
| Netpack.HeaderIs | lualib-src/lua-netpack.c:182-186 | The high byte of the length comes first |
| Netpack.OutcomeExact | lualib-src/lua-netpack.c:227-307 | One package is handed over exactly when it is the only one and ends the stream, and nothing is exactly when none is complete |
| Netpack.Filter.constructor | lualib-src/lua-netpack.c:116-131 | An empty filter |
| Netpack.Filter.FindUncomplete | lualib-src/lua-netpack.c:92-114 | The incomplete package of a socket, if there is one, leaves its chain; those of all others stay |
| Netpack.Filter.SaveUncomplete | lualib-src/lua-netpack.c:169-180 | The incomplete package of a socket is stored; those of all others stay |
| Netpack.Filter.ExpandQueue | lualib-src/lua-netpack.c:133-148 | The larger buffer has the packages of the full one in order |
| Netpack.Filter.PushData | lualib-src/lua-netpack.c:150-167 | Appends a package behind all that wait |
| Netpack.Filter.PushMore | lualib-src/lua-netpack.c:188-215 | Queues all packages of a buffer and stores what is left |
| Netpack.Filter.FillUncomplete | lualib-src/lua-netpack.c:231-269 | What was stored and the chunk are parsed as one stream |
| Netpack.Filter.StartPackage | lualib-src/lua-netpack.c:270-306 | A chunk without anything stored is parsed |
| Netpack.Filter.FilterData | lualib-src/lua-netpack.c:227-307 | One package is handed over, several are queued in order, and what is left is stored |
| Netpack.Filter.CloseUncomplete | lualib-src/lua-netpack.c:217-225 | What is stored for a closed socket is dropped |
| Netpack.Filter.Pop | lualib-src/lua-netpack.c:396-410 | The first waiting package |
| NetpackRuns.ChunkingIrrelevant | lualib-src/lua-netpack.c:227-307 | However the streams of any number of sockets are cut into chunks and mixed, each is parsed as if it had come at once |
| NetpackRuns.NothingLost | lualib-src/lua-netpack.c:227-307 | Every package that was completed has been handed over or waits, once |
| NetpackRuns.OrderStep | lualib-src/lua-netpack.c:252-297 | The order of the packages of a socket is kept exactly if none is handed over while a different earlier one waits |
| NetpackRuns.OrderKept | lualib-src/lua-netpack.c:252-297 | The same for all moments of a run |
| NetpackRuns.EmptiedInOrder | lualib/snax/gateserver.lua:63-78 | If the queue is emptied before each chunk, all packages come in order |
| NetpackRuns.OvertakeExample | lualib-src/lua-netpack.c:252-297 | Otherwise a package may overtake: two packages in one chunk, one in the next |
| NetpackRuns.Handle | lualib-src/lua-netpack.c:349-387 | One event handled by the filter: what its user gets |
| NetpackRuns.Run | lualib-src/lua-netpack.c:349-410 | The filter itself does in every run what the functions above say |
| ShareTable.CountSize | lualib-src/lua-sharedata.c:67-89 | The number of keys that are not in the array, before the cut to 32 bits |
| ShareTable.Frozen.constructor | lualib-src/lua-sharedata.c:285-310 | An empty table of these sizes |
| ShareTable.Frozen.FillNoColliding | lualib-src/lua-sharedata.c:212-235 | The first pass, for any integers: the first key of each main position goes there, and the last of each array index to its place |
| ShareTable.Frozen.FillColliding | lualib-src/lua-sharedata.c:237-273 | The second pass: the other keys come behind their main positions, the last first; the search for an empty slot does not fail, which line 260 asserts, also when keys clash |
| ShareTable.Frozen.FillSlot | lualib-src/lua-sharedata.c:246-272 | One key of the second pass |
| ShareTable.Frozen.EmptySlot | lualib-src/lua-sharedata.c:252-260 | The next empty slot |
| ShareTable.Frozen.ConvTable | lualib-src/lua-sharedata.c:277-326 | What the two passes make of any table, and without clashes exactly the keys and values of the source, cut off at 32 bits |
| ShareTable.Frozen.LookupKey | lualib-src/lua-sharedata.c:502-531 | The first slot with the key in the chain of its main position; the shortcut for slots without collisions is right |
| ShareTable.Frozen.Index | lualib-src/lua-sharedata.c:533-567 | For any source and any integer or string: the value of the key that wins among those that the cut makes the same, or nothing. It reads a slot that was never filled exactly if the main position is one |
| ShareTable.Frozen.NextKey | lualib-src/lua-sharedata.c:590-647 | The next key in the order of iteration |
| ShareTable.Frozen.Pairs | lualib-src/lua-sharedata.c:590-647 | Iterating from nothing until nothing comes visits every key exactly once |
| ShareTable.PlaceMain | lualib-src/lua-sharedata.c:222-231 | A key in its empty main position keeps all chains sound |
| ShareTable.PlaceBehind | lualib-src/lua-sharedata.c:250-268 | A key that is linked in behind its main position keeps all chains sound |
| ShareTable.SlotLeft | lualib-src/lua-sharedata.c:252-260 | There are as many slots as keys, so that one is left for a key that has none |
| ShareTable.NoSlotLeft | lualib-src/lua-sharedata.c:300-313 | With all keys placed every slot is in use |
| ShareTable.AllKeysOnce | lualib-src/lua-sharedata.c:590-647 | The order of iteration has every key once |
| ShareTable.RemainingStep | lualib-src/lua-sharedata.c:590-647 | After each step of the iteration the others remain |
| ShareTable.SlotsExact | lualib-src/lua-sharedata.c:67-89 | There are as many slots as different keys to store exactly if no two integer keys have the same lower 32 bits and none is cut off to an index of the array; otherwise there are more |
| ShareTable.IndexExact | lualib-src/lua-sharedata.c:533-567 | Of the keys that the cut makes the same exactly one is answered for, and it is for all of them; a key that the source does not have gets nothing exactly if none becomes the same; and a key without a rival gets its own answer |
| ShareTable.AlwaysRight | lualib-src/lua-sharedata.c:191-210 | The answers for all keys of 32 bits are right exactly if every longer integer key of the source loses to its own lower 32 bits as a key |
| ShareTable.WinnerIs | lualib-src/lua-sharedata.c:191-273 | There is a winner exactly if a key of the source is cut off to the same, and it is one of those |
| ShareTable.LookupWins | lualib-src/lua-sharedata.c:502-531 | The slot that a search finds holds the winner |
| ShareTable.BehindFinds | lualib-src/lua-sharedata.c:261-268 | Behind the main position the key that came last is found first |
| ShareTable.Frozen.BuiltValid | lualib-src/lua-sharedata.c:277-326 | Without clashes every slot is used by one key |
| ShareTable.Frozen.NoGarbage | lualib-src/lua-sharedata.c:502-531 | and no read meets a slot that was never filled |
| LuaSeri.PacksExactly | lualib-src/lua-seri.c:296-301 | Exactly the values with at most 32 tables around their innermost values can be packed |
| LuaSeri.IntegerBack | lualib-src/lua-seri.c:142-174 | Every integer comes back, negative ones too |
| LuaSeri.Shortest | lualib-src/lua-seri.c:142-340 | No stream that is read as a value is shorter than the one that is written for it, for values of any kind and depth |
| LuaSeri.IntegerShortest | lualib-src/lua-seri.c:142-174 | for integers |
| LuaSeri.StringShortest | lualib-src/lua-seri.c:190-213 | for strings |
| LuaSeri.SizeShortest | lualib-src/lua-seri.c:217-227 | and for the sizes of arrays |
| LuaSeri.KnownBytes | lualib-src/lua-seri.c:14-34 | Some values and their bytes, which fix the codes of the types and where they stand |
| LuaSeri.KnownIntegers | lualib-src/lua-seri.c:14-34 | Some integers and their bytes: every width, and a negative one |
| Bytes.ByteAt | lualib-src/lua-seri.c:142-174 | Numbers are stored with the lowest byte first |
| LuaSeri.StringBack | lualib-src/lua-seri.c:190-213 | Every string comes back, from each of its three forms |
| LuaSeri.SizeBack | lualib-src/lua-seri.c:217-227 | The size of an array comes back, also beyond the five bits of the type byte |
| LuaSeri.TableBack | lualib-src/lua-seri.c:434-465 | A table comes back with its array, holes and other pairs |
| LuaSeri.ValueBack | lualib-src/lua-seri.c:523-532 | Every value comes back and the stream stands behind it |
| LuaSeri.RoundTrip | lualib-src/lua-seri.c:555-612 | A list of values comes back |
| LuaFormat.ReadsExactly | lualib-src/lua-seri.c:359-532 | A stream is read as a value exactly if it begins with a form of that value, also one that is never written |
| LuaFormat.Reads | lualib-src/lua-seri.c:359-532 | Every form of a value is read as that value, whatever comes behind it |
| LuaFormat.Was | lualib-src/lua-seri.c:359-532 | and whatever is read as a value begins with a form of it |
| SeriBlocks.WriteBlock.constructor | lualib-src/lua-seri.c:87-94 | Nothing is written |
| SeriBlocks.WriteBlock.Push | lualib-src/lua-seri.c:65-85 | The bytes come behind all others, across as many new blocks as it takes |
| SeriBlocks.WriteBlock.Seri | lualib-src/lua-seri.c:534-553 | The chain of blocks as one piece |
| SeriBlocks.WriteBlock.PushInteger | lualib-src/lua-seri.c:142-174 | The bytes of an integer |
| SeriBlocks.WriteBlock.PushString | lualib-src/lua-seri.c:190-213 | The bytes of a string |
| SeriBlocks.WriteBlock.PushSize | lualib-src/lua-seri.c:217-227 | The bytes of the size of an array |
| SeriBlocks.WriteBlock.PackOne | lualib-src/lua-seri.c:296-340 | The bytes of a value, or an error exactly when it is nested too deeply |
| SeriBlocks.WriteBlock.PackTable | lualib-src/lua-seri.c:282-294 | The bytes of a table |
| SeriBlocks.WriteBlock.PackArray | lualib-src/lua-seri.c:229-234 | The loop over the array |
| SeriBlocks.WriteBlock.PackHash | lualib-src/lua-seri.c:239-257 | The loop over the other pairs |
| SeriBlocks.Pack | lualib-src/lua-seri.c:599-612 | All values, or an error exactly when one is nested too deeply |
| SeriBlocks.ReadBlock.Read | lualib-src/lua-seri.c:118-128 | The next bytes, or nothing when there are too few |
| SeriBlocks.ReadBlock.GetInteger | lualib-src/lua-seri.c:359-400 | Reads what the specification of the stream says, or fails with it |
| SeriBlocks.ReadBlock.UnpackOne | lualib-src/lua-seri.c:523-532 | Reads a value, or fails exactly on an invalid stream |
| SeriBlocks.ReadBlock.PushValue | lualib-src/lua-seri.c:467-521 | Reads a value whose first byte is known |
| SeriBlocks.ReadBlock.UnpackTable | lualib-src/lua-seri.c:434-465 | Reads a table |
| SeriBlocks.Unpack | lualib-src/lua-seri.c:555-597 | Reads all values of any stream, or fails exactly on an invalid one; the recursion ends |
| SeriBlocks.PackAndUnpack | lualib-src/lua-seri.c:555-612 | The two halves together, on the blocks: what is packed is unpacked again, and packing fails exactly when something is nested too deeply |
| CryptDh.MulModP | lualib-src/lua-crypt.c:799-819 | The product modulo P, exact although doubling and adding may not fit into 64 bits |
| CryptDh.PowModP | lualib-src/lua-crypt.c:821-832 | Repeated squaring gives the specified power |
| CryptDh.PowerOf | lualib-src/lua-crypt.c:834-840 | and so for any base |
| CryptDh.PowerExact | lualib-src/lua-crypt.c:821-840 | which is the power modulo P, except exactly for the base P with exponent 1 |
| CryptDh.DhExchange | lualib-src/lua-crypt.c:874-892 | The public value of a key, with its two errors |
| CryptDh.DhSecret | lualib-src/lua-crypt.c:857-870 | The secret from a public value and a key, with its errors |
| CryptDh.ExchangeIs | lualib-src/lua-crypt.c:874-892 | The public value of a key that is not 0 is the power of 5 modulo P |
| CryptDh.SecretIs | lualib-src/lua-crypt.c:857-870 | and the secret is the power with the product of both keys |
| CryptDh.NeverZero | lualib-src/lua-crypt.c:857-892 | No power of the generator is 0 modulo P, so that no exchange ends in an error |
| CryptDh.SecretsAgree | lualib-src/lua-crypt.c:857-892 | Both sides compute the same secret, from any keys that are not 0 |
| CryptDes.FinalUndoesInitial | lualib-src/lua-crypt.c:212-234 | The final permutation undoes the initial one |
| CryptDes.InitialUndoesFinal | lualib-src/lua-crypt.c:212-234 | and the other way round |
| CryptDes.RoundsBack | lualib-src/lua-crypt.c:238-251 | The rounds with the subkeys backwards undo the rounds, for any S-boxes and subkeys |
| CryptDes.InitialIsTable | lualib-src/lua-crypt.c:212-221 | The initial permutation is the table of FIPS PUB 46-3, bit by bit, with both halves rotated by one |
| CryptDes.MixedIsTable | lualib-src/lua-crypt.c:238-251 | Each S-box sees the six bits of the half that the table E of FIPS PUB 46-3 gives it, and its own six bits of the subkeys |
| CryptDes.RoundsAreFeistel | lualib-src/lua-crypt.c:324-346 | The rounds, two at a time in place, are the rounds of the standard with the halves exchanged each time |
| CryptDes.CryptBack | lualib-src/lua-crypt.c:324-346 | A block comes back when the subkeys are reversed |
| CryptDes.ReverseKeys | lualib-src/lua-crypt.c:496-500 | The loop that reverses the subkeys in pairs |
| CryptDes.PaddingFound | lualib-src/lua-crypt.c:383-422 | Either padding is found again, whatever the text ends with |
| CryptDes.PaddingRemoveIso | lualib-src/lua-crypt.c:389-404 | The loop that looks for the padding of ISO/IEC 7816-4 |
| CryptDes.PaddingRemovePkcs7 | lualib-src/lua-crypt.c:412-422 | The loop that checks the padding of PKCS #7 |
| CryptDes.DesEncode | lualib-src/lua-crypt.c:465-489 | The loop over the blocks with a padded last one |
| CryptDes.DesDecode | lualib-src/lua-crypt.c:491-521 | The loop over the blocks with reversed subkeys, and its two errors |
| CryptDes.BlocksBack | lualib-src/lua-crypt.c:465-514 | All blocks of an encoded text come back, with the padding behind |
| CryptDes.RoundTrip | lualib-src/lua-crypt.c:465-521 | Every text comes back, with either padding |
| CryptDes.DecodesExactly | lualib-src/lua-crypt.c:491-521 | Decoding gives a text exactly for what encoding makes of that text, and fails for everything else |
| CryptDes.PaddingIs | lualib-src/lua-crypt.c:389-422 | What is found as padding is the padding that is added |
| CryptDes.PaddingKnown | lualib-src/lua-crypt.c:383-411 | Some paddings of both kinds |

## Left out

- LPeg captures, match-time captures and the ktable: they need the Lua state. Patterns here have none.
- The limit on the size of the backtrack stack (3rd/lpeg/lpvm.c:74) and memory failures: the stack may grow without bound.
- LpegAnalysis.FixedlenSound: the call depth is bounded by a parameter, and the statement holds for every bound; that the marks of the code (3rd/lpeg/lpcode.c:133-145) give the same length is `MarksAgree`.
- LpegAnalysis.GetfirstSound: calls of the analyses are bounded by a depth, and the statement holds for every bound; that the bound does not matter once the recursion ends is `FirstSettles` and `ProgramSettles`.
- LpegDepth.DepthIrrelevant: for patterns that the repaired check accepts, because for others the recursion may not end (`NeverEnds`); `ProgramSettles` is about all patterns for which it does.
- LpegGrammar.GrammarTerminates: for the grammars that the code accepts it is false, as the six lemmas with LostFlag, CallBehind and CallBack show. It is proved for those that the repaired check accepts. The converse is not proved: no check of this kind is exact, because whether a parsing expression consumes cannot be decided, so that a pattern which the repaired check rejects may still terminate.
- LpegGrammar.TerminatesLeft: under the repaired check for the same reason.
- LpegDepth.FirstDepthEnough: under the repaired check, because for other rules that the code accepts `getfirst` may not end (`NeverEnds`); the same holds for `VerifyruleExact`, `HeadfailDepthEnough` and `CodeDepth`.
- LpegMatch.CompiledCorrect: needs the repaired check, because without it a pattern may have no result; `OptimizedCorrect` and `PatternMatch` need no check. That the program of a pattern without a result does not halt is not proved.
- LpegCompile.CompileState.Codegen: stated for patterns for which the compiler ends; for the others, which `CompilesExactly` tells apart, the chains that it follows have no end.
- Rule names, the tables that number rules, error messages and the 16-bit key fields of LPeg trees: a call names its rule by number.
- Weak memory ordering: atomic steps are taken to be sequentially consistent.
- Monitoring, profiling, logging and the per-message type tags of the scheduler: they do not affect who runs what.
- The window between the registration of a context and the store of its handle (skynet-src/skynet_server.c:155-157): registering and creating the queue is one step.
- The handle table of the scheduler is a map, and a new handle is assumed to differ from those of all live queues; `Handles` is the table itself, where the service gets its handle in the step that registers it.
- Handles.HandleStorage.Register: what happens after an empty slot is used as a service is not modelled.
- Fairness: that a scheduled queue is eventually run depends on the operating system.
- SchedResults.OnlyLateUses: runs are followed up to a late use; what the program does after a use of freed memory is not modelled.
- Masks and shifts of the timer (skynet-src/skynet_timer.c:74-139) are written as division and remainder by powers of two, which is the same on unsigned numbers.
- The linked lists of the timer (skynet-src/skynet_timer.c:57-72) are sequences.
- Clocks: `timer_update` is called by a clock thread once per tick (skynet-src/skynet_timer.c:266-281), which is not modelled.
- Sockets other than connected TCP ones, connecting, closing and half-closing, UDP, warnings about large buffers: a run of the send path ends when the connection fails or is closed.
- The upper half of `sending`, which tells a reused slot of the socket table from the old one (skynet-src/socket_server.c:1304-1323): the run is about one socket.
- TcpSocket.Socket.SendListTcp: lists are sequences here, so that the tail pointers of the linked lists are not modelled.
- RbHeap.SearchTree.Del: the links are changed in two halves, first those around the successor and then those around the node it replaces, so that the order of the assignments differs from the code (wepoll/wepoll.c:2115-2147); the links of all nodes that stay come out the same.
- EpollPort.Port.UpdateIfPolling: errors of these updates are ignored, as in the code (wepoll/wepoll.c:1188-1191), so that a change made while a thread waits may stay queued until the next call.
- In EpollPort the socket tree is a map and the queues are sequences; `RbHeap` and `EpollQueue` are the structures behind them.
- The thread-safe tree and the reference-counting lock of wepoll (wepoll/wepoll.c:1522-1587), and what the operating system does with a poll: completions are taken to arrive once for every poll that was started.
- TcpOrder.AbortsExactly: a run ends where the assertion fails, since the process is aborted. That user objects have their bytes elsewhere is taken from their interface (skynet-src/socket_server.c:297-310).
- The memory of the shared object itself (lualib-src/lua-stm.c:74-91) stays in `Stm` when its last reference goes, so that runs go on; `OnlyLateUnlocks` says what touches it then. A reader is made for each reference that was given out, and one that is never made keeps its reference.
- SchedModel, TcpSenders, RwLock and Stm are transition systems over single accesses, because any number of threads interleave; a loop of the code, such as a spin, is a repeated step there.
- Threads that use the system's lock instead of the spinning one (skynet-src/rwlock.h:79-118), and fairness: `NoDeadlock` says that some thread can get the lock, not that each one does.
- Netpack.Filter.FilterData: chunks are not empty, which the socket server guarantees. The chains of the hash table are sequences, the table is made at once instead of with the first chunk, and clearing the queue (lualib-src/lua-netpack.c:61-82) is left out.
- ShareTable.Frozen.Pairs: an iteration over a table whose keys clash may meet slots that were never filled or the same key twice; only tables without clashes are covered. What is read from a slot that was never filled is not modelled.
- ShareTable.Frozen.ConvTable: keys are integers and strings, while the code also counts tables as keys (lualib-src/lua-sharedata.c:82). Values are abstract, nested tables and the interning of strings are left out, and so are updates of a shared table.
- SeriBlocks.WriteBlock.PackTable: tables that say themselves how to go through them, with a field `__pairs` of their metatable (lualib-src/lua-seri.c:259-280), take another path and are left out.
- SeriBlocks.WriteBlock.PackOne: such tables and values of other types are left out; strings and arrays are shorter than 2^31, and numbers are stored with the lowest byte first. A table is what an iteration gives, so that keys occur as they come.
- CryptDes.RoundTrip: the S-boxes and the schedule that makes 32 subkeys of a key (lualib-src/lua-crypt.c:35-174, 255-320) are parameters, and the statement holds for all of them. `PaddingRemovePkcs7` does not look at bytes before the text, where the code does when the last byte is larger than the text; both end in an error then.
- Hashing, hexadecimal and base64 texts, clustering, data sheets, the Lua bindings and the services written in Lua.
