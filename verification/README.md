# Verified model of the repository's algorithms and state machines

This project models, in Dafny, the parts of the repository whose correctness is hardest to see by reading: the graph
algorithms and small number routines that the Python bindings use, the multi-threaded test runner, the on/off traffic
generator, the walk over the type graph that lists configuration paths, the command-pipeline parser and runner of the
build, the patch reader and writer of the style checker, and the replay memory and episode loop of the scheduler
learner. To verify the project: `dafny verify dfyconfig.toml`.

Code that updates variables, lists or objects step by step is a method or a class here, and is proved against a
specification on values; what the program promises is proved about that specification, for every input or every run.

| Files | What they model |
|---|---|
| `Graphs`, `TopSort`, `FindCycles`, `CycleReport` | dependency sorting, its level-by-level form, and the enumerator of elementary cycles |
| `WorkerPool`, `WorkerResults` | the threads, queues and counters of the test runner, as interleaved atomic steps, and what it reports against what the commands returned |
| `OnOff`, `OnOffPeriods`, `OnOffLongRun`, `OnOffRates`, `OnOffLimit` | the on/off generator as a timed event machine, the length of its periods, its residual-bit credit over one packet, whole runs and changing rates, and its byte limit |
| `TypeWalk` | the recursive walk over a cyclic type graph |
| `ShellParse`, `ShellPrint`, `ShellRun` | the token machine, its inverse printer, and the loop that runs a parsed pipeline |
| `Patches`, `PatchObjects` | unified patches as values, and the classes and parser that hold them |
| `Bits`, `Permutations`, `Euclid` | binary strings, Gray codes, permutations, and signed gcf, lcm and fractions |
| `Replay`, `Records`, `Episode`, `RlServer` | the replay ring and its targets, the records received, and the episode loop |
| `Sequences`, `Arithmetic`, `Options`, `Python` | shared vocabulary |

## What came out differently from the documentation

- The comment at `bindings/python/topsort.py:109` says that every leftover node has a child. It need not: the leftover
  nodes are those downstream of a cycle, so each has a leftover parent (`TopSort.LeftoverHasParent`,
  `TopSort.LeftoverIsStuck`), but it may have no child at all (`TopSort.ChildlessLeftover`).
- `run/mp-onoff-application.h:53-67` describes the remaining time as kept exactly. The code keeps whole bits, so every
  interruption can cost up to one bit: `OnOffRates.HalfBitLost` is a run in which one does, and `OnOff.PacketSpacing`
  gives the exact bound and when nothing is lost.
- The copy of the rate that guards the credit does not protect it from a rate that is changed and changed back
  (`OnOffRates.RateChangeOverflows`). With rates between two bounds the credit stays within the packet in every run
  exactly when the bounds are close (`OnOffRates.CreditIffCloseRates`).
- `run/mp-onoff-application.h:88` says that no packet is sent once the limit is reached. Every run keeps the limit,
  rounded up to whole packets, exactly when the 64-bit counter can hold it (`OnOffLimit.LimitKeptIff`). Nothing is pending
  at the limit exactly when the application has not been restarted there (`OnOffLimit.QuietIff`): a further start or
  connection success, as in the run of `OnOffLimit.RestartedByConnection`, begins a cycle of empty on and off periods
  that only a stop ends (`OnOffLimit.CyclesWithoutPackets`).
- Writing a patch set and parsing it back fails exactly when a removed line's text starts with `-- ` or an added line's
  with `++ ` (`Patches.RoundTripIff`).
- `run` nests `&&` and `||` to the right. This is what a POSIX shell does exactly for pipe groups joined by `&&` only,
  with directory changes at the head of any group, or by `||` only, with none after the first group
  (`ShellRun.PosixIffUniform`). So `cd d && a || b` agrees, although it has both operators, and `a || cd d && b` does not:
  when `a` returns 0, a shell goes on to run `b`.
- `int2bin` refuses nothing for a width of zero (`Bits.Int2BinZeroWidth`); `lcm` keeps the sign of the product, and
  `reduce_fraction` divides by zero for 0/0 (`Euclid.Lcm`, `Euclid.ReduceFraction`).
- The reset at the start of an episode remembers a total of zero rather than the first record's, so the first reward
  counts everything acknowledged before the second record (`Episode.EpisodeRewards`).
- `store_transition` accepts two observations of different lengths whose sum fits; `learn` reads such a row wrongly
  (`Replay.RecoversIff`).

## Model

| member | source | states |
|---|---|---|
| Graphs.BackwardLasso | bindings/python/topsort.py:108-111 | in a finite set where each node has a parent in the set, every node lies downstream of an elementary cycle inside the set |
| Graphs.OrderedExcludesDownstream | bindings/python/topsort.py:97-112 | nothing downstream of a cycle can be listed after all its parents, at any position of any such list |
| Graphs.LeftoverIsDownstream | bindings/python/topsort.py:108-111 | what a sort leaves over is exactly what lies downstream of some cycle |
| TopSort.CountParents | bindings/python/topsort.py:77-90 | counts of incoming pairs and lists of children of every mentioned node, repeated pairs and self-loops included |
| TopSort.WithoutParents | bindings/python/topsort.py:92-93 | the keys with count zero, each once |
| TopSort.KnockDown | bindings/python/topsort.py:100-103 | each count drops by the child's multiplicity, and exactly the counts that become zero are reported, each once |
| TopSort.TakeOut | bindings/python/topsort.py:97-106 | taking a node out leaves counts and children of the remaining pairs; no dictionary lookup misses |
| TopSort.Advance | bindings/python/topsort.py:97-106 | one round over the growing answer: the listed nodes are again an order and exactly the parentless remaining nodes are listed |
| TopSort.TopSort | bindings/python/topsort.py:61-112 | returns if and only if the pairs are acyclic, then with each mentioned node once and parents first; otherwise the error carries exactly the nodes downstream of a cycle with their remaining counts and children |
| TopSort.LeftoverHasParent | bindings/python/topsort.py:108-111 | each leftover node has a leftover parent |
| TopSort.ChildlessLeftover | bindings/python/topsort.py:109-110 | against the comment there: two pairs that leave over a node without a child |
| TopSort.LeftoverIsStuck | bindings/python/topsort.py:108-111 | the leftover nodes are those downstream of a cycle, with positive counts; there are none if and only if the pairs are acyclic |
| TopSort.NextLevel | bindings/python/topsort.py:203-224 | the parentless nodes after k levels are the nodes whose longest incoming walk has k edges, and appending them keeps an order |
| TopSort.TakeOutLevel | bindings/python/topsort.py:217-224 | taking a whole level out leaves counts and children of the remaining pairs; no lookup misses, because no child of the level is in it |
| TopSort.TopSortLevelsCore | bindings/python/topsort.py:203-232 | level k lists, once each, exactly the nodes at depth k; the concatenated levels are an order; it stops normally if and only if the graph is acyclic |
| TopSort.TopSortLevels | bindings/python/topsort.py:157-172 | the same for a list of pairs |
| TopSort.SameLeftover | bindings/python/topsort.py:226-229 | both sorts leave the same nodes with the same counts |
| FindCycles.IsRotated | bindings/python/rad_util.py:735-775 | true exactly when one list is a rotation of the other |
| FindCycles.RotationTransitive | bindings/python/rad_util.py:761-775 | rotation is transitive, so comparing with one representative is enough |
| FindCycles.AddUnlessRotated | bindings/python/topsort.py:369-378 | the list stays free of non-cycles and of two rotations of one cycle, and covers the new cycle |
| FindCycles.ExpandChild | bindings/python/topsort.py:367-385 | a child closes a cycle that is recorded or extends the path, and the work left shrinks accordingly |
| FindCycles.ExpandPath | bindings/python/topsort.py:355-385 | expanding a popped path records every cycle it closes, pushes every extension, and uses up part of a finite amount of work |
| FindCycles.ExploreFrom | bindings/python/topsort.py:351-385 | the search from one root ends with an empty stack, having found every cycle reachable from the root and marked only reachable nodes |
| FindCycles.ExploredFindsCycle | bindings/python/topsort.py:351-385 | every cycle reachable from a fully explored root is found, because a path to it can be continued once around it |
| FindCycles.CyclesFoundFromReached | bindings/python/topsort.py:346-349 | skipping a visited root loses nothing: its cycles were found from the root that reached it |
| FindCycles.FindCycles | bindings/python/topsort.py:343-385 | on every finite graph each listed list is an elementary cycle, no two are rotations of each other, and every elementary cycle is a rotation of a listed one |
| FindCycles.ListedExactlyOnce | bindings/python/topsort.py:370-378 | every elementary cycle is a rotation of exactly one listed cycle |
| CycleReport.ErrorKeepsEveryCycle | bindings/python/topsort.py:104-111 | the children table of a CycleError has exactly the elementary cycles of the sorted pairs |
| CycleReport.CyclesOfError | bindings/python/topsort.py:104-111 | find_cycles on that table lists every cycle of the pairs and nothing else, and nothing only if there is none |
| WorkerPool.MassStep | test.py:940-1008 | no atomic step of any thread loses, duplicates or relabels a job |
| WorkerPool.InvStep | test.py:940-1008 | every step keeps: jobs before poison in the queue, no worker gone while a real job is queued, poison conserved, only interrupts turn jobs into breaks, counters equal to the tally of what was collected |
| WorkerPool.RunInv | test.py:1318-1351 | those invariants hold in every state of every interleaving with an interrupt at any moment |
| WorkerPool.EachJobInOnePlace | test.py:934-1008 | in every reachable state each job is in exactly one of: to be dispatched, input queue, a worker's hand, output queue, collected |
| WorkerPool.Progress | test.py:1611-1662 | with at least one worker no reachable state is stuck before all results are collected and all workers joined |
| WorkerPool.RunsTerminate | test.py:1611-1662 | however often it is interrupted, no schedule has more than 6n + 3P steps besides the interrupts |
| WorkerPool.FinalAccounting | test.py:1633-1662 | at the end every job has one result, the categories and the interrupted jobs add up to total_tests, and the status is 0 exactly when every job passed or was skipped |
| WorkerResults.ResultsShowCodes | test.py:942-1008 | in every reachable state a job that still waits has drawn no return code, and each of its results shows an interrupt or a skip if it drew none, and else the one code it drew |
| WorkerResults.CodeIsKept | test.py:976-1008 | once a worker finishes a job's command with some code, the job has a result from then on, in the output queue or collected, and the result shows that code |
| WorkerResults.CountersTellCodes | test.py:1633-1662 | at the end passed, failed, valgrind and crashed are the numbers of commands that returned 0, 1, 2 and anything else in the run |
| WorkerResults.StatusTellsCodes | test.py:1633-1662 | at the end every collected job shows the code of its one finished command, an interrupt or a skip; the status is 0 exactly when no job was interrupted and every command returned 0, hence without an interrupt exactly when every command returned 0 |
| WorkerResults.InterruptStopsStarting | test.py:954-957 | once the exit flag is raised no command is started: those that still finish, and those still running, are as many as were running |
| WorkerPool.TestRunner.DispatchJob | test.py:1405-1407 | the main thread's dispatch is the dispatch step |
| WorkerPool.TestRunner.PutBreak | test.py:1611-1614 | one break job per worker, after all dispatches |
| WorkerPool.TestRunner.CollectResult | test.py:1633-1662 | a collected result changes exactly the counter of its category; an interrupted one changes none |
| WorkerPool.TestRunner.JoinNext | test.py:1779-1780 | joins wait for the workers in order |
| WorkerPool.TestRunner.SigintHook | test.py:555-558 | at any moment, any number of times, the hook only raises the exit flag |
| WorkerPool.TestRunner.GetJob | test.py:942-948 | a worker takes the oldest job and exits on a break job |
| WorkerPool.TestRunner.LookAtJob | test.py:954-970 | after an interrupt the job goes back as a break, a skipped job goes back untouched, any other is started |
| WorkerPool.TestRunner.FinishJob | test.py:976-1008 | a finished job goes to the output queue with its return code, as the finish step does; that the code is the command's is WorkerResults.CodeIsKept |
| WorkerPool.TestRunner.Execute | test.py:934-1008 | running the methods in any enabled order ends in the state that the step machine reaches |
| WorkerPool.TestRunner.Status | test.py:1858-1861 | at the end of a run the status is 0 exactly when every collected job passed or was skipped |
| OnOff.DisciplineStep | run/mp-onoff-application.cc:133-307 | every handler keeps: a send is pending only while a stop is |
| OnOff.RunDiscipline | run/mp-onoff-application.cc:133-307 | in every state of every run, rate changes included, a send is pending only with a stop and never with a start |
| OnOff.BitsIsProduct | run/mp-onoff-application.cc:198-199 | the bits that the statements below speak of are time multiplied by rate |
| OnOff.CancelBits | run/mp-onoff-application.cc:191-205 | cancelling a pending send credits at most the bits it lacked, and the 32-bit sum does not wrap |
| OnOff.CreditStep | run/mp-onoff-application.cc:191-243 | at a fixed rate every step keeps the credit within a packet and the pending send due when the missing bits are earned |
| OnOff.CreditBound | run/mp-onoff-application.cc:225-243 | at a fixed rate the credit is at most the packet's bits in every reachable state, so the unsigned subtraction never wraps |
| OnOff.PacketSpacing | run/mp-onoff-application.h:53-67 | on-time between two packets times the rate is the packet's bits or less than k bits more after k cancellations; exactly the packet's bits if and only if no cancellation split a bit, hence always for k = 0 |
| OnOffLongRun.LongRunRate | run/mp-onoff-application.cc:191-295 | over any run at a fixed rate, after N packets of P bits and K cancelled sends, N * P <= rate * time with a send pending <= (N + 1) * P + K |
| OnOffLongRun.HandedOver | run/mp-onoff-application.cc:264-295 | over any run, rate changes included, the bytes handed over are the number of packets sent times the packet size |
| OnOffPeriods.OffPeriodLasts | run/mp-onoff-application.cc:216-252 | when nothing but time, the rate and connections intervenes, sending starts again exactly the drawn off time after it stopped |
| OnOffPeriods.ConnectionWaits | run/mp-onoff-application.cc:298-307 | likewise, after a connection with nothing pending sending starts exactly the drawn off time later |
| OnOffPeriods.RestartWaits | run/mp-onoff-application.cc:168-174 | likewise, after a start of a connected application sending starts exactly the drawn off time later |
| OnOffPeriods.OnPeriodLasts | run/mp-onoff-application.cc:208-262 | an on period that is stopped by its timer has lasted exactly the drawn on time, however many packets were sent in it |
| OnOffRates.CreditAcrossRates | run/mp-onoff-application.cc:195-202 | the arithmetic of one send: scheduled at rate b for some missing bits, and credited at rate a, it earns no more than them whenever it is cancelled, if and only if a * missing < (missing + 1) * b |
| OnOffRates.RatesStep | run/mp-onoff-application.cc:191-243 | while rates stay in a close range, every step, rate changes included, keeps the credit within the packet |
| OnOffRates.RateChangeOverflows | run/mp-onoff-application.cc:191-205 | a run in which the rate is changed and changed back ends with more credit than a packet |
| OnOffRates.FarRatesExceed | run/mp-onoff-application.cc:191-243 | for any two rates that are not close, a run between them that is credited one bit more than a packet |
| OnOffRates.CreditIffCloseRates | run/mp-onoff-application.cc:191-243 | with rates from lo to hi, the credit stays within the packet's P bits in every run if and only if hi * P < (P + 1) * lo |
| OnOffRates.HalfBitLost | run/mp-onoff-application.h:53-67 | against the header: a run whose packet takes half a bit more on-time after one interruption |
| OnOffLimit.RoundUpIsCeiling | run/mp-onoff-application.h:85-93 | the rounded limit is the least multiple of the packet size not below the limit |
| OnOffLimit.LimitStep | run/mp-onoff-application.cc:225-295 | every step at which the 64-bit counter does not wrap keeps it equal to the bytes handed over and on its way to the rounded limit |
| OnOffLimit.LimitReached | run/mp-onoff-application.cc:225-243 | if the counter can hold the rounded limit, no run hands over more, and at the limit exactly that much; after at most one start and one connection success nothing is pending then |
| OnOffLimit.LastPacketNoticed | run/mp-onoff-application.cc:229-229 | the packet that should reach the limit is noticed to, if and only if the 64-bit counter can hold the rounded limit |
| OnOffLimit.LimitExceeded | run/mp-onoff-application.cc:225-295 | if it cannot, a run that sends all packets up to the limit and one more |
| OnOffLimit.LimitKeptIff | run/mp-onoff-application.h:85-93 | no run hands over more than the rounded limit if and only if the 64-bit counter can hold it |
| OnOffLimit.QuietIff | run/mp-onoff-application.cc:133-307 | in every run at the limit, nothing is pending if and only if, of the starts, stops and connection successes since the limit was reached, the last is a stop or there is none |
| OnOffLimit.RestartedByConnection | run/mp-onoff-application.cc:298-307 | a run at the limit with a start pending, after a second connection success |
| OnOffLimit.CyclesWithoutPackets | run/mp-onoff-application.cc:208-243 | past the limit, a restarted application keeps cycling without packets until it is stopped |
| OnOff.MpOnOffApplication.CancelPending | run/mp-onoff-application.cc:191-205 | does what the machine's cancellation does, to every field |
| OnOff.MpOnOffApplication.ScheduleNext | run/mp-onoff-application.cc:225-243 | schedules the next packet below the limit, otherwise stops the application |
| OnOff.MpOnOffApplication.StartOnPeriod | run/mp-onoff-application.cc:208-214 | the start event of the machine |
| OnOff.MpOnOffApplication.StopOnPeriod | run/mp-onoff-application.cc:216-222 | the stop event of the machine; how long the off period then lasts is OnOffPeriods.OffPeriodLasts |
| OnOff.MpOnOffApplication.Send | run/mp-onoff-application.cc:264-295 | the send event of the machine, credit and counter included |
| OnOff.MpOnOffApplication.OnConnected | run/mp-onoff-application.cc:298-307 | the connection step of the machine |
| OnOff.MpOnOffApplication.StartApp | run/mp-onoff-application.cc:133-174 | the start step of the machine |
| OnOff.MpOnOffApplication.StopApp | run/mp-onoff-application.cc:176-189 | cancels everything pending |
| TypeWalk.JoinedInOrder | utils/print-introspected-doxygen.cc:1070-1081 | joining puts each label after a slash, in order: nothing for no label, and the joined parts one after the other for a path in two parts |
| TypeWalk.StaticInformation.GetCurrentPath | utils/print-introspected-doxygen.cc:1070-1081 | the labels of the current path in order, each after a slash (TypeWalk.JoinedInOrder) |
| TypeWalk.StaticInformation.RecordOutput | utils/print-introspected-doxygen.cc:1084-1089 | one record with the current path is appended |
| TypeWalk.StaticInformation.HasAlreadyBeenProcessed | utils/print-introspected-doxygen.cc:1092-1104 | true exactly for a type in progress |
| TypeWalk.StaticInformation.FollowAttributes | utils/print-introspected-doxygen.cc:1173-1212 | follows pointer attributes except those to Object, and container attributes, in order |
| TypeWalk.StaticInformation.FollowChildren | utils/print-introspected-doxygen.cc:1213-1225 | follows the registered children in order |
| TypeWalk.StaticInformation.FollowAggregates | utils/print-introspected-doxygen.cc:1226-1247 | follows the other end of each aggregation in order |
| TypeWalk.StaticInformation.DoGather | utils/print-introspected-doxygen.cc:1164-1248 | ends on any finite type graph, restores both stacks, and appends exactly what the reference walk gathers |
| TypeWalk.PathsAreSimple | utils/print-introspected-doxygen.cc:1164-1248 | the paths the walk takes are exactly the simple edge paths from the root that avoid types in progress |
| TypeWalk.OneRecordPerSimplePath | utils/print-introspected-doxygen.cc:1164-1248 | the walk appends exactly one record per simple path, with its end type and its labels |
| TypeWalk.RecordOfLonger | utils/print-introspected-doxygen.cc:1164-1248 | a path extended by an edge has the record of the shorter path's string, a slash and the edge's label, and the type that the edge leads to |
| TypeWalk.EdgeIff | utils/print-introspected-doxygen.cc:1173-1247 | an edge leads out of a type if and only if it is for a pointer attribute not to Object, a container attribute with its index label, a registered child, or an aggregation with the type on either side |
| ShellParse.EnvRoundTrip | waf-tools/shellcmd.py:24-24 | an assignment of a value without white space is recognised with its name and value |
| ShellParse.Pipeline.CommitCommand | waf-tools/shellcmd.py:101-104 | appends the current command and clears it; fails when there is none |
| ShellParse.Pipeline.TokenStep | waf-tools/shellcmd.py:136-199 | one token does what the six-state machine does, assertion failures included |
| ShellParse.Pipeline.ParseTokens | waf-tools/shellcmd.py:121-201 | the loop over the tokens returns what the machine accepts, or fails where it refuses |
| ShellPrint.ParseIsCanonical | waf-tools/shellcmd.py:121-201 | every accepted token list gives a canonical node list |
| ShellPrint.CanonicalAlternates | waf-tools/shellcmd.py:225-233 | commands and operators alternate strictly and a directory change is last or followed by &&, as the assertions in run need |
| ShellPrint.PrintThenParse | waf-tools/shellcmd.py:121-201 | printing a canonical list, with each command's assignments in any order, and parsing it gives the list back |
| ShellPrint.ParsableIffCanonical | waf-tools/shellcmd.py:121-201 | the lists that parse can return are exactly the canonical ones |
| ShellRun.ExecPipedCommands | waf-tools/shellcmd.py:203-212 | a pipe group's status is its last command's, as in section 2.9.2 of the POSIX.1-2017 Shell Command Language |
| ShellRun.RunEnds | waf-tools/shellcmd.py:214-346 | in terms of the nodes alone: the run ends at a directory change that is last or nameless, or at a command that is last or whose status stops the list; it launches the commands up to there in order, each with its node's words, variables and outputs, reading from the process before it if and only if a pipe leads to it, else from its file if it names one, in the directory that the changes before it lead to |
| ShellRun.EndsOnce | waf-tools/shellcmd.py:214-346 | nodes and statuses determine where a run ends, with what result, and every launch |
| ShellRun.PipesConnect | waf-tools/shellcmd.py:241-243 | on a list that parse can return, a process reads from the one before it if and only if that one writes to a pipe |
| ShellRun.JoinedPaths | waf-tools/shellcmd.py:228-230 | an absolute directory replaces the one so far, and any other is put after it with one slash between |
| ShellRun.Run | waf-tools/shellcmd.py:214-346 | the popping loop returns the result and the launches that the nodes call for (ShellRun.RunEnds), which are those of the recursive evaluator, which nests && and \|\| to the right |
| ShellRun.ParsedIsScript | waf-tools/shellcmd.py:121-201 | what parse returns is the node list of a script, so the loop's contract applies to it |
| ShellRun.UniformAgrees | waf-tools/shellcmd.py:222-346 | with groups joined by && only and directory changes at any head, or by \|\| only and directory changes at the first head, the loop does what section 2.9.3 of the POSIX.1-2017 Shell Command Language says |
| ShellRun.MixedDiffers | waf-tools/shellcmd.py:222-346 | for every other list some statuses make it differ |
| ShellRun.PosixIffUniform | waf-tools/shellcmd.py:222-346 | the loop agrees with POSIX for all statuses if and only if the groups are joined by && only, or by \|\| only with no directory change after the first group |
| Patches.HeaderRoundTrip | utils/check-style.py:193-195 | the pattern reads a written hunk header back: its positions and its two line counts |
| Patches.HeaderCountsWritten | utils/check-style.py:153-195 | the source count in a written header is how many of the written lines after it start with a blank or a minus, and the destination count how many start with a blank or a plus |
| Patches.DecimalIsPositional | utils/check-style.py:193-195 | a written number is the number in decimal notation, place by place |
| Patches.WrittenLine | utils/check-style.py:157-165 | a written line is parsed as itself, and mistaken for a file header exactly when its text looks like one |
| Patches.PatchesBack | utils/check-style.py:221-265 | after any patches already read, the written lines of more patches add exactly these |
| Patches.ScanCounts | utils/check-style.py:230-264 | every line that is no header becomes one line of one hunk |
| Patches.RoundTripIff | utils/check-style.py:215-265 | parsing what was written gives the patch set back if and only if no removed text starts with "-- " and no added text with "++ " |
| PatchObjects.PatchChunk.Write | utils/check-style.py:193-197 | writes the header and the lines; fails exactly when some line was never set |
| PatchObjects.PatchChunk.Src | utils/check-style.py:177-182 | the lines on the source side, in order; which these are among the written lines is Patches.HeaderCountsWritten |
| PatchObjects.PatchChunk.Dst | utils/check-style.py:183-188 | the lines on the destination side, in order |
| PatchObjects.Patch.Write | utils/check-style.py:215-219 | writes what the value model writes for the patch |
| PatchObjects.ParseLine | utils/check-style.py:231-264 | one line updates the objects as the value machine updates the values, with the same failures |
| PatchObjects.ParsePatchset | utils/check-style.py:221-265 | fills fresh objects that represent what the value machine builds, or fails as it fails |
| Bits.Int2BinExact | bindings/python/rad_util.py:74-105 | for at least one bit, refuses exactly the numbers that do not fit, and otherwise gives n bits that bin2int reads back |
| Bits.Int2BinZeroWidth | bindings/python/rad_util.py:96-105 | for zero bits nothing is refused and the unshortened digits are returned |
| Bits.Bin2IntOfBin | bindings/python/rad_util.py:108-130 | bin2int inverts the n-bit notation |
| Bits.BinAt | bindings/python/rad_util.py:90-105 | the k-th character from the right is the k-th binary digit of the number |
| Bits.Ripple | bindings/python/rad_util.py:646-659 | the inner loop adds one to the bits in place and reports the carry exactly on overflow |
| Bits.BinaryRange | bindings/python/rad_util.py:632-660 | for at least one bit, ends with 2^bits strings of which the k-th is int2bin(k, bits); for none, with an empty list |
| Bits.GrayAdjacent | bindings/python/rad_util.py:612-615 | consecutive codes differ in exactly one bit |
| Bits.GrayInRange | bindings/python/rad_util.py:612-615 | a number is below 2^n if and only if its code is |
| Bits.GrayBijection | bindings/python/rad_util.py:612-615 | every number below 2^n is the code of exactly one number, which is below 2^n |
| Bits.GrayBit | bindings/python/rad_util.py:612-615 | each bit of a code is the exclusive or of the number's bit there and the one above |
| Permutations.Permutations | bindings/python/rad_util.py:293-326 | n! lists, which are exactly the rearrangements of the input, without repetition when its items are distinct |
| Permutations.SpreadIsRearrangements | bindings/python/rad_util.py:313-322 | inserting the first item everywhere into the arrangements of the rest gives exactly the rearrangements of the whole |
| Permutations.SpreadDistinct | bindings/python/rad_util.py:313-322 | the insertions never produce a list twice if the item is new |
| Euclid.Gcf | bindings/python/rad_util.py:223-258 | for integers of any sign, ends and gives the greatest common divisor, which is a combination of the two; zero only for two zeros |
| Euclid.Lcm | bindings/python/rad_util.py:260-290 | a common multiple that divides every common multiple, whose product with the gcf is the product of the numbers |
| Euclid.ReduceFraction | bindings/python/rad_util.py:329-348 | a coprime pair of equal ratio that divides every equal fraction, scaled down by the gcf with its signs; an error exactly for 0/0 |
| Replay.RecoversIff | machineLearning/RL_core.py:104-158 | of the rows accepted, the four slices give the transition back if and only if its two observations have the same length |
| Replay.NoFeatures | machineLearning/RL_core.py:146-151 | without features the last slice is the whole row |
| Replay.RefinesStep | machineLearning/RL_core.py:110-114 | storing keeps every row equal to the latest transition whose number is its index modulo the size |
| Replay.RecentIsKept | machineLearning/RL_core.py:110-114 | each of the last memory_size transitions is still in its row |
| Replay.SampledRow | machineLearning/RL_core.py:139-144 | every row that learn may draw has been written and holds one of the last memory_size transitions |
| Replay.DeepQNetwork.DrawableRows | machineLearning/RL_core.py:139-143 | the rows that learn may draw are exactly those in which a transition has been stored |
| Replay.LatestMultiple | machineLearning/RL_core.py:133-136 | the step whose weights the target network has is a multiple of the replacement period, and the latest one |
| Replay.DeepQNetwork.StoreTransition | machineLearning/RL_core.py:104-114 | the memory keeps refining the full history, which grows by the transition; the errors for an empty memory and a wrong length |
| Replay.DeepQNetwork.DrawTargets | machineLearning/RL_core.py:139-160 | each target is that of the transition held by the drawn row: the prediction everywhere except at the action taken |
| Replay.DeepQNetwork.Learn | machineLearning/RL_core.py:128-196 | also: the target network has the weights of the latest step that is a multiple of the replacement period, and the cases in which it fails |
| Records.ExtractObservation | machineLearning/RL_core.py:206-215 | four numbers, zero for an absent subflow; fails exactly for missing fields or a third subflow |
| Records.ObservationAt | machineLearning/RL_core.py:206-215 | a subflow's window stands at twice its number and its congestion window after it; zeros stand for an absent one |
| Records.AckedTotal | machineLearning/RL_core.py:261-286 | the acknowledged total is zero for zeros and changes with each subflow's number by as much |
| Records.SwitchInForce | machineLearning/rl_server.py:254-258 | every record since the latest switch is within the interval of it |
| Records.SwitchesApart | machineLearning/rl_server.py:254-258 | successive switches are more than SwitchInterval apart, and any two are when it is not negative |
| Records.RewardsTelescope | machineLearning/RL_core.py:261-286 | the rewards between two records add up to what was acknowledged between them |
| Records.RewardsSum | machineLearning/RL_core.py:261-286 | all rewards of an episode add up to the latest acknowledged total over 1418 |
| Episode.AnswerKeepsAgreement | machineLearning/rl_server.py:254-268 | the head of the loop keeps every list in agreement and chooses exactly at the records where a switch is due |
| Episode.ReceiveKeepsAgreement | machineLearning/rl_server.py:270-287 | the rest of the loop keeps every list in agreement: recorder keys 0..next_seq_num-1, rewards, stored transitions and the gain since the latest switch |
| Episode.EpisodeRewards | machineLearning/rl_server.py:248-277 | accumulativeReward is the growth of the acknowledged total since the latest switch over 1418, the whole total in the first period; all rewards add up to the latest total |
| Episode.StoredRewards | machineLearning/rl_server.py:276-279 | every stored transition carries the scheduler in force and the sum of the rewards since it was chosen |
| Episode.ActionsSent | machineLearning/rl_server.py:260-268 | the action sent for a record is the scheduler on offer there if a switch is due, and else 999, and the recorder notes the one in force |
| RlServer.Server.ChoiceIs | machineLearning/rl_server.py:261-263 | the scheduler on offer is the learner's choice, or 0 to 3 for RR, RTT, RD and L-DBP when one of them is forced |
| RlServer.DataRecorder.AddOneRecord | machineLearning/rl_server.py:163-189 | keys stay exactly 0..next_seq_num-1; accepted exactly if complete, with the next number and the fields the writers need |
| RlServer.DataRecorder.AddSchedulerToLastRecord | machineLearning/rl_server.py:197-200 | only the latest record changes |
| RlServer.Server.CalculateReward | machineLearning/RL_core.py:261-286 | the reward is the growth of the remembered total over 1418, and the new total is remembered |
| RlServer.Server.Begin | machineLearning/rl_server.py:235-248 | the variables at the start of an episode, whatever an earlier episode left |
| RlServer.Server.Reply | machineLearning/rl_server.py:254-268 | does to the variables what the reference step does; action is set before it is used; fails exactly for an unknown forced scheduler |
| RlServer.Server.Train | machineLearning/rl_server.py:279-282 | storing and learning never fail and keep the memory refining the history |
| RlServer.Server.Receive | machineLearning/rl_server.py:270-287 | does to the variables and the learner what the reference step does; fails exactly for an unusable record |
| RlServer.Server.RunEpisode | machineLearning/rl_server.py:235-287 | an episode completes exactly for usable records and a known forced scheduler, ends with every list in agreement, and has sent at each switch the learner's choice of that turn or the forced scheduler |

## Left out

- The multipath socket itself, real sockets, files, processes, random numbers and the network's training: each is a
  parameter or a nondeterministic result here.
- The stack of the cycle enumerator as a Python generator: cycles are listed rather than yielded one by one, and a
  consumer that changes a yielded cycle while the enumerator runs is not modelled.
- The order in which a dictionary or set is enumerated: any order is allowed, and results are stated for all of them.
- WorkerPool.TestRunner.FinishJob: assumes that the job's command returns; the fields of Job that do not steer its way,
  elapsed times, and the text and XML reports are not modelled. Jobs, workers and hunk lines are values rather than
  objects; each atomic step of a thread is one method.
- OnOff.PacketSpacing: time and rates are exact numbers, not ns-3's 128-bit fixed-point time or a double; a rate of zero,
  setting the byte limit or the PacketSize attribute in mid-run (which can leave more credit than a smaller packet has
  bits) and closing the socket are not modelled.
- OnOffLimit.LimitReached: stated for a 64-bit counter that can hold the rounded limit; OnOffLimit.LimitKeptIff shows
  that this is exactly when the limit is kept.
- WorkerPool.Progress: stated for at least one worker, as the source always means to start; with none, jobs would wait forever.
- TypeWalk.StaticInformation.DoGather: the type registry is a value; aggregation recording and Gather's duplicate removal,
  which works on a copy and so removes nothing, are not modelled.
- ShellParse.EnvRoundTrip: white space is ASCII white space. Splitting a command string into tokens is not modelled, nor
  is running Python with assertions switched off.
- ShellRun.Run: verbose output, failures to open a file or to start a process, and the closing of files are not modelled.
- ShellRun.PosixIffUniform: every directory change succeeds, names a directory, stands at the head of a pipe group and is
  not last; without a name, run raises a TypeError, and as the last node an IndexError (ShellRun.Run).
- Patches.RoundTripIff: names and texts contain no line feed, as lines of a file do not; a hunk line object's
  append_to_line and remove_trailing_whitespace_changes are not modelled.
- Euclid.Gcf: integers only, with Python 2 integer division; floating-point arguments and epsilon are not modelled.
- Permutations.Permutations: for at most one item the source returns the very list it was given; here lists are values.
- Bits.Int2BinExact: numbers are not negative.
- Replay.DeepQNetwork.Learn: network predictions are an arbitrary function of weights and observation, rewards and values
  are exact reals; exploration (epsilon) and cost records are not modelled.
- Records.ExtractObservation: fields are integers; float fields and the splitting of a message into fields are not modelled.
- RlServer.DataRecorder.AddOneRecord: of the file writers only what makes them raise is modelled.
- The ns-3 scripts and modules, plotting and log analysis, the GUI, and build tools other than the pipeline runner.
