# Proofs about the tools around the ns-3 simulator

The repository's algorithms live in its tooling: Python and C++ helpers that sort dependencies, dispatch tests, walk
the type system, run shell pipelines, rewrite patches and index timelines. This project models them in Dafny and
proves what they are meant to guarantee. `dafny verify dfyconfig.toml` checks everything.

| files | what they model |
|---|---|
| `DependencyGraph`, `QueueOrder`, `Topsort`, `SortAgreement`, `Leftovers`, `Dictionaries` | `topsort`, `topsort_levels` and `topsort_levels_core` of `bindings/python/topsort.py`: correct exactly on acyclic input, the two sorts agree, and what they leave over is what lies on or below a cycle |
| `Rotation`, `FindCycles`, `CycleReport` | `find_cycles` with `is_rotated`: every elementary cycle once up to rotation, and what that says about a failed sort |
| `Dispatcher`, `DispatcherInvariant`, `DispatcherTheorems`, `DispatcherInterrupt` | the parallel runner of `test.py`: one main thread, any number of workers, two queues, pills and an interrupt, in every interleaving |
| `TypeGraph`, `Escaping`, `EntryOrder`, `PathGatherer` | class `StaticInformation` of `utils/print-introspected-doxygen.cc`: the path search over a cyclic type graph |
| `ShellSyntax`, `ShellParser`, `ShellPrinter`, `ShellGrammar`, `ShellMeaning`, `ShellReadings`, `ShellFiles`, `ShellRunner` | `Pipeline.parse` and `Pipeline.run` of `waf-tools/shellcmd.py` |
| `PatchText`, `PatchRoundTrip`, `PatchReading`, `PatchObjects` | the unified-diff parser and printer of `utils/check-style.py` |
| `BinaryStrings`, `GrayCode`, `Permutations` | `int2bin`, `bin2int`, `binary_range`, `gray_encode` and `permutations` of `bindings/python/rad_util.py` |
| `LinearScan`, `RangeIndex`, `EventIndex`, `Timeline` | the data classes of `utils/grid.py`, their binary searches, and on exactly which lists these are right |
| `Wrappers`, `Sequences` | what several of the others use |

Most components have three layers: a specification on values (what the answer is, stated without the algorithm), the
methods with loops and mutable state that follow the source step by step and are proved against it, and lemmas that
relate the specification to the promises that span several operations.

Where the code and what is said about it differ, the model follows the code:

- The comment at `bindings/python/topsort.py:109` says that every leftover item has a child. A leftover item may have
  none (`Leftovers.LeftoverWithoutChild`); what holds is that each has a leftover parent (`Topsort.LeftoversStuck`). The
  leftovers are exactly the items on or below a cycle (`Leftovers.LeftoversAreBelowCycles`), and the comment is right
  exactly if each of those has a child (`Leftovers.LeftoversHaveChildrenIff`).
- `run` in `waf-tools/shellcmd.py` returns as soon as an operator short-circuits, so it reads `a && b || c` as
  `a && (b || c)`. The Shell Command Language (section 2.9.3 of POSIX.1) reads it as `(a && b) || c`, which starts `c`
  when `a` fails (`ShellReadings.MixedLineIsReadDifferently`). The two agree on a pipeline for all exit codes exactly if
  it does not mix the operators (`ShellReadings.RunIsLeftAssociativeIff`).
- `parse` accepts a `cd` at the end of a line and a `cd` without a directory; `run` raises an exception on either.
  `ShellMeaning.ReturnsIffGoodChdirs` says exactly when it does not.
- A redirection sign at the very end of a line is read and ignored: `m >` is the command `m` (`ShellGrammar.ParseIff`).
- A removed line that begins with `-- ` is printed as `--- ...`, which parses as a file header, and likewise `++ `.
  `PatchRoundTrip.RoundTrip` gives the exact condition and `PatchRoundTrip.HeaderLookalike` an input.
- `get_ranges` in `utils/grid.py` widens to a prefix or suffix when one end of the window lies in no range, and returns
  nothing when neither does (`RangeIndex.WidenedWindow` is an input). `RangeIndex.FoundIsExactIff` says exactly when the
  answer is the ranges that meet the window.
- Where two ranges touch, or two events share a time, the window at that point returns only one of them
  (`RangeIndex.TouchingRanges`, `EventIndex.EqualTimes`). All windows with covered ends are right exactly if the ranges
  are disjoint and in order (`RangeIndex.CoveredWindowsRightIff`), and all windows of events exactly if the times
  increase (`EventIndex.AllWindowsRightIff`).
- `find_and_replace` in `utils/print-introspected-doxygen.cc` searches on from inside what it has just inserted, so it
  does not end for every pair of strings; `Escaping.EndsIff` says exactly for which it does.
- Without worker threads the runner of `test.py` waits for ever as soon as there is a job
  (`DispatcherTheorems.ReturnsIffStaffed`).

## Model

| member | source | states |
|---|---|---|
| Topsort.BuildMaps | bindings/python/topsort.py:77-90 | the two dictionaries count, for every element, its incoming pairs with multiplicity, and list every parent's children in pair order |
| Topsort.Topsort | bindings/python/topsort.py:77-112 | succeeds iff the pairs have no directed cycle; the answer has each element without unbounded chains above it once, parents before children, by non-decreasing depth and in the order of the queue; a failure carries the exact counts and child lists of the rest, in which every item has a parent and a cycle lies |
| QueueOrder.QueueGrows | bindings/python/topsort.py:97-103 | an item is listed when its last parent is worked on, at its last place in that parent's child list: so the answer is ordered by these two, behind the items without parents |
| QueueOrder.OneOrigin | bindings/python/topsort.py:97-103 | that place is determined by the answer |
| QueueOrder.ChildrenInPairOrder | bindings/python/topsort.py:79-90 | the child list of an item is the scan of the pairs for it, in pair order |
| QueueOrder.CountsPairs | bindings/python/topsort.py:79-87 | the initial count of an item is the number of pairs that lead into it |
| Topsort.CountChildren | bindings/python/topsort.py:100-103 | counting down one parent's children appends exactly those whose last unfinished parent it was |
| Topsort.AppendChild | bindings/python/topsort.py:101-103 | a child that is appended is one level below the parent that freed it, so the work list stays ordered by longest-path depth |
| Topsort.CountDown | bindings/python/topsort.py:100-103 | no count is decremented below zero and no finished item is decremented, for one child |
| Topsort.LeftoversStuck | bindings/python/topsort.py:108-111 | when no item is free, the leftovers are exactly the items with unbounded chains above them, each has a leftover parent, and they are non-empty iff there is a cycle |
| DependencyGraph.CyclicIffUngrounded | bindings/python/topsort.py:108-111 | a parent-closed leftover set is non-empty exactly if the pairs have a cycle, and then holds one |
| DependencyGraph.WalkBack | bindings/python/topsort.py:108-111 | walking from parent to parent among leftovers meets a cycle without repetition |
| Leftovers.UngroundedIffBelowCycle | bindings/python/topsort.py:108-111 | the chains of predecessors of an item are unbounded exactly if it is on a cycle or below one |
| Leftovers.LeftoversAreBelowCycles | bindings/python/topsort.py:97-111 | whatever topsort is given, the items in its error are exactly those on or below a cycle |
| Leftovers.LevelsLeaveTheSame | bindings/python/topsort.py:226-229 | so are those in the error of topsort_levels |
| Leftovers.ErrorDetails | bindings/python/topsort.py:104-111 | the error holds, for exactly the items on or below a cycle, the number of pairs from such items, and for exactly those of them with children, all their children in pair order |
| Leftovers.LeftoversHaveChildrenIff | bindings/python/topsort.py:109-110 | every leftover has a child list exactly if every item on or below a cycle has a child |
| Leftovers.LeftoverWithoutChild | bindings/python/topsort.py:109-110 | for the pairs (a, a), (a, b) the leftover b has none |
| Topsort.TopsortLevels | bindings/python/topsort.py:157-172 | the levels of a pair list: level k is exactly the items at depth k, complete iff acyclic |
| Topsort.TopsortLevelsCore | bindings/python/topsort.py:203-232 | the same from any dictionaries that describe one pair list, including isolated items; on a cycle the remaining counts and lists are those of the unfinished items |
| Dictionaries.ConsistentIffTracked | bindings/python/topsort.py:174-232 | dictionaries describe some pair list exactly if their counts are the occurrences in the child lists |
| Dictionaries.OccurrencesWithout | bindings/python/topsort.py:221-224 | taking one parent's children out lowers each count by its occurrences among them |
| Topsort.FreeMeansAtDepth | bindings/python/topsort.py:203-205 | after k levels an item has no unfinished parent exactly if its longest chain of predecessors has length k |
| Topsort.OneCountLess | bindings/python/topsort.py:217-224 | in the middle of a level every child counted down still has a key and a positive count |
| SortAgreement.SortsAgree | bindings/python/topsort.py:77-232 | cutting the sorted answer by level sizes gives, piece by piece, the same items as the levels; both finish the same items |
| SortAgreement.OutcomesAgree | bindings/python/topsort.py:77-232 | both sorts succeed or both fail, with level-wise equal answers and the same leftover counts and children |
| SortAgreement.PrefixIsShallower | bindings/python/topsort.py:95-106 | the first items of the answer, as many as the first k levels hold, are exactly the items shallower than k |
| Rotation.IsRotated | bindings/python/rad_util.py:761-775 | true exactly if the second sequence is a rotation of the first |
| Rotation.RotationTransitive | bindings/python/rad_util.py:735-775 | being a rotation is transitive, so the duplicate check compares equivalence classes |
| Rotation.RotationSymmetric | bindings/python/rad_util.py:735-775 | and symmetric |
| FindCycles.FindCycles | bindings/python/topsort.py:343-385 | terminates on every finite graph; every yielded list is an elementary cycle, no two are rotations of each other, and every elementary cycle is a rotation of a yielded one |
| FindCycles.SearchFrom | bindings/python/topsort.py:351-385 | from one root: every simple path from the root has been closed in every way when the stack is empty; the visited nodes are ones the root reaches; it terminates because popping a simple path and pushing its simple extensions lowers the work left on the stack |
| FindCycles.ReachedCycleIsKnown | bindings/python/topsort.py:346-385 | a cycle that an exhausted root reaches has been found, wherever the walk enters it |
| FindCycles.CycleIsKnown | bindings/python/topsort.py:346-349 | skipping roots that were already visited loses no cycle |
| FindCycles.AddIfNew | bindings/python/topsort.py:370-378 | the duplicate check appends a cycle exactly if no rotation of it is there |
| CycleReport.SortFailsIffCyclesFound | bindings/python/topsort.py:108-111 | topsort raises on a pair list exactly if find_cycles reports something on its child lists |
| CycleReport.LeftoversKeepTheCycles | bindings/python/topsort.py:104-111 | the child lists in the error have the elementary cycles of the original pairs and no others |
| CycleReport.ReportIsComplete | bindings/python/topsort.py:235-385 | running find_cycles on those lists reports every cycle of the input once, and at least one |
| DispatcherInvariant.StepInv | test.py:908-972 | every move of the main thread or a worker, and the signal at any moment, keeps: each job in exactly one place, pills behind all jobs, a break only with the exit flag up, and no execution of what came back as a break or skipped |
| DispatcherInvariant.RunInv | test.py:908-972 | hence every state of every interleaving has it |
| DispatcherInvariant.NowhereElse | test.py:909-910 | a job that one worker holds is in no queue, with no other worker and not yet collected |
| DispatcherTheorems.NoDeadlock | test.py:1426-1427 | with a worker or no jobs, some thread can move in every reachable state that is not finished |
| DispatcherTheorems.MovesAreBounded | test.py:1180-1569 | every run makes at most 6 moves per job, 4 per worker and 4 more, whatever the interleaving |
| DispatcherTheorems.FinishedRunIsGood | test.py:1407-1569 | when the main thread finishes, each dispatched job was collected exactly once with its own result, each worker took exactly one pill and exited, the six counts add up to the dispatched jobs, and the status is 0 iff all passed or were skipped; without a signal nothing was interrupted |
| DispatcherInterrupt.NothingIsBegun | test.py:922-925 | from any state with the exit flag up: only jobs that a worker was running then are still executed, and every result of a job not begun then is a break |
| DispatcherInterrupt.WaitingIsNotBegun | test.py:909-925 | jobs in the input queue or just taken from it are such jobs |
| DispatcherInterrupt.SignalDivides | test.py:539-542 | against the first signal, a result is a break iff no worker had begun the job |
| DispatcherInterrupt.InterruptedRunFails | test.py:922-1611 | if a job was not begun when the flag was up, the finished run did not execute it, collected it as a break and returns 1 |
| DispatcherInterrupt.ResultsAreReturned | test.py:950-960 | a result that is neither a break nor skipped carries the code that the job's process returned in the run |
| DispatcherTheorems.RunToTheEnd | test.py:1568-1569 | every run can be continued until no thread can move |
| DispatcherTheorems.ReturnsIffStaffed | test.py:1180-1184 | all maximal runs finish exactly if there is a worker or no job |
| DispatcherTheorems.StarvedForEver | test.py:1426-1427 | without a worker the collector waits in every later state |
| DispatcherTheorems.TallyCounts | test.py:1422-1451 | the counters are the numbers of results with each return-code class |
| DispatcherTheorems.TallyAllGood | test.py:1608-1611 | passed + skipped reaches the total exactly if every result is PASS or SKIP |
| DispatcherTheorems.NoSignalNoExit | test.py:539-542 | without a signal the exit flag stays down |
| DispatcherTheorems.Summarize | test.py:1422-1611 | the collecting loop and the exit status over any list of results |
| TypeGraph.AttributeHopsMembers | utils/print-introspected-doxygen.cc:173-199 | the attribute steps from a type: a pointer under the attribute's name, an object vector under the name and "/[i]" |
| TypeGraph.AggregateHopsMembers | utils/print-introspected-doxygen.cc:215-248 | the aggregate steps from a type are its recorded partners on either side, itself if aggregated with itself |
| TypeGraph.RenderFirst | utils/print-introspected-doxygen.cc:109-119 | a path is printed with a slash before every element |
| TypeGraph.ReachableHasOneStep | utils/print-introspected-doxygen.cc:172-248 | the root with the empty path and everything one step away from it is reachable under its spelled label |
| TypeGraph.ChildHopsMembers | utils/print-introspected-doxygen.cc:200-214 | the child steps are the registered descendants |
| PathGatherer.StaticInformation.RecordAggregationInfo | utils/print-introspected-doxygen.cc:93-97 | appends the pair of types |
| PathGatherer.StaticInformation.GetCurrentPath | utils/print-introspected-doxygen.cc:109-119 | the labels on the path, each behind a slash |
| PathGatherer.StaticInformation.RecordOutput | utils/print-introspected-doxygen.cc:121-125 | appends the type with the current path |
| PathGatherer.StaticInformation.HasAlreadyBeenProcessed | utils/print-introspected-doxygen.cc:127-138 | true exactly if the type is an ancestor on the current path |
| PathGatherer.StaticInformation.DoGather | utils/print-introspected-doxygen.cc:164-249 | terminates on any type graph, appends exactly the entries of the specification in order, and leaves the path and the ancestor stack as they were |
| PathGatherer.StaticInformation.Gather | utils/print-introspected-doxygen.cc:155-162 | the output is sorted without duplicates and gains exactly the entries spelled by simple walks from the root; among them the root, and what its pointers, vectors ("/name/[i]"), descendants and aggregates lead to |
| PathGatherer.StaticInformation.GatherAll | utils/print-introspected-doxygen.cc:276-280 | after all roots the output is the sorted duplicate-free union over them |
| PathGatherer.StaticInformation.Get | utils/print-introspected-doxygen.cc:140-153 | exactly the recorded paths of a type, in strictly increasing order |
| PathGatherer.GatheredHasWalk | utils/print-introspected-doxygen.cc:164-249 | every recorded entry is spelled by a walk along real edges that repeats no type |
| PathGatherer.WalkIsGathered | utils/print-introspected-doxygen.cc:164-249 | every walk that repeats no type is recorded |
| PathGatherer.GatheredIsReachable | utils/print-introspected-doxygen.cc:164-249 | a call from outside records exactly the entries of the simple walks from its root |
| Escaping.EndsIff | utils/print-introspected-doxygen.cc:251-261 | for any three strings, the loop ends exactly if there is nothing to replace or the replacement does not hold what is searched for behind its first character |
| Escaping.NeverDone | utils/print-introspected-doxygen.cc:256-260 | otherwise there is an occurrence ahead after any number of turns |
| Escaping.Doubling | utils/print-introspected-doxygen.cc:251-261 | replacing "a" by "aa" in "a" never ends |
| Escaping.FindAndReplace | utils/print-introspected-doxygen.cc:251-261 | in exactly those cases it returns what the turns of the loop lead to, and the left-to-right substitution of every occurrence when none can begin inside a replacement |
| Escaping.MarkColons | utils/print-introspected-doxygen.cc:206-207 | as DoGather calls it, it ends although the replacement contains the search string, and marks every "::" once |
| Escaping.EscapeRoundTrip | utils/print-introspected-doxygen.cc:239-241 | the marks can be taken out again, so distinct names stay distinct |
| EntryOrder.Sort | utils/print-introspected-doxygen.cc:160 | sorted and a permutation |
| EntryOrder.Unique | utils/print-introspected-doxygen.cc:161 | strictly sorted, same members |
| EntryOrder.StringLessIff | utils/print-introspected-doxygen.cc:160 | the string order is by the first difference, a prefix before what it is a prefix of |
| EntryOrder.LessIff | utils/print-introspected-doxygen.cc:160 | the entry order is by type, and for one type by path |
| EntryOrder.SameMembersSameList | utils/print-introspected-doxygen.cc:160-161 | a strictly sorted list is determined by its members |
| PathGatherer.OrderOfRoots | utils/print-introspected-doxygen.cc:276-280 | hence the output depends neither on the order of the roots nor on repeated ones |
| ShellParser.Pipeline.CommitCommand | waf-tools/shellcmd.py:100-103 | appends the current command and clears it, or fails without one |
| ShellParser.Pipeline.ParseTokens | waf-tools/shellcmd.py:120-200 | the token loop over the object's fields computes the state machine's result, or fails exactly when an assertion does |
| ShellGrammar.ParseIff | waf-tools/shellcmd.py:120-200 | parse returns a pipeline iff the tokens spell a lawful line that means it: pieces of bindings, a name, arguments and redirections in any order with at most one of each stream and no redirected output before a pipe, or a cd with at most one directory before && or the end |
| ShellGrammar.AcceptedIff | waf-tools/shellcmd.py:120-200 | parse fails on exactly the token lists that are no lawful line |
| ShellGrammar.ExtendMatches | waf-tools/shellcmd.py:135-198 | one token more extends the line exactly as it moves the machine, or fails in both |
| ShellGrammar.RedirectedIsNotPiped | waf-tools/shellcmd.py:163-166 | m > l \| c is rejected |
| ShellGrammar.BindingIff | waf-tools/shellcmd.py:23 | a binding is a name, '=' and a value without spaces, with at most one newline behind |
| ShellParser.ParsedIsPipeline | waf-tools/shellcmd.py:120-200 | what parse returns alternates items and operators, has piped output exactly where a pipe follows, and only && or the end after a cd |
| ShellPrinter.ShowIsParsed | waf-tools/shellcmd.py:120-200 | every pipeline of that shape is parsed from the line that spells it |
| ShellPrinter.ParserRange | waf-tools/shellcmd.py:120-200 | hence the parser's results are exactly the pipelines of that shape |
| ShellParser.ParseJoined | waf-tools/shellcmd.py:130-200 | parsing line, operator, line gives the two pipelines joined by that operator, with no bindings leaking across |
| ShellParser.StepsBehind | waf-tools/shellcmd.py:135-198 | what was committed before does not influence how later tokens are read |
| ShellMeaning.RunIsRightAssociative | waf-tools/shellcmd.py:213-345 | run starts exactly the commands, and returns exactly the status, of right-associative short-circuit evaluation, a group's status being its last command's |
| ShellMeaning.ReadingsAgreeIffOneKind | waf-tools/shellcmd.py:311-345 | this equals left-associative evaluation for all exit codes iff the chain has only && or only \|\| |
| ShellReadings.RunIsLeftAssociativeIff | waf-tools/shellcmd.py:213-345 | run starts and returns what left-associative evaluation does, for all exit codes, exactly if the pipeline does not mix the operators |
| ShellReadings.MixedLineIsAccepted | waf-tools/shellcmd.py:120-200 | parse accepts a && b \|\| c, as a pipeline that always returns |
| ShellReadings.MixedLineIsReadDifferently | waf-tools/shellcmd.py:329-340 | when a fails, run stops there, where left-associative evaluation starts c |
| ShellMeaning.OneKindAgrees | waf-tools/shellcmd.py:311-345 | with one operator kind both readings run the same commands and return the same status |
| ShellMeaning.MixedDisagrees | waf-tools/shellcmd.py:311-345 | for every mixed chain there are exit codes for which they do not |
| ShellMeaning.ReturnsIffGoodChdirs | waf-tools/shellcmd.py:224-230 | run returns a status for all exit codes iff every cd names a directory and is not last |
| ShellMeaning.FailsOnChdir | waf-tools/shellcmd.py:224-227 | the exception from an empty list comes from a cd at the end, the other from a cd without a directory before it |
| ShellMeaning.PipesMeet | waf-tools/shellcmd.py:241-256 | in every run that returns, a process reads a pipe iff its predecessor writes one, the first reads none, the last writes none |
| ShellRunner.ExecPipedCommands | waf-tools/shellcmd.py:202-211 | waits for all commands of a group in order; the status is the last one's |
| ShellRunner.OpenStream | waf-tools/shellcmd.py:251-273 | opens the named file, uses the shared null device for its names, and records what must be closed |
| ShellRunner.Start | waf-tools/shellcmd.py:241-290 | opens the files of one command and gives its process the right input, outputs, bindings and directory |
| ShellRunner.Run | waf-tools/shellcmd.py:213-345 | for every parsed pipeline and all exit codes: the processes, their inputs, outputs, bindings and directories, the files opened and the ending are those of the meaning, and every handle is that of the file it names; no assertion of the loop fails and `piped_commands[-1]` exists whenever it is read; whenever a status is returned each started process was waited for and each opened file closed exactly once |
| ShellFiles.StartedHaveRightFiles | waf-tools/shellcmd.py:241-288 | every process of a run has its own arguments and bindings, the directory of the cds before it, the file its input names opened for reading, the files its outputs name opened for writing or the null device, and every opened file is given to exactly one stream |
| ShellFiles.CatExample | waf-tools/shellcmd.py:244-259 | cat < xxx > out reads the first opened file and writes the second |
| ShellRunner.CommandStarted | waf-tools/shellcmd.py:288-345 | after one more start the run either stops as the meaning says or continues behind the operator |
| PatchText.DecimalRoundTrip | utils/check-style.py:172-196 | int of a printed header number gives the number |
| PatchText.DecimalExample | utils/check-style.py:172-196 | the digits are decimal, the most significant first |
| PatchRoundTrip.RoundTrip | utils/check-style.py:158-266 | parsing what was written gives the patch set back iff no text holds a newline, no removed line begins with "-- " and no added one with "++ " |
| PatchRoundTrip.FileRoundTrip | utils/check-style.py:216-266 | the same when the writes are joined into a file and read back line by line |
| PatchRoundTrip.ParsedIsWellFormed | utils/check-style.py:222-266 | every parse result meets that condition |
| PatchRoundTrip.ParseWriteParse | utils/check-style.py:158-266 | parse, write, parse is parse, for any text |
| PatchRoundTrip.HeaderIsRecognised | utils/check-style.py:190-196 | a written chunk header parses to the chunk's positions, with the number of lines not only on the destination side and the number not only on the source side |
| PatchRoundTrip.SidesByKind | utils/check-style.py:154-193 | each side is the scan for the lines that are not only on the other, and has all lines but those |
| PatchRoundTrip.ChunkExample | utils/check-style.py:158-198 | the text of a chunk with one line of each kind |
| PatchReading.ClassifyIff | utils/check-style.py:223-264 | what a line is taken for, by its text: with the tests in the parser's order, an optional newline at the end, and anything behind a chunk header |
| PatchReading.ChunkStartIff | utils/check-style.py:225-242 | a chunk header is any spelling of the four numbers between the fixed signs |
| PatchReading.AcceptedIff | utils/check-style.py:222-266 | a text is accepted iff every line is recognised, "+++" lines and chunk headers come after some "---" line, and body lines after some chunk header |
| PatchReading.ParsedIsBackwards | utils/check-style.py:229-266 | for every accepted text: a body line belongs to the last chunk header before it, even one of an earlier file, a chunk to the last "---" line, and the last "+++" line of a file names its other side |
| PatchRoundTrip.HeaderLookalike | utils/check-style.py:158-161 | a removed line that comes back as a file header |
| PatchObjects.PatchChunk.Src | utils/check-style.py:178-183 | the lines of the source side in order: the scan for those that are not only on the destination side |
| PatchObjects.PatchChunk.Dst | utils/check-style.py:184-189 | the lines of the destination side in order: the scan for those that are not only on the source side |
| PatchObjects.PatchChunk.Write | utils/check-style.py:194-198 | the writes to the file are the header and the lines in order |
| PatchObjects.Patch.Write | utils/check-style.py:216-220 | the writes to the file are the text of the patch |
| PatchObjects.ParsePatchset | utils/check-style.py:222-266 | the loop fails exactly when a line fits nothing or comes before its patch or chunk; otherwise the objects it built are separate and hold the parsed values |
| PatchObjects.Rewrite | utils/check-style.py:158-266 | parse, write, parse on objects: the second result holds the values of the first |
| BinaryStrings.Int2BinCorrect | bindings/python/rad_util.py:74-105 | for any two integers: a negative i is a KeyError; otherwise the conversion fails iff i does not fit the printed width, and gives the digits of i in that width, which bin2int maps back to i |
| BinaryStrings.Int2BinWidths | bindings/python/rad_util.py:97-105 | for n >= 1 it fails iff i >= 2^n and gives n digits; for n = 0 all hexadecimal digits are printed |
| BinaryStrings.BinaryIsBitString | bindings/python/rad_util.py:108-130 | a binary string is determined by its length and its value |
| BinaryStrings.MappedValue | bindings/python/rad_util.py:92-97 | mapping hexadecimal digits to four bits each keeps the value |
| BinaryStrings.Increment | bindings/python/rad_util.py:648-659 | the in-place ripple carry adds one, and the last toggle is set exactly on overflow |
| BinaryStrings.BinaryRange | bindings/python/rad_util.py:632-660 | terminates with 2^bits strings for bits >= 1, the k-th being int2bin(k, bits); none for bits = 0 |
| GrayCode.XorBit | bindings/python/rad_util.py:615 | the recursive exclusive or is the bitwise one |
| GrayCode.EncodeBit | bindings/python/rad_util.py:612-615 | every digit of a code tells whether the number's digit differs from the next higher one |
| GrayCode.EncodeIsBijective | bindings/python/rad_util.py:612-615 | for every n, encoding maps [0, 2^n) one-to-one onto itself |
| GrayCode.DecodeEncode | bindings/python/rad_util.py:612-615 | a decoder undoes the encoding |
| GrayCode.EncodeDecode | bindings/python/rad_util.py:612-615 | and the encoding undoes the decoder |
| GrayCode.SuccessorsDifferInOnePlace | bindings/python/rad_util.py:612-615 | the n-bit strings of the codes of i and i + 1 differ in exactly one position |
| GrayCode.WrapsRound | bindings/python/rad_util.py:612-615 | so do those of the last and the first number, in the leading digit |
| Permutations.Permutations | bindings/python/rad_util.py:293-326 | the recursive method with its nested loops returns the specified list of orders |
| Permutations.OrdersAreRearrangements | bindings/python/rad_util.py:293-326 | a list is among the results exactly if it has the input's multiset of items |
| Permutations.OrdersAt | bindings/python/rad_util.py:310-322 | the order of the results: for each order of the rest in turn, the first item at every place from the front |
| Permutations.OrdersCount | bindings/python/rad_util.py:293-326 | there are n! results |
| Permutations.OrdersDistinctIff | bindings/python/rad_util.py:293-326 | the results are pairwise distinct exactly if the items are |
| Timeline.TimelineDataRange.AddRange | utils/grid.py:62-63 | appends the range |
| Timeline.TimelineDataRange.Search | utils/grid.py:49-61 | the loop computes the search function on any list: an index whose range holds the key, or -1; on ranges in order, even touching ones, -1 only if no range does |
| Timeline.TimelineDataRange.GetRanges | utils/grid.py:66-76 | on any list the slice between the two searches; on disjoint ranges in order the four cases as linear scans, also for a window that ends before it starts |
| Timeline.TimelineDataRange.GetRangesBounds | utils/grid.py:77-87 | the same window as indices |
| Timeline.TimelineDataRange.Sort | utils/grid.py:88-89 | sorting keeps the ranges, those with one start in their order, and turns any list of pairwise disjoint ones into one the windows are right for |
| LinearScan.SortedIsStable | utils/grid.py:88-125 | the sort is stable: elements with the same key keep their order |
| Timeline.TimelineDataRange.GetBounds | utils/grid.py:90-96 | on disjoint ranges in order, bounds that enclose all of them, reached by the first and the last |
| RangeIndex.RangeAtCovers | utils/grid.py:49-61 | on ranges in order, touching or not, the search finds a key exactly if it is covered |
| RangeIndex.BetweenIsFound | utils/grid.py:66-87 | on disjoint ranges in order the window is the linear scan of its case, for any two ends |
| RangeIndex.FoundIsExactIff | utils/grid.py:66-76 | the answer is exactly the ranges that meet the window iff the open side, if any, holds nothing else |
| RangeIndex.WidenedWindow | utils/grid.py:71-72 | a window whose start is not covered, and the range before it that comes back |
| RangeIndex.CoveredWindowsRightIff | utils/grid.py:66-87 | on proper ranges, whatever their order, every window with covered ends is right iff the ranges are disjoint and in order |
| RangeIndex.AllWindowsFoundIff | utils/grid.py:66-87 | and every window at all is the linear scan of its case iff they are |
| RangeIndex.SharedPoint | utils/grid.py:66-87 | two ranges that hold one point make the window at that point wrong, whatever the rest of the list |
| RangeIndex.TouchingRanges | utils/grid.py:66-76 | [0, 1] and [1, 2]: only the first comes back at 1 |
| RangeIndex.AdjoiningWindow | utils/grid.py:77-87 | on touching ranges a window with covered ends holds only ranges that meet it, and all that share more than an end point |
| Timeline.TimelineEvent.AddEvent | utils/grid.py:114-115 | appends the event |
| Timeline.TimelineEvent.Search | utils/grid.py:101-113 | the loop computes the search function on any list; on events in order nothing before the index is later than the key and nothing from it on is earlier, and it hits an event at the key iff there is one |
| Timeline.TimelineEvent.GetEvents | utils/grid.py:116-119 | on any list the slice between the two searches; on increasing times the events in the window, and the next one after it exactly if the window does not end at an event |
| Timeline.TimelineEvent.GetEventsBounds | utils/grid.py:120-123 | the same window as indices; on increasing times they count earlier events |
| Timeline.TimelineEvent.Sort | utils/grid.py:124-125 | sorting keeps the events, those at one time in their order, and makes events at different times strictly increasing |
| Timeline.TimelineEvent.GetBounds | utils/grid.py:126-132 | on events in order, bounds that enclose all times, reached by the first and the last |
| EventIndex.EventWindow | utils/grid.py:116-119 | on increasing times the window is the linear scan and at most one event more, for any two ends |
| EventIndex.AllWindowsRightIff | utils/grid.py:116-119 | on any list, every window is the scan and at most one event more iff the times increase |
| EventIndex.SharedTime | utils/grid.py:116-119 | two events at one time make the window at that time wrong, whatever the rest of the list |
| EventIndex.EqualTimes | utils/grid.py:116-119 | two events at 1: only the first comes back at 1 |
| EventIndex.WindowInOrder | utils/grid.py:116-123 | with equal times, all events strictly inside the window are in it, and only the last one of the answer can be outside |

## Left out

- The simulator core (`src/`) is not part of this model, and neither are the example, sample and benchmark programs, which only configure its objects.
- Generators: `find_cycles` and `topsort_levels_core` are modelled as returning the list of what they yield; a caller that changes the dictionaries between two items is not modelled. `topsort_levels_core` mutates its arguments, which here are returned.
- Rotation.IsRotated: two empty sequences are excluded, since the source indexes the first item of the second one and raises.
- Dispatcher: job lists, shell commands, XML and HTML output and valgrind are not modelled; every job execution is taken to return some code, and each thread's moves between queue operations are atomic.
- PathGatherer: the TypeId class is a registry that answers names, attributes, registration order and inheritance, with pointer and vector attributes leading to registered types; `TypeId::operator<` is an order on numbers.
- EntryOrder.Sort: stands for `std::sort` of the C++ library with an insertion sort of its own; likewise LinearScan.Sorted for Python's `list.sort`.
- Shell: exit codes are a parameter indexed by position; `shlex`, `os.path.join` (directories are kept as a list), failures of `open` and `Popen`, the inherited environment and platform null devices beyond their two names are not modelled. Streams carry names, not contents.
- ShellRunner.Run: verbose printing is left out; on the && and || paths it reads a variable before its first assignment.
- `Pipeline.get_abbreviated_command`: its || branch can never be taken, and it only formats.
- Patches: `remove_trailing_whitespace_changes`, `indent` and `append_to_line` are left out (shared line objects and external tools), and so are lines whose type was never set; a PatchChunkLine is a value, since the parser and the writers never change one after it is added.
- BinaryStrings.Int2BinCorrect: where n is so negative that no digit is printed, bin2int of the empty string is taken as 0; Python raises an exception there.
- Permutations: the source returns the very input list for at most one item; identity of list objects is not modelled.
- `gcf`, `lcm`, `reduce_fraction` and the floating-point, random and introspection code of `rad_util.py`.
- RangeIndex.FoundIsExactIff: for windows that do not end before they start.
- Times are integers, and a range whose end is before its start has no meaning of its own. Rendering, layout and mouse handling of `grid.py` are left out.
- Binding generation, the other build tools and `wutils.py`.
