# Verified models of ns-3's tooling algorithms

This project models the algorithms inside the scripts and utilities that surround the ns-3
simulator, and proves what they compute for every input, every run and every interleaving.

- **`LabelledWalks.dfy`, `TypePaths.dfy`**: the depth-first walk of `print-introspected-doxygen` over
  the registered types. The type registry is an arbitrary finite labelled graph, cycles included.
  The walk pushes and pops two stacks in place; it is proved to record, in lexicographic edge order,
  exactly one entry for each labelled path that repeats no type.
- **`Sequences.dfy`, `Totals.dfy`**: shared notions: duplicates, options, and sums over sequences.
- **`WorkerPool.dfy`, `TestReport.dfy`**: the pool of worker threads of `test.py` as a
  state machine whose steps interleave freely with an asynchronous interrupt, and the tallies kept
  while results are collected. Conservation of jobs, absence of deadlock, a bound on the length of
  every run, and the meaning of the exit code follow.
- **`DependencyOrder.dfy`**: the batch-by-batch dependency sort of the Python bindings. The recursion
  has no test for cycles; it is proved to end exactly on closed acyclic tables, with every library in
  the step that equals the length of its longest dependency chain.
- **`Text.dfy`, `StyleChecker.dfy`, `StylePasses.dfy`**: the line fixers of the style checker under
  formatting guards, on the text of whole files, including the string operations that they use.
- **`BenchStatistics.dfy`, `Fairness.dfy`**: Welford's online variance, and Jain's index in wrapping
  64-bit arithmetic.
- **`Throughput.dfy`, `TrainingData.dfy`, `PolicyDecider.dfy`, `BufferWriter.dfy`, `Timeline.dfy`**:
  one-pass bucketing, chunked reduction and random segmentation, the lagging capacity pointer and
  window partition, the callback-driven cyclic buffer writer, and binary search on timelines.

Code that changes state in place is modelled by classes, methods and loops; each is proved against a
specification function, and the properties of that function are proved as lemmas beside it.

## Conventions

- Floating-point values are exact `real` numbers, and timeline positions are `int`. The byte counters
  of the fairness example wrap explicitly at 2^64.
- In `WorkerPool`, one step is one queue operation, one decision about a job, one run of a job or one
  join. `isExample` stands for `is_example or is_pyexample`. The job that a worker runs returns an
  arbitrary outcome. A negative process limit leaves no workers; `SomeRunEndsIff` says when a run can
  end at all.
- In `DependencyOrder`, the interpreter's recursion limit is the parameter `limit`, counted in frames
  of `dependency_order`; `None` stands for the recursion error. `steps` starts empty, as it does for
  the only call there is.
- In `StyleChecker`, a file's content is its text after line ends have become newline characters.
- In `Fairness`, one object stands for one of the three groups of counters; the number of flows, 10 or
  20 in the source, is arbitrary.
- In `Throughput`, the number of rows stands for `int(total_time / interval)`.
- In `TrainingData`, `None` stands for a file that cannot be processed. The random start of a segment
  is any number in the range that is drawn from; that this range is never empty is part of the proof.
  The segment length is positive, as the sum of two positive context lengths is; for length zero the
  loop would never end.
- In `BufferWriter`, `Send` refuses with a negative amount or accepts at least one byte and no more than
  it was offered. Any room may be left afterwards.
- In `Timeline`, sortedness is a precondition, because `sort` hands a two-argument comparator to a
  method that no longer takes one.

## What the proofs found

- A suite that fails by its return code and by its XML file is on the list of failed jobs twice
  (`TestReport.ListedOnceOrTwice`).
- With no workers and at least one job, `run_tests` never gets past collecting; in every other case every run
  ends (`WorkerPool.SomeRunEndsIff`, `WorkerPool.EveryRunCompletes`).
- On a cyclic or incomplete dependency table the sort exhausts every recursion limit (`DependencyOrder.SortEndsIff`,
  with the tables of `TwoThatWait` and `OneThatLacks`).
- Expanding tabs can create a guard, so a second fixing pass may check fewer lines than the first. It
  still finds nothing to fix (`StylePasses.TabbedGuard`, `StylePasses.SecondPassMayCheckFewer`, `StylePasses.FixingSettles`).
- The printed fairness is Jain's index exactly when its denominator fits 64 bits or wraps in the same proportion as
  the numerator, to something other than zero (`Fairness.PrintedIsJainIff`). Ten equal flows of 2^32 bytes print "not
  a number" in the place of 1 (`Fairness.EqualFlowsMayPrintNaN`); one flow of 2^33 + 1 bytes overflows and prints 1
  (`Fairness.OverflowMayBeHarmless`).
- Files left over when the threads do not divide their number are dropped (`TrainingData.NothingIsDroppedIff`,
  `TrainingData.OneFileTwoThreads`).
- The capacity pointer lags whenever two breakpoints pass between consecutive samples (`PolicyDecider.PointerIsRightIff`,
  `PolicyDecider.SkippedBreakpoint`).
- Arrivals listed out of row order are miscounted, and only then (`Throughput.RowsAreRightIff`, `Throughput.ReversedArrivals`).
- Ranges strictly inside an interval with uncovered ends are missed, and with one end uncovered too many
  ranges may be found; `Timeline.ExactWhen` is the exact condition, decided from the list alone.
- An event after the end of an interval is returned unless there is an event at the end or none after it
  (`Timeline.FoundNoneAfter`), and events that share the time of an end may be left out (`Timeline.TwinIsMissed`);
  `Timeline.BoundsAreExactIff` is the exact condition.

## Model

| member | source | states |
|---|---|---|
| LabelledWalks.GatheredIsEverySimpleRoute | utils/print-introspected-doxygen.cc:448-531 | from empty stacks the walk records one entry, end type and path string, for each route that repeats no type, none missing and none extra, in strictly increasing lexicographic edge order |
| LabelledWalks.WalksAreSimple | utils/print-introspected-doxygen.cc:448-531 | a route is met from a type with a given set of types on the stack if and only if it is a route of the graph that repeats no type and avoids that set |
| LabelledWalks.WalksAreOrdered | utils/print-introspected-doxygen.cc:448-531 | routes are met in strictly increasing lexicographic order |
| LabelledWalks.GatheredIsWalks | utils/print-introspected-doxygen.cc:448-531 | the entries recorded by a nested call are the routes it meets, with their labels appended to the path that led to it |
| LabelledWalks.RouteStep | utils/print-introspected-doxygen.cc:476-480 | along a route each label and each next type is that of the edge taken |
| LabelledWalks.PathStringCons | utils/print-introspected-doxygen.cc:360-370 | a path string is a slash, the first label and the path string of the rest |
| LabelledWalks.PathStringConcat | utils/print-introspected-doxygen.cc:360-370 | path strings are put together as paths are |
| LabelledWalks.PathsFromAllRoots | utils/print-introspected-doxygen.cc:586-590 | after gathering from any number of roots into one list, the paths looked up for a type are, root by root, those of the simple routes that end at it, once each, in route order |
| LabelledWalks.PathsToAreRoutes | utils/print-introspected-doxygen.cc:439-445 | the paths looked up for a type after gathering from one root are those of the simple routes that end at it, once each, in route order |
| TypePaths.EdgesAreLinks | utils/print-introspected-doxygen.cc:456-530 | an edge is followed if and only if it is a pointer attribute other than to the base object type, a container attribute, a registered child, or a recorded aggregation in either direction |
| TypePaths.EdgesInOrder | utils/print-introspected-doxygen.cc:456-530 | the list of followed edges as such: one for each attribute that is a container or a pointer to more than the base object type, by position, then one for each registered child, by registration, then one for each aggregation that mentions the type, in order, and no others |
| TypePaths.StaticInformation.constructor | utils/print-introspected-doxygen.cc:306-324 | a new object has recorded nothing and its stacks are empty |
| TypePaths.StaticInformation.RecordAggregationInfo | utils/print-introspected-doxygen.cc:328-348 | a pair of registered names is added as an aggregation of those types; otherwise only the first unregistered name is noted and nothing is aggregated |
| TypePaths.StaticInformation.GetCurrentPath | utils/print-introspected-doxygen.cc:360-370 | the stacked labels, each after a slash |
| TypePaths.StaticInformation.RecordOutput | utils/print-introspected-doxygen.cc:372-377 | one entry is appended and nothing else changes |
| TypePaths.StaticInformation.HasAlreadyBeenProcessed | utils/print-introspected-doxygen.cc:379-391 | true if and only if the type is on the stack |
| TypePaths.StaticInformation.Get | utils/print-introspected-doxygen.cc:393-406 | the recorded paths of the type, in order of recording |
| TypePaths.StaticInformation.Gather | utils/print-introspected-doxygen.cc:439-445 | appends the entries of a walk from empty stacks and leaves the stacks empty |
| TypePaths.StaticInformation.GatherAll | utils/print-introspected-doxygen.cc:586-590 | gathering from root after root collects the entries of each walk, in order, and leaves the stacks empty |
| TypePaths.StaticInformation.DoGather | utils/print-introspected-doxygen.cc:447-531 | terminates on every finite graph, restores both stacks on every return, and appends the entries of the specification, whose edges are those of `EdgesInOrder`; each nested call finds stacks of equal length, without duplicates, labelling a path of real edges to its type |
| TypePaths.StaticInformation.GatherAttributes | utils/print-introspected-doxygen.cc:456-496 | follows each attribute edge once, in the order of the attributes (`AttributeEdgesInOrder`), and restores the stacks |
| TypePaths.AttributeEdgesInOrder | utils/print-introspected-doxygen.cc:456-496 | one edge for each attribute that is followed, each once, by position |
| TypePaths.StaticInformation.GatherChildren | utils/print-introspected-doxygen.cc:497-509 | follows the edges to registered children in order and restores the stacks |
| TypePaths.StaticInformation.GatherAggregates | utils/print-introspected-doxygen.cc:510-530 | follows the aggregations that mention the type in order and restores the stacks |
| TypePaths.StaticInformation.Descend | utils/print-introspected-doxygen.cc:476-480 | push, recursive call and pop: adds the entries behind one edge and restores the stacks |
| WorkerPool.InitInv | test.py:1523-1564 | the state before dispatching satisfies the invariant |
| WorkerPool.NextConserves | test.py:1024-1108 | any step of any thread keeps the total weight of the jobs to do, queued, held by workers, in the output queue and collected, for every weight |
| WorkerPool.NextInv | test.py:1024-1108 | every step keeps: each job is in exactly one place, sentinels are a suffix of the input queue and none is lost, no worker leaves while a job is queued, unrun jobs come back only after an interrupt and skipped jobs are not run |
| WorkerPool.AfterInv | test.py:1583-1848 | the invariant holds after every interleaving |
| WorkerPool.WorkerReady | test.py:1868-1871 | when the main thread waits for a result or for a worker to leave, some worker can take a step |
| WorkerPool.NeverStuck | test.py:1868-1871 | until the run is over some thread can always take a step, without an interrupt |
| WorkerPool.NextIsCloser | test.py:1024-1108 | every step of every thread strictly lowers a natural measure |
| WorkerPool.ScheduleIsBounded | test.py:1024-1108 | no run is longer than that measure |
| WorkerPool.DoneIsComplete | test.py:2020-2021 | once all workers are joined each job has been collected as often as it was dispatched and both queues are empty |
| WorkerPool.EveryRunCompletes | test.py:1561-2021 | with a worker or nothing to do, for every interleaving: at most 6 steps for each job and each worker and 5 more, stuck exactly when over, and then every dispatched job collected exactly once and every worker gone |
| WorkerPool.CollectedWeighsTheSame | test.py:1868-1871 | for every weight on jobs, what a finished run collected weighs what was dispatched |
| WorkerPool.ResultsAreRuns | test.py:1060-1108 | along every interleaving, the results that are neither unrun nor skipped grow by exactly what running jobs returns, for every weight on jobs and outcomes |
| WorkerPool.CollectedResultsAreRuns | test.py:1060-1108 | in a finished run the collected results of jobs that were run are exactly those that running them returned, job by job and outcome by outcome |
| WorkerPool.InterruptStopsRuns | test.py:1034-1041 | after an interrupt only the jobs already running are run, at most one for each worker, in every interleaving |
| WorkerPool.UnbrokenAreRuns | test.py:1038-1051 | after an interrupt the results without a break flag, wherever they are, grow by exactly the jobs that are run, so a job taken afterwards comes back broken even if it was to be skipped |
| WorkerPool.AllBroken | test.py:1038-1041 | if the interrupt comes before any worker decides about a job, every job comes back broken |
| WorkerPool.TakenInOrder | test.py:1026 | jobs are taken in the order in which they were dispatched: what no worker has taken yet is always the end of the plan |
| WorkerPool.CollectedInOrder | test.py:1868-1869 | results are collected in the order in which workers put them |
| WorkerPool.NoInterruptNoBreak | test.py:1038-1041 | without an interrupt no job in the output queue or among the collected ones came back unrun |
| WorkerPool.NoWorkersNoEnd | test.py:1550-1564 | with no workers and something to do no run gets past collecting |
| WorkerPool.SomeRunEndsIff | test.py:1550-2021 | some run ends if and only if there is a worker or nothing to do |
| WorkerPool.TestRun.constructor | test.py:1523-1564 | queues empty, workers waiting, everything still to dispatch |
| WorkerPool.TestRun.StepMain | test.py:1845-1869 | the main thread's step on the shared queues is its step of the state machine |
| WorkerPool.TestRun.StepWorker | test.py:1024-1108 | a worker's step on the shared queues is its step of the state machine |
| WorkerPool.TestRun.SigintHook | test.py:591-597 | the handler sets the flag and changes nothing else |
| WorkerPool.TestRun.Run | test.py:1561-2021 | running the threads in any interleaving terminates in a complete state |
| TestReport.Report.Collect | test.py:1868-2013 | collecting one more result keeps all tallies and the list of failed jobs equal to their definitions |
| TestReport.Report.CollectStatus | test.py:1878-1904 | a skipped job is counted as skipped, any other by its return code: 0 passed, 1 failed, 2 valgrind error, all others crashed; it is left on the list of failed jobs exactly when the code is not 0 |
| TestReport.Report.CollectXml | test.py:1986-2013 | a suite stays on the list unless its return code is 0, 1 or 2 and the XML file it left says PASS or SKIP |
| TestReport.Report.CollectAll | test.py:1860-2013 | after the loop the tallies are the counts over all results |
| TestReport.Report.ExitCode | test.py:2130-2133 | 0 if and only if no result was interrupted and every one was skipped or returned 0; otherwise 1 |
| TestReport.TalliesAddUp | test.py:1860-1904 | the five tallies and the interrupted jobs add up to the number of results |
| TestReport.TalliesCount | test.py:1870-1904 | the jobs that each tally counts, by break flag, skip flag and return code |
| TestReport.AllPassedOrSkipped | test.py:2130-2133 | passed and skipped add up to the number of results exactly when none was interrupted and each was skipped or returned 0 |
| TestReport.ListedOnceOrTwice | test.py:1883-2007 | a result is listed as failed once for a return code other than 0 and once for a suite whose XML file does not clear it, and no other result is listed |
| TestReport.FailedJobsConcat | test.py:1884-2007 | the list of failed jobs follows the order of the results |
| TestReport.FinishedRun | test.py:1561-2133 | in every finished run of the pool the tallies and the interrupted jobs add up to the dispatched jobs, and passed and skipped make up all of them exactly when none was interrupted and each was skipped or returned 0; without an interrupt exactly the jobs to be skipped were skipped, and with one before any worker decides all are interrupted |
| DependencyOrder.Batch | bindings/python/ns__init__.py:425-436 | the batch holds exactly the pending libraries all of whose dependencies were taken |
| DependencyOrder.BatchInOrder | bindings/python/ns__init__.py:425-436 | a batch keeps the pending order, each library once and by position |
| DependencyOrder.WithoutConcat | bindings/python/ns__init__.py:449 | what stays pending keeps its order |
| DependencyOrder.BatchesAreRun | bindings/python/ns__init__.py:438-453 | the recursion ends with certain batches exactly when they empty the pending list and are fewer than the limit |
| DependencyOrder.Stuck | bindings/python/ns__init__.py:425-453 | if nothing pending can be loaded, a pending library lacks a dependency or the pending ones contain a cycle, and either is exhibited |
| DependencyOrder.RunExists | bindings/python/ns__init__.py:438-453 | with closed acyclic dependencies the pending list is emptied, in no more steps than there are libraries |
| DependencyOrder.RunNeedsOrder | bindings/python/ns__init__.py:438-453 | if the pending list is emptied, dependencies were closed and acyclic |
| DependencyOrder.SortEndsIff | bindings/python/ns__init__.py:438-453 | some recursion limit suffices if and only if dependencies are closed and acyclic, and then one more than the number of libraries does |
| DependencyOrder.TwoThatWait | bindings/python/ns__init__.py:438-453 | for two libraries that depend on each other no recursion limit suffices |
| DependencyOrder.OneThatLacks | bindings/python/ns__init__.py:438-453 | nor for one that depends on a library that is not there, without any cycle |
| DependencyOrder.SortIsLayered | bindings/python/ns__init__.py:425-460 | the result is a permutation of the libraries, each after all its dependencies, each in the step that is the length of its longest dependency chain |
| DependencyOrder.RunIsPermutation | bindings/python/ns__init__.py:445-460 | the batches together are a rearrangement of the pending libraries |
| DependencyOrder.RunIsOrdered | bindings/python/ns__init__.py:445-460 | every dependency stands before the library in the flattened result |
| DependencyOrder.RunStepIsDepth | bindings/python/ns__init__.py:438-453 | a library taken in a step has a dependency chain of that length and no longer one |
| DependencyOrder.StepsAreMinimal | bindings/python/ns__init__.py:438-453 | no assignment of steps that puts dependencies strictly earlier gives a library an earlier step |
| DependencyOrder.Sorter.ModulesThatCanBeLoaded | bindings/python/ns__init__.py:425-436 | the loop returns the batch, in pending order |
| DependencyOrder.Sorter.TakeBatch | bindings/python/ns__init__.py:443-450 | moves exactly the batch from the pending list to the current list and records it as a step |
| DependencyOrder.Sorter.Order | bindings/python/ns__init__.py:438-453 | the recursion over the mutated lists gives the batches, or hits the limit, as the specification says |
| DependencyOrder.Sorter.Extend | bindings/python/ns__init__.py:455-460 | the steps one after the other |
| DependencyOrder.Sorter.SortToDependencies | bindings/python/ns__init__.py:455-460 | the flattened batches, or a recursion error exactly when the batches do not fit the limit |
| Text.StripParts | utils/check-style-clang-format.py:531 | a line is its stripped text between white space |
| Text.SpacesAre | utils/check-style-clang-format.py:531-634 | the characters that count as white space, one by one |
| Text.ExpandTabsConcat | utils/check-style-clang-format.py:674 | the second part of a text is expanded from the column where the first ends |
| Text.ExpandTabsIsTyped | utils/check-style-clang-format.py:674 | expansion is typing with a tab stop at every fourth column, measured on the text typed so far |
| Text.TabStops | utils/check-style-clang-format.py:674 | a tab in a line adds the spaces up to the next multiple of four of the expanded length, whatever tabs came before |
| Text.OthersStay | utils/check-style-clang-format.py:674 | every other character stays as it is |
| Text.LineEndRestarts | utils/check-style-clang-format.py:674 | behind a line end the columns start again at 0 |
| Text.ReadLinesLosesNothing | utils/check-style-clang-format.py:525-526 | the lines that are read, joined, are the content |
| Text.ReadBack | utils/check-style-clang-format.py:559-561 | lines that are written are read back as the same lines |
| Text.JoinIsFlatten | utils/check-style-clang-format.py:561 | writing lines puts all their characters one after the other |
| StyleChecker.CheckTabsLine | utils/check-style-clang-format.py:650-682 | compliant if and only if the line has no tab; the fixed line has none and is the line typed with a tab stop at every fourth column; the report shows the stripped line and points at the first tab |
| StyleChecker.CheckWhitespaceLine | utils/check-style-clang-format.py:617-647 | compliant if and only if the line ends in a newline with no white space before it; the fixed line is the line without the white space at its end, and a newline; the report shows it with tabs typed out and points behind it |
| StyleChecker.EnabledMeans | utils/check-style-clang-format.py:523-536 | formatting is off exactly when an off guard was not followed by an on guard |
| StyleChecker.GuardMeans | utils/check-style-clang-format.py:531-536 | a guard is the text of the guard between white space |
| StyleChecker.SkippedMeans | utils/check-style-clang-format.py:528-542 | a line is skipped exactly when guards are respected, it is no guard, and an earlier off guard was not followed by an on guard |
| StyleChecker.InfosAreReports | utils/check-style-clang-format.py:545-552 | the report is that of each checked line that is not compliant, in order |
| StyleChecker.SourceFile.CheckManually | utils/check-style-clang-format.py:501-563 | the verdict is the same in early-exit check mode, verbose check mode and fix mode; only fixing changes the file; an early exit reports the first bad line alone |
| StyleChecker.SourceFile.CheckLines | utils/check-style-clang-format.py:528-556 | the loop overwrites exactly the bad lines outside off regions and collects their reports in order |
| StyleChecker.SourceFile.CheckLine | utils/check-style-clang-format.py:528-552 | one line: guard state, verdict, report and overwritten line |
| StyleChecker.SourceFile.WriteLines | utils/check-style-clang-format.py:558-561 | the file becomes the lines one after the other |
| StylePasses.EnabledBefore | utils/check-style-clang-format.py:530-542 | formatting enabled after a fixing pass was enabled before it, even where the pass made new guards |
| StylePasses.SecondPass | utils/check-style-clang-format.py:521-563 | a second pass finds every line compliant, and lines that were not checked kept their text |
| StylePasses.FixingSettles | utils/check-style-clang-format.py:521-563 | on whole files: a fixed file is compliant, fixing it again changes nothing, and its lines are the fixed lines |
| StylePasses.TabsKeepGuard | utils/check-style-clang-format.py:531-541 | expanding the tabs of a guard line leaves the same guard |
| StylePasses.TabsSettle | utils/check-style-clang-format.py:650-682 | a line with expanded tabs passes, stays one line and stays the guard it was |
| StylePasses.WhitespaceSettles | utils/check-style-clang-format.py:617-647 | a line with its trailing white space removed passes and stays one line |
| StylePasses.ContentKeepsInk | utils/check-style-clang-format.py:501-563 | no mode changes a file in anything but white space, for any line check that does not |
| StylePasses.BothKeepInk | utils/check-style-clang-format.py:617-682 | neither line check changes anything but white space |
| StylePasses.FixingRunSettles | utils/check-style-clang-format.py:339-363 | after the white space pass and then the tab pass both checks find the file compliant, and it differs from the original in white space only |
| StylePasses.TabbedGuard | utils/check-style-clang-format.py:531-541 | a line that is no guard becomes an off guard when its tab is expanded |
| StylePasses.SecondPassMayCheckFewer | utils/check-style-clang-format.py:530-542 | a line that the first pass checks and the second skips, because the first pass made a guard |
| BenchStatistics.Log | utils/bench-scheduler.cc:331-388 | each of the six averages is the exact mean of its field over all runs, and each variance times the number of runs is the sum of squared deviations from it, hence not negative; nothing is computed for fewer than two runs |
| BenchStatistics.FieldsAreAll | utils/bench-scheduler.cc:211-223 | the six fields make up a result |
| BenchStatistics.AccumulateDescribes | utils/bench-scheduler.cc:358-362 | one accumulation turns the mean and the squared deviations of some samples into those of one sample more, whatever the average held before the first |
| BenchStatistics.MeanMinimisesDeviation | utils/bench-scheduler.cc:346-381 | the squared deviations are smallest from the mean |
| Fairness.SpreadIdentity | examples/tcp/dctcp-example.cc:187-197 | n times the sum of squares is the squared sum plus the squared differences of all pairs |
| Fairness.SumSquaresBelow | examples/tcp/dctcp-example.cc:187-197 | the sum of squares is at most the squared sum, with equality exactly when at most one flow received anything |
| Fairness.JainRange | examples/tcp/dctcp-example.cc:197 | for counters that are not all zero the index lies in [1/n, 1], is 1 exactly when all are equal and 1/n exactly when only one is not zero |
| Fairness.NothingWrapsIff | examples/tcp/dctcp-example.cc:188-197 | numerator and denominator both fit 64 bits exactly when the denominator does |
| Fairness.NothingWrapsOnTheWay | examples/tcp/dctcp-example.cc:191-197 | then no partial sum and no square wraps either |
| Fairness.SmallCountersDoNotWrap | examples/tcp/dctcp-example.cc:188-197 | counters of at most B with n²B² below 2^64 do not wrap |
| Fairness.PrintedIsJainIff | examples/tcp/dctcp-example.cc:187-197 | the printed value is Jain's index if and only if the denominator is below 2^64 or wraps, not to zero, in the same proportion as the numerator |
| Fairness.OverflowBelowIsWrong | examples/tcp/dctcp-example.cc:187-197 | if the denominator overflows while the numerator fits, the printed value is never right |
| Fairness.EqualFlowsPrintOneIff | examples/tcp/dctcp-example.cc:187-197 | equal flows print 1 if and only if the denominator does not wrap to zero |
| Fairness.OverflowMayBeHarmless | examples/tcp/dctcp-example.cc:197 | one flow of 2^33 + 1 bytes: the denominator overflows and 1 is printed |
| Fairness.EqualFlowsMayPrintNaN | examples/tcp/dctcp-example.cc:197 | ten flows of 2^32 bytes each: the index is 1, and what is printed is not a number |
| Fairness.FlowCounters.InitializeCounters | examples/tcp/dctcp-example.cc:143-158 | every counter is zero |
| Fairness.FlowCounters.TraceSink | examples/tcp/dctcp-example.cc:125-141 | one counter grows by the packet size, modulo 2^64, and no other changes |
| Fairness.FlowCounters.PrintFairness | examples/tcp/dctcp-example.cc:184-228 | with wrapping sums and products, the quotient of the wrapped exact values, and Jain's index exactly when the denominator fits or keeps the ratio |
| Throughput.ReachCountsAll | tacc-scripts/sampleMultiThread.py:38-42 | a pass that stops at the first later arrival counts all arrivals up to a bound exactly when none of them is listed behind a later one |
| Throughput.RowsAreRightIff | tacc-scripts/sampleMultiThread.py:30-43 | every row counts the arrivals of its interval exactly when no arrival of a row is listed behind one of a later row |
| Throughput.ReversedArrivals | tacc-scripts/sampleMultiThread.py:30-43 | two arrivals listed in reverse across two rows: the first row counts none and the second both |
| Throughput.SortedRowsAreRight | tacc-scripts/sampleMultiThread.py:30-43 | for sorted arrivals every row is right, and all rows together count exactly the arrivals up to the end of the last |
| Throughput.ArrivalsAreCounted | tacc-scripts/sampleMultiThread.py:30-42 | the arrivals of a row are the number of positions with a time after its beginning, the first row excepted, and up to its end |
| Throughput.RateIsBits | tacc-scripts/sampleMultiThread.py:43 | a rate times the interval is the bits of that many packets of 1448 bytes |
| Throughput.CountPackets | tacc-scripts/sampleMultiThread.py:37-42 | the inner loop advances to the first arrival beyond the bound |
| Throughput.GetTput | tacc-scripts/sampleMultiThread.py:23-44 | each row is the rate of the packets that the pass counts for it, zero rows and the end of the list included |
| TrainingData.MaximaAreMaxima | tacc-scripts/sampleMultiThread.py:67-76 | the maxima are the least values above -10 and above those of every readable file |
| TrainingData.MaximaConcat | tacc-scripts/sampleMultiThread.py:83-85 | the maxima of two lists of files are the entrywise maxima of those of each |
| TrainingData.ProcessChunk | tacc-scripts/sampleMultiThread.py:69-78 | the data and maxima of the readable files of a chunk, in order |
| TrainingData.FormDataset | tacc-scripts/sampleMultiThread.py:62-85 | splitting into chunks and merging gives what one pass over the first threads * (files // threads) files gives |
| TrainingData.NothingIsDroppedIff | tacc-scripts/sampleMultiThread.py:66-73 | no data is lost exactly when none of the files left over by the division can be read |
| TrainingData.OneFileTwoThreads | tacc-scripts/sampleMultiThread.py:66-73 | with one readable file and two threads nothing is read |
| TrainingData.PossibleIsCut | tacc-scripts/sampleMultiThread.py:98-116 | the segmentations that a run can produce are exactly the ordered, disjoint, in-bounds ones that leave less than a segment's room after the last |
| TrainingData.CutSize | tacc-scripts/sampleMultiThread.py:102 | at most total // length segments, and at least one if one fits |
| TrainingData.Segment | tacc-scripts/sampleMultiThread.py:99-116 | whatever is drawn, the choice range is never empty, the loop ends, and segment i is the part of the sample from the i-th start on, for the starts of a possible segmentation |
| TrainingData.SegmentAll | tacc-scripts/sampleMultiThread.py:95-119 | each segment of each sample stands behind those of the samples before it, at its position, and there are no others; each sample is cut by a possible segmentation of its own |
| PolicyDecider.PointerIsBehind | tacc-scripts/trainCCPolicyDecider.py:183-184 | the capacity pointer is in range, never moves back, is never ahead of time, and is the lesser of the bucket and one step on |
| PolicyDecider.PointerClosedForm | tacc-scripts/trainCCPolicyDecider.py:175-184 | the capacity pointer at a sample is the least of the sample's number and of every earlier bucket plus the samples since |
| PolicyDecider.PointerIsRightIff | tacc-scripts/trainCCPolicyDecider.py:183-184 | the capacity pointer is at the right bucket for every sample exactly when the buckets never skip a breakpoint between samples |
| PolicyDecider.SkippedBreakpoint | tacc-scripts/trainCCPolicyDecider.py:183-184 | two breakpoints before the first sample: the capacity pointer is one behind |
| PolicyDecider.GetReward | tacc-scripts/trainCCPolicyDecider.py:173-191 | the sum of the first positive rewards, 16 at most; it fails exactly at the first row that cannot be computed, if that row comes before the 16 are complete |
| PolicyDecider.RewardMultipliedOut | tacc-scripts/trainCCPolicyDecider.py:185 | a reward times delay and capacity is twenty times the throughput less a tenth for each drop |
| PolicyDecider.PositiveInOrder | tacc-scripts/trainCCPolicyDecider.py:186-188 | the rewards added are those of the rows with a positive one, each once and in order |
| PolicyDecider.FirstSixteen | tacc-scripts/trainCCPolicyDecider.py:189-190 | they are the first 16 of these, or all if there are fewer |
| PolicyDecider.WindowsPartition | tacc-scripts/trainCCPolicyDecider.py:135-147 | the windows together hold each arrival in their range exactly once |
| PolicyDecider.NoByteIsLost | tacc-scripts/trainCCPolicyDecider.py:130-147 | if the last arrival is the latest and none is negative the windows hold every byte |
| PolicyDecider.WindowOf | tacc-scripts/trainCCPolicyDecider.py:136-139 | the window of a time is the number of whole 20 ms before it |
| PolicyDecider.WindowIsCounted | tacc-scripts/trainCCPolicyDecider.py:132-135 | a window is counted exactly when it begins no later than the last arrival, the first also if that is less than a millisecond before 0 |
| PolicyDecider.LastWindow | tacc-scripts/trainCCPolicyDecider.py:132-135 | the last window holds the last arrival |
| PolicyDecider.MbpsIsBits | tacc-scripts/trainCCPolicyDecider.py:144 | a throughput times 20 ms is the bits of the bytes |
| PolicyDecider.GetTput | tacc-scripts/trainCCPolicyDecider.py:127-149 | one throughput per window up to the last arrival, each from the bytes in that window; without arrivals it fails |
| PolicyDecider.SumBytes | tacc-scripts/trainCCPolicyDecider.py:139-142 | the bytes of the arrivals in one window |
| BufferWriter.SplicesIff | examples/tcp/tcp-large-transfer.cc:51-54 | a repeated buffer continues the pattern at every offset if and only if its size is a multiple of 26 |
| BufferWriter.LettersAreTheAlphabet | examples/tcp/tcp-large-transfer.cc:106-110 | the pattern is the alphabet, over and over |
| BufferWriter.NextPart | examples/tcp/tcp-large-transfer.cc:227-231 | the part of the buffer that is written next continues the pattern |
| BufferWriter.Writer.constructor | examples/tcp/tcp-large-transfer.cc:105-110 | the buffer holds the pattern |
| BufferWriter.Writer.WriteUntilBufferFull | examples/tcp/tcp-large-transfer.cc:221-243 | terminates for every behaviour of the socket; byte k handed over is 97 + k mod 26, never more than the total and never past the end of the buffer; the socket is closed only once all bytes are sent; each write is offered the most that the buffer's end, the bytes left and the room allow; it stops only when done, out of room or after a write that was refused, and with work and room it does write |
| BufferWriter.Writer.Write | examples/tcp/tcp-large-transfer.cc:226-237 | one write: the largest possible offer, and the accepted bytes continue the pattern |
| BufferWriter.Flow | examples/tcp/tcp-large-transfer.cc:209-243 | over every sequence of callbacks byte k that the socket gets is letter k mod 26, at most 2000000 bytes are accepted, no offer crosses a multiple of 1040, and the socket is closed exactly when it has all 2000000; otherwise the last callback ended without room or with a refusal |
| Timeline.TimelineDataRange.Search | utils/grid.py:113-130 | an index of a range that covers the key, or -1, on sorted ranges only if none does |
| Timeline.TimelineDataRange.GetRangesBounds | utils/grid.py:165-181 | for any two ends, the bounds of the ranges that lie on the inner side of every covered end, none with no end covered; they are exactly the ranges that meet the interval if and only if `ExactWhen` holds |
| Timeline.TimelineDataRange.GetRanges | utils/grid.py:147-163 | a contiguous slice of the list with those ranges, which are exactly the ranges that meet the interval if and only if `ExactWhen` holds |
| Timeline.BoundsAreReturned | utils/grid.py:165-181 | the four cases of covered ends, as one condition on ranges |
| Timeline.ReturnedIsExactWhen | utils/grid.py:165-181 | bounds of those ranges hold exactly the ranges that meet the interval if and only if `ExactWhen` holds |
| Timeline.RangesInsideAreMissed | utils/grid.py:156-157 | a range inside an interval with uncovered ends is missed |
| Timeline.TimelineEvent.Search | utils/grid.py:217-234 | an event at the key or, on sorted events, the place where one would go |
| Timeline.TimelineEvent.GetEventsBounds | utils/grid.py:255-264 | the bounds are such places; they hold exactly the events of the interval if and only if both searches end at the outermost event of their time and there is an event at the end or none after it |
| Timeline.PlaceIsPlace | utils/grid.py:217-234 | on sorted events the search ends at an event at the key or where one would go |
| Timeline.BoundsAreExactIff | utils/grid.py:255-264 | the same condition, for any two such places |
| Timeline.TimelineEvent.GetEvents | utils/grid.py:244-253 | a contiguous slice: all events strictly between, none before the start, at most one after the end, and none exactly when there is an event at the end or none after it; exact just then, if no two events share the time of an end |
| Timeline.FoundEvents | utils/grid.py:244-253 | the same of any slice between such places |
| Timeline.FoundNoneAfter | utils/grid.py:244-253 | nothing after the end is returned if and only if there is an event at the end or none after it |
| Timeline.FoundSingly | utils/grid.py:244-253 | if no two events share the time of an end the result is exactly the events in the interval if and only if there is an event at the end or none after it |
| Timeline.TwinIsMissed | utils/grid.py:244-253 | of two events at both ends' time only the first is returned |

## Left out

- ns-3's own library (type registration, schedulers, sockets, TCP, topology) beyond the interfaces above, and `src/internet/model/tcp-composite.cc`, which computes with powers of doubles.
- `Bench::Run` and `Bench::Cb` in `utils/bench-scheduler.cc`: counting executed events would only add easy members.
- The square roots of the variances, and the average and aggregate throughput lines of `PrintFairness`.
- Floating-point rounding, not-a-number values in the training data, and the division of the data by its maxima.
- Printing, XML, HTML and doxygen output, and the text of verbose messages beyond file, line, column and shown line.
- `Uniquefy` in `utils/print-introspected-doxygen.cc`: it takes its container by value, so it changes nothing that is kept.
- `check_include_prefixes_line` and the clang-format pass of the style checker: they consult the file system and an external program.
- How libraries and their dependencies are found, how trace and reward files are parsed, and how tests are discovered and turned into shell commands.
- The identity of job objects: jobs are values, and the one object that main and a worker share is the queue entry that travels between them. A job runner or XML reader that raises is not modelled.
- The two `sort` methods of `utils/grid.py`, whose comparators current Python does not accept.
- Neural networks, label encoding, drawing and the generators of job scripts.
