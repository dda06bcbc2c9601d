# FISim / ns-3 tooling: verified models

Dafny models of the self-contained cores found in the tooling and example programs of the repository,
with proofs of what those programs promise. `dafny verify dfyconfig.toml` checks everything.

| part | files | models |
|---|---|---|
| test-runner worker pool | `WorkerPool`, `PoolRuns`, `PoolReport`, `TestRunner`, `Sorting` | `test.py` |
| configuration-path search | `TypeGraph`, `EdgeOrigins`, `PathSearch`, `StaticInformation`, `PathExample` | `utils/print-introspected-doxygen.cc` |
| style fixers | `TextLines`, `StyleFixers`, `StyleGuarantees`, `GuardLines` | `utils/check-style-clang-format.py` |
| fairness index | `Words`, `Fairness` | `examples/tcp/dctcp-example.cc` |
| benchmark statistics and run | `BenchStatistics`, `BenchScheduler` | `utils/bench-scheduler.cc` |
| large transfer | `LargeTransfer` | `examples/tcp/tcp-large-transfer.cc` |
| timeline queries | `Timeline`, `KeyedSort`, `Sequences` | `utils/grid.py` |
| TCP tracers | `TraceContext`, `TcpTracers` | `examples/tcp/tcp-variants-comparison.cc` |
| Wi-Fi sender application | `WifiSender` | `examples/stats/wifi-example-apps.cc` |

**Worker pool.** A state holds the two FIFO queues, what each worker has in hand, the interrupt flag and
the main thread's progress. Each atomic action of a thread is one step; a schedule is any sequence of
enabled actions, so the theorems range over every interleaving and every moment of the interrupt. The
class `Runner` performs the same actions in place, and `RunTests` drives it with an arbitrary scheduler.
A job's exit code is a fixed property of the job, also when it is running while the interrupt comes, and a
job that is run finishes. With no worker and at
least one job the program waits for ever; `MaximalRuns` shows that this is the only way it can.

**Path search.** The TypeId database is a list of types with ordered attributes, a child relation and a
list of aggregations; a walk is a list of edge positions, so parallel edges count separately. `Walks` is
characterised independently of the search: it lists exactly the walks that repeat no type, each once, in
depth-first order. Which edges a type has is stated in `EdgeOrigins` from the database alone. `Uniquefy` is documented as changing its container, but takes it by value, so
gathering keeps every entry (utils/print-introspected-doxygen.cc:376, utils/print-introspected-doxygen.cc:390).

**Style fixers.** A file is its decoded text. Reading translates line ends and splits lines as Python
does; writing joins the lines and uses newlines. The fixers are then functions from text to text. `SameLayout`
says what keeping the display columns means without reference to `expandtabs`. A line hides a guard when
expanding its tab makes it one; `GuardLines` settles which lines do and where that changes the second scan.

**Numbers.** The fairness computation is modelled with 64-bit wrap-around, the final quotient over the
reals. That the index is 1 exactly for equal counts is false of the program in both directions once the
64-bit values overflow (`OverflowLosesIndex`, `OverflowFakesEquality`); `ReportsOneExactlyWhen` and
`EqualCountsReported` give the exact conditions for all counts. The benchmark accumulation is over the reals.

**Environment.** Sockets, the simulator and the random streams appear as arbitrary inputs: the room and
the acceptance the socket reports, the delays drawn, the order in which commands and callbacks come.

## Model

| member | source | states |
|---|---|---|
| WorkerPool.InvStep | test.py:978-1046 | every action of every thread, the interrupt included, keeps the invariant: jobs are neither lost nor duplicated, the input queue is the rest of the dispatch plan, nobody returns before the real jobs are taken |
| PoolRuns.ExactlyOnce | test.py:979-1046 | in every reachable state each dispatched job is in exactly one of input queue, a worker's hands, output queue, collected results; nothing else exists; no worker has returned while a real job waits |
| PoolRuns.TakenInDispatchOrder | test.py:1472-1474 | the real jobs still queued are consecutive in dispatch order and ahead of every break job |
| PoolRuns.PotentialStep | test.py:979-1046 | every action uses up a measure |
| PoolRuns.RunsAreBounded | test.py:1688-1713 | no interleaving of n jobs on p workers has more than 6n + 4p + 1 steps |
| PoolRuns.InterruptIsPrompt | test.py:988-995 | after the interrupt no worker starts another job: what was not begun comes back as a break job in every continuation |
| PoolRuns.SkippedAreNeverRun | test.py:1004-1008 | in every reachable state no worker runs a test that is to be skipped |
| PoolRuns.StuckOnlyWithoutWorkers | test.py:1688-1713 | a state in which the program cannot move is final exactly when there is a worker or nothing to do |
| PoolRuns.DoneIsFinal | test.py:1849-1850 | when all workers are joined both queues are empty, every worker has returned and nothing can move |
| PoolRuns.MaximalRuns | test.py:1688-1850 | every run that cannot continue, interrupted or not, ends with empty queues, one result per job and all workers joined, exactly when there is a worker or nothing to do |
| PoolRuns.CanAlwaysFinish | test.py:1710-1850 | from every invariant state the program can be driven to its end without further input |
| PoolReport.ParallelEqualsSequential | test.py:1710-1880 | for every number of workers and interleaving, an uninterrupted run reports the five counters and the four sorted name lists of running the jobs one by one |
| PoolReport.InterruptOnlyWithholds | test.py:1695-1713 | an interrupted run lists under each status only what the sequential run lists there, counted with multiplicity, given that the interrupt does not change the exit code of a job that is running |
| PoolReport.SummaryOnlyWithholds | test.py:1695-1880 | the same for the printed summary: each counter at most, each sorted list contained in that of the sequential run |
| PoolReport.SequentialSays | test.py:1719-1744 | in terms of the tests alone: passed, failed and valgrind count the tests that are not skipped with exit code 0, 1 and 2, crashed those with any other code, skipped the rest; each sorted list holds each display name, with the reason if skipped, as often as there are such tests |
| PoolReport.SummaryForgetsOrder | test.py:1715-1744 | counters and sorted lists depend on the results, not on their order of arrival |
| PoolReport.VerdictMeaning | test.py:1933-1936 | the five counters and the interrupted jobs add up to the number of tests; the exit code is 0 exactly when none was interrupted and each was skipped or returned 0 |
| Sorting.Sort | test.py:1869-1880 | sorting yields a sorted rearrangement |
| Sorting.SortForgetsOrder | test.py:1869-1880 | lists with the same names sort to the same list |
| Sorting.LexByFirstDifference | test.py:1869-1880 | the order is by the first differing character, a text before its extensions |
| TestRunner.Record | test.py:1710-1744 | one turn of the collection loop extends counters and lists to those of one more result; break jobs are dropped; what the counters and lists mean is `SequentialSays` |
| TestRunner.Runner.WorkerStep | test.py:978-1046 | a worker's code performs the get, check, finish or put action |
| TestRunner.Runner.CollectResult | test.py:1710-1744 | the collection loop takes the head of the output queue and counts it |
| TestRunner.Runner.SigintHook | test.py:573-576 | the handler raises the flag and nothing else |
| TestRunner.Runner.Step | test.py:978-1046 | every step of the object is the step of the state machine |
| TestRunner.Runner.Report | test.py:1864-1936 | the printed summary and the exit code are those of the collected results |
| TestRunner.Drive | test.py:1418-1850 | under an arbitrary scheduler the run ends, and what happened is a legal schedule |
| TestRunner.RunTests | test.py:1418-1936 | end to end: uninterrupted runs give the sequential summary, which counts and lists every test by its exit code or as skipped; interrupted ones no counter above and no list entry outside it; all tests are accounted for, and the exit code means what it should |
| EdgeOrigins.EdgesAreExact | utils/print-introspected-doxygen.cc:421-496 | from the database alone: exactly one edge for each pointer attribute not to a plain object, each container attribute (under "/[i]"), each registered descendant and each aggregation from either side (under "$"), attributes first, then descendants, then aggregations, each in their order, and no other edge |
| EdgeOrigins.EdgeExactlyWhen | utils/print-introspected-doxygen.cc:421-496 | an edge leaves a type exactly when one of these gives it |
| TypeGraph.PathTextParts | utils/print-introspected-doxygen.cc:325-335 | the text of a path is that of its parts one after the other |
| TypeGraph.OneSegment | utils/print-introspected-doxygen.cc:325-335 | the text of one segment is the segment after a slash, of none empty |
| PathSearch.WalksSound | utils/print-introspected-doxygen.cc:412-497 | every listed walk visits no type twice and none on the stack |
| PathSearch.WalksComplete | utils/print-introspected-doxygen.cc:412-497 | every such walk is listed |
| PathSearch.WalksOrdered | utils/print-introspected-doxygen.cc:421-496 | walks are listed in depth-first order: shorter prefixes first, then by edge position |
| PathSearch.PathsAreEntries | utils/print-introspected-doxygen.cc:337-342 | the recorded entries are end type and path text of the listed walks, one each |
| PathSearch.SearchIsExact | utils/print-introspected-doxygen.cc:412-497 | gathering a root records exactly one entry per repetition-free walk from it, counted with edge multiplicity, in depth-first order |
| PathSearch.PathsAreShort | utils/print-introspected-doxygen.cc:412-419 | on any cyclic graph a recorded path follows fewer edges than there are types |
| StaticInformation.Info.GetCurrentPath | utils/print-introspected-doxygen.cc:325-335 | the loop joins the segments, each after a slash |
| StaticInformation.Info.RecordOutput | utils/print-introspected-doxygen.cc:337-342 | one entry with the current path is appended |
| StaticInformation.Info.HasAlreadyBeenProcessed | utils/print-introspected-doxygen.cc:344-356 | true exactly for the types on the stack |
| StaticInformation.Info.Get | utils/print-introspected-doxygen.cc:358-371 | the paths recorded for the type, in order |
| StaticInformation.Info.FollowAttributes | utils/print-introspected-doxygen.cc:421-460 | pointer and container attributes are followed in order, pointers to plain objects are not |
| StaticInformation.Info.FollowChildren | utils/print-introspected-doxygen.cc:461-473 | registered descendants are followed in registration order |
| StaticInformation.Info.FollowAggregates | utils/print-introspected-doxygen.cc:474-496 | aggregations are followed from either side |
| StaticInformation.Info.DoGather | utils/print-introspected-doxygen.cc:412-497 | the recursion ends on every graph, restores path and stack, and appends exactly the specified entries |
| StaticInformation.Info.Gather | utils/print-introspected-doxygen.cc:404-410 | every recorded entry stays, since duplicates would only be removed from an argument passed by value |
| StaticInformation.Info.GatherAll | utils/print-introspected-doxygen.cc:552-556 | several roots give the single-root results one after the other |
| StaticInformation.GetIsExact | utils/print-introspected-doxygen.cc:358-371 | after gathering a root, asking for a type gives the texts of exactly the repetition-free walks that end there, in discovery order |
| StaticInformation.GetAfterGatherAll | utils/print-introspected-doxygen.cc:552-556 | with several roots the answer is the concatenation over the roots |
| StaticInformation.ConfigurationPaths | utils/print-introspected-doxygen.cc:504-560 | gather the roots, then ask: the object returns the specified texts |
| PathExample.ExamplePaths | utils/print-introspected-doxygen.cc:404-497 | the exact answers of the whole program for a small database with each kind of edge, a cycle and two roots |
| TextLines.SpaceCharacters | utils/check-style-clang-format.py:524-613 | the white-space characters, by code point |
| TextLines.ColumnAfter | utils/check-style-clang-format.py:128 | a tab moves to the next multiple of 4, a line end to column 0, anything else by one |
| TextLines.NewlinesConcat | utils/check-style-clang-format.py:607-608 | line ends are translated independently of each other, except for a carriage return followed by a newline |
| TextLines.OneLineEnd | utils/check-style-clang-format.py:607-608 | carriage return, and carriage return with newline, become a newline; other characters stay |
| TextLines.ExpandKeepsLayout | utils/check-style-clang-format.py:632 | expanding keeps every non-tab character in order and in its display column, and turns a tab into one to four spaces up to the next multiple of four |
| TextLines.LayoutIsExpansion | utils/check-style-clang-format.py:632 | the expanded text is the one and only text that shows every other character, in order, in its display column and every tab as blanks up to its tab stop of 4 |
| TextLines.StripExpanded | utils/check-style-clang-format.py:613-632 | stripping an expanded line gives the stripped line expanded in the column where it starts |
| TextLines.ReadBack | utils/check-style-clang-format.py:635-637 | writing lines and reading them again gives the same lines |
| TextLines.JoinedLines | utils/check-style-clang-format.py:607-608 | reading a text into lines loses nothing |
| StyleFixers.CheckTabsFile | utils/check-style-clang-format.py:595-639 | checking (which stops at the first tab) and fixing give the same verdict, which is that some line has a tab and is a guard or not below an off guard without an on guard since; fixing rewrites the file exactly when there is something to fix |
| StyleFixers.EnabledMeans | utils/check-style-clang-format.py:605-622 | formatting is off before a line exactly when some line above is the off guard and no line since is the on guard |
| StyleFixers.ScanTabs | utils/check-style-clang-format.py:604-632 | the loop with its guard state finds a tab exactly when an examined line has one, and leaves the expanded lines |
| StyleFixers.CheckTrailingWhitespaceFile | utils/check-style-clang-format.py:507-540 | both modes report a file exactly when some line does not end in a newline or has a blank just before it; fixing rewrites it exactly then |
| StyleGuarantees.FixedScanFollows | utils/check-style-clang-format.py:610-623 | scanning the fixed lines, formatting is on only where it was on in the first scan, although expansion can create guards |
| StyleGuarantees.FixedLinesAreClean | utils/check-style-clang-format.py:604-639 | no tab is found in fixed lines |
| StyleGuarantees.TabFixIsFinal | utils/check-style-clang-format.py:604-639 | for every file, after the tab fixer the tab check passes and a second fix changes nothing |
| StyleGuarantees.TrailingFixIsFinal | utils/check-style-clang-format.py:517-540 | the same for the whitespace fixer |
| StyleGuarantees.ExpandTrimCommute | utils/check-style-clang-format.py:524-632 | expanding and trimming a line commute |
| StyleGuarantees.BothFixesPassBothChecks | utils/check-style-clang-format.py:517-639 | both fixers in either order leave a file that passes both checks |
| StyleGuarantees.FixersCommute | utils/check-style-clang-format.py:517-639 | the order of the two fixers makes no difference to the file |
| StyleGuarantees.TabFixByLine | utils/check-style-clang-format.py:610-637 | for every file the number of lines stays; a line changes exactly when it has a tab and is a guard or not below an off guard without an on guard since; a line in a switched-off region that is no guard stays as it is; every other line becomes the tab-free text of the same layout |
| StyleGuarantees.WithoutGuards | utils/check-style-clang-format.py:604-639 | in a file without guards the check reports exactly the files with a tab and the fix leaves none |
| StyleGuarantees.TrailingFixByLine | utils/check-style-clang-format.py:520-535 | for every file and line: the fixed line is the original without its final white space, and a newline |
| StyleGuarantees.LoadedLines | utils/check-style-clang-format.py:607-608 | the lines of a file make up its text, and newlines are at the ends of lines only |
| GuardLines.GuardAfterExpansion | utils/check-style-clang-format.py:613-632 | for every line and either guard: the expanded line is the guard exactly when the line is, or is the guard with a tab at position 15 after an indent to a multiple of 4, or with a tab at position 2 after an indent to one more than a multiple of 4 |
| GuardLines.ExpansionCreatesGuard | utils/check-style-clang-format.py:59-60 | for every line, expansion turns it into a guard it was not exactly when it hides one in this way |
| GuardLines.CreatedGuard | utils/check-style-clang-format.py:59-60 | there is such a line |
| GuardLines.ScansDifferExactlyWhen | utils/check-style-clang-format.py:610-623 | before a line the scan of the fixed file is in another guard state than the scan of the original exactly when a hidden off guard was expanded earlier and no line since is a guard or hides an on guard |
| StyleGuarantees.CheckTabs | utils/check-style-clang-format.py:546-592 | the return value says exactly whether no file has tabs afterwards |
| StyleGuarantees.CheckTrailingWhitespace | utils/check-style-clang-format.py:457-504 | the same for trailing whitespace |
| Fairness.CauchySchwarz | examples/tcp/dctcp-example.cc:198 | n times the sum of squares is at least the square of the sum, with equality exactly for equal counts |
| Fairness.JainBounds | examples/tcp/dctcp-example.cc:184-198 | the index lies between 1/n and 1, is 1 exactly for equal counts and 1/n exactly when one flow got everything |
| Fairness.FitsExactlyWhen | examples/tcp/dctcp-example.cc:188-198 | no 64-bit value overflows exactly when n times the sum of squares is below 2^64 |
| Fairness.BoundedCountsFit | examples/tcp/dctcp-example.cc:188-198 | counts bounded by b with n * b below 2^32 never overflow |
| Fairness.ComputedIsJain | examples/tcp/dctcp-example.cc:191-198 | the program computes the index exactly when all counts are zero, or the divisor does not wrap to zero and the overflows of square and divisor are in the ratio of the two; in particular whenever nothing overflows |
| Fairness.ExampleIndex | examples/tcp/dctcp-example.cc:191-198 | 36/42 for counts of 1, 2 and 3 |
| Fairness.ReportsOneExactlyWhen | examples/tcp/dctcp-example.cc:191-198 | for all counts: 1 is reported exactly when n times the sum of squares and the square of the sum differ by a multiple of 2^64 and the sum is no multiple of 2^32; likewise the exact conditions for no number and for infinity |
| Fairness.EqualCountsReported | examples/tcp/dctcp-example.cc:191-198 | equal counts are reported as 1, unless their sum is a multiple of 2^32, when no number is |
| Fairness.OverflowLosesIndex | examples/tcp/dctcp-example.cc:191-198 | ten counts of 2^32 are equal, but the program divides zero by zero |
| Fairness.OverflowFakesEquality | examples/tcp/dctcp-example.cc:191-198 | nine counts of 1 and one of 2^32 + 1 are reported as equal |
| Words.SquareWrapsToZero | examples/tcp/dctcp-example.cc:198 | the 64-bit square of a sum is zero exactly when the sum is a multiple of 2^32 |
| Fairness.ComputeFairness | examples/tcp/dctcp-example.cc:191-198 | the loop and the quotient, every step reduced to 64 bits |
| Fairness.Counters.TraceSink | examples/tcp/dctcp-example.cc:125-141 | a packet changes the counter of its own flow only |
| Fairness.Counters.InitializeCounters | examples/tcp/dctcp-example.cc:143-158 | all three groups are reset to the state before any packet |
| Fairness.Counters.Receive | examples/tcp/dctcp-example.cc:125-141 | from zero, after any packets each counter is its own flow's byte total modulo 2^64 |
| Fairness.Counters.PrintFairness | examples/tcp/dctcp-example.cc:184-228 | for all counts of each group the exact conditions for 1, no number and infinity; without overflow the index, within its bounds, 1 exactly for equal counts |
| Fairness.Measure | examples/tcp/dctcp-example.cc:562-577 | whatever arrives before the reset, the indices are those of the bytes each flow receives in the measurement window |
| BenchStatistics.Accumulate | utils/bench-scheduler.cc:361-365 | one accumulation step keeps the loop state of a field |
| BenchStatistics.AccumulatedMeans | utils/bench-scheduler.cc:346-376 | the final average is the arithmetic mean and the second moment the sum of squared deviations from it |
| BenchStatistics.Log | utils/bench-scheduler.cc:331-391 | for all six fields the averages and variances are those of the two-pass definitions; nothing is reported for fewer than two runs |
| BenchStatistics.FieldsOf | utils/bench-scheduler.cc:361-376 | the six fields are the six numbers of a result |
| BenchStatistics.ExampleStatistics | utils/bench-scheduler.cc:346-379 | mean 3 and squared deviations 14 for 1, 2 and 6 |
| BenchStatistics.StatisticsForgetOrder | utils/bench-scheduler.cc:346-376 | permuting the runs changes neither |
| BenchScheduler.Bench.Schedule | utils/bench-scheduler.cc:173-174 | the event is pending one drawn delay ahead, and one delay is used |
| BenchScheduler.Bench.Cb | utils/bench-scheduler.cc:163-176 | below the total a callback schedules one event, one drawn delay ahead, and counts; at the total it stops the simulator |
| BenchScheduler.Bench.Execute | utils/bench-scheduler.cc:163-176 | exactly one earliest event is executed, and time never moves back |
| BenchScheduler.Bench.Run | utils/bench-scheduler.cc:133-161 | before every callback the population is pending, time never decreases, and the run stops after total + 1 callbacks with the count at the total and one event fewer pending; executed and pending times are exactly the initial delays and, for each callback below the total, its time plus the next delay; with population 1 the callbacks run at the partial sums of the delays |
| LargeTransfer.LetterIs | examples/tcp/tcp-large-transfer.cc:105-110 | the stream repeats the alphabet |
| LargeTransfer.PieceIsLongest | examples/tcp/tcp-large-transfer.cc:226-231 | a piece is as long as the socket takes, within its room, the rest of the buffer and the rest of the transfer |
| LargeTransfer.AdvanceProgresses | examples/tcp/tcp-large-transfer.cc:223-238 | a callback sends piece after piece until all is sent, there is no room or the send fails |
| LargeTransfer.Sender.constructor | examples/tcp/tcp-large-transfer.cc:105-110 | the buffer holds the repeating alphabet |
| LargeTransfer.Sender.WriteOnce | examples/tcp/tcp-large-transfer.cc:226-236 | reads stay inside the buffer and accepted bytes continue the stream |
| LargeTransfer.Sender.WriteUntilBufferFull | examples/tcp/tcp-large-transfer.cc:221-243 | a callback extends the accepted prefix, closes once exactly when everything is accepted at its end, and completes when the socket keeps accepting |
| LargeTransfer.RunFlow | examples/tcp/tcp-large-transfer.cc:209-243 | over every sequence of callbacks the accepted bytes are a prefix of the repeating alphabet, never more than the total; the socket is closed once for each callback that ends with all accepted, so again after completion |
| Timeline.TimelineDataRange.Search | utils/grid.py:100-117 | the unique range that holds the key, or -1 exactly when there is none |
| Timeline.TimelineDataRange.GetRanges | utils/grid.py:131-147 | with both ends inside ranges exactly the overlapping ranges; an end in a gap counts as unlimited; both ends in gaps give nothing; the answer equals the filter exactly when `Exact` holds |
| Timeline.TimelineDataRange.GetRangesBounds | utils/grid.py:148-164 | the bounds delimit the same answer |
| Timeline.AnswersExactlyWhen | utils/grid.py:138-147 | the exact condition under which the window query is the overlap filter |
| Timeline.OverlappingMeans | utils/grid.py:131-147 | the filter keeps a range exactly when it neither ends before the window nor starts after it |
| Timeline.AnswerContainsAll | utils/grid.py:138-147 | with an end inside a range no overlapping range is missed |
| Timeline.ArrangedWhenApart | utils/grid.py:70-77 | sorting by start arranges the ranges exactly when they are proper and pairwise disjoint |
| Timeline.TimelineDataRange.Sort | utils/grid.py:165-170 | the ranges sorted by start, arranged exactly when they were apart |
| Timeline.QueryRanges | utils/grid.py:118-170 | ranges added in any order, sorted and queried: the answer in terms of the overlap filter |
| Timeline.TimelineEvent.Search | utils/grid.py:195-212 | for non-decreasing times an event at the key if there is one, else the place where it belongs; for increasing times the number of events before the key |
| Timeline.AnswerCovers | utils/grid.py:220-229 | for non-decreasing times and a proper window no event strictly inside is missed; beside these the answer holds a non-empty final part of the events at the start and a non-empty initial part of those at the end, or the next event |
| Timeline.AnswerMembers | utils/grid.py:220-229 | every event strictly inside is in the answer, all members are at or after the start, and all but the last at or before the end |
| Timeline.EventsExactlyWhen | utils/grid.py:220-229 | for non-decreasing times and every window the answer is the window filter and the next event exactly when the searches meet the first event at the start and the last one at the end; in an inverted window, when the first is met or an event lies between |
| Timeline.AlwaysExactWhenIncreasing | utils/grid.py:220-229 | all windows are answered exactly if and only if no two events have the same time |
| Timeline.EqualTimesLoseEvents | utils/grid.py:195-229 | of three events at one time the window of that time yields one |
| Timeline.IncreasingWhenDifferent | utils/grid.py:78-86 | sorted times are non-decreasing, and increasing exactly when the events were added at different times |
| Timeline.TimelineEvent.Sort | utils/grid.py:240-245 | a stable sort by time |
| Timeline.TimelineEvent.GetEvents | utils/grid.py:220-229 | for non-decreasing times the cover and the exact condition above; for increasing times exactly the events in the window, followed by at most the next one |
| Timeline.TimelineEvent.GetEventsBounds | utils/grid.py:230-239 | the bounds delimit the same events |
| Timeline.QueryEvents | utils/grid.py:213-245 | events added in any order, sorted and queried |
| KeyedSort.SortByStable | utils/grid.py:240-245 | elements with the same key keep their order |
| KeyedSort.PairwiseSorted | utils/grid.py:165-170 | a symmetric relation between all pairs is neither gained nor lost by sorting |
| TraceContext.NodeIdRoundTrip | examples/tcp/tcp-variants-comparison.cc:79-85 | for every 32-bit node id, reading it out of the trace path built from it gives it back |
| TraceContext.NodeIdCut | examples/tcp/tcp-variants-comparison.cc:79-85 | a longer id is cut to 32 bits |
| TraceContext.ExamplePath | examples/tcp/tcp-variants-comparison.cc:238-262 | the path built for node 12 |
| TcpTracers.StreamsInClosedForm | examples/tcp/tcp-variants-comparison.cc:94-140 | each stream is the first line of its kind's first event followed by one sample for every event from then on |
| TcpTracers.LatestIs | examples/tcp/tcp-variants-comparison.cc:106-133 | the stored value is the new value of the latest event of the kind |
| TcpTracers.ExampleStreams | examples/tcp/tcp-variants-comparison.cc:94-140 | both streams of a node for four events |
| TcpTracers.StreamShape | examples/tcp/tcp-variants-comparison.cc:99-105 | a started stream begins with its only "0.0" line and ends with the stored value |
| TcpTracers.StreamsInLockStep | examples/tcp/tcp-variants-comparison.cc:107-139 | once both have started, both streams get one sample per event at the event's time |
| TcpTracers.Tracers.CwndTracer | examples/tcp/tcp-variants-comparison.cc:94-112 | the node of the context takes one step, all other nodes are unchanged |
| TcpTracers.Tracers.SsThreshTracer | examples/tcp/tcp-variants-comparison.cc:121-140 | likewise |
| TcpTracers.Replay | examples/tcp/tcp-variants-comparison.cc:238-262 | over every sequence of callbacks the streams of a node are the closed form of that node's own events, and only the given nodes have streams |
| WifiSender.Sender.StartApplication | examples/stats/wifi-example-apps.cc:100-119 | a start begins a new count and leaves exactly one pending send event |
| WifiSender.Sender.StopApplication | examples/stats/wifi-example-apps.cc:121-127 | after a stop nothing is pending and the counter still is the number of packets since the last start |
| WifiSender.Sender.Fire | examples/stats/wifi-example-apps.cc:129-155 | a send event sends one packet and schedules the next one while the count is below the limit |
| WifiSender.Sender.RunUninterrupted | examples/stats/wifi-example-apps.cc:100-155 | an uninterrupted start sends exactly the configured number of packets |
| WifiSender.RunCommands | examples/stats/wifi-example-apps.cc:100-155 | over every order of starts, stops and firings: at most one pending event and it is the stored one, the counter is the number of packets since the last start and at most the limit, packets only between start and stop, and the behaviour of the application without events |
| WifiSender.ExampleRun | examples/stats/wifi-example-apps.cc:100-155 | what a short sequence of commands does |

## Left out

- Subprocesses, XML, HTML and text reports, option parsing and valgrind handling of `test.py`: input and output; the tests that are selected are the input of the model.
- A terminal interrupt that also reaches the processes of running jobs and changes their exit codes (test.py:808).
- Job objects of `test.py` are values that move between queues; that only one thread holds a job at a time is `ExactlyOnce`, aliasing itself is not modelled.
- RecordAggregationInfo and the look-up of type names: the aggregations are part of the given database.
- `check_formatting` and the selection of files by name in the style checker: foreign tool and simple tests.
- Line ends other than newlines on writing, and undecodable files, in the style checker.
- Floating-point rounding in the fairness index and the benchmark statistics; the square root printed as standard deviation.
- Throughput lines and aggregate sums of `PrintFairness`: sums without further structure.
- The counter vectors of the fairness example have the lengths 10, 20 and 10 the program uses them with, although it only reserves them.
- Bounds and drawing in `utils/grid.py`: simple and user interface.
- Stoul: leading blanks and signs, which a trace path never has in front of the node id, are not accepted by the model.
- The other tracers of `tcp-variants-comparison.cc` are the single-stream case of the two modelled ones.
- The simulator, sockets, TCP and the rest of the ns-3 library, and all programs that only assemble topologies.
