# Models and proofs for the vse-sync collection and post-processing tools

This project models the parts of the repository in which several functions, several actors or a
whole history have to work together, and proves what they promise as statements over all inputs,
all runs or all reachable states.

The centre is the log collector. Overlapping polls of one pod log yield slices of lines. A
de-duplicator merges and repairs pairs of slices, a store keeps slices by poll generation and
streams out everything it no longer needs, goroutines carry slices and lines through bounded
channels to a file, and a runner decides when polls start and when clean-up may begin. The theorem
over all of it is `LogOutput.FileIsTheCoveredLog`: in every interleaving, once CleanUp has
returned, the file holds every line of the log that any pushed window covered, once, in log order.

| file | models |
|---|---|
| `LogLines.dfy`, `Outcomes.dfy` | log lines and slices; optional values and run-time panics |
| `Dedup.dfy` | the searches, the repair of one overlap and `DedupAB` |
| `DedupLayout.dfy`, `DedupTheorems.dfy` | `DedupAB` on all pairs whose common lines come in the same order |
| `DedupPairs.dfy` | the same, stated on the two slices instead of on a layout of them |
| `DedupSafety.dfy` | `DedupAB` on all inputs: when it panics, and that it invents no line |
| `DedupLogOrder.dfy` | `DedupAB` on two parts of one log, each with lines missing |
| `DedupSlices.dfy`, `LogWindows.dfy` | sorting and folding many slices; windows of one log |
| `LogGenerations.dfy`, `LogStreaming.dfy` | the generation store, and whole runs of it |
| `LogFlushes.dfy`, `LogProgress.dfy` | every flush has a result; when one is due; repeated flushing: where it stops, and a gap where it does not; slices that come too late |
| `LastPoll.dfy` | the time and the generation that label the polls |
| `LogPipeline.dfy`, `LogOutput.dfy` | polls, slice processor, writer and CleanUp as atomic steps; the output file |
| `LogShutdown.dfy` | the pipeline can be shut down from every state |
| `Runner.dfy`, `RunnerShutdown.dfy` | the collection runner as atomic steps; how its runs end |
| `Sequencer.dfy` | the k-way sequencer of log messages |
| `ClockState.dfy`, `ClockFlow.dfy` | the clock-class test and its analyzer; its transition matrix |
| `JUnitMerge.dfy`, `Cases.dfy` | merged suites, summaries of test cases, and how they compose |
| `CommandFrames.dfy` | tagged command outputs and their extraction |
| `Uri.dfy`, `UriBuilding.dfy` | building and rebasing test URIs, from text to text; what is accepted, written and refused |

Objects that the source updates are classes; concurrent code is a relation between a state and the
next one, with channels as sequences and wait groups as counters; the rest are functions.

## What the proofs show about the code

These are facts that the code's own documentation does not state, or states more broadly.

- Two overlapping slices are merged completely if and only if the earlier one ends with a common
  line and no two lines that only one of the slices has are in the same gap between common lines
  (`CompleteMergeOfSlices`). Otherwise lines of the earlier slice are lost.
- "Split and retry" after an overlap that cannot be repaired can panic, because the split can leave an
  empty slice: `[u, v, w]` before `[v, u]` does. For slices without repeated lines the panic happens
  exactly on empty slices and on slices whose heads cross (`PanicsIff`); with repeated lines it needs
  an empty slice or two common lines in opposite orders (`PanicNeedsCrossing`).
- A flush is due by age and by number of stored generations, but it moves the oldest generation on
  only if a later stored one lies within five of it (`FlushAdvancesIff`). If none does, it emits
  nothing, leaves the same generations and is due again at once (`FlushWithoutReach`); such a store is
  reachable (`GapIsReachable`). If one does, the oldest becomes the highest of them, as long as no two
  generations hold the same stretch of the log: of equal slices any may be sorted last. With
  consecutive generations repeated flushing stops (`RepeatedFlushingStops`).
- CleanUp of the log collector can return from every state (`CleanUpCanReturn`), and without a signal
  the runner can always come to its end (`CleanUpIsReachable`). With a signal it may not: the main loop
  waits for the pollers without taking results, and a full queue then blocks it for ever
  (`SignalCanBlock`). So do eleven failed polls where nothing reads the reported errors
  (`ErrorsCanBlock`).
- A slice of a generation below the oldest one, as a slow poll pushes it, brings back lines that were
  already emitted (`LateSliceRepeats`), and such a state is reachable (`LateSliceIsReachable`).
- `poll` reads the last poll's time and its generation under two separate locks. The label fits the
  time if and only if no later time came in between (`LabelFitsIff`).
- On the clock-class analyzer, reading the analysis before the result renames the counters, and the
  result can then no longer be computed when two known samples are there to count
  (`ReadVerdict` fails exactly then; `AnalysisReadFirst` does so on two samples).
- The clock-class test does not look at the attributes of the first sample, and an unknown class
  anywhere hides every other flaw (`AcceptedIff`, `HidingIff`).
- The summary of cases executed one after another ends when all of them are finished if and only if
  the last one starts alone or takes no time (`TimingCoversIff`). Merging the suites of two such
  runs gives the duration of the two runs as one if and only if no case of the first run starts
  together with the last one of the second, unless that takes no time (`SummariesCompose`). Of two
  cases at one instant, the second of five seconds, the joint summary says 0.0 and the merged suites
  5.0 (`SameStartLosesTime`).
- A key is spliced into a regular expression unescaped. For a key without the special characters
  ``\ + * ? ( ) | [ ] { } ^ $``, the output of its command is found if and only if it ends with a
  newline (`FoundIffTerminated`). A group stops at the first one that does not, and the outputs behind
  it are lost (`GroupRoundTrip`). A dot in a key stands for any character, so one command can take two
  tags of the group for its own; every command gets its own output if and only if none can
  (`RoundTripIff`). When the outputs end with newlines, that means that no key fits an earlier or a
  later one, nor that one behind a slash (`MisreadIffClash`), and without dots that no key is a slash
  followed by the key of an earlier command (`LiteralRoundTripIff`). `NotFound` shows the failures.
- Rebasing inverts building if and only if the path has no hash, question mark, tab or end of line,
  and the base, when it has no authority, has a path that does not start with two slashes and is
  not relative to a scheme that the library writes with an authority (`RebaseInvertsBuildIff`).
  The path "a#b" is refused on every base (`HashIsRefused`), and the bases "http:a" and "x:////a"
  refuse whatever is built on them (`RelativeBaseRefuses`, `SlashedBaseRefuses`). Building from an empty
  path fails at run time, and so does rebasing a base's own URI (`BuildFailsIff`, `RebaseFailsIff`).

## Model

| member | source | states |
|---|---|---|
| Dedup.FixMakesProgress | collection_tools/pkg/loglines/dedup.go:77-107 | every fix moves the first issue forward by more than it makes either slice longer: (lines of x + lines of y after the issue) decreases, on any input |
| Dedup.MatchAtTheStart | collection_tools/pkg/loglines/dedup.go:84-95 | at issue 0 with a common line a match is found, so no slice expression starts at -1 |
| Dedup.RepairOverlap | collection_tools/pkg/loglines/dedup.go:113-135 | the repair terminates, and ends without an issue or at an issue no earlier than the first with no more lines of y after it, which bounds the retry |
| Dedup.ProcessOverlap | collection_tools/pkg/loglines/dedup.go:113-135 | the loop over issues computes the repair and the de-duplication of its result |
| Dedup.NoFurtherRepair | collection_tools/pkg/loglines/dedup.go:113-135 | the DedupAB call after a successful repair needs no further repair |
| Dedup.FindLineIndex | collection_tools/pkg/loglines/dedup.go:27-36 | the first position of the line, or -1 if there is none |
| Dedup.FindFirstIssueIndex | collection_tools/pkg/loglines/dedup.go:41-54 | the first position at which both have a line and the lines differ, or -1 |
| Dedup.FindNextMatching | collection_tools/pkg/loglines/dedup.go:56-69 | the first line of a that is in b, and where |
| DedupTheorems.DedupOnLayout | collection_tools/pkg/loglines/dedup.go:77-176 | for any layout of two duplicate-free slices, gap by gap: the exact result of DedupAB, including the lines it drops and where it is cut into its two parts |
| DedupTheorems.CompleteMergeIff | collection_tools/pkg/loglines/dedup.go:77-176 | on a layout, a' ++ b' is the whole merge, every line once, if and only if every gap is one-sided and the earlier slice has no tail of its own; no line of the later slice is ever lost |
| DedupPairs.LayoutShowsBoth | collection_tools/pkg/loglines/dedup.go:77-176 | any two duplicate-free slices with common lines in the same order have a layout |
| DedupPairs.CompleteMergeOfSlices | collection_tools/pkg/loglines/dedup.go:77-176 | for any two such slices that overlap at the later one's first or the earlier one's last line: no line of the later one is lost, and none of the earlier one if and only if it ends with a common line and no gap has lines of both; then every line comes once and both orders are kept |
| DedupPairs.NoOverlapSeen | collection_tools/pkg/loglines/dedup.go:152-176 | any two such slices without that overlap come back as they are |
| DedupTheorems.MergeKeepsBothOrders | collection_tools/pkg/loglines/dedup.go:77-176 | the merge has both slices as subsequences |
| DedupSafety.NoLineIsInvented | collection_tools/pkg/loglines/dedup.go:138-176 | on all inputs, repeated and reordered lines included, every line of the result is one of the inputs' |
| DedupSafety.PanicsIff | collection_tools/pkg/loglines/dedup.go:138-176 | without repeated lines, DedupAB panics exactly on an empty slice or on crossing heads |
| DedupSafety.PanicNeedsCrossing | collection_tools/pkg/loglines/dedup.go:138-176 | on all inputs, repeated lines included, a panic needs an empty slice or two texts that come in opposite orders in the two slices |
| DedupSafety.ReversedHeadsPanic | collection_tools/pkg/loglines/dedup.go:138-149 | a concrete pair of slices on which the retry after the split panics |
| DedupLogOrder.ResultInLogOrderIff | collection_tools/pkg/loglines/dedup.go:113-176 | for two parts of one log DedupAB never fails, and a' ++ b' is in log order without repeats if and only if the parts meet; then no line of the later part is lost and none is invented |
| DedupSlices.SortSlices | collection_tools/pkg/loglines/dedup.go:187-199 | the slices are sorted in place by start and then by end |
| DedupSlices.DedupLineSlices | collection_tools/pkg/loglines/dedup.go:187-230 | sorts its argument and folds DedupAB back from the last slice |
| DedupSlices.DedupGeneration | collection_tools/pkg/loglines/dedup.go:18-23 | the slices of one generation become one slice |
| LogWindows.DedupWindow | collection_tools/pkg/loglines/dedup.go:152-176 | a window before a reference that starts no earlier and ends no earlier loses exactly what the reference repeats |
| LogWindows.FoldOfWindows | collection_tools/pkg/loglines/dedup.go:187-230 | for windows of one log in any order of arrival whose ends do not decrease: last is the whole final window, and r ++ last is the in-order union of all windows |
| LogGenerations.Generations.Add | collection_tools/pkg/loglines/lines.go:184-201 | appends the slice to its generation and keeps Latest the maximum |
| LogGenerations.Generations.RemoveOlderThan | collection_tools/pkg/loglines/lines.go:203-213 | exactly the generations from keepGen on stay, and Oldest is keepGen |
| LogGenerations.Generations.Flush | collection_tools/pkg/loglines/lines.go:220-237 | emits the lines of the generations in reach before their last slice, which alone replaces them; a panic changes nothing |
| LogGenerations.Generations.FlushAll | collection_tools/pkg/loglines/lines.go:239-254 | gives all lines of all generations as one slice |
| LogGenerations.FlushGroups | collection_tools/pkg/loglines/lines.go:257-269 | the collected generations are de-duplicated one by one in ascending order, then together |
| LogStreaming.InvAdd | collection_tools/pkg/loglines/lines.go:184-201 | an arriving slice keeps the store's invariant: what was emitted is what the windows cover before the oldest generation |
| LogStreaming.InvEmit | collection_tools/pkg/loglines/lines.go:220-237 | a due flush keeps it |
| LogStreaming.StreamedOnceInOrder | collection_tools/pkg/loglines/lines.go:184-269 | for every run of arrivals and due flushes ended by FlushAll, everything emitted, concatenated, is the union of all windows in log order, each line once |
| LogStreaming.FlushNeverPanics | collection_tools/pkg/loglines/lines.go:220-237 | no due flush of any run panics |
| LogStreaming.ReachableNumbers | collection_tools/pkg/loglines/lines.go:184-218 | in every reachable non-empty store Oldest and Latest are stored, all keys lie between them, and the 32-bit difference does not wrap |
| LogStreaming.FlushAdvancesIff | collection_tools/pkg/loglines/lines.go:203-237 | a due flush moves Oldest to a stored generation in reach; without two generations of the same stretch, to the highest one, and it moves it at all if and only if a later one is in reach |
| LogStreaming.FlushAdvancesByFive | collection_tools/pkg/loglines/lines.go:220-237 | with consecutive keys and no two of the same stretch, each flush advances Oldest by exactly keepGenerations |
| LogProgress.RepeatedFlushingStops | collection_tools/pkg/loglines/lines.go:215-237 | with consecutive keys and no two of the same stretch, any sequence of flushes after a run advances Oldest by keepGenerations each and is bounded by Latest - Oldest |
| LogProgress.FlushIsDueIff | collection_tools/pkg/loglines/lines.go:184-237 | after any run, a flush is due, and can be made, if and only if windows of at least six generations have arrived from the oldest stored one on, two of them more than five generations apart; the stored generations are exactly those |
| LogProgress.SpreadIsNotDue | collection_tools/pkg/loglines/lines.go:215-218 | three polls lead to a store of the generations 0, 3 and 6, in which no flush is due |
| LogFlushes.FlushExists | collection_tools/pkg/loglines/lines.go:220-237 | whatever the store, a flush has a result |
| LogProgress.FlushWithoutReach | collection_tools/pkg/loglines/lines.go:215-237 | when no stored generation is in reach, a due flush emits nothing, keeps the generations and is due again |
| LogProgress.GapIsReachable | collection_tools/pkg/loglines/lines.go:184-218 | a run of six polls leads to such a store |
| LogProgress.LateSliceRepeats | collection_tools/pkg/loglines/lines.go:184-254 | after any run, a slice below Oldest whose first line was emitted puts that line into the last flush again |
| LogProgress.LateSliceIsReachable | collection_tools/pkg/loglines/lines.go:184-237 | seven polls of one line each and a flush lead to a state in which the first poll's slice, pushed again, is such a slice |
| LastPoll.GenerationalLockedTime.Update | collection_tools/pkg/loglines/lines.go:79-87 | only a later time is taken, and it starts a new generation |
| LastPoll.BothGrow | collection_tools/pkg/loglines/lines.go:59-87 | over any history, time and generation grow together, exactly at the updates later than all before |
| LastPoll.LabelFitsIff | collection_tools/pkg/collectors/log_follower.go:226-266 | a poll's label is the generation of its since-time if and only if no record update came between the two reads |
| LastPoll.LabelsOrderTimes | collection_tools/pkg/collectors/log_follower.go:226-266 | among undisturbed polls, equal labels mean equal since-times and later labels later ones |
| LastPoll.DisturbedPollMislabels | collection_tools/pkg/collectors/log_follower.go:231-251 | a concrete disturbed poll shares its label with a poll for a later time |
| LogPipeline.InvNext | collection_tools/pkg/collectors/log_follower.go:108-174 | every step of every actor keeps the pipeline's invariant: conservation of slices and lines, channel bounds, wait-group membership, order of the hand-overs |
| LogPipeline.LosslessShutdown | collection_tools/pkg/collectors/log_follower.go:108-174 | in every interleaving written ++ queued ++ still to send is what was emitted, and CleanUp returns only when all of it is in the file, although each goroutine joins the wait group by itself |
| LogOutput.FileIsTheCoveredLog | collection_tools/pkg/collectors/log_follower.go:108-295 | composed with the store: after CleanUp the file is every covered line of the log, once, in log order |
| LogOutput.NoFlushPanics | collection_tools/pkg/collectors/log_follower.go:108-147 | in no state of such a run does a due flush or the last one panic |
| LogShutdown.CleanUpCanReturn | collection_tools/pkg/collectors/log_follower.go:108-174 | from every state of every run CleanUp can return without another slice being pushed; the file is then every covered line once, when no queued slice comes too late |
| LogShutdown.QueuedAtTheQuit | collection_tools/pkg/collectors/log_follower.go:112-138 | for any windows that fit into the channel there is a run in which all are still queued at the quit signal, and which ends with all they cover in the file |
| LogShutdown.EveryArrivalHasARun | collection_tools/pkg/collectors/log_follower.go:108-174 | for any number of windows there is a run that takes each when it is pushed, and ends with all they cover in the file |
| LogShutdown.DueFlushIsPossible | collection_tools/pkg/collectors/log_follower.go:141-147 | whenever the processor selects and a flush is due, the step can be made |
| LogShutdown.LineChannelFills | collection_tools/pkg/collectors/log_follower.go:108-138 | when the windows cover a thousand lines, there is a run in which the channel of lines holds a thousand |
| Runner.InvStart | collection_tools/pkg/runner/runner.go:189-225 | setting up the pollers, announcers last, keeps the runner's invariant |
| Runner.InvPoller | collection_tools/pkg/runner/runner.go:118-186 | every step of a poller keeps it |
| Runner.InvMain | collection_tools/pkg/runner/runner.go:228-284 | every step of the main loop keeps it |
| Runner.AtMostThreePolls | collection_tools/pkg/runner/runner.go:128-186 | in every reachable state each collector has at most maxRunningPolls polls in flight |
| Runner.CleanUpOnlyWhenIdle | collection_tools/pkg/runner/runner.go:228-284 | from the start of cleanUpAll on, no poll of any collector is in flight |
| Runner.AnnouncersOutlastCollectors | collection_tools/pkg/runner/runner.go:118-186 | without a quit signal, an announcer leaves its loop only after all other pollers have finished |
| RunnerShutdown.AnnouncerLeavesIff | collection_tools/pkg/runner/runner.go:118-126 | in every reachable state, an announcer among others at its loop can leave if and only if no other poller is between its Add and its Done, and then it can do nothing else |
| RunnerShutdown.ClockDecides | collection_tools/pkg/runner/runner.go:118-126 | all other pollers can both poll on and leave |
| RunnerShutdown.CleanUpIsReachable | collection_tools/pkg/runner/runner.go:189-284 | every run that is not handling a signal, and has room for an error it reports, can go on to the end of clean-up without a signal |
| RunnerShutdown.ThreePollsAtOnce | collection_tools/pkg/runner/runner.go:128-186 | the bound of three polls is reached, for every collector of any set of them |
| RunnerShutdown.PollerWaitsForPolls | collection_tools/pkg/runner/runner.go:144-186 | in every reachable state a poller that waits for its polls goes on if and only if none of them is at work or ending |
| RunnerShutdown.NoPollAfterSignal | collection_tools/pkg/runner/runner.go:152-157 | a poller with a waiting signal, not yet decided to poll, never starts a poll again, whatever else happens |
| RunnerShutdown.WaitsForAll | collection_tools/pkg/runner/runner.go:252-263 | after a signal the main loop goes on if and only if all other pollers, and then all announcers, have finished |
| RunnerShutdown.SignalEndsRun | collection_tools/pkg/runner/runner.go:152-284 | for any collectors there is a run in which every poller takes the signal and the runner cleans up |
| RunnerShutdown.SignalCanBlock | collection_tools/pkg/runner/runner.go:252-263 | with one collector, a full queue of results and one more poll at work, a signal leads to a state without any further step |
| RunnerShutdown.ErrorsCanBlock | collection_tools/pkg/runner/runner.go:264-272 | where nothing reads the reported errors, eleven failed polls of one collector block the main loop |
| Sequencer.InsertedIsSorted | postprocess/src/vse_sync_pp/sequence.py:74-87 | the new head stands behind all heads that are not later and before all that are; these keep their order, and all are sorted |
| Sequencer.StepTakesOne | postprocess/src/vse_sync_pp/sequence.py:128-137 | each pass takes one of the remaining items of all sources, so the loop ends |
| Sequencer.EverySourceInOrder | postprocess/src/vse_sync_pp/sequence.py:52-137 | the popped order restricted to any source is exactly that source |
| Sequencer.InversionsAreInherited | postprocess/src/vse_sync_pp/sequence.py:52-137 | for unsorted sources: a later pop with a smaller timestamp is explained by a late item before it in its own source |
| Sequencer.SortedIffSourcesAre | postprocess/src/vse_sync_pp/sequence.py:52-137 | the popped order is non-decreasing if and only if every source is |
| Sequencer.NotLaterComesFirst | postprocess/src/vse_sync_pp/sequence.py:74-137 | in every run, when an item follows a popped one, every head that waits then and is not later, equal timestamps included, is popped before it |
| Sequencer.TiesTakeTurns | postprocess/src/vse_sync_pp/sequence.py:74-137 | sources a, b and c, all at one time: the order is a, c, b |
| Sequencer.Sequencer.BuildHeads | postprocess/src/vse_sync_pp/sequence.py:61-71 | one head for every source that has an item, sorted |
| Sequencer.Sequencer.Sequence | postprocess/src/vse_sync_pp/sequence.py:127-137 | what is emitted is the popped order filtered by id |
| Sequencer.EmittedExactly | postprocess/src/vse_sync_pp/sequence.py:127-137 | every pop with an id to be emitted is emitted as often as it was popped, and no other |
| Sequencer.EmittedInOrder | postprocess/src/vse_sync_pp/sequence.py:127-137 | what is emitted comes from ascending places of the popped order |
| ClockState.FlagsMean | postprocess/src/vse_sync_pp/analyzers/pmc.py:133-177 | the three flags of the loop are: some consecutive pair is illegal, some sample after the first has a wrong accuracy, some has a wrong variance |
| ClockState.CountsMean | postprocess/src/vse_sync_pp/analyzers/pmc.py:142-168 | the counters after n samples count every change, every entry into a class and every consecutive pair of classes |
| ClockState.ClockStateAnalyzer.Test | postprocess/src/vse_sync_pp/analyzers/pmc.py:133-177 | the verdict equals its specification over the whole list of samples, and the counters are those up to the first unknown class |
| ClockState.ClockStateAnalyzer.ReadVerdict | postprocess/src/vse_sync_pp/analyzers/analyzer.py:108-112 | result and reason come from one test of the closed data, counted once however often they are read; the only failure is that of an analysis read first |
| ClockState.ClockStateAnalyzer.ReadAnalysis | postprocess/src/vse_sync_pp/analyzers/analyzer.py:114-120 | the analysis is made once, with the counters of that moment, and changes neither verdict nor counters |
| ClockState.AnalysisReadFirst | postprocess/src/vse_sync_pp/analyzers/pmc.py:93-97 | two concrete samples have a verdict, and none once the analysis was read |
| ClockState.ClockStateAnalyzer.Collect | postprocess/src/vse_sync_pp/analyzers/analyzer.py:85-89 | rows are appended until the data are closed, and refused afterwards |
| ClockFlow.FlowIsConserved | postprocess/src/vse_sync_pp/analyzers/pmc.py:142-168 | the matrix sums to n-1, a column sums to its class's count, row sum minus column sum is [class is first] - [class is last], and the transition count is the sum off the diagonal |
| ClockFlow.RedIffIllegal | tests/sync/G.8272/phc/state-transitions/plot.py:40-45 | a red cell of the heat map shows if and only if an illegal pair was counted |
| ClockFlow.AcceptedIff | postprocess/src/vse_sync_pp/analyzers/pmc.py:28-177 | a run passes if and only if it lasts, has known classes only, each of which may follow the one before, and from the second sample on accuracy 0x21 and variance 0x4E5D for class 6, 0xFE and 0xFFFF for the others, up to letter case |
| ClockFlow.FlawIff | postprocess/src/vse_sync_pp/analyzers/pmc.py:171-177 | of several flaws a transition is named before an accuracy, and that before a variance |
| ClockFlow.HidingIff | postprocess/src/vse_sync_pp/analyzers/pmc.py:133-160 | no data, short duration, short samples and the first unknown class are named exactly when they are there, in that order, and hide all other flaws |
| ClockFlow.FreerunIsNotReentered | postprocess/src/vse_sync_pp/analyzers/pmc.py:28-48 | in an accepted run FREERUN occurs only at the start (clockClass, section 7.6.2.4 of IEEE 1588-2008) |
| ClockFlow.HoldoverGates | postprocess/src/vse_sync_pp/analyzers/pmc.py:28-48 | in an accepted run out-of-spec holdover reaches in-spec holdover only through LOCKED, and LOCKED reaches out-of-spec only through in-spec |
| JUnitMerge.Merged.Combine | testdrive/src/testdrive/junit/merge.py:13-44 | keeps the merged attributes the hull: summed counters, the first earliest start, the latest finish, for any durations |
| JUnitMerge.OrderDoesNotMatter | testdrive/src/testdrive/junit/merge.py:13-44 | any permutation of the suites gives the same counters and, as instants, the same interval |
| Cases.Timing | testdrive/src/testdrive/cases.py:8-41 | the first earliest start, and the time to the finish of the first case that attains the latest start |
| Cases.Summarize | testdrive/src/testdrive/cases.py:44-57 | the numbers of places with each result, successes being what is left, and the timing |
| Cases.TimingCoversIff | testdrive/src/testdrive/cases.py:8-41 | for cases executed one after another the interval ends with the latest finish if and only if the last case starts alone or takes no time |
| Cases.SummariesCompose | testdrive/src/testdrive/cases.py:8-57 | for cases executed one after another, combining the summaries of xs and ys gives the counters and the start of the summary of xs ++ ys, and its duration if and only if no case of xs starts together with the last one of ys, unless that takes no time |
| Cases.SameStartLosesTime | testdrive/src/testdrive/cases.py:22-41 | two concrete cases at one instant, whose joint summary is shorter than the merged ones and than the cases |
| CommandFrames.CaptureIsLeftmostGreedy | collection_tools/pkg/clients/command.go:43-43 | for plain keys, whose dots stand for any character, the captured text is that of the leftmost, greedy match |
| CommandFrames.CaptureFailsIff | collection_tools/pkg/clients/command.go:65-88 | nothing is captured if and only if the expression matches nowhere |
| CommandFrames.RoundTripIff | collection_tools/pkg/clients/command.go:28-122 | for distinct plain keys without brackets, outputs in which nothing fits a tag, and no text of several tags that fits one: every output that ends with a newline is extracted without it, and nothing for the others, if and only if no command can take two other tags of the group, at their places, for its own |
| CommandFrames.MisreadIffClash | collection_tools/pkg/clients/command.go:43-43 | when the outputs end with newlines, some command can if and only if of two keys one fits the other, or the earlier or the later one fits the other behind a slash |
| CommandFrames.LiteralRoundTripIff | collection_tools/pkg/clients/command.go:28-122 | for keys that only stand for themselves the round trip holds, on any outputs without tags, if and only if no key is a slash followed by an earlier key |
| CommandFrames.FoundIffTerminated | collection_tools/pkg/clients/command.go:43-89 | a single command's output is found under its plain key if and only if it ends with a newline |
| CommandFrames.NotFound | collection_tools/pkg/clients/command.go:43-89 | concrete failures: an output without a newline, a key that reads like another's closing tag, a key with a dot that fits another, and a key of dots that fits two tags |
| CommandFrames.GroupRoundTrip | collection_tools/pkg/clients/command.go:91-122 | under the condition of RoundTripIff, a group gives under every key what the command's processor, if it has one, makes of its own output, up to the first command whose output does not end with a newline or is refused by its processor, and nothing behind it |
| CommandFrames.CmdGroup.ExtractResult | collection_tools/pkg/clients/command.go:110-122 | the results of all commands, or those before the first command without one |
| Uri.JoinOfSplit | testdrive/src/testdrive/uri.py:21-24 | joining what a split gives restores the text |
| Uri.SplitOfJoin | testdrive/src/testdrive/uri.py:37-54 | splitting what a join gives restores the parts, when none contains the separator |
| Uri.SplitIsSplit | testdrive/src/testdrive/uri.py:16-28 | what the parts of any text are like: a lower-case scheme, an authority and a path without the delimiters behind them |
| Uri.SplitOfWritten | testdrive/src/testdrive/uri.py:45-54 | the text written for scheme, authority, path and query splits into them again, up to the slash in front of the path |
| Uri.RebaseInvertsBuildIff | testdrive/src/testdrive/uri.py:37-68 | for any two accepted bases, URL or URN, and any path of separator-free segments: rebasing B1.build(path, any query) onto B2 equals B2.build(path) if and only if B1 can be restored from its text and the path has no character that a URI loses (section 3.3 of RFC 3986) |
| Uri.HashIsRefused | testdrive/src/testdrive/uri.py:56-68 | the path "a#b", built on any base, is refused |
| Uri.RelativeBaseRefuses | testdrive/src/testdrive/uri.py:37-68 | the base "http:a" refuses what is built on it, for every path and query |
| Uri.SlashedBaseRefuses | testdrive/src/testdrive/uri.py:37-68 | the base "x:////a" does so too |
| UriBuilding.AcceptedIff | testdrive/src/testdrive/uri.py:21-24 | a text with a scheme is accepted as a base if and only if it has no hash, and no question mark but at its end |
| UriBuilding.NeedsScheme | testdrive/src/testdrive/uri.py:21-24 | a text without a colon is no base |
| UriBuilding.UrnIsExtended | testdrive/src/testdrive/uri.py:25-54 | to a URN the segments of the path are appended with colons |
| UriBuilding.UrlIsExtended | testdrive/src/testdrive/uri.py:25-54 | to a URL with an authority they are appended with slashes, and one more slash |
| UriBuilding.RefusedIff | testdrive/src/testdrive/uri.py:56-68 | a URI built on one base that can be restored is refused by another base if and only if it has another scheme, another authority, or a path that does not start with the parts of that base |
| Uri.BuildFailsIff | testdrive/src/testdrive/uri.py:37-44 | building fails at run time exactly for the empty path |
| Uri.RebaseFailsIff | testdrive/src/testdrive/uri.py:56-68 | rebasing fails at run time exactly for the base's own URI |

## Left out

Weaker than the source, or on conditions:

- LogStreaming.StreamedOnceInOrder: assumes windows of one duplicate-free log with strictly increasing times, slices of a generation that share their first line, later generations that start and end no earlier, a first slice of generation 0, and no slice below Oldest, which LateSliceRepeats shows to be needed.
- LogStreaming.FlushAdvancesIff: the sort may leave slices with equal start and end in any order, so where Oldest goes is stated for stores without two generations of the same stretch.
- LogOutput.FileIsTheCoveredLog: carries the same assumptions over to the order in which polls push.
- LogWindows.FoldOfWindows: is about contiguous windows; for three or more slices with gaps, repairs made to the reference are not copied into the result lines, and nothing is claimed.
- LogPipeline.LosslessShutdown: a panic of the de-duplicator ends the program and is not a step; NoFlushPanics rules it out under the streaming assumptions. Writes to the file succeed.
- LogPipeline.InvNext: CleanUp is called when no poll is in flight, which is what Runner.CleanUpOnlyWhenIdle proves of the runner.
- LastPoll.BothGrow: fewer than 2^32 updates, after which the generation wraps around.
- DedupSlices.SortSlices: the order of slices with equal start and end is any; Store's inner slices are sorted through aliasing in the source and stay as they are here, which no later sort can observe.
- Sequencer.Sequencer.BuildHeads: heads with equal timestamps come in any order at the start, not by the rest of the tuple.
- ClockFlow.AcceptedIff: upper case is that of ASCII letters; Python's also turns some other letters and ligatures into those of the attributes.
- LogShutdown.CleanUpCanReturn: says that an ending exists, not that the scheduler takes it; a flush that is due without effect can be repeated for ever before the quit signal is received.
- ClockFlow.FlowIsConserved: durations and timestamps are reals instead of decimals and floats.
- JUnitMerge.Merged.Combine: timestamps are texts with their instants, durations are reals; malformed texts, which raise, are not values here.
- DedupPairs.CompleteMergeOfSlices: lines with the same text are the same line, because the timestamp is parsed from the text.
- Cases.Timing: the rounding to six digits is ignored, and every timed case has a duration.
- CommandFrames.RoundTripIff: keys with special characters of regular expressions other than the dot are not modelled; the key "a+b" is one for which the code finds nothing. Outputs that contain tags, and keys of dots that fit several tags at once, are left out by Proper; `NotFound` shows one of the latter.
- CommandFrames.CaptureIsLeftmostGreedy: likewise says what the code does for plain keys only.
- Uri.RebaseInvertsBuildIff: the library's urlsplit and urlunsplit are those of Python 3.10, without their checks of bracketed hosts and of host names under normalization; letters of schemes are ASCII. The query is any text of the characters that its encoding leaves; which keys it holds is not modelled.

Not modelled:

- The wait group with a count is a pair of counters in the runner's state, not an object; its Add and Done are two steps each.
- Runner liveness is the existence of an ending from every state without a signal under way, not fairness; the queue of errored polls has no reader here, so a run that reports an error into a full one is left out (`CleanUpIsReachable`).
- Clocks, sleeps and time-outs are nondeterministic steps. DevInfoCollector's error monitor is not part of the model.
- The dumper of generations, pod log streaming, parsing of log lines and all Kubernetes calls.
- `prepare` of the clock-class analyzer drops no row, because the first row is never before itself. The absolute or relative form of the reported timestamp is not modelled.
- The commands sent to the shell (`GetCommand`) and what a shell makes of them; the model starts from the framed output.
- Filtering, statistics, masks, parsers of measurement logs, plotting, report generation, configuration files.
