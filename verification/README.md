# Cuartel core, modelled and verified

A Dafny model of the scheduling, pipeline, review, workflow, mounting and checkpoint logic
of Cuartel, with proofs of what that logic keeps over every input and every run.

`dafny verify dfyconfig.toml` checks the whole project.

## What is modelled

**Cron** (`CronSyntax`, `CronGrammar`, `CronSearch`, `CronWindow`, `CronCoverage`, `CronSchedule`,
`CronDue`, `CronPolls`, with `Text`, `Calendar` and `PolledRun`). The parser and the printer of cron
expressions, the texts that the parser accepts, the search for the next tick on the full proleptic
Gregorian calendar, and scheduled jobs. The calendar is stepped day by day and agrees with closed
forms and with the weekday formula of RFC 3339, Appendix B. The search that jumps by month, day and
hour returns what trying every minute returns. Day of month and day of week are both required, as
the code has it; the `crontab` utility of POSIX.1-2017 accepts either when both are restricted. The
code's remark that four years are enough is wrong: around the year 2100 for leap days, and at any
time for dates tied to a weekday. `LeapDayMissedAcross2100` and `MondayNewYearMissed` name
expressions and instants, and `AlwaysTicksExactly` says for every expression, from its fields over
one 400-year cycle, whether there is always a next tick. A job whose expression has a longer gap can
stay due at every poll; `DueAtMostOncePerMatchingMinute` says for which expressions the number of
due polls is bounded by the matching minutes. While no advance fails, `DuePollsExactly` says which
polls find a job due with any clock, and `FiresEveryMatchingMinute` that a job polled every minute
misses no matching one.

**Pipelines** (`Graph`, `Pipeline`, `TopologicalSort`, `SortOrder`, `PipelineRuns`, `PipelineEnd`,
`PipelineProgress`, `PipelineListing`, `PipelineCalls`). Validation, Kahn's algorithm with its
in-degree counts and its queue, and the machine that runs the stages. The list in `CycleDetected` is
rendered as a path by the source, but it holds every stage from which a cycle can be reached:
`ListedOffCycle` shows a stage on no cycle in it, `ListedOnCyclesExactly` says when there is none.
The run state is not final: a cancel overrides a completed or failed run, and a cancelled run
becomes completed when its last stage completes and failed when a running stage fails.
`EndedRunChangesExactly` states that these are the only cases, and `CancelledCanComplete` when a
cancelled run can still complete. What is final is the state of a stage. With repeated ids, which a
run accepts without validation, `runnable_stages` can list what `start_stage` refuses:
`ListedButRefused` shows it in a run just started, and `ListedStartExactly` says of every pipeline
whether some run of it comes to that.

**Review** (`EditScript`, `Grouped`, `Overlay`, `Review`, `ReviewPatch`, `HunkSpacing`, `HunkCuts`,
`LineText`, `LineCuts`, `ReviewText`, `TreeDiff`, `ReviewTree`, `ReviewDecisions`,
`ReviewRoundTrip`, with `Sorting`). Hunks cut from an edit script with three lines of context, the
splice that applies any subset of them, the text that is written, and the diff, the plan and the
execution for whole trees. The diff library is an arbitrary source of valid edit scripts; how it
cuts a text into lines and groups a script into hunks is written out. `Patch` is the independent
reading of "apply these hunks": replay the script, taking the new lines of the changes in accepted
hunks. Which hunk that is, `LongRunIsCut`, `ShortRunStays` and `HunkCount` say by the lengths of the
equal runs alone. On text, the code keeps less than its tests suggest: a blank line at the end is
dropped, the last terminator follows the original and not the new text, and CRLF becomes LF. The
lemmas say exactly when accepting or rejecting everything gives a text back (`Survives`,
`RejectAllText`), and when a whole tree comes back (`Restorable`); a file that is added or deleted
empty has no hunks, so accepting all of it does nothing. The library also ends a line at a lone
carriage return and `str::lines` does not, so `apply_hunks` can panic on the very text that was
diffed: `LoneReturnsPanic` shows it, `HunksFitExactly` says when, for any text that the hunks meet.

**Workflows** (`Workflow`, `WorkflowRun`, `WorkflowCalls`). The step cursor with retries, pauses and
cancellation. Attempt counters are `u32` and wrap around. `fail_step` takes a definition on every
call; what holds for any definition and what holds only for the execution's own are stated apart. A
cancel is the last call that changes anything, and a step that runs when it comes stays running for
good.

**Mount planning** (`Mount`, `MountTree`, `MountPaths`, with `Sorting`). The walk over a directory
tree into files, skips and directories, the paths in the virtual machine, the order of the lists,
and the batches. The check that the mount point is not the root is never reached: the root is
refused as not absolute.

**Checkpoints** (`Checkpoints`, `CheckpointForest`, `CheckpointCalls`). The session and checkpoint
tables as maps with their primary and foreign keys, with creation, forking, deletion, export and
import.

Where the source updates an object in place the model is a class whose methods are proved equal to a
function of the old state (`...Rule` functions, `Walked`, `Executed`, `Advance`); the invariants are
proved about those functions over all sequences of calls, and the `...Exactly` lemmas say field by
field what each call changes, what it leaves alone, what it returns and when it refuses. Clock
readings, drawn ids and the JSON metadata of a fork are parameters.

## Model

| member | source | states |
|---|---|---|
| CronSyntax.ParsedExpr | crates/cuartel-core/src/cron.rs:87-167 | an accepted expression has the five ranges of its fields, values and range ends inside them, no zero step, no list within a list |
| CronSyntax.RoundTrip | crates/cuartel-core/src/cron.rs:250-276 | printing any accepted expression and parsing the print gives it back |
| CronSyntax.ParserImage | crates/cuartel-core/src/cron.rs:152-167 | the expressions that the parser can produce are exactly the well-formed ones |
| CronSyntax.MatchesIsMembership | crates/cuartel-core/src/cron.rs:60-79 | on every value of its range, `matches` decides membership in the set that the field denotes |
| CronSyntax.MeaningInRange | crates/cuartel-core/src/cron.rs:87-136 | a parsed field denotes a subset of its range |
| CronSyntax.FieldsThatNeverMatch | crates/cuartel-core/src/cron.rs:96-117 | a reversed range and a step over a single number parse and denote nothing |
| CronSyntax.MatchesNothingExactly | crates/cuartel-core/src/cron.rs:60-128 | an accepted field matches no value of its range if and only if it is a reversed range, a step over a single number or over a reversed range, or a list of these |
| CronGrammar.NumberExactly | crates/cuartel-core/src/cron.rs:99-131 | a number is accepted with any zeros before it and perhaps a plus sign, up to the largest `u32`, and nothing else is a number |
| CronGrammar.FieldExactly | crates/cuartel-core/src/cron.rs:92-136 | a field text is accepted as a value if and only if the value is well-formed and the text writes it: a star, a number, two numbers with a dash, one of these with a slash and a number, or a list of these with commas |
| CronGrammar.ParseExactly | crates/cuartel-core/src/cron.rs:152-167 | an expression is accepted as e if and only if e is well-formed and the text is five words that write its fields, with whitespace around and between them |
| CronGrammar.WordCount | crates/cuartel-core/src/cron.rs:153-159 | any other number of words is reported |
| CronGrammar.FieldError | crates/cuartel-core/src/cron.rs:92-146 | any other error names its field, and a number only if it is outside the range of that field |
| CronGrammar.PlainText | crates/cuartel-core/src/cron.rs:132-146 | a number alone is refused just for its range, other text without a comma, slash or dash is invalid |
| Calendar.DayNumberOfDate | crates/cuartel-core/src/cron.rs:213-233 | the day-by-day calendar and the closed day number undo each other, before the epoch too |
| Calendar.DateOfDayNumber | crates/cuartel-core/src/cron.rs:213-233 | every valid date is the date of its own day number |
| Calendar.WeekdayIsRfc3339 | crates/cuartel-core/src/cron.rs:174 | the weekday counted from the epoch is that of the formula in RFC 3339, Appendix B |
| Calendar.NextMonthDay | crates/cuartel-core/src/cron.rs:213-225 | the day found lies ahead and is the first of the following month |
| CronSearch.AdvanceMonthIsFirstOtherMonth | crates/cuartel-core/src/cron.rs:213-225 | it is the first instant after t in another month: every instant before it shares the month of t |
| CronSearch.AdvanceDayIsFirstOtherDay | crates/cuartel-core/src/cron.rs:227-233 | it is the first instant after t on another day |
| CronSearch.AdvanceHourIsFirstOtherHour | crates/cuartel-core/src/cron.rs:235-241 | it is the first instant after t in another hour |
| CronSearch.SkipPassesNoMatch | crates/cuartel-core/src/cron.rs:188-206 | every move of the loop goes forward to a whole minute and passes no matching minute |
| CronSearch.PlainSearchIsLeast | crates/cuartel-core/src/cron.rs:177-210 | trying every minute finds t exactly when t is the least matching whole minute after the start and at most 1464 days later, and fails exactly when there is none |
| CronSearch.NextTick | crates/cuartel-core/src/cron.rs:177-210 | the skipping search returns what trying every minute returns |
| CronWindow.OrdinaryDatesAlwaysTick | crates/cuartel-core/src/cron.rs:184-209 | an expression that leaves the weekday free and accepts any date but 29 February always has a next tick |
| CronWindow.MondayNewYearMatches | crates/cuartel-core/src/cron.rs:169-175 | the expression for Mondays that are 1 January matches midnight of 1 January in every year in which it is a Monday |
| CronWindow.MondayNewYearMissed | crates/cuartel-core/src/cron.rs:184-209 | the search for that expression from 2 January 2024 finds nothing |
| CronWindow.LeapDayMissedAcross2100 | crates/cuartel-core/src/cron.rs:184-209 | the window is too short for leap days: `0 0 29 2 *` after 1 March 2096 finds nothing, although 29 February 2104 matches |
| CronCoverage.CycleDate | crates/cuartel-core/src/cron.rs:169-175 | dates and weekdays repeat every 146097 days |
| CronCoverage.AlwaysTicksExactly | crates/cuartel-core/src/cron.rs:177-210 | an expression has a next tick after every instant if and only if it accepts some time of day and no gap between accepted dates of one 400-year cycle is longer than 1464 days |
| CronCoverage.FreeWeekdayHasNoLongGap | crates/cuartel-core/src/cron.rs:177-210 | with every weekday accepted this comes down to a date other than 29 February |
| CronCoverage.NeverMatchesExactly | crates/cuartel-core/src/cron.rs:169-175 | an expression matches no minute at all if and only if it accepts no time of day or no date of the cycle |
| CronCoverage.WeekAlwaysTicks | crates/cuartel-core/src/cron.rs:177-210 | an expression that accepts seven days in a row of some month, some weekday and some time always has a next tick |
| CronCoverage.WorkdaysAlwaysTick | crates/cuartel-core/src/cron.rs:177-210 | `0 9 * * 1-5` parses and always has a next tick |
| CronCoverage.MondayNewYearHasLongGap | crates/cuartel-core/src/cron.rs:177-210 | the expression for Mondays that are 1 January has a gap longer than the window, though it does match |
| CronSchedule.ScheduledJob.Create | crates/cuartel-core/src/cron.rs:293-316 | a job is created with its first tick, or the parser's or the search's error is returned |
| CronSchedule.ScheduledJob.AdvanceSchedule | crates/cuartel-core/src/cron.rs:318-324 | the last run is set even on error, the next run only on success |
| CronSchedule.ScheduledJob.Due | crates/cuartel-core/src/cron.rs:326-328 | an enabled job is due from its next run on |
| CronSchedule.CreateExactly | crates/cuartel-core/src/cron.rs:293-316 | a new job is enabled, has not run, keeps its text and its time, and is scheduled for the first match; it is refused with the parser's error, or for want of a match |
| CronSchedule.AdvanceExactly | crates/cuartel-core/src/cron.rs:318-324 | an advance changes the last run, and on success the next run to the first match after the clock, and no other field |
| CronSchedule.CreationSchedules | crates/cuartel-core/src/cron.rs:301-303 | a new job is scheduled for a matching minute after its creation |
| CronSchedule.PollMovesForward | crates/cuartel-core/src/cron.rs:318-328 | a poll that reschedules moves the next run strictly forward past the clock, any other leaves it |
| CronSchedule.FailedAdvanceStaysDue | crates/cuartel-core/src/cron.rs:318-328 | advancing fails exactly when no match lies in the window, and then the job stays due at every later poll |
| CronSchedule.ReschedulesAtMostOncePerMatchingMinute | crates/cuartel-core/src/cron.rs:292-329 | over any run of polls the scheduled minutes for which the job is rescheduled strictly increase and are at most as many as the matching minutes since creation |
| PolledRun.FiresCounted | crates/cuartel-core/src/cron.rs:318-335 | anything that fires only when due and then moves on fires at most once per good instant |
| CronDue.AdvanceAlwaysSucceeds | crates/cuartel-core/src/cron.rs:318-324 | rescheduling succeeds at every clock reading if and only if the expression accepts some time and has no gap longer than the window |
| CronDue.DueAtEveryPoll | crates/cuartel-core/src/cron.rs:318-336 | once no match lies in the window, every one of any number of polls finds the job due |
| CronDue.DueAtMostOncePerMatchingMinute | crates/cuartel-core/src/cron.rs:292-336 | over every creation and every clock the due polls are at most as many as the matching minutes elapsed, if and only if the expression has no gap longer than the window or never matches |
| CronDue.LeapDayJobStaysDue | crates/cuartel-core/src/cron.rs:318-336 | a job for 29 February polled n times on 1 March 2096 is due n times, with one matching minute elapsed |
| CronPolls.DuePollsExactly | crates/cuartel-core/src/cron.rs:292-336 | while no advance fails, with any clock that does not go back, a poll finds the job due if and only if a matching minute has passed since the poll before, or since its creation |
| CronPolls.FiresEveryMatchingMinute | crates/cuartel-core/src/cron.rs:292-336 | while no advance fails, a job polled at every whole minute is due, and fires, exactly as often as a matching minute has elapsed since its creation |
| CronPolls.TickingJobFires | crates/cuartel-core/src/cron.rs:292-336 | so always, for an expression that accepts some time and has no gap longer than the window |
| CronPolls.DisabledIsNeverDue | crates/cuartel-core/src/cron.rs:318-328 | a disabled job is never due, and no poll changes it |
| Graph.StuckReachesCycle | crates/cuartel-core/src/pipeline.rs:161-183 | in a finite graph, from a set in which every node depends on another of the set, a cycle is reached |
| Graph.OrderedAvoidsCycles | crates/cuartel-core/src/pipeline.rs:161-172 | no node of an order with dependencies first reaches a cycle |
| TopologicalSort.Tabulate | crates/cuartel-core/src/pipeline.rs:143-152 | in-degrees count dependency entries, repeated ones included, and the dependents table inverts them entry by entry |
| TopologicalSort.Release | crates/cuartel-core/src/pipeline.rs:163-171 | decrementing once per entry keeps the counts exact, never underflows, and queues a stage when its last entry is emitted |
| TopologicalSort.Sort | crates/cuartel-core/src/pipeline.rs:142-184 | succeeds exactly on acyclic dependencies, with a topological order in non-decreasing longest-chain depth, the roots first in id order, the rest by the place of their last dependency and then in pipeline order; otherwise lists exactly the stages that reach a cycle, at least one |
| SortOrder.OrderIsDetermined | crates/cuartel-core/src/pipeline.rs:142-184 | only one order has these properties, so the result of the sort is determined by the stages |
| TopologicalSort.Validate | crates/cuartel-core/src/pipeline.rs:94-119 | succeeds exactly when there are stages, ids are unique, dependencies known and acyclic; each error names what its check found first |
| TopologicalSort.TopologicalOrder | crates/cuartel-core/src/pipeline.rs:121-124 | an order exactly for valid pipelines, a permutation with dependencies first; otherwise the error of validation |
| TopologicalSort.ListedOffCycle | crates/cuartel-core/src/pipeline.rs:174-180 | with a and b depending on each other and c on a, all three are listed and c lies on no cycle |
| TopologicalSort.ListedOnCyclesExactly | crates/cuartel-core/src/pipeline.rs:174-180 | every listed stage lies on a cycle if and only if no stage off the cycles depends on a stage of one |
| PipelineRuns.PipelineRun.Start | crates/cuartel-core/src/pipeline.rs:298-309 | a pending run is running, any other is refused unchanged |
| PipelineRuns.PipelineRun.StartStage | crates/cuartel-core/src/pipeline.rs:311-346 | the run and the result are those of the start rule: stage known, dependencies completed in order, stage pending; the run state is not read |
| PipelineRuns.PipelineRun.CompleteStage | crates/cuartel-core/src/pipeline.rs:348-373 | the stage completes, and the run with its last stage, whatever the run state was |
| PipelineRuns.PipelineRun.FailStage | crates/cuartel-core/src/pipeline.rs:375-403 | the stage and the run fail and every pending stage is skipped |
| PipelineRuns.PipelineRun.Cancel | crates/cuartel-core/src/pipeline.rs:405-413 | every pending stage is skipped and the run is cancelled from any state |
| PipelineCalls.NewExactly | crates/cuartel-core/src/pipeline.rs:268-296 | a new run is pending, with a pending stage for each id of the pipeline and nothing recorded |
| PipelineCalls.StartExactly | crates/cuartel-core/src/pipeline.rs:298-309 | just a pending run starts, and its stages stay |
| PipelineCalls.FirstStageCounts | crates/cuartel-core/src/pipeline.rs:311-320 | of the stages with an id the first is the one whose dependencies count |
| PipelineCalls.StartStageExactly | crates/cuartel-core/src/pipeline.rs:311-346 | a stage starts if and only if it is known and pending and all it depends on is completed; only its state and session change |
| PipelineCalls.StartStageRefused | crates/cuartel-core/src/pipeline.rs:317-338 | a refusal names, in this order, an unknown stage, the first dependency that is unknown or the stage if that one is not completed, the state of the stage |
| PipelineCalls.CompleteStageExactly | crates/cuartel-core/src/pipeline.rs:348-373 | just a running stage completes, with its output, its session kept and every other stage untouched; the run completes with its last stage |
| PipelineCalls.FailStageExactly | crates/cuartel-core/src/pipeline.rs:375-403 | just a running stage fails, with its error, and the run; pending stages are skipped, running ones run on |
| PipelineCalls.CancelExactly | crates/cuartel-core/src/pipeline.rs:405-413 | pending stages are skipped, in their state only, and all others stay as they are |
| PipelineCalls.ListedInOrder | crates/cuartel-core/src/pipeline.rs:425-447 | runnable stages are listed in pipeline order, and none unless the run is running |
| PipelineRuns.ReachableInvariant | crates/cuartel-core/src/pipeline.rs:298-413 | over every run: started stages have completed dependencies, a completed run has only completed stages, a failed or skipped stage means the run failed or was cancelled, a failed run has a failed stage |
| PipelineRuns.NoStageStartsAfterStop | crates/cuartel-core/src/pipeline.rs:311-413 | once a run has failed or was cancelled no stage starts again, whatever is called |
| PipelineEnd.EndedRunChangesExactly | crates/cuartel-core/src/pipeline.rs:298-413 | in every reachable run that has ended a call changes the run state if and only if it cancels a run not cancelled yet, or completes the only stage not completed of a cancelled run, or fails a running stage of one |
| PipelineEnd.RunStateIsNotFinal | crates/cuartel-core/src/pipeline.rs:369-412 | all three happen, by example |
| PipelineEnd.CancelledCanComplete | crates/cuartel-core/src/pipeline.rs:311-413 | some continuation of a cancelled run completes it if and only if all its stages are completed or running and one is running |
| PipelineProgress.StartableIsRunnable | crates/cuartel-core/src/pipeline.rs:311-447 | in a running run what can be started is listed as runnable, ids repeated or not |
| PipelineProgress.RunnableIsStartableExactly | crates/cuartel-core/src/pipeline.rs:311-447 | over all running run records, whether calls lead to them or not: what is listed can be started, if and only if the first stage with an id needs no more than the others with that id |
| PipelineListing.ListedStartExactly | crates/cuartel-core/src/pipeline.rs:298-447 | in every run that calls lead to, what is listed can be started, if and only if no stage is exposed: one below whose dependencies lie only known ids that reach no cycle and are not its own, while the first stage with its id needs something that does not lie there |
| PipelineListing.ListedButRefused | crates/cuartel-core/src/pipeline.rs:311-447 | with `x` twice, first needing `y` and then nothing, `x` is listed as soon as the run is started, and refused |
| PipelineListing.UniqueIdsNotExposed | crates/cuartel-core/src/pipeline.rs:98-104 | with unique ids no stage is exposed |
| PipelineProgress.Progress | crates/cuartel-core/src/pipeline.rs:311-447 | a reachable running run of a valid pipeline with no stage running has a runnable stage, and every runnable stage starts |
| PipelineProgress.LogsAreExact | crates/cuartel-core/src/pipeline.rs:311-373 | in every run each stage starts and completes at most once, and completions respect the dependencies |
| PipelineProgress.MaximalRunCompletes | crates/cuartel-core/src/pipeline.rs:298-447 | without failure or cancel a run that cannot go on has started and completed every stage once, in a topological order, and is completed |
| EditScript.TrimLastLeads | crates/cuartel-core/src/overlay.rs:104 | trimming the equal run at the end of a script cuts only lines that both files share |
| Grouped.ByGrouping | crates/cuartel-core/src/overlay.rs:104 | induction over the grouping of any valid script into hunks |
| Grouped.ScriptContiguous | crates/cuartel-core/src/overlay.rs:104-117 | every group is nonempty and its ops follow one another, so that no count underflows |
| Overlay.HunkFor | crates/cuartel-core/src/overlay.rs:109-138 | a group becomes a hunk with its header and its stripped lines |
| Overlay.TextHunks | crates/cuartel-core/src/overlay.rs:100-142 | the loop over the groups gives the hunks of the two stripped files |
| Overlay.DiffHunksWellCut | crates/cuartel-core/src/overlay.rs:104-139 | hunks are in order and disjoint, header counts are those of the lines, both sides are the stretches of both files, only shared lines lie between them, and no old lines means an empty old file |
| Review.ApplyLines | crates/cuartel-core/src/review.rs:193-241 | the output lines are the gaps and, hunk by hunk, the side that was chosen |
| Review.WellCutNoPanic | crates/cuartel-core/src/review.rs:198-234 | on well-cut hunks no subtraction underflows and no slice is out of range |
| HunkSpacing.DiffHunksSpaced | crates/cuartel-core/src/overlay.rs:104-139 | between two hunks of a diff at least one old line is left out |
| HunkSpacing.DiffHunksFit | crates/cuartel-core/src/review.rs:190-234 | applied to a file of any length, the hunks of a diff make the function panic if and only if the last of them starts past the end of that file |
| HunkCuts.ChangeInOneHunk | crates/cuartel-core/src/overlay.rs:104-139 | whatever is changed lies in one hunk, its old lines removed first and then its new lines added |
| HunkCuts.ShortRunStays | crates/cuartel-core/src/overlay.rs:104-139 | at most six equal lines between two changes lie in one hunk, as context |
| HunkCuts.LongRunIsCut | crates/cuartel-core/src/overlay.rs:104-139 | of more than six equal lines between two changes the first three end one hunk, the last three start the next, and all others are in no hunk |
| HunkCuts.FirstRunIsTrimmed | crates/cuartel-core/src/overlay.rs:104-139 | of equal lines before the first change the last three start the first hunk and the others are in no hunk |
| HunkCuts.LastRunIsTrimmed | crates/cuartel-core/src/overlay.rs:104-139 | of equal lines after the last change the first three end the last hunk and the others are in no hunk |
| HunkCuts.HunkCount | crates/cuartel-core/src/overlay.rs:104-139 | a script with a change gives one hunk more than it has equal runs of more than six lines between changes; one equal run gives none |
| Review.SpliceLength | crates/cuartel-core/src/review.rs:210-228 | the result has as many lines as the original plus added less removed lines of the accepted hunks only |
| Review.FileStats | crates/cuartel-core/src/diff_render.rs:30-47 | the badge counts the added and the removed lines of all hunks |
| ReviewPatch.SpliceIsPatch | crates/cuartel-core/src/review.rs:192-241 | applying any set of hunks of a valid script is replaying the script with the changes of those hunks and no others |
| ReviewPatch.AcceptAll | crates/cuartel-core/src/review.rs:192-241 | accepting every hunk gives the new lines |
| ReviewPatch.RejectAll | crates/cuartel-core/src/review.rs:192-241 | accepting none gives the old lines |
| ReviewPatch.StatsAreNetLines | crates/cuartel-core/src/diff_render.rs:30-47 | added less removed is new less old line count, for every text diff |
| LineText.JoinLines | crates/cuartel-core/src/review.rs:193-243 | joining the lines of a text gives it back without its last terminator if and only if no carriage return stands before a line feed |
| LineText.FinishOfLines | crates/cuartel-core/src/review.rs:243-250 | the lines of a text come back as that text if and only if it is empty, or has no carriage return before a line feed, does not end in a blank line and is terminated exactly when the original is |
| LineCuts.SameCutExactly | crates/cuartel-core/src/review.rs:193 | the library and `str::lines` cut a text alike if and only if every carriage return but one at the very end stands before a line feed |
| LineCuts.FinishOfDiffed | crates/cuartel-core/src/review.rs:218-250 | the lines of the diff come back as the text they were cut from if and only if it survives: it is empty, or has no carriage return before its last character, does not end in a blank line and is terminated exactly when the original is |
| LineCuts.UnlinesOfDiffed | crates/cuartel-core/src/review.rs:167-181 | ending every line of the diff gives the text back if and only if it has no carriage return and is empty or terminated |
| ReviewText.ApplyHunks | crates/cuartel-core/src/review.rs:192-251 | the text returned is the spliced lines, joined and terminated like the original |
| ReviewText.HunksFitExactly | crates/cuartel-core/src/review.rs:190-241 | for any two texts and any original, applying the hunks panics if and only if the last starts past the last line of the original |
| ReviewText.HunksOfTextsNoPanic | crates/cuartel-core/src/review.rs:190-241 | on the very text that was diffed they do not panic if no carriage return stands alone before its end |
| ReviewText.LoneReturnsPanic | crates/cuartel-core/src/review.rs:190-241 | on n lines ended by lone carriage returns and one more, whose change is applied, they panic if and only if n is at least 5 |
| ReviewText.AppliedText | crates/cuartel-core/src/review.rs:192-251 | if no carriage return stands alone before the end of the old text: for any new text and any accepted set, the text returned is that of the patched lines, finished like the old text |
| ReviewText.AcceptAllText | crates/cuartel-core/src/review.rs:192-251 | under the same condition on the old text, accepting every hunk gives the new text, whatever it is, if and only if it survives |
| ReviewText.RejectAllText | crates/cuartel-core/src/review.rs:192-251 | under that condition, rejecting every hunk gives the old text if and only if it is empty, or has no carriage return before its last character and no blank line at its end |
| ReviewText.BlankLineLost | crates/cuartel-core/src/review.rs:243-249 | an appended blank line is lost, by example |
| ReviewText.AppliedLines | crates/cuartel-core/src/review.rs:192-251 | between texts without lone carriage returns, the lines read from the result of any accepted set are the patched lines, but for one blank line at the end |
| ReviewText.ReconstructAdded | crates/cuartel-core/src/review.rs:167-181 | the new sides of all hunks, every line terminated |
| ReviewText.AddedText | crates/cuartel-core/src/review.rs:167-181 | an added file is rebuilt exactly if and only if it has no carriage return and is empty or terminated |
| ReviewText.HunksIfDifferent | crates/cuartel-core/src/overlay.rs:100-142 | texts that differ have at least one hunk |
| Sorting.SortSorts | crates/cuartel-core/src/overlay.rs:79 | sorting by a key that no two elements share puts them in strict order |
| TreeDiff.BuildFileDiff | crates/cuartel-core/src/overlay.rs:83-98 | hunks if both sides are text, none and a binary mark otherwise |
| TreeDiff.DiffTrees | crates/cuartel-core/src/overlay.rs:55-81 | one diff for each path whose content changed and for no other, in path order, of the kind that fits |
| TreeDiff.DiffAtExactly | crates/cuartel-core/src/overlay.rs:55-98 | a changed path is added if it was not there, deleted if it is gone, else modified; it is binary, and has no hunks, if and only if a side is not text |
| ReviewTree.PlanReview | crates/cuartel-core/src/review.rs:77-126 | the plan of the decisions in order, or the error of the first that is out of range or whose original cannot be read |
| ReviewTree.PlanSucceeds | crates/cuartel-core/src/review.rs:84-123 | planning succeeds if and only if each decision can be planned on its own |
| ReviewDecisions.DecideRefused | crates/cuartel-core/src/review.rs:85-110 | a decision fails for its index, or if hunks are to be applied to what is not text on the host |
| ReviewDecisions.DecideExactly | crates/cuartel-core/src/review.rs:89-122 | otherwise its file is skipped if nothing is accepted or it is a modified binary, deleted if it was deleted, else written |
| ReviewDecisions.AnyHunkWillDo | crates/cuartel-core/src/review.rs:94-105 | an added file is written whole and a deleted one goes, whichever of its hunks are accepted, if any |
| ReviewDecisions.PlanListsSteps | crates/cuartel-core/src/review.rs:82-126 | the plan lists every decision once, skipped paths and actions each in the order of the decisions |
| ReviewDecisions.PlanFailsFirst | crates/cuartel-core/src/review.rs:84-123 | a plan fails with the error of the first decision that cannot be planned |
| ReviewDecisions.ReportCounts | crates/cuartel-core/src/review.rs:129-157 | the report counts the writes, and those deletions whose file is there when they come |
| ReviewRoundTrip.PlanPanicsExactly | crates/cuartel-core/src/review.rs:107-116 | whatever the host has become, planning a decision panics if and only if the last hunk of a modified file starts past the end of the file that is there now |
| ReviewTree.Host.Execute | crates/cuartel-core/src/review.rs:129-157 | the files after all actions in order, and a report that counts writes, real deletions and skips |
| ReviewTree.OwnPath | crates/cuartel-core/src/review.rs:77-157 | with distinct indices the file of a decision becomes what that decision alone makes of it |
| ReviewTree.OtherPaths | crates/cuartel-core/src/review.rs:77-157 | every path that no decision is about is unchanged |
| ReviewRoundTrip.FullAcceptPlans | crates/cuartel-core/src/review.rs:77-126 | accepting the whole diff of two trees never fails and never panics, if no carriage return stands alone before the end of the old text of a modified file |
| ReviewRoundTrip.FullAcceptGivesOverlay | crates/cuartel-core/src/review.rs:77-157 | under the same condition on the base, planning and executing the whole diff turns the base into the overlay, whatever that is, if and only if every changed file is restorable |
| ReviewRoundTrip.RejectingKeepsFiles | crates/cuartel-core/src/review.rs:89-92 | rejecting every file plans no action |
| Workflow.WorkflowExecution.Start | crates/cuartel-core/src/workflow.rs:266-273 | a pending workflow runs, any other is refused unchanged |
| Workflow.WorkflowExecution.BeginStep | crates/cuartel-core/src/workflow.rs:283-303 | the current pending step runs with one more attempt, and its id is returned |
| Workflow.WorkflowExecution.CompleteStep | crates/cuartel-core/src/workflow.rs:305-333 | the current step completes, the cursor moves on, and the last step completes the workflow |
| Workflow.WorkflowExecution.FailStep | crates/cuartel-core/src/workflow.rs:335-373 | the step is pending again while retries are left, else it and the workflow fail and the rest is skipped |
| Workflow.WorkflowExecution.PauseAtSignal | crates/cuartel-core/src/workflow.rs:375-394 | the running step waits for a signal and the workflow is paused |
| Workflow.WorkflowExecution.ResumeFromSignal | crates/cuartel-core/src/workflow.rs:396-402 | the workflow runs again and its current step completes |
| Workflow.WorkflowExecution.Cancel | crates/cuartel-core/src/workflow.rs:404-412 | pending and waiting steps are skipped, from any state; `EndedStaysEnded` adds that it is the only call a workflow that has ended accepts |
| Workflow.WorkflowExecution.Progress | crates/cuartel-core/src/workflow.rs:421-428 | the number of completed steps and of all steps |
| WorkflowCalls.NewExactly | crates/cuartel-core/src/workflow.rs:239-264 | a new workflow is pending at its first step, every step pending, without attempts, output or error |
| WorkflowCalls.StartExactly | crates/cuartel-core/src/workflow.rs:266-273 | just a pending workflow starts, and only its state changes |
| WorkflowCalls.BeginExactly | crates/cuartel-core/src/workflow.rs:283-303 | just a pending current step of a running workflow begins; its attempts go up by one modulo 2^32 and nothing else changes |
| WorkflowCalls.CompleteExactly | crates/cuartel-core/src/workflow.rs:305-333 | just a running or waiting current step completes, with its output; its error and attempts and every other step stay |
| WorkflowCalls.FailExactly | crates/cuartel-core/src/workflow.rs:335-373 | a failure is recorded with its error; the step is retried if its attempts are not above its retries, with every other step as it was, else it has failed and the later steps change in their state only |
| WorkflowCalls.PauseExactly | crates/cuartel-core/src/workflow.rs:375-394 | just a running current step waits, and only its state changes |
| WorkflowCalls.ResumeExactly | crates/cuartel-core/src/workflow.rs:396-402 | the waiting step of a paused workflow completes; if it cannot, the workflow is running all the same |
| WorkflowCalls.CancelExactly | crates/cuartel-core/src/workflow.rs:404-412 | pending and waiting steps change in their state only, to skipped; every other step is the same record, a running one too, and the cursor stays |
| WorkflowCalls.CancelIsFinal | crates/cuartel-core/src/workflow.rs:266-412 | after a cancel no sequence of calls changes anything |
| WorkflowCalls.CancelledRun | crates/cuartel-core/src/workflow.rs:404-412 | in every run cancelled while live, whatever follows: completed steps and a step that ran stay as they were, all others are skipped |
| WorkflowRun.ReachableInvariant | crates/cuartel-core/src/workflow.rs:239-412 | over every run, whatever definitions `fail_step` is handed: steps before the cursor are completed, those after it untouched while the workflow lives and skipped once it has ended, and the current step fits the state; handed the execution's own, attempts stay within the retries plus one |
| WorkflowRun.PausedIsWaiting | crates/cuartel-core/src/workflow.rs:375-402 | paused holds exactly when the current step waits, so resuming never fails half-updated; no step ever waits for a delay |
| WorkflowRun.ProgressIsCursor | crates/cuartel-core/src/workflow.rs:421-428 | the number of completed steps is the cursor, and a workflow with steps whose cursor is at the end is completed or was cancelled |
| WorkflowRun.CounterIsExact | crates/cuartel-core/src/workflow.rs:298-299 | the attempt counter never wraps around unless the step has `u32::MAX` retries |
| WorkflowRun.FailsForGood | crates/cuartel-core/src/workflow.rs:357-371 | a step fails for good exactly when its retries are used up, and then every later step is skipped |
| WorkflowRun.BeginsAreBounded | crates/cuartel-core/src/workflow.rs:283-373 | no run with its own definition begins more steps than the sum of retries plus one |
| WorkflowRun.CallsAreBounded | crates/cuartel-core/src/workflow.rs:266-402 | at most three calls for each attempt, and one start, succeed in any run with its own definition |
| WorkflowRun.AlwaysACall | crates/cuartel-core/src/workflow.rs:266-402 | a workflow with steps accepts some call if and only if it has not ended |
| WorkflowRun.EmptyNeverCompletes | crates/cuartel-core/src/workflow.rs:266-333 | a workflow without steps never completes |
| WorkflowRun.BoundedIffFinite | crates/cuartel-core/src/workflow.rs:335-366 | the attempts of all runs with their own definition have a bound if and only if no step has `u32::MAX` retries |
| WorkflowRun.ForeignDefinitionHasNoBound | crates/cuartel-core/src/workflow.rs:335-366 | handed another definition, no workflow with steps has a bound on its attempts |
| Mount.CollectMountPlan | crates/cuartel-core/src/workspace_mount.rs:166-201 | the lists of the walk in order, or the error for a relative mount point, a root that is missing or no directory, or an entry that cannot be read |
| Mount.Planner.Walk | crates/cuartel-core/src/workspace_mount.rs:203-287 | the walk adds to the plan the placement of each entry it comes to, in order, and fails if and only if it comes to one that cannot be read |
| Mount.Batches | crates/cuartel-core/src/workspace_mount.rs:340-354 | the batches concatenate to the files, none is empty or too large, and all but the last are full; a size of 0 works like 1 |
| MountTree.WalkComes | crates/cuartel-core/src/workspace_mount.rs:214-285 | every entry in no excluded directory is placed by the walk |
| MountTree.WalkOnly | crates/cuartel-core/src/workspace_mount.rs:214-285 | the walk places nothing else |
| MountTree.WalkedOnce | crates/cuartel-core/src/workspace_mount.rs:214-285 | no entry is placed twice |
| MountTree.VmPathInjective | crates/cuartel-core/src/workspace_mount.rs:296-310 | different host paths have different paths in the virtual machine |
| MountTree.PlannedFiles | crates/cuartel-core/src/workspace_mount.rs:235-284 | a file is planned if and only if no component of its path is excluded or not UTF-8 and it is not too large |
| MountTree.PlannedDirectories | crates/cuartel-core/src/workspace_mount.rs:256-268 | a directory is planned if and only if no component of its path is excluded or not UTF-8 |
| MountTree.PlannedSkips | crates/cuartel-core/src/workspace_mount.rs:217-279 | an entry is skipped if and only if the walk comes to it and a reason applies, and the first such reason is given |
| MountTree.AncestorsAreMade | crates/cuartel-core/src/workspace_mount.rs:256-284 | every directory above a planned file is planned |
| MountTree.VmPathsDiffer | crates/cuartel-core/src/workspace_mount.rs:245-284 | no two planned files or directories share a path |
| MountTree.PlanIsPartition | crates/cuartel-core/src/workspace_mount.rs:203-287 | each entry the walk comes to is in exactly one of files, skips and directories |
| MountTree.WalkSucceeds | crates/cuartel-core/src/workspace_mount.rs:203-287 | the walk succeeds if and only if nothing unreadable stands at a path without excluded or non-UTF-8 components |
| MountTree.PlanIsInOrder | crates/cuartel-core/src/workspace_mount.rs:196-199 | files are in strict order of their paths in the virtual machine and skips of their host paths, with nothing lost or repeated |
| MountPaths.MountPointExactly | crates/cuartel-core/src/workspace_mount.rs:97-109 | a mount point is accepted as s if and only if s starts with a slash, does not end with one, and only slashes follow it |
| MountPaths.MountPointRefused | crates/cuartel-core/src/workspace_mount.rs:98-108 | refused is what does not start with a slash, or holds nothing else |
| MountPaths.VmPathByComponent | crates/cuartel-core/src/workspace_mount.rs:296-310 | the root is at the mount point, an entry at the path of its directory, a slash and its name, and what is not text is nowhere |
| MountPaths.PlannedUnderParent | crates/cuartel-core/src/workspace_mount.rs:235-284 | every planned file or directory is at the mount point or at the path of a planned directory, plus a slash and its own name |
| Checkpoints.Database.Insert | crates/cuartel-db/src/checkpoints.rs:43-59 | a new row, unless its id is taken or its session or parent is unknown; a row may be its own parent |
| Checkpoints.Database.Create | crates/cuartel-core/src/checkpoint.rs:55-77 | the parent is looked up first, then the row is inserted |
| Checkpoints.Database.Delete | crates/cuartel-core/src/checkpoint.rs:123-132 | a row with children stays and their number is reported, any other is removed |
| Checkpoints.Database.PrepareFork | crates/cuartel-core/src/fork.rs:45-84 | the three checks in order, then one row for the new session under the source |
| Checkpoints.Database.LinkRivetCheckpoint | crates/cuartel-core/src/checkpoint.rs:119-121 | the remote id of one existing row is set |
| Checkpoints.Database.UpdateLabel | crates/cuartel-core/src/checkpoint.rs:110-112 | the label of one existing row is replaced |
| Checkpoints.Database.ImportSnapshot | crates/cuartel-remote/src/sync.rs:154-188 | the session on the target server, then its rows one by one until one fails |
| Checkpoints.Database.RepointSession | crates/cuartel-remote/src/sync.rs:232-248 | the server and, if given, the remote session id of a row are replaced |
| CheckpointCalls.InsertExactly | crates/cuartel-db/src/checkpoints.rs:43-59 | an insert succeeds for a new id with a known session and a known parent, or itself as parent; it adds that row and returns it, and is refused for the id first |
| CheckpointCalls.InsertSessionExactly | crates/cuartel-db/src/sessions.rs:43-59 | a session is inserted for a new id with a known workspace and server, and nothing else changes |
| CheckpointCalls.CreateExactly | crates/cuartel-core/src/checkpoint.rs:55-77 | creating succeeds for a new id, a known session and a known parent; it adds and returns one row with the given fields, `{}` for metadata not given |
| CheckpointCalls.LinkExactly | crates/cuartel-core/src/checkpoint.rs:119-121 | just the remote id of one checkpoint changes, and the row is returned |
| CheckpointCalls.LabelExactly | crates/cuartel-core/src/checkpoint.rs:110-112 | just the label of one checkpoint changes, and it can be taken away |
| CheckpointCalls.ForkIsChild | crates/cuartel-core/src/fork.rs:45-84 | when a fork succeeds and with which error it fails; the new row is the one child added, in the new session, titled after its source, and returned as the checkpoint next to the unchanged source |
| CheckpointCalls.LinkEnablesFork | crates/cuartel-core/src/fork.rs:59-64 | a checkpoint can be forked only once it is linked |
| CheckpointCalls.RepointExactly | crates/cuartel-remote/src/sync.rs:232-248 | when a repoint succeeds, and that it changes nothing but the server and, if given, the remote id of the session |
| CheckpointForest.ForestIffChainsEnd | crates/cuartel-db/src/schema.rs:53-62 | the rows can be ranked above their parents if and only if every chain of ancestors ends |
| CheckpointForest.InsertKeepsForest | crates/cuartel-db/src/checkpoints.rs:43-59 | an insert keeps the forest if and only if the row is not its own parent |
| CheckpointForest.CreateKeepsForest | crates/cuartel-core/src/checkpoint.rs:55-77 | creating keeps the forest whatever id is drawn |
| CheckpointForest.RunsKeepForest | crates/cuartel-core/src/checkpoint.rs:55-132 | over every run of creation, forking, deletion, updates and imports without self-parents, references are sound and the checkpoints are a forest |
| CheckpointForest.EmptyIsForest | crates/cuartel-db/src/schema.rs:42-62 | a database without sessions is sound and a forest, where every run starts |
| CheckpointCalls.DeleteExactly | crates/cuartel-core/src/checkpoint.rs:123-132 | deleting succeeds exactly for a row that exists and is nobody's parent, and takes away that row only; a parent is refused with the number of its children |
| CheckpointCalls.DeleteUndoesCreate | crates/cuartel-core/src/checkpoint.rs:55-132 | deleting a row just created restores the tables |
| CheckpointForest.ImportExactly | crates/cuartel-remote/src/sync.rs:154-188 | an import succeeds if and only if the session is new, its workspace and server known, and every row is new and finds session and parent already there or earlier in the list |
| CheckpointForest.ImportForestExactly | crates/cuartel-remote/src/sync.rs:176-185 | an import keeps the forest if and only if no imported row is its own parent |
| CheckpointForest.SelfParentIsImported | crates/cuartel-remote/src/sync.rs:176-185 | a snapshot of one checkpoint that is its own parent is imported without error and breaks the forest |
| CheckpointForest.FailedImportChanges | crates/cuartel-remote/src/sync.rs:154-188 | a failed import leaves the tables as they were if and only if the session exists or its workspace or server is unknown |
| CheckpointForest.FailedImportKeepsPrefix | crates/cuartel-remote/src/sync.rs:166-187 | any other failed import leaves the session row and exactly the checkpoints before the first that cannot be inserted |
| CheckpointForest.ImportIsNotAtomic | crates/cuartel-remote/src/sync.rs:166-187 | a snapshot whose second checkpoint names a missing parent fails and leaves its session and its first checkpoint |
| CheckpointForest.ExportImports | crates/cuartel-remote/src/sync.rs:137-188 | an export imports into a database without that session if and only if the parents come first or are there |
| CheckpointForest.ImportReproduces | crates/cuartel-remote/src/sync.rs:137-188 | an imported export holds the same checkpoints with the same parents, and keeps what was there |
| CheckpointForest.ForkNeedsItsSource | crates/cuartel-remote/src/sync.rs:154-188 | a forked session cannot be imported where its source checkpoint is missing, and the attempt leaves a session row |

## Left out

- Instants outside the range of `chrono`, leap seconds and the fallbacks for dates that do not exist: time is unbounded here, so `advance_month` and the others never fall back.
- `ready_stages`, `completed_outputs`, `aggregate_stats` and `interpolate_prompt`: filters over the state, a sum, and a result that depends on the order of a hash map.
- Stage and step timestamps, names, prompts, agent types and timeouts: carried along and never read by the logic.
- The choice of edit script by the diff library (Myers' algorithm): any valid script is allowed, so minimality of diffs is not stated.
- ReviewText.AcceptAllText: old texts in which a carriage return stands alone before the end are excluded, as in AppliedText and RejectAllText; for them only HunksFitExactly says what happens, since the lines of the hunks are then not those of the original.
- ReviewRoundTrip.FullAcceptGivesOverlay: such old texts are excluded where a file is modified; the new texts are arbitrary.
- ReviewText.AppliedLines: texts with lone carriage returns are excluded, because reading the result again cuts it differently; AppliedText states the result itself.
- ReviewTree.Host.Execute: the file system is a flat map, so parent directories, a directory in the place of a file, and I/O errors while writing are not modelled.
- ReviewTree.PlanReview: requires that the source does not panic, which PlanPanicsExactly reads off the last hunk and the file on the host.
- Binary files: kept as contents that are not text, with the source's rules (no hunks, skipped when modified, written empty when added); their bytes are never compared line by line.
- TreeDiff.DiffTrees: the order of paths is any strict total order, not the component order of the host's paths.
- Workflow.WorkflowExecution.BeginStep: the attempt counter wraps around, as it does without overflow checks; with them the call panics instead, only for `u32::MAX` retries.
- Mount.CollectMountPlan: the orders of texts and of host paths are any strict total orders, and an unreadable listing, type or size are one kind of error; a root that cannot be read at all counts as no directory.
- `mount_workspace` beyond its batching loop: the calls to the virtual machine.
- Checkpoints.Database.ImportSnapshot: timestamps are not modelled, so the order in which rows are listed on export is left open; it is a hypothesis that parents come first.
- CheckpointForest.ExportImports: `export_snapshot` is stated as the predicate `IsExport` on what it returns, not as a method, because SQLite chooses the order of rows with equal times.
- The wider schema (workspaces, servers and their deletion) and the deletion of sessions: only the keys that inserts look at are modelled.
- Checkpoints.Database.PrepareFork: the shortened id in a label counts characters, where the source counts bytes of an ASCII id.
- The session state machine (`session.rs`) and transfer planning (`file_passing.rs`): small transition tables and path building that would add only easy members.
- User interface, agent protocol, remote actors, credentials and networking.
