# lgtm: a verified model of its orchestration

lgtm runs coding agents for a team. An orchestrator keeps tasks, plans, runners,
todos and credentials; runners connect to it, run an agent in a worktree, and report
every step as an event. Nothing but those events tells the orchestrator what
happened. This project models the parts that keep state across events, and a few
algorithms around them, and proves what they keep.

`dafny verify dfyconfig.toml` checks everything. Code that changes things step by
step is modelled by classes and loops and proved against specification functions;
code made of expressions is modelled by functions. What the outside decides (exit
codes, cancels, timeouts, check results, git, the clock, the order of a hash map,
random ids) is a parameter or an arbitrary choice, so every theorem is about every
such choice.

## What is proved

- **A run and its history** (`Automation`, `Courses`, `RunnerTasks`, `Executions`,
  `Attempts`, `Interleavings`, `Artefacts`). The runner is an object that appends to a
  trace while it works through crash retries, commits, fix runs and a review. A `World`
  answers for everything outside. However it answers, one terminal event comes out, it
  is the one that answer calls for, and folding the trace into `task.executions` gives
  closed attempts that ended one for one as the retries and that event say. Every spawn
  that started is paid for (`Courses.EverySpawnIsPaidFor`), and an attempt's times and
  names are those of the events it spans (`Attempts.AttemptsSpanTheirEvents`). When a
  runner is given up and the task handed to another, the runs' events interleave; that
  history is closed and bounded as well, though an end that comes in late may close
  another run's attempt.
- **The dependency graph** (`Tasks`, `Statuses`, `Cascade`, `Retries`, `Plans`). The
  status of a task is what the deciding event of its stream calls for, and agrees with
  its attempts. `fail_dependents` and `apply_event` call each other; the measure is the
  set of queued tasks. What is failed is characterised by reachability, and a plan's
  graph by its step keys. What waits for a task that is itself put back has failed over
  it by then (`Cascade.LostRunnerFailsTheQueueBehindATaskItRetries`). In every history
  from there on, what the cascade reached is not ready before the task it started from
  is put back, or one on the way leaves the queue out of turn on the report of a runner
  that was given it before (`Retries.ReadyOnlyOnceReleased`).
- **Runner connections** (`Runners`). Sockets, generations and grace timers form a step
  system; safety is proved over every run of it, and the methods of the orchestrator are
  proved to take its steps.
- **Numbering, statistics, policy** (`Prefixes`, `Naming`, `Projects`, `Displays`,
  `Aggregates`, `Stats`, `Figures`, `Policies`, `Approvals`). Todos come and go,
  projects are opened and given other prefixes, the orchestrator restarts: in every
  state of every such run each todo has one display id and no two have the same.
- **Smaller algorithms** (`Skills`, `App`, `Provision`, `Credentials`), on the shared
  `Orders`, `Ids` and `Protocol`.

## Where the code and its promises differ

Each of these is proved with a concrete case and the exact condition, and the model
follows the code.

- `fail_dependents` says it fails every task waiting on an id
  (`crates/orchestrator/src/plan.rs:31-33`). `apply_event` may put such a task back in
  the queue at once (`crates/orchestrator/src/state.rs:1269-1355`), so it does what it
  says exactly if no reachable task has a retry left: `Cascade.FailsThemAllIff`, with
  `Cascade.OneReassignableDependentIsNotFailed`. What is put back is blocked when the
  cascade ends: `Cascade.PutBackDependentsAreBlocked`.
- An attempt is to list the files it left (`crates/protocol/src/lib.rs:1512`). Of the names a
  run leaves, it lists those it had before, and those of which a file has changed since it
  was last sent if the run did not time out: `RunnerTasks.FilesAreRecordedIff`. What else
  comes in between decides whether an announced file arrives while the attempt is open:
  `RunnerTasks.ArtefactsAreRecordedIff`. So files are missing after a timeout, after a loss,
  and after a retry that left them as they were: `RunnerTasks.ATimedOutRunLosesItsFile`,
  `RunnerTasks.ALostRunnersRunLosesItsFile`, `RunnerTasks.ARetriedRunLacksItsUnchangedFile`.
- Generations restart at 1 with a new entry, so a timer can expire a disconnect it was not
  started for, exactly if one of that name was pending when the entry was created:
  `Runners.GoesAstrayIffLeftover`, with `Runners.LeftoverTimerExpiresAFreshDisconnect`.
- `collect` selects by reduced name while the caps are applied to files:
  `Artefacts.WithinCapsIffNoSharedName`, with `Artefacts.TwoFilesOfOneName`.
- The diff limit counts lines "without the file headers"
  (`crates/orchestrator/src/policy.rs:138`), and takes a changed line whose text starts
  with `++` or `--` for a header: `Approvals.CountsEveryChangeIff`, with
  `Approvals.AnIncrementIsNotCounted`.
- Numbers given at startup do not depend on the order of a hash map
  (`Projects.NumbersDoNotDependOnIteration`). The prefixes given on the way do, exactly if
  two of the new projects clash: `Projects.PassesAgreeIffNoneClash`, with
  `Prefixes.PrefixesDependOnOrder`.
- What the system derives as a prefix, a person is to be able to type
  (`crates/orchestrator/src/api/projects.rs:70-72`). They can exactly while a candidate with
  a letter in it is free, and that is no longer so when ten million names are alike:
  `Displays.DerivedPrefixesCanBeTyped`, with `Displays.APrefixNobodyCanType`.
- A reconnecting ephemeral runner passes for the one on its way, and the cap is
  exceeded: `Provision.ReconnectBreaksTheCap`. It is exceeded by one for each such runner
  and each overdue launch at most, and by that many in some run:
  `Provision.CapIsExceededOnlyBySurprise` and `Provision.BoundIsReached`.

## Model

| member | source | states |
|---|---|---|
| Automation.Run.Execute | crates/agent/src/automation.rs:186-228 | from any world of exits, cancels, interrupts, timeouts, errors and check results: the run announced exactly one terminal event, or none and returned the error of its last spawn or commit; that event is the one the world calls for, crash retries and fixes are within the policy, spawns, attempts and retries are exactly counted, and what the run cost is what its spawns cost together |
| Courses.EverySpawnIsPaidFor | crates/agent/src/automation.rs:186-228 | whatever one spawn costs more, two runs of one task that differ in nothing else spawn as often, return the same and announce the same end; their costs, and the one in a result, differ by exactly that if the spawn was made and started, however it ended, and not at all otherwise |
| Courses.NothingSpentNothingReported | crates/agent/src/automation.rs:186-228 | in a world in which no spawn costs anything the run and its result report zero |
| Courses.OneCourse | crates/agent/src/automation.rs:302-377 | a world leaves a task one course: how many crashes are retried, how many fixes are spent and whether there is a review are settled by its answers |
| Courses.TheLastSpawnDecides | crates/agent/src/automation.rs:186-300 | for each way the last spawn can end, what is returned or announced: its error, a cancel, the timeout, the exit status, the error of the commit, or the completed change or plan |
| Courses.WhatAChangeCarries | crates/agent/src/automation.rs:207-228 | a change handed in carries the last commit, one result per declared check in order as run on it, and a review exactly if the policy asks for one and something changed: the reviewer's answer, or its exit status if that is not zero |
| Automation.Run.Attempts | crates/agent/src/automation.rs:302-332 | the executor is spawned again only after crashes, at most `retry` times; the run handed on is the outcome of the last spawn, and a crash is handed on only when the retries are spent |
| Automation.Run.CommitAndFix | crates/agent/src/automation.rs:334-377 | the change that comes out is that of the last commit with the checks run after it; a check may still fail only when all `fix_checks` fix runs were spent, and a fix run that was stopped or an error ends the loop with that outcome |
| Automation.Run.Review | crates/agent/src/automation.rs:390-420 | exactly one more spawn; its exit status decides between a parsed review and a failed reviewer, and a stop or an error of the reviewer is passed on |
| Automation.Run.Plan | crates/agent/src/automation.rs:273-300 | a plan task spawns once, whatever happens, and ends as its exit status or its parsed answer says |
| Automation.Run.AgentRun | crates/agent/src/automation.rs:424-458 | one agent run appends precisely `Started`, the timeout if there was one, then the notes, files and denied hosts it left, and nothing when it never started; the cost grows by that run's; a timeout is announced before what was left behind |
| Automation.Run.Stopped | crates/agent/src/automation.rs:232-237 | a cancelled run announces `Cancelled`; one that ran out of time has already announced its end and announces nothing more |
| Automation.Run.Validate | crates/agent/src/automation.rs:381-388 | checks are announced exactly when some are declared, and what comes back is the result for the last commit |
| Automation.Run.AfterRun | crates/agent/src/automation.rs:498-509 | notes are published exactly when they are there, not empty and not the ones already published |
| Automation.Run.SendArtefacts | crates/agent/src/automation.rs:512-526 | a file is announced exactly if its content is not what was last sent under its name, and no artefact is ever sent twice in a row unchanged |
| Automation.AnnouncedIsCurrent | crates/agent/src/automation.rs:512-526 | afterwards the content last sent under each name is the file's final content |
| Automation.Run.CloseProxy | crates/agent/src/automation.rs:480-494 | one event for each distinct denied host, in the order first denied |
| Automation.LeftBehindIsSide | crates/agent/src/automation.rs:498-526 | what a finished run publishes never opens or closes an attempt |
| Automation.RetriesAreNumbered | crates/agent/src/automation.rs:302-332 | the `k`-th crash retry carries the number `k` and the exit status of the spawn before it |
| Automation.FixesAreNumbered | crates/agent/src/automation.rs:334-377 | the `k`-th fix retry carries the number `k` and the checks that failed after the `k`-th commit |
| Automation.FailedNamesAreTheFailures | crates/agent/src/automation.rs:345-365 | the names a fix retry gives are exactly those of the failing checks, and there is one exactly if a check failed |
| Automation.EveryCrashAndFailureIsReal | crates/agent/src/automation.rs:302-377 | every spawn before the crash count exited with an error and every commit before the fix count left a check failing |
| Automation.TallyMatchesHistory | crates/orchestrator/src/execution.rs:7-72 | the producer's running tally of its trace is what the consumer will count: attempts opened, whether one is open, and which events closed one |
| RunnerTasks.RunTask | crates/agent/src/runner.rs:20-69 | for every world one task announces exactly one terminal event, `Failed` with the error when preparing or running returned one, leaves the running set and is counted once |
| RunnerTasks.ReportError | crates/agent/src/runner.rs:20-58 | an error becomes the one terminal event of a run that had announced none |
| RunnerTasks.HistoryOfATrace | crates/orchestrator/src/execution.rs:7-72 | folding a trace into a closed history adds the attempts the trace opens, each closed one ended by its own closing event |
| RunnerTasks.RunsAreRecorded | crates/orchestrator/src/execution.rs:7-72 | producer and consumer agree, whatever else is sent beside the protocol: the history is closed again, old attempts are untouched, it grows by one attempt per retry plus one (one less if the last spawn never started), at most `1 + retry + fix_checks`, and the new attempts ended one for one as those retries and the last event say |
| RunnerTasks.LostRunsAreRecorded | crates/orchestrator/src/execution.rs:7-72 | with any number of `RunnerLost` recorded while the run goes on: the history is still closed again and old attempts untouched, and it grows by at most one attempt more, and that only if a reviewer started |
| RunnerTasks.ALossBeforeTheReviewOpensAnother | crates/orchestrator/src/execution.rs:7-72 | a concrete stream in which a loss costs that one attempt more |
| Interleavings.InterleavedRunsAreRecorded | crates/orchestrator/src/runner_ws.rs:236-273 | any number of runs of one task, their events interleaved with each other and with what the orchestrator records itself, under whatever runner the task has at each event: once all have ended the history is closed and old attempts are untouched; it has grown by at most the spawns the runs were allowed and at least the attempts of any one, and each new attempt ended as an event of one of them says |
| Interleavings.InterleavedHistory | crates/orchestrator/src/execution.rs:7-72 | the same of any streams of which none leaves an attempt open: no more attempts than starts |
| Interleavings.InterleavedOpened | crates/orchestrator/src/execution.rs:7-46 | a stream opens at least the attempts of each stream it is interleaved from |
| Interleavings.ALateEndClosesAnothersAttempt | crates/orchestrator/src/runner_ws.rs:236-273 | a concrete interleaving in which the lost run's late end closes the second run's attempt and decides its cost, and the second's own end is recorded nowhere |
| Executions.LossesSplitAttempts | crates/orchestrator/src/execution.rs:7-46 | for every stream, losses never leave an attempt open and split at most one attempt each, and there are never more attempts than starts |
| RunnerTasks.RunAndRecord | crates/agent/src/runner.rs:20-69 | the same with the runner and the orchestrator's task as two objects, one emitting and one recording |
| Executions.ArtefactsOfAnAttempt | crates/orchestrator/src/execution.rs:28-37 | for every stream and every attempt, its artefacts are exactly those it had and those announced while it was the open one |
| RunnerTasks.ArtefactsAreRecordedIff | crates/orchestrator/src/execution.rs:7-46 | in any stream with one agent run, a name is on the run's attempt in the end exactly if it was there or its event arrived while the attempt was still open |
| RunnerTasks.FilesAreKeptUnlessTimedOut | crates/agent/src/automation.rs:424-458 | with nothing but the run's own events in between, all the files it announces are on the attempt exactly if it did not run out of time, or they were there already |
| RunnerTasks.FilesAreRecordedIff | crates/agent/src/automation.rs:424-526 | given all that was sent before a run that was waited for, and nothing but its own events in between: a name is on the attempt afterwards exactly if it was there already, or the run did not time out and left a file of that name whose content is not what was last sent under it |
| RunnerTasks.ARetriedRunLacksItsUnchangedFile | crates/agent/src/artefacts.rs:72-87 | a concrete crash retry that leaves the file the attempt before it left: it has nothing to announce, and of its two attempts only the first lists the file |
| RunnerTasks.ATimedOutRunLosesItsFile | crates/agent/src/automation.rs:563-600 | a concrete run that timed out and whose one file is on no attempt |
| RunnerTasks.ALostRunnersRunLosesItsFile | crates/orchestrator/src/execution.rs:8-37 | a concrete run that did not time out and whose file came in after its runner was given up |
| Executions.Task.Record | crates/orchestrator/src/execution.rs:7-46 | in place, the history becomes what one step of the fold gives |
| Executions.Task.RecordAll | crates/orchestrator/src/execution.rs:7-46 | a whole stream recorded event by event is the fold of that stream |
| Executions.FoldWellFormed | crates/orchestrator/src/execution.rs:7-77 | for every event sequence attempts are numbered 1 to n, all but the last are closed, an attempt runs exactly while it has no end, and artefact names are unique |
| Executions.ClosedAttemptsAreFrozen | crates/orchestrator/src/execution.rs:7-77 | no attempt is dropped and a closed one never changes; an open one keeps its start and its artefacts |
| Executions.AttemptsDoNotOverlap | crates/orchestrator/src/execution.rs:7-77 | under a clock that does not go back, attempts are ordered intervals that do not overlap |
| Attempts.AttemptsSpanTheirEvents | crates/orchestrator/src/execution.rs:7-77 | for every stream, with the task handed to whatever runner between events: each new attempt has the time, model and skills of the `Started` that opened it and the runner and executor the task had then; if a closing event came later, the first of them gives its end, to the time stamped on it, and what it came to, else it is open and has no end |
| Executions.FoldCounts | crates/orchestrator/src/execution.rs:7-72 | how many attempts there are and whether one is open can be read off the events alone |
| Executions.FoldReflectsClosers | crates/orchestrator/src/execution.rs:13-45 | each new attempt has the status, reason, cost and checks of the event that closed it |
| Executions.OnlyRelevantEventsCount | crates/orchestrator/src/execution.rs:7-46 | output, progress and notes in between change nothing in the history |
| Executions.TrailingEventsAreDropped | crates/orchestrator/src/execution.rs:8-17 | events after the last attempt closed leave the history as it is until the next `Started` |
| Executions.OpenArtefactsAreKept | crates/orchestrator/src/execution.rs:28-37 | while an attempt stays open every announced file is on it |
| Artefacts.Pick | crates/agent/src/artefacts.rs:54-68 | kept and skipped are a prefix and the rest of the files in size order, which is a permutation of them; the prefix fits the caps and one more file would not |
| Artefacts.PickIsOptimal | crates/agent/src/artefacts.rs:54-68 | no selection within the caps has more files, and none with as many has fewer bytes |
| Artefacts.Collect | crates/agent/src/artefacts.rs:20-50 | of the files with a usable name, what is sent is every readable one under a name that was kept, in directory order |
| Artefacts.SentWithinCapsIff | crates/agent/src/artefacts.rs:20-68 | all files that go by a kept name are within the caps together exactly if no skipped file shares its reduced name with a kept one |
| Artefacts.WithinCapsIffNoSharedName | crates/agent/src/artefacts.rs:20-68 | what is sent is within the caps if no skipped file goes by a kept name, whatever cannot be read; if everything can be read, then only if |
| Artefacts.TwoFilesOfOneName | crates/agent/src/artefacts.rs:20-68 | a concrete directory: `a b` of one byte and `a-b` of five megabytes are both sent as `a-b` |
| Artefacts.Changed | crates/agent/src/artefacts.rs:72-87 | a file is worth sending exactly if its content is not what is remembered for its name; afterwards that name and no other is updated |
| Artefacts.WhatANameIs | crates/protocol/src/wire.rs:318-331 | the name a file goes by: of the same length, at most 128, usual characters kept in place and all others made dashes; there is none exactly if the name is too long or has no letter or digit; and it is its own name |
| Cascade.State.FailDependents | crates/orchestrator/src/plan.rs:34-58 | on any graph, with diamonds and cycles, it ends; only queued tasks are touched, each of those waits through queued tasks for the one that ended, all that wait for a failed one are failed, and the error of each left failed tells how the task it names ended |
| Cascade.State.ApplyEvent | crates/orchestrator/src/state.rs:1269-1313 | an event is applied, a bad end cascades, and the task itself may be put back, in that order; a late event is only logged |
| Cascade.State.MaybeReassign | crates/orchestrator/src/state.rs:1320-1355 | the task is put back exactly if its limit allows one more try and it could run |
| Statuses.TheStatusIsTold | crates/orchestrator/src/state.rs:1378-1448 | for every list of events without a retry, the status of a task is what the deciding event calls for, word for word: the first that ended the task, else the last that moved it; without one it is as before; and the task is over exactly if an event ended it |
| Statuses.WhatARecordKeeps | crates/orchestrator/src/state.rs:1378-1448 | the log grows by every event, the last result delivered before the task was over stays, and its specification never changes |
| Statuses.TheErrorIsTheFailures | crates/orchestrator/src/state.rs:1378-1448 | the error kept is that of the failure that ended the task, and without one the error is as it was |
| Statuses.TheStatusTellsTheEnd | crates/orchestrator/src/state.rs:1378-1448 | a task left by a whole run awaits review exactly if the run completed, and is failed, timed out or cancelled exactly if the run's one terminal event was that |
| Statuses.TheStatusTellsTheAttempt | crates/orchestrator/src/state.rs:1378-1448 | and that status agrees with the one of the last attempt in the history the same events fold into |
| Statuses.PutBackIffForgiven | crates/orchestrator/src/state.rs:1269-1355 | an event puts an open task back in the queue exactly if the task could run and one more try is due: a lost runner once without a declared policy, a lost runner, a failure or a timeout as often as a declared policy says, and nothing else |
| Statuses.OnlyALostRunnerIsForgivenByDefault | crates/orchestrator/src/state.rs:1320-1355 | without a declared policy an event that puts a task back is the loss of its runner, and the first |
| Statuses.OthersAreLeftAlone | crates/orchestrator/src/state.rs:1269-1313 | an event that is no bad end changes no other task |
| Statuses.BadEndsMeetNothing | crates/orchestrator/src/state.rs:1269-1313 | the ends that cascade are exactly the final states in which no condition can be met |
| Cascade.State.Blocked | crates/orchestrator/src/plan.rs:38-48 | the snapshot holds exactly the queued tasks waiting on the id, in id order |
| Cascade.HitExactlyTheReachable | crates/orchestrator/src/plan.rs:31-58 | the tasks failed at least once are exactly the queued ones reachable along `depends_on` through queued tasks; every other record is unchanged |
| Cascade.FailsThemAllIff | crates/orchestrator/src/plan.rs:31-58 | every reachable task ends failed and none is put back exactly if no reachable task has a retry left that it could use |
| Cascade.OneReassignableDependentIsNotFailed | crates/orchestrator/src/state.rs:1320-1355 | a concrete graph, of records that lived through the events listed, in which a dependent that completed a run under `reassign = 2` and was put back once is not failed but queued again |
| Cascade.ResultsComeFromRuns | crates/orchestrator/src/state.rs:1382-1448 | for every list of events, a task that is queued and has a result has been put back before |
| Cascade.PutBackDependentsAreBlocked | crates/orchestrator/src/plan.rs:23-58 | when the cascade ends, a dependent it leaves queued waits for a task that has not reached the condition |
| Retries.ReadyOnlyOnceReleased | crates/orchestrator/src/state.rs:1138-1355 | in every history that follows a cascade, of reports and their cascades, of people's retries and of new and changed tasks, a task the cascade reached is not ready before the task at its root has been put back or one on the way has left the queue out of turn |
| Retries.StuckUntilPutBack | crates/orchestrator/src/commands.rs:251-273 | a line of tasks each waiting for the one before, of which the first ended badly, stays so while the first is not put back and none of the others leaves the queue out of turn |
| Retries.RootReleases | crates/orchestrator/src/state.rs:1269-1313 | a root that is queued again can be started and completed, and that makes a dependent ready |
| Cascade.EndingOneTask | crates/orchestrator/src/state.rs:1269-1313 | ending a task badly changes that task and the queued tasks that transitively wait for it, and nothing else |
| Cascade.LostRunnerFailsTheQueueBehindATaskItRetries | crates/orchestrator/src/state.rs:1269-1355 | a lost runner's task is queued again by default while the tasks behind it have already failed over it |
| Plans.CheckStepKeys | crates/orchestrator/src/plan.rs:139-152 | accepted exactly if each key that a step lists belongs to an earlier one |
| Plans.CreateChildren | crates/orchestrator/src/plan.rs:98-190 | one fresh queued child per step, with the plan's settings but what belongs to the plan alone; every task there was before is unchanged |
| Plans.AChildStartsFromWhatItWaitsFor | crates/orchestrator/src/plan.rs:153-190 | in any later state in which a child may start, it is based on the one task it waits for, which is approved or merged by then, exactly if its step lists one key and the plan waits for approval or merge; else on the plan's own branch |
| Plans.WhatAChildIsGiven | crates/orchestrator/src/plan.rs:153-190 | which settings a child takes from the plan, which start empty, its prompt and its parent; children are created in the order of their steps |
| Plans.ApprovePlan | crates/orchestrator/src/plan.rs:62-93 | all or nothing: a refusal, with its reason, leaves the table as it was; success marks the plan approved and adds exactly the children |
| Plans.ApprovedIff | crates/orchestrator/src/plan.rs:62-93 | a plan is approved exactly if it exists, is a plan, awaits review, has steps, and each key its steps list belongs to an earlier one; it is not found exactly if it does not exist |
| Plans.ChildrenAreWired | crates/orchestrator/src/plan.rs:98-135 | no dependency key is dropped, and each stands for the latest earlier step of that key, also with duplicate keys |
| Plans.ApprovalKeepsAcyclic | crates/orchestrator/src/plan.rs:62-135 | an acyclic task graph stays acyclic whatever the answer |
| Plans.NeverDeadlocks | crates/orchestrator/src/plan.rs:23-29 | in any later state of the children, while one has not reached the condition there is such a child whose dependencies all have |
| Runners.State.RunnerHello | crates/orchestrator/src/runner.rs:59-106 | the restored set is exactly the reported ids that are running, or queued and given to that runner; each other id the entry held is lost exactly once; connection, generation and timers move by one step of the protocol |
| Runners.State.Disconnect | crates/orchestrator/src/runner.rs:110-123 | only the socket that owns the name drops it: the tasks stay, the generation moves on and a timer for it starts; otherwise nothing changes |
| Runners.State.ExpireRunner | crates/orchestrator/src/runner.rs:128-135 | the entry goes exactly if it has no socket and still the timer's generation; what it held is lost exactly once |
| Runners.State.RunnerGoodbye | crates/orchestrator/src/runner.rs:139-163 | the entry goes exactly if that socket owns the name; what it held is lost exactly once, otherwise nothing is |
| Runners.NoEntryLeaks | crates/orchestrator/src/runner_ws.rs:283-300 | in every state of every run an entry without a socket has a pending timer of its current generation, and no two entries share a connection |
| Runners.TimerExpiresItsOwnDisconnect | crates/orchestrator/src/runner.rs:110-135 | within one lifetime of an entry a timer removes it only if nothing connected or disconnected since the disconnect that started it, and not before the grace period |
| Runners.SupersededSocketIsInert | crates/orchestrator/src/runner.rs:110-151 | once another socket has taken the name, in whatever order their ids were drawn, a disconnect or goodbye of the one before does nothing, for the rest of the run |
| Runners.CleanEntryExpiresItself | crates/orchestrator/src/runner.rs:110-135 | an entry created while no timer of its name is pending is expired only by the timer of its own last disconnect |
| Runners.LeftoverExpires | crates/orchestrator/src/runner.rs:84-135 | from every state in which a timer of an absent name is pending, some run has that timer expire a disconnect it was not started by, in the instant it happens |
| Runners.GoesAstrayIffLeftover | crates/orchestrator/src/runner.rs:84-135 | so a timer can expire something other than its own disconnect exactly if a timer of the name is pending when the entry is created |
| Runners.RunsStaySound | crates/orchestrator/src/runner.rs:59-151 | generations start at one and pending timers are past the first, in every state of every run |
| Runners.LeftoverTimerExpiresAFreshDisconnect | crates/orchestrator/src/runner.rs:84-86 | a concrete run from the orchestrator's start to such a state, and on to the disconnect that is expired at once |
| Policies.GlobIsMatches | crates/orchestrator/src/policy.rs:158-169 | the recursive matcher agrees with a character-by-character reading of the pattern |
| Policies.GlobMatchIsSubstitution | crates/orchestrator/src/policy.rs:158-169 | a pattern matches exactly the paths its stars can be filled in, one string each, to give |
| Policies.DoubleStarIsStar | crates/orchestrator/src/policy.rs:158-169 | two stars mean what one means, anywhere in a pattern |
| Approvals.Refusals | crates/orchestrator/src/policy.rs:74-107 | the loops push the reasons kind by kind, each in the order its causes are listed |
| Approvals.RefusalsAreTheReasons | crates/orchestrator/src/policy.rs:74-107 | that list holds exactly the reasons there are: failed checks, blocking findings, a diff over the limit, protected files, a cost over budget |
| Approvals.Approve | crates/orchestrator/src/policy.rs:56-107 | a change is approved exactly if all checks passed, no finding blocks, the diff and the cost are within their limits, and no changed file can be got by filling in a protected pattern |
| Approvals.DisguisedLinesAreMissed | crates/orchestrator/src/policy.rs:138-149 | for every well-formed diff the line count falls short of the added and removed lines by those whose text makes them look like file headers |
| Approvals.CountsEveryChangeIff | crates/orchestrator/src/policy.rs:138-149 | the count is the number of added and removed lines exactly if no added text starts with `++` and no removed one with `--` |
| Approvals.AnIncrementIsNotCounted | crates/orchestrator/src/policy.rs:147-149 | a concrete added line that is not counted |
| Prefixes.DerivedPrefixIsFree | crates/orchestrator/src/project.rs:35-62 | the unbounded search ends, by number `|taken| + 2` at the latest, on a non-empty prefix nobody holds: the shortest head of the letters that is free, else the letters with the first number that is, of at most eight characters while fewer than 10^8 - 2 are taken |
| Prefixes.LettersOfParts | crates/orchestrator/src/project.rs:16-62 | the letters of a name are those of its parts in order, as far as there is room |
| Prefixes.NumberedFits | crates/orchestrator/src/project.rs:52-60 | a numbered candidate is the letters cut to make room and the number, and no shorter than it need be |
| Prefixes.DecimalReads | crates/orchestrator/src/project.rs:52-60 | the number is written as it is read, without leading zeros |
| Prefixes.Pigeonhole | crates/orchestrator/src/project.rs:48-61 | distinct numbered candidates cannot all be taken unless that many prefixes are |
| Prefixes.NumberedInjective | crates/orchestrator/src/project.rs:52-60 | shortening the letters to make room never makes two numbered candidates the same |
| Prefixes.DisplayInjective | crates/orchestrator/src/project.rs:122-126 | a display id determines its prefix and its number |
| Prefixes.OthersDoNotMatter | crates/orchestrator/src/project.rs:35-62 | more prefixes being held changes what a project is given only if one of them is what it would be given |
| Prefixes.OrderMattersIffTheyClash | crates/orchestrator/src/project.rs:35-62 | two projects are given the same prefixes in either order exactly if each alone would be given a different one |
| Prefixes.PrefixesDependOnOrder | crates/orchestrator/src/project.rs:35-62 | a concrete pair of names that clash: the one that comes first gets the short prefix |
| Naming.OrderMattersIffSomeClash | crates/orchestrator/src/project.rs:35-100 | a set of repositories is given the same prefixes in every order exactly if no two of them would be given the same one first |
| Naming.NamedAfterItsRepository | crates/orchestrator/src/project.rs:16-33 | a project is called what follows the last slash or colon of its repository, without trailing slashes and without `.git` |
| Projects.State.ProjectFor | crates/orchestrator/src/project.rs:73-106 | a repository gets its project, or a new one named after it with counter 1 and the prefix derived from those held; prefixes stay pairwise distinct, a repository has at most one project, all others are unchanged, and only a new one is marked dirty |
| Projects.State.TakeNumber | crates/orchestrator/src/project.rs:110-117 | the number taken is the repository's next, its counter moves on by one and no other repository's does |
| Projects.State.DisplayId | crates/orchestrator/src/project.rs:122-126 | the text is the prefix of the repository's project and the number |
| Projects.DisplayIdsAreDistinct | crates/orchestrator/src/project.rs:122-126 | two todos never read the same while numbers are unique within a repository |
| Displays.DisplayIdsNameOneTodo | crates/protocol/src/lib.rs:1172-1187 | in every state of every run of additions, removals, new projects, changed prefixes and restarts, from records whose numbers are unique where there are any: each todo has one display id, its project is there, and no two todos have the same |
| Displays.StepKeepsAllNumbered | crates/orchestrator/src/state.rs:805-848 | every change keeps each todo's number unique in its repository and below the repository's counter, also a restart that finds records missing, numbers unwritten or counters stale |
| Displays.PassNumbersAll | crates/orchestrator/src/project.rs:133-178 | the startup pass establishes that from any records whose numbers are unique where there are any |
| Displays.NumbersAreNeverGivenAgain | crates/orchestrator/src/project.rs:110-117 | while restarts find everything as it was, a new todo's number is above every number its repository's todos ever had, removed ones included |
| Displays.CreateTodo | crates/orchestrator/src/state.rs:805-831 | the todo is added under a new id with its repository's next number, and that counter alone moves on |
| Displays.RemoveTodo | crates/orchestrator/src/state.rs:836-848 | that todo and nothing else goes, if it was there |
| Displays.UpdateProject | crates/orchestrator/src/api/projects.rs:63-105 | a prefix is set exactly if it is one to eight letters or digits starting with a letter, nobody else's, and the project exists; otherwise nothing changes and the first of these that fails is told |
| Displays.TrimmedIs | crates/orchestrator/src/api/projects.rs:63-105 | what is cut from a prefix is white space at both ends, all of it |
| Displays.DerivedPrefixesCanBeTyped | crates/orchestrator/src/api/projects.rs:69-82 | a derived prefix is accepted as typed exactly if a head of the name's letters, or a numbered candidate below ten million, is free |
| Displays.APrefixNobodyCanType | crates/orchestrator/src/project.rs:48-61 | a concrete set of prefixes under which the derived one is refused |
| Projects.State.NumberLegacyTodos | crates/orchestrator/src/project.rs:133-178 | every repository with todos is numbered: its unnumbered ones take consecutive numbers, oldest first with ids breaking ties, above both its counter and its highest number; the numbered ones are left alone; the changed list is exactly the unnumbered ones; projects are opened for exactly the repositories without one, under the prefixes some order of them gives |
| Projects.NewNumbersAreFresh | crates/orchestrator/src/project.rs:133-178 | new numbers are above every old one of the repository, pairwise distinct, in order of age, and the counter ends above them all |
| Projects.TheOlderTakesTheSmaller | crates/orchestrator/src/project.rs:133-178 | of two unnumbered todos of a repository the older takes the smaller number, and of two of one age the one whose id comes first |
| Projects.NumbersDoNotDependOnIteration | crates/orchestrator/src/project.rs:133-178 | two passes that meet repositories and todos in different orders give every todo the same number |
| Projects.MigrationIsIdempotent | crates/orchestrator/src/project.rs:133-178 | a second pass changes neither todos nor projects |
| Projects.PassesAgreeIffNoneClash | crates/orchestrator/src/project.rs:73-178 | all passes over the same records give every project the same prefix exactly if no two of the repositories to be introduced would be given the same one from the book at the start |
| Stats.Compute | crates/orchestrator/src/stats.rs:35-150 | the loops over records, attempts and rows compute the report defined by selecting, counting and summing over the records in the window |
| Stats.ReportIgnoresOrder | crates/orchestrator/src/stats.rs:109-150 | the report is the same for every permutation of the records |
| Stats.CountersAddUp | crates/orchestrator/src/stats.rs:12-24 | every task is under exactly one status: the counters sum to the number of tasks |
| Stats.TablesAddUp | crates/orchestrator/src/stats.rs:35-91 | attempts by executor and attempts by runner both sum to the attempts in the window, and both tables agree on the failures |
| Stats.RowsAreSorted | crates/orchestrator/src/stats.rs:134-149 | there is one row per runner that made an attempt, in name order |
| Stats.RecordBudget | crates/orchestrator/src/stats.rs:157-170 | the highest declared budget and the cost of the last day over all records |
| Figures.WhatTheCountersSay | crates/orchestrator/src/stats.rs:12-24 | each counter is the number of tasks in the window that are in one of its states, listed state by state |
| Figures.WhatTheTotalsSay | crates/orchestrator/src/stats.rs:109-175 | what each figure is in terms of the records alone: tasks created since the start of the window, those attempted more than once, what they cost, the medians of how long finished attempts took and how long tasks waited for their first start, the highest budget any record declares, and the cost of the last day |
| Figures.WhatARowSays | crates/orchestrator/src/stats.rs:35-91 | a runner's row counts the attempts it made and those that failed, with the median of what its finished ones took; an executor's the attempts, completed and failed ones |
| Figures.WhatTheTablesHold | crates/orchestrator/src/stats.rs:134-149 | each row is that of its runner or executor, an executor has a row exactly if it ran an attempt in the window, and `claude` comes before `codex` |
| Aggregates.MedianPermutation | crates/orchestrator/src/stats.rs:96-107 | the median depends on the durations only, not on the order they were collected in |
| Aggregates.OddMedian | crates/orchestrator/src/stats.rs:96-107 | of an odd number of values the median is one of them, and the rest split into two halves of one size, none of the one above it and none of the other below |
| Aggregates.EvenMedian | crates/orchestrator/src/stats.rs:96-107 | of an even number it is the mean, rounded down, of two of them with as many values below as above; of nothing it is zero |
| Skills.Walk | crates/cli/src/skills.rs:92-118 | what the walk adds is exactly what lies below: a skill within the depth left, through no skipped name, with no other skill on the way but at the start, each once |
| Skills.Discover | crates/cli/src/skills.rs:85-118 | exactly the skill directories at depth 0 to 4 reached through no skipped name and no other skill but the start's, each once, in path order |
| Skills.Load | crates/cli/src/skills.rs:161-200 | length and order are kept and unreadable directories keep their reason; of the directories claiming one name the least by depth and path stays and the others name it as what they duplicate |
| Skills.OneWinner | crates/cli/src/skills.rs:161-200 | every claimed name has exactly one winner |
| Skills.TheWinnerIsTheShallowest | crates/cli/src/skills.rs:161-200 | the winner is the shallowest directory that claims the name, of those at one depth the first by path, compared name by name and character by character, and of one directory named twice the first mention |
| Skills.WinnersIgnoreOrder | crates/cli/src/skills.rs:161-200 | which of several distinct directories wins does not depend on the order they are given in |
| App.Base64Url | crates/github/src/app.rs:161-172 | the chunked loop encodes what the recursive definition does |
| App.RoundTrip | crates/github/src/app.rs:161-191 | decoding undoes encoding for every byte string |
| App.EncodesBits | crates/github/src/app.rs:161-172 | the characters spell the bits of the input, filled up with zeros to a multiple of six (section 4 of RFC 4648), in the alphabet of section 5 |
| App.EncodedLength | crates/github/src/app.rs:161-172 | `n` bytes become `(4n + 2) / 3` characters, without padding |
| App.Jwt | crates/github/src/app.rs:120-133 | splitting a token at its dots gives exactly the three encoded parts (section 7.1 of RFC 7515), the third being the key's signature over the first two as they stand; a signing error is passed on |
| App.PartsAreRecovered | crates/github/src/app.rs:120-191 | decoding those parts gives back the header, the claims and the signature |
| Provision.Controller.Run | crates/orchestrator/src/provision.rs:51-73 | the loop launches at exactly the looks the history of looks calls for |
| Provision.LaunchesExactly | crates/orchestrator/src/provision.rs:38-73 | a look launches exactly if it shows a ready task no runner can take, the count is below the cap, and the last launch before it is over: timed out, or more ephemeral runners seen than at that launch |
| Provision.LaunchesAreSpaced | crates/orchestrator/src/provision.rs:51-73 | two launches in a row are a timeout apart, or more runners than at the first were seen in between |
| Provision.CapIsExceededOnlyBySurprise | crates/orchestrator/src/provision.rs:38-73 | in every run that starts within the cap, connected and launched runners exceed the cap by at most one for each runner that connected unlaunched and each launch that timed out with its runner still on its way |
| Provision.BoundIsReached | crates/orchestrator/src/provision.rs:38-73 | that bound is exact: for any number of each kind of surprise some run reaches it (but that a cap of zero has no launch to be overdue) |
| Provision.CapIsKeptIffNoSurprise | crates/orchestrator/src/provision.rs:38-73 | the cap is kept in every run with given numbers of surprises exactly if both are zero |
| Provision.CapHolds | crates/orchestrator/src/provision.rs:38-73 | in every run that starts within the cap it holds, if launched runners connect in time and no others do |
| Provision.ReconnectBreaksTheCap | crates/orchestrator/src/provision.rs:51-73 | a concrete run in which one reconnecting runner puts three runners under a cap of two |
| Credentials.Resolve | crates/orchestrator/src/credentials.rs:131-204 | author, token and key are those of the credential the mode calls for; the co-authors are the first of each address among those who contributed, in order, without the author's |
| Credentials.Find | crates/orchestrator/src/credentials.rs:99-123 | a credential of this kind, workspace and owner is found exactly if there is one |
| Credentials.FindIsTheFirst | crates/orchestrator/src/credentials.rs:99-123 | it is the first of them, where no workspace on either side stands for any |
| Credentials.SettingsAreTheFirst | crates/orchestrator/src/credentials.rs:76-98 | the workspace's settings are the first that go with it; without any, humans push and no agent is credited |
| Credentials.ResolutionIsUnique | crates/orchestrator/src/credentials.rs:131-168 | that description leaves a single possible answer |
| Credentials.CoAuthorsAreDistinct | crates/orchestrator/src/credentials.rs:189-204 | no two co-authors share an address and none has the author's |
| Credentials.OneRecordPushes | crates/orchestrator/src/credentials.rs:99-181 | name, token and key come from one record: the user's own in human mode; in agent mode their own agent, or the shared one exactly when they have none; the anonymous identity without token or key exactly when no record may push |
| Credentials.OnlyTheInvolvedAreCredited | crates/orchestrator/src/credentials.rs:131-168 | every co-author is a registered record of this workspace that belongs to the user or one of the others, or is the shared agent |
| Credentials.PartnerIsCredited | crates/orchestrator/src/credentials.rs:141-154 | the agent behind a human's commit, if the workspace asks, or the human behind an agent's is credited unless they share the author's address |
| Credentials.PartnerIs | crates/orchestrator/src/credentials.rs:141-154 | who the partner is: behind a human the agent that would push in their place, if the workspace asks; behind an agent the human, if registered; else nobody |
| Credentials.HelperIsCredited | crates/orchestrator/src/credentials.rs:155-160 | every helper with a record is credited, or shares an address with the author or with a co-author named before |
| Credentials.HelperIsRegistered | crates/orchestrator/src/credentials.rs:99-123 | a helper has a record exactly if they registered an agent or themselves, or the workspace shares an agent |
| Credentials.HelperIs | crates/orchestrator/src/credentials.rs:155-160 | which record: the helper's own agent, else the shared one, else their own |

## Left out

- Sessions, prompts, arguments, network state, terminals and streamed output of a run: a spawn is its ending, cost, answer and what it leaves behind.
- The cap on the length of published notes: notes are taken at the length they are published at.
- An interrupt's grace period: it decides how the agent dies, not what is announced, and both endings are in the model.
- `lose_unfinished` and `schedule`: calls to the first are logged, the second may hand any runner any tasks without touching connections.
- `check_eligible`: which tasks could run again is a set that does not change during one event.
- The exit of an ephemeral runner after its last task, and the rest of the socket loop: they end in the disconnect and goodbye that are modelled.
- `auto_approve_plan`, `decide` and `merge`: guards over what is modelled here and a table of answers.
- `parse_selection`, `select` and `plan` of the skill commands: parsing of a person's answer and look-ups.
- Cascade.State.ApplyEvent: `schedule`, which it calls when a slot is freed, is not modelled there: it gives queued tasks to runners and logs budget refusals, and moves no status. Which runner a retry pins is not modelled either.
- Plans.CreateChildren: what a new task record starts with besides its specification (workspace, title, empty histories) is not modelled.
- Interleavings.InterleavedRunsAreRecorded: which of the runs an attempt belongs to is not in the history, so the bound is over all of them together; the messages that bring events in, and their loss, are not modelled.
- Artefacts.Changed: contents are compared by their hash as in the source, so two contents with one hash are one content here too.
- Displays.StepKeepsAllNumbered: a restart is taken not to bring back a todo that was removed or a prefix that was changed; title, comments and tags of a todo are not modelled.
- Stats.Compute: money is exact where the source adds floating-point numbers, whose sum does depend on the order.
- Prefixes.DerivedPrefixIsFree: names are taken as sequences of characters of which the ASCII letters matter; numbers do not overflow.
- Skills.Discover: a directory is a tree of the names it shows; what cannot be read shows nothing, and a link is the tree behind it.
- Skills.Load: reading and checking one directory is an outcome that is given.
- App.Jwt: the claims are bytes and the key is a function that is given; the token cache and its clock are not modelled.
- Provision.LaunchesExactly: that no runner can take some ready task is given with each look, and counts are not clamped to 32 bits.
- Approvals.Refusals: the reasons are values rather than texts, and the diff a list of lines.
- Credentials.Resolve: storing, editing and showing credentials are not modelled.
- Wall clocks, integer overflow and text formatting throughout.
