/** What the report says, figure by figure, in terms of the records themselves
    (crates/orchestrator/src/stats.rs). */
module Figures {
  import opened Protocol
  import opened Orders
  import opened Aggregates
  import opened Stats
  import opened Tasks
  import Executions

  // ---- The records and attempts a figure is about ---------------------------------------

  /** The tasks created since the cutoff. */
  function Window(records: seq<Record>, since: nat): seq<Record> {
    if records == [] then []
    else
      var last := records[|records| - 1];
      Window(records[..|records| - 1], since) + if since <= last.createdAt then [last] else []
  }

  function AllAttempts(w: seq<Record>): seq<Execution> {
    if w == [] then [] else AllAttempts(w[..|w| - 1]) + w[|w| - 1].executions
  }

  /** How long each finished attempt took; a clock that was set back makes it nothing. */
  function Lengths(es: seq<Execution>): seq<nat> {
    if es == [] then []
    else
      var e := es[|es| - 1];
      Lengths(es[..|es| - 1]) +
      match e.finishedAt
      case None => []
      case Some(end) => [if e.startedAt <= end then end - e.startedAt else 0]
  }

  function MadeBy(es: seq<Execution>, runner: string): seq<Execution> {
    if es == [] then []
    else MadeBy(es[..|es| - 1], runner) + if es[|es| - 1].runner == runner then [es[|es| - 1]] else []
  }

  function Under(es: seq<Execution>, x: Executor): seq<Execution> {
    if es == [] then []
    else Under(es[..|es| - 1], x) + if es[|es| - 1].executor == x then [es[|es| - 1]] else []
  }

  /** How many of the attempts ended so. */
  function Ended(es: seq<Execution>, status: Executions.ExecutionStatus): nat {
    if es == [] then 0 else Ended(es[..|es| - 1], status) + if es[|es| - 1].status == status then 1 else 0
  }

  /** How many of the tasks are in one of these states. */
  function InState(w: seq<Record>, states: set<TaskStatus>): nat {
    if w == [] then 0 else InState(w[..|w| - 1], states) + if w[|w| - 1].status in states then 1 else 0
  }

  /** How many of the tasks were attempted more than once. */
  function AttemptedAgain(w: seq<Record>): nat {
    if w == [] then 0 else AttemptedAgain(w[..|w| - 1]) + if |w[|w| - 1].executions| >= 2 then 1 else 0
  }

  ghost predicate FirstStart(events: seq<Executions.Stamped>, i: nat) {
    i < |events| && events[i].event.Started? && forall j | 0 <= j < i :: !events[j].event.Started?
  }

  /** How long each task that was started had waited. */
  ghost function Waits(w: seq<Record>): seq<nat> {
    if w == [] then []
    else
      var r := w[|w| - 1];
      Waits(w[..|w| - 1]) +
      if i: nat :| FirstStart(r.events, i) then
        [if r.createdAt <= r.events[i].at then r.events[i].at - r.createdAt else 0]
      else []
  }

  /** What the tasks cost together; one without a result cost nothing. */
  function Spending(w: seq<Record>): real {
    if w == [] then 0.0
    else Spending(w[..|w| - 1]) + if w[|w| - 1].result.Some? then w[|w| - 1].result.value.cost else 0.0
  }

  // ---- They are what is gathered --------------------------------------------------------

  lemma SumOne(xs: seq<real>, x: real)
    ensures Sum(xs + [x]) == Sum(xs) + x && Sum(xs + []) == Sum(xs)
  {
    assert (xs + [x])[..|xs|] == xs && xs + [] == xs;
  }

  lemma SpendingOne(w: seq<Record>, r: Record)
    ensures Spending(w + [r]) == Spending(w) + if r.result.Some? then r.result.value.cost else 0.0
    ensures Spending(w + []) == Spending(w)
  {
    assert (w + [r])[..|w|] == w && w + [] == w;
  }

  lemma {:induction false} WindowIs(records: seq<Record>, since: nat)
    ensures Gather(InWindow(since), records) == Window(records, since)
  {
    if records != [] { WindowIs(records[..|records| - 1], since); }
  }

  lemma {:induction false} SpentIs(records: seq<Record>, since: nat)
    ensures Sum(Gather(SpentSince(since), records)) == Spending(Window(records, since))
  {
    if records != [] {
      var front, last := records[..|records| - 1], records[|records| - 1];
      SpentIs(front, since);
      SpendingOne(Window(front, since), last);
      SumOne(Gather(SpentSince(since), front), if last.result.Some? then last.result.value.cost else 0.0);
    }
  }

  lemma {:induction false} SpendingIs(w: seq<Record>)
    ensures Sum(Gather(CostOf(), w)) == Spending(w)
  {
    if w != [] {
      var last := w[|w| - 1];
      SpendingIs(w[..|w| - 1]);
      SumOne(Gather(CostOf(), w[..|w| - 1]), if last.result.Some? then last.result.value.cost else 0.0);
    }
  }

  lemma {:induction false} AttemptsAre(w: seq<Record>)
    ensures Gather(AttemptsIn(), w) == AllAttempts(w)
  {
    if w != [] { AttemptsAre(w[..|w| - 1]); }
  }

  lemma {:induction false} LengthsAre(es: seq<Execution>)
    ensures Gather(Duration(), es) == Lengths(es)
  {
    if es != [] { LengthsAre(es[..|es| - 1]); }
  }

  lemma LengthsOne(es: seq<Execution>, e: Execution)
    ensures Lengths(es + [e]) == Lengths(es) + Took(e) && Lengths(es + []) == Lengths(es)
  {
    assert (es + [e])[..|es|] == es && es + [] == es;
  }

  lemma EndedOne(es: seq<Execution>, e: Execution, status: Executions.ExecutionStatus)
    ensures Ended(es + [e], status) == Ended(es, status) + (if e.status == status then 1 else 0)
    ensures Ended(es + [], status) == Ended(es, status)
  {
    assert (es + [e])[..|es|] == es && es + [] == es;
  }

  lemma {:induction false} RunnersAre(es: seq<Execution>, name: string)
    ensures |Gather(ByRunner(name), es)| == |MadeBy(es, name)|
    ensures |Gather(FailedBy(name), es)| == Ended(MadeBy(es, name), Executions.ExecutionStatus.Failed)
    ensures Gather(DurationBy(name), es) == Lengths(MadeBy(es, name))
  {
    if es != [] {
      var front, last := es[..|es| - 1], es[|es| - 1];
      RunnersAre(front, name);
      EndedOne(MadeBy(front, name), last, Executions.ExecutionStatus.Failed);
      LengthsOne(MadeBy(front, name), last);
      hide Ended, Lengths, Took;
    }
  }

  lemma {:induction false} ExecutorsRan(es: seq<Execution>, x: Executor)
    ensures |Gather(UnderExecutor(x), es)| == |Under(es, x)|
    ensures |Gather(CompletedUnder(x), es)| == Ended(Under(es, x), Executions.ExecutionStatus.Completed)
    ensures |Gather(FailedUnder(x), es)| == Ended(Under(es, x), Executions.ExecutionStatus.Failed)
  {
    if es != [] {
      var front, last := es[..|es| - 1], es[|es| - 1];
      ExecutorsRan(front, x);
      EndedOne(Under(front, x), last, Executions.ExecutionStatus.Completed);
      EndedOne(Under(front, x), last, Executions.ExecutionStatus.Failed);
      hide Ended;
    }
  }

  lemma {:induction false} BucketHolds(b: Bucket, states: set<TaskStatus>, w: seq<Record>)
    requires forall s :: s in states <==> BucketOf(s) == b
    ensures |Gather(InBucket(b), w)| == InState(w, states)
  {
    if w != [] { BucketHolds(b, states, w[..|w| - 1]); }
  }

  lemma {:induction false} RetriedAre(w: seq<Record>)
    ensures |Gather(Retried(), w)| == AttemptedAgain(w)
  {
    if w != [] { RetriedAre(w[..|w| - 1]); }
  }

  lemma {:induction false} FirstStartIs(events: seq<Executions.Stamped>)
    ensures match FirstStartedAt(events)
            case Some(at) => exists i: nat :: FirstStart(events, i) && events[i].at == at
            case None => forall i: nat :: !FirstStart(events, i)
    ensures forall i: nat, j: nat | FirstStart(events, i) && FirstStart(events, j) :: i == j
  {
    if events != [] {
      var rest := events[1..];
      FirstStartIs(rest);
      if events[0].event.Started? {
        assert FirstStart(events, 0);
      } else {
        forall i: nat ensures FirstStart(events, i + 1) <==> FirstStart(rest, i) {
          assert forall j | 0 < j < |events| :: events[j] == rest[j - 1];
          assert forall j | 0 <= j < |rest| :: rest[j] == events[j + 1];
        }
        assert !FirstStart(events, 0);
        if i: nat :| FirstStart(rest, i) { assert FirstStart(events, i + 1); }
        forall i: nat | FirstStart(events, i) ensures FirstStart(rest, i - 1) { assert i > 0; }
      }
    }
  }

  lemma {:induction false} WaitsAre(w: seq<Record>)
    ensures Gather(QueueWait(), w) == Waits(w)
  {
    if w != [] {
      WaitsAre(w[..|w| - 1]);
      FirstStartIs(w[|w| - 1].events);
    }
  }

  // ---- The figures ----------------------------------------------------------------------

  /** Each counter is the number of tasks in some of the states, and each state is in one. */
  lemma WhatTheCountersSay(w: seq<Record>)
    ensures var c := CountersOf(w);
            && c.queued == InState(w, {Queued})
            && c.running == InState(w, {TaskStatus.Running, ChangesRequested})
            && c.awaitingReview == InState(w, {AwaitingReview, TaskStatus.Conflicted})
            && c.approved == InState(w, {Approved})
            && c.merged == InState(w, {Merged})
            && c.failed == InState(w, {TaskStatus.Failed, TaskStatus.TimedOut, TaskStatus.RunnerLost})
            && c.cancelled == InState(w, {TaskStatus.Cancelled})
            && c.rejected == InState(w, {Rejected})
  {
    hide Gather, InState, InBucket;
    BucketHolds(InQueue, {Queued}, w);
    BucketHolds(InProgress, {TaskStatus.Running, ChangesRequested}, w);
    BucketHolds(ForReview, {AwaitingReview, TaskStatus.Conflicted}, w);
    BucketHolds(IsApproved, {Approved}, w);
    BucketHolds(IsMerged, {Merged}, w);
    BucketHolds(HasFailed, {TaskStatus.Failed, TaskStatus.TimedOut, TaskStatus.RunnerLost}, w);
    BucketHolds(WasCancelled, {TaskStatus.Cancelled}, w);
    BucketHolds(WasRejected, {Rejected}, w);
  }

  ghost predicate DeclaresBudget(r: Record, x: real) { r.result.Some? && r.result.value.budget == Some(x) }

  ghost predicate AnyDeclares(records: seq<Record>, x: real) {
    exists i :: 0 <= i < |records| && DeclaresBudget(records[i], x)
  }

  lemma {:induction false} BudgetsAre(records: seq<Record>, x: real)
    ensures x in Gather(Budgets(), records) <==> AnyDeclares(records, x)
  {
    if records != [] {
      var front, last := records[..|records| - 1], records[|records| - 1];
      BudgetsAre(front, x);
      assert records == front + [last];
      assert AnyDeclares(records, x) <==> AnyDeclares(front, x) || DeclaresBudget(last, x);
    }
  }

  /** The totals are about the tasks in the window, the budget and today's spending about all
      there are: the highest that any declares, and what those of the last day cost. */
  lemma WhatTheTotalsSay(records: seq<Record>, since: nat, dayAgo: nat)
    ensures var s, w := StatsOf(records, since, dayAgo), Window(records, since);
            && s.since == since && s.tasks == |w| && s.counters == CountersOf(w)
            && s.retriedTasks == AttemptedAgain(w) && s.cost == Spending(w)
            && s.medianExecutionMs == Median(Lengths(AllAttempts(w))) && s.medianQueueMs == Median(Waits(w))
            && s.spentToday == Spending(Window(records, dayAgo))
            && (s.budgetDaily == [] ==> forall r, x | r in records :: !DeclaresBudget(r, x))
            && (s.budgetDaily != [] ==>
                  && s.budgetDaily == [s.budgetDaily[0]]
                  && AnyDeclares(records, s.budgetDaily[0])
                  && forall r, x | r in records && DeclaresBudget(r, x) :: x <= s.budgetDaily[0])
  {
    var w, budgets := Window(records, since), Gather(Budgets(), records);
    WindowIs(records, since);
    SpentIs(records, dayAgo);
    RetriedAre(w);
    SpendingIs(w);
    AttemptsAre(w);
    LengthsAre(AllAttempts(w));
    WaitsAre(w);
    hide Gather, Window, Sum, Spending, Median, Lengths, Waits, AllAttempts, AttemptedAgain, CountersOf, ExecutorRows,
      RunnerRows, Executors, Runners, Sort;
    forall x ensures x in budgets <==> AnyDeclares(records, x) { BudgetsAre(records, x); }
    forall r, x | r in records && DeclaresBudget(r, x) ensures budgets != [] && x <= Largest(budgets)[0] {
      assert x in budgets;
    }
    if budgets != [] { assert Largest(budgets) == [Largest(budgets)[0]]; }
  }

  /** A runner's row counts the attempts it made and those of them that failed, and gives the
      median of what its finished ones took; an executor's row likewise, without the median. */
  lemma WhatARowSays(es: seq<Execution>, name: string, x: Executor)
    ensures var made := MadeBy(es, name);
            RunnerRowOf(es, name) ==
              RunnerRow(name, |made|, Ended(made, Executions.ExecutionStatus.Failed), Median(Lengths(made)))
    ensures var under := Under(es, x);
            ExecutorRowOf(es, x) ==
              ExecutorRow(x, |under|, Ended(under, Executions.ExecutionStatus.Completed),
                          Ended(under, Executions.ExecutionStatus.Failed))
  {
    RunnersAre(es, name);
    ExecutorsRan(es, x);
  }

  ghost predicate Ran(es: seq<Execution>, x: Executor) { exists i :: 0 <= i < |es| && es[i].executor == x }

  ghost predicate HasRow(rows: seq<ExecutorRow>, x: Executor) {
    exists i :: 0 <= i < |rows| && rows[i].executor == x
  }

  /** The tables have one row for each runner and each executor of an attempt in the window, and
      `claude` comes before `codex`. */
  lemma WhatTheTablesHold(records: seq<Record>, since: nat, dayAgo: nat)
    ensures var s, es := StatsOf(records, since, dayAgo), AllAttempts(Window(records, since));
            && (forall i | 0 <= i < |s.byRunner| :: s.byRunner[i] == RunnerRowOf(es, s.byRunner[i].runner))
            && (forall i | 0 <= i < |s.byExecutor| :: s.byExecutor[i] == ExecutorRowOf(es, s.byExecutor[i].executor))
            && (forall x :: HasRow(s.byExecutor, x) <==> Ran(es, x))
            && |s.byExecutor| <= 2
            && (|s.byExecutor| == 2 ==> s.byExecutor[0].executor == Claude && s.byExecutor[1].executor == Codex)
  {
    var s, es := StatsOf(records, since, dayAgo), AllAttempts(Window(records, since));
    WindowIs(records, since);
    AttemptsAre(Window(records, since));
    hide Gather, Window, AllAttempts, RunnerRowOf, ExecutorRowOf, Sort, Median, Sum, Largest, CountersOf, Executors,
      Runners;
    NamesAre(es);
    var xs := Sort(ExecutorLe, Executors(es));
    ClaudeFirst(xs);
    RowsOf(s.byRunner, s.byExecutor, es, Sort(StringLe, Runners(es)), xs);
    assert forall i | 0 <= i < |xs| :: s.byExecutor[i].executor == xs[i];
    forall x ensures HasRow(s.byExecutor, x) <==> Ran(es, x) { assert x in xs <==> Ran(es, x); }
  }

  lemma RowsOf(runners: seq<RunnerRow>, executors: seq<ExecutorRow>, es: seq<Execution>, names: seq<string>,
               xs: seq<Executor>)
    requires runners == RunnerRows(es, names) && executors == ExecutorRows(es, xs)
    ensures forall i | 0 <= i < |runners| :: runners[i] == RunnerRowOf(es, runners[i].runner)
    ensures |executors| == |xs|
    ensures forall i | 0 <= i < |xs| :: executors[i].executor == xs[i] && executors[i] == ExecutorRowOf(es, xs[i])
    ensures forall x :: HasRow(executors, x) <==> x in xs
  {
    hide Gather, Median;
    forall i | 0 <= i < |runners| ensures runners[i] == RunnerRowOf(es, runners[i].runner) {
      assert runners[i] == RunnerRowOf(es, names[i]);
    }
    forall i | 0 <= i < |xs| ensures executors[i].executor == xs[i] && executors[i] == ExecutorRowOf(es, xs[i]) {
      assert executors[i] == ExecutorRowOf(es, xs[i]);
    }
    RowsHave(executors, xs);
  }

  lemma RowsHave(executors: seq<ExecutorRow>, xs: seq<Executor>)
    requires |executors| == |xs| && forall i | 0 <= i < |xs| :: executors[i].executor == xs[i]
    ensures forall x :: HasRow(executors, x) <==> x in xs
  {
    forall x | x in xs ensures HasRow(executors, x) {
      var i :| 0 <= i < |xs| && xs[i] == x;
      assert executors[i].executor == x;
    }
  }

  lemma NamesAre(es: seq<Execution>)
    ensures var names := Sort(ExecutorLe, Executors(es));
            && Distinct(names) && SortedBy(ExecutorLe, names)
            && forall x :: x in names <==> Ran(es, x)
  {
    EachOnce(Gather(ExecutorName(), es));
    SortDistinct(ExecutorLe, Executors(es));
    ExecutorLeIsTotalOrder();
    SortSorted(ExecutorLe, Executors(es));
    hide Sort, TotalOrder, ExecutorLe, Gather;
    forall x ensures x in Gather(ExecutorName(), es) <==> Ran(es, x) {
      ExecutorsAre(es, x);
    }
  }

  lemma ClaudeFirst(names: seq<Executor>)
    requires Distinct(names) && SortedBy(ExecutorLe, names)
    ensures |names| <= 2 && (|names| == 2 ==> names[0] == Claude && names[1] == Codex)
  {
    assert "codex"[0] == 'c' && "codex"[1] == 'o' && "claude"[1] == 'l';
    assert "codex"[1..][0] == 'o' && "claude"[1..][0] == 'l';
    assert !ExecutorLe(Codex, Claude);
    if |names| >= 2 { assert ExecutorLe(names[0], names[1]) && names[0] != names[1]; }
    if |names| > 2 && names[2] != names[0] && names[2] != names[1] { assert false; }
  }

  lemma {:induction false} ExecutorsAre(es: seq<Execution>, x: Executor)
    ensures x in Gather(ExecutorName(), es) <==> Ran(es, x)
  {
    if es != [] {
      var front, last := es[..|es| - 1], es[|es| - 1];
      ExecutorsAre(front, x);
      assert es == front + [last];
    }
  }
}
