/** The report over the tasks of a window (crates/orchestrator/src/stats.rs): what it is, and
    that the loops compute it. */
module Stats {
  import opened Protocol
  import opened Orders
  import opened Aggregates
  import opened Tasks
  import Executions

  datatype Spend = Spend(cost: real, budget: Option<real>)

  type Execution = Executions.Execution

  datatype Record = Record(
    createdAt: nat,
    status: TaskStatus,
    executions: seq<Execution>,
    result: Option<Spend>,
    events: seq<Executions.Stamped>)

  // ---- What is read off one record or one attempt ---------------------------------

  function InWindow(since: nat): Record -> seq<Record> {
    (r: Record) => if r.createdAt >= since then [r] else []
  }

  datatype Bucket = InQueue | InProgress | ForReview | IsApproved | IsMerged | HasFailed | WasCancelled | WasRejected

  function BucketOf(s: TaskStatus): Bucket {
    match s
    case Queued => InQueue
    case Running => InProgress
    case ChangesRequested => InProgress
    case AwaitingReview => ForReview
    case Conflicted => ForReview
    case Approved => IsApproved
    case Merged => IsMerged
    case Failed => HasFailed
    case TimedOut => HasFailed
    case RunnerLost => HasFailed
    case Cancelled => WasCancelled
    case Rejected => WasRejected
  }

  function InBucket(b: Bucket): Record -> seq<Record> {
    (r: Record) => if BucketOf(r.status) == b then [r] else []
  }

  function Retried(): Record -> seq<Record> {
    (r: Record) => if |r.executions| > 1 then [r] else []
  }

  function CostOf(): Record -> seq<real> {
    (r: Record) => [if r.result.Some? then r.result.value.cost else 0.0]
  }

  function FirstStartedAt(events: seq<Executions.Stamped>): Option<nat> {
    if events == [] then None
    else if events[0].event.Started? then Some(events[0].at)
    else FirstStartedAt(events[1..])
  }

  function SaturatingSub(a: nat, b: nat): nat { if a < b then 0 else a - b }

  function QueueWait(): Record -> seq<nat> {
    (r: Record) =>
      var started := FirstStartedAt(r.events);
      if started.Some? then [SaturatingSub(started.value, r.createdAt)] else []
  }

  function AttemptsIn(): Record -> seq<Execution> { (r: Record) => r.executions }

  function SpentSince(dayAgo: nat): Record -> seq<real> {
    (r: Record) => if r.result.Some? && r.createdAt >= dayAgo then [r.result.value.cost] else []
  }

  function Budgets(): Record -> seq<real> {
    (r: Record) => if r.result.Some? && r.result.value.budget.Some? then [r.result.value.budget.value] else []
  }

  function Took(e: Execution): seq<nat> {
    if e.finishedAt.Some? then [SaturatingSub(e.finishedAt.value, e.startedAt)] else []
  }

  function Duration(): Execution -> seq<nat> { (e: Execution) => Took(e) }

  function RunnerName(): Execution -> seq<string> { (e: Execution) => [e.runner] }

  function ExecutorName(): Execution -> seq<Executor> { (e: Execution) => [e.executor] }

  function ByRunner(name: string): Execution -> seq<Execution> {
    (e: Execution) => if e.runner == name then [e] else []
  }

  function FailedBy(name: string): Execution -> seq<Execution> {
    (e: Execution) => if e.runner == name && e.status.Failed? then [e] else []
  }

  function DurationBy(name: string): Execution -> seq<nat> {
    (e: Execution) => if e.runner == name then Took(e) else []
  }

  function UnderExecutor(x: Executor): Execution -> seq<Execution> {
    (e: Execution) => if e.executor == x then [e] else []
  }

  function CompletedUnder(x: Executor): Execution -> seq<Execution> {
    (e: Execution) => if e.executor == x && e.status.Completed? then [e] else []
  }

  function FailedUnder(x: Executor): Execution -> seq<Execution> {
    (e: Execution) => if e.executor == x && e.status.Failed? then [e] else []
  }

  // ---- The report -------------------------------------------------------------------

  datatype Counters = Counters(
    queued: nat, running: nat, awaitingReview: nat, approved: nat,
    merged: nat, failed: nat, cancelled: nat, rejected: nat)

  datatype RunnerRow = RunnerRow(runner: string, attempts: nat, failed: nat, medianMs: nat)

  datatype ExecutorRow = ExecutorRow(executor: Executor, attempts: nat, completed: nat, failed: nat)

  datatype Stats = Stats(
    since: nat,
    tasks: nat,
    counters: Counters,
    medianExecutionMs: nat,
    medianQueueMs: nat,
    retriedTasks: nat,
    cost: real,
    byExecutor: seq<ExecutorRow>,
    byRunner: seq<RunnerRow>,
    budgetDaily: seq<real>,
    spentToday: real)

  function CountersOf(w: seq<Record>): Counters {
    Counters(
      |Gather(InBucket(InQueue), w)|, |Gather(InBucket(InProgress), w)|,
      |Gather(InBucket(ForReview), w)|, |Gather(InBucket(IsApproved), w)|,
      |Gather(InBucket(IsMerged), w)|, |Gather(InBucket(HasFailed), w)|,
      |Gather(InBucket(WasCancelled), w)|, |Gather(InBucket(WasRejected), w)|)
  }

  function RunnerRowOf(es: seq<Execution>, name: string): RunnerRow {
    RunnerRow(name, |Gather(ByRunner(name), es)|, |Gather(FailedBy(name), es)|, Median(Gather(DurationBy(name), es)))
  }

  function ExecutorRowOf(es: seq<Execution>, x: Executor): ExecutorRow {
    ExecutorRow(x, |Gather(UnderExecutor(x), es)|, |Gather(CompletedUnder(x), es)|, |Gather(FailedUnder(x), es)|)
  }

  function RunnerRows(es: seq<Execution>, names: seq<string>): (rows: seq<RunnerRow>)
    ensures |rows| == |names| && forall i | 0 <= i < |rows| :: rows[i] == RunnerRowOf(es, names[i])
  {
    if names == [] then [] else [RunnerRowOf(es, names[0])] + RunnerRows(es, names[1..])
  }

  function ExecutorRows(es: seq<Execution>, names: seq<Executor>): (rows: seq<ExecutorRow>)
    ensures |rows| == |names| && forall i | 0 <= i < |rows| :: rows[i] == ExecutorRowOf(es, names[i])
  {
    if names == [] then [] else [ExecutorRowOf(es, names[0])] + ExecutorRows(es, names[1..])
  }

  function Binary(x: Executor): string {
    match x
    case Claude => "claude"
    case Codex => "codex"
  }

  predicate ExecutorLe(a: Executor, b: Executor) { StringLe(Binary(a), Binary(b)) }

  function Runners(es: seq<Execution>): seq<string> { FirstSeen(Gather(RunnerName(), es)) }

  function Executors(es: seq<Execution>): seq<Executor> { FirstSeen(Gather(ExecutorName(), es)) }

  /** The report as a reader would define it: every figure a count, a sum or a
      median over the records in the window, one sorted row per runner and per
      executor; budget and today's spend over all records. */
  function StatsOf(records: seq<Record>, since: nat, dayAgo: nat): Stats {
    var w := Gather(InWindow(since), records);
    var es := Gather(AttemptsIn(), w);
    Stats(
      since,
      |w|,
      CountersOf(w),
      Median(Gather(Duration(), es)),
      Median(Gather(QueueWait(), w)),
      |Gather(Retried(), w)|,
      Sum(Gather(CostOf(), w)),
      ExecutorRows(es, Sort(ExecutorLe, Executors(es))),
      RunnerRows(es, Sort(StringLe, Runners(es))),
      Largest(Gather(Budgets(), records)),
      Sum(Gather(SpentSince(dayAgo), records)))
  }

  // ---- Order does not matter ------------------------------------------------------

  lemma ExecutorLeIsTotalOrder()
    ensures TotalOrder(ExecutorLe)
  {
    StringLeIsTotalOrder();
    assert "claude"[..2] == "cl" && "claude"[1] == 'l' && "codex"[1] == 'o';
  }

  lemma {:induction false} RunnerRowsPermutation(a: seq<Execution>, b: seq<Execution>, names: seq<string>)
    requires multiset(a) == multiset(b)
    ensures RunnerRows(a, names) == RunnerRows(b, names)
  {
    if names != [] {
      GatherCount(ByRunner(names[0]), a, b);
      GatherCount(FailedBy(names[0]), a, b);
      GatherPermutation(DurationBy(names[0]), a, b);
      MedianPermutation(Gather(DurationBy(names[0]), a), Gather(DurationBy(names[0]), b));
      RunnerRowsPermutation(a, b, names[1..]);
    }
  }

  lemma {:induction false} ExecutorRowsPermutation(a: seq<Execution>, b: seq<Execution>, names: seq<Executor>)
    requires multiset(a) == multiset(b)
    ensures ExecutorRows(a, names) == ExecutorRows(b, names)
  {
    if names != [] {
      GatherCount(UnderExecutor(names[0]), a, b);
      GatherCount(CompletedUnder(names[0]), a, b);
      GatherCount(FailedUnder(names[0]), a, b);
      ExecutorRowsPermutation(a, b, names[1..]);
    }
  }

  lemma CountersPermutation(a: seq<Record>, b: seq<Record>)
    requires multiset(a) == multiset(b)
    ensures CountersOf(a) == CountersOf(b)
  {
    GatherCount(InBucket(InQueue), a, b);
    GatherCount(InBucket(InProgress), a, b);
    GatherCount(InBucket(ForReview), a, b);
    GatherCount(InBucket(IsApproved), a, b);
    GatherCount(InBucket(IsMerged), a, b);
    GatherCount(InBucket(HasFailed), a, b);
    GatherCount(InBucket(WasCancelled), a, b);
    GatherCount(InBucket(WasRejected), a, b);
  }

  lemma TablesPermutation(a: seq<Execution>, b: seq<Execution>)
    requires multiset(a) == multiset(b)
    ensures ExecutorRows(a, Sort(ExecutorLe, Executors(a))) == ExecutorRows(b, Sort(ExecutorLe, Executors(b)))
    ensures RunnerRows(a, Sort(StringLe, Runners(a))) == RunnerRows(b, Sort(StringLe, Runners(b)))
    ensures Median(Gather(Duration(), a)) == Median(Gather(Duration(), b))
  {
    GatherPermutation(RunnerName(), a, b);
    FirstSeenPermutation(Gather(RunnerName(), a), Gather(RunnerName(), b));
    StringLeIsTotalOrder();
    SortPermutation(StringLe, Runners(a), Runners(b));
    RunnerRowsPermutation(a, b, Sort(StringLe, Runners(b)));
    GatherPermutation(ExecutorName(), a, b);
    FirstSeenPermutation(Gather(ExecutorName(), a), Gather(ExecutorName(), b));
    ExecutorLeIsTotalOrder();
    SortPermutation(ExecutorLe, Executors(a), Executors(b));
    ExecutorRowsPermutation(a, b, Sort(ExecutorLe, Executors(b)));
    GatherPermutation(Duration(), a, b);
    MedianPermutation(Gather(Duration(), a), Gather(Duration(), b));
  }

  /** The caller passes records in hash-map order; the report does not show it. */
  lemma ReportIgnoresOrder(a: seq<Record>, b: seq<Record>, since: nat, dayAgo: nat)
    requires multiset(a) == multiset(b)
    ensures StatsOf(a, since, dayAgo) == StatsOf(b, since, dayAgo)
  {
    hide Gather, Sum, Largest, Median, CountersOf, ExecutorRows, RunnerRows, Executors, Runners;
    var v, w := Gather(InWindow(since), a), Gather(InWindow(since), b);
    GatherPermutation(InWindow(since), a, b);
    GatherCount(InWindow(since), a, b);
    CountersPermutation(v, w);
    GatherCount(Retried(), v, w);
    GatherPermutation(CostOf(), v, w);
    SumPermutation(Gather(CostOf(), v), Gather(CostOf(), w));
    GatherPermutation(QueueWait(), v, w);
    MedianPermutation(Gather(QueueWait(), v), Gather(QueueWait(), w));
    GatherPermutation(AttemptsIn(), v, w);
    TablesPermutation(Gather(AttemptsIn(), v), Gather(AttemptsIn(), w));
    GatherPermutation(Budgets(), a, b);
    LargestPermutation(Gather(Budgets(), a), Gather(Budgets(), b));
    GatherPermutation(SpentSince(dayAgo), a, b);
    SumPermutation(Gather(SpentSince(dayAgo), a), Gather(SpentSince(dayAgo), b));
  }

  // ---- The tables add up ------------------------------------------------------------

  function AttemptsOfRunners(rows: seq<RunnerRow>): nat {
    if rows == [] then 0 else rows[0].attempts + AttemptsOfRunners(rows[1..])
  }

  function FailuresOfRunners(rows: seq<RunnerRow>): nat {
    if rows == [] then 0 else rows[0].failed + FailuresOfRunners(rows[1..])
  }

  function AttemptsOfExecutors(rows: seq<ExecutorRow>): nat {
    if rows == [] then 0 else rows[0].attempts + AttemptsOfExecutors(rows[1..])
  }

  function FailuresOfExecutors(rows: seq<ExecutorRow>): nat {
    if rows == [] then 0 else rows[0].failed + FailuresOfExecutors(rows[1..])
  }

  function Failures(): Execution -> seq<Execution> { (e: Execution) => if e.status.Failed? then [e] else [] }

  function Attempts(): Execution -> seq<Execution> { (e: Execution) => [e] }

  lemma {:induction false} AttemptsAreAll(es: seq<Execution>)
    ensures Gather(Attempts(), es) == es
  {
    if es != [] { AttemptsAreAll(es[..|es| - 1]); }
  }

  lemma {:induction false} RunnerSums(es: seq<Execution>, names: seq<string>)
    ensures AttemptsOfRunners(RunnerRows(es, names)) == Spread(ByRunner, names, es)
    ensures FailuresOfRunners(RunnerRows(es, names)) == Spread(FailedBy, names, es)
  {
    if names != [] { RunnerSums(es, names[1..]); }
  }

  lemma {:induction false} ExecutorSums(es: seq<Execution>, names: seq<Executor>)
    ensures AttemptsOfExecutors(ExecutorRows(es, names)) == Spread(UnderExecutor, names, es)
    ensures FailuresOfExecutors(ExecutorRows(es, names)) == Spread(FailedUnder, names, es)
  {
    if names != [] { ExecutorSums(es, names[1..]); }
  }

  lemma {:induction false} EveryRunnerHasARow(es: seq<Execution>)
    ensures forall e | e in es :: e.runner in Gather(RunnerName(), es) && e.executor in Gather(ExecutorName(), es)
  {
    if es != [] {
      var front, last := es[..|es| - 1], es[|es| - 1];
      assert es == front + [last];
      EveryRunnerHasARow(front);
    }
  }

  lemma RunnersAddUp(es: seq<Execution>, names: seq<string>)
    requires Distinct(names) && forall e | e in es :: e.runner in names
    ensures AttemptsOfRunners(RunnerRows(es, names)) == |es|
    ensures FailuresOfRunners(RunnerRows(es, names)) == |Gather(Failures(), es)|
  {
    hide Gather, Spread, RunnerRows;
    AttemptsAreAll(es);
    RunnerSums(es, names);
    SpreadIsEverything(ByRunner, (e: Execution) => e.runner, Attempts(), names, es);
    SpreadIsEverything(FailedBy, (e: Execution) => e.runner, Failures(), names, es);
  }

  lemma ExecutorsAddUp(es: seq<Execution>, names: seq<Executor>)
    requires Distinct(names) && forall e | e in es :: e.executor in names
    ensures AttemptsOfExecutors(ExecutorRows(es, names)) == |es|
    ensures FailuresOfExecutors(ExecutorRows(es, names)) == |Gather(Failures(), es)|
  {
    hide Gather, Spread, ExecutorRows;
    AttemptsAreAll(es);
    ExecutorSums(es, names);
    SpreadIsEverything(UnderExecutor, (e: Execution) => e.executor, Attempts(), names, es);
    SpreadIsEverything(FailedUnder, (e: Execution) => e.executor, Failures(), names, es);
  }

  /** Attempts by runner and by executor both add up to the attempts in the
      window, and the two tables agree on how many failed. */
  lemma TablesAddUp(records: seq<Record>, since: nat, dayAgo: nat)
    ensures var report := StatsOf(records, since, dayAgo);
            var es := Gather(AttemptsIn(), Gather(InWindow(since), records));
            && AttemptsOfRunners(report.byRunner) == |es| == AttemptsOfExecutors(report.byExecutor)
            && FailuresOfRunners(report.byRunner) == |Gather(Failures(), es)| == FailuresOfExecutors(report.byExecutor)
  {
    hide Gather, RunnerRows, ExecutorRows, Sort, FirstSeen;
    var es := Gather(AttemptsIn(), Gather(InWindow(since), records));
    EveryRunnerHasARow(es);
    EachOnce(Gather(RunnerName(), es));
    EachOnce(Gather(ExecutorName(), es));
    SortDistinct(StringLe, Runners(es));
    SortDistinct(ExecutorLe, Executors(es));
    RunnersAddUp(es, Sort(StringLe, Runners(es)));
    ExecutorsAddUp(es, Sort(ExecutorLe, Executors(es)));
  }

  /** Every task is counted under exactly one status. */
  lemma {:induction false} CountersAddUp(w: seq<Record>)
    ensures var c := CountersOf(w);
            c.queued + c.running + c.awaitingReview + c.approved + c.merged + c.failed + c.cancelled + c.rejected == |w|
  {
    if w != [] { CountersAddUp(w[..|w| - 1]); }
  }

  /** Rows come one per runner, in name order. */
  lemma RowsAreSorted(records: seq<Record>, since: nat, dayAgo: nat)
    ensures var rows := StatsOf(records, since, dayAgo).byRunner;
            && (forall i, j | 0 <= i < j < |rows| ::
                StringLe(rows[i].runner, rows[j].runner) && rows[i].runner != rows[j].runner)
            && (forall name :: (exists i :: 0 <= i < |rows| && rows[i].runner == name) <==>
                  name in Gather(RunnerName(), Gather(AttemptsIn(), Gather(InWindow(since), records))))
  {
    hide Gather;
    var es := Gather(AttemptsIn(), Gather(InWindow(since), records));
    var names := Sort(StringLe, Runners(es));
    EachOnce(Gather(RunnerName(), es));
    StringLeIsTotalOrder();
    SortSorted(StringLe, Runners(es));
    SortDistinct(StringLe, Runners(es));
    var rows := RunnerRows(es, names);
    forall name | name in names ensures exists i :: 0 <= i < |rows| && rows[i].runner == name {
      var i :| 0 <= i < |names| && names[i] == name;
      assert rows[i].runner == name;
    }
  }

  // ---- The loops ----------------------------------------------------------------------

  /** One attempt counted in its executor's row. */
  function CountedIn(row: ExecutorRow, status: Executions.ExecutionStatus): ExecutorRow {
    row.(attempts := row.attempts + 1,
         completed := row.completed + (if status.Completed? then 1 else 0),
         failed := row.failed + (if status.Failed? then 1 else 0))
  }

  lemma ExecutorSnoc(es: seq<Execution>, e: Execution, x: Executor)
    ensures ExecutorRowOf(es + [e], x) ==
              if e.executor == x then CountedIn(ExecutorRowOf(es, x), e.status) else ExecutorRowOf(es, x)
  {
    GatherSnoc(UnderExecutor(x), es, e);
    GatherSnoc(CompletedUnder(x), es, e);
    GatherSnoc(FailedUnder(x), es, e);
  }

  lemma {:induction false} ExecutorUnseen(es: seq<Execution>, x: Executor)
    requires x !in Executors(es)
    ensures ExecutorRowOf(es, x) == ExecutorRow(x, 0, 0, 0)
  {
    if es != [] {
      var front, last := es[..|es| - 1], es[|es| - 1];
      assert es == front + [last];
      ExecutorsSnoc(front, last);
      ExecutorUnseen(front, x);
      ExecutorSnoc(front, last, x);
    }
  }

  lemma ExecutorsSnoc(es: seq<Execution>, e: Execution)
    ensures Executors(es + [e]) == if e.executor in Executors(es) then Executors(es) else Executors(es) + [e.executor]
    ensures Distinct(Executors(es)) && e.executor in Executors(es + [e])
  {
    GatherSnoc(ExecutorName(), es, e);
    EachOnce(Gather(ExecutorName(), es));
    var names := Gather(ExecutorName(), es);
    assert (names + [e.executor])[..|names|] == names;
  }

  lemma {:induction false} ExecutorRowsConcat(es: seq<Execution>, a: seq<Executor>, b: seq<Executor>)
    ensures ExecutorRows(es, a + b) == ExecutorRows(es, a) + ExecutorRows(es, b)
  {
    if a == [] {
      assert a + b == b;
    } else {
      assert (a + b)[1..] == a[1..] + b;
      ExecutorRowsConcat(es, a[1..], b);
    }
  }

  lemma ExecutorCounted(es: seq<Execution>, e: Execution, rows: seq<ExecutorRow>, i: nat)
    requires rows == ExecutorRows(es, Executors(es + [e])) && i < |rows| && rows[i].executor == e.executor
    ensures rows[i := CountedIn(rows[i], e.status)] == ExecutorRows(es + [e], Executors(es + [e]))
  {
    hide Gather, Executors, ExecutorRowOf;
    var names := Executors(es + [e]);
    RowNames(es, names);
    ExecutorsAreDistinct(es + [e]);
    forall k | 0 <= k < |rows|
      ensures rows[i := CountedIn(rows[i], e.status)][k] == ExecutorRowOf(es + [e], names[k])
    {
      ExecutorSnoc(es, e, names[k]);
    }
  }

  lemma RowNames(es: seq<Execution>, names: seq<Executor>)
    ensures forall i | 0 <= i < |names| :: ExecutorRows(es, names)[i].executor == names[i]
  {
  }

  lemma ExecutorsAreDistinct(es: seq<Execution>)
    ensures Distinct(Executors(es))
  {
    EachOnce(Gather(ExecutorName(), es));
  }

  // The row for `e`'s executor, created on first sight.
  method ExecutorEntry(was: seq<ExecutorRow>, e: Execution, ghost es: seq<Execution>)
    returns (rows: seq<ExecutorRow>, i: nat)
    requires was == ExecutorRows(es, Executors(es))
    ensures rows == ExecutorRows(es, Executors(es + [e])) && i < |rows| && rows[i].executor == e.executor
  {
    hide Gather, Executors, ExecutorRowOf;
    rows, i := was, 0;
    while i < |rows| && rows[i].executor != e.executor
      invariant 0 <= i <= |rows| && forall k | 0 <= k < i :: rows[k].executor != e.executor
    {
      i := i + 1;
    }
    ExecutorsSnoc(es, e);
    RowNames(es, Executors(es));
    if i == |rows| {
      ExecutorUnseen(es, e.executor);
      ExecutorRowsConcat(es, Executors(es), [e.executor]);
      rows := rows + [ExecutorRow(e.executor, 0, 0, 0)];
    }
  }

  /** The attempt goes to its executor's row. */
  method RecordExecutor(was: seq<ExecutorRow>, e: Execution, ghost es: seq<Execution>) returns (rows: seq<ExecutorRow>)
    requires was == ExecutorRows(es, Executors(es))
    ensures rows == ExecutorRows(es + [e], Executors(es + [e]))
  {
    hide Gather, Executors, ExecutorRows;
    var i;
    rows, i := ExecutorEntry(was, e, es);
    ExecutorCounted(es, e, rows, i);
    var row := rows[i].(attempts := rows[i].attempts + 1);
    match e.status {
      case Completed => row := row.(completed := row.completed + 1);
      case Failed => row := row.(failed := row.failed + 1);
      case _ =>
    }
    rows := rows[i := row];
  }

  // The two index-aligned vectors the runner table is built in.
  ghost predicate RunnerTable(es: seq<Execution>, names: seq<string>, rows: seq<RunnerRow>, ms: seq<seq<nat>>) {
    && |rows| == |names| == |ms|
    && forall i | 0 <= i < |names| :: InTable(es, names[i], rows[i], ms[i])
  }

  ghost predicate InTable(es: seq<Execution>, name: string, row: RunnerRow, ms: seq<nat>) {
    row == RunnerRowOf(es, name).(medianMs := 0) && ms == Gather(DurationBy(name), es)
  }

  function RunnerCounted(row: RunnerRow, e: Execution): RunnerRow {
    row.(attempts := row.attempts + 1, failed := row.failed + (if e.status.Failed? then 1 else 0))
  }

  lemma OneMoreOfRunner(es: seq<Execution>, e: Execution, row: RunnerRow, ms: seq<nat>)
    requires InTable(es, e.runner, row, ms)
    ensures InTable(es + [e], e.runner, RunnerCounted(row, e), ms + Took(e))
  {
    GatherSnoc(ByRunner(e.runner), es, e);
    GatherSnoc(FailedBy(e.runner), es, e);
    GatherSnoc(DurationBy(e.runner), es, e);
  }

  lemma OneMoreOfAnother(es: seq<Execution>, e: Execution, name: string, row: RunnerRow, ms: seq<nat>)
    requires InTable(es, name, row, ms) && e.runner != name
    ensures InTable(es + [e], name, row, ms)
  {
    GatherSnoc(ByRunner(name), es, e);
    GatherSnoc(FailedBy(name), es, e);
    GatherSnoc(DurationBy(name), es, e);
  }

  lemma RunnersSnoc(es: seq<Execution>, e: Execution)
    ensures Runners(es + [e]) == if e.runner in Runners(es) then Runners(es) else Runners(es) + [e.runner]
    ensures Distinct(Runners(es + [e])) && e.runner in Runners(es + [e])
  {
    GatherSnoc(RunnerName(), es, e);
    EachOnce(Gather(RunnerName(), es + [e]));
    var names := Gather(RunnerName(), es);
    assert (names + [e.runner])[..|names|] == names;
  }

  lemma {:induction false} RunnerUnseen(es: seq<Execution>, name: string)
    requires name !in Runners(es)
    ensures InTable(es, name, RunnerRow(name, 0, 0, 0), [])
  {
    if es != [] {
      var front, last := es[..|es| - 1], es[|es| - 1];
      assert es == front + [last];
      RunnersSnoc(front, last);
      RunnerUnseen(front, name);
      OneMoreOfAnother(front, last, name, RunnerRow(name, 0, 0, 0), []);
    }
  }

  // The row for `e`'s runner, created together with its durations on first sight.
  method RunnerEntry(was: seq<RunnerRow>, msWas: seq<seq<nat>>, e: Execution, ghost es: seq<Execution>)
    returns (rows: seq<RunnerRow>, ms: seq<seq<nat>>, i: nat)
    requires RunnerTable(es, Runners(es), was, msWas)
    ensures RunnerTable(es, Runners(es + [e]), rows, ms) && i < |rows| && Runners(es + [e])[i] == e.runner
  {
    hide Gather, Runners, RunnerRowOf;
    rows, ms, i := was, msWas, 0;
    while i < |rows| && rows[i].runner != e.runner
      invariant 0 <= i <= |rows| && forall k | 0 <= k < i :: rows[k].runner != e.runner
    {
      i := i + 1;
    }
    RunnersSnoc(es, e);
    TableNames(es, Runners(es), rows, ms);
    if i == |rows| {
      RunnerUnseen(es, e.runner);
      rows := rows + [RunnerRow(e.runner, 0, 0, 0)];
      ms := ms + [[]];
    }
  }

  lemma TableNames(es: seq<Execution>, names: seq<string>, rows: seq<RunnerRow>, ms: seq<seq<nat>>)
    requires RunnerTable(es, names, rows, ms)
    ensures forall i | 0 <= i < |rows| :: rows[i].runner == names[i]
  {
    forall i | 0 <= i < |rows| ensures rows[i].runner == names[i] {
      assert InTable(es, names[i], rows[i], ms[i]);
    }
  }

  lemma RunnerTableCounted(es: seq<Execution>, e: Execution, names: seq<string>, rows: seq<RunnerRow>,
                           ms: seq<seq<nat>>, i: nat)
    requires RunnerTable(es, names, rows, ms) && Distinct(names) && i < |names| && names[i] == e.runner
    ensures RunnerTable(es + [e], names, rows[i := RunnerCounted(rows[i], e)], ms[i := ms[i] + Took(e)])
  {
    hide InTable;
    forall k | 0 <= k < |names|
      ensures InTable(es + [e], names[k], rows[i := RunnerCounted(rows[i], e)][k], ms[i := ms[i] + Took(e)][k])
    {
      if k == i {
        OneMoreOfRunner(es, e, rows[k], ms[k]);
      } else {
        OneMoreOfAnother(es, e, names[k], rows[k], ms[k]);
      }
    }
  }

  /** The attempts of one task, added to both tables and to the durations. */
  method RecordExecutions(more: seq<Execution>, execWas: seq<nat>, byExecutorWas: seq<ExecutorRow>,
                          byRunnerWas: seq<RunnerRow>, msWas: seq<seq<nat>>, ghost es: seq<Execution>)
    returns (execMs: seq<nat>, byExecutor: seq<ExecutorRow>, byRunner: seq<RunnerRow>, runnerMs: seq<seq<nat>>)
    requires execWas == Gather(Duration(), es) && byExecutorWas == ExecutorRows(es, Executors(es))
    requires RunnerTable(es, Runners(es), byRunnerWas, msWas)
    ensures execMs == Gather(Duration(), es + more) && byExecutor == ExecutorRows(es + more, Executors(es + more))
    ensures RunnerTable(es + more, Runners(es + more), byRunner, runnerMs)
  {
    hide Gather, Executors, ExecutorRows, Runners, RunnerTable;
    execMs, byExecutor, byRunner, runnerMs := execWas, byExecutorWas, byRunnerWas, msWas;
    assert es + more[..0] == es;
    for n := 0 to |more|
      invariant execMs == Gather(Duration(), es + more[..n])
      invariant byExecutor == ExecutorRows(es + more[..n], Executors(es + more[..n]))
      invariant RunnerTable(es + more[..n], Runners(es + more[..n]), byRunner, runnerMs)
    {
      var e := more[n];
      ghost var so := es + more[..n];
      assert es + more[..n + 1] == so + [e];
      byRunner, runnerMs := RecordRunner(byRunner, runnerMs, e, so);
      GatherSnoc(Duration(), so, e);
      if e.finishedAt.Some? {
        execMs := execMs + [SaturatingSub(e.finishedAt.value, e.startedAt)];
      } else {
        assert Gather(Duration(), so) + [] == Gather(Duration(), so);
      }
      byExecutor := RecordExecutor(byExecutor, e, so);
    }
    assert more[..|more|] == more;
  }

  method RecordRunner(was: seq<RunnerRow>, msWas: seq<seq<nat>>, e: Execution, ghost es: seq<Execution>)
    returns (rows: seq<RunnerRow>, ms: seq<seq<nat>>)
    requires RunnerTable(es, Runners(es), was, msWas)
    ensures RunnerTable(es + [e], Runners(es + [e]), rows, ms)
  {
    hide Gather, Runners, InTable;
    var i;
    rows, ms, i := RunnerEntry(was, msWas, e, es);
    RunnersSnoc(es, e);
    RunnerTableCounted(es, e, Runners(es + [e]), rows, ms, i);
    var row := rows[i].(attempts := rows[i].attempts + 1);
    if e.status.Failed? {
      row := row.(failed := row.failed + 1);
    }
    rows := rows[i := row];
    if e.finishedAt.Some? {
      ms := ms[i := ms[i] + [SaturatingSub(e.finishedAt.value, e.startedAt)]];
    } else {
      assert ms[i] + [] == ms[i] && ms[i := ms[i]] == ms;
    }
  }

  // ---- Sorting the rows -----------------------------------------------------------------

  predicate RunnerRowLe(a: RunnerRow, b: RunnerRow) { StringLe(a.runner, b.runner) }

  predicate ExecutorRowLe(a: ExecutorRow, b: ExecutorRow) { ExecutorLe(a.executor, b.executor) }

  lemma {:induction false} InsertRunnerRow(es: seq<Execution>, name: string, names: seq<string>)
    ensures Insert(RunnerRowLe, RunnerRowOf(es, name), RunnerRows(es, names))
              == RunnerRows(es, Insert(StringLe, name, names))
  {
    if names != [] { InsertRunnerRow(es, name, names[1..]); }
  }

  lemma {:induction false} SortRunnerRows(es: seq<Execution>, names: seq<string>)
    ensures Sort(RunnerRowLe, RunnerRows(es, names)) == RunnerRows(es, Sort(StringLe, names))
  {
    if names != [] {
      SortRunnerRows(es, names[1..]);
      InsertRunnerRow(es, names[0], Sort(StringLe, names[1..]));
    }
  }

  lemma {:induction false} InsertExecutorRow(es: seq<Execution>, x: Executor, names: seq<Executor>)
    ensures Insert(ExecutorRowLe, ExecutorRowOf(es, x), ExecutorRows(es, names))
              == ExecutorRows(es, Insert(ExecutorLe, x, names))
  {
    if names != [] { InsertExecutorRow(es, x, names[1..]); }
  }

  lemma {:induction false} SortExecutorRows(es: seq<Execution>, names: seq<Executor>)
    ensures Sort(ExecutorRowLe, ExecutorRows(es, names)) == ExecutorRows(es, Sort(ExecutorLe, names))
  {
    if names != [] {
      SortExecutorRows(es, names[1..]);
      InsertExecutorRow(es, names[0], Sort(ExecutorLe, names[1..]));
    }
  }

  // ---- The whole computation --------------------------------------------------------------

  /** Counts a task by status, folding follow-ups into running and every way to
      end badly on the runner into failed. */
  method CountStatus(was: Counters, status: TaskStatus) returns (c: Counters)
    ensures c == Bumped(was, BucketOf(status))
  {
    match status {
      case Queued => c := was.(queued := was.queued + 1);
      case Running => c := was.(running := was.running + 1);
      case ChangesRequested => c := was.(running := was.running + 1);
      case AwaitingReview => c := was.(awaitingReview := was.awaitingReview + 1);
      case Conflicted => c := was.(awaitingReview := was.awaitingReview + 1);
      case Approved => c := was.(approved := was.approved + 1);
      case Merged => c := was.(merged := was.merged + 1);
      case Failed => c := was.(failed := was.failed + 1);
      case TimedOut => c := was.(failed := was.failed + 1);
      case RunnerLost => c := was.(failed := was.failed + 1);
      case Cancelled => c := was.(cancelled := was.cancelled + 1);
      case Rejected => c := was.(rejected := was.rejected + 1);
    }
  }

  function Bumped(c: Counters, b: Bucket): Counters {
    match b
    case InQueue => c.(queued := c.queued + 1)
    case InProgress => c.(running := c.running + 1)
    case ForReview => c.(awaitingReview := c.awaitingReview + 1)
    case IsApproved => c.(approved := c.approved + 1)
    case IsMerged => c.(merged := c.merged + 1)
    case HasFailed => c.(failed := c.failed + 1)
    case WasCancelled => c.(cancelled := c.cancelled + 1)
    case WasRejected => c.(rejected := c.rejected + 1)
  }

  lemma BucketSnoc(b: Bucket, w: seq<Record>, r: Record)
    ensures |Gather(InBucket(b), w + [r])| == |Gather(InBucket(b), w)| + if BucketOf(r.status) == b then 1 else 0
  {
    GatherSnoc(InBucket(b), w, r);
  }

  lemma CountersSnoc(w: seq<Record>, r: Record)
    ensures CountersOf(w + [r]) == Bumped(CountersOf(w), BucketOf(r.status))
  {
    hide Gather, InBucket;
    BucketSnoc(InQueue, w, r);
    BucketSnoc(InProgress, w, r);
    BucketSnoc(ForReview, w, r);
    BucketSnoc(IsApproved, w, r);
    BucketSnoc(IsMerged, w, r);
    BucketSnoc(HasFailed, w, r);
    BucketSnoc(WasCancelled, w, r);
    BucketSnoc(WasRejected, w, r);
  }

  // The figures that need no table, over the records counted so far.
  ghost predicate Totals(w: seq<Record>, tasks: nat, c: Counters, retried: nat, cost: real, queueMs: seq<nat>) {
    && tasks == |w| && c == CountersOf(w)
    && retried == |Gather(Retried(), w)| && cost == Sum(Gather(CostOf(), w))
    && queueMs == Gather(QueueWait(), w)
  }

  lemma TotalsSnoc(w: seq<Record>, r: Record, tasks: nat, c: Counters, retried: nat, cost: real, queueMs: seq<nat>)
    requires Totals(w, tasks, c, retried, cost, queueMs)
    ensures Totals(w + [r], tasks + 1, Bumped(c, BucketOf(r.status)),
                   retried + (if |r.executions| > 1 then 1 else 0),
                   cost + (if r.result.Some? then r.result.value.cost else 0.0),
                   queueMs + QueueWait()(r))
  {
    CountersSnoc(w, r);
    GatherSnoc(Retried(), w, r);
    GatherSnoc(CostOf(), w, r);
    GatherSnoc(QueueWait(), w, r);
    SumConcat(Gather(CostOf(), w), CostOf()(r));
    assert CostOf()(r)[..0] == [];
  }

  /** Throughput, duration and cost over tasks created since a cutoff. */
  method Compute(records: seq<Record>, since: nat, dayAgo: nat) returns (stats: Stats)
    ensures stats == StatsOf(records, since, dayAgo)
  {
    hide Gather, Sum, Largest, Median, CountersOf, Bumped, ExecutorRows, RunnerRows, Executors, Runners, RunnerTable,
      Totals, Sort;
    var tasks, c, retried, cost, queueMs := 0, Counters(0, 0, 0, 0, 0, 0, 0, 0), 0, 0.0, [];
    var execMs, byExecutor, byRunner, runnerMs := [], [], [], [];
    NothingYet();
    for i := 0 to |records|
      invariant Totals(Gather(InWindow(since), records[..i]), tasks, c, retried, cost, queueMs)
      invariant var es := Gather(AttemptsIn(), Gather(InWindow(since), records[..i]));
                && execMs == Gather(Duration(), es) && byExecutor == ExecutorRows(es, Executors(es))
                && RunnerTable(es, Runners(es), byRunner, runnerMs)
    {
      var r := records[i];
      ghost var w := Gather(InWindow(since), records[..i]);
      assert records[..i + 1] == records[..i] + [r];
      GatherSnoc(InWindow(since), records[..i], r);
      if r.createdAt < since {
        assert w + [] == w;
        continue;
      }
      TotalsSnoc(w, r, tasks, c, retried, cost, queueMs);
      GatherSnoc(AttemptsIn(), w, r);
      tasks := tasks + 1;
      c := CountStatus(c, r.status);
      if |r.executions| > 1 {
        retried := retried + 1;
      }
      cost := cost + (if r.result.Some? then r.result.value.cost else 0.0);
      queueMs := queueMs + QueueWait()(r);
      execMs, byExecutor, byRunner, runnerMs :=
        RecordExecutions(r.executions, execMs, byExecutor, byRunner, runnerMs, Gather(AttemptsIn(), w));
    }
    assert records[..|records|] == records;
    ghost var es := Gather(AttemptsIn(), Gather(InWindow(since), records));
    byRunner := FillMedians(byRunner, runnerMs, es);
    SortRunnerRows(es, Runners(es));
    SortExecutorRows(es, Executors(es));
    var budget, spent := RecordBudget(records, dayAgo);
    TotalsAre(Gather(InWindow(since), records), tasks, c, retried, cost, queueMs);
    stats := Stats(since, tasks, c, Median(execMs), Median(queueMs), retried, cost,
                   Sort(ExecutorRowLe, byExecutor), Sort(RunnerRowLe, byRunner), budget, spent);
  }

  lemma NothingYet()
    ensures Totals([], 0, Counters(0, 0, 0, 0, 0, 0, 0, 0), 0, 0.0, [])
    ensures ExecutorRows([], Executors([])) == [] && RunnerTable([], Runners([]), [], [])
    ensures forall since :: Gather(InWindow(since), []) == []
    ensures Gather(AttemptsIn(), []) == [] && Gather(Duration(), []) == []
  {
  }

  lemma TotalsAre(w: seq<Record>, tasks: nat, c: Counters, retried: nat, cost: real, queueMs: seq<nat>)
    requires Totals(w, tasks, c, retried, cost, queueMs)
    ensures tasks == |w| && c == CountersOf(w) && retried == |Gather(Retried(), w)|
    ensures cost == Sum(Gather(CostOf(), w)) && queueMs == Gather(QueueWait(), w)
  {
  }

  method FillMedians(was: seq<RunnerRow>, ms: seq<seq<nat>>, ghost es: seq<Execution>) returns (rows: seq<RunnerRow>)
    requires RunnerTable(es, Runners(es), was, ms)
    ensures rows == RunnerRows(es, Runners(es))
  {
    hide Gather, Runners, Median;
    ghost var names := Runners(es);
    rows := [];
    for i := 0 to |was|
      invariant |rows| == i && forall k | 0 <= k < i :: rows[k] == RunnerRowOf(es, names[k])
    {
      assert InTable(es, names[i], was[i], ms[i]);
      rows := rows + [was[i].(medianMs := Median(ms[i]))];
    }
  }

  /** The highest daily budget any repository declared, and what the last day cost. */
  method RecordBudget(records: seq<Record>, dayAgo: nat) returns (budget: seq<real>, spent: real)
    ensures budget == Largest(Gather(Budgets(), records)) && spent == Sum(Gather(SpentSince(dayAgo), records))
  {
    hide Gather;
    budget, spent := [], 0.0;
    NoBudgetYet(dayAgo);
    for i := 0 to |records|
      invariant budget == Largest(Gather(Budgets(), records[..i]))
                && spent == Sum(Gather(SpentSince(dayAgo), records[..i]))
    {
      var r := records[i];
      assert records[..i + 1] == records[..i] + [r];
      GatherSnoc(Budgets(), records[..i], r);
      GatherSnoc(SpentSince(dayAgo), records[..i], r);
      ghost var before, costs := Gather(Budgets(), records[..i]), Gather(SpentSince(dayAgo), records[..i]);
      assert before + [] == before && costs + [] == costs;
      if r.result.None? {
        continue;
      }
      if r.createdAt >= dayAgo {
        assert (costs + [r.result.value.cost])[..|costs|] == costs;
        spent := spent + r.result.value.cost;
      }
      if r.result.value.budget.Some? {
        var limit := r.result.value.budget.value;
        assert (before + [limit])[..|before|] == before;
        budget := if budget == [] || budget[0] < limit then [limit] else budget;
      }
    }
    assert records[..|records|] == records;
  }

  lemma NoBudgetYet(dayAgo: nat)
    ensures Gather(Budgets(), []) == [] && Gather(SpentSince(dayAgo), []) == []
  {
  }
}
