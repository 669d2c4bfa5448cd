/** Tasks the cascade put back, and everything that may happen to them later
    (crates/orchestrator/src/state.rs, commands.rs and plan.rs): when one becomes ready. */
module Retries {
  import opened Protocol
  import opened Tasks
  import opened Cascade
  import opened Plans

  // ---- The table, one command at a time ---------------------------------------------

  /** Whatever moves a task's status or touches its specification. */
  datatype Move =
    | Report(id: TaskId, event: TaskEvent, eligible: set<TaskId>)  // `apply_event`
    | Retry(id: TaskId, settings: Settings)                        // somebody has it put back
    | Create(id: TaskId, task: Task)
    | Approve(id: TaskId)                                          // a plan, once its children are there
    | Merge(id: TaskId)
    | AllowHost(id: TaskId, host: string)

  ghost predicate Moves(t: Table, m: Move, t': Table) {
    match m
    case Report(id, event, eligible) => EventApplied(t, t', id, event, eligible)
    case Retry(id, settings) =>
      && id in t && Retriable(t[id].status)
      && t' == t[id := PutBack(t[id]).(spec := t[id].spec.(settings := settings))]
    case Create(id, task) => id !in t && t' == t[id := task]
    case Approve(id) => id in t && t[id].status.AwaitingReview? && t' == t[id := t[id].(status := Approved)]
    case Merge(id) => id in t && t[id].status.Approved? && t' == t[id := t[id].(status := Merged)]
    case AllowHost(id, host) => id in t && t' == t[id := t[id].(spec := Allowing(t[id].spec, host))]
  }

  function Allowing(spec: Spec, host: string): Spec {
    spec.(settings := spec.settings.(allowedHosts := spec.settings.allowedHosts + [host]))
  }

  ghost predicate IsHistory(tables: seq<Table>, moves: seq<Move>) {
    && |tables| == |moves| + 1
    && forall i | 0 <= i < |moves| :: Moves(tables[i], moves[i], tables[i + 1])
  }

  /** `u` ended badly and is in the queue again. */
  predicate PutBackIn(t: Table, t': Table, u: TaskId) {
    u in t && u in t' && BadEnd(t[u].status) && t'[u].status.Queued?
  }

  /** `u` left the queue for something else than a bad end, and was not ready: a runner
      started what it had been given before the cascade. */
  predicate OutOfTurn(t: Table, t': Table, u: TaskId) {
    && u in t && u in t' && t[u].status.Queued? && !t'[u].status.Queued? && !BadEnd(t'[u].status)
    && !DepsMet(t, t[u].spec)
  }

  // ---- What one move leaves alone ------------------------------------------------------

  /** No move drops a task or changes what it waits for, and a bad end is only left
      through the queue. */
  ghost predicate Steady(t: Table, t': Table, u: TaskId) {
    u in t ==>
      && u in t' && t'[u].spec.dependsOn == t[u].spec.dependsOn && t'[u].spec.condition == t[u].spec.condition
      && (BadEnd(t[u].status) ==> BadEnd(t'[u].status) || t'[u].status.Queued?)
  }

  lemma ReportIsSteady(t: Table, t': Table, id: TaskId, event: TaskEvent, eligible: set<TaskId>, u: TaskId)
    requires EventApplied(t, t', id, event, eligible)
    ensures Steady(t, t', u)
  {
    if id in t {
      if !IsTerminal(t[id].status) && BadEnd(Applied(t[id], event).status) {
        var m := Between(t, t', id, event, eligible);
        hide EventApplied, Cascaded, Applied, RetriesLeft;
      } else {
        hide Cascaded, Applied;
      }
    }
  }

  lemma MovesAreSteady(t: Table, m: Move, t': Table, u: TaskId)
    requires Moves(t, m, t')
    ensures Steady(t, t', u)
  {
    hide EventApplied;
    if m.Report? { ReportIsSteady(t, t', m.id, m.event, m.eligible, u); }
  }

  // ---- A line of tasks that wait for each other -------------------------------------------

  /** Each waits for the one before; the first ended badly, the others did or are queued. */
  ghost predicate Stuck(t: Table, p: seq<TaskId>) {
    && p != [] && (forall i | 0 <= i < |p| :: p[i] in t)
    && BadEnd(t[p[0]].status)
    && (forall i | 0 < i < |p| ::
        p[i - 1] in t[p[i]].spec.dependsOn && (t[p[i]].status.Queued? || BadEnd(t[p[i]].status)))
  }

  lemma StuckIsNotReady(t: Table, p: seq<TaskId>, i: nat)
    requires Stuck(t, p) && 0 < i < |p|
    ensures !DepsMet(t, t[p[i]].spec)
  {
    assert p[i - 1] in t[p[i]].spec.dependsOn;
    assert t[p[i - 1]].status.Queued? || BadEnd(t[p[i - 1]].status);
  }

  lemma StaysStuck(t: Table, m: Move, t': Table, p: seq<TaskId>)
    requires Stuck(t, p) && Moves(t, m, t') && !PutBackIn(t, t', p[0])
    requires forall i | 0 < i < |p| :: !OutOfTurn(t, t', p[i])
    ensures Stuck(t', p)
  {
    hide Moves, DepsMet;
    forall i | 0 <= i < |p| ensures Steady(t, t', p[i]) { MovesAreSteady(t, m, t', p[i]); }
    forall i | 0 < i < |p| ensures t'[p[i]].status.Queued? || BadEnd(t'[p[i]].status) {
      StuckIsNotReady(t, p, i);
    }
  }

  lemma {:induction false} StuckUntilPutBack(tables: seq<Table>, moves: seq<Move>, p: seq<TaskId>, k: nat)
    requires IsHistory(tables, moves) && k < |tables| && Stuck(tables[0], p)
    requires forall j | 0 <= j < k :: !PutBackIn(tables[j], tables[j + 1], p[0])
    requires forall j, i | 0 <= j < k && 0 < i < |p| :: !OutOfTurn(tables[j], tables[j + 1], p[i])
    ensures Stuck(tables[k], p)
  {
    if k > 0 {
      StuckUntilPutBack(tables, moves, p, k - 1);
      assert Moves(tables[k - 1], moves[k - 1], tables[k]);
      hide Stuck, Moves, OutOfTurn, PutBackIn;
      StaysStuck(tables[k - 1], moves[k - 1], tables[k], p);
    }
  }

  // ---- What the cascade leaves behind -----------------------------------------------------

  lemma StuckAfterTheCascade(s: Table, s': Table, id: TaskId, eligible: set<TaskId>, p: seq<TaskId>)
    requires Cascaded(s, s', id, eligible) && id in s && BadEnd(s[id].status) && Path(s, p) && |p| > 1 && p[0] == id
    ensures Stuck(s', p)
  {
    hide Reaches, Requeues, RetryLimit, ClosedUnder;
    assert !Hit(s, s', id);
    forall i | 0 < i < |p| ensures Hit(s, s', p[i]) && p[i - 1] in s'[p[i]].spec.dependsOn {
      AlongThePath(s, s', id, eligible, p, i);
      assert Waiting(s, p[i], p[i - 1]);
    }
  }

  // ---- When one of them becomes ready -------------------------------------------------------

  /** The task at the root has been put back, or one on the way left the queue out of turn. */
  ghost predicate Released(s: Table, id: TaskId, t: Table, t': Table) {
    PutBackIn(t, t', id) || exists v :: Reaches(s, id, v) && OutOfTurn(t, t', v)
  }

  /** Whatever happens after a cascade, a task it reached becomes ready only once that has
      happened. (At the end of the cascade, `k == 0`, it is not.) */
  lemma ReadyOnlyOnceReleased(s: Table, id: TaskId, eligible: set<TaskId>, u: TaskId, tables: seq<Table>,
                              moves: seq<Move>, k: nat)
    requires IsHistory(tables, moves) && k < |tables|
    requires Cascaded(s, tables[0], id, eligible) && id in s && BadEnd(s[id].status) && Reaches(s, id, u)
    requires forall j | 0 <= j < k :: !Released(s, id, tables[j], tables[j + 1])
    ensures u in tables[k] && !DepsMet(tables[k], tables[k][u].spec)
  {
    var p :| Path(s, p) && |p| > 1 && p[0] == id && p[|p| - 1] == u;
    StuckAfterTheCascade(s, tables[0], id, eligible, p);
    forall j, i | 0 <= j < k && 0 < i < |p| ensures !OutOfTurn(tables[j], tables[j + 1], p[i]) {
      assert !Released(s, id, tables[j], tables[j + 1]);
      assert Reaches(s, id, p[i]) by { assert Path(s, p[..i + 1]); }
    }
    StuckUntilPutBack(tables, moves, p, k);
    StuckIsNotReady(tables[k], p, |p| - 1);
  }

  /** And the root can release it: put back, started and completed, it leaves a dependent
      that waits for nothing else ready. */
  lemma RootReleases(t: Table, id: TaskId, u: TaskId, result: TaskResult)
    requires id in t && t[id].status.Queued? && u in t && u != id && t[u].status.Queued?
    requires t[u].spec.dependsOn == [id] && t[u].spec.condition == OnCompleted
    ensures exists t1: Table, t2: Table ::
      && Moves(t, Report(id, Started(None, []), {}), t1) && Moves(t1, Report(id, TaskEvent.Completed(result), {}), t2)
      && t2[u] == t[u] && DepsMet(t2, t2[u].spec)
  {
    var t1 := t[id := Applied(t[id], Started(None, []))];
    var t2 := t1[id := Applied(t1[id], TaskEvent.Completed(result))];
    JustApplied(t, id, Started(None, []), {});
    JustApplied(t1, id, TaskEvent.Completed(result), {});
    hide EventApplied;
    assert Moves(t, Report(id, Started(None, []), {}), t1);
    assert Moves(t1, Report(id, TaskEvent.Completed(result), {}), t2);
  }
}
