/** Task records and how one event moves a task's status
    (crates/orchestrator/src/state.rs, crates/protocol/src/lib.rs). */
module Tasks {
  import opened Protocol

  datatype TaskStatus =
    | Queued | Running | AwaitingReview | ChangesRequested | Conflicted | Approved
    | Merged | Rejected | Failed | TimedOut | RunnerLost | Cancelled

  predicate IsTerminal(s: TaskStatus) {
    s.Approved? || s.Merged? || s.Rejected? || s.Failed? || s.TimedOut? || s.RunnerLost? || s.Cancelled?
  }

  datatype DependsOn = OnApproved | OnCompleted | OnMerged

  predicate Met(condition: DependsOn, s: TaskStatus) {
    match condition
    case OnApproved => s.Approved? || s.Merged?
    case OnCompleted => s.AwaitingReview? || s.ChangesRequested? || s.Conflicted? || s.Approved? || s.Merged?
    case OnMerged => s.Merged?
  }

  datatype Kind = RunKind | PlanKind

  // What a task is to be run with. The last four belong to one task and are not passed on.
  datatype Settings = Settings(
    repository: string,
    executor: Executor,
    runner: Option<string>,
    batch: Option<string>,
    sandbox: Option<string>,
    requirements: seq<string>,
    goal: Option<string>,
    model: Option<string>,
    effort: Option<string>,
    createdBy: Option<string>,
    issue: Option<string>,
    linear: Option<string>,
    reviewExecutor: Option<Executor>,
    allowedHosts: seq<string>)

  datatype Spec = Spec(
    kind: Kind,
    settings: Settings,
    prompt: string,
    baseBranch: string,
    parent: Option<TaskId>,
    dependsOn: seq<TaskId>,
    condition: DependsOn)

  datatype Task = Task(
    spec: Spec,
    status: TaskStatus,
    createdAt: nat,
    result: Option<TaskResult>,
    error: Option<Reason>,
    events: seq<TaskEvent>)

  /** Where an event sends a task that has not ended. */
  function Target(event: TaskEvent): Option<TaskStatus> {
    match event
    case Started(_, _) => Some(TaskStatus.Running)
    case Completed(_) => Some(AwaitingReview)
    case Failed(_) => Some(TaskStatus.Failed)
    case TimedOut(_) => Some(TaskStatus.TimedOut)
    case RunnerLost => Some(TaskStatus.RunnerLost)
    case Cancelled => Some(TaskStatus.Cancelled)
    case Pushed => Some(Approved)
    case Conflicted => Some(TaskStatus.Conflicted)
    case Discarded => Some(Rejected)
    case Message(_) => Some(ChangesRequested)
    case _ => None
  }

  /** Events are logged without exception, but move no status that is terminal. */
  function Applied(t: Task, event: TaskEvent): Task {
    var logged := t.(events := t.events + [event]);
    if IsTerminal(t.status) || Target(event).None? then logged
    else
      var moved := logged.(status := Target(event).value);
      match event
      case Completed(result) => moved.(result := Some(result))
      case Failed(error) => moved.(error := Some(error))
      case _ => moved
  }

  function Requeues(events: seq<TaskEvent>): nat {
    if events == [] then 0
    else Requeues(events[..|events| - 1]) + if events[|events| - 1].Requeued? then 1 else 0
  }

  lemma RequeuesSnoc(events: seq<TaskEvent>, e: TaskEvent)
    ensures Requeues(events + [e]) == Requeues(events) + if e.Requeued? then 1 else 0
  {
    assert (events + [e])[..|events|] == events;
  }

  /** How many times a task that ended in `s` may be put back. A declared policy decides;
      without one, only a lost runner is forgiven, once. */
  function RetryLimit(t: Task, s: TaskStatus): nat {
    var declared := if t.result.Some? && t.result.value.policy.Some?
                    then Some(t.result.value.policy.value.reassign) else None;
    match s
    case RunnerLost => if declared.Some? then declared.value else 1
    case Failed => if declared.Some? then declared.value else 0
    case TimedOut => if declared.Some? then declared.value else 0
    case _ => 0
  }

  predicate RetriesLeft(t: Task, s: TaskStatus) { Requeues(t.events) < RetryLimit(t, s) }

  function PutBack(t: Task): Task {
    t.(events := t.events + [TaskEvent.Requeued], status := Queued, error := None)
  }

  /** A status a task's dependents cannot wait for any longer. */
  predicate BadEnd(s: TaskStatus) {
    s.Failed? || s.TimedOut? || s.RunnerLost? || s.Cancelled? || s.Rejected?
  }
}
