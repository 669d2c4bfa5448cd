/** The wire types the runner and the orchestrator share, cut down to what the
    modelled code reads. Error texts are kept as the values they are formatted
    from, and an artefact's bytes as the hash the runner compares. */
module Protocol {

  datatype Option<+T> = None | Some(value: T)

  datatype Result<+T, +E> = Ok(value: T) | Err(error: E)

  type TaskId = string

  datatype Executor = Claude | Codex

  datatype Check = Check(name: string, ok: bool)

  datatype ReviewBody = Parsed(answer: string) | ReviewerFailed(status: int)

  datatype Review = Review(executor: Executor, body: ReviewBody)

  datatype PlanStep = PlanStep(key: string, title: string, prompt: string, dependsOn: seq<string>)

  // What the runner reports of the repository's `[policy]`.
  datatype Policy = Policy(reassign: nat)

  datatype TaskResult = TaskResult(
    diff: string,
    validation: seq<Check>,
    plan: Option<seq<PlanStep>>,
    review: Option<Review>,
    policy: Option<Policy>,
    cost: real)

  datatype Reason =
    | ExitedWith(executor: Executor, status: int)
    | ChecksFailed(names: seq<string>)
    | TimedOutAfter(secs: nat)
    | LostRunner
    | DependencyEnded(id: TaskId, how: string)
    | Told(text: string)

  datatype TaskEvent =
    | Started(model: Option<string>, skills: seq<string>)
    | Message(text: string)
    | Output(line: string)
    | Command(command: string)
    | FileChanged(path: string)
    | Progress(text: string)
    | Scratchpad(content: string)
    | Artefact(name: string, hash: nat)
    | Validating(names: seq<string>)
    | NetworkDenied(host: string)
    | PermissionRequested
    | HostAllowed(host: string)
    | Completed(result: TaskResult)
    | Retry(attempt: nat, reason: Reason)
    | Requeued
    | PolicyDecision(allowed: bool)
    | Orchestrated
    | AutoApproved
    | AutoMerged
    | Failed(error: Reason)
    | TimedOut(secs: nat)
    | RunnerLost
    | Cancelled
    | Conflicted
    | Pushed
    | Discarded
    | PrReviewed
}
