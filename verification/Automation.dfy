/** What a runner does with one task (crates/agent/src/automation.rs): spawn, retry after a
    crash, commit, have failing checks fixed, have the change reviewed. What the outside does
    (how each spawn ends, what git and the checks answer) is a `World`; everything proved here
    holds for every world. */
module Automation {
  import opened Protocol
  import opened Orders
  import opened Executions
  import Artefacts

  datatype TaskKind = RunTask | PlanTask

  // The repository's `[policy]`, as far as the protocol reads it.
  datatype RepoPolicy = RepoPolicy(retry: nat, fixChecks: nat, review: bool, timeoutSecs: nat, reassign: nat)

  /** How one spawn of the executor ends. */
  datatype Ending =
    | NoBinary(error: string)
    | SpawnError(error: string)
    | PipeError(error: string)
    | WaitError(error: string)
    | Exits(status: int)
    | CancelledHere
    | Interrupted(inGrace: bool)
    | OutOfTime

  datatype Agent = Agent(
    ending: Ending,
    cost: real,
    answer: string,
    // What the answer parses to, when a plan was asked for.
    plan: Result<seq<PlanStep>, string>,
    notes: Option<string>,
    files: seq<(string, nat)>,
    denied: seq<string>)

  /** Successive spawns, commits, and check runs. A run asks for finitely many;
      what is not listed fails. */
  datatype World = World(
    agents: seq<Agent>,
    commits: seq<Result<string, string>>,
    declared: seq<string>,
    passed: seq<seq<bool>>,
    reviewer: Executor)
  {
    function Spawn(n: nat): Agent {
      if n < |agents| then agents[n]
      else Agent(NoBinary("not found on PATH"), 0.0, "", Err("no answer"), None, [], [])
    }

    function Commit(n: nat): Result<string, string> {
      if n < |commits| then commits[n] else Err("commit failed")
    }

    predicate Passes(n: nat, check: nat) {
      n < |passed| && check < |passed[n]| && passed[n][check]
    }
  }

  // What one agent run came to: `Waited` once the output has been collected.
  datatype Ran = Finished(status: int) | RanCancelled | RanTimedOut

  predicate Spawned(a: Agent) { !a.ending.NoBinary? && !a.ending.SpawnError? }

  predicate Crashed(a: Agent) { a.ending.Exits? && a.ending.status != 0 }

  predicate Succeeded(a: Agent) { a.ending.Exits? && a.ending.status == 0 }

  function Outcome(a: Agent): Result<Ran, string> {
    match a.ending
    case NoBinary(e) => Err(e)
    case SpawnError(e) => Err(e)
    case PipeError(e) => Err(e)
    case WaitError(e) => Err(e)
    case Exits(status) => Ok(Finished(status))
    case CancelledHere => Ok(RanCancelled)
    case Interrupted(_) => Ok(RanCancelled)
    case OutOfTime => Ok(RanTimedOut)
  }

  function CostOf(a: Agent): real { if Spawned(a) then a.cost else 0.0 }

  /** What the first `n` spawns cost together. */
  function Spent(w: World, n: nat): real {
    if n == 0 then 0.0 else Spent(w, n - 1) + CostOf(w.Spawn(n - 1))
  }

  /** One result per declared check, as run after the given commit. */
  function Validation(w: World, commit: nat): seq<Check> { ValidationOf(w, commit, |w.declared|) }

  function ValidationOf(w: World, commit: nat, n: nat): seq<Check>
    requires n <= |w.declared|
  {
    if n == 0 then [] else ValidationOf(w, commit, n - 1) + [Check(w.declared[n - 1], w.Passes(commit, n - 1))]
  }

  predicate AnyFailed(checks: seq<Check>) {
    checks != [] && (!checks[0].ok || AnyFailed(checks[1..]))
  }

  // The first `k` spawns all exited with an error.
  predicate AllCrashed(w: World, k: nat) { k == 0 || (Crashed(w.Spawn(k - 1)) && AllCrashed(w, k - 1)) }

  // Each of the first `f` commits left a check failing.
  predicate AllFailing(w: World, f: nat) { f == 0 || (AnyFailed(Validation(w, f - 1)) && AllFailing(w, f - 1)) }

  // Each of the first `f` changes was made by a run that exited, and was committed.
  predicate AllCommitted(w: World, k: nat, f: nat) {
    f == 0 || (w.Spawn(k + f - 1).ending.Exits? && w.Commit(f - 1).Ok? && AllCommitted(w, k, f - 1))
  }

  function FailedNames(checks: seq<Check>): seq<string> {
    if checks == [] then []
    else (if checks[0].ok then [] else [checks[0].name]) + FailedNames(checks[1..])
  }

  // ---- What a trace amounts to -------------------------------------------

  predicate Terminal(e: TaskEvent) { e.Completed? || e.Failed? || e.Cancelled? || e.TimedOut? }

  /** Attempts opened, whether one is open, the terminal events, the retries, the
      events that closed an attempt, and how often a spawn started. */
  datatype Tally = Tally(
    attempts: nat,
    open: bool,
    ends: seq<TaskEvent>,
    retries: seq<TaskEvent>,
    closers: seq<TaskEvent>,
    starts: nat)

  function Count(t: Tally, e: TaskEvent): Tally {
    Tally(
      t.attempts + (if e.Started? && !t.open then 1 else 0),
      e.Started? || (!Closes(e) && t.open),
      if Terminal(e) then t.ends + [e] else t.ends,
      if e.Retry? then t.retries + [e] else t.retries,
      if Closes(e) && t.open then t.closers + [e] else t.closers,
      t.starts + (if e.Started? then 1 else 0))
  }

  function TallyOf(trace: seq<TaskEvent>): Tally {
    if trace == [] then Tally(0, false, [], [], [], 0)
    else Count(TallyOf(trace[..|trace| - 1]), trace[|trace| - 1])
  }

  lemma {:induction false} TallyMatchesHistory(trace: seq<TaskEvent>)
    ensures TallyOf(trace).attempts == Opened(trace, false)
    ensures TallyOf(trace).open == OpenAfter(trace, false)
    ensures TallyOf(trace).closers == Closers(trace, false)
    ensures TallyOf(trace).starts == Starts(trace)
  {
    if trace != [] { TallyMatchesHistory(trace[..|trace| - 1]); }
  }

  /** The events the tally ignores. */
  predicate Side(e: TaskEvent) { e.Scratchpad? || e.Artefact? || e.NetworkDenied? || e.Validating? }

  /** What the last `Artefact` sent under a name held. */
  function LastSent(trace: seq<TaskEvent>, name: string): Option<nat> {
    if trace == [] then None
    else
      var e := trace[|trace| - 1];
      if e.Artefact? && e.name == name then Some(e.hash) else LastSent(trace[..|trace| - 1], name)
  }

  /** No artefact is sent again while its content is unchanged. */
  predicate NoResend(trace: seq<TaskEvent>) {
    trace == [] ||
    (NoResend(trace[..|trace| - 1]) &&
     var e := trace[|trace| - 1];
     e.Artefact? ==> LastSent(trace[..|trace| - 1], e.name) != Some(e.hash))
  }

  function StatusOf(a: Agent): int { if a.ending.Exits? then a.ending.status else 0 }

  /** The retries announced for the first `k` crashes, numbered from one. */
  function CrashRetries(w: World, executor: Executor, k: nat): seq<TaskEvent> {
    if k == 0 then []
    else CrashRetries(w, executor, k - 1) + [Retry(k, ExitedWith(executor, StatusOf(w.Spawn(k - 1))))]
  }

  /** The retries announced for the first `f` fix runs, numbered from one, each
      naming the checks that failed after the commit before it. */
  function FixRetries(w: World, f: nat): seq<TaskEvent> {
    if f == 0 then []
    else FixRetries(w, f - 1) + [Retry(f, ChecksFailed(FailedNames(Validation(w, f - 1))))]
  }

  /** How far a run got: `k` crash retries, `f` fix runs, a review or not; and
      nothing has ended the task yet, unless the last spawn ran out of time. */
  ghost predicate Stage(w: World, ex: Executor, secs: nat, t: Tally, spawns: nat, cost: real, k: nat, f: nat,
                        review: bool) {
    && spawns == k + 1 + f + (if review then 1 else 0)
    && cost == Spent(w, spawns)
    && t == StageTally(w, ex, secs, w.Spawn(spawns - 1), k, f, review)
    && AllCrashed(w, k)
    && (f > 0 || review ==> Succeeded(w.Spawn(k)))
    && AllFailing(w, f) && AllCommitted(w, k, f)
  }

  function StageTally(w: World, ex: Executor, secs: nat, last: Agent, k: nat, f: nat, review: bool): Tally {
    Tally(
      k + f + (if review || Spawned(last) then 1 else 0),
      (review || Spawned(last)) && !last.ending.OutOfTime?,
      if last.ending.OutOfTime? then [TimedOut(secs)] else [],
      CrashRetries(w, ex, k) + FixRetries(w, f),
      CrashRetries(w, ex, k) + FixRetries(w, f) + (if last.ending.OutOfTime? then [TimedOut(secs)] else []),
      k + f + (if review then 1 else 0) + (if Spawned(last) then 1 else 0))
  }

  /** About to spawn the executor for the `k`-th crash retry and `f`-th fix. */
  ghost predicate Ready(w: World, ex: Executor, t: Tally, spawns: nat, cost: real, k: nat, f: nat) {
    && spawns == k + f
    && cost == Spent(w, spawns)
    && t == Tally(k + f, false, [], CrashRetries(w, ex, k) + FixRetries(w, f),
                  CrashRetries(w, ex, k) + FixRetries(w, f), k + f)
    && AllCrashed(w, k)
    && (f > 0 ==> Succeeded(w.Spawn(k)))
    && AllFailing(w, f) && AllCommitted(w, k, f)
  }

  lemma FirstReady(w: World, ex: Executor)
    ensures Ready(w, ex, TallyOf([]), 0, 0.0, 0, 0)
  {
  }

  lemma Respawned(w: World, ex: Executor, secs: nat, t: Tally, spawns: nat, cost: real, k: nat, f: nat)
    requires Ready(w, ex, t, spawns, cost, k, f)
    ensures var a := w.Spawn(spawns);
            Stage(w, ex, secs, AfterRunTally(t, a, secs), spawns + 1, cost + CostOf(a), k, f, false)
  {
    hide CrashRetries, FixRetries, AllCrashed, AllFailing, AllCommitted;
  }

  lemma CrashAnnounced(w: World, ex: Executor, secs: nat, t: Tally, spawns: nat, cost: real, k: nat)
    requires Stage(w, ex, secs, t, spawns, cost, k, 0, false) && Crashed(w.Spawn(spawns - 1))
    ensures Ready(w, ex, Count(t, Retry(k + 1, ExitedWith(ex, StatusOf(w.Spawn(spawns - 1))))), spawns, cost, k + 1, 0)
  {
    assert FixRetries(w, 0) == [];
    assert CrashRetries(w, ex, k) + [] == CrashRetries(w, ex, k);
  }

  lemma FixAnnounced(w: World, ex: Executor, secs: nat, t: Tally, spawns: nat, cost: real, k: nat, f: nat)
    requires Stage(w, ex, secs, t, spawns, cost, k, f, false) && Succeeded(w.Spawn(k))
    requires w.Spawn(spawns - 1).ending.Exits? && w.Commit(f).Ok? && AnyFailed(Validation(w, f))
    ensures Ready(w, ex, Count(t, Retry(f + 1, ChecksFailed(FailedNames(Validation(w, f))))), spawns, cost, k, f + 1)
  {
    var e := Retry(f + 1, ChecksFailed(FailedNames(Validation(w, f))));
    assert CrashRetries(w, ex, k) + FixRetries(w, f) + [e] == CrashRetries(w, ex, k) + (FixRetries(w, f) + [e]);
  }

  lemma ReviewSpawned(w: World, ex: Executor, secs: nat, t: Tally, spawns: nat, cost: real, k: nat, f: nat)
    requires Stage(w, ex, secs, t, spawns, cost, k, f, false) && Succeeded(w.Spawn(k))
    requires w.Spawn(spawns - 1).ending.Exits?
    ensures var a := w.Spawn(spawns);
            Stage(w, ex, secs, AfterRunTally(t, a, secs), spawns + 1, cost + CostOf(a), k, f, true)
  {
    hide CrashRetries, FixRetries, AllCrashed, AllFailing, AllCommitted, Validation;
  }

  /** What stays true of the counts once the task's last event is out. */
  ghost predicate Counted(w: World, ex: Executor, t: Tally, spawns: nat, k: nat, f: nat, review: bool) {
    && spawns == k + 1 + f + (if review then 1 else 0)
    && t.attempts == k + f + (if review || Spawned(w.Spawn(spawns - 1)) then 1 else 0)
    && t.starts == k + f + (if review then 1 else 0) + (if Spawned(w.Spawn(spawns - 1)) then 1 else 0)
    && t.retries == CrashRetries(w, ex, k) + FixRetries(w, f)
    && t.closers == t.retries + (if review || Spawned(w.Spawn(spawns - 1)) then t.ends else [])
    && (f > 0 || review ==> Succeeded(w.Spawn(k)))
    && AllCrashed(w, k) && AllFailing(w, f) && AllCommitted(w, k, f)
  }

  /** Why nothing more was spawned after `k` crash retries and `f` fixes, with a review or
      without. */
  ghost predicate Halted(w: World, kind: TaskKind, policy: RepoPolicy, k: nat, f: nat, review: bool) {
    if kind.PlanTask? then k == f == 0 && !review
    else if !Succeeded(w.Spawn(k)) then f == 0 && !review && (Crashed(w.Spawn(k)) ==> k == policy.retry)
    else if !w.Spawn(k + f).ending.Exits? || w.Commit(f).Err? then !review
    else
      && (AnyFailed(Validation(w, f)) ==> f == policy.fixChecks)
      && review == (policy.review && w.Commit(f).value != "")
  }

  lemma StageEnds(w: World, ex: Executor, secs: nat, t: Tally, spawns: nat, cost: real, k: nat, f: nat, review: bool,
                  e: TaskEvent)
    requires Stage(w, ex, secs, t, spawns, cost, k, f, review) && Terminal(e)
    ensures Counted(w, ex, t, spawns, k, f, review)
    ensures cost == Spent(w, spawns)
    ensures w.Spawn(spawns - 1).ending.OutOfTime? ==> !t.open && t.ends == [TimedOut(secs)]
    ensures !w.Spawn(spawns - 1).ending.OutOfTime? ==>
              && t.ends == [] && t.open == (review || Spawned(w.Spawn(spawns - 1)))
              && Counted(w, ex, Count(t, e), spawns, k, f, review) && Count(t, e).ends == [e] && !Count(t, e).open
  {
    hide CrashRetries, FixRetries, AllCrashed, AllFailing, AllCommitted, Spent;
  }

  lemma TallySnoc(trace: seq<TaskEvent>, e: TaskEvent)
    ensures TallyOf(trace + [e]) == Count(TallyOf(trace), e)
  {
    assert (trace + [e])[..|trace|] == trace;
  }

  /** `seen` is what was last sent under every name, and nothing was sent twice. */
  ghost predicate Remembered(trace: seq<TaskEvent>, seen: seq<(string, nat)>) {
    NoResend(trace) && forall name :: Artefacts.Lookup(seen, name) == LastSent(trace, name)
  }

  lemma LastSentSnoc(trace: seq<TaskEvent>, e: TaskEvent, name: string)
    ensures LastSent(trace + [e], name) ==
              if e.Artefact? && e.name == name then Some(e.hash) else LastSent(trace, name)
    ensures NoResend(trace + [e]) <==>
              NoResend(trace) && (e.Artefact? ==> LastSent(trace, e.name) != Some(e.hash))
  {
    assert (trace + [e])[..|trace|] == trace;
  }

  lemma RememberedSnoc(trace: seq<TaskEvent>, seen: seq<(string, nat)>, e: TaskEvent, now: seq<(string, nat)>)
    requires Remembered(trace, seen)
    requires e.Artefact? ==> Artefacts.Lookup(seen, e.name) != Some(e.hash)
    requires forall name :: Artefacts.Lookup(now, name) ==
               if e.Artefact? && e.name == name then Some(e.hash) else Artefacts.Lookup(seen, name)
    ensures Remembered(trace + [e], now)
  {
    forall name ensures Artefacts.Lookup(now, name) == LastSent(trace + [e], name) {
      LastSentSnoc(trace, e, name);
    }
    LastSentSnoc(trace, e, "");
  }

  function Denials(hosts: seq<string>): (es: seq<TaskEvent>)
    ensures |es| == |hosts| && forall i | 0 <= i < |es| :: es[i] == NetworkDenied(hosts[i])
  {
    if hosts == [] then [] else Denials(hosts[..|hosts| - 1]) + [NetworkDenied(hosts[|hosts| - 1])]
  }

  lemma NoDenials()
    ensures FirstSeen<string>([]) == [] && Denials([]) == []
  {
  }

  lemma DenyNext(trace: seq<TaskEvent>, denied: seq<string>, i: nat)
    requires i < |denied|
    ensures var seen := FirstSeen(denied[..i]);
            FirstSeen(denied[..i + 1]) == if denied[i] in seen then seen else seen + [denied[i]]
    ensures var seen := FirstSeen(denied[..i]);
            trace + Denials(seen + [denied[i]]) == trace + Denials(seen) + [NetworkDenied(denied[i])]
  {
    var seen := FirstSeen(denied[..i]);
    assert denied[..i + 1][..i] == denied[..i];
    assert (seen + [denied[i]])[..|seen|] == seen;
  }

  /** The notes a run left, unless it left none or the ones there were. */
  function News(notes: string, content: Option<string>): seq<TaskEvent> {
    if content.Some? && content.value != "" && content.value != notes then [Scratchpad(content.value)] else []
  }

  lemma NewsIs(notes: string, content: Option<string>)
    ensures News(notes, content) != [] <==> content.Some? && content.value != "" && content.value != notes
    ensures News(notes, content) != [] ==> News(notes, content) == [Scratchpad(content.value)]
  {
  }

  /** A trace with these files announced, but for those whose content was the last
      sent under their name. */
  function Announced(trace: seq<TaskEvent>, files: seq<(string, nat)>): seq<TaskEvent> {
    if files == [] then trace
    else
      var before, (name, hash) := Announced(trace, files[..|files| - 1]), files[|files| - 1];
      if LastSent(before, name) == Some(hash) then before else before + [Artefact(name, hash)]
  }

  /** What a run that was waited on adds to the trace: notes, files, hosts it was denied. */
  function LeftBehind(trace: seq<TaskEvent>, notes: string, a: Agent): seq<TaskEvent> {
    Announced(trace + News(notes, a.notes), a.files) + Denials(FirstSeen(a.denied))
  }

  ghost predicate SideAfter(before: seq<TaskEvent>, after: seq<TaskEvent>) {
    before <= after && forall i | |before| <= i < |after| :: Side(after[i])
  }

  lemma {:induction false} AnnouncedIsSide(trace: seq<TaskEvent>, files: seq<(string, nat)>)
    ensures SideAfter(trace, Announced(trace, files))
  {
    if files != [] { AnnouncedIsSide(trace, files[..|files| - 1]); }
  }

  /** None of it touches the attempts. */
  lemma LeftBehindIsSide(trace: seq<TaskEvent>, notes: string, a: Agent)
    ensures SideAfter(trace, LeftBehind(trace, notes, a))
  {
    AnnouncedIsSide(trace + News(notes, a.notes), a.files);
  }

  /** A file's final content is the last that was sent under its name. */
  lemma {:induction false} AnnouncedIsCurrent(trace: seq<TaskEvent>, files: seq<(string, nat)>, i: nat)
    requires i < |files| && forall j | i < j < |files| :: files[j].0 != files[i].0
    ensures LastSent(Announced(trace, files), files[i].0) == Some(files[i].1)
  {
    var front, last := files[..|files| - 1], files[|files| - 1];
    var before := Announced(trace, front);
    if i < |front| { AnnouncedIsCurrent(trace, front, i); }
    LastSentSnoc(before, Artefact(last.0, last.1), files[i].0);
  }

  /** What a run says of itself. */
  predicate Runs(e: TaskEvent) {
    || e.Started? || e.Retry? || e.Completed? || e.Failed? || e.TimedOut? || e.Cancelled?
    || e.Scratchpad? || e.Artefact? || e.NetworkDenied? || e.Validating?
  }

  /** Nothing else is sent, and every start tells the model and the skills the task was given. */
  ghost predicate WellTold(trace: seq<TaskEvent>, model: Option<string>, skills: seq<string>) {
    forall e | e in trace :: Runs(e) && (e.Started? ==> e.model == model && e.skills == skills)
  }

  class Run {
    const w: World
    const kind: TaskKind
    const executor: Executor
    const model: Option<string>
    const skills: seq<string>
    const policy: RepoPolicy
    // Everything emitted for this task so far.
    var sent: seq<TaskEvent>
    var cost: real
    var notes: string
    var artefacts: seq<(string, nat)>
    // How often the executor was spawned, git asked to commit, the agent told to fix.
    var spawns: nat
    var commits: nat
    var fixes: nat
    // What `sent` amounts to and how far the run got, for the proofs.
    ghost var tally: Tally
    ghost var crashes: nat
    ghost var reviewed: bool

    constructor (w: World, kind: TaskKind, executor: Executor, model: Option<string>,
                 skills: seq<string>, policy: RepoPolicy, notes: string)
      ensures this.w == w && this.kind == kind && this.executor == executor && this.policy == policy
      ensures Unstarted()
    {
      this.w, this.kind, this.executor := w, kind, executor;
      this.model, this.skills, this.policy := model, skills, policy;
      this.notes := notes;
      sent, cost, artefacts, spawns, commits, fixes := [], 0.0, [], 0, 0, 0;
      tally, crashes, reviewed := TallyOf([]), 0, false;
    }

    ghost predicate Remembers()
      reads this
    {
      Remembered(sent, artefacts) && tally == TallyOf(sent) && WellTold(sent, model, skills)
    }

    ghost predicate Unstarted()
      reads this
    {
      && sent == [] && cost == 0.0 && artefacts == [] && spawns == 0 && commits == 0
      && crashes == 0 && fixes == 0 && !reviewed && Remembers()
    }

    method Emit(e: TaskEvent)
      requires Remembers() && Runs(e) && !e.Artefact? && (e.Started? ==> e == Started(model, skills))
      modifies this`sent, this`tally
      ensures sent == old(sent) + [e] && Remembers()
      ensures tally == Count(old(tally), e)
    {
      TallySnoc(sent, e);
      RememberedSnoc(sent, artefacts, e, artefacts);
      sent, tally := sent + [e], Count(tally, e);
    }

    /** At most one `Scratchpad`, for notes other than the last. */
    method AfterRun(content: Option<string>)
      requires Remembers()
      modifies this`sent, this`tally, this`notes
      ensures Remembers() && tally == old(tally)
      ensures sent == old(sent) + News(old(notes), content)
      ensures notes == if News(old(notes), content) != [] then content.value else old(notes)
    {
      hide Remembered, TallyOf;
      if content.None? || content.value == "" || content.value == notes {
        return;
      }
      notes := content.value;
      Emit(Scratchpad(content.value));
    }

    method SendArtefact(name: string, hash: nat)
      requires Remembers()
      modifies this`sent, this`tally, this`artefacts
      ensures Remembers() && tally == old(tally)
      ensures sent == if LastSent(old(sent), name) == Some(hash) then old(sent) else old(sent) + [Artefact(name, hash)]
      ensures Artefacts.Lookup(artefacts, name) == Some(hash)
    {
      var differs, seen := Artefacts.Changed(artefacts, name, hash);
      if differs {
        TallySnoc(sent, Artefact(name, hash));
        RememberedSnoc(sent, artefacts, Artefact(name, hash), seen);
        sent, tally := sent + [Artefact(name, hash)], Count(tally, Artefact(name, hash));
      }
      artefacts := seen;
    }

    /** `Announced` in place. */
    method SendArtefacts(files: seq<(string, nat)>)
      requires Remembers()
      modifies this`sent, this`tally, this`artefacts
      ensures Remembers() && tally == old(tally)
      ensures sent == Announced(old(sent), files)
    {
      hide Remembered, TallyOf, LastSent;
      for i := 0 to |files|
        invariant Remembers() && tally == old(tally)
        invariant sent == Announced(old(sent), files[..i])
      {
        assert files[..i + 1][..i] == files[..i];
        SendArtefact(files[i].0, files[i].1);
      }
      assert files[..|files|] == files;
    }

    /** A denial is reported the first time its host turns up. */
    method CloseProxy(denied: seq<string>)
      requires Remembers()
      modifies this`sent, this`tally
      ensures Remembers() && tally == old(tally)
      ensures sent == old(sent) + Denials(FirstSeen(denied))
    {
      hide Remembered, TallyOf, FirstSeen, Denials;
      NoDenials();
      var seen := [];
      for i := 0 to |denied|
        invariant Remembers() && tally == old(tally)
        invariant seen == FirstSeen(denied[..i]) && sent == old(sent) + Denials(seen)
      {
        var host := denied[i];
        DenyNext(old(sent), denied, i);
        if host in seen {
          continue;
        }
        seen := seen + [host];
        Emit(NetworkDenied(host));
      }
      assert denied[..|denied|] == denied;
    }

    // What a run that was waited on leaves behind.
    method LeaveBehind(a: Agent)
      requires Remembers()
      modifies this`sent, this`tally, this`notes, this`artefacts
      ensures Remembers() && tally == old(tally)
      ensures sent == LeftBehind(old(sent), old(notes), a)
    {
      hide Remembered, TallyOf;
      AfterRun(a.notes);
      SendArtefacts(a.files);
      CloseProxy(a.denied);
    }

    // The spawn itself: an executor that cannot start announces nothing, one
    // that is killed for its time says so before anything it left behind.
    method StartAndWait(a: Agent)
      requires Remembers()
      modifies this`sent, this`tally, this`cost
      ensures Remembers()
      ensures sent == old(sent) + Head(a, model, skills, policy.timeoutSecs)
      ensures tally == AfterRunTally(old(tally), a, policy.timeoutSecs)
      ensures cost == old(cost) + CostOf(a)
    {
      hide Remembered, TallyOf;
      if !Spawned(a) {
        return;
      }
      Emit(Started(model, skills));
      cost := cost + a.cost;
      if a.ending.OutOfTime? {
        Emit(TimedOut(policy.timeoutSecs));
      }
    }

    /** The next spawn of the world, from its first event to its last. */
    method AgentRun() returns (r: Result<Ran, string>)
      requires Remembers()
      modifies this`sent, this`tally, this`cost, this`notes, this`artefacts, this`spawns
      ensures Remembers() && spawns == old(spawns) + 1
      ensures var a := w.Spawn(old(spawns));
              && r == Outcome(a) && cost == old(cost) + CostOf(a)
              && tally == AfterRunTally(old(tally), a, policy.timeoutSecs)
              && var head := old(sent) + Head(a, model, skills, policy.timeoutSecs);
              sent == if r.Ok? then LeftBehind(head, old(notes), a) else head
    {
      hide Remembered, TallyOf;
      var a := w.Spawn(spawns);
      spawns := spawns + 1;
      StartAndWait(a);
      r := Outcome(a);
      if r.Ok? {
        // A run without an exit status leaves things behind too.
        LeaveBehind(a);
      }
    }

    ghost function Last(): Agent
      requires spawns > 0
      reads this
    {
      w.Spawn(spawns - 1)
    }

    /** The run and its crash retries. */
    method Attempts() returns (r: Result<Ran, string>)
      requires Unstarted()
      modifies this`sent, this`tally, this`cost, this`notes, this`artefacts, this`spawns, this`crashes
      ensures Remembers() && crashes <= policy.retry
      ensures Stage(w, executor, policy.timeoutSecs, tally, spawns, cost, crashes, 0, false)
      ensures r == Outcome(Last())
      ensures Crashed(Last()) ==> crashes == policy.retry
    {
      hide Remembered, TallyOf, Spent, AllCrashed, AllFailing, AllCommitted, LeftBehind, Head;
      FirstReady(w, executor);
      var attempt := 0;
      while true
        invariant Remembers() && attempt == crashes <= policy.retry
        invariant Ready(w, executor, tally, spawns, cost, attempt, 0)
        decreases policy.retry - attempt
      {
        Respawned(w, executor, policy.timeoutSecs, tally, spawns, cost, attempt, 0);
        r := AgentRun();
        if r.Err? || !r.value.Finished? {
          return;
        }
        if r.value.status == 0 || attempt >= policy.retry {
          return;
        }
        CrashAnnounced(w, executor, policy.timeoutSecs, tally, spawns, cost, attempt);
        attempt := attempt + 1;
        crashes := crashes + 1;
        Emit(Retry(attempt, ExitedWith(executor, r.value.status)));
      }
    }

    method Commit() returns (r: Result<TaskResult, string>)
      modifies this`commits
      ensures commits == old(commits) + 1
      ensures r == Committing(w, old(commits))
    {
      var c := w.Commit(commits);
      commits := commits + 1;
      r := if c.Ok? then Ok(Base(c.value)) else Err(c.error);
    }

    /** `Validating`, then what the world answers for the last commit. */
    method Validate() returns (checks: seq<Check>)
      requires Remembers() && commits > 0
      modifies this`sent, this`tally
      ensures Remembers() && tally == old(tally)
      ensures sent == old(sent) + (if w.declared == [] then [] else [Validating(w.declared)])
      ensures checks == Validation(w, commits - 1)
    {
      hide Remembered, TallyOf;
      if w.declared != [] {
        Emit(Validating(w.declared));
      }
      checks := Validation(w, commits - 1);
    }

    method CommitAndCheck() returns (r: Result<TaskResult, string>)
      requires Remembers()
      modifies this`sent, this`tally, this`commits
      ensures Remembers() && tally == old(tally) && commits == old(commits) + 1
      ensures match w.Commit(old(commits))
              case Ok(diff) => r == Ok(Change(w, old(commits), diff))
              case Err(error) => r == Err(error)
    {
      hide Remembered, TallyOf;
      var committed := Commit();
      if committed.Err? {
        return Err(committed.error);
      }
      var checks := Validate();
      return Ok(committed.value.(validation := checks));
    }

    // Announces the next fix run and spawns it.
    method RunFix(failing: seq<Check>) returns (r: Result<Ran, string>)
      requires Remembers() && Stage(w, executor, policy.timeoutSecs, tally, spawns, cost, crashes, fixes, false)
      requires Last().ending.Exits? && Succeeded(w.Spawn(crashes))
      requires failing == Validation(w, fixes) && AnyFailed(failing) && w.Commit(fixes).Ok?
      modifies this`sent, this`tally, this`cost, this`notes, this`artefacts, this`spawns, this`fixes
      ensures Remembers() && fixes == old(fixes) + 1
      ensures Stage(w, executor, policy.timeoutSecs, tally, spawns, cost, crashes, fixes, false)
      ensures spawns == old(spawns) + 1 && r == Outcome(w.Spawn(old(spawns)))
    {
      hide Remembered, TallyOf, Spent, Ready, AfterRunTally, AllCrashed, AllFailing, AllCommitted, LeftBehind, Head;
      FixAnnounced(w, executor, policy.timeoutSecs, tally, spawns, cost, crashes, fixes);
      fixes := fixes + 1;
      Emit(Retry(fixes, ChecksFailed(FailedNames(failing))));
      Respawned(w, executor, policy.timeoutSecs, tally, spawns, cost, crashes, fixes);
      r := AgentRun();
    }

    // One turn of the fix loop: tell the agent what failed, judge what it did.
    method FixChecks(failing: seq<Check>) returns (r: Result<Result<TaskResult, Ran>, string>)
      requires Remembers() && Stage(w, executor, policy.timeoutSecs, tally, spawns, cost, crashes, fixes, false)
      requires Last().ending.Exits? && Succeeded(w.Spawn(crashes))
      requires commits == fixes + 1 && failing == Validation(w, fixes) && AnyFailed(failing) && w.Commit(fixes).Ok?
      modifies this`sent, this`tally, this`cost, this`notes, this`artefacts, this`spawns, this`commits, this`fixes
      ensures Remembers() && fixes == old(fixes) + 1
              && Stage(w, executor, policy.timeoutSecs, tally, spawns, cost, crashes, fixes, false)
      ensures commits == fixes || commits == fixes + 1
      ensures match r
              case Ok(Ok(result)) => Last().ending.Exits? && commits == fixes + 1 && IsChange(result)
              case Ok(Err(stop)) => Outcome(Last()) == Ok(stop) && !stop.Finished?
              case Err(error) => Broke(error)
    {
      hide Remembered, TallyOf, Spent, AllCrashed, AllFailing, AllCommitted, LeftBehind, Head;
      var ran := RunFix(failing);
      if ran.Err? {
        return Err(ran.error);
      }
      if !ran.value.Finished? {
        return Ok(Err(ran.value));
      }
      // The exit status does not matter here.
      var committed := CommitAndCheck();
      if committed.Err? {
        return Err(committed.error);
      }
      return Ok(Ok(committed.value));
    }

    /** Commits, runs the checks, and lets the agent fix what failed. The inner
        result is the change, or why there is none. */
    method CommitAndFix() returns (r: Result<Result<TaskResult, Ran>, string>)
      requires Remembers() && Stage(w, executor, policy.timeoutSecs, tally, spawns, cost, crashes, 0, false)
      requires Succeeded(Last()) && commits == fixes == 0
      modifies this`sent, this`tally, this`cost, this`notes, this`artefacts, this`spawns, this`commits, this`fixes
      ensures Remembers() && Stage(w, executor, policy.timeoutSecs, tally, spawns, cost, crashes, fixes, false)
              && fixes <= policy.fixChecks
      ensures commits == fixes || commits == fixes + 1
      ensures match r
              case Ok(Ok(result)) =>
                && Last().ending.Exits? && Succeeded(w.Spawn(crashes)) && commits == fixes + 1 && IsChange(result)
                && (AnyFailed(result.validation) ==> fixes == policy.fixChecks)
              case Ok(Err(stop)) => Outcome(Last()) == Ok(stop) && !stop.Finished?
              case Err(error) => Broke(error)
      ensures Succeeded(w.Spawn(crashes))
    {
      hide Remembered, TallyOf, Spent, AllCrashed, AllFailing, AllCommitted, LeftBehind, Head;
      var committed := CommitAndCheck();
      if committed.Err? {
        return Err(committed.error);
      }
      var result := committed.value;
      while fixes < policy.fixChecks && AnyFailed(result.validation)
        invariant fixes <= policy.fixChecks && commits == fixes + 1
        invariant Remembers() && Stage(w, executor, policy.timeoutSecs, tally, spawns, cost, crashes, fixes, false)
        invariant Last().ending.Exits? && Succeeded(w.Spawn(crashes)) && IsChange(result)
        decreases policy.fixChecks - fixes
      {
        r := FixChecks(result.validation);
        if r.Err? || r.value.Err? {
          return;
        }
        result := r.value.value;
      }
      return Ok(Ok(result));
    }

    /** The change as it stands: the last commit, the checks run after it. */
    ghost predicate IsChange(result: TaskResult)
      reads this
    {
      w.Commit(fixes) == Ok(result.diff) && result == Change(w, fixes, result.diff)
    }

    /** An error that reaches the caller came from the last spawn or commit. */
    ghost predicate Broke(error: string)
      reads this
    {
      && spawns > 0
      && (|| Outcome(Last()) == Err(error)
          || (&& Last().ending.Exits? && Succeeded(w.Spawn(crashes))
              && commits == fixes + 1 && w.Commit(fixes) == Err(error)))
    }

    // The spawn after the last commit, by whichever executor reviews.
    method RunReviewer() returns (r: Result<Ran, string>)
      requires Remembers() && Stage(w, executor, policy.timeoutSecs, tally, spawns, cost, crashes, fixes, false)
      requires Last().ending.Exits? && Succeeded(w.Spawn(crashes))
      modifies this`sent, this`tally, this`cost, this`notes, this`artefacts, this`spawns, this`reviewed
      ensures Remembers() && Stage(w, executor, policy.timeoutSecs, tally, spawns, cost, crashes, fixes, true)
      ensures reviewed && spawns == old(spawns) + 1 && r == Outcome(w.Spawn(old(spawns)))
    {
      hide Remembered, TallyOf, Spent, Stage, AfterRunTally, Succeeded, LeftBehind, Head;
      ReviewSpawned(w, executor, policy.timeoutSecs, tally, spawns, cost, crashes, fixes);
      r := AgentRun();
      reviewed := true;
    }

    method Review() returns (r: Result<Result<Protocol.Review, Ran>, string>)
      requires Remembers() && Stage(w, executor, policy.timeoutSecs, tally, spawns, cost, crashes, fixes, false)
      requires Last().ending.Exits? && Succeeded(w.Spawn(crashes))
      modifies this`sent, this`tally, this`cost, this`notes, this`artefacts, this`spawns, this`reviewed
      ensures Remembers() && Stage(w, executor, policy.timeoutSecs, tally, spawns, cost, crashes, fixes, true)
      ensures reviewed && spawns == old(spawns) + 1
      ensures match r
              case Ok(Ok(review)) => Last().ending.Exits? && review == ReviewOf(w, Last())
              case Ok(Err(stop)) => Outcome(Last()) == Ok(stop) && !stop.Finished?
              case Err(error) => Outcome(Last()) == Err(error)
    {
      hide Remembered, TallyOf, Spent, AllCrashed, AllFailing, AllCommitted, LeftBehind, Head;
      var ran := RunReviewer();
      if ran.Err? {
        return Err(ran.error);
      }
      if !ran.value.Finished? {
        return Ok(Err(ran.value));
      }
      var answer := w.Spawn(spawns - 1).answer;
      var body := if ran.value.status == 0 then Parsed(answer) else ReviewerFailed(ran.value.status);
      return Ok(Ok(Protocol.Review(w.reviewer, body)));
    }

    /** Why the task ended the way it says it did. */
    ghost predicate Explains(e: TaskEvent)
      requires spawns > 0
      reads this
    {
      match e
      case Completed(result) =>
        && result.cost == cost && result.policy == Some(Policy(policy.reassign))
        && (if kind.PlanTask? then
              && commits == 0 && Succeeded(Last())
              && Last().plan.Ok? && result.plan == Some(Last().plan.value)
              && result.diff == "" && result.validation == [] && result.review == None
            else
              && Succeeded(w.Spawn(crashes)) && Last().ending.Exits? && commits == fixes + 1
              && w.Commit(fixes) == Ok(result.diff) && result.validation == Validation(w, fixes)
              && (AnyFailed(result.validation) ==> fixes == policy.fixChecks)
              && reviewed == (policy.review && result.diff != "")
              && result.review == (if reviewed then Some(ReviewOf(w, Last())) else None)
              && result.plan == None)
      case Failed(reason) =>
        || (&& Crashed(Last()) && reason == ExitedWith(executor, StatusOf(Last())) && commits == fixes == 0 && !reviewed
            && (kind.RunTask? ==> crashes == policy.retry))
        || (kind.PlanTask? && Succeeded(Last()) && Last().plan.Err? && reason == Told(Last().plan.error))
      case Cancelled => Outcome(Last()) == Ok(RanCancelled)
      case TimedOut(secs) => Outcome(Last()) == Ok(RanTimedOut) && secs == policy.timeoutSecs
      case _ => false
    }

    /** The run is over: it said so once, or the caller still has to. */
    ghost predicate Over(r: Result<(), string>)
      reads this
    {
      && Remembers() && crashes <= policy.retry && fixes <= policy.fixChecks && (kind.PlanTask? ==> commits == 0)
      && Counted(w, executor, tally, spawns, crashes, fixes, reviewed)
      && Halted(w, kind, policy, crashes, fixes, reviewed) && cost == Spent(w, spawns)
      && match r
         case Ok(_) => |tally.ends| == 1 && !tally.open && Explains(tally.ends[0])
         case Err(error) => tally.ends == [] && tally.open == (reviewed || Spawned(Last())) && Broke(error)
    }

    ghost predicate Staged()
      reads this
    {
      && Remembers() && crashes <= policy.retry && fixes <= policy.fixChecks && (kind.PlanTask? ==> commits == 0)
      && Stage(w, executor, policy.timeoutSecs, tally, spawns, cost, crashes, fixes, reviewed)
    }

    /** A cancel still has to be announced, a timeout has been. */
    method Stopped(stop: Ran)
      requires Staged() && Outcome(Last()) == Ok(stop) && !stop.Finished?
      requires Halted(w, kind, policy, crashes, fixes, reviewed)
      modifies this`sent, this`tally
      ensures Over(Ok(()))
    {
      hide Remembered, TallyOf, Spent, Stage, Counted, Count, Validation, ReviewOf, AnyFailed, Succeeded, Crashed;
      StageEnds(w, executor, policy.timeoutSecs, tally, spawns, cost, crashes, fixes, reviewed, TaskEvent.Cancelled);
      if stop.RanCancelled? {
        Emit(TaskEvent.Cancelled);
      }
    }

    method Fail(status: int)
      requires Staged() && commits == fixes == 0 && !reviewed && Crashed(Last()) && Last().ending.status == status
      requires kind.RunTask? ==> crashes == policy.retry
      requires Halted(w, kind, policy, crashes, fixes, reviewed)
      modifies this`sent, this`tally
      ensures Over(Ok(()))
    {
      hide Remembered, TallyOf, Spent, Stage, Counted, Count, Validation, ReviewOf, AnyFailed;
      var e := TaskEvent.Failed(ExitedWith(executor, status));
      StageEnds(w, executor, policy.timeoutSecs, tally, spawns, cost, crashes, fixes, reviewed, e);
      Emit(e);
    }

    method Complete(e: TaskEvent)
      requires Staged() && Explains(e) && Terminal(e) && !Last().ending.OutOfTime?
      requires Halted(w, kind, policy, crashes, fixes, reviewed)
      modifies this`sent, this`tally
      ensures Over(Ok(()))
    {
      hide Remembered, TallyOf, Spent, Stage, Counted, Count, Validation, ReviewOf, AnyFailed, Succeeded, Crashed,
        Outcome;
      StageEnds(w, executor, policy.timeoutSecs, tally, spawns, cost, crashes, fixes, reviewed, e);
      Emit(e);
    }

    // An error leaves the last event to the caller.
    method Propagate(error: string) returns (r: Result<(), string>)
      requires Staged() && Broke(error) && Halted(w, kind, policy, crashes, fixes, reviewed)
      ensures r == Err(error) && Over(r)
    {
      hide Remembered, TallyOf, Spent, AllCrashed, AllFailing, AllCommitted, CrashRetries, FixRetries, Stage;
      StageEnds(w, executor, policy.timeoutSecs, tally, spawns, cost, crashes, fixes, reviewed, TaskEvent.Cancelled);
      r := Err(error);
    }

    /** One spawn and one terminal event, whatever the retry policy says. */
    method Plan() returns (r: Result<(), string>)
      requires Unstarted() && kind.PlanTask?
      modifies this`sent, this`tally, this`cost, this`notes, this`artefacts, this`spawns
      ensures spawns == 1 && Over(r)
    {
      hide Remembered, TallyOf, LeftBehind, Head;
      FirstReady(w, executor);
      Respawned(w, executor, policy.timeoutSecs, tally, spawns, cost, 0, 0);
      var ran := AgentRun();
      if ran.Err? {
        r := Propagate(ran.error);
        return;
      }
      if !ran.value.Finished? {
        Stopped(ran.value);
        return Ok(());
      }
      if ran.value.status != 0 {
        Fail(ran.value.status);
        return Ok(());
      }
      Complete(Planned(w.Spawn(spawns - 1).plan, Policy(policy.reassign), cost));
      return Ok(());
    }

    // The change is committed and checked: have it reviewed if the policy asks.
    method ReviewAndComplete(change: TaskResult) returns (r: Result<(), string>)
      requires Staged() && !reviewed && kind.RunTask? && Last().ending.Exits? && Succeeded(w.Spawn(crashes))
      requires commits == fixes + 1 && IsChange(change)
      requires AnyFailed(change.validation) ==> fixes == policy.fixChecks
      modifies this`sent, this`tally, this`cost, this`notes, this`artefacts, this`spawns, this`reviewed
      ensures Over(r)
    {
      hide Remembered, TallyOf, Spent, AllCrashed, AllFailing, AllCommitted, CrashRetries, FixRetries, Counted;
      var result := change;
      if policy.review && result.diff != "" {
        var review := Review();
        if review.Err? {
          r := Propagate(review.error);
          return;
        }
        if review.value.Err? {
          Stopped(review.value.error);
          return Ok(());
        }
        result := result.(review := Some(review.value.value));
      }
      result := result.(policy := Some(Policy(policy.reassign)), cost := cost);
      Complete(TaskEvent.Completed(result));
      return Ok(());
    }

    /** Every way through the run ends `Over`. */
    method Execute() returns (r: Result<(), string>)
      requires Unstarted()
      modifies this
      ensures Over(r)
    {
      hide Remembered, TallyOf, Spent, AllCrashed, AllFailing, AllCommitted, CrashRetries, FixRetries, Counted;
      if kind.PlanTask? {
        r := Plan();
        return;
      }
      var ran := Attempts();
      if ran.Err? {
        r := Propagate(ran.error);
        return;
      }
      if !ran.value.Finished? {
        Stopped(ran.value);
        return Ok(());
      }
      if ran.value.status != 0 {
        Fail(ran.value.status);
        return Ok(());
      }
      var change := CommitAndFix();
      if change.Err? {
        r := Propagate(change.error);
        return;
      }
      if change.value.Err? {
        Stopped(change.value.error);
        return Ok(());
      }
      r := ReviewAndComplete(change.value.value);
    }
  }

  /** The last event of a plan task that exited well. */
  function Planned(plan: Result<seq<PlanStep>, string>, policy: Policy, cost: real): TaskEvent {
    match plan
    case Ok(steps) => TaskEvent.Completed(TaskResult("", [], Some(steps), None, Some(policy), cost))
    case Err(error) => TaskEvent.Failed(Told(error))
  }

  function Committing(w: World, n: nat): Result<TaskResult, string> {
    if w.Commit(n).Ok? then Ok(Base(w.Commit(n).value)) else Err(w.Commit(n).error)
  }

  function Change(w: World, n: nat, diff: string): TaskResult {
    Base(diff).(validation := Validation(w, n))
  }

  function Base(diff: string): TaskResult { TaskResult(diff, [], None, None, None, 0.0) }

  function ReviewOf(w: World, a: Agent): Protocol.Review {
    Protocol.Review(w.reviewer, if Succeeded(a) then Parsed(a.answer) else ReviewerFailed(StatusOf(a)))
  }

  function AfterRunTally(t: Tally, a: Agent, secs: nat): Tally {
    if !Spawned(a) then t
    else
      var started := Count(t, Started(None, []));
      if a.ending.OutOfTime? then Count(started, TimedOut(secs)) else started
  }

  /** How the events of one agent run begin: `Started`, and the timeout before
      anything the run left behind. */
  function Head(a: Agent, model: Option<string>, skills: seq<string>, secs: nat): seq<TaskEvent> {
    if !Spawned(a) then []
    else if a.ending.OutOfTime? then [Started(model, skills), TimedOut(secs)]
    else [Started(model, skills)]
  }

  // ---- What the counts say -------------------------------------------------

  lemma {:induction false} RetriesAreNumbered(w: World, ex: Executor, k: nat)
    ensures |CrashRetries(w, ex, k)| == k
    ensures forall i | 0 <= i < k :: CrashRetries(w, ex, k)[i] == Retry(i + 1, ExitedWith(ex, StatusOf(w.Spawn(i))))
  {
    if k > 0 { RetriesAreNumbered(w, ex, k - 1); }
  }

  lemma {:induction false} FixesAreNumbered(w: World, f: nat)
    ensures |FixRetries(w, f)| == f
    ensures forall j | 0 <= j < f :: FixRetries(w, f)[j] == Retry(j + 1, ChecksFailed(FailedNames(Validation(w, j))))
  {
    if f > 0 { FixesAreNumbered(w, f - 1); }
  }

  lemma {:induction false} FailedNamesAreTheFailures(checks: seq<Check>)
    ensures AnyFailed(checks) <==> exists i | 0 <= i < |checks| :: !checks[i].ok
    ensures AnyFailed(checks) <==> FailedNames(checks) != []
    ensures forall name :: name in FailedNames(checks) <==>
              exists i | 0 <= i < |checks| :: !checks[i].ok && checks[i].name == name
  {
    if checks != [] {
      FailedNamesAreTheFailures(checks[1..]);
      assert forall i | 1 <= i < |checks| :: checks[i] == checks[1..][i - 1];
      forall name
        ensures name in FailedNames(checks) <==> exists i | 0 <= i < |checks| :: !checks[i].ok && checks[i].name == name
      {
        if name in FailedNames(checks[1..]) {
          var i :| 0 <= i < |checks| - 1 && !checks[1..][i].ok && checks[1..][i].name == name;
          assert !checks[i + 1].ok && checks[i + 1].name == name;
        }
      }
      if AnyFailed(checks[1..]) {
        var i :| 0 <= i < |checks| - 1 && !checks[1..][i].ok;
        assert !checks[i + 1].ok;
      }
    }
  }

  // They are named in the order of the checks.
  lemma {:induction false} FailedNamesAddUp(a: seq<Check>, b: seq<Check>)
    ensures FailedNames(a + b) == FailedNames(a) + FailedNames(b)
  {
    if a == [] {
      assert a + b == b;
    } else {
      var first := if a[0].ok then [] else [a[0].name];
      FailedNamesAddUp(a[1..], b);
      assert (a + b)[1..] == a[1..] + b;
      assert FailedNames(a + b) == first + FailedNames(a[1..] + b) && FailedNames(a) == first + FailedNames(a[1..]);
      hide FailedNames;
      assert first + (FailedNames(a[1..]) + FailedNames(b)) == (first + FailedNames(a[1..])) + FailedNames(b);
    }
  }

  lemma {:induction false} EveryCrashAndFailureIsReal(w: World, k: nat, f: nat)
    requires AllCrashed(w, k) && AllFailing(w, f)
    ensures forall i | 0 <= i < k :: Crashed(w.Spawn(i))
    ensures forall j | 0 <= j < f :: AnyFailed(Validation(w, j))
    decreases k + f
  {
    if k > 0 { EveryCrashAndFailureIsReal(w, k - 1, f); }
    else if f > 0 { EveryCrashAndFailureIsReal(w, k, f - 1); }
  }
}
