/** A task's attempt history (crates/orchestrator/src/execution.rs): the fold
    of the event stream into `task.executions`. */
module Executions {
  import opened Protocol
  import opened Orders

  datatype ExecutionStatus = Running | Completed | Failed | Cancelled

  datatype Execution = Execution(
    attempt: nat,
    runner: string,
    executor: Executor,
    model: Option<string>,
    startedAt: nat,
    finishedAt: Option<nat>,
    status: ExecutionStatus,
    error: Option<Reason>,
    cost: real,
    validation: seq<Check>,
    artefacts: seq<string>,
    skills: seq<string>)

  // The task's own fields a new attempt copies.
  datatype Origin = Origin(runner: Option<string>, executor: Executor)

  datatype Stamped = Stamped(event: TaskEvent, at: nat)

  predicate IsOpen(h: seq<Execution>) {
    h != [] && h[|h| - 1].status.Running?
  }

  function Finish(exec: Execution, status: ExecutionStatus, now: nat): Execution {
    exec.(finishedAt := Some(now), status := status)
  }

  function NewAttempt(h: seq<Execution>, o: Origin, model: Option<string>, skills: seq<string>, now: nat): Execution {
    Execution(
      |h| + 1, if o.runner.Some? then o.runner.value else "", o.executor, model, now, None,
      ExecutionStatus.Running, None, 0.0, [], [], skills)
  }

  /** What an event does to the attempt that is open. */
  function Noted(exec: Execution, event: TaskEvent, now: nat): Execution {
    match event
    case Retry(_, reason) => Finish(exec, ExecutionStatus.Failed, now).(error := Some(reason))
    case Failed(error) => Finish(exec, ExecutionStatus.Failed, now).(error := Some(error))
    case TimedOut(secs) => Finish(exec, ExecutionStatus.Failed, now).(error := Some(TimedOutAfter(secs)))
    case RunnerLost => Finish(exec, ExecutionStatus.Failed, now).(error := Some(LostRunner))
    case Artefact(name, _) => if name in exec.artefacts then exec else exec.(artefacts := exec.artefacts + [name])
    case Cancelled => Finish(exec, ExecutionStatus.Cancelled, now)
    case Completed(result) =>
      Finish(exec, ExecutionStatus.Completed, now).(cost := result.cost, validation := result.validation)
    case _ => exec
  }

  function Recorded(h: seq<Execution>, o: Origin, event: TaskEvent, now: nat): seq<Execution> {
    if event.Started? then
      if IsOpen(h) then h else h + [NewAttempt(h, o, event.model, event.skills, now)]
    else if !IsOpen(h) then h
    else h[..|h| - 1] + [Noted(h[|h| - 1], event, now)]
  }

  function Fold(h: seq<Execution>, o: Origin, es: seq<Stamped>): seq<Execution> {
    if es == [] then h
    else Recorded(Fold(h, o, es[..|es| - 1]), o, es[|es| - 1].event, es[|es| - 1].at)
  }

  lemma FoldOne(h: seq<Execution>, o: Origin, e: Stamped)
    ensures Fold(h, o, [e]) == Recorded(h, o, e.event, e.at)
  {
    assert [e][..0] == [];
  }

  class Task {
    const executor: Executor
    var runner: Option<string>
    var executions: seq<Execution>

    constructor (executor: Executor, runner: Option<string>)
      ensures this.executor == executor && this.runner == runner && executions == []
    {
      this.executor := executor;
      this.runner := runner;
      executions := [];
    }

    ghost function Source(): Origin
      reads this
    {
      Origin(runner, executor)
    }

    /** Folds one event into `executions`. */
    method Record(event: TaskEvent, now: nat)
      modifies this`executions
      ensures executions == Recorded(old(executions), old(Source()), event, now)
    {
      if event.Started? {
        Start(event.model, event.skills, now);
        return;
      }
      if |executions| == 0 || !executions[|executions| - 1].status.Running? {
        return;
      }
      var exec := executions[|executions| - 1];
      match event {
        case Retry(_, reason) =>
          exec := Finish(exec, ExecutionStatus.Failed, now);
          exec := exec.(error := Some(reason));
        case Failed(error) =>
          exec := Finish(exec, ExecutionStatus.Failed, now);
          exec := exec.(error := Some(error));
        case TimedOut(secs) =>
          exec := Finish(exec, ExecutionStatus.Failed, now);
          exec := exec.(error := Some(TimedOutAfter(secs)));
        case RunnerLost =>
          exec := Finish(exec, ExecutionStatus.Failed, now);
          exec := exec.(error := Some(LostRunner));
        case Artefact(name, _) =>
          if name !in exec.artefacts {
            exec := exec.(artefacts := exec.artefacts + [name]);
          }
        case Cancelled =>
          exec := Finish(exec, ExecutionStatus.Cancelled, now);
        case Completed(result) =>
          exec := Finish(exec, ExecutionStatus.Completed, now);
          exec := exec.(cost := result.cost);
          exec := exec.(validation := result.validation);
        case _ =>
      }
      executions := executions[|executions| - 1 := exec];
      assert executions == old(executions)[..|executions| - 1] + [exec];
    }

    // Only a closed history grows: a spawn that starts while an attempt is open works in it.
    method Start(model: Option<string>, skills: seq<string>, now: nat)
      modifies this`executions
      ensures executions == Recorded(old(executions), old(Source()), Started(model, skills), now)
    {
      if |executions| > 0 && executions[|executions| - 1].status.Running? {
        return;
      }
      var name := if runner.Some? then runner.value else "";
      executions := executions + [
        Execution(
          |executions| + 1, name, executor, model, now, None, ExecutionStatus.Running, None, 0.0, [], [], skills)
      ];
    }

    /** The whole event stream of one run, in the order it arrived. */
    method RecordAll(es: seq<Stamped>)
      modifies this`executions
      ensures executions == Fold(old(executions), old(Source()), es)
    {
      for i := 0 to |es|
        invariant executions == Fold(old(executions), old(Source()), es[..i])
      {
        assert es[..i + 1][..i] == es[..i];
        Record(es[i].event, es[i].at);
      }
      assert es[..|es|] == es;
    }
  }

  // ---- What every history satisfies -------------------------------------

  ghost predicate WellFormed(h: seq<Execution>) {
    forall i | 0 <= i < |h| ::
      && h[i].attempt == i + 1
      && (h[i].status.Running? <==> h[i].finishedAt.None?)
      && (i < |h| - 1 ==> !h[i].status.Running?)
      && Distinct(h[i].artefacts)
  }

  lemma {:induction false} FoldWellFormed(h: seq<Execution>, o: Origin, es: seq<Stamped>)
    requires WellFormed(h)
    ensures WellFormed(Fold(h, o, es))
  {
    if es != [] {
      FoldWellFormed(h, o, es[..|es| - 1]);
    }
  }

  /** A closed attempt is history: nothing that happens later rewrites it, and
      no attempt is ever dropped. */
  lemma {:induction false} ClosedAttemptsAreFrozen(h: seq<Execution>, o: Origin, es: seq<Stamped>)
    ensures |h| <= |Fold(h, o, es)|
    ensures forall i | 0 <= i < |h| && (i < |h| - 1 || !h[i].status.Running?) :: Fold(h, o, es)[i] == h[i]
    ensures IsOpen(h) ==> Fold(h, o, es)[|h| - 1].startedAt == h[|h| - 1].startedAt
    ensures IsOpen(h) ==> h[|h| - 1].artefacts <= Fold(h, o, es)[|h| - 1].artefacts
  {
    if es != [] {
      ClosedAttemptsAreFrozen(h, o, es[..|es| - 1]);
    }
  }

  ghost predicate ClockFrom(es: seq<Stamped>, since: nat) {
    && (forall i | 0 <= i < |es| :: since <= es[i].at)
    && (forall i, j | 0 <= i < j < |es| :: es[i].at <= es[j].at)
  }

  /** Attempts occupy consecutive intervals, all of them before `now`. */
  ghost predicate Intervals(h: seq<Execution>, now: nat) {
    && (forall i | 0 <= i < |h| :: h[i].startedAt <= now)
    && (forall i | 0 <= i < |h| && h[i].finishedAt.Some? :: h[i].startedAt <= h[i].finishedAt.value <= now)
    && (forall i, j | 0 <= i < j < |h| && h[i].finishedAt.Some? :: h[i].finishedAt.value <= h[j].startedAt)
  }

  lemma RecordedIntervals(h: seq<Execution>, o: Origin, event: TaskEvent, was: nat, now: nat)
    requires WellFormed(h) && Intervals(h, was) && was <= now
    ensures Intervals(Recorded(h, o, event, now), now)
  {
    var g := Recorded(h, o, event, now);
    if event.Started? {
      assert !IsOpen(h) ==> forall i | 0 <= i < |h| :: g[i] == h[i];
    } else if IsOpen(h) {
      var last := |h| - 1;
      assert g[last] == Noted(h[last], event, now);
      assert g[last].startedAt == h[last].startedAt;
      assert g[last].finishedAt.None? || g[last].finishedAt.value == now;
      assert forall i | 0 <= i < last :: g[i] == h[i];
    }
  }

  lemma {:induction false} AttemptsDoNotOverlap(h: seq<Execution>, o: Origin, es: seq<Stamped>, since: nat)
    requires WellFormed(h) && Intervals(h, since) && ClockFrom(es, since)
    ensures Intervals(Fold(h, o, es), if es == [] then since else es[|es| - 1].at)
  {
    if es != [] {
      var before := es[..|es| - 1];
      AttemptsDoNotOverlap(h, o, before, since);
      FoldWellFormed(h, o, before);
      var was := if before == [] then since else before[|before| - 1].at;
      RecordedIntervals(Fold(h, o, before), o, es[|es| - 1].event, was, es[|es| - 1].at);
    }
  }

  // ---- How many attempts a stream of events opens ------------------------

  predicate Closes(e: TaskEvent) {
    e.Retry? || e.Failed? || e.TimedOut? || e.RunnerLost? || e.Cancelled? || e.Completed?
  }

  function OpenAfter(es: seq<TaskEvent>, open: bool): bool {
    if es == [] then open
    else
      var e := es[|es| - 1];
      e.Started? || (!Closes(e) && OpenAfter(es[..|es| - 1], open))
  }

  function Opened(es: seq<TaskEvent>, open: bool): nat {
    if es == [] then 0
    else
      Opened(es[..|es| - 1], open) +
      if es[|es| - 1].Started? && !OpenAfter(es[..|es| - 1], open) then 1 else 0
  }

  function Starts(es: seq<TaskEvent>): nat {
    if es == [] then 0 else Starts(es[..|es| - 1]) + if es[|es| - 1].Started? then 1 else 0
  }

  /** The events that closed an attempt, in order. */
  function Closers(es: seq<TaskEvent>, open: bool): seq<TaskEvent> {
    if es == [] then []
    else
      var front, e := es[..|es| - 1], es[|es| - 1];
      Closers(front, open) + if Closes(e) && OpenAfter(front, open) then [e] else []
  }

  /** The attempt ended the way `e` says, and for that reason. */
  predicate Reflects(x: Execution, e: TaskEvent) {
    match e
    case Retry(_, reason) => x.status.Failed? && x.error == Some(reason)
    case Failed(reason) => x.status.Failed? && x.error == Some(reason)
    case TimedOut(secs) => x.status.Failed? && x.error == Some(TimedOutAfter(secs))
    case RunnerLost => x.status.Failed? && x.error == Some(LostRunner)
    case Cancelled => x.status.Cancelled? && x.error == None
    case Completed(result) =>
      x.status.Completed? && x.error == None && x.cost == result.cost && x.validation == result.validation
    case _ => false
  }

  // The attempts after the first `n`: each closed one reflects its closer, and
  // what is open has no error yet.
  ghost predicate Told(f: seq<Execution>, n: nat, closers: seq<TaskEvent>) {
    && |f| == n + |closers| + (if IsOpen(f) && n < |f| then 1 else 0)
    && (forall i | 0 <= i < |closers| :: Reflects(f[n + i], closers[i]))
    && (IsOpen(f) ==> n < |f| && f[|f| - 1].error == None)
  }

  lemma RecordedTold(f: seq<Execution>, o: Origin, n: nat, closers: seq<TaskEvent>, e: TaskEvent, at: nat)
    requires Told(f, n, closers)
    ensures Told(Recorded(f, o, e, at), n, closers + if Closes(e) && IsOpen(f) then [e] else [])
  {
  }

  /** Each new attempt ended the way the event that closed it says. */
  lemma {:induction false} FoldReflectsClosers(h: seq<Execution>, o: Origin, es: seq<Stamped>)
    requires !IsOpen(h)
    ensures Told(Fold(h, o, es), |h|, Closers(Events(es), false))
  {
    if es != [] {
      var before := es[..|es| - 1];
      FoldReflectsClosers(h, o, before);
      FoldCounts(h, o, before);
      assert Events(es)[..|es| - 1] == Events(before);
      hide Recorded, Told, Closes;
      RecordedTold(Fold(h, o, before), o, |h|, Closers(Events(before), false), es[|es| - 1].event, es[|es| - 1].at);
    }
  }

  function Events(es: seq<Stamped>): seq<TaskEvent> {
    seq(|es|, i requires 0 <= i < |es| => es[i].event)
  }

  lemma RecordedCounts(h: seq<Execution>, o: Origin, e: TaskEvent, at: nat)
    ensures IsOpen(Recorded(h, o, e, at)) == (e.Started? || (!Closes(e) && IsOpen(h)))
    ensures |Recorded(h, o, e, at)| == |h| + if e.Started? && !IsOpen(h) then 1 else 0
  {
  }

  lemma {:induction false} FoldCounts(h: seq<Execution>, o: Origin, es: seq<Stamped>)
    ensures IsOpen(Fold(h, o, es)) == OpenAfter(Events(es), IsOpen(h))
    ensures |Fold(h, o, es)| == |h| + Opened(Events(es), IsOpen(h))
  {
    if es != [] {
      var before := es[..|es| - 1];
      FoldCounts(h, o, before);
      assert Events(es)[..|es| - 1] == Events(before);
      hide Recorded, IsOpen, Closes;
      RecordedCounts(Fold(h, o, before), o, es[|es| - 1].event, es[|es| - 1].at);
    }
  }

  lemma {:induction false} FoldConcat(h: seq<Execution>, o: Origin, a: seq<Stamped>, b: seq<Stamped>)
    ensures Fold(h, o, a + b) == Fold(Fold(h, o, a), o, b)
  {
    if b == [] {
      assert a + b == a;
    } else {
      FoldConcat(h, o, a, b[..|b| - 1]);
      assert (a + b)[..|a + b| - 1] == a + b[..|b| - 1];
    }
  }

  // ---- Events the history does not see -----------------------------------

  predicate Relevant(e: TaskEvent) { e.Started? || e.Artefact? || Closes(e) }

  function OnlyRelevant(es: seq<Stamped>): seq<Stamped> {
    if es == [] then []
    else
      OnlyRelevant(es[..|es| - 1]) + if Relevant(es[|es| - 1].event) then [es[|es| - 1]] else []
  }

  /** Output lines, progress, notes and denied hosts come from pumps that run
      beside the protocol; wherever they land, the history is the same. */
  lemma {:induction false} OnlyRelevantEventsCount(h: seq<Execution>, o: Origin, es: seq<Stamped>)
    ensures Fold(h, o, es) == Fold(h, o, OnlyRelevant(es))
  {
    if es != [] {
      var before, last := es[..|es| - 1], es[|es| - 1];
      OnlyRelevantEventsCount(h, o, before);
      var kept := OnlyRelevant(before);
      if Relevant(last.event) {
        assert (kept + [last])[..|kept|] == kept;
      } else {
        var f := Fold(h, o, before);
        assert IsOpen(f) ==> f[..|f| - 1] + [f[|f| - 1]] == f;
        assert OnlyRelevant(es) == kept;
      }
    }
  }

  function RelevantEvents(es: seq<TaskEvent>): seq<TaskEvent> {
    if es == [] then []
    else RelevantEvents(es[..|es| - 1]) + if Relevant(es[|es| - 1]) then [es[|es| - 1]] else []
  }

  lemma {:induction false} CountsSeeRelevantEvents(es: seq<TaskEvent>, open: bool)
    ensures OpenAfter(es, open) == OpenAfter(RelevantEvents(es), open)
    ensures Opened(es, open) == Opened(RelevantEvents(es), open)
    ensures Closers(es, open) == Closers(RelevantEvents(es), open)
    ensures Starts(es) == Starts(RelevantEvents(es))
  {
    if es != [] {
      var before, last := es[..|es| - 1], es[|es| - 1];
      CountsSeeRelevantEvents(before, open);
      var kept := RelevantEvents(before);
      assert !Relevant(last) ==> !last.Started? && !Closes(last);
      hide Relevant, Closes;
      if Relevant(last) {
        assert RelevantEvents(es) == kept + [last];
        assert (kept + [last])[..|kept|] == kept;
      } else {
        assert RelevantEvents(es) == kept;
      }
    }
  }

  /** Once an attempt is closed, whatever trails in before the next `Started`
      is not recorded anywhere. */
  lemma {:induction false} TrailingEventsAreDropped(h: seq<Execution>, o: Origin, es: seq<Stamped>)
    requires !IsOpen(h) && forall i | 0 <= i < |es| :: !es[i].event.Started?
    ensures Fold(h, o, es) == h
  {
    if es != [] { TrailingEventsAreDropped(h, o, es[..|es| - 1]); }
  }

  lemma {:induction false} OpenArtefactsAreKept(h: seq<Execution>, o: Origin, es: seq<Stamped>)
    requires IsOpen(h) && forall i | 0 <= i < |es| :: !es[i].event.Started? && !Closes(es[i].event)
    ensures var f := Fold(h, o, es);
            && IsOpen(f) && |f| == |h|
            && forall i | 0 <= i < |es| && es[i].event.Artefact? :: es[i].event.name in f[|f| - 1].artefacts
  {
    if es != [] {
      var before := es[..|es| - 1];
      OpenArtefactsAreKept(h, o, before);
      var f, g := Fold(h, o, before), Fold(h, o, es);
      forall i | 0 <= i < |es| && es[i].event.Artefact? ensures es[i].event.name in g[|g| - 1].artefacts {
        if i < |before| { assert before[i] == es[i]; }
      }
    }
  }

  // ---- Which attempt an artefact lands on --------------------------------

  /** Event `i` announces `name` while attempt `k` is the one that is open. */
  ghost predicate Lands(h: seq<Execution>, es: seq<Stamped>, i: nat, k: nat, name: string) {
    && i < |es| && es[i].event.Artefact? && es[i].event.name == name
    && OpenAfter(Events(es[..i]), IsOpen(h)) && k + 1 == |h| + Opened(Events(es[..i]), IsOpen(h))
  }

  /** For every stream, an attempt's artefacts are those it had and those announced
      while it was the open one. */
  lemma {:induction false} ArtefactsOfAnAttempt(h: seq<Execution>, o: Origin, es: seq<Stamped>, k: nat, name: string)
    requires k < |Fold(h, o, es)|
    ensures name in Fold(h, o, es)[k].artefacts <==>
              (k < |h| && name in h[k].artefacts) || exists i: nat :: Lands(h, es, i, k, name)
  {
    if es != [] {
      var before, last := es[..|es| - 1], es[|es| - 1];
      var f := Fold(h, o, before);
      FoldCounts(h, o, before);
      if k < |f| { ArtefactsOfAnAttempt(h, o, before, k, name); }
      NextLands(h, es, k, name);
      hide Recorded, Lands, OpenAfter, Opened;
      if k >= |f| { NothingLandsYet(h, o, before, k, name); }
    } else {
      assert forall i: nat :: !Lands(h, es, i, k, name);
    }
  }

  lemma NextLands(h: seq<Execution>, es: seq<Stamped>, k: nat, name: string)
    requires es != []
    ensures var before, last := es[..|es| - 1], es[|es| - 1].event;
            (exists i: nat :: Lands(h, es, i, k, name)) <==>
              (exists i: nat :: Lands(h, before, i, k, name))
              || (last.Artefact? && last.name == name && OpenAfter(Events(before), IsOpen(h))
                  && k + 1 == |h| + Opened(Events(before), IsOpen(h)))
  {
    hide OpenAfter, Opened;
    var before := es[..|es| - 1];
    forall i: nat | i < |before| ensures Lands(h, es, i, k, name) <==> Lands(h, before, i, k, name) {
      assert before[..i] == es[..i];
    }
    if i: nat :| Lands(h, before, i, k, name) { assert Lands(h, es, i, k, name); }
    if i: nat :| Lands(h, es, i, k, name) {
      assert i < |before| ==> Lands(h, before, i, k, name);
    }
    assert Lands(h, es, |before|, k, name) <==>
      (es[|before|].event.Artefact? && es[|before|].event.name == name && OpenAfter(Events(before), IsOpen(h))
       && k + 1 == |h| + Opened(Events(before), IsOpen(h)));
  }

  // Nothing lands on an attempt before it is opened.
  lemma NothingLandsYet(h: seq<Execution>, o: Origin, es: seq<Stamped>, k: nat, name: string)
    requires k >= |Fold(h, o, es)|
    ensures forall i: nat :: !Lands(h, es, i, k, name)
  {
    FoldCounts(h, o, es);
    forall i: nat ensures !Lands(h, es, i, k, name) {
      if i < |es| {
        OpenedGrows(Events(es), i, IsOpen(h));
        assert Events(es)[..i] == Events(es[..i]);
      }
    }
  }

  lemma {:induction false} OpenedGrows(es: seq<TaskEvent>, i: nat, open: bool)
    requires i <= |es|
    ensures Opened(es[..i], open) <= Opened(es, open)
    ensures (forall j | i <= j < |es| :: !es[j].Started?) ==> Opened(es[..i], open) == Opened(es, open)
  {
    if i < |es| {
      OpenedGrows(es[..|es| - 1], i, open);
      assert es[..|es| - 1][..i] == es[..i];
    } else {
      assert es[..i] == es;
    }
  }

  // ---- A runner given up while its run goes on ------------------------------

  function WithoutLosses(es: seq<TaskEvent>): seq<TaskEvent> {
    if es == [] then []
    else WithoutLosses(es[..|es| - 1]) + if es[|es| - 1].RunnerLost? then [] else [es[|es| - 1]]
  }

  function Losses(es: seq<TaskEvent>): nat {
    if es == [] then 0 else Losses(es[..|es| - 1]) + if es[|es| - 1].RunnerLost? then 1 else 0
  }

  /** Losses close attempts early and never leave one open. Each splits at most one
      attempt, and only where another `Started` follows. */
  lemma {:induction false} LossesSplitAttempts(es: seq<TaskEvent>, open: bool)
    ensures var w := WithoutLosses(es);
            && (OpenAfter(es, open) ==> OpenAfter(w, open))
            && Opened(w, open) <= Opened(es, open) <= Starts(es) == Starts(w)
            && Opened(es, open) + (if OpenAfter(w, open) && !OpenAfter(es, open) then 1 else 0)
                 <= Opened(w, open) + Losses(es)
  {
    if es != [] {
      var before, last := es[..|es| - 1], es[|es| - 1];
      LossesSplitAttempts(before, open);
      var w := WithoutLosses(before);
      if last.RunnerLost? {
        assert WithoutLosses(es) == w;
      } else {
        assert WithoutLosses(es) == w + [last] && (w + [last])[..|w|] == w;
      }
    }
  }
}
