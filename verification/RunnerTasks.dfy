/** The wrapper around a run (crates/agent/src/runner.rs) and what the
    orchestrator makes of its events: the producer and the consumer agree. */
module RunnerTasks {
  import opened Protocol
  import Executions
  import opened Automation
  import Orders

  // What the runner's tasks share: which are running, how many have ended.
  class Ctx {
    var running: set<TaskId>
    var finished: nat
  }

  /** How a run that emitted `t` was brought to its end. */
  ghost predicate Verdict(run: Run, prep: Option<string>)
    reads run
  {
    && run.Remembers() && |run.tally.ends| == 1 && !run.tally.open
    && match prep
       case Some(error) => run.sent == [TaskEvent.Failed(Told(error))] && run.spawns == 0
       case None =>
         && run.crashes <= run.policy.retry && run.fixes <= run.policy.fixChecks
         && Counted(run.w, run.executor, run.tally, run.spawns, run.crashes, run.fixes, run.reviewed)
         && (run.Explains(run.tally.ends[0]) ||
             exists error :: run.Broke(error) && run.tally.ends[0] == TaskEvent.Failed(Told(error)))
  }

  /** `run_task` and `follow_up`: they differ in how the worktree is prepared,
      which can fail (`prep`) before anything is spawned. */
  method RunTask(id: TaskId, run: Run, prep: Option<string>, ctx: Ctx)
    requires run.Unstarted()
    modifies run, ctx
    ensures Verdict(run, prep)
    ensures ctx.running == old(ctx.running) - {id} && ctx.finished == old(ctx.finished) + 1
  {
    hide Remembered, TallyOf, Counted;
    if prep.Some? {
      FirstReady(run.w, run.executor);
      run.Emit(TaskEvent.Failed(Told(prep.value)));
    } else {
      var result := run.Execute();
      if result.Err? {
        ReportError(run, result.error);
      }
    }
    ctx.running := ctx.running - {id};
    ctx.finished := ctx.finished + 1;
  }

  /** An error that ended the run becomes its last event. */
  method ReportError(run: Run, error: string)
    requires run.Over(Err(error))
    modifies run`sent, run`tally
    ensures Verdict(run, None)
  {
    hide Remembered, TallyOf, Counted, Count, Run.Explains;
    FailedLast(run.w, run.executor, run.tally, run.spawns, run.crashes, run.fixes, run.reviewed, error);
    run.Emit(TaskEvent.Failed(Told(error)));
    assert run.Broke(error);
  }

  lemma FailedLast(w: World, ex: Executor, t: Tally, spawns: nat, k: nat, f: nat, review: bool, error: string)
    requires Counted(w, ex, t, spawns, k, f, review)
    requires t.ends == [] && t.open == (review || Spawned(w.Spawn(spawns - 1)))
    ensures var e := TaskEvent.Failed(Told(error));
            Counted(w, ex, Count(t, e), spawns, k, f, review) && Count(t, e).ends == [e] && !Count(t, e).open
  {
    hide CrashRetries, FixRetries, AllCrashed, AllFailing;
  }

  /** `es` is the run's trace as the orchestrator received it: stamped, and with
      whatever else was sent beside the protocol in between. */
  ghost predicate Carries(es: seq<Executions.Stamped>, trace: seq<TaskEvent>) {
    Executions.RelevantEvents(Executions.Events(es)) == Executions.RelevantEvents(trace)
  }

  lemma HistoryOfATrace(h: seq<Executions.Execution>, o: Executions.Origin, es: seq<Executions.Stamped>,
                        trace: seq<TaskEvent>)
    requires !Executions.IsOpen(h) && Carries(es, trace)
    ensures var f := Executions.Fold(h, o, es);
            && Executions.IsOpen(f) == TallyOf(trace).open
            && |f| == |h| + TallyOf(trace).attempts
            && Executions.Told(f, |h|, TallyOf(trace).closers)
  {
    Executions.FoldCounts(h, o, es);
    Executions.FoldReflectsClosers(h, o, es);
    Executions.CountsSeeRelevantEvents(Executions.Events(es), false);
    Executions.CountsSeeRelevantEvents(trace, false);
    TallyMatchesHistory(trace);
  }

  ghost predicate AllClosed(h: seq<Executions.Execution>) {
    Executions.WellFormed(h) && forall i | 0 <= i < |h| :: !h[i].status.Running?
  }

  ghost predicate EverySpawnStarted(run: Run)
    reads run
  {
    forall i | 0 <= i < run.spawns :: Spawned(run.w.Spawn(i))
  }

  /** The attempts after the first `n` ended as the events say, one for one. */
  ghost predicate Tells(f: seq<Executions.Execution>, n: nat, events: seq<TaskEvent>) {
    n <= |f| <= n + |events| && forall i | n <= i < |f| :: Executions.Reflects(f[i], events[i - n])
  }

  lemma ClosedHistoryGrows(h: seq<Executions.Execution>, o: Executions.Origin, es: seq<Executions.Stamped>)
    requires AllClosed(h)
    ensures !Executions.IsOpen(h) && h <= Executions.Fold(h, o, es)
    ensures !Executions.IsOpen(Executions.Fold(h, o, es)) ==> AllClosed(Executions.Fold(h, o, es))
  {
    hide Executions.Fold;
    Executions.FoldWellFormed(h, o, es);
    Executions.ClosedAttemptsAreFrozen(h, o, es);
  }

  lemma ToldTells(f: seq<Executions.Execution>, n: nat, closers: seq<TaskEvent>, events: seq<TaskEvent>)
    requires Executions.Told(f, n, closers) && !Executions.IsOpen(f) && closers <= events
    ensures Tells(f, n, events)
  {
    hide Executions.Reflects;
    forall i | n <= i < |f| ensures Executions.Reflects(f[i], events[i - n]) {
      assert Executions.Reflects(f[n + (i - n)], closers[i - n]);
    }
  }

  /** The producer and the consumer agree: whatever happened, the history is
      closed again and what was there before is untouched. It grew by the
      retries announced plus one, or one less if a spawn never started, and the
      new attempts ended as those retries and the task's last event say. */
  lemma RunsAreRecorded(run: Run, prep: Option<string>, h: seq<Executions.Execution>, o: Executions.Origin,
                        es: seq<Executions.Stamped>)
    requires Verdict(run, prep) && AllClosed(h) && Carries(es, run.sent)
    ensures var f, retries := Executions.Fold(h, o, es), |run.tally.retries|;
            && AllClosed(f) && h <= f
            && (prep.Some? ==> f == h)
            && (prep.None? ==> Tells(f, |h|, run.tally.retries + run.tally.ends))
            && (prep.None? ==>
                  && |h| + retries <= |f| <= |h| + 1 + retries
                  && retries <= run.policy.retry + run.policy.fixChecks
                  && run.spawns <= run.policy.retry + run.policy.fixChecks + 2
                  && (EverySpawnStarted(run) ==> |f| == |h| + 1 + retries))
  {
    hide Executions.Fold, Executions.Told, Tells, Remembered, Carries, Executions.RelevantEvents, Run.Explains,
      Run.Broke, Executions.IsOpen, AllClosed, AllCrashed, AllFailing;
    var f := Executions.Fold(h, o, es);
    ClosedHistoryGrows(h, o, es);
    HistoryOfATrace(h, o, es, run.sent);
    if prep.None? {
      ToldTells(f, |h|, run.tally.closers, run.tally.retries + run.tally.ends);
      RetriesAreNumbered(run.w, run.executor, run.crashes);
      FixesAreNumbered(run.w, run.fixes);
    } else {
      assert run.sent[..0] == [];
      assert TallyOf(run.sent) == Count(TallyOf([]), run.sent[0]);
    }
  }

  /** The same, with the orchestrator giving the runner up in between any number of times,
      while the run goes on and its events come in later. */
  ghost predicate CarriesWithLosses(es: seq<Executions.Stamped>, trace: seq<TaskEvent>) {
    Executions.WithoutLosses(Executions.RelevantEvents(Executions.Events(es))) == Executions.RelevantEvents(trace)
  }

  lemma HistoryWithLosses(h: seq<Executions.Execution>, o: Executions.Origin, es: seq<Executions.Stamped>,
                          trace: seq<TaskEvent>)
    requires !Executions.IsOpen(h) && CarriesWithLosses(es, trace)
    ensures var f, t := Executions.Fold(h, o, es), TallyOf(trace);
            && (Executions.IsOpen(f) ==> t.open)
            && |h| + t.attempts <= |f| <= |h| + t.starts
            && |f| <= |h| + t.attempts + Executions.Losses(Executions.RelevantEvents(Executions.Events(es)))
  {
    var events := Executions.Events(es);
    Executions.FoldCounts(h, o, es);
    Executions.CountsSeeRelevantEvents(events, false);
    Executions.CountsSeeRelevantEvents(trace, false);
    Executions.LossesSplitAttempts(Executions.RelevantEvents(events), false);
    TallyMatchesHistory(trace);
  }

  /** A runner that is given up in mid-run costs at most one more attempt: the reviewer's,
      whose `Started` would have gone into the attempt the loss closed. The history is
      closed again all the same, and old attempts are untouched. */
  lemma LostRunsAreRecorded(run: Run, h: seq<Executions.Execution>, o: Executions.Origin, es: seq<Executions.Stamped>)
    requires Verdict(run, None) && AllClosed(h) && CarriesWithLosses(es, run.sent)
    ensures var f := Executions.Fold(h, o, es);
            var losses := Executions.Losses(Executions.RelevantEvents(Executions.Events(es)));
            && AllClosed(f) && h <= f
            && |h| + run.tally.attempts <= |f| <= |h| + run.tally.attempts + losses
            && |f| <= |h| + run.tally.attempts + (if run.reviewed && Spawned(run.Last()) then 1 else 0)
            && |f| <= |h| + 2 + run.policy.retry + run.policy.fixChecks
  {
    hide Executions.Fold, Remembered, CarriesWithLosses, Executions.RelevantEvents, Run.Explains, Run.Broke,
      Executions.IsOpen, AllClosed, AllCrashed, AllFailing;
    ClosedHistoryGrows(h, o, es);
    HistoryWithLosses(h, o, es, run.sent);
  }

  /** It does happen. */
  lemma ALossBeforeTheReviewOpensAnother(h: seq<Executions.Execution>, o: Executions.Origin,
                                         es: seq<Executions.Stamped>, result: TaskResult)
    requires !Executions.IsOpen(h)
    requires Executions.Events(es) == [Started(None, []), RunnerLost, Started(None, []), TaskEvent.Completed(result)]
    ensures |Executions.Fold(h, o, es)| == |h| + 2
  {
    var events := Executions.Events(es);
    Executions.FoldCounts(h, o, es);
    assert events[..3][..2] == events[..2] && events[..2][..1] == events[..1] && events[..1][..0] == [];
    assert Executions.Opened(events[..1], false) == 1 && !Executions.OpenAfter(events[..2], false);
    assert Executions.Opened(events[..3], false) == 2;
  }

  function Stamp(trace: seq<TaskEvent>, clock: seq<nat>): (es: seq<Executions.Stamped>)
    ensures Executions.Events(es) == trace
  {
    seq(|trace|, i requires 0 <= i < |trace| => Executions.Stamped(trace[i], if i < |clock| then clock[i] else 0))
  }

  /** Producer and consumer run one after the other on the real objects. */
  method RunAndRecord(id: TaskId, run: Run, prep: Option<string>, ctx: Ctx, task: Executions.Task, clock: seq<nat>)
    requires run.Unstarted() && AllClosed(task.executions)
    modifies run, ctx, task
    ensures Verdict(run, prep)
    ensures AllClosed(task.executions) && old(task.executions) <= task.executions
    ensures |task.executions| <= |old(task.executions)| + 1 + run.policy.retry + run.policy.fixChecks
    ensures prep.Some? ==> task.executions == old(task.executions)
    ensures prep.None? ==> Tells(task.executions, |old(task.executions)|, run.tally.retries + run.tally.ends)
    ensures prep.None? && EverySpawnStarted(run) ==>
            |task.executions| == |old(task.executions)| + 1 + |run.tally.retries|
  {
    hide Remembered, TallyOf, Counted, Tells, Executions.Fold, Executions.WellFormed, Executions.RelevantEvents;
    RunTask(id, run, prep, ctx);
    var es := Stamp(run.sent, clock);
    RunsAreRecorded(run, prep, task.executions, task.Source(), es);
    task.RecordAll(es);
  }

  // The artefacts of the attempt that is open, if one is.
  function OpenArtefacts(h: seq<Executions.Execution>): seq<string> {
    if Executions.IsOpen(h) then h[|h| - 1].artefacts else []
  }

  // The attempt a run works in, and whether it is still open when the run has
  // been waited for.
  lemma AfterTheHead(h: seq<Executions.Execution>, o: Executions.Origin, a: Agent, model: Option<string>,
                     skills: seq<string>, secs: nat, head: seq<Executions.Stamped>)
    requires Outcome(a).Ok?
    requires Executions.Events(head) == Head(a, model, skills, secs)
    ensures var f := Executions.Fold(h, o, head);
            f != [] && Executions.IsOpen(f) == !a.ending.OutOfTime? && f[|f| - 1].artefacts == OpenArtefacts(h)
  {
    assert |head| == (if a.ending.OutOfTime? then 2 else 1) && head[0].event == Started(model, skills) by {
      assert head[0].event == Executions.Events(head)[0];
    }
    var f := Executions.Fold(h, o, head[..1]);
    assert head[..1] == [head[0]];
    Executions.FoldOne(h, o, head[0]);
    assert f != [] && f[|f| - 1].artefacts == OpenArtefacts(h);
    if a.ending.OutOfTime? {
      assert head[1].event == Executions.Events(head)[1];
      assert head[..|head| - 1] == head[..1];
      hide Executions.Recorded, OpenArtefacts, Executions.IsOpen;
    } else {
      assert head == head[..1];
    }
  }

  /** In a stream in which one agent run starts at the head and no other does: a file
      announced in it is on the run's attempt in the end exactly if its name was there, or
      arrived while the attempt was still open. */
  lemma ArtefactsAreRecordedIff(h: seq<Executions.Execution>, o: Executions.Origin, es: seq<Executions.Stamped>,
                                name: string)
    requires es != [] && es[0].event.Started? && forall j | 0 < j < |es| :: !es[j].event.Started?
    ensures var f := Executions.Fold(h, o, es);
            && f != []
            && (name in f[|f| - 1].artefacts <==>
                  name in OpenArtefacts(h) || exists i: nat :: ArrivesOpen(h, es, i, name))
  {
    var f, open := Executions.Fold(h, o, es), Executions.IsOpen(h);
    Executions.FoldCounts(h, o, es);
    forall i: nat | 0 < i <= |es| ensures Executions.Opened(Executions.Events(es[..i]), open) == if open then 0 else 1 {
      OpenedAtTheHead(es, i, open);
    }
    assert es[..|es|] == es;
    assert |f| == |h| + if open then 0 else 1;
    var k: nat := |f| - 1;
    Executions.ArtefactsOfAnAttempt(h, o, es, k, name);
    hide Executions.Opened, Executions.OpenAfter, Executions.Fold;
    if i: nat :| ArrivesOpen(h, es, i, name) {
      assert i > 0 && Executions.Lands(h, es, i, k, name);
    }
    if i: nat :| Executions.Lands(h, es, i, k, name) {
      assert ArrivesOpen(h, es, i, name);
    }
  }

  ghost predicate ArrivesOpen(h: seq<Executions.Execution>, es: seq<Executions.Stamped>, i: nat, name: string) {
    && i < |es| && es[i].event.Artefact? && es[i].event.name == name
    && Executions.OpenAfter(Executions.Events(es[..i]), Executions.IsOpen(h))
  }

  lemma OpenedAtTheHead(es: seq<Executions.Stamped>, i: nat, open: bool)
    requires 0 < i <= |es| && es[0].event.Started? && forall j | 0 < j < |es| :: !es[j].event.Started?
    ensures Executions.Opened(Executions.Events(es[..i]), open) == if open then 0 else 1
  {
    var events := Executions.Events(es[..i]);
    Executions.OpenedGrows(events, 1, open);
    assert events[..1][..0] == [];
  }

  // The last attempt closed early and what came after it is gone.
  lemma ClosedEarly(h: seq<Executions.Execution>, o: Executions.Origin, es: seq<Executions.Stamped>, name: string)
    requires !Executions.IsOpen(h) && |es| > 2 && es[0].event.Started? && Executions.Closes(es[1].event)
    requires forall j | 0 < j < |es| :: !es[j].event.Started?
    ensures var f := Executions.Fold(h, o, es); f != [] && name !in f[|f| - 1].artefacts
  {
    ArtefactsAreRecordedIff(h, o, es, name);
    forall i: nat ensures !ArrivesOpen(h, es, i, name) {
      if 1 < i < |es| {
        ClosedFrom(Executions.Events(es[..i]), 1);
      } else if i == 1 {
        assert !es[i].event.Artefact?;
      }
    }
  }

  lemma {:induction false} ClosedFrom(events: seq<TaskEvent>, k: nat)
    requires k < |events| && Executions.Closes(events[k]) && forall j | k < j < |events| :: !events[j].Started?
    ensures !Executions.OpenAfter(events, false)
  {
    if k < |events| - 1 { ClosedFrom(events[..|events| - 1], k); }
  }

  /** The one file of a run that timed out: announced, and on no attempt. */
  lemma ATimedOutRunLosesItsFile(h: seq<Executions.Execution>, o: Executions.Origin, es: seq<Executions.Stamped>,
                                 secs: nat)
    requires !Executions.IsOpen(h)
    requires Executions.Events(es) == [Started(None, []), TimedOut(secs), Artefact("shot.png", 1)]
    ensures var f := Executions.Fold(h, o, es); f != [] && "shot.png" !in f[|f| - 1].artefacts
  {
    var events := Executions.Events(es);
    assert forall j | 0 <= j < 3 :: es[j].event == events[j];
    ClosedEarly(h, o, es, "shot.png");
  }

  /** And that of a run whose runner was given up before the file came in. */
  lemma ALostRunnersRunLosesItsFile(h: seq<Executions.Execution>, o: Executions.Origin, es: seq<Executions.Stamped>)
    requires !Executions.IsOpen(h)
    requires Executions.Events(es) == [Started(None, []), RunnerLost, Artefact("shot.png", 1), TaskEvent.Cancelled]
    ensures var f := Executions.Fold(h, o, es); f != [] && "shot.png" !in f[|f| - 1].artefacts
  {
    var events := Executions.Events(es);
    assert forall j | 0 <= j < 4 :: es[j].event == events[j];
    ClosedEarly(h, o, es, "shot.png");
  }

  /** Nothing but the run's own events in between, it comes down to the timeout, which is
      announced before the files are: all of them are on the attempt exactly if it did
      not run out of time, or they were there before. */
  lemma FilesAreKeptUnlessTimedOut(h: seq<Executions.Execution>, o: Executions.Origin, a: Agent, model: Option<string>,
                                  skills: seq<string>, secs: nat, head: seq<Executions.Stamped>,
                                    side: seq<Executions.Stamped>)
    requires Outcome(a).Ok?
    requires Executions.Events(head) == Head(a, model, skills, secs)
    requires forall i | 0 <= i < |side| :: Side(side[i].event)
    ensures var f := Executions.Fold(h, o, head + side);
            var had := OpenArtefacts(h);
            && f != []
            && ((forall i | 0 <= i < |side| && side[i].event.Artefact? :: side[i].event.name in f[|f| - 1].artefacts)
                <==> !a.ending.OutOfTime? ||
                     forall i | 0 <= i < |side| && side[i].event.Artefact? :: side[i].event.name in had)
  {
    hide Executions.Fold, Executions.Recorded, Head, OpenArtefacts;
    Executions.FoldConcat(h, o, head, side);
    AfterTheHead(h, o, a, model, skills, secs, head);
    if a.ending.OutOfTime? {
      Executions.TrailingEventsAreDropped(Executions.Fold(h, o, head), o, side);
    } else {
      Executions.OpenArtefactsAreKept(Executions.Fold(h, o, head), o, side);
    }
  }

  // ---- The files a run leaves, and what it had sent before ---------------------------

  /** Some file called `name` differs from what was last sent under it. */
  ghost predicate Differs(before: seq<TaskEvent>, files: seq<(string, nat)>, name: string) {
    exists j :: 0 <= j < |files| && files[j].0 == name && LastSent(before, name) != Some(files[j].1)
  }

  ghost predicate AnnouncedIn(events: seq<TaskEvent>, name: string) {
    exists i :: 0 <= i < |events| && events[i].Artefact? && events[i].name == name
  }

  // A name is announced exactly if one of its files differs from what was last sent, and
  // until then what was last sent stands.
  lemma {:induction false} AnnouncedIffDiffers(before: seq<TaskEvent>, files: seq<(string, nat)>, name: string)
    ensures before <= Announced(before, files)
    ensures AnnouncedIn(Announced(before, files)[|before|..], name) <==> Differs(before, files, name)
    ensures !Differs(before, files, name) ==> LastSent(Announced(before, files), name) == LastSent(before, name)
  {
    if files != [] {
      var front, last, hash := files[..|files| - 1], files[|files| - 1].0, files[|files| - 1].1;
      AnnouncedIffDiffers(before, front, name);
      var was, now := Announced(before, front), Announced(before, files);
      LastSentSnoc(was, Artefact(last, hash), name);
      assert Differs(before, files, name) <==>
        Differs(before, front, name) || (last == name && LastSent(before, name) != Some(hash)) by {
        DiffersNext(before, files, name);
      }
      AnnouncedNext(was[|before|..], now[|before|..], Artefact(last, hash), name);
    }
  }

  lemma DiffersNext(before: seq<TaskEvent>, files: seq<(string, nat)>, name: string)
    requires files != []
    ensures var front, last := files[..|files| - 1], files[|files| - 1];
            Differs(before, files, name) <==>
              Differs(before, front, name) || (last.0 == name && LastSent(before, name) != Some(last.1))
  {
    hide LastSent;
    var front := files[..|files| - 1];
    if j :| 0 <= j < |front| && front[j].0 == name && LastSent(before, name) != Some(front[j].1) {
      assert files[j] == front[j];
    }
    if j :| 0 <= j < |files| && files[j].0 == name && LastSent(before, name) != Some(files[j].1) {
      assert j < |front| ==> front[j] == files[j];
    }
  }

  lemma AnnouncedNext(was: seq<TaskEvent>, now: seq<TaskEvent>, e: TaskEvent, name: string)
    requires now == was || now == was + [e]
    ensures AnnouncedIn(now, name) <==> AnnouncedIn(was, name) || (now != was && e.Artefact? && e.name == name)
  {
    if i :| 0 <= i < |was| && was[i].Artefact? && was[i].name == name { assert now[i] == was[i]; }
    if now != was && e.Artefact? && e.name == name { assert now[|was|] == e; }
  }

  lemma NothingSentBetween(before: seq<TaskEvent>, more: seq<TaskEvent>, name: string)
    requires forall i | 0 <= i < |more| :: !more[i].Artefact?
    ensures LastSent(before + more, name) == LastSent(before, name)
    decreases |more|
  {
    if more == [] {
      assert before + more == before;
    } else {
      var front := more[..|more| - 1];
      NothingSentBetween(before, front, name);
      assert (before + more)[..|before + more| - 1] == before + front;
    }
  }

  lemma SameDifferences(before: seq<TaskEvent>, more: seq<TaskEvent>, files: seq<(string, nat)>, name: string)
    requires forall i | 0 <= i < |more| :: !more[i].Artefact?
    ensures Differs(before + more, files, name) <==> Differs(before, files, name)
  {
    hide LastSent;
    NothingSentBetween(before, more, name);
  }

  lemma LeftBehindInOrder(before: seq<TaskEvent>, notes: string, a: Agent)
    ensures var news := News(notes, a.notes);
            var hosts := Denials(Orders.FirstSeen(a.denied));
            var all := Announced(before + news, a.files);
            && before + news <= all && before <= LeftBehind(before, notes, a)
            && LeftBehind(before, notes, a)[|before|..] == news + all[|before + news|..] + hosts
            && (forall i | 0 <= i < |news| :: !news[i].Artefact?)
            && (forall i | 0 <= i < |hosts| :: !hosts[i].Artefact?)
  {
    AnnouncedIffDiffers(before + News(notes, a.notes), a.files, "");
    hide Announced, Orders.FirstSeen;
  }

  // What one run announces, in terms of what was sent before it.
  lemma RunAnnounces(before: seq<TaskEvent>, head: seq<TaskEvent>, notes: string, a: Agent, name: string)
    requires forall i | 0 <= i < |head| :: !head[i].Artefact?
    ensures before + head <= LeftBehind(before + head, notes, a)
    ensures var side := LeftBehind(before + head, notes, a)[|before + head|..];
            && (forall i | 0 <= i < |side| :: Side(side[i]))
            && (AnnouncedIn(side, name) <==> Differs(before, a.files, name))
  {
    LeftBehindIsSide(before + head, notes, a);
    LeftBehindInOrder(before + head, notes, a);
    var news, start := News(notes, a.notes), before + head + News(notes, a.notes);
    hide LeftBehind, News, Denials, Announced, LastSent, Differs, AnnouncedIn, Orders.FirstSeen;
    SameDifferences(before, head + news, a.files, name);
    assert before + (head + news) == start;
    AnnouncedIffDiffers(start, a.files, name);
    Announcers(news, Announced(start, a.files)[|start|..], Denials(Orders.FirstSeen(a.denied)), name);
  }

  lemma Announcers(news: seq<TaskEvent>, files: seq<TaskEvent>, hosts: seq<TaskEvent>, name: string)
    requires forall i | 0 <= i < |news| :: !news[i].Artefact?
    requires forall i | 0 <= i < |hosts| :: !hosts[i].Artefact?
    ensures AnnouncedIn(news + files + hosts, name) <==> AnnouncedIn(files, name)
  {
    var all := news + files + hosts;
    if i :| 0 <= i < |files| && files[i].Artefact? && files[i].name == name { assert all[|news| + i] == files[i]; }
    if i :| 0 <= i < |all| && all[i].Artefact? && all[i].name == name {
      assert |news| <= i < |news| + |files|;
      assert all[i] == files[i - |news|];
    }
  }

  lemma {:induction false} OpenFiles(h: seq<Executions.Execution>, o: Executions.Origin, es: seq<Executions.Stamped>,
                                     name: string)
    requires Executions.IsOpen(h) && forall i | 0 <= i < |es| :: Side(es[i].event)
    ensures var f := Executions.Fold(h, o, es);
            && Executions.IsOpen(f) && |f| == |h|
            && (name in f[|f| - 1].artefacts <==>
                  name in h[|h| - 1].artefacts || AnnouncedIn(Executions.Events(es), name))
  {
    if es != [] {
      var before, last := es[..|es| - 1], es[|es| - 1];
      OpenFiles(h, o, before, name);
      AnnouncedNext(Executions.Events(before), Executions.Events(es), last.event, name);
      var f := Executions.Fold(h, o, before);
      Executions.RecordedCounts(f, o, last.event, last.at);
      assert Executions.Events(es) == Executions.Events(before) + [last.event];
    }
  }

  // The events of one run: its head, and what it left behind.
  lemma HeadAndSide(before: seq<TaskEvent>, head: seq<TaskEvent>, trace: seq<TaskEvent>, es: seq<Executions.Stamped>)
    requires before + head <= trace && Executions.Events(es) == trace[|before|..]
    ensures |head| <= |es|
    ensures Executions.Events(es[..|head|]) == head
    ensures Executions.Events(es[|head|..]) == trace[|before + head|..]
    ensures var side := trace[|before + head|..];
            |side| == |es| - |head| && forall i | 0 <= i < |side| :: es[|head|..][i].event == side[i]
  {
    assert |Executions.Events(es)| == |trace| - |before|;
    forall i | 0 <= i < |head| ensures es[i].event == head[i] {
      assert es[i].event == Executions.Events(es)[i];
      assert trace[|before| + i] == (before + head)[|before| + i];
    }
    forall i | |head| <= i < |es| ensures es[i].event == trace[|before| + i] {
      assert es[i].event == Executions.Events(es)[i];
    }
  }

  lemma FilesOfAnOpenRun(h: seq<Executions.Execution>, o: Executions.Origin, out: bool, first: seq<Executions.Stamped>,
                         rest: seq<Executions.Stamped>, name: string)
    requires var f := Executions.Fold(h, o, first);
             f != [] && Executions.IsOpen(f) == !out && f[|f| - 1].artefacts == OpenArtefacts(h)
    requires forall i | 0 <= i < |rest| :: Side(rest[i].event)
    ensures var f := Executions.Fold(h, o, first + rest);
            && f != []
            && (name in f[|f| - 1].artefacts <==>
                  name in OpenArtefacts(h) || (!out && AnnouncedIn(Executions.Events(rest), name)))
  {
    hide OpenArtefacts, Executions.Fold, Executions.IsOpen, AnnouncedIn;
    Executions.FoldConcat(h, o, first, rest);
    if out {
      Executions.TrailingEventsAreDropped(Executions.Fold(h, o, first), o, rest);
    } else {
      OpenFiles(Executions.Fold(h, o, first), o, rest, name);
    }
  }

  lemma FilesOfARun(h: seq<Executions.Execution>, o: Executions.Origin, a: Agent, model: Option<string>,
                    skills: seq<string>, secs: nat, before: seq<TaskEvent>, trace: seq<TaskEvent>,
                    es: seq<Executions.Stamped>, name: string)
    requires Outcome(a).Ok?
    requires before + Head(a, model, skills, secs) <= trace && Executions.Events(es) == trace[|before|..]
    requires var side := trace[|before + Head(a, model, skills, secs)|..]; forall i | 0 <= i < |side| :: Side(side[i])
    ensures var f, side := Executions.Fold(h, o, es), trace[|before + Head(a, model, skills, secs)|..];
            && f != []
            && (name in f[|f| - 1].artefacts <==>
                  name in OpenArtefacts(h) || (!a.ending.OutOfTime? && AnnouncedIn(side, name)))
  {
    hide *;
    var head := Head(a, model, skills, secs);
    HeadAndSide(before, head, trace, es);
    var first, rest := es[..|head|], es[|head|..];
    assert es == first + rest;
    AfterTheHead(h, o, a, model, skills, secs, first);
    forall i | 0 <= i < |rest| ensures Side(rest[i].event) {
      assert Side(trace[|before + head|..][i]);
    }
    FilesOfAnOpenRun(h, o, a.ending.OutOfTime?, first, rest, name);
  }

  /** What an attempt lists after an agent run that was waited for, given all that was sent
      before it: a name of a file the run left is on the attempt exactly if it was there
      already, or the run did not time out and some file of the name had changed since it
      was last sent. */
  lemma FilesAreRecordedIff(h: seq<Executions.Execution>, o: Executions.Origin, before: seq<TaskEvent>, notes: string,
                            a: Agent, model: Option<string>, skills: seq<string>, secs: nat,
                            es: seq<Executions.Stamped>, name: string)
    requires Outcome(a).Ok?
    requires var trace := LeftBehind(before + Head(a, model, skills, secs), notes, a);
             |before| <= |trace| && Executions.Events(es) == trace[|before|..]
    ensures var f := Executions.Fold(h, o, es);
            && f != []
            && (name in f[|f| - 1].artefacts <==>
                  name in OpenArtefacts(h) || (!a.ending.OutOfTime? && Differs(before, a.files, name)))
  {
    var head := Head(a, model, skills, secs);
    RunAnnounces(before, head, notes, a, name);
    hide *;
    FilesOfARun(h, o, a, model, skills, secs, before, LeftBehind(before + head, notes, a), es, name);
  }

  /** A run that leaves the same file as the attempt before it has nothing to announce, and
      its attempt lists no file. */
  lemma ARetriedRunLacksItsUnchangedFile(h: seq<Executions.Execution>, o: Executions.Origin, a: Agent, reason: Reason,
                                         es: seq<Executions.Stamped>)
    requires !Executions.IsOpen(h)
    requires a == Agent(Exits(0), 0.0, "", Err(""), None, [("shot.png", 1)], [])
    requires Executions.Events(es) == [Started(None, []), Artefact("shot.png", 1), Retry(1, reason), Started(None, [])]
    ensures LeftBehind(Executions.Events(es), "", a) == Executions.Events(es)
    ensures var f := Executions.Fold(h, o, es);
            |f| == |h| + 2 && "shot.png" in f[|h|].artefacts && "shot.png" !in f[|h| + 1].artefacts
  {
    var events := Executions.Events(es);
    assert events[..3][..2] == events[..2] && events[..2][..1] == events[..1] && events[..1][..0] == [];
    assert LastSent(events[..2], "shot.png") == Some(1);
    assert LastSent(events, "shot.png") == Some(1);
    assert a.files[..0] == [] && events + News("", a.notes) == events;
    assert Announced(events, a.files) == events;
    assert Orders.FirstSeen(a.denied) == [] && Denials(Orders.FirstSeen(a.denied)) == [];
    assert forall i | 0 <= i < 4 :: es[i].event == events[i];
    TwoAttempts(h, o, es, "shot.png");
  }

  lemma TwoAttempts(h: seq<Executions.Execution>, o: Executions.Origin, es: seq<Executions.Stamped>, name: string)
    requires !Executions.IsOpen(h) && |es| == 4
    requires es[0].event.Started? && es[1].event.Artefact? && es[1].event.name == name
    requires es[2].event.Retry? && es[3].event.Started?
    ensures var f := Executions.Fold(h, o, es);
            |f| == |h| + 2 && name in f[|h|].artefacts && name !in f[|h| + 1].artefacts
  {
    assert es[..3][..2] == es[..2] && es[..2][..1] == es[..1] && es[..1] == [es[0]];
    var f1 := Executions.Fold(h, o, es[..1]);
    Executions.FoldOne(h, o, es[0]);
    assert f1 == Executions.Recorded(h, o, es[0].event, es[0].at);
    var f2 := Executions.Fold(h, o, es[..2]);
    assert f2 == Executions.Recorded(f1, o, es[1].event, es[1].at);
    assert Executions.IsOpen(f2) && |f2| == |h| + 1 && name in f2[|h|].artefacts;
    var f3 := Executions.Fold(h, o, es[..3]);
    assert f3 == Executions.Recorded(f2, o, es[2].event, es[2].at);
    assert !Executions.IsOpen(f3) && |f3| == |h| + 1 && name in f3[|h|].artefacts;
  }
}
