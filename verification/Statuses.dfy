/** What a task's status says (crates/orchestrator/src/state.rs): which event it comes from,
    that it agrees with how the run ended, and when a bad end is forgiven. */
module Statuses {
  import opened Protocol
  import opened Tasks
  import opened Cascade
  import Automation
  import Executions
  import RunnerTasks

  // ---- Which event a status comes from -------------------------------------------------

  /** The task is over: only a retry moves it. */
  predicate Final(s: TaskStatus) {
    s in {Approved, Merged, Rejected, TaskStatus.Failed, TaskStatus.TimedOut, TaskStatus.RunnerLost,
          TaskStatus.Cancelled}
  }

  /** The events after which a task is over. */
  predicate Ends(e: TaskEvent) {
    e.Failed? || e.TimedOut? || e.RunnerLost? || e.Cancelled? || e.Pushed? || e.Discarded?
  }

  /** The events that say what state a task is in. */
  predicate Moves(e: TaskEvent) { Ends(e) || e.Started? || e.Completed? || e.Conflicted? || e.Message? }

  predicate Says(e: TaskEvent, s: TaskStatus) {
    match s
    case Queued => false
    case Running => e.Started?
    case AwaitingReview => e.Completed?
    case ChangesRequested => e.Message?
    case Conflicted => e.Conflicted?
    case Approved => e.Pushed?
    case Merged => false
    case Rejected => e.Discarded?
    case Failed => e.Failed?
    case TimedOut => e.TimedOut?
    case RunnerLost => e.RunnerLost?
    case Cancelled => e.Cancelled?
  }

  /** The event that decides: the first to end the task, else the last to say anything. */
  ghost predicate Decides(events: seq<TaskEvent>, j: nat) {
    && j < |events| && (forall i | 0 <= i < j :: !Ends(events[i]))
    && (Ends(events[j]) || (Moves(events[j]) && forall i | j < i < |events| :: !Moves(events[i])))
  }

  /** For every list of events without a retry in it, the status is what the deciding event
      says, or what it was if there is none; and the task is over exactly if an event ended
      it. */
  lemma {:induction false} TheStatusIsTold(t: Task, events: seq<TaskEvent>)
    requires !Final(t.status) && forall e | e in events :: !e.Requeued?
    ensures var now := Lived(t, events).status;
            && (forall j: nat | Decides(events, j) :: Says(events[j], now))
            && ((forall e | e in events :: !Moves(e)) ==> now == t.status)
            && (Final(now) <==> exists e :: e in events && Ends(e))
  {
    if events != [] {
      var front, last := events[..|events| - 1], events[|events| - 1];
      assert events == front + [last];
      TheStatusIsTold(t, front);
      var before := Lived(t, front);
      AppliedSays(before, last);
      forall j: nat | Decides(events, j) ensures Says(events[j], Lived(t, events).status) {
        if j < |front| {
          assert Decides(front, j);
          assert Ends(events[j]) ==> events[j] in front;
        }
      }
    }
  }

  lemma AppliedSays(t: Task, e: TaskEvent)
    ensures var now := Applied(t, e).status;
            if Final(t.status) || !Moves(e) then now == t.status else Says(e, now) && (Final(now) <==> Ends(e))
  {
  }

  lemma SomethingDecides(events: seq<TaskEvent>)
    requires exists e :: e in events && Moves(e)
    ensures exists j: nat :: Decides(events, j)
  {
    var front, last := events[..|events| - 1], events[|events| - 1];
    if e :| e in front && Moves(e) {
      SomethingDecides(front);
      var j: nat :| Decides(front, j);
      if Moves(last) && !Ends(front[j]) {
        assert forall i | 0 <= i < |front| :: !Ends(events[i]) by {
          forall i | 0 <= i < |front| ensures !Ends(events[i]) {
            if i >= j { assert i > j ==> !Moves(front[i]); }
          }
        }
        assert Decides(events, |front|);
      } else {
        assert Decides(events, j);
      }
    } else {
      assert forall i | 0 <= i < |front| :: front[i] in front;
      assert Decides(events, |front|);
    }
  }

  /** A result that came in before the task was over. */
  predicate Delivers(events: seq<TaskEvent>, j: nat) {
    j < |events| && events[j].Completed? && forall i | 0 <= i < j :: !Ends(events[i])
  }

  /** The log grows by every event, the last result that came in before the task was over
      stays, and what the task is to do does not change. */
  lemma {:induction false} WhatARecordKeeps(t: Task, events: seq<TaskEvent>)
    requires !Final(t.status) && forall e | e in events :: !e.Requeued?
    ensures var now := Lived(t, events);
            && now.events == t.events + events && now.spec == t.spec && now.createdAt == t.createdAt
            && (forall j: nat | Delivers(events, j) && (forall i: nat | i > j :: !Delivers(events, i)) ::
                  now.result == Some(events[j].result))
            && ((forall j: nat :: !Delivers(events, j)) ==> now.result == t.result)
  {
    if events != [] {
      var front, last := events[..|events| - 1], events[|events| - 1];
      assert events == front + [last];
      WhatARecordKeeps(t, front);
      TheStatusIsTold(t, front);
      AppliedKeeps(Lived(t, front), last);
      OneMore(front, last);
      hide Applied, Decides, Delivers, Ends, Says;
      assert Lived(t, events) == Applied(Lived(t, front), last);
    }
  }

  /** The error is that of the failure that ended the task. */
  lemma {:induction false} TheErrorIsTheFailures(t: Task, events: seq<TaskEvent>)
    requires !Final(t.status) && forall e | e in events :: !e.Requeued?
    ensures var now := Lived(t, events);
            && (forall j: nat | Decides(events, j) && events[j].Failed? :: now.error == Some(events[j].error))
            && (!now.status.Failed? ==> now.error == t.error)
  {
    if events != [] {
      var front, last := events[..|events| - 1], events[|events| - 1];
      assert events == front + [last];
      TheErrorIsTheFailures(t, front);
      TheStatusIsTold(t, front);
      AppliedKeeps(Lived(t, front), last);
      AppliedSays(Lived(t, front), last);
      OneMore(front, last);
      hide Applied, Decides, Delivers, Ends;
      assert Lived(t, events) == Applied(Lived(t, front), last);
    }
  }

  lemma AppliedKeeps(t: Task, e: TaskEvent)
    ensures var now := Applied(t, e);
            && now.events == t.events + [e] && now.spec == t.spec && now.createdAt == t.createdAt
            && now.error == (if e.Failed? && !Final(t.status) then Some(e.error) else t.error)
            && now.result == (if e.Completed? && !Final(t.status) then Some(e.result) else t.result)
  {
  }

  lemma OneMore(front: seq<TaskEvent>, last: TaskEvent)
    ensures var events := front + [last];
            var over := exists e :: e in front && Ends(e);
            && (forall j: nat | j < |front| :: Delivers(events, j) <==> Delivers(front, j))
            && (Delivers(events, |front|) <==> last.Completed? && !over)
            && (forall j: nat | j > |front| :: !Delivers(events, j))
            && (forall j: nat | j < |front| && Decides(events, j) :: Decides(front, j) && (events[j].Failed? ==> over))
            && (Decides(events, |front|) && last.Failed? ==> !over)
            && (over ==> forall j: nat | Decides(events, j) :: j < |front|)
  {
    var events := front + [last];
    if e :| e in front && Ends(e) {
      var i :| 0 <= i < |front| && front[i] == e;
      assert events[i] == e;
    }
    assert forall i | 0 <= i < |front| :: events[i] == front[i] && front[i] in front;
  }

  // ---- A run's stream ------------------------------------------------------------------

  lemma {:induction false} OneEnd(trace: seq<TaskEvent>)
    ensures var ends := Automation.TallyOf(trace).ends;
            && (forall e | e in ends :: Automation.Terminal(e))
            && (ends == [] ==> forall e | e in trace :: !Automation.Terminal(e))
            && (|ends| == 1 ==> exists j :: 0 <= j < |trace| && trace[j] == ends[0] && OnlyEnd(trace, j))
  {
    if trace != [] {
      var front, last := trace[..|trace| - 1], trace[|trace| - 1];
      assert trace == front + [last];
      OneEnd(front);
      var ends := Automation.TallyOf(trace).ends;
      if |ends| == 1 && !Automation.Terminal(last) {
        var j :| 0 <= j < |front| && front[j] == ends[0] && OnlyEnd(front, j);
        assert trace[j] == ends[0] && OnlyEnd(trace, j);
      } else if |ends| == 1 {
        assert forall i | 0 <= i < |front| :: front[i] in front;
        assert trace[|front|] == ends[0] && OnlyEnd(trace, |front|);
      }
    }
  }

  ghost predicate OnlyEnd(trace: seq<TaskEvent>, j: nat) {
    forall i | 0 <= i < |trace| && i != j :: !Automation.Terminal(trace[i])
  }

  // What closed the last attempt came after every start.
  lemma {:induction false} LastCloser(trace: seq<TaskEvent>)
    requires var t := Automation.TallyOf(trace); t.closers != [] && !t.open
    ensures var t := Automation.TallyOf(trace);
            exists j :: 0 <= j < |trace| && trace[j] == t.closers[|t.closers| - 1] && NoStartAfter(trace, j)
  {
    var front, last := trace[..|trace| - 1], trace[|trace| - 1];
    var t := Automation.TallyOf(front);
    if Executions.Closes(last) && t.open {
      assert NoStartAfter(trace, |front|);
    } else {
      LastCloser(front);
      var j :| 0 <= j < |front| && front[j] == t.closers[|t.closers| - 1] && NoStartAfter(front, j);
      assert trace[j] == front[j] && NoStartAfter(trace, j);
    }
  }

  ghost predicate NoStartAfter(trace: seq<TaskEvent>, j: nat) {
    forall i | j < i < |trace| :: !trace[i].Started?
  }

  // A run that completed has its `Completed` for the last closer.
  lemma CompletedLast(run: Automation.Run, prep: Option<string>)
    requires RunnerTasks.Verdict(run, prep) && run.tally.ends[0].Completed?
    ensures var closers := run.tally.closers;
            closers != [] && closers[|closers| - 1] == run.tally.ends[0] && !run.tally.open
    ensures run.tally == Automation.TallyOf(run.sent)
  {
    hide Automation.AllCrashed, Automation.AllFailing, Automation.AllCommitted, Automation.Validation,
      Automation.AnyFailed, Automation.CrashRetries, Automation.FixRetries, Automation.Remembered;
  }

  lemma WholeRunsRun(run: Automation.Run, prep: Option<string>)
    requires RunnerTasks.Verdict(run, prep)
    ensures forall e | e in run.sent :: Automation.Runs(e)
    ensures |run.tally.ends| == 1 && run.tally == Automation.TallyOf(run.sent)
  {
    hide Automation.Remembered, Automation.Counted, Automation.TallyOf;
  }

  lemma EndDecides(trace: seq<TaskEvent>)
    requires forall e | e in trace :: Automation.Runs(e)
    requires var t := Automation.TallyOf(trace);
             |t.ends| == 1 && (t.ends[0].Completed? ==>
               t.closers != [] && t.closers[|t.closers| - 1] == t.ends[0] && !t.open)
    ensures var e := Automation.TallyOf(trace).ends[0]; e.Completed? || e.Failed? || e.TimedOut? || e.Cancelled?
    ensures exists j: nat :: Decides(trace, j) && trace[j] == Automation.TallyOf(trace).ends[0]
  {
    var e := Automation.TallyOf(trace).ends[0];
    OneEnd(trace);
    if e.Completed? { LastCloser(trace); }
    hide *;
    var j: nat :| j < |trace| && trace[j] == e && OnlyEnd(trace, j);
    if e.Completed? {
      var k: nat :| k < |trace| && trace[k] == e && NoStartAfter(trace, k);
      TheOneEnd(trace, j, k);
    }
    OneEndDecides(trace, j);
  }

  lemma TheOneEnd(trace: seq<TaskEvent>, j: nat, k: nat)
    requires OnlyEnd(trace, j) && k < |trace| && Automation.Terminal(trace[k])
    ensures j == k
  {
  }

  lemma OneEndDecides(trace: seq<TaskEvent>, j: nat)
    requires (forall e | e in trace :: Automation.Runs(e)) && OnlyEnd(trace, j)
    requires j < |trace| && Automation.Terminal(trace[j]) && (trace[j].Completed? ==> NoStartAfter(trace, j))
    ensures Decides(trace, j)
  {
    forall i | 0 <= i < |trace| && i != j
      ensures !Ends(trace[i]) && (j < i && trace[j].Completed? ==> !Moves(trace[i]))
    {
      assert Automation.Runs(trace[i]);
    }
  }

  lemma DecidedStatus(t: Task, trace: seq<TaskEvent>, e: TaskEvent, j: nat)
    requires !Final(t.status) && forall e | e in trace :: Automation.Runs(e)
    requires Decides(trace, j) && trace[j] == e
    ensures var now := Lived(t, trace).status;
            && (now.AwaitingReview? <==> e.Completed?) && (now.Failed? <==> e.Failed?)
            && (now.TimedOut? <==> e.TimedOut?) && (now.Cancelled? <==> e.Cancelled?)
  {
    hide Decides, Lived;
    TheStatusIsTold(t, trace);
  }

  /** A task that was not over and is left by a whole run and its end is in the state that end
      says: handed in for review exactly if the run completed, failed exactly if it failed,
      and so on. */
  lemma TheStatusTellsTheEnd(run: Automation.Run, prep: Option<string>, t: Task)
    requires RunnerTasks.Verdict(run, prep) && !Final(t.status)
    ensures var now, e := Lived(t, run.sent).status, run.tally.ends[0];
            && (now.AwaitingReview? <==> e.Completed?) && (now.Failed? <==> e.Failed?)
            && (now.TimedOut? <==> e.TimedOut?) && (now.Cancelled? <==> e.Cancelled?)
            && (now.AwaitingReview? || now.Failed? || now.TimedOut? || now.Cancelled?)
  {
    WholeRunsRun(run, prep);
    if run.tally.ends[0].Completed? { CompletedLast(run, prep); }
    hide *;
    EndDecides(run.sent);
    var j: nat :| Decides(run.sent, j) && run.sent[j] == run.tally.ends[0];
    DecidedStatus(t, run.sent, run.tally.ends[0], j);
  }

  /** And it agrees with the attempt the run ends in, if its last spawn started. */
  lemma TheStatusTellsTheAttempt(run: Automation.Run, t: Task, h: seq<Executions.Execution>, o: Executions.Origin,
                                 es: seq<Executions.Stamped>)
    requires RunnerTasks.Verdict(run, None) && RunnerTasks.EverySpawnStarted(run) && !Final(t.status)
    requires RunnerTasks.AllClosed(h) && RunnerTasks.Carries(es, run.sent)
    ensures var now, f := Lived(t, run.sent).status, Executions.Fold(h, o, es);
            && f != []
            && (now.AwaitingReview? <==> f[|f| - 1].status.Completed?)
            && (now.Failed? || now.TimedOut? <==> f[|f| - 1].status.Failed?)
            && (now.Cancelled? <==> f[|f| - 1].status.Cancelled?)
  {
    TheStatusTellsTheEnd(run, None, t);
    RunnerTasks.RunsAreRecorded(run, None, h, o, es);
    var f, events := Executions.Fold(h, o, es), run.tally.retries + run.tally.ends;
    WholeRunsRun(run, None);
    hide RunnerTasks.Verdict, RunnerTasks.Carries, RunnerTasks.AllClosed, RunnerTasks.EverySpawnStarted,
      Executions.Fold, Lived;
    assert Executions.Reflects(f[|f| - 1], events[|f| - 1 - |h|]);
  }

  // ---- When a bad end is forgiven ------------------------------------------------------

  /** How often the task has been put back already. */
  ghost function TimesPutBack(t: Task): nat { |set i | 0 <= i < |t.events| && t.events[i].Requeued?| }

  lemma {:induction false} RequeuesAreCounted(events: seq<TaskEvent>)
    ensures Requeues(events) == |set i | 0 <= i < |events| && events[i].Requeued?|
  {
    if events != [] {
      var front := events[..|events| - 1];
      RequeuesAreCounted(front);
      var before := set i | 0 <= i < |front| && front[i].Requeued?;
      var now := set i | 0 <= i < |events| && events[i].Requeued?;
      if events[|front|].Requeued? {
        assert now == before + {|front|};
      } else {
        assert now == before;
      }
    }
  }

  /** Whether one more try is due: a lost runner is forgiven as often as a completed run's
      policy declared, or once without; a failure or a timeout only as declared; nothing else
      is. */
  ghost predicate Forgiven(t: Task, event: TaskEvent) {
    if t.result.Some? && t.result.value.policy.Some? then
      && (event.RunnerLost? || event.Failed? || event.TimedOut?)
      && TimesPutBack(t) < t.result.value.policy.value.reassign
    else event.RunnerLost? && TimesPutBack(t) == 0
  }

  lemma ForgivenIff(t: Task, event: TaskEvent)
    requires !Final(t.status)
    ensures var now := Applied(t, event);
            BadEnd(now.status) && RetriesLeft(now, now.status) <==> Forgiven(t, event)
  {
    RequeuesSnoc(t.events, event);
    RequeuesAreCounted(t.events);
    hide Requeues;
  }

  /** An event puts a task that was not over back in the queue exactly if it could run and one
      more try is due; otherwise it is one more event in its log. */
  lemma PutBackIffForgiven(s: Table, s': Table, id: TaskId, event: TaskEvent, eligible: set<TaskId>)
    requires EventApplied(s, s', id, event, eligible) && id in s && !Final(s[id].status)
    ensures id in s'
    ensures if id in eligible && Forgiven(s[id], event) then
              && s'[id].status == Queued && s'[id].error == None
              && s'[id].events == s[id].events + [event, TaskEvent.Requeued]
              && s'[id].spec == s[id].spec && s'[id].result == s[id].result
            else s'[id].events == s[id].events + [event]
  {
    hide ClosedUnder, Hit, Reaches, Settled, Waiting, Requeues, RetryLimit, RetriesLeft, Forgiven;
    ForgivenIff(s[id], event);
    AppliedKeeps(s[id], event);
    assert s[id].events + [event] + [TaskEvent.Requeued] == s[id].events + [event, TaskEvent.Requeued];
  }

  /** So a task whose repository declared no policy is only put back when its runner is lost. */
  lemma OnlyALostRunnerIsForgivenByDefault(s: Table, s': Table, id: TaskId, event: TaskEvent, eligible: set<TaskId>)
    requires EventApplied(s, s', id, event, eligible) && id in s && !Final(s[id].status)
    requires s[id].result.None? || s[id].result.value.policy.None?
    ensures id in s' && (s'[id].events != s[id].events + [event] ==> event.RunnerLost? && TimesPutBack(s[id]) == 0)
  {
    hide EventApplied;
    PutBackIffForgiven(s, s', id, event, eligible);
  }

  /** An event that does not end a task badly touches no other. */
  lemma OthersAreLeftAlone(s: Table, s': Table, id: TaskId, event: TaskEvent, eligible: set<TaskId>)
    requires EventApplied(s, s', id, event, eligible)
    requires !(event.Failed? || event.TimedOut? || event.RunnerLost? || event.Cancelled? || event.Discarded?)
    ensures s'.Keys == s.Keys && forall u | u in s && u != id :: s'[u] == s[u]
  {
    hide Cascaded, Requeues, RetryLimit;
  }

  /** A bad end is one that leaves no condition to be met any more. */
  lemma BadEndsMeetNothing(s: TaskStatus)
    ensures BadEnd(s) <==> Final(s) && forall c: DependsOn :: !Met(c, s)
  {
    assert BadEnd(s) || !Final(s) || Met(OnApproved, s);
  }

  /** What each condition waits for: a merge, a pushed change, a change that was handed in. */
  lemma WhatIsWaitedFor(s: TaskStatus)
    ensures Met(OnMerged, s) <==> s == Merged
    ensures Met(OnApproved, s) <==> s == Merged || s == Approved
    ensures Met(OnCompleted, s) <==> Met(OnApproved, s) || s == AwaitingReview || s == ChangesRequested
                                     || s == TaskStatus.Conflicted
  {
  }
}
