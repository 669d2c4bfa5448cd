/** A task that is given up on one runner and handed to another while the first still
    reports (crates/orchestrator/src/runner_ws.rs, crates/orchestrator/src/state.rs): events
    are recorded as they come in, whichever runner sends them. */
module Interleavings {
  import opened Protocol
  import opened Executions
  import Automation
  import RunnerTasks

  // ---- Streams made of several --------------------------------------------------------

  function Front(s: seq<TaskEvent>): seq<TaskEvent>
    requires s != []
  {
    s[..|s| - 1]
  }

  ghost predicate LastOf(es: seq<TaskEvent>, parts: seq<seq<TaskEvent>>, i: nat)
    requires es != []
  {
    i < |parts| && parts[i] != [] && parts[i][|parts[i]| - 1] == es[|es| - 1]
  }

  /** `es` is made of all the parts, each in its own order. */
  ghost predicate Interleaves(es: seq<TaskEvent>, parts: seq<seq<TaskEvent>>)
    decreases |es|
  {
    if es == [] then forall i | 0 <= i < |parts| :: parts[i] == []
    else exists i: nat :: LastOf(es, parts, i) && Interleaves(Front(es), parts[i := Front(parts[i])])
  }

  function StartsIn(parts: seq<seq<TaskEvent>>): nat {
    if parts == [] then 0 else StartsIn(parts[..|parts| - 1]) + Starts(parts[|parts| - 1])
  }

  lemma {:induction false} OnePartChanged(parts: seq<seq<TaskEvent>>, i: nat, part: seq<TaskEvent>)
    requires i < |parts|
    ensures StartsIn(parts[i := part]) + Starts(parts[i]) == StartsIn(parts) + Starts(part)
  {
    var front := parts[..|parts| - 1];
    if i < |front| {
      OnePartChanged(front, i, part);
      assert parts[i := part][..|parts| - 1] == front[i := part];
    } else {
      assert parts[i := part][..|parts| - 1] == front;
    }
  }

  lemma {:induction false} NoStarts(parts: seq<seq<TaskEvent>>)
    requires forall i | 0 <= i < |parts| :: parts[i] == []
    ensures StartsIn(parts) == 0
  {
    if parts != [] { NoStarts(parts[..|parts| - 1]); }
  }

  lemma {:induction false} InterleavedStarts(es: seq<TaskEvent>, parts: seq<seq<TaskEvent>>)
    requires Interleaves(es, parts)
    ensures Starts(es) == StartsIn(parts)
    decreases |es|
  {
    if es == [] {
      NoStarts(parts);
    } else {
      var i: nat :| LastOf(es, parts, i) && Interleaves(Front(es), parts[i := Front(parts[i])]);
      InterleavedStarts(Front(es), parts[i := Front(parts[i])]);
      OnePartChanged(parts, i, Front(parts[i]));
    }
  }

  lemma {:induction false} InterleavedEvents(es: seq<TaskEvent>, parts: seq<seq<TaskEvent>>, e: TaskEvent)
    requires Interleaves(es, parts) && e in es
    ensures exists i :: 0 <= i < |parts| && e in parts[i]
    decreases |es|
  {
    var i: nat :| LastOf(es, parts, i) && Interleaves(Front(es), parts[i := Front(parts[i])]);
    if e in Front(es) {
      var rest := parts[i := Front(parts[i])];
      InterleavedEvents(Front(es), rest, e);
      var j :| 0 <= j < |rest| && e in rest[j];
      assert e in parts[j];
    } else {
      assert e == es[|es| - 1] && e in parts[i];
    }
  }

  /** An attempt that is still open is one that some part leaves open. */
  lemma {:induction false} InterleavedOpen(es: seq<TaskEvent>, parts: seq<seq<TaskEvent>>)
    requires Interleaves(es, parts) && OpenAfter(es, false)
    ensures exists i :: 0 <= i < |parts| && OpenAfter(parts[i], false)
    decreases |es|
  {
    var i: nat :| LastOf(es, parts, i) && Interleaves(Front(es), parts[i := Front(parts[i])]);
    var rest := parts[i := Front(parts[i])];
    if es[|es| - 1].Started? {
      assert OpenAfter(parts[i], false);
    } else {
      InterleavedOpen(Front(es), rest);
      var j :| 0 <= j < |rest| && OpenAfter(rest[j], false);
      assert OpenAfter(parts[j], false);
    }
  }

  /** No part opens more attempts than all of them together. */
  lemma {:induction false} InterleavedOpened(es: seq<TaskEvent>, parts: seq<seq<TaskEvent>>, k: nat)
    requires Interleaves(es, parts) && k < |parts|
    ensures Opened(parts[k], false) + (if OpenAfter(es, false) && !OpenAfter(parts[k], false) then 1 else 0)
              <= Opened(es, false)
    decreases |es|
  {
    if es != [] {
      var i: nat :| LastOf(es, parts, i) && Interleaves(Front(es), parts[i := Front(parts[i])]);
      InterleavedOpened(Front(es), parts[i := Front(parts[i])], k);
      hide Interleaves;
    }
  }

  // ---- A history whose task changes hands ----------------------------------------------

  /** The fold, with the runner and executor the task had at each event. */
  function FoldVia(h: seq<Execution>, os: seq<Origin>, es: seq<Stamped>): seq<Execution>
    requires |os| == |es|
  {
    if es == [] then h
    else
      var n := |es| - 1;
      Recorded(FoldVia(h, os[..n], es[..n]), os[n], es[n].event, es[n].at)
  }

  /** The same attempts from the first `n` on, but for who made them. */
  ghost predicate Alike(f: seq<Execution>, g: seq<Execution>, n: nat) {
    && |f| == |g|
    && (forall i | 0 <= i < |f| :: f[i] == g[i].(runner := f[i].runner, executor := f[i].executor))
    && (forall i | 0 <= i < |f| && i < n :: f[i] == g[i])
  }

  lemma NotedAlike(x: Execution, y: Execution, e: TaskEvent, at: nat)
    requires x == y.(runner := x.runner, executor := x.executor)
    ensures var z := Noted(x, e, at);
            z == Noted(y, e, at).(runner := z.runner, executor := z.executor) && z.status == Noted(y, e, at).status
  {
  }

  lemma RecordedAlike(f: seq<Execution>, g: seq<Execution>, n: nat, o: Origin, p: Origin, e: TaskEvent, at: nat)
    requires Alike(f, g, n) && n <= |f|
    ensures Alike(Recorded(f, o, e, at), Recorded(g, p, e, at), n) && n <= |Recorded(f, o, e, at)|
  {
    hide Noted;
    assert f != [] ==> f[|f| - 1].status == g[|f| - 1].status;
    if IsOpen(f) {
      NotedAlike(f[|f| - 1], g[|f| - 1], e, at);
    }
  }

  lemma {:induction false} WhoRunsItDoesNotMatter(h: seq<Execution>, os: seq<Origin>, o: Origin, es: seq<Stamped>)
    requires |os| == |es|
    ensures Alike(FoldVia(h, os, es), Fold(h, o, es), |h|) && |h| <= |Fold(h, o, es)|
  {
    if es != [] {
      var n := |es| - 1;
      WhoRunsItDoesNotMatter(h, os[..n], o, es[..n]);
      RecordedAlike(FoldVia(h, os[..n], es[..n]), Fold(h, o, es[..n]), |h|, os[n], o, es[n].event, es[n].at);
    }
  }

  // ---- Several runs of one task ----------------------------------------------------------

  ghost predicate Ended(run: Automation.Run)
    reads run
  {
    exists prep :: RunnerTasks.Verdict(run, prep)
  }

  // How many spawns a run may make at most.
  function Allowance(runs: seq<Automation.Run>): nat
    reads runs
  {
    if runs == [] then 0
    else
      var policy := runs[|runs| - 1].policy;
      Allowance(runs[..|runs| - 1]) + 2 + policy.retry + policy.fixChecks
  }

  /** What came in is what the runs sent, and what the orchestrator records of its own
      accord, which is never a start. */
  ghost predicate Reported(runs: seq<Automation.Run>, parts: seq<seq<TaskEvent>>, es: seq<Stamped>)
    reads runs
  {
    && |parts| == |runs| + 1
    && (forall i | 0 <= i < |runs| :: parts[i] == RelevantEvents(runs[i].sent))
    && (forall e | e in parts[|runs|] :: !e.Started?)
    && Interleaves(RelevantEvents(Events(es)), parts)
  }

  lemma EndedRun(run: Automation.Run)
    requires Ended(run)
    ensures var part := RelevantEvents(run.sent);
            && !OpenAfter(part, false) && Opened(part, false) == run.tally.attempts
            && Starts(part) <= 2 + run.policy.retry + run.policy.fixChecks
  {
    var prep :| RunnerTasks.Verdict(run, prep);
    Automation.TallyMatchesHistory(run.sent);
    CountsSeeRelevantEvents(run.sent, false);
    hide RelevantEvents, OpenAfter, Opened, Starts;
    if prep.Some? {
      assert run.sent[..0] == [];
      assert Automation.TallyOf(run.sent) == Automation.Count(Automation.TallyOf([]), run.sent[0]);
    }
  }

  lemma {:induction false} NeverStarted(part: seq<TaskEvent>)
    requires forall e | e in part :: !e.Started?
    ensures Starts(part) == 0 && !OpenAfter(part, false)
  {
    if part != [] { NeverStarted(part[..|part| - 1]); }
  }

  lemma {:induction false} StartsAllowed(runs: seq<Automation.Run>, parts: seq<seq<TaskEvent>>)
    requires |parts| == |runs|
    requires forall i | 0 <= i < |runs| :: Ended(runs[i]) && parts[i] == RelevantEvents(runs[i].sent)
    ensures StartsIn(parts) <= Allowance(runs)
  {
    if runs != [] {
      StartsAllowed(runs[..|runs| - 1], parts[..|runs| - 1]);
      EndedRun(runs[|runs| - 1]);
    }
  }

  lemma {:induction false} ClosersAreEvents(es: seq<TaskEvent>, open: bool, c: TaskEvent)
    requires c in Closers(es, open)
    ensures c in es && Closes(c)
  {
    var front := es[..|es| - 1];
    if c in Closers(front, open) { ClosersAreEvents(front, open, c); }
  }

  /** The attempt ended as one of the parts says. */
  ghost predicate EndedBy(x: Execution, parts: seq<seq<TaskEvent>>) {
    exists i, e :: 0 <= i < |parts| && e in parts[i] && Reflects(x, e)
  }

  lemma AttemptsEndAsToldBySomeone(h: seq<Execution>, o: Origin, es: seq<Stamped>, parts: seq<seq<TaskEvent>>)
    requires !IsOpen(h) && Interleaves(RelevantEvents(Events(es)), parts)
    ensures var f := Fold(h, o, es);
            !IsOpen(f) ==> forall k | |h| <= k < |f| :: EndedBy(f[k], parts)
  {
    var f, events := Fold(h, o, es), RelevantEvents(Events(es));
    FoldReflectsClosers(h, o, es);
    CountsSeeRelevantEvents(Events(es), false);
    var closers := Closers(events, false);
    hide Fold, Closers, RelevantEvents, Reflects, Interleaves;
    if !IsOpen(f) {
      forall k | |h| <= k < |f| ensures EndedBy(f[k], parts) {
        var e := closers[k - |h|];
        assert Reflects(f[|h| + (k - |h|)], e);
        ClosersAreEvents(events, false, e);
        InterleavedEvents(events, parts, e);
        var i :| 0 <= i < |parts| && e in parts[i];
      }
    }
  }

  lemma PartsTogether(es: seq<TaskEvent>, parts: seq<seq<TaskEvent>>)
    requires Interleaves(es, parts) && forall i | 0 <= i < |parts| :: !OpenAfter(parts[i], false)
    ensures !OpenAfter(es, false) && Starts(es) == StartsIn(parts)
    ensures forall i | 0 <= i < |parts| :: Opened(parts[i], false) <= Opened(es, false)
  {
    hide *;
    if OpenAfter(es, false) {
      InterleavedOpen(es, parts);
      assert false;
    }
    InterleavedStarts(es, parts);
    forall i | 0 <= i < |parts| ensures Opened(parts[i], false) <= Opened(es, false) {
      InterleavedOpened(es, parts, i);
    }
  }

  lemma NoneLeftOpen(runs: seq<Automation.Run>, parts: seq<seq<TaskEvent>>, es: seq<Stamped>)
    requires Reported(runs, parts, es) && forall i | 0 <= i < |runs| :: Ended(runs[i])
    ensures var events := RelevantEvents(Events(es));
            && !OpenAfter(events, false) && Starts(events) <= Allowance(runs)
            && forall i | 0 <= i < |runs| :: runs[i].tally.attempts <= Opened(events, false)
  {
    hide RelevantEvents, Ended, Interleaves, OpenAfter, Opened, Starts, Allowance;
    var n := |runs|;
    forall i | 0 <= i < n
      ensures !OpenAfter(parts[i], false) && runs[i].tally.attempts == Opened(parts[i], false)
    {
      EndedRun(runs[i]);
    }
    NeverStarted(parts[n]);
    PartsTogether(RelevantEvents(Events(es)), parts);
    StartsAllowed(runs, parts[..n]);
    assert StartsIn(parts) == StartsIn(parts[..n]) + Starts(parts[n]);
  }

  lemma InterleavedHistory(h: seq<Execution>, os: seq<Origin>, es: seq<Stamped>, parts: seq<seq<TaskEvent>>)
    requires RunnerTasks.AllClosed(h) && |os| == |es|
    requires Interleaves(RelevantEvents(Events(es)), parts) && !OpenAfter(RelevantEvents(Events(es)), false)
    ensures var f, events := FoldVia(h, os, es), RelevantEvents(Events(es));
            && RunnerTasks.AllClosed(f) && h <= f
            && |f| == |h| + Opened(events, false) <= |h| + Starts(events)
            && forall k | |h| <= k < |f| :: EndedBy(f[k], parts)
  {
    var o, events := Origin(None, Claude), Events(es);
    var f, g := FoldVia(h, os, es), Fold(h, o, es);
    hide Interleaves, RelevantEvents, OpenAfter, Opened, Starts, Fold, FoldVia, Reflects, RunnerTasks.AllClosed;
    CountsSeeRelevantEvents(events, false);
    RunnerTasks.ClosedHistoryGrows(h, o, es);
    FoldCounts(h, o, es);
    OpenedAtMostStarts(events);
    AttemptsEndAsToldBySomeone(h, o, es, parts);
    WhoRunsItDoesNotMatter(h, os, o, es);
    forall k | |h| <= k < |f| ensures EndedBy(f[k], parts) {
      var i, e :| 0 <= i < |parts| && e in parts[i] && Reflects(g[k], e);
      ReflectsAlike(f[k], g[k], e);
    }
  }

  /** However many runs of one task there are and however their events interleave, with
      each other and with losses: once they have all ended the history is closed and what
      was there before is untouched. It has grown by no more than the spawns the runs were
      allowed, by no less than any one of them made attempts, and each new attempt ended as
      some run, or the orchestrator, says. */
  lemma InterleavedRunsAreRecorded(runs: seq<Automation.Run>, parts: seq<seq<TaskEvent>>, h: seq<Execution>,
                                   os: seq<Origin>, es: seq<Stamped>)
    requires RunnerTasks.AllClosed(h) && |os| == |es|
    requires Reported(runs, parts, es) && forall i | 0 <= i < |runs| :: Ended(runs[i])
    ensures var f := FoldVia(h, os, es);
            && RunnerTasks.AllClosed(f) && h <= f
            && |f| <= |h| + Allowance(runs)
            && (forall i | 0 <= i < |runs| :: |h| + runs[i].tally.attempts <= |f|)
            && forall k | |h| <= k < |f| :: EndedBy(f[k], parts)
  {
    NoneLeftOpen(runs, parts, es);
    assert Interleaves(RelevantEvents(Events(es)), parts);
    hide *;
    InterleavedHistory(h, os, es, parts);
  }

  lemma ReflectsAlike(x: Execution, y: Execution, e: TaskEvent)
    requires x == y.(runner := x.runner, executor := x.executor)
    ensures Reflects(x, e) == Reflects(y, e)
  {
  }

  lemma {:induction false} OpenedAtMostStarts(es: seq<TaskEvent>)
    ensures Opened(es, false) <= Starts(es)
  {
    if es != [] { OpenedAtMostStarts(es[..|es| - 1]); }
  }

  lemma OneMore(es: seq<TaskEvent>, x: seq<TaskEvent>, y: seq<TaskEvent>, z: seq<TaskEvent>, i: nat, e: TaskEvent)
    requires Interleaves(es, [x, y, z]) && i < 3
    ensures Interleaves(es + [e], [if i == 0 then x + [e] else x, if i == 1 then y + [e] else y,
                                   if i == 2 then z + [e] else z])
  {
    var parts := [x, y, z];
    var more := parts[i := parts[i] + [e]];
    assert more == [if i == 0 then x + [e] else x, if i == 1 then y + [e] else y, if i == 2 then z + [e] else z];
    assert Front(es + [e]) == es && Front(more[i]) == parts[i];
    assert more[i := Front(more[i])] == parts;
    assert LastOf(es + [e], more, i);
  }

  lemma TwoRunsBegun(a: TaskEvent, lost: TaskEvent, b: TaskEvent)
    ensures Interleaves([a, lost, b], [[a], [b], [lost]])
  {
    assert Interleaves([], [[], [], []]);
    hide Interleaves;
    assert Interleaves([a], [[a], [], []]) by {
      OneMore([], [], [], [], 0, a);
      assert [] + [a] == [a];
    }
    assert Interleaves([a, lost], [[a], [], [lost]]) by {
      OneMore([a], [a], [], [], 2, lost);
      assert [a] + [lost] == [a, lost] && [] + [lost] == [lost];
    }
    OneMore([a, lost], [a], [], [lost], 1, b);
    assert [a, lost] + [b] == [a, lost, b] && [] + [b] == [b];
  }

  // Two runs of one task, the first of which is lost and ends late.
  lemma TwoRunsOfOneTask(a: TaskEvent, lost: TaskEvent, b: TaskEvent, late: TaskEvent, own: TaskEvent)
    ensures Interleaves([a, lost, b, late, own], [[a, late], [b, own], [lost]])
  {
    hide Interleaves;
    assert Interleaves([a, lost, b, late], [[a, late], [b], [lost]]) by {
      TwoRunsBegun(a, lost, b);
      OneMore([a, lost, b], [a], [b], [lost], 0, late);
      assert [a, lost, b] + [late] == [a, lost, b, late] && [a] + [late] == [a, late];
    }
    OneMore([a, lost, b, late], [a, late], [b], [lost], 1, own);
    assert [a, lost, b, late] + [own] == [a, lost, b, late, own] && [b] + [own] == [b, own];
  }

  lemma ClosedByTheLateEnd(events: seq<TaskEvent>, late: TaskResult, own: TaskResult)
    requires events == [Started(None, []), RunnerLost, Requeued, Started(None, []), TaskEvent.Completed(late),
                        TaskEvent.Completed(own)]
    ensures !OpenAfter(events, false) && Closers(events, false) == [RunnerLost, TaskEvent.Completed(late)]
  {
    var e1, e2, e3, e4, e5 := events[..1], events[..2], events[..3], events[..4], events[..5];
    assert events[..5][..4] == e4 && e4[..3] == e3 && e3[..2] == e2 && e2[..1] == e1 && e1[..0] == [];
    assert OpenAfter(e1, false) && Closers(e1, false) == [];
    assert !OpenAfter(e2, false) && Closers(e2, false) == [RunnerLost];
    assert !OpenAfter(e3, false) && Closers(e3, false) == [RunnerLost];
    assert OpenAfter(e4, false) && Closers(e4, false) == [RunnerLost];
    assert !OpenAfter(e5, false) && Closers(e5, false) == [RunnerLost, TaskEvent.Completed(late)];
  }

  lemma RelevantOfNone()
    ensures RelevantEvents([]) == []
  {
  }

  lemma RelevantNext(events: seq<TaskEvent>, n: nat)
    requires n < |events|
    ensures RelevantEvents(events[..n + 1])
              == RelevantEvents(events[..n]) + if Relevant(events[n]) then [events[n]] else []
  {
    assert events[..n + 1][..n] == events[..n];
  }

  lemma RelevantOfSix(events: seq<TaskEvent>)
    requires |events| == 6 && !Relevant(events[2])
    requires forall i | 0 <= i < 6 && i != 2 :: Relevant(events[i])
    ensures RelevantEvents(events) == [events[0], events[1], events[3], events[4], events[5]]
  {
    hide RelevantEvents, Relevant;
    assert events[..0] == [] && RelevantEvents(events[..0]) == [] by { RelevantOfNone(); }
    RelevantNext(events, 0);
    RelevantNext(events, 1);
    RelevantNext(events, 2);
    RelevantNext(events, 3);
    RelevantNext(events, 4);
    RelevantNext(events, 5);
    assert events[..6] == events;
  }

  /** Nothing tells whose end it is: the first runner's, coming in late, closes the attempt
      of the second, whose own is then recorded nowhere. */
  lemma ALateEndClosesAnothersAttempt(h: seq<Execution>, os: seq<Origin>, es: seq<Stamped>, late: TaskResult,
                                      own: TaskResult)
    requires !IsOpen(h) && |os| == |es|
    requires Events(es) == [Started(None, []), RunnerLost, Requeued, Started(None, []), TaskEvent.Completed(late),
                            TaskEvent.Completed(own)]
    ensures Interleaves(RelevantEvents(Events(es)),
                        [[Started(None, []), TaskEvent.Completed(late)],
                         [Started(None, []), TaskEvent.Completed(own)],
                         [RunnerLost]])
    ensures var f := FoldVia(h, os, es);
            && |f| == |h| + 2 && f[|h|].error == Some(LostRunner)
            && f[|h| + 1].status.Completed? && f[|h| + 1].cost == late.cost
  {
    var events, o := Events(es), Origin(None, Claude);
    RelevantOfSix(events);
    TwoRunsOfOneTask(events[0], events[1], events[3], events[4], events[5]);
    ClosedByTheLateEnd(events, late, own);
    FoldCounts(h, o, es);
    FoldReflectsClosers(h, o, es);
    WhoRunsItDoesNotMatter(h, os, o, es);
    var g := Fold(h, o, es);
    hide Interleaves, Fold, FoldVia, Closers, OpenAfter, Opened;
    assert Reflects(g[|h| + 0], Closers(events, false)[0]) && Reflects(g[|h| + 1], Closers(events, false)[1]);
  }
}
