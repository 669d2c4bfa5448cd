/** What an attempt says of itself, traced back to the events it was made of
    (crates/orchestrator/src/execution.rs): which event opened it, which closed it, and when. */
module Attempts {
  import opened Protocol
  import opened Executions
  import opened Interleavings

  /** Event `i` started the attempt: its time, model and skills are the event's, its runner
      and executor those the task had then. */
  ghost predicate StartedBy(x: Execution, os: seq<Origin>, es: seq<Stamped>, i: nat)
    requires |os| == |es|
  {
    && i < |es| && es[i].event.Started?
    && x.startedAt == es[i].at && x.model == es[i].event.model && x.skills == es[i].event.skills
    && x.runner == (if os[i].runner.Some? then os[i].runner.value else "") && x.executor == os[i].executor
  }

  /** Event `j`, the first since `i` to close an attempt, closed this one. */
  ghost predicate FinishedBy(x: Execution, es: seq<Stamped>, i: nat, j: nat) {
    && i < j < |es| && Closes(es[j].event) && (forall m | i < m < j :: !Closes(es[m].event))
    && x.finishedAt == Some(es[j].at) && Reflects(x, es[j].event)
  }

  /** No event has closed the attempt since `i`. */
  ghost predicate Unfinished(x: Execution, es: seq<Stamped>, i: nat) {
    && (forall m | i < m < |es| :: !Closes(es[m].event))
    && x.status.Running? && x.finishedAt == None && x.error == None
  }

  /** Event `i` is the one that opens attempt `k`. */
  ghost predicate Opens(h: seq<Execution>, es: seq<Stamped>, i: nat, k: nat) {
    && i < |es| && es[i].event.Started?
    && !OpenAfter(Events(es[..i]), IsOpen(h)) && |h| + Opened(Events(es[..i]), IsOpen(h)) == k
  }

  ghost predicate Spans(h: seq<Execution>, os: seq<Origin>, es: seq<Stamped>, x: Execution, k: nat, i: nat)
    requires |os| == |es|
  {
    && Opens(h, es, i, k) && x.attempt == k + 1 && StartedBy(x, os, es, i)
    && (Unfinished(x, es, i) || exists j: nat :: FinishedBy(x, es, i, j))
  }

  lemma ViaCounts(h: seq<Execution>, os: seq<Origin>, es: seq<Stamped>)
    requires |os| == |es| && WellFormed(h)
    ensures var f := FoldVia(h, os, es);
            && IsOpen(f) == OpenAfter(Events(es), IsOpen(h)) && |f| == |h| + Opened(Events(es), IsOpen(h))
            && forall k | 0 <= k < |f| - 1 :: !f[k].status.Running?
  {
    var o := Origin(None, Claude);
    WhoRunsItDoesNotMatter(h, os, o, es);
    FoldCounts(h, o, es);
    FoldWellFormed(h, o, es);
    hide FoldVia, Fold;
    var f, g := FoldVia(h, os, es), Fold(h, o, es);
    assert forall i | 0 <= i < |f| :: f[i].status == g[i].status;
  }

  // What was said of an attempt still holds when an event comes in that is not its own.
  lemma StillSpans(h: seq<Execution>, os: seq<Origin>, es: seq<Stamped>, x: Execution, k: nat, i: nat)
    requires es != [] && |os| == |es|
    requires Spans(h, os[..|es| - 1], es[..|es| - 1], x, k, i)
    requires !x.status.Running? || !Closes(es[|es| - 1].event)
    ensures Spans(h, os, es, x, k, i)
  {
    hide OpenAfter, Opened, Closes;
    var before := es[..|es| - 1];
    assert es[..i] == before[..i];
    if j: nat :| FinishedBy(x, before, i, j) {
      assert FinishedBy(x, es, i, j);
    }
  }

  lemma NotedKeeps(x: Execution, e: TaskEvent, at: nat)
    requires x.status.Running? && x.finishedAt == None && x.error == None
    ensures var y := Noted(x, e, at);
            && y.attempt == x.attempt && y.startedAt == x.startedAt && y.model == x.model && y.skills == x.skills
            && y.runner == x.runner && y.executor == x.executor
            && (if Closes(e) then y.finishedAt == Some(at) && Reflects(y, e)
                else y.status.Running? && y.finishedAt == None && y.error == None)
  {
  }

  lemma OneMoreEvent(h: seq<Execution>, os: seq<Origin>, es: seq<Stamped>, x: Execution, k: nat, i: nat)
    requires es != [] && |os| == |es| && x.status.Running? && !es[|es| - 1].event.Started?
    requires Spans(h, os[..|es| - 1], es[..|es| - 1], x, k, i)
    ensures Spans(h, os, es, Noted(x, es[|es| - 1].event, es[|es| - 1].at), k, i)
  {
    var n := |es| - 1;
    var before, e, y := es[..n], es[n].event, Noted(x, es[n].event, es[n].at);
    assert Unfinished(x, before, i) by {
      forall j: nat ensures !FinishedBy(x, before, i, j) { }
    }
    NotedKeeps(x, e, es[n].at);
    hide OpenAfter, Opened, Closes, Reflects, Noted;
    assert es[..i] == before[..i];
    assert forall m | 0 <= m < n :: es[m] == before[m];
    if Closes(e) { assert FinishedBy(y, es, i, n); }
  }

  lemma RecordedAt(f: seq<Execution>, o: Origin, e: TaskEvent, at: nat, k: nat)
    requires k < |f| && forall j | 0 <= j < |f| - 1 :: !f[j].status.Running?
    ensures k < |Recorded(f, o, e, at)|
    ensures Recorded(f, o, e, at)[k] == if f[k].status.Running? && !e.Started? then Noted(f[k], e, at) else f[k]
  {
    hide Noted;
  }

  lemma NextSpans(h: seq<Execution>, os: seq<Origin>, es: seq<Stamped>, f: seq<Execution>, k: nat, i: nat)
    requires es != [] && |os| == |es| && k < |f| && forall j | 0 <= j < |f| - 1 :: !f[j].status.Running?
    requires Spans(h, os[..|es| - 1], es[..|es| - 1], f[k], k, i)
    ensures var g := Recorded(f, os[|es| - 1], es[|es| - 1].event, es[|es| - 1].at);
            k < |g| && Spans(h, os, es, g[k], k, i)
  {
    hide Spans, Recorded, Noted;
    var e := es[|es| - 1].event;
    RecordedAt(f, os[|es| - 1], e, es[|es| - 1].at, k);
    if f[k].status.Running? && !e.Started? {
      OneMoreEvent(h, os, es, f[k], k, i);
    } else {
      StillSpans(h, os, es, f[k], k, i);
    }
  }

  lemma NewSpans(h: seq<Execution>, os: seq<Origin>, es: seq<Stamped>, f: seq<Execution>)
    requires es != [] && |os| == |es| && es[|es| - 1].event.Started? && !IsOpen(f)
    requires var before := Events(es[..|es| - 1]);
             !OpenAfter(before, IsOpen(h)) && |f| == |h| + Opened(before, IsOpen(h))
    ensures var g := Recorded(f, os[|es| - 1], es[|es| - 1].event, es[|es| - 1].at);
            |g| == |f| + 1 && Spans(h, os, es, g[|f|], |f|, |es| - 1)
  {
    hide OpenAfter, Opened;
  }

  /** Every attempt in a history spans the events it was made of: it starts when the event
      that opened it came in, with what that told and for whom the task was then, and ends
      when and how the next closing event says. */
  lemma {:induction false} AttemptsSpanTheirEvents(h: seq<Execution>, os: seq<Origin>, es: seq<Stamped>, k: nat)
    requires |os| == |es| && WellFormed(h) && |h| <= k < |FoldVia(h, os, es)|
    ensures exists i: nat :: Spans(h, os, es, FoldVia(h, os, es)[k], k, i)
  {
    if es != [] {
      var n := |es| - 1;
      var f := FoldVia(h, os[..n], es[..n]);
      assert FoldVia(h, os, es) == Recorded(f, os[n], es[n].event, es[n].at);
      ViaCounts(h, os[..n], es[..n]);
      hide OpenAfter, Opened, WellFormed;
      if k < |f| {
        AttemptsSpanTheirEvents(h, os[..n], es[..n], k);
        var i: nat :| Spans(h, os[..n], es[..n], f[k], k, i);
        hide Spans, Recorded, FoldVia;
        NextSpans(h, os, es, f, k, i);
      } else {
        hide Spans;
        assert es[n].event.Started? && !IsOpen(f);
        hide Recorded, FoldVia;
        NewSpans(h, os, es, f);
      }
    }
  }
}
