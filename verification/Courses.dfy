/** The course of a run is what its world makes of it (crates/agent/src/automation.rs): which
    spawns there are and how the task ends follow from how spawns end, what git commits and
    which checks pass. What a spawn costs changes the total and nothing else. */
module Courses {
  import opened Protocol
  import opened Automation

  /** The world in which spawn `i` costs `x` more. */
  function Dearer(w: World, i: nat, x: real): World
    requires i < |w.agents|
  {
    w.(agents := w.agents[i := w.agents[i].(cost := w.agents[i].cost + x)])
  }

  // ---- Worlds that answer alike --------------------------------------------------------

  /** The same answers at the same places, whatever they cost. */
  ghost predicate Alike(w: World, v: World) {
    && (forall n: nat :: v.Spawn(n) == w.Spawn(n).(cost := v.Spawn(n).cost))
    && (forall n: nat :: v.Commit(n) == w.Commit(n))
    && v.declared == w.declared && v.passed == w.passed && v.reviewer == w.reviewer
  }

  lemma DearerIsAlike(w: World, i: nat, x: real)
    requires i < |w.agents|
    ensures Alike(w, Dearer(w, i, x))
  {
  }

  lemma {:induction false} SameChecks(w: World, v: World, commit: nat, n: nat)
    requires Alike(w, v) && n <= |w.declared|
    ensures ValidationOf(v, commit, n) == ValidationOf(w, commit, n)
  {
    if n > 0 { SameChecks(w, v, commit, n - 1); }
  }

  lemma {:induction false} SameCrashes(w: World, v: World, k: nat)
    requires Alike(w, v)
    ensures AllCrashed(v, k) == AllCrashed(w, k)
  {
    if k > 0 { SameCrashes(w, v, k - 1); }
  }

  lemma {:induction false} SameFixes(w: World, v: World, k: nat, f: nat)
    requires Alike(w, v)
    ensures AllFailing(v, f) == AllFailing(w, f) && AllCommitted(v, k, f) == AllCommitted(w, k, f)
  {
    if f > 0 {
      SameChecks(w, v, f - 1, |w.declared|);
      SameFixes(w, v, k, f - 1);
    }
  }

  // ---- One world, one course -----------------------------------------------------------

  /** A run of this world comes to a halt after `k` crash retries, `f` fixes and a review or
      none. */
  ghost predicate Course(w: World, kind: TaskKind, policy: RepoPolicy, k: nat, f: nat, review: bool) {
    && k <= policy.retry && f <= policy.fixChecks
    && AllCrashed(w, k) && AllFailing(w, f) && AllCommitted(w, k, f)
    && (f > 0 || review ==> Succeeded(w.Spawn(k)))
    && Halted(w, kind, policy, k, f, review)
  }

  lemma SameCourse(w: World, v: World, kind: TaskKind, policy: RepoPolicy, k: nat, f: nat, review: bool)
    requires Alike(w, v) && Course(v, kind, policy, k, f, review)
    ensures Course(w, kind, policy, k, f, review)
  {
    SameCrashes(w, v, k);
    SameFixes(w, v, k, f);
    SameChecks(w, v, f, |w.declared|);
    hide AllCrashed, AllFailing, AllCommitted, ValidationOf, AnyFailed;
  }

  lemma {:induction false} CrashedBefore(w: World, j: nat, k: nat)
    requires j < k && AllCrashed(w, k)
    ensures Crashed(w.Spawn(j))
  {
    if j < k - 1 { CrashedBefore(w, j, k - 1); }
  }

  lemma {:induction false} FixedBefore(w: World, k: nat, j: nat, f: nat)
    requires j < f && AllFailing(w, f) && AllCommitted(w, k, f)
    ensures w.Spawn(k + j).ending.Exits? && w.Commit(j).Ok? && AnyFailed(Validation(w, j))
  {
    if j < f - 1 { FixedBefore(w, k, j, f - 1); }
  }

  lemma NoEarlierHalt(w: World, kind: TaskKind, policy: RepoPolicy, k: nat, f: nat, review: bool, k': nat, f': nat,
                      review': bool)
    requires Course(w, kind, policy, k, f, review) && Course(w, kind, policy, k', f', review')
    ensures k >= k' && (k == k' ==> f >= f')
  {
    if k < k' { CrashedBefore(w, k, k'); }
    if k == k' && f < f' { FixedBefore(w, k, f, f'); }
  }

  lemma OneCourse(w: World, kind: TaskKind, policy: RepoPolicy, k: nat, f: nat, review: bool, k': nat, f': nat,
                  review': bool)
    requires Course(w, kind, policy, k, f, review) && Course(w, kind, policy, k', f', review')
    ensures k == k' && f == f' && review == review'
  {
    NoEarlierHalt(w, kind, policy, k, f, review, k', f', review');
    NoEarlierHalt(w, kind, policy, k', f', review', k, f, review);
  }

  // ---- What was spent ------------------------------------------------------------------

  lemma {:induction false} DearerBySpawn(w: World, i: nat, x: real, n: nat)
    requires i < |w.agents|
    ensures var ending := w.agents[i].ending;
            Spent(Dearer(w, i, x), n) ==
              Spent(w, n) + if i < n && !ending.NoBinary? && !ending.SpawnError? then x else 0.0
  {
    if n > 0 { DearerBySpawn(w, i, x, n - 1); }
  }

  lemma {:induction false} FreeSpawns(w: World, n: nat)
    requires forall i | 0 <= i < |w.agents| :: w.agents[i].cost == 0.0
    ensures Spent(w, n) == 0.0
  {
    if n > 0 { FreeSpawns(w, n - 1); }
  }

  // ---- Two runs ------------------------------------------------------------------------

  /** The same task under the same policy. */
  ghost predicate SameTask(a: Run, b: Run) {
    a.kind == b.kind && a.executor == b.executor && a.policy == b.policy
  }

  ghost predicate TookCourse(a: Run)
    reads a
  {
    && a.spawns == a.crashes + 1 + a.fixes + (if a.reviewed then 1 else 0)
    && Course(a.w, a.kind, a.policy, a.crashes, a.fixes, a.reviewed)
  }

  lemma OverTookCourse(a: Run, r: Result<(), string>)
    requires a.Over(r)
    ensures TookCourse(a) && a.cost == Spent(a.w, a.spawns)
  {
    hide Remembered, TallyOf, Run.Explains, Run.Broke, AllCrashed, AllFailing, AllCommitted, Spent;
  }

  lemma TookSameCourse(a: Run, b: Run)
    requires SameTask(a, b) && Alike(a.w, b.w) && TookCourse(a) && TookCourse(b)
    ensures a.crashes == b.crashes && a.fixes == b.fixes && a.reviewed == b.reviewed && a.spawns == b.spawns
  {
    hide Course;
    SameCourse(a.w, b.w, b.kind, b.policy, b.crashes, b.fixes, b.reviewed);
    OneCourse(a.w, a.kind, a.policy, a.crashes, a.fixes, a.reviewed, b.crashes, b.fixes, b.reviewed);
  }

  /** The same end, but for the cost a result carries. */
  ghost predicate SameEnd(e: TaskEvent, d: TaskEvent, cost: real) {
    if e.Completed? then d == TaskEvent.Completed(e.result.(cost := cost)) else d == e
  }

  lemma SameEnds(a: Run, b: Run, e: TaskEvent, d: TaskEvent)
    requires SameTask(a, b) && Alike(a.w, b.w) && a.spawns == b.spawns > 0
    requires a.crashes == b.crashes && a.fixes == b.fixes && a.reviewed == b.reviewed
    requires TookCourse(a) && a.Explains(e) && b.Explains(d)
    ensures SameEnd(e, d, b.cost) && (e.Completed? ==> e.result.cost == a.cost)
  {
    SameChecks(a.w, b.w, a.fixes, |a.w.declared|);
    hide AllCrashed, AllFailing, AllCommitted, ValidationOf, AnyFailed;
  }

  // An error and an announced end do not come from the same last spawn and commit.
  lemma NotBoth(a: Run, b: Run, error: string, e: TaskEvent)
    requires SameTask(a, b) && Alike(a.w, b.w) && a.spawns == b.spawns > 0
    requires a.crashes == b.crashes && a.fixes == b.fixes && a.reviewed == b.reviewed
    requires TookCourse(a) && (a.kind.PlanTask? ==> a.commits == 0)
    requires a.Broke(error)
    ensures !b.Explains(e)
  {
    assert a.Last().ending == b.Last().ending;
    assert a.w.Spawn(a.crashes).ending == b.w.Spawn(b.crashes).ending;
    hide AllCrashed, AllFailing, AllCommitted, Validation, AnyFailed, ReviewOf, World.Spawn;
  }

  lemma SameAnswer(a: Run, b: Run, r: Result<(), string>, s: Result<(), string>)
    requires SameTask(a, b) && Alike(a.w, b.w) && a.Over(r) && b.Over(s)
    requires a.crashes == b.crashes && a.fixes == b.fixes && a.reviewed == b.reviewed && a.spawns == b.spawns
    ensures r == s
  {
    OverTookCourse(a, r);
    OverTookCourse(b, s);
    hide TookCourse, Counted, Halted, Spent, Remembered, TallyOf;
    assert a.Last().ending == b.Last().ending;
    if r.Err? {
      forall e { NotBoth(a, b, r.error, e); }
      assert s.Err?;
    }
    if s.Err? {
      forall e { NotBoth(b, a, s.error, e); }
      assert r.Err?;
    }
    if r.Ok? {
      assert r.value == () == s.value;
    } else {
      assert b.w.Commit(a.fixes) == a.w.Commit(a.fixes);
    }
  }

  /** Two runs of one task in worlds that differ in what spawn `i` costs: they spawn as
      often and end the same way, and what they report to have cost differs by just that,
      whatever came of the spawn, if there was such a spawn and it started. */
  lemma EverySpawnIsPaidFor(a: Run, b: Run, i: nat, x: real, r: Result<(), string>, s: Result<(), string>)
    requires SameTask(a, b) && i < |a.w.agents| && b.w == Dearer(a.w, i, x)
    requires a.Over(r) && b.Over(s)
    ensures r == s && a.spawns == b.spawns
    ensures var ending := a.w.agents[i].ending;
            b.cost == a.cost + if i < a.spawns && !ending.NoBinary? && !ending.SpawnError? then x else 0.0
    ensures r.Ok? ==> |a.tally.ends| == |b.tally.ends| == 1 && SameEnd(a.tally.ends[0], b.tally.ends[0], b.cost)
    ensures r.Ok? && a.tally.ends[0].Completed? ==> a.tally.ends[0].result.cost == a.cost
  {
    DearerIsAlike(a.w, i, x);
    OverTookCourse(a, r);
    OverTookCourse(b, s);
    TookSameCourse(a, b);
    SameAnswer(a, b, r, s);
    DearerBySpawn(a.w, i, x, a.spawns);
    if r.Ok? { SameEnds(a, b, a.tally.ends[0], b.tally.ends[0]); }
  }

  /** Where nothing costs anything, nothing is reported. */
  lemma NothingSpentNothingReported(a: Run, r: Result<(), string>)
    requires a.Over(r) && forall i | 0 <= i < |a.w.agents| :: a.w.agents[i].cost == 0.0
    ensures a.cost == 0.0
    ensures r.Ok? && a.tally.ends[0].Completed? ==> a.tally.ends[0].result.cost == 0.0
  {
    hide Remembered, TallyOf, AllCrashed, AllFailing, AllCommitted, Spent;
    FreeSpawns(a.w, a.spawns);
  }

  // ---- How it ends -------------------------------------------------------------------

  /** The last spawn decides: what kept it from being waited for is the error returned, a kill
      is told for what it was, and of an exit the status or the parsed plan comes out, or the
      change that was committed after it. */
  lemma TheLastSpawnDecides(a: Run, r: Result<(), string>)
    requires a.Over(r) && a.spawns <= |a.w.agents|
    ensures a.spawns > 0
    ensures var last := a.w.agents[a.spawns - 1];
      match last.ending
      case NoBinary(error) => r == Err(error)
      case SpawnError(error) => r == Err(error)
      case PipeError(error) => r == Err(error)
      case WaitError(error) => r == Err(error)
      case CancelledHere => r.Ok? && a.tally.ends == [TaskEvent.Cancelled]
      case Interrupted(_) => r.Ok? && a.tally.ends == [TaskEvent.Cancelled]
      case OutOfTime => r.Ok? && a.tally.ends == [TimedOut(a.policy.timeoutSecs)]
      case Exits(status) =>
        if a.kind.RunTask? && a.commits > 0 then
          match r
          case Ok(_) => a.tally.ends[0].Completed?
          case Err(error) => a.commits <= |a.w.commits| ==> a.w.commits[a.commits - 1] == Err(error)
        else if status != 0 then
          r.Ok? && a.tally.ends == [TaskEvent.Failed(ExitedWith(a.executor, status))]
        else
          && r.Ok? && a.kind.PlanTask?
          && match last.plan
             case Ok(steps) => a.tally.ends[0].Completed? && a.tally.ends[0].result.plan == Some(steps)
             case Err(error) => a.tally.ends == [TaskEvent.Failed(Told(error))]
  {
    hide Remembered, TallyOf, AllCrashed, AllFailing, AllCommitted, Spent, Validation, AnyFailed;
  }

  lemma {:induction false} ChecksAsTheyWere(w: World, commit: nat, n: nat)
    requires n <= |w.declared|
    ensures var checks := ValidationOf(w, commit, n);
            && |checks| == n
            && forall i | 0 <= i < n ::
                 && checks[i].name == w.declared[i]
                 && (checks[i].ok <==> commit < |w.passed| && i < |w.passed[commit]| && w.passed[commit][i])
  {
    if n > 0 { ChecksAsTheyWere(w, commit, n - 1); }
  }

  /** A change that is handed in is the last commit, with one result for each declared check
      in its order as run on that commit, and the reviewer's answer or exit status if it was
      to be reviewed and changes anything. */
  lemma WhatAChangeCarries(a: Run)
    requires a.Over(Ok(())) && a.kind.RunTask? && a.tally.ends[0].Completed? && a.spawns <= |a.w.agents|
    ensures var result := a.tally.ends[0].result;
      && 0 < a.commits <= |a.w.commits| && a.w.commits[a.commits - 1] == Ok(result.diff)
      && |result.validation| == |a.w.declared|
      && (forall i | 0 <= i < |a.w.declared| ::
            && result.validation[i].name == a.w.declared[i]
            && (result.validation[i].ok <==>
                  a.commits <= |a.w.passed| && i < |a.w.passed[a.commits - 1]| && a.w.passed[a.commits - 1][i]))
      && (result.review.Some? <==> a.policy.review && result.diff != "")
      && (result.review.Some? ==>
            var last := a.w.agents[a.spawns - 1];
            && result.review.value.executor == a.w.reviewer
            && last.ending.Exits?
            && result.review.value.body ==
                 if last.ending.status == 0 then Parsed(last.answer) else ReviewerFailed(last.ending.status))
  {
    hide Remembered, TallyOf, AllCrashed, AllFailing, AllCommitted, Spent, AnyFailed;
    ChecksAsTheyWere(a.w, a.commits - 1, |a.w.declared|);
  }
}
