/** A failure cascades through the tasks queued behind it
    (crates/orchestrator/src/plan.rs, `fail_dependents`, together with
    `apply_event` and `maybe_reassign` of state.rs, which call it back). */
module Cascade {
  import opened Protocol
  import opened Orders
  import opened Tasks

  type Table = map<TaskId, Task>

  predicate IsQueued(s: Table, u: TaskId) { u in s && s[u].status.Queued? }

  ghost predicate Waiting(s: Table, u: TaskId, id: TaskId) { IsQueued(s, u) && id in s[u].spec.dependsOn }

  function QueuedIds(s: Table): set<TaskId> { set u | u in s && s[u].status.Queued? }

  // ---- What one cascade may do to the table --------------------------------

  /** `u` was failed at least once on the way from `s` to `s'`: it ended failed,
      or was put back in the queue. */
  ghost predicate Hit(s: Table, s': Table, u: TaskId) {
    && IsQueued(s, u) && u in s'
    && (s'[u].status.Failed? || Requeues(s'[u].events) > Requeues(s[u].events))
  }

  // A task the cascade reached: failed over one of its own dependencies with no
  // retry left, or queued again within its limit.
  ghost predicate Settled(was: Task, now: Task, eligible: bool) {
    && now.spec == was.spec && now.result == was.result && now.createdAt == was.createdAt
    && Requeues(was.events) <= Requeues(now.events)
    && (Requeues(was.events) < Requeues(now.events) ==>
          eligible && Requeues(now.events) <= RetryLimit(was, TaskStatus.Failed))
    && (now.status.Queued? || (now.status.Failed? && !(eligible && RetriesLeft(now, TaskStatus.Failed)) && Blames(now)))
  }

  ghost predicate Blames(t: Task) {
    t.error.Some? && t.error.value.DependencyEnded? && t.error.value.id in t.spec.dependsOn
  }

  /** Only queued tasks are touched; what is touched is failed at least once. */
  ghost predicate Framed(s: Table, s': Table, eligible: set<TaskId>) {
    && s'.Keys == s.Keys
    && forall u | u in s ::
         s'[u] == s[u] || (Hit(s, s', u) && Settled(s[u], s'[u], u in eligible))
  }

  /** Whatever was failed tells how the dependency it blames ended: rejected, cancelled, or some
      other way, and one that was put back since had failed. */
  ghost predicate ToldHow(s: Table, s': Table) {
    forall u | u in s && u in s' && s'[u] != s[u] && s'[u].status.Failed? :: TellsHow(s', s'[u])
  }

  ghost predicate TellsHow(s: Table, t: Task) {
    && t.error.Some? && t.error.value.DependencyEnded? && t.error.value.id in s
    && var status := s[t.error.value.id].status;
    t.error.value.how == if status == Rejected then "rejected"
                         else if status == TaskStatus.Cancelled then "cancelled" else "failed"
  }

  lemma ToldTransitive(s: Table, m: Table, s': Table, eligible: set<TaskId>)
    requires Framed(s, m, eligible) && Framed(m, s', eligible) && ToldHow(s, m) && ToldHow(m, s')
    ensures ToldHow(s, s')
  {
    hide Requeues, RetryLimit, RetriesLeft, Blames;
    forall u | u in s && s'[u] != s[u] && s'[u].status.Failed? ensures TellsHow(s', s'[u]) {
      if s'[u] == m[u] { assert TellsHow(m, m[u]); }
    }
  }

  ghost predicate ClosedUnder(s: Table, s': Table) {
    forall u, v | Hit(s, s', u) && Waiting(s, v, u) :: Hit(s, s', v)
  }

  // ---- Reachability ---------------------------------------------------------

  /** Each task on the path is queued and waits for the one before it. */
  ghost predicate Path(s: Table, p: seq<TaskId>) {
    p != [] && forall i | 0 < i < |p| :: Waiting(s, p[i], p[i - 1])
  }

  ghost predicate Reaches(s: Table, id: TaskId, u: TaskId) {
    exists p :: Path(s, p) && |p| > 1 && p[0] == id && p[|p| - 1] == u
  }

  lemma ReachesDirectly(s: Table, id: TaskId, u: TaskId)
    requires Waiting(s, u, id)
    ensures Reaches(s, id, u)
  {
    assert Path(s, [id, u]);
  }

  lemma ReachesFurther(s: Table, id: TaskId, d: TaskId, u: TaskId)
    requires Waiting(s, d, id) && Reaches(s, d, u)
    ensures Reaches(s, id, u)
  {
    var p :| Path(s, p) && |p| > 1 && p[0] == d && p[|p| - 1] == u;
    assert Path(s, [id] + p);
  }

  /** Fewer queued tasks, fewer paths. */
  lemma ReachesInLarger(s: Table, t: Table, id: TaskId, u: TaskId)
    requires forall v | IsQueued(s, v) :: IsQueued(t, v) && t[v].spec == s[v].spec
    requires Reaches(s, id, u)
    ensures Reaches(t, id, u)
  {
    var p :| Path(s, p) && |p| > 1 && p[0] == id && p[|p| - 1] == u;
    assert Path(t, p);
  }

  /** What `fail_dependents(id)` promises. */
  ghost predicate Cascaded(s: Table, s': Table, id: TaskId, eligible: set<TaskId>) {
    && Framed(s, s', eligible) && ClosedUnder(s, s') && ToldHow(s, s')
    && (forall u | Waiting(s, u, id) :: Hit(s, s', u))
    && (forall u | Hit(s, s', u) :: Reaches(s, id, u))
  }

  lemma {:induction false} AlongThePath(s: Table, s': Table, id: TaskId, eligible: set<TaskId>, p: seq<TaskId>, n: nat)
    requires Cascaded(s, s', id, eligible) && Path(s, p) && p[0] == id && 0 < n < |p|
    ensures Hit(s, s', p[n])
  {
    assert Waiting(s, p[n], p[n - 1]);
    if n > 1 { AlongThePath(s, s', id, eligible, p, n - 1); }
  }

  /** The cascade reaches exactly the queued tasks that transitively wait for
      `id`; nobody else's record changes at all. */
  lemma HitExactlyTheReachable(s: Table, s': Table, id: TaskId, eligible: set<TaskId>)
    requires Cascaded(s, s', id, eligible)
    ensures forall u :: Hit(s, s', u) <==> Reaches(s, id, u)
    ensures forall u | u in s && !Reaches(s, id, u) :: s'[u] == s[u]
  {
    forall u | Reaches(s, id, u) ensures Hit(s, s', u) {
      var p :| Path(s, p) && |p| > 1 && p[0] == id && p[|p| - 1] == u;
      AlongThePath(s, s', id, eligible, p, |p| - 1);
    }
  }

  /** The documented behaviour: every waiting task ends failed, none is put back. */
  ghost predicate FailsThemAll(s: Table, s': Table, id: TaskId) {
    forall u | Reaches(s, id, u) ::
      u in s && u in s' && s'[u].status.Failed? && Requeues(s'[u].events) == Requeues(s[u].events)
  }

  /** `fail_dependents` says it fails every task waiting on `id`. A dependent
      that completed a run under a `reassign` policy is put back in the queue
      instead, so it does what it says exactly when no reachable task has a
      retry left. */
  lemma FailsThemAllIff(s: Table, s': Table, id: TaskId, eligible: set<TaskId>)
    requires Cascaded(s, s', id, eligible)
    ensures FailsThemAll(s, s', id) <==>
              forall u | Reaches(s, id, u) :: u in s && !(u in eligible && RetriesLeft(s[u], TaskStatus.Failed))
  {
    HitExactlyTheReachable(s, s', id, eligible);
    forall u | Reaches(s, id, u) ensures Hit(s, s', u) && Settled(s[u], s'[u], u in eligible) {
      assert Hit(s, s', u);
    }
  }

  // ---- Composing steps -------------------------------------------------------

  lemma ClosedTransitive(s: Table, m: Table, s': Table, eligible: set<TaskId>)
    requires Framed(s, m, eligible) && Framed(m, s', eligible)
    requires ClosedUnder(s, m) && ClosedUnder(m, s')
    ensures ClosedUnder(s, s')
  {
    forall u, v | Hit(s, s', u) && Waiting(s, v, u) ensures Hit(s, s', v) {
      if Hit(s, m, u) {
        assert Hit(s, m, v);
      } else if m[v] == s[v] {
        assert Waiting(m, v, u);
      }
    }
  }

  // ---- One dependent at a time -----------------------------------------------

  /** Failing the queued task `d` hits it and what it can reach. */
  ghost predicate CascadedFrom(s: Table, s': Table, d: TaskId, eligible: set<TaskId>) {
    && Framed(s, s', eligible) && ClosedUnder(s, s') && ToldHow(s, s') && Hit(s, s', d)
    && (forall u | Hit(s, s', u) :: u == d || Reaches(s, d, u))
  }

  /** What `apply_event` does: the event is applied to the task; if that ended
      it badly, its dependents fail, and it may then be put back itself. */
  ghost predicate EventApplied(s: Table, s': Table, id: TaskId, event: TaskEvent, eligible: set<TaskId>) {
    if id !in s then s' == s
    else
      var t := Applied(s[id], event);
      var moved := s[id := t];
      if IsTerminal(s[id].status) || !BadEnd(t.status) then s' == moved
      else
        exists m :: Cascaded(moved, m, id, eligible) && m[id] == t &&
          s' == (if id in eligible && RetriesLeft(t, t.status) then m[id := PutBack(t)] else m)
  }

  // The task that failed first, as it is left: down for good or back in the queue.
  function Left(t: Task, eligible: bool): Task {
    if eligible && RetriesLeft(t, TaskStatus.Failed) then PutBack(t) else t
  }

  lemma LeftSettled(was: Task, event: TaskEvent, eligible: bool)
    requires was.status.Queued? && event.Failed? && Blames(Applied(was, event))
    ensures var now := Left(Applied(was, event), eligible);
            && Settled(was, now, eligible)
            && (now.status.Failed? || Requeues(now.events) > Requeues(was.events))
  {
    hide Requeues;
    RequeuesSnoc(was.events, event);
    RequeuesSnoc(was.events + [event], TaskEvent.Requeued);
  }

  // The event blames a task that is no longer queued for how it ended.
  ghost predicate Answerable(s: Table, event: TaskEvent) {
    && event.Failed? && event.error.DependencyEnded? && event.error.id in s && !IsQueued(s, event.error.id)
    && event.error.how == WireStatus(s[event.error.id].status)
  }

  lemma ToldAfter(s: Table, m: Table, d: TaskId, t: Task, event: TaskEvent, eligible: set<TaskId>)
    requires IsQueued(s, d) && event.Failed? && t == Applied(s[d], event) && Answerable(s, event)
    requires Cascaded(s[d := t], m, d, eligible) && m[d] == t
    ensures ToldHow(s, m[d := Left(t, d in eligible)])
  {
    hide Settled, Requeues, RetryLimit, RetriesLeft, Blames, Reaches, ClosedUnder, Waiting;
    var moved, s', e := s[d := t], m[d := Left(t, d in eligible)], event.error.id;
    FailedByEvent(s[d], event);
    assert t.error == Some(event.error);
    assert !Hit(moved, m, e) && m[e] == s[e];
    forall u | u in s && s'[u] != s[u] && s'[u].status.Failed? ensures TellsHow(s', s'[u]) {
      if u != d { assert TellsHow(m, m[u]); }
    }
  }

  lemma SameHits(s: Table, m: Table, d: TaskId, t: Task, event: TaskEvent, eligible: set<TaskId>)
    requires IsQueued(s, d) && event.Failed? && t == Applied(s[d], event) && Blames(t)
    requires Framed(s[d := t], m, eligible) && m[d] == t
    ensures var s' := m[d := Left(t, d in eligible)];
            Hit(s, s', d) && (forall u | u != d :: Hit(s, s', u) <==> Hit(s[d := t], m, u)) && Framed(s, s', eligible)
  {
    hide Settled, Requeues, RetryLimit, RetriesLeft, Left, Applied, Blames;
    var moved := s[d := t];
    var s' := m[d := Left(t, d in eligible)];
    LeftSettled(s[d], event, d in eligible);
    assert t.status.Failed? by { FailedByEvent(s[d], event); }
    assert forall u | u != d && IsQueued(s, u) :: IsQueued(moved, u) && moved[u] == s[u];
    assert forall u | u != d && u in m :: s'[u] == m[u];
    assert forall u | u != d :: Hit(s, s', u) <==> Hit(moved, m, u);
  }

  lemma PutBackAfter(s: Table, m: Table, d: TaskId, t: Task, event: TaskEvent, eligible: set<TaskId>)
    requires IsQueued(s, d) && event.Failed? && t == Applied(s[d], event) && Blames(t)
    requires Cascaded(s[d := t], m, d, eligible) && m[d] == t
    requires Answerable(s, event)
    ensures CascadedFrom(s, m[d := Left(t, d in eligible)], d, eligible)
  {
    ToldAfter(s, m, d, t, event, eligible);
    SameHits(s, m, d, t, event, eligible);
    assert t.status.Failed? by { FailedByEvent(s[d], event); }
    hide Framed, Hit, Left, Applied, Blames, Reaches, ToldHow, Answerable;
    var moved := s[d := t];
    var s' := m[d := Left(t, d in eligible)];
    assert forall u | u != d && IsQueued(moved, u) :: IsQueued(s, u) && moved[u] == s[u];
    forall u | Hit(s, s', u) && u != d ensures Reaches(s, d, u) {
      ReachesInLarger(moved, s, d, u);
    }
    forall u, v | Hit(s, s', u) && Waiting(s, v, u) ensures Hit(s, s', v) {
      if v != d { assert Waiting(moved, v, u); }
    }
  }

  lemma FailedByEvent(was: Task, event: TaskEvent)
    requires was.status.Queued? && event.Failed?
    ensures Applied(was, event).status.Failed?
  {
  }

  lemma NothingApplied(s: Table, id: TaskId, event: TaskEvent, eligible: set<TaskId>)
    requires id !in s
    ensures EventApplied(s, s, id, event, eligible)
  {
  }

  lemma JustApplied(s: Table, id: TaskId, event: TaskEvent, eligible: set<TaskId>)
    requires id in s && (IsTerminal(s[id].status) || !BadEnd(Applied(s[id], event).status))
    ensures EventApplied(s, s[id := Applied(s[id], event)], id, event, eligible)
  {
    hide Applied, Cascaded;
  }

  lemma BadlyApplied(s: Table, m: Table, s': Table, id: TaskId, event: TaskEvent, eligible: set<TaskId>)
    requires id in s && !IsTerminal(s[id].status) && BadEnd(Applied(s[id], event).status)
    requires Cascaded(s[id := Applied(s[id], event)], m, id, eligible) && id in m && m[id] == Applied(s[id], event)
    requires s' == if id in eligible && RetriesLeft(m[id], m[id].status) then m[id := PutBack(m[id])] else m
    ensures EventApplied(s, s', id, event, eligible)
  {
    hide Applied, Cascaded, RetriesLeft, PutBack;
  }

  // The table after the dependents and before the retry.
  lemma Between(s: Table, s': Table, id: TaskId, event: TaskEvent, eligible: set<TaskId>) returns (m: Table)
    requires EventApplied(s, s', id, event, eligible)
    requires id in s && !IsTerminal(s[id].status) && BadEnd(Applied(s[id], event).status)
    ensures var t := Applied(s[id], event);
            && m.Keys == s.Keys && Cascaded(s[id := t], m, id, eligible) && m[id] == t
            && s' == (if id in eligible && RetriesLeft(t, t.status) then m[id := PutBack(t)] else m)
  {
    hide Applied, RetriesLeft, PutBack, Hit, Settled, ClosedUnder, Reaches;
    var t := Applied(s[id], event);
    m :| Cascaded(s[id := t], m, id, eligible) && m[id] == t &&
      s' == (if id in eligible && RetriesLeft(t, t.status) then m[id := PutBack(t)] else m);
  }

  lemma FailingOne(s: Table, s': Table, d: TaskId, event: TaskEvent, eligible: set<TaskId>)
    requires IsQueued(s, d) && EventApplied(s, s', d, event, eligible)
    requires Answerable(s, event) && event.error.id in s[d].spec.dependsOn
    ensures CascadedFrom(s, s', d, eligible)
  {
    hide Cascaded, CascadedFrom, RetriesLeft, PutBack;
    var t := Applied(s[d], event);
    FailedByEvent(s[d], event);
    hide Applied;
    var m := Between(s, s', d, event, eligible);
    assert m == m[d := t];
    PutBackAfter(s, m, d, t, event, eligible);
  }

  // The first `j` dependents have been dealt with.
  ghost predicate Underway(s: Table, m: Table, id: TaskId, eligible: set<TaskId>, blocked: seq<TaskId>, j: nat) {
    && j <= |blocked|
    && Framed(s, m, eligible) && ClosedUnder(s, m) && ToldHow(s, m)
    && (forall u | Hit(s, m, u) :: Reaches(s, id, u))
    && (forall k | 0 <= k < j :: Hit(s, m, blocked[k]))
  }

  lemma NextDependent(s: Table, m: Table, s': Table, id: TaskId, eligible: set<TaskId>, blocked: seq<TaskId>, j: nat)
    requires Underway(s, m, id, eligible, blocked, j) && j < |blocked| && Waiting(s, blocked[j], id)
    requires CascadedFrom(m, s', blocked[j], eligible)
    ensures Underway(s, s', id, eligible, blocked, j + 1)
  {
    var d := blocked[j];
    ClosedTransitive(s, m, s', eligible);
    ToldTransitive(s, m, s', eligible);
    hide ToldHow, RetryLimit, RetriesLeft, Blames, Reaches;
    forall k | 0 <= k < j ensures Hit(s, s', blocked[k]) { }
    forall v | IsQueued(m, v) ensures IsQueued(s, v) && s[v].spec == m[v].spec { }
    forall u | Hit(s, s', u) ensures Reaches(s, id, u) {
      if !Hit(s, m, u) {
        if u == d {
          ReachesDirectly(s, id, d);
        } else {
          ReachesInLarger(m, s, d, u);
          ReachesFurther(s, id, d, u);
        }
      }
    }
  }

  lemma AlreadyTold(s: Table, m: Table, d: TaskId, event: TaskEvent, eligible: set<TaskId>)
    requires Framed(s, m, eligible) && ToldHow(s, m) && d in m && m[d].status.Failed? && event.Failed? && m[d] != s[d]
    ensures ToldHow(s, m[d := Applied(m[d], event)])
  {
    hide Settled, Hit;
    var s' := m[d := Applied(m[d], event)];
    forall u | u in s && s'[u] != s[u] && s'[u].status.Failed? ensures TellsHow(s', s'[u]) {
      assert TellsHow(m, m[u]);
    }
  }

  /** A dependent that an earlier one already took down only logs the event. */
  lemma AlreadyDown(s: Table, m: Table, id: TaskId, eligible: set<TaskId>, blocked: seq<TaskId>, j: nat,
                    event: TaskEvent)
    requires Underway(s, m, id, eligible, blocked, j) && j < |blocked| && Waiting(s, blocked[j], id)
    requires !IsQueued(m, blocked[j]) && event.Failed?
    ensures Underway(s, m[blocked[j] := Applied(m[blocked[j]], event)], id, eligible, blocked, j + 1)
  {
    var d := blocked[j];
    assert Hit(s, m, d) && m[d].status.Failed?;
    AlreadyTold(s, m, d, event, eligible);
    LoggedOnly(s, m, d, event, eligible);
    hide Framed, Hit, ToldHow, Reaches, Applied;
    var s' := m[d := Applied(m[d], event)];
    assert ClosedUnder(s, s');
  }

  lemma LoggedOnly(s: Table, m: Table, d: TaskId, event: TaskEvent, eligible: set<TaskId>)
    requires Framed(s, m, eligible) && Hit(s, m, d) && m[d].status.Failed? && event.Failed?
    ensures var s' := m[d := Applied(m[d], event)];
            Framed(s, s', eligible) && forall u :: Hit(s, s', u) <==> Hit(s, m, u)
  {
    RequeuesSnoc(m[d].events, event);
    hide Requeues, RetryLimit, Blames;
    var now := Applied(m[d], event);
    assert now == m[d].(events := m[d].events + [event]);
    hide Applied;
    var s' := m[d := now];
    forall u ensures Hit(s, s', u) <==> Hit(s, m, u) { }
    forall u | u in s ensures s'[u] == s[u] || (Hit(s, s', u) && Settled(s[u], s'[u], u in eligible)) {
      assert m[u] == s[u] || Hit(s, m, u);
    }
  }

  class State {
    var tasks: Table
    // The tasks `check_eligible` would accept again; nothing here changes that.
    const eligible: set<TaskId>

    constructor (tasks: Table, eligible: set<TaskId>)
      ensures this.tasks == tasks && this.eligible == eligible
    {
      this.tasks, this.eligible := tasks, eligible;
    }

    /** The queued tasks waiting on `id`, in id order. */
    method Blocked(id: TaskId) returns (blocked: seq<TaskId>)
      ensures forall u :: u in blocked <==> Waiting(tasks, u, id)
      ensures SortedBy(StringLe, blocked)
    {
      var found: seq<TaskId> := [];
      var rest := tasks.Keys;
      while rest != {}
        invariant rest <= tasks.Keys
        invariant forall u :: u in found <==> u !in rest && Waiting(tasks, u, id)
        decreases rest
      {
        var u :| u in rest;
        rest := rest - {u};
        if tasks[u].status.Queued? && id in tasks[u].spec.dependsOn {
          found := found + [u];
        }
      }
      blocked := Sort(StringLe, found);
      StringLeIsTotalOrder();
      SortSorted(StringLe, found);
      SortContents(StringLe, found);
      forall u ensures u in blocked <==> u in found {
        assert u in multiset(blocked) <==> u in multiset(found);
      }
    }

    /** The tasks waiting on `id` are taken one by one; calling `ApplyEvent` for each may
        already have failed those further on. Fewer are queued at every call. */
    method FailDependents(id: TaskId) returns (changed: seq<TaskId>)
      requires !IsQueued(tasks, id)
      modifies this`tasks
      ensures if id in old(tasks) then Cascaded(old(tasks), tasks, id, eligible) else tasks == old(tasks)
      ensures Reports(old(tasks), tasks, changed)
      decreases QueuedIds(tasks), 1, 0
    {
      hide Settled, Requeues, Reaches, Applied, Framed, ClosedUnder, Hit, EventApplied, CascadedFrom;
      changed := [];
      if id !in tasks {
        return;
      }
      var how := WireStatus(tasks[id].status);
      var blocked := Blocked(id);
      NobodyHit(tasks, id, eligible, blocked);
      for j := 0 to |blocked|
        invariant Underway(old(tasks), tasks, id, eligible, blocked, j)
        invariant Reports(old(tasks), tasks, changed)
      {
        ghost var before := tasks;
        var event := TaskEvent.Failed(DependencyEnded(id, how));
        StillThere(old(tasks), before, id, eligible, blocked, j);
        var more := ApplyEvent(blocked[j], event);
        if IsQueued(before, blocked[j]) {
          NotQueuedNotHit(old(tasks), before, id, eligible, blocked, j);
          FailingOne(before, tasks, blocked[j], event, eligible);
          NextDependent(old(tasks), before, tasks, id, eligible, blocked, j);
        } else {
          OnlyLogged(before, tasks, blocked[j], event, eligible);
          AlreadyDown(old(tasks), before, id, eligible, blocked, j, event);
        }
        changed := changed + more;
      }
    }

    /** Records an event, applies its transition, and fails what waited for a
        task that has just ended badly. A late event only adds to the log. */
    method ApplyEvent(id: TaskId, event: TaskEvent) returns (changed: seq<TaskId>)
      modifies this`tasks
      ensures EventApplied(old(tasks), tasks, id, event, eligible)
      ensures Reports(old(tasks), tasks, changed)
      decreases QueuedIds(tasks), if event.Requeued? || IsQueued(tasks, id) then 0 else 2, 0
    {
      hide Settled, Requeues, Reaches, Framed, ClosedUnder, Hit, Cascaded, RetriesLeft, PutBack, EventApplied;
      if id !in tasks {
        NothingApplied(tasks, id, event, eligible);
        return [];
      }
      var terminal := IsTerminal(tasks[id].status);
      tasks := tasks[id := Applied(tasks[id], event)];
      var status := tasks[id].status;
      changed := [id];
      if !terminal && BadEnd(status) {
        ghost var moved := tasks;
        LeavesTheQueue(old(tasks), id, event);
        var more := FailDependents(id);
        Untouched(moved, tasks, id, eligible);
        changed := changed + more;
        ghost var m := tasks;
        more := MaybeReassign(id, status);
        changed := changed + more;
        BadlyApplied(old(tasks), m, tasks, id, event, eligible);
      } else {
        JustApplied(old(tasks), id, event, eligible);
      }
    }

    /** `PutBack` or nothing. */
    method MaybeReassign(id: TaskId, status: TaskStatus) returns (changed: seq<TaskId>)
      requires id in tasks && tasks[id].status == status && BadEnd(status)
      modifies this`tasks
      ensures tasks == if id in eligible && RetriesLeft(old(tasks)[id], status)
                       then old(tasks)[id := PutBack(old(tasks)[id])] else old(tasks)
      ensures Reports(old(tasks), tasks, changed)
      decreases QueuedIds(tasks), 1, 1
    {
      hide Requeues;
      if !RetriesLeft(tasks[id], status) {
        return [];
      }
      var retried := Retry(id);
      changed := if retried.Some? then retried.value else [];
    }

    /** The one way out of a terminal status. Its `Requeued` moves no status, so nothing
        cascades. */
    method Retry(id: TaskId) returns (changed: Option<seq<TaskId>>)
      modifies this`tasks
      ensures changed.Some? <==>
                && id in old(tasks) && id in eligible
                && old(tasks)[id].status in
                     {TaskStatus.Failed, TaskStatus.TimedOut, TaskStatus.RunnerLost, TaskStatus.Cancelled}
      ensures tasks == if changed.Some? then old(tasks)[id := PutBack(old(tasks)[id])] else old(tasks)
      ensures changed.Some? ==> Reports(old(tasks), tasks, changed.value)
      decreases QueuedIds(tasks), 0, 1
    {
      if id !in tasks || !Retriable(tasks[id].status) || id !in eligible {
        return None;
      }
      var more := ApplyEvent(id, TaskEvent.Requeued);
      tasks := tasks[id := tasks[id].(status := Queued, error := None)];
      return Some(more + [id]);
    }
  }

  /** Every task that changed is handed back to be persisted. */
  ghost predicate Reports(s: Table, s': Table, changed: seq<TaskId>) {
    && s'.Keys == s.Keys
    && forall u | u in s && s'[u] != s[u] :: u in changed
  }

  predicate Retriable(s: TaskStatus) { s.Failed? || s.TimedOut? || s.RunnerLost? || s.Cancelled? }

  lemma NotQueuedNotHit(s: Table, m: Table, id: TaskId, eligible: set<TaskId>, blocked: seq<TaskId>, j: nat)
    requires Underway(s, m, id, eligible, blocked, j) && id in s && !IsQueued(s, id)
    ensures id in m && m[id] == s[id]
  {
  }

  lemma NobodyHit(s: Table, id: TaskId, eligible: set<TaskId>, blocked: seq<TaskId>)
    ensures Underway(s, s, id, eligible, blocked, 0)
  {
  }

  lemma OnlyLogged(s: Table, s': Table, d: TaskId, event: TaskEvent, eligible: set<TaskId>)
    requires d in s && s[d].status.Failed? && EventApplied(s, s', d, event, eligible)
    ensures s' == s[d := Applied(s[d], event)]
  {
  }

  lemma LeavesTheQueue(s: Table, id: TaskId, event: TaskEvent)
    requires id in s && !Applied(s[id], event).status.Queued?
    ensures var q := QueuedIds(s[id := Applied(s[id], event)]);
            if IsQueued(s, id) then q < QueuedIds(s) else q == QueuedIds(s)
  {
    var q := QueuedIds(s[id := Applied(s[id], event)]);
    assert forall u :: u in q <==> u in QueuedIds(s) && u != id;
    assert id in QueuedIds(s) <==> IsQueued(s, id);
  }

  lemma StillThere(s: Table, m: Table, id: TaskId, eligible: set<TaskId>, blocked: seq<TaskId>, j: nat)
    requires Underway(s, m, id, eligible, blocked, j) && j < |blocked| && Waiting(s, blocked[j], id)
    ensures blocked[j] in m && (m[blocked[j]].status.Queued? || m[blocked[j]].status.Failed?)
    ensures IsQueued(m, blocked[j]) ==> Waiting(m, blocked[j], id)
    ensures QueuedIds(m) <= QueuedIds(s)
    ensures !IsQueued(m, blocked[j]) ==> QueuedIds(m) < QueuedIds(s)
  {
    assert blocked[j] in QueuedIds(s);
  }

  lemma Untouched(s: Table, s': Table, id: TaskId, eligible: set<TaskId>)
    requires Cascaded(s, s', id, eligible) && id in s && !IsQueued(s, id)
    ensures id in s' && s'[id] == s[id] && QueuedIds(s') <= QueuedIds(s)
  {
  }

  /** Part of the error that the failed dependents carry. */
  function WireStatus(s: TaskStatus): string {
    match s
    case Rejected => "rejected"
    case Cancelled => "cancelled"
    case _ => "failed"
  }

  // ---- What callers of `apply_event` see --------------------------------------

  /** Ending a task badly changes exactly the tasks that transitively wait for
      it, and the task itself. */
  lemma EndingOneTask(s: Table, s': Table, id: TaskId, event: TaskEvent, eligible: set<TaskId>)
    requires EventApplied(s, s', id, event, eligible)
    requires id in s && !IsTerminal(s[id].status) && BadEnd(Applied(s[id], event).status)
    ensures var t := Applied(s[id], event);
            var moved := s[id := t];
            && s'.Keys == s.Keys
            && s'[id] == (if id in eligible && RetriesLeft(t, t.status) then PutBack(t) else t)
            && (forall u | u in s && u != id :: Hit(moved, s', u) <==> Reaches(moved, id, u))
            && (forall u | u in s && u != id && !Reaches(moved, id, u) :: s'[u] == s[u])
  {
    hide Applied, Cascaded, RetriesLeft, PutBack, Reaches, EventApplied;
    var moved := s[id := Applied(s[id], event)];
    var m := Between(s, s', id, event, eligible);
    HitExactlyTheReachable(moved, m, id, eligible);
    assert forall u | u != id && u in m :: s'[u] == m[u];
    assert forall u | u != id :: Hit(moved, s', u) <==> Hit(moved, m, u);
  }

  // A dependent with no retry left stays down.
  lemma StaysDown(s: Table, m: Table, id: TaskId, eligible: set<TaskId>, u: TaskId)
    requires Cascaded(s, m, id, eligible) && Waiting(s, u, id) && !RetriesLeft(s[u], TaskStatus.Failed)
    ensures u in m && m[u].status.Failed?
  {
    hide Requeues, Reaches, ClosedUnder, Blames;
    assert Hit(s, m, u);
    assert Settled(s[u], m[u], u in eligible);
  }

  /** A lost runner's task is tried once more by default, but the tasks queued
      behind it have already been failed over it. */
  lemma LostRunnerFailsTheQueueBehindATaskItRetries(s: Table, s': Table, id: TaskId, eligible: set<TaskId>, u: TaskId)
    requires EventApplied(s, s', id, TaskEvent.RunnerLost, eligible)
    requires id in s && !IsTerminal(s[id].status) && s[id].result.None? && Requeues(s[id].events) == 0 && id in eligible
    requires u != id && Waiting(s, u, id) && !RetriesLeft(s[u], TaskStatus.Failed)
    ensures id in s' && s'[id].status.Queued?
    ensures u in s' && s'[u].status.Failed?
  {
    hide Cascaded, EventApplied, Requeues;
    var t := Applied(s[id], TaskEvent.RunnerLost);
    RequeuesSnoc(s[id].events, TaskEvent.RunnerLost);
    var m := Between(s, s', id, TaskEvent.RunnerLost, eligible);
    assert RetriesLeft(t, t.status);
    hide RetriesLeft, Applied;
    StaysDown(s[id := t], m, id, eligible, u);
  }

  // ---- A dependent that is put back ------------------------------------------------------

  /** A task as a list of events leaves it, each put in the queue again by a retry. */
  function Lived(t: Task, events: seq<TaskEvent>): Task {
    if events == [] then t
    else
      var before, e := Lived(t, events[..|events| - 1]), events[|events| - 1];
      if e.Requeued? then PutBack(before) else Applied(before, e)
  }

  /** A queued task with a result has been put back before. */
  ghost predicate OnceRequeued(t: Task) { t.status.Queued? && t.result.Some? ==> Requeues(t.events) > 0 }

  lemma {:induction false} ResultsComeFromRuns(t: Task, events: seq<TaskEvent>)
    requires OnceRequeued(t)
    ensures OnceRequeued(Lived(t, events))
  {
    if events != [] {
      var before, e := Lived(t, events[..|events| - 1]), events[|events| - 1];
      ResultsComeFromRuns(t, events[..|events| - 1]);
      RequeuesSnoc(before.events, e);
      RequeuesSnoc(before.events, TaskEvent.Requeued);
    }
  }

  // A new task of a plan.
  function Created(dependsOn: seq<TaskId>): Task {
    var settings := Settings("repo", Claude, None, None, None, [], None, None, None, None, None, None, None, []);
    Task(Spec(RunKind, settings, "", "main", None, dependsOn, OnCompleted), Queued, 0, None, None, [])
  }

  const DONE := TaskResult("diff", [], None, None, Some(Policy(2)), 0.0)

  function Ran(t: Task): Task { Applied(Applied(t, Started(None, [])), TaskEvent.Completed(DONE)) }

  // Asked for more and failed at it.
  function FailedAtMore(t: Task): Task {
    Applied(Applied(Applied(t, Message("more")), Started(None, [])), TaskEvent.Failed(Told("crashed")))
  }

  // `a` completed and was rejected. In between `b` completed a run under `reassign = 2`,
  // failed at a follow-up, and was put back for its first retry.
  function Reassignable(a: TaskId, b: TaskId): Table {
    map[a := Applied(Ran(Created([])), Discarded), b := PutBack(FailedAtMore(Ran(Created([a]))))]
  }

  lemma RanOnce(t: Task)
    requires t.status.Queued?
    ensures var now := Ran(t);
            now.status == AwaitingReview && now.result == Some(DONE) && now.spec == t.spec
              && Requeues(now.events) == Requeues(t.events)
  {
    hide Requeues;
    RequeuesSnoc(t.events, Started(None, []));
    RequeuesSnoc(t.events + [Started(None, [])], TaskEvent.Completed(DONE));
  }

  lemma FailedThen(t: Task)
    requires t.status.AwaitingReview?
    ensures var now := PutBack(FailedAtMore(t));
            now.status == Queued && now.result == t.result && now.spec == t.spec
              && Requeues(now.events) == Requeues(t.events) + 1
  {
    hide Requeues;
    var more, again, end := Message("more"), Started(None, []), TaskEvent.Failed(Told("crashed"));
    RequeuesSnoc(t.events, more);
    RequeuesSnoc(t.events + [more], again);
    RequeuesSnoc(t.events + [more] + [again], end);
    RequeuesSnoc(t.events + [more] + [again] + [end], TaskEvent.Requeued);
  }

  lemma CreatedIs(dependsOn: seq<TaskId>)
    ensures var t := Created(dependsOn); t.status == Queued && t.spec.dependsOn == dependsOn && Requeues(t.events) == 0
  {
  }

  lemma ReassignableIs(a: TaskId, b: TaskId)
    requires a != b
    ensures var s := Reassignable(a, b);
            && s[a].status == Rejected && s[b].status == Queued
            && s[b].spec.dependsOn == [a] && s[b].result == Some(DONE) && RetriesLeft(s[b], TaskStatus.Failed)
  {
    hide Ran, FailedAtMore, PutBack, Requeues, Created;
    CreatedIs([]);
    CreatedIs([a]);
    RanOnce(Created([]));
    RanOnce(Created([a]));
    FailedThen(Ran(Created([a])));
  }

  /** One such dependent is enough for the promise to fail. */
  lemma OneReassignableDependentIsNotFailed(a: TaskId, b: TaskId, s': Table)
    requires a != b && Cascaded(Reassignable(a, b), s', a, {b})
    ensures !FailsThemAll(Reassignable(a, b), s', a)
  {
    var s := Reassignable(a, b);
    ReassignableIs(a, b);
    hide Reassignable, RetriesLeft, Cascaded, Requeues;
    assert Waiting(s, b, a);
    ReachesDirectly(s, a, b);
    FailsThemAllIff(s, s', a, {b});
  }

  lemma BlockedAlongThePath(s: Table, s': Table, id: TaskId, eligible: set<TaskId>, p: seq<TaskId>, n: nat)
    requires Cascaded(s, s', id, eligible) && id in s && BadEnd(s[id].status)
    requires Path(s, p) && p[0] == id && n < |p|
    ensures p[n] in s' && forall c: DependsOn :: !Met(c, s'[p[n]].status)
  {
    if n > 0 {
      AlongThePath(s, s', id, eligible, p, n);
    } else {
      assert !Hit(s, s', id);
    }
  }

  /** A dependent that is put back is not ready when the cascade ends: it still waits for
      a task that ended badly, or for one that was itself put back to wait. */
  lemma PutBackDependentsAreBlocked(s: Table, s': Table, id: TaskId, eligible: set<TaskId>, u: TaskId)
    requires Cascaded(s, s', id, eligible) && id in s && BadEnd(s[id].status)
    requires Hit(s, s', u) && s'[u].status.Queued?
    ensures exists d :: d in s'[u].spec.dependsOn && d in s' && !Met(s'[u].spec.condition, s'[d].status)
  {
    var p :| Path(s, p) && |p| > 1 && p[0] == id && p[|p| - 1] == u;
    BlockedAlongThePath(s, s', id, eligible, p, |p| - 2);
    assert Waiting(s, p[|p| - 1], p[|p| - 2]);
    assert s'[u].spec == s[u].spec;
  }
}
