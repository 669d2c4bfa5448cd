/** Approving a plan (crates/orchestrator/src/plan.rs): a task is created for each step, and
    step keys become task ids. */
module Plans {
  import opened Protocol
  import opened Tasks
  import opened Cascade
  import opened Ids

  datatype CmdError = NotFound | Conflict(why: string)

  // ---- Keys --------------------------------------------------------------------

  /** The latest step before `i` that goes by `key`. */
  function LatestBefore(steps: seq<PlanStep>, i: nat, key: string): (j: Option<nat>)
    requires i <= |steps|
    ensures j.Some? ==> j.value < i && steps[j.value].key == key
    ensures j.Some? ==> forall k | j.value < k < i :: steps[k].key != key
    ensures j.None? ==> forall k | 0 <= k < i :: steps[k].key != key
  {
    if i == 0 then None
    else if steps[i - 1].key == key then Some(i - 1)
    else LatestBefore(steps, i - 1, key)
  }

  ghost predicate Known(steps: seq<PlanStep>, i: nat)
    requires i < |steps|
  {
    forall key | key in steps[i].dependsOn :: LatestBefore(steps, i, key).Some?
  }

  /** Accepted if every step is `Known`. */
  method CheckStepKeys(steps: seq<PlanStep>) returns (r: Result<(), CmdError>)
    ensures r.Ok? <==> forall i | 0 <= i < |steps| :: Known(steps, i)
    ensures r.Err? ==> r.error.Conflict?
  {
    var seen: set<string> := {};
    for i := 0 to |steps|
      invariant forall key :: key in seen <==> LatestBefore(steps, i, key).Some?
      invariant forall k | 0 <= k < i :: Known(steps, k)
    {
      for k := 0 to |steps[i].dependsOn|
        invariant forall n | 0 <= n < k :: steps[i].dependsOn[n] in seen
      {
        if steps[i].dependsOn[k] !in seen {
          assert !Known(steps, i);
          return Err(Conflict("unknown step key " + steps[i].dependsOn[k]));
        }
      }
      seen := seen + {steps[i].key};
    }
    return Ok(());
  }

  // ---- Children ------------------------------------------------------------------

  /** The task ids the keys of step `i` stand for, in the order they are listed. */
  function Resolved(steps: seq<PlanStep>, kids: seq<TaskId>, i: nat, keys: seq<string>): seq<TaskId>
    requires i <= |steps| && i <= |kids|
  {
    if keys == [] then []
    else
      var j := LatestBefore(steps, i, keys[0]);
      (if j.Some? then [kids[j.value]] else []) + Resolved(steps, kids, i, keys[1..])
  }

  /** The branch of a lone dependency has been pushed by the time the child starts, unless
      completing was enough. */
  function ChildSpec(spec: Spec, step: PlanStep, dependsOn: seq<TaskId>, parent: TaskId): Spec {
    Spec(
      RunKind,
      spec.settings.(issue := None, linear := None, reviewExecutor := None, allowedHosts := []),
      step.title + "\n\n" + step.prompt,
      if !spec.condition.OnCompleted? && |dependsOn| == 1 then "lgtm/" + dependsOn[0] else spec.baseBranch,
      Some(parent),
      dependsOn,
      spec.condition)
  }

  function Child(spec: Spec, steps: seq<PlanStep>, kids: seq<TaskId>, parent: TaskId, now: nat, i: nat): Task
    requires i < |steps| && i <= |kids|
  {
    var dependsOn := Resolved(steps, kids, i, steps[i].dependsOn);
    Task(ChildSpec(spec, steps[i], dependsOn, parent), Queued, now + i, None, None, [])
  }

  ghost predicate Fresh(s: Table, kids: seq<TaskId>) {
    && (forall i | 0 <= i < |kids| :: kids[i] !in s)
    && (forall i, j | 0 <= i < j < |kids| :: kids[i] != kids[j])
  }

  /** The table after the first `|kids|` children: those, and nothing else, are new. */
  ghost predicate Grown(s: Table, s': Table, spec: Spec, steps: seq<PlanStep>, kids: seq<TaskId>, parent: TaskId,
                        now: nat) {
    && |kids| <= |steps| && Fresh(s, kids)
    && (forall u :: u in s' <==> u in s || u in kids)
    && (forall u | u in s :: s'[u] == s[u])
    && (forall i | 0 <= i < |kids| :: s'[kids[i]] == Child(spec, steps, kids, parent, now, i))
  }

  lemma {:induction false} ResolvedPrefix(steps: seq<PlanStep>, kids: seq<TaskId>, more: TaskId, i: nat,
                                          keys: seq<string>)
    requires i <= |steps| && i <= |kids|
    ensures Resolved(steps, kids + [more], i, keys) == Resolved(steps, kids, i, keys)
  {
    if keys != [] { ResolvedPrefix(steps, kids, more, i, keys[1..]); }
  }

  /** No key is dropped, and each stands for the latest earlier step of that key. */
  lemma {:induction false} EveryKeyResolves(steps: seq<PlanStep>, kids: seq<TaskId>, i: nat, keys: seq<string>)
    requires i <= |steps| && i <= |kids|
    requires forall key | key in keys :: LatestBefore(steps, i, key).Some?
    ensures var ids := Resolved(steps, kids, i, keys);
            && |ids| == |keys|
            && forall k | 0 <= k < |keys| :: ids[k] == kids[LatestBefore(steps, i, keys[k]).value]
  {
    if keys != [] { EveryKeyResolves(steps, kids, i, keys[1..]); }
  }

  lemma SameChild(spec: Spec, steps: seq<PlanStep>, kids: seq<TaskId>, parent: TaskId, now: nat, more: TaskId, i: nat)
    requires i < |steps| && i <= |kids|
    ensures Child(spec, steps, kids + [more], parent, now, i) == Child(spec, steps, kids, parent, now, i)
  {
    ResolvedPrefix(steps, kids, more, i, steps[i].dependsOn);
  }

  lemma GrownByOne(s: Table, m: Table, spec: Spec, steps: seq<PlanStep>, kids: seq<TaskId>, parent: TaskId, now: nat,
                   kid: TaskId)
    requires Grown(s, m, spec, steps, kids, parent, now) && |kids| < |steps| && kid !in m
    ensures Grown(s, m[kid := Child(spec, steps, kids, parent, now, |kids|)], spec, steps, kids + [kid], parent, now)
  {
    var more := kids + [kid];
    var s' := m[kid := Child(spec, steps, kids, parent, now, |kids|)];
    hide Child;
    forall i | 0 <= i < |more| ensures s'[more[i]] == Child(spec, steps, more, parent, now, i) {
      SameChild(spec, steps, kids, parent, now, kid, i);
    }
    assert forall i | 0 <= i < |kids| :: more[i] == kids[i];
  }

  // ---- Approval -------------------------------------------------------------------

  /** Why a plan is refused, if it is. */
  function Refusal(s: Table, id: TaskId): Option<CmdError> {
    if id !in s then Some(NotFound)
    else if !s[id].spec.kind.PlanKind? then Some(Conflict("task is not a plan"))
    else if !s[id].status.AwaitingReview? then Some(Conflict("task is not awaiting review"))
    else if s[id].result.None? || s[id].result.value.plan.None? then Some(Conflict("plan task has no plan"))
    else None
  }

  function PlanOf(s: Table, id: TaskId): seq<PlanStep>
    requires Refusal(s, id).None?
  {
    s[id].result.value.plan.value
  }

  /** Both outcomes of `approve_plan`: nothing at all, or one child per step. */
  ghost predicate Approval(s: Table, s': Table, id: TaskId, now: nat, r: Result<seq<TaskId>, CmdError>) {
    match r
    case Err(error) =>
      && s' == s
      && (if Refusal(s, id).Some? then error == Refusal(s, id).value
          else error.Conflict? && exists i | 0 <= i < |PlanOf(s, id)| :: !Known(PlanOf(s, id), i))
    case Ok(kids) =>
      && Refusal(s, id).None?
      && (forall i | 0 <= i < |PlanOf(s, id)| :: Known(PlanOf(s, id), i))
      && |kids| == |PlanOf(s, id)|
      && s[id].status.AwaitingReview?
      && exists m :: Grown(s, m, s[id].spec, PlanOf(s, id), kids, id, now) && s' == m[id := s[id].(status := Approved)]
  }

  /** Extends the table by a `Child` for each step. */
  method CreateChildren(state: State, id: TaskId, spec: Spec, steps: seq<PlanStep>, now: nat)
    returns (kids: seq<TaskId>)
    requires forall i | 0 <= i < |steps| :: Known(steps, i)
    modifies state`tasks
    ensures |kids| == |steps| && Grown(old(state.tasks), state.tasks, spec, steps, kids, id, now)
  {
    hide Child, Resolved, ChildSpec;
    var ids: map<string, TaskId> := map[];
    kids := [];
    assert Grown(state.tasks, state.tasks, spec, steps, kids, id, now);
    for i := 0 to |steps|
      invariant |kids| == i && Grown(old(state.tasks), state.tasks, spec, steps, kids, id, now)
      invariant ByKey(steps, kids, ids)
    {
      var dependsOn := Lookups(ids, steps[i].dependsOn);
      LookupsResolve(steps, kids, ids, steps[i].dependsOn);
      var kid := NewId(state.tasks.Keys);
      GrownByOne(old(state.tasks), state.tasks, spec, steps, kids, id, now, kid);
      ByKeyNext(steps, kids, ids, kid);
      ChildIs(spec, steps, kids, id, now, dependsOn);
      ids := ids[steps[i].key := kid];
      state.tasks :=
        state.tasks[kid := Task(ChildSpec(spec, steps[i], dependsOn, id), Queued, now + i, None, None, [])];
      kids := kids + [kid];
    }
  }

  // The map built so far takes a key to the latest child made for it.
  ghost predicate ByKey(steps: seq<PlanStep>, kids: seq<TaskId>, ids: map<string, TaskId>) {
    && |kids| <= |steps|
    && forall key ::
         var j := LatestBefore(steps, |kids|, key);
         (key in ids <==> j.Some?) && (key in ids ==> ids[key] == kids[j.value])
  }

  lemma ByKeyNext(steps: seq<PlanStep>, kids: seq<TaskId>, ids: map<string, TaskId>, kid: TaskId)
    requires ByKey(steps, kids, ids) && |kids| < |steps|
    ensures ByKey(steps, kids + [kid], ids[steps[|kids|].key := kid])
  {
  }

  function Lookups(ids: map<string, TaskId>, keys: seq<string>): seq<TaskId> {
    if keys == [] then []
    else (if keys[0] in ids then [ids[keys[0]]] else []) + Lookups(ids, keys[1..])
  }

  lemma {:induction false} LookupsResolve(steps: seq<PlanStep>, kids: seq<TaskId>, ids: map<string, TaskId>,
                                          keys: seq<string>)
    requires ByKey(steps, kids, ids)
    ensures Lookups(ids, keys) == Resolved(steps, kids, |kids|, keys)
  {
    if keys != [] { LookupsResolve(steps, kids, ids, keys[1..]); }
  }

  lemma ChildIs(spec: Spec, steps: seq<PlanStep>, kids: seq<TaskId>, parent: TaskId, now: nat, dependsOn: seq<TaskId>)
    requires |kids| < |steps| && dependsOn == Resolved(steps, kids, |kids|, steps[|kids|].dependsOn)
    ensures Child(spec, steps, kids, parent, now, |kids|) ==
              Task(ChildSpec(spec, steps[|kids|], dependsOn, parent), Queued, now + |kids|, None, None, [])
  {
  }

  /** All the refusals come before the first task is created. */
  method ApprovePlan(state: State, id: TaskId, now: nat) returns (r: Result<seq<TaskId>, CmdError>)
    modifies state`tasks
    ensures Approval(old(state.tasks), state.tasks, id, now, r)
  {
    hide Grown, Known;
    if id !in state.tasks {
      return Err(NotFound);
    }
    var task := state.tasks[id];
    if !task.spec.kind.PlanKind? {
      return Err(Conflict("task is not a plan"));
    }
    if !task.status.AwaitingReview? {
      return Err(Conflict("task is not awaiting review"));
    }
    if task.result.None? || task.result.value.plan.None? {
      return Err(Conflict("plan task has no plan"));
    }
    var steps := task.result.value.plan.value;
    assert steps == PlanOf(old(state.tasks), id);
    var checked := CheckStepKeys(steps);
    if checked.Err? {
      return Err(checked.error);
    }
    var kids := CreateChildren(state, id, task.spec, steps, now);
    ghost var grown := state.tasks;
    state.tasks := state.tasks[id := task.(status := Approved)];
    assert grown[id := old(state.tasks)[id].(status := Approved)] == state.tasks;
    return Ok(kids);
  }

  // ---- The graph ---------------------------------------------------------------------

  /** A walk from each task to one it depends on. */
  ghost predicate Walk(s: Table, p: seq<TaskId>) {
    forall i | 0 <= i < |p| - 1 :: p[i] in s && p[i + 1] in s[p[i]].spec.dependsOn
  }

  ghost predicate Acyclic(s: Table) {
    forall p | Walk(s, p) && |p| > 1 :: p[0] != p[|p| - 1]
  }

  ghost predicate IsKid(kids: seq<TaskId>, u: TaskId, i: nat) { i < |kids| && kids[i] == u }

  lemma {:induction false} ResolvedAreEarlier(steps: seq<PlanStep>, kids: seq<TaskId>, i: nat, keys: seq<string>)
    requires i <= |steps| && i <= |kids|
    ensures forall u | u in Resolved(steps, kids, i, keys) :: exists j: nat :: j < i && IsKid(kids, u, j)
  {
    if keys != [] {
      ResolvedAreEarlier(steps, kids, i, keys[1..]);
      var j := LatestBefore(steps, i, keys[0]);
      if j.Some? { assert IsKid(kids, kids[j.value], j.value); }
    }
  }

  // Once a walk is among the children it stays there, and only goes back.
  lemma {:induction false} WalksBack(s: Table, m: Table, spec: Spec, steps: seq<PlanStep>, kids: seq<TaskId>,
                                     parent: TaskId, now: nat, p: seq<TaskId>, n: nat, i: nat)
    returns (j: nat)
    requires Grown(s, m, spec, steps, kids, parent, now) && Walk(m, p) && n < |p| && IsKid(kids, p[0], i)
    ensures IsKid(kids, p[n], j) && (n > 0 ==> j < i)
  {
    if n == 0 {
      j := i;
    } else {
      var k := WalksBack(s, m, spec, steps, kids, parent, now, p, n - 1, i);
      ResolvedAreEarlier(steps, kids, k, steps[k].dependsOn);
      assert m[kids[k]].spec.dependsOn == Resolved(steps, kids, k, steps[k].dependsOn);
      assert p[n - 1 + 1] in m[p[n - 1]].spec.dependsOn;
      j :| j < k && IsKid(kids, p[n], j);
    }
  }

  /** Approving a plan never closes a cycle of dependencies. */
  lemma StaysAcyclic(s: Table, m: Table, spec: Spec, steps: seq<PlanStep>, kids: seq<TaskId>, parent: TaskId, now: nat)
    requires Grown(s, m, spec, steps, kids, parent, now) && Acyclic(s)
    ensures Acyclic(m)
  {
    forall p | Walk(m, p) && |p| > 1 ensures p[0] != p[|p| - 1] {
      forall k | 0 <= k < |p| - 1 ensures p[k] in s || exists i :: IsKid(kids, p[k], i) {
        if p[k] !in s {
          var i :| 0 <= i < |kids| && kids[i] == p[k];
          assert IsKid(kids, p[k], i);
        }
      }
      if n, i :| 0 <= n < |p| && IsKid(kids, p[n], i) {
        var last := WalksBack(s, m, spec, steps, kids, parent, now, p[n..], |p| - 1 - n, i);
        if p[0] == p[|p| - 1] {
          var back := WalksBack(s, m, spec, steps, kids, parent, now, p, |p| - 1, last);
        }
      } else {
        assert forall k | 0 <= k < |p| - 1 :: p[k] in s && p[k + 1] in s[p[k]].spec.dependsOn;
        assert Walk(s, p);
      }
    }
  }

  /** `Met` for each of them, on record. */
  predicate DepsMet(s: Table, spec: Spec) {
    forall id | id in spec.dependsOn :: id in s && Met(spec.condition, s[id].status)
  }

  /** A plan never deadlocks: in any later state of its children, while one has
      not reached the condition there is one whose dependencies all have. */
  lemma {:induction false} NeverDeadlocks(s: Table, m: Table, later: Table, spec: Spec, steps: seq<PlanStep>,
                                          kids: seq<TaskId>, parent: TaskId, now: nat, i: nat)
    returns (j: nat)
    requires Grown(s, m, spec, steps, kids, parent, now)
    requires forall k | 0 <= k < |kids| ::
               && kids[k] in later && later[kids[k]].spec.dependsOn == m[kids[k]].spec.dependsOn
               && later[kids[k]].spec.condition == m[kids[k]].spec.condition
    requires i < |kids| && !Met(spec.condition, later[kids[i]].status)
    ensures j < |kids| && !Met(spec.condition, later[kids[j]].status) && DepsMet(later, later[kids[j]].spec)
  {
    ResolvedAreEarlier(steps, kids, i, steps[i].dependsOn);
    if DepsMet(later, later[kids[i]].spec) {
      j := i;
    } else {
      var id :| id in later[kids[i]].spec.dependsOn && !(id in later && Met(spec.condition, later[id].status));
      var k: nat :| k < i && IsKid(kids, id, k);
      j := NeverDeadlocks(s, m, later, spec, steps, kids, parent, now, k);
    }
  }

  /** Each key of each step became a dependency on the latest earlier child made
      for that key, however often a key is used. */
  lemma ChildrenAreWired(s: Table, m: Table, spec: Spec, steps: seq<PlanStep>, kids: seq<TaskId>, parent: TaskId,
                         now: nat, i: nat)
    requires Grown(s, m, spec, steps, kids, parent, now) && i < |kids| && Known(steps, i)
    ensures var deps := m[kids[i]].spec.dependsOn;
            && |deps| == |steps[i].dependsOn|
            && forall k | 0 <= k < |deps| ::
                 var j := LatestBefore(steps, i, steps[i].dependsOn[k]);
                 j.Some? && deps[k] == kids[j.value]
  {
    EveryKeyResolves(steps, kids, i, steps[i].dependsOn);
  }

  /** A child is ready to start only from a branch that holds what it waits for: where one
      step's change has to be approved or merged first, from that change, which by then has
      been; else from the plan's own branch. */
  lemma AChildStartsFromWhatItWaitsFor(s: Table, m: Table, later: Table, spec: Spec, steps: seq<PlanStep>,
                                       kids: seq<TaskId>, parent: TaskId, now: nat, i: nat)
    requires Grown(s, m, spec, steps, kids, parent, now) && i < |kids| && Known(steps, i)
    requires kids[i] in later && later[kids[i]].spec.dependsOn == m[kids[i]].spec.dependsOn
    requires later[kids[i]].spec.condition == m[kids[i]].spec.condition
    requires later[kids[i]].spec.baseBranch == m[kids[i]].spec.baseBranch
    requires DepsMet(later, later[kids[i]].spec)
    ensures var child := later[kids[i]].spec;
            if |steps[i].dependsOn| == 1 && (spec.condition == OnApproved || spec.condition == OnMerged) then
              exists d :: child.dependsOn == [d] && child.baseBranch == "lgtm/" + d && d in later
                          && (later[d].status == Approved || later[d].status == Merged)
            else child.baseBranch == spec.baseBranch
  {
    EveryKeyResolves(steps, kids, i, steps[i].dependsOn);
    var child := later[kids[i]].spec;
    hide Resolved;
    if |child.dependsOn| == 1 {
      var d := child.dependsOn[0];
      assert child.dependsOn == [d] && d in child.dependsOn;
    }
  }

  /** What a child is given: what the plan asked for in every step, the step's own words, and
      none of the links, the reviewer or the hosts that were the plan's alone. Children are
      queued in the order of their steps. */
  lemma WhatAChildIsGiven(s: Table, m: Table, spec: Spec, steps: seq<PlanStep>, kids: seq<TaskId>, parent: TaskId,
                          now: nat, i: nat)
    requires Grown(s, m, spec, steps, kids, parent, now) && i < |kids|
    ensures var child, plan, own := m[kids[i]], spec.settings, m[kids[i]].spec.settings;
            && (own.repository, own.executor, own.runner) == (plan.repository, plan.executor, plan.runner)
            && (own.batch, own.sandbox, own.requirements) == (plan.batch, plan.sandbox, plan.requirements)
            && own.goal == plan.goal
            && (own.model, own.effort, own.createdBy) == (plan.model, plan.effort, plan.createdBy)
            && own.issue.None? && own.linear.None? && own.reviewExecutor.None? && own.allowedHosts == []
            && child.spec.kind.RunKind? && child.spec.parent == Some(parent) && child.spec.condition == spec.condition
            && child.spec.prompt == steps[i].title + "\n\n" + steps[i].prompt
            && child.status.Queued? && child.result.None? && child.error.None? && child.events == []
            && forall j | i < j < |kids| :: child.createdAt < m[kids[j]].createdAt
  {
  }

  /** A plan is approved exactly if it is there, a plan, awaiting review, has come up with
      steps, and each key its steps list belongs to an earlier one. */
  lemma ApprovedIff(s: Table, s': Table, id: TaskId, now: nat, r: Result<seq<TaskId>, CmdError>)
    requires Approval(s, s', id, now, r)
    ensures r.Ok? <==>
              && id in s && s[id].spec.kind.PlanKind? && s[id].status == AwaitingReview
              && s[id].result.Some? && s[id].result.value.plan.Some?
              && var steps := s[id].result.value.plan.value;
              forall i, key | 0 <= i < |steps| && key in steps[i].dependsOn ::
                exists j :: 0 <= j < i && steps[j].key == key
    ensures r == Err(NotFound) <==> id !in s
  {
    if id in s && s[id].result.Some? && s[id].result.value.plan.Some? {
      var steps := s[id].result.value.plan.value;
      forall i | 0 <= i < |steps|
        ensures Known(steps, i) <==>
                  forall key | key in steps[i].dependsOn :: exists j :: 0 <= j < i && steps[j].key == key
      {
        KnownIs(steps, i);
      }
    }
  }

  lemma KnownIs(steps: seq<PlanStep>, i: nat)
    requires i < |steps|
    ensures Known(steps, i) <==>
              forall key | key in steps[i].dependsOn :: exists j :: 0 <= j < i && steps[j].key == key
  {
    forall key ensures LatestBefore(steps, i, key).Some? <==> exists j :: 0 <= j < i && steps[j].key == key {
      var j := LatestBefore(steps, i, key);
      if j.Some? { assert steps[j.value].key == key; }
    }
  }

  /** Whatever `approve_plan` answers, an acyclic task graph stays acyclic. */
  lemma ApprovalKeepsAcyclic(s: Table, s': Table, id: TaskId, now: nat, r: Result<seq<TaskId>, CmdError>)
    requires Approval(s, s', id, now, r) && Acyclic(s)
    ensures Acyclic(s')
  {
    hide Grown;
    if r.Ok? {
      var m :| Grown(s, m, s[id].spec, PlanOf(s, id), r.value, id, now) && s' == m[id := s[id].(status := Approved)];
      StaysAcyclic(s, m, s[id].spec, PlanOf(s, id), r.value, id, now);
      OldTasksStay(s, m, s[id].spec, PlanOf(s, id), r.value, id, now, id);
      forall p | Walk(s', p) && |p| > 1 ensures p[0] != p[|p| - 1] {
        assert Walk(m, p);
      }
    }
  }

  lemma OldTasksStay(s: Table, m: Table, spec: Spec, steps: seq<PlanStep>, kids: seq<TaskId>, parent: TaskId, now: nat,
                     u: TaskId)
    requires Grown(s, m, spec, steps, kids, parent, now) && u in s
    ensures u in m && m[u] == s[u]
  {
  }
}
