/** Runner connections (crates/orchestrator/src/runner.rs and the socket side of runner_ws.rs):
    entries, sockets, generations and grace timers as a step system, and the methods that take
    its steps. */
module Runners {
  import opened Protocol

  // The grace period, in milliseconds.
  const GRACE: nat := 30000

  datatype Entry = Entry(running: set<TaskId>, conn: Option<nat>, generation: nat)

  /** A grace timer: whose disconnect it is for, and when it was started. */
  datatype Timer = Timer(name: string, generation: nat, started: nat)

  // `used` are the connection ids that have registered so far.
  datatype Net = Net(runners: map<string, Entry>, timers: multiset<Timer>, used: set<nat>, now: nat)

  // ---- The transitions -----------------------------------------------------

  /** A hello registers its connection id under `name`. Ids are drawn before that, so
      they may register in any order, each once. */
  function Hello(n: Net, name: string, conn: nat, restored: set<TaskId>): Net {
    var generation := if name in n.runners then n.runners[name].generation + 1 else 1;
    n.(runners := n.runners[name := Entry(restored, Some(conn), generation)], used := n.used + {conn})
  }

  predicate Holds(n: Net, name: string, conn: nat) {
    name in n.runners && n.runners[name].conn == Some(conn)
  }

  function Drop(n: Net, name: string, conn: nat): Net {
    if !Holds(n, name, conn) then n
    else
      var e := n.runners[name];
      n.(runners := n.runners[name := e.(conn := None, generation := e.generation + 1)],
         timers := n.timers + multiset{Timer(name, e.generation + 1, n.now)})
  }

  function Goodbye(n: Net, name: string, conn: nat): Net {
    if Holds(n, name, conn) then n.(runners := n.runners - {name}) else n
  }

  predicate Expires(n: Net, t: Timer) {
    t.name in n.runners && n.runners[t.name].conn.None? && n.runners[t.name].generation == t.generation
  }

  function Fire(n: Net, t: Timer): Net {
    var fired := n.(timers := n.timers - multiset{t});
    if Expires(n, t) then fired.(runners := n.runners - {t.name}) else fired
  }

  datatype Step =
    | SayHello(name: string, conn: nat, restored: set<TaskId>)
    | DropSocket(name: string, conn: nat)
    | SayGoodbye(name: string, conn: nat)
    | FireTimer(timer: Timer)
    | Wait(ms: nat)

  function After(n: Net, step: Step): Net {
    match step
    case SayHello(name, conn, restored) => Hello(n, name, conn, restored)
    case DropSocket(name, conn) => Drop(n, name, conn)
    case SayGoodbye(name, conn) => Goodbye(n, name, conn)
    case FireTimer(t) => Fire(n, t)
    case Wait(ms) => n.(now := n.now + ms)
  }

  predicate Enabled(n: Net, step: Step) {
    && (step.SayHello? ==> step.conn !in n.used)
    && (step.FireTimer? ==> step.timer in n.timers && step.timer.started + GRACE <= n.now)
  }

  /** Losing tasks and rescheduling rewrite what runners run, nothing else. */
  ghost predicate SameConns(n: Net, n': Net) {
    && n'.runners.Keys == n.runners.Keys
    && (forall name | name in n.runners ::
          && n'.runners[name].conn == n.runners[name].conn
          && n'.runners[name].generation == n.runners[name].generation)
    && n'.timers == n.timers && n'.used == n.used && n'.now == n.now
  }

  ghost predicate Next(n: Net, step: Step, n': Net) {
    Enabled(n, step) && SameConns(After(n, step), n')
  }

  /** A run: a state before and after every step. */
  ghost predicate IsRun(states: seq<Net>, steps: seq<Step>) {
    && |states| == |steps| + 1
    && forall i | 0 <= i < |steps| :: Next(states[i], steps[i], states[i + 1])
  }

  // ---- No entry leaks --------------------------------------------------------

  ghost predicate Pending(n: Net, name: string, generation: nat) {
    exists t :: t in n.timers && t.name == name && t.generation == generation
  }

  ghost predicate Inv(n: Net) {
    && (forall name | name in n.runners && n.runners[name].conn.None? :: Pending(n, name, n.runners[name].generation))
    && (forall name | name in n.runners && n.runners[name].conn.Some? :: n.runners[name].conn.value in n.used)
    && (forall a, b | a in n.runners && b in n.runners && a != b && n.runners[a].conn.Some? ::
          n.runners[a].conn != n.runners[b].conn)
  }

  lemma TimersKept(n: Net, step: Step, n': Net, name: string)
    requires Inv(n) && Next(n, step, n')
    requires name in n'.runners && n'.runners[name].conn.None?
    ensures Pending(n', name, n'.runners[name].generation)
  {
    if step.DropSocket? && step.name == name && Holds(n, name, step.conn) {
      assert Timer(name, n.runners[name].generation + 1, n.now) in n'.timers;
    } else {
      assert name in n.runners && n.runners[name].conn.None?;
      var t :| t in n.timers && t.name == name && t.generation == n.runners[name].generation;
      if step.FireTimer? && step.timer == t {
        assert false;
      }
    }
  }

  lemma ConnsKept(n: Net, step: Step, n': Net, a: string, b: string)
    requires Inv(n) && Next(n, step, n')
    requires a in n'.runners && n'.runners[a].conn.Some?
    ensures n'.runners[a].conn.value in n'.used
    ensures b in n'.runners && a != b ==> n'.runners[a].conn != n'.runners[b].conn
  {
  }

  lemma StepKeepsInv(n: Net, step: Step, n': Net)
    requires Inv(n) && Next(n, step, n')
    ensures Inv(n')
  {
    hide Next;
    forall name | name in n'.runners && n'.runners[name].conn.None?
      ensures Pending(n', name, n'.runners[name].generation)
    {
      TimersKept(n, step, n', name);
    }
    forall a, b | a in n'.runners && b in n'.runners && n'.runners[a].conn.Some?
      ensures n'.runners[a].conn.value in n'.used && (a != b ==> n'.runners[a].conn != n'.runners[b].conn)
    {
      ConnsKept(n, step, n', a, b);
    }
  }

  /** In every reachable state an entry without a socket has a pending grace
      timer for its current generation, so none stays for ever. */
  lemma {:induction false} NoEntryLeaks(states: seq<Net>, steps: seq<Step>, k: nat)
    requires IsRun(states, steps) && Inv(states[0]) && k < |states|
    ensures Inv(states[k])
  {
    if k > 0 {
      NoEntryLeaks(states, steps, k - 1);
      StepKeepsInv(states[k - 1], steps[k - 1], states[k]);
    }
  }

  // ---- A timer expires only its own disconnect -------------------------------

  /** A connect, or a disconnect that was not a no-op. */
  ghost predicate Bumps(n: Net, step: Step, name: string) {
    || (step.SayHello? && step.name == name)
    || (step.DropSocket? && step.name == name && Holds(n, name, step.conn))
  }

  ghost predicate PresentThrough(states: seq<Net>, name: string, from: nat, to: nat)
    requires from <= to < |states|
  {
    forall k | from <= k <= to :: name in states[k].runners
  }

  lemma {:induction false} GenerationGrows(states: seq<Net>, steps: seq<Step>, name: string, i: nat, j: nat)
    requires IsRun(states, steps) && i <= j < |states| && PresentThrough(states, name, i, j)
    ensures states[i].runners[name].generation <= states[j].runners[name].generation
    ensures states[i].now <= states[j].now
    ensures states[i].runners[name].generation == states[j].runners[name].generation ==>
              forall k | i <= k < j :: !Bumps(states[k], steps[k], name)
  {
    if i < j {
      GenerationGrows(states, steps, name, i, j - 1);
    }
  }

  /** Within one lifetime of an entry, the timer a disconnect started removes it
      only if nothing connected or disconnected since, and not before its time. */
  lemma TimerExpiresItsOwnDisconnect(states: seq<Net>, steps: seq<Step>, name: string, i: nat, j: nat, conn: nat)
    requires IsRun(states, steps) && i < j < |steps|
    requires steps[i] == DropSocket(name, conn) && Holds(states[i], name, conn)
    requires steps[j] == FireTimer(Timer(name, states[i].runners[name].generation + 1, states[i].now))
    requires PresentThrough(states, name, i, j) && name !in states[j + 1].runners
    ensures forall k | i < k < j :: !Bumps(states[k], steps[k], name)
    ensures states[i].now + 30000 <= states[j].now
  {
    assert Next(states[j], steps[j], states[j + 1]);
    assert Expires(states[j], steps[j].timer);
    GenerationGrows(states, steps, name, i + 1, j);
  }

  // ---- A superseded socket is harmless ----------------------------------------

  ghost predicate Retired(n: Net, name: string, conn: nat) {
    conn in n.used && !Holds(n, name, conn)
  }

  lemma {:induction false} StaysRetired(states: seq<Net>, steps: seq<Step>, name: string, conn: nat, i: nat, j: nat)
    requires IsRun(states, steps) && i <= j < |states| && Retired(states[i], name, conn)
    ensures Retired(states[j], name, conn)
  {
    if i < j {
      StaysRetired(states, steps, name, conn, i, j - 1);
      assert Next(states[j - 1], steps[j - 1], states[j]);
    }
  }

  lemma {:induction false} StaysUsed(states: seq<Net>, steps: seq<Step>, conn: nat, i: nat, j: nat)
    requires IsRun(states, steps) && i <= j < |states| && conn in states[i].used
    ensures conn in states[j].used
  {
    if i < j {
      StaysUsed(states, steps, conn, i, j - 1);
      assert Next(states[j - 1], steps[j - 1], states[j]);
    }
  }

  /** Once another socket has taken the name, whatever the one before does changes
      nothing: no removal, no timer, no task lost. */
  lemma SupersededSocketIsInert(states: seq<Net>, steps: seq<Step>, name: string, i: nat, k: nat, j: nat)
    requires IsRun(states, steps) && i < k < j < |states|
    requires steps[i].SayHello? && steps[i].name == name && steps[k].SayHello? && steps[k].name == name
    ensures Drop(states[j], name, steps[i].conn) == states[j]
    ensures Goodbye(states[j], name, steps[i].conn) == states[j]
  {
    assert Next(states[i], steps[i], states[i + 1]) && Next(states[k], steps[k], states[k + 1]);
    StaysUsed(states, steps, steps[i].conn, i + 1, k);
    StaysRetired(states, steps, name, steps[i].conn, k + 1, j);
  }

  // ---- Which timers can expire an entry -------------------------------------------

  /** `t` is the timer that the disconnect at step `d` started. */
  ghost predicate StartedBy(states: seq<Net>, steps: seq<Step>, t: Timer, d: nat)
    requires IsRun(states, steps)
  {
    && d < |steps| && steps[d].DropSocket? && steps[d].name == t.name && Holds(states[d], t.name, steps[d].conn)
    && t == Timer(t.name, states[d].runners[t.name].generation + 1, states[d].now)
  }

  /** The entry that the hello at `i` creates is expired by the timer fired at `j`. */
  ghost predicate Expiry(states: seq<Net>, steps: seq<Step>, name: string, i: nat, j: nat)
    requires IsRun(states, steps)
  {
    && i < j < |steps| && steps[i].SayHello? && steps[i].name == name && name !in states[i].runners
    && PresentThrough(states, name, i + 1, j)
    && steps[j].FireTimer? && steps[j].timer.name == name && name !in states[j + 1].runners
  }

  /** That timer was started by a disconnect of this entry, and nothing connected or
      disconnected since. */
  ghost predicate OwnExpiry(states: seq<Net>, steps: seq<Step>, name: string, i: nat, j: nat)
    requires IsRun(states, steps) && Expiry(states, steps, name, i, j)
  {
    exists d: nat :: i < d < j && StartedBy(states, steps, steps[j].timer, d)
      && forall k | d < k < j :: !Bumps(states[k], steps[k], name)
  }

  ghost predicate Leftover(n: Net, name: string) {
    exists t :: t in n.timers && t.name == name
  }

  lemma OnlyDropsStartTimers(n: Net, step: Step, n': Net, t: Timer)
    requires Next(n, step, n') && t in n'.timers && t !in n.timers
    ensures step.DropSocket? && step.name == t.name && Holds(n, t.name, step.conn)
    ensures t == Timer(t.name, n.runners[t.name].generation + 1, n.now)
  {
  }

  // With no timer of the name pending at `i`, each one pending later was started since.
  lemma {:induction false} TimersSince(states: seq<Net>, steps: seq<Step>, i: nat, k: nat, t: Timer) returns (d: nat)
    requires IsRun(states, steps) && i <= k < |states| && !Leftover(states[i], t.name) && t in states[k].timers
    ensures i <= d < k && StartedBy(states, steps, t, d)
  {
    hide Next;
    assert k > i;
    if t in states[k - 1].timers {
      d := TimersSince(states, steps, i, k - 1, t);
    } else {
      d := k - 1;
      OnlyDropsStartTimers(states[d], steps[d], states[d + 1], t);
    }
  }

  /** An entry created while no timer of its name is pending is expired only by a timer
      of its own last disconnect. */
  lemma CleanEntryExpiresItself(states: seq<Net>, steps: seq<Step>, name: string, i: nat, j: nat)
    requires IsRun(states, steps) && Expiry(states, steps, name, i, j) && !Leftover(states[i], name)
    ensures OwnExpiry(states, steps, name, i, j)
  {
    var t := steps[j].timer;
    assert Next(states[j], steps[j], states[j + 1]);
    assert Expires(states[j], t);
    var d := TimersSince(states, steps, i, j, t);
    assert d != i;
    GenerationGrows(states, steps, name, d + 1, j);
  }

  /** Generations start at one, timers in the past and past the first generation. */
  ghost predicate Sound(n: Net) {
    && (forall name | name in n.runners :: n.runners[name].generation > 0)
    && (forall t | t in n.timers :: t.generation > 1 && t.started <= n.now)
  }

  lemma StepKeepsSound(n: Net, step: Step, n': Net)
    requires Sound(n) && Next(n, step, n')
    ensures Sound(n')
  {
    assert n.now <= n'.now;
    forall t | t in n'.timers ensures t.generation > 1 && t.started <= n'.now {
      if t !in n.timers { OnlyDropsStartTimers(n, step, n', t); }
    }
  }

  lemma {:induction false} RunsStaySound(states: seq<Net>, steps: seq<Step>, k: nat)
    requires IsRun(states, steps) && Sound(states[0]) && k < |states|
    ensures Sound(states[k])
  {
    if k > 0 {
      hide Next, Sound;
      RunsStaySound(states, steps, k - 1);
      StepKeepsSound(states[k - 1], steps[k - 1], states[k]);
    }
  }

  lemma {:induction false} SomeUnused(used: set<nat>) returns (conn: nat)
    ensures forall c | c in used :: c < conn
  {
    conn := 0;
    if used != {} {
      var c :| c in used;
      var rest := SomeUnused(used - {c});
      conn := if rest <= c then c + 1 else rest;
      assert forall d | d in used :: d == c || d in used - {c};
    }
  }

  // The first state of a new entry, and every further hello, moves its generation by one.
  lemma {:induction false} HelloAgain(n: Net, name: string, g: nat) returns (states: seq<Net>, steps: seq<Step>)
    requires name !in n.runners && g > 0
    ensures IsRun(states, steps) && |steps| == g && states[0] == n
    ensures forall i | 0 <= i < g :: steps[i].SayHello? && steps[i].name == name
    ensures PresentThrough(states, name, 1, g)
    ensures states[g].runners[name].generation == g && Holds(states[g], name, steps[g - 1].conn)
    ensures states[g].timers == n.timers && states[g].now == n.now
  {
    if g == 1 {
      states, steps := [n], [];
    } else {
      states, steps := HelloAgain(n, name, g - 1);
    }
    var last := states[g - 1];
    var conn := SomeUnused(last.used);
    var next := Hello(last, name, conn, {});
    assert Next(last, SayHello(name, conn, {}), next);
    states, steps := states + [next], steps + [SayHello(name, conn, {})];
  }

  // How long until the timer is due.
  function Due(t: Timer, now: nat): nat { if t.started + GRACE > now then t.started + GRACE - now else 0 }

  // The entry of generation `t.generation - 1` drops just when `t` is due, and `t` fires.
  lemma DropAndFire(n: Net, name: string, t: Timer) returns (waited: Net, dropped: Net, gone: Net)
    requires t in n.timers && t.name == name && t.started <= n.now
    requires name in n.runners && n.runners[name].conn.Some? && n.runners[name].generation + 1 == t.generation
    ensures var conn := n.runners[name].conn.value;
            && Next(n, Wait(Due(t, n.now)), waited) && Next(waited, DropSocket(name, conn), dropped)
            && Next(dropped, FireTimer(t), gone)
            && Holds(waited, name, conn) && waited.now == dropped.now == n.now + Due(t, n.now)
            && waited.runners == n.runners && name in dropped.runners && name !in gone.runners
  {
    var conn := n.runners[name].conn.value;
    waited := n.(now := n.now + Due(t, n.now));
    assert After(n, Wait(Due(t, n.now))) == waited;
    dropped := Drop(waited, name, conn);
    assert After(waited, DropSocket(name, conn)) == dropped && t in dropped.timers && dropped.now == waited.now;
    assert Expires(dropped, t);
    gone := Fire(dropped, t);
    hide Drop, Fire;
  }

  /** From any state in which a timer of an absent name is pending, a run that begins
      with that name's hello ends with that timer expiring a disconnect in the instant
      it happens, which is not the disconnect it was started by. */
  lemma LeftoverExpires(n: Net, name: string, t: Timer) returns (states: seq<Net>, steps: seq<Step>)
    requires Sound(n) && name !in n.runners && t in n.timers && t.name == name
    ensures IsRun(states, steps) && states[0] == n && |steps| > 2
    ensures var j := |steps| - 1;
            && Expiry(states, steps, name, 0, j) && !OwnExpiry(states, steps, name, 0, j)
            && steps[j - 1].DropSocket? && Holds(states[j - 1], name, steps[j - 1].conn)
            && states[j].now == states[j - 1].now == n.now + Due(t, n.now) && steps[j].timer == t
  {
    var g := t.generation - 1;
    states, steps := HelloAgain(n, name, g);
    var conn := steps[g - 1].conn;
    var waited, dropped, gone := DropAndFire(states[g], name, t);
    assert |states| == g + 1;
    hide Next, IsRun, Sound, OwnExpiry;
    var wait := Wait(Due(t, n.now));
    states, steps := states + [waited], steps + [wait];
    states, steps := states + [dropped], steps + [DropSocket(name, conn)];
    states, steps := states + [gone], steps + [FireTimer(t)];
    assert |states| == g + 4 && |steps| == g + 3;
  }

  /** Some run that begins with the hello of `name` expires that entry by a timer none of
      its own disconnects started, or one that was overtaken. */
  ghost predicate CanGoAstray(n: Net, name: string) {
    exists states, steps, j: nat ::
      IsRun(states, steps) && states[0] == n && Expiry(states, steps, name, 0, j)
        && !OwnExpiry(states, steps, name, 0, j)
  }

  /** A timer expires only its own disconnect, whatever happens to an entry, exactly if
      no timer of the name is pending when the entry is created. */
  lemma GoesAstrayIffLeftover(n: Net, name: string)
    requires Sound(n) && name !in n.runners
    ensures CanGoAstray(n, name) <==> Leftover(n, name)
  {
    if CanGoAstray(n, name) {
      var states, steps, j: nat :|
        IsRun(states, steps) && states[0] == n && Expiry(states, steps, name, 0, j)
          && !OwnExpiry(states, steps, name, 0, j);
      if !Leftover(n, name) { CleanEntryExpiresItself(states, steps, name, 0, j); }
    }
    if t :| t in n.timers && t.name == name {
      var states, steps := LeftoverExpires(n, name, t);
    }
  }

  // The same name, twice registered and then gone: its first timer is still pending.
  lemma GoneWithATimer(name: string) returns (states: seq<Net>, steps: seq<Step>)
    ensures IsRun(states, steps) && |steps| == 4 && states[0] == Net(map[], multiset{}, {}, 0)
    ensures states[4] == Net(map[], multiset{Timer(name, 2, 0)}, {1, 2}, 0)
  {
    var n0 := Net(map[], multiset{}, {}, 0);
    var n1 := Net(map[name := Entry({}, Some(1), 1)], multiset{}, {1}, 0);
    var n2 := Net(map[name := Entry({}, None, 2)], multiset{Timer(name, 2, 0)}, {1}, 0);
    var n3 := Net(map[name := Entry({}, Some(2), 3)], multiset{Timer(name, 2, 0)}, {1, 2}, 0);
    var n4 := Net(map[], multiset{Timer(name, 2, 0)}, {1, 2}, 0);
    assert n3.runners - {name} == n4.runners;
    assert Next(n0, SayHello(name, 1, {}), n1);
    assert Next(n1, DropSocket(name, 1), n2);
    assert Next(n2, SayHello(name, 2, {}), n3);
    assert Next(n3, SayGoodbye(name, 2), n4);
    hide Next;
    steps := [SayHello(name, 1, {}), DropSocket(name, 1), SayHello(name, 2, {}), SayGoodbye(name, 2)];
    states := [n0, n1, n2, n3, n4];
  }

  /** Such a state is four steps from the orchestrator's start, and from there a disconnect
      is expired the moment it happens, by the timer of one long made good. */
  lemma LeftoverTimerExpiresAFreshDisconnect(name: string)
    returns (states: seq<Net>, steps: seq<Step>, on: seq<Net>, more: seq<Step>)
    ensures IsRun(states, steps) && |steps| == 4 && states[0] == Net(map[], multiset{}, {}, 0)
    ensures IsRun(on, more) && on[0] == states[4] && |more| > 2
    ensures var j := |more| - 1;
            && Expiry(on, more, name, 0, j) && !OwnExpiry(on, more, name, 0, j)
            && more[j - 1].DropSocket? && Holds(on[j - 1], name, more[j - 1].conn) && on[j].now == on[j - 1].now
  {
    states, steps := GoneWithATimer(name);
    assert Timer(name, 2, 0) in states[4].timers;
    on, more := LeftoverExpires(states[4], name, Timer(name, 2, 0));
  }

  // ---- The orchestrator's side -----------------------------------------------

  // What `still_running` asks of a task.
  datatype TaskView = RunningTask | QueuedTask(runner: Option<string>) | OtherTask

  /** A reported task is restored if it runs, or waits for this very runner. */
  predicate StillRunning(tasks: map<TaskId, TaskView>, id: TaskId, runner: string) {
    id in tasks && (tasks[id].RunningTask? || (tasks[id].QueuedTask? && tasks[id].runner == Some(runner)))
  }

  /** `lost` names each of `ids` once and nothing else. */
  ghost predicate Enumerates(lost: seq<TaskId>, ids: set<TaskId>) {
    && (forall id :: id in lost <==> id in ids)
    && (forall i, j | 0 <= i < j < |lost| :: lost[i] != lost[j])
  }

  class State {
    var runners: map<string, Entry>
    var timers: multiset<Timer>
    var nextConn: nat
    var now: nat
    // The ids that have registered, of those drawn from `nextConn`.
    ghost var used: set<nat>
    // Every call to `lose_unfinished`, in order.
    ghost var lost: seq<TaskId>

    constructor ()
      ensures Snapshot() == Net(map[], multiset{}, {}, 0) && lost == [] && Valid()
    {
      runners, timers, nextConn, now, used, lost := map[], multiset{}, 1, 0, {}, [];
    }

    ghost function Snapshot(): Net
      reads this
    {
      Net(runners, timers, used, now)
    }

    ghost predicate Valid()
      reads this
    {
      forall conn | conn in used :: conn < nextConn
    }

    /** What a socket draws once its hello has been read, before the state is locked. */
    method DrawConn() returns (conn: nat)
      requires Valid()
      modifies this`nextConn
      ensures Valid() && conn == old(nextConn) && conn !in used && nextConn == conn + 1
    {
      conn := nextConn;
      nextConn := nextConn + 1;
    }

    /** Hands every id to `lose_unfinished`, in whatever order the set yields. */
    method LoseAll(ids: set<TaskId>)
      modifies this`lost
      ensures old(lost) <= lost && Enumerates(lost[|old(lost)|..], ids)
    {
      var rest := ids;
      while rest != {}
        invariant rest <= ids && old(lost) <= lost
        invariant Enumerates(lost[|old(lost)|..], ids - rest)
        decreases rest
      {
        var id :| id in rest;
        rest := rest - {id};
        ghost var before := lost[|old(lost)|..];
        lost := lost + [id];
        assert lost[|old(lost)|..] == before + [id];
      }
    }

    /** Losing tasks and `schedule` may rewrite what any runner runs. */
    method Reschedule(handed: map<string, set<TaskId>>)
      modifies this`runners
      ensures SameConns(old(Snapshot()), Snapshot())
    {
      runners := map name | name in runners ::
        if name in handed then runners[name].(running := handed[name]) else runners[name];
    }

    /** One `SayHello`: the entry gets the reported tasks that are still its own, and
        the rest of what it held goes to `lose_unfinished`. */
    method RunnerHello(name: string, conn: nat, reported: seq<TaskId>, tasks: map<TaskId, TaskView>,
                       handed: map<string, set<TaskId>>)
      returns (restored: set<TaskId>)
      requires Valid() && conn < nextConn && conn !in used
      modifies this
      ensures Valid() && forall id :: id in restored <==>
                && id in reported && id in tasks
                && (tasks[id] == RunningTask || tasks[id] == QueuedTask(Some(name)))
      ensures name in runners && runners[name].conn == Some(conn)
      ensures runners[name].generation == if name in old(runners) then old(runners)[name].generation + 1 else 1
      ensures Next(old(Snapshot()), SayHello(name, conn, restored), Snapshot())
      ensures old(lost) <= lost
      ensures var held := if name in old(runners) then old(runners)[name].running else {};
              Enumerates(lost[|old(lost)|..], held - restored)
    {
      restored := set id | id in reported && StillRunning(tasks, id, name);
      var previous := {};
      if name in runners {
        var entry := runners[name];
        previous := entry.running;
        runners := runners[name := Entry(restored, Some(conn), entry.generation + 1)];
      } else {
        runners := runners[name := Entry(restored, Some(conn), 1)];
      }
      used := used + {conn};
      assert Snapshot() == Hello(old(Snapshot()), name, conn, restored);
      LoseAll(previous - restored);
      Reschedule(handed);
    }

    /** A socket whose hello has been read: it draws its id and registers with it. */
    method Connect(name: string, reported: seq<TaskId>, tasks: map<TaskId, TaskView>, handed: map<string, set<TaskId>>)
      returns (conn: nat, restored: set<TaskId>)
      requires Valid()
      modifies this
      ensures Valid() && Next(old(Snapshot()), SayHello(name, conn, restored), Snapshot())
    {
      conn := DrawConn();
      restored := RunnerHello(name, conn, reported, tasks, handed);
    }

    /** `Drop` in place; no task is lost by it. */
    method Disconnect(name: string, conn: nat)
      modifies this
      ensures Snapshot() == Drop(old(Snapshot()), name, conn) && lost == old(lost)
      ensures if name in old(runners) && old(runners)[name].conn == Some(conn) then
                var was := old(runners)[name];
                && runners == old(runners)[name := Entry(was.running, None, was.generation + 1)]
                && timers == old(timers) + multiset{Timer(name, was.generation + 1, now)}
              else runners == old(runners) && timers == old(timers)
    {
      if name !in runners || runners[name].conn != Some(conn) {
        return;
      }
      var entry := runners[name];
      runners := runners[name := entry.(conn := None, generation := entry.generation + 1)];
      timers := timers + multiset{Timer(name, entry.generation + 1, now)};
    }

    /** End of a grace period. */
    method ExpireRunner(t: Timer, handed: map<string, set<TaskId>>) returns (expired: bool)
      requires t in timers && t.started + GRACE <= now
      modifies this
      ensures Next(old(Snapshot()), FireTimer(t), Snapshot())
      ensures expired == Expires(old(Snapshot()), t) && old(lost) <= lost
      ensures Enumerates(lost[|old(lost)|..], if expired then old(runners)[t.name].running else {})
    {
      timers := timers - multiset{t};
      if t.name !in runners || runners[t.name].conn.Some? || runners[t.name].generation != t.generation {
        return false;
      }
      RemoveRunner(t.name, handed);
      return true;
    }

    /** `Goodbye` in place, then what the entry held is lost. */
    method RunnerGoodbye(name: string, conn: nat, handed: map<string, set<TaskId>>)
      modifies this
      ensures Next(old(Snapshot()), SayGoodbye(name, conn), Snapshot()) && old(lost) <= lost
      ensures Enumerates(lost[|old(lost)|..],
                         if Holds(old(Snapshot()), name, conn) then old(runners)[name].running else {})
    {
      if name !in runners || runners[name].conn != Some(conn) {
        return;
      }
      RemoveRunner(name, handed);
    }

    /** The entry goes first, so that losing its tasks cannot find it. */
    method RemoveRunner(name: string, handed: map<string, set<TaskId>>)
      requires name in runners
      modifies this`runners, this`lost
      ensures SameConns(old(Snapshot()).(runners := old(runners) - {name}), Snapshot())
      ensures old(lost) <= lost && Enumerates(lost[|old(lost)|..], old(runners)[name].running)
    {
      var entry := runners[name];
      runners := runners - {name};
      LoseAll(entry.running);
      Reschedule(handed);
    }
  }
}
