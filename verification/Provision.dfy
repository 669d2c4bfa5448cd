/** Ephemeral runners on demand (crates/orchestrator/src/provision.rs): the launch
    controller, and how far it keeps the runners there are below their cap. */
module Provision {
  import opened Protocol

  /** In seconds; a launch is over after that long at the latest. */
  const PROVISION_TIMEOUT: nat := 5 * 60

  /** When a runner was launched, and how many ephemeral ones were connected then. */
  datatype Launch = Launch(at: nat, count: nat)

  // What the controller is shown. `wanted` says that a task is ready and no runner can take
  // it.
  datatype Look = Look(now: nat, count: nat, wanted: bool)

  predicate Over(inFlight: Option<Launch>, look: Look) {
    inFlight.Some? && (look.now >= inFlight.value.at + PROVISION_TIMEOUT || look.count > inFlight.value.count)
  }

  function Kept(inFlight: Option<Launch>, look: Look): Option<Launch> {
    if Over(inFlight, look) then None else inFlight
  }

  predicate NeedsProvision(look: Look, max: nat, inFlight: bool) {
    !inFlight && look.count < max && look.wanted
  }

  function NextInFlight(inFlight: Option<Launch>, look: Look, max: nat): Option<Launch> {
    if NeedsProvision(look, max, Kept(inFlight, look).Some?) then Some(Launch(look.now, look.count))
    else Kept(inFlight, look)
  }

  class Controller {
    var inFlight: Option<Launch>

    constructor ()
      ensures inFlight == None
    {
      inFlight := None;
    }

    method Tick(look: Look, max: nat) returns (launch: bool)
      modifies this
      ensures launch == NeedsProvision(look, max, Kept(old(inFlight), look).Some?)
      ensures inFlight == NextInFlight(old(inFlight), look, max)
    {
      if Over(inFlight, look) { inFlight := None; }
      launch := NeedsProvision(look, max, inFlight.Some?);
      if launch { inFlight := Some(Launch(look.now, look.count)); }
    }

    /** The loop of `run`: the looks are the ones it wakes up for. */
    method Run(looks: seq<Look>, max: nat) returns (launched: seq<bool>)
      requires inFlight == None
      modifies this
      ensures |launched| == |looks|
      ensures forall n: nat | n < |looks| :: launched[n] == Launches(looks, max, n)
    {
      launched := [];
      for n := 0 to |looks|
        invariant |launched| == n && inFlight == InFlight(looks, max, n)
        invariant forall k: nat | k < n :: launched[k] == Launches(looks, max, k)
      {
        var launch := Tick(looks[n], max);
        launched := launched + [launch];
      }
    }
  }

  // ---- When a runner is launched ------------------------------------------------------

  function InFlight(looks: seq<Look>, max: nat, n: nat): Option<Launch>
    requires n <= |looks|
  {
    if n == 0 then None else NextInFlight(InFlight(looks, max, n - 1), looks[n - 1], max)
  }

  predicate Launches(looks: seq<Look>, max: nat, n: nat)
    requires n < |looks|
  {
    NeedsProvision(looks[n], max, Kept(InFlight(looks, max, n), looks[n]).Some?)
  }

  /** The launch at `i` was over by look `n`: time was up, or the count was seen above its own. */
  ghost predicate OverBy(looks: seq<Look>, i: nat, n: nat)
    requires i < |looks| && n < |looks|
  {
    exists k :: i < k <= n
      && (looks[k].now >= looks[i].now + PROVISION_TIMEOUT || looks[k].count > looks[i].count)
  }

  /** In terms of the looks alone: one that wants a runner below the cap launches
      it unless the last launch before it is not over yet. */
  ghost predicate Allowed(looks: seq<Look>, max: nat, n: nat)
    requires n < |looks|
  {
    && looks[n].wanted && looks[n].count < max
    && forall i: nat | i < n && Launches(looks, max, i) && NoneBetween(looks, max, i, n) :: OverBy(looks, i, n)
  }

  ghost predicate NoneBetween(looks: seq<Look>, max: nat, i: nat, n: nat)
    requires n <= |looks|
  {
    forall k: nat | i < k < n :: !Launches(looks, max, k)
  }

  // What the controller remembers: the last launch, until it is over.
  lemma Remembers(looks: seq<Look>, max: nat, n: nat)
    requires n < |looks|
    ensures Kept(InFlight(looks, max, n), looks[n]).Some? <==>
              exists i: nat :: i < n && Launches(looks, max, i) && NoneBetween(looks, max, i, n) && !OverBy(looks, i, n)
  {
    LastLaunch(looks, max, n);
    var f := InFlight(looks, max, n);
    if f.Some? {
      var i: nat :| LaunchedAt(looks, max, i, n, f);
      if Over(f, looks[n]) {
        assert OverBy(looks, i, n);
        forall j: nat | j < n && Launches(looks, max, j) && NoneBetween(looks, max, j, n) ensures OverBy(looks, j, n) {
          assert i == j;
        }
      } else {
        assert !OverBy(looks, i, n);
      }
    }
  }

  // `f` is the launch of look `i`, the last before `n`, and not over before `n`.
  ghost predicate LaunchedAt(looks: seq<Look>, max: nat, i: nat, n: nat, f: Option<Launch>)
    requires n <= |looks|
  {
    && i < n && Launches(looks, max, i) && NoneBetween(looks, max, i, n)
    && f == Some(Launch(looks[i].now, looks[i].count))
    && forall k | i < k < n :: !Over(f, looks[k])
  }

  lemma {:induction false} LastLaunch(looks: seq<Look>, max: nat, n: nat)
    requires n <= |looks|
    ensures InFlight(looks, max, n).Some? ==> exists i: nat :: LaunchedAt(looks, max, i, n, InFlight(looks, max, n))
    ensures InFlight(looks, max, n).None? ==>
      forall i: nat | i < n && Launches(looks, max, i) && NoneBetween(looks, max, i, n) ::
        i < n - 1 && OverBy(looks, i, n - 1)
  {
    if n > 0 {
      LastLaunch(looks, max, n - 1);
      var before, f := InFlight(looks, max, n - 1), InFlight(looks, max, n);
      if Launches(looks, max, n - 1) {
        assert LaunchedAt(looks, max, n - 1, n, f);
      } else if before.Some? {
        var i: nat :| LaunchedAt(looks, max, i, n - 1, before);
        if Over(before, looks[n - 1]) {
          assert OverBy(looks, i, n - 1);
        } else {
          assert LaunchedAt(looks, max, i, n, f);
        }
        forall j: nat | j < n && Launches(looks, max, j) && NoneBetween(looks, max, j, n) ensures j == i { }
      } else {
        forall j: nat | j < n && Launches(looks, max, j) && NoneBetween(looks, max, j, n)
          ensures j < n - 1 && OverBy(looks, j, n - 1)
        {
          assert NoneBetween(looks, max, j, n - 1);
        }
      }
    }
  }

  /** A look launches a runner exactly if it is allowed to. */
  lemma LaunchesExactly(looks: seq<Look>, max: nat, n: nat)
    requires n < |looks|
    ensures Launches(looks, max, n) <==> Allowed(looks, max, n)
  {
    Remembers(looks, max, n);
  }

  ghost predicate InOrder(looks: seq<Look>) {
    forall i, j | 0 <= i <= j < |looks| :: looks[i].now <= looks[j].now
  }

  /** Two launches in a row are a timeout apart, or more ephemeral runners than at
      the first were seen in between. */
  lemma LaunchesAreSpaced(looks: seq<Look>, max: nat, i: nat, j: nat)
    requires InOrder(looks) && i < j < |looks|
    requires Launches(looks, max, i) && Launches(looks, max, j) && NoneBetween(looks, max, i, j)
    ensures looks[j].now >= looks[i].now + 300
            || exists k :: i < k <= j && looks[k].count > looks[i].count
  {
    LaunchesExactly(looks, max, j);
    assert OverBy(looks, i, j);
    var k :| i < k <= j && Over(Some(Launch(looks[i].now, looks[i].count)), looks[k]);
  }

  // ---- The runners there are ------------------------------------------------------------

  /** The controller with its runners: how many are connected and when each one still
      on its way was launched. The last two count what the cap does not foresee:
      runners that connected without a launch, and launches that timed out while
      their runner was still on its way. */
  datatype Fleet = Fleet(
    now: nat,
    connected: nat,
    onWay: seq<nat>,
    inFlight: Option<Launch>,
    unlaunched: nat,
    overdue: nat)

  datatype Event =
    | Tick(wanted: bool)
    | Arrive(which: nat)  // a launched runner connects
    | Connect             // an ephemeral runner connects that was not launched, or not just now
    | Leave               // an ephemeral runner goes away
    | Wait(seconds: nat)

  function Start(connected: nat): Fleet { Fleet(0, connected, [], None, 0, 0) }

  function Next(s: Fleet, e: Event, max: nat): Fleet {
    match e
    case Tick(wanted) =>
      var look := Look(s.now, s.connected, wanted);
      s.(inFlight := NextInFlight(s.inFlight, look, max),
         onWay := if NeedsProvision(look, max, Kept(s.inFlight, look).Some?) then s.onWay + [s.now] else s.onWay,
         overdue := if TimedOut(s) then s.overdue + 1 else s.overdue)
    case Arrive(which) =>
      if which < |s.onWay| then s.(connected := s.connected + 1, onWay := s.onWay[..which] + s.onWay[which + 1..])
      else s
    case Connect => s.(connected := s.connected + 1, unlaunched := s.unlaunched + 1)
    case Leave => if s.connected > 0 then s.(connected := s.connected - 1) else s
    case Wait(seconds) => s.(now := s.now + seconds)
  }

  // The launch times out with its own runner still on the way. Looks are an interval
  // apart, so the instant tells launches apart.
  predicate TimedOut(s: Fleet) {
    s.inFlight.Some? && s.now >= s.inFlight.value.at + PROVISION_TIMEOUT && s.inFlight.value.at in s.onWay
  }

  function After(s: Fleet, run: seq<Event>, max: nat): Fleet {
    if run == [] then s else Next(After(s, run[..|run| - 1], max), run[|run| - 1], max)
  }

  // The launch is not over by the count, and its runner is on the way.
  predicate Awaited(s: Fleet) {
    s.inFlight.Some? && s.connected <= s.inFlight.value.count && s.inFlight.value.at in s.onWay
  }

  // Once a launch is over, one fewer is on the way than the surprises allow.
  ghost predicate Bounded(s: Fleet, max: nat) {
    && s.connected + |s.onWay| <= max + s.unlaunched + s.overdue
    && |s.onWay| <= s.unlaunched + s.overdue + (if Awaited(s) then 1 else 0)
  }

  lemma {:induction false} AlwaysBounded(connected: nat, run: seq<Event>, max: nat)
    requires connected <= max
    ensures Bounded(After(Start(connected), run, max), max)
  {
    if run != [] { AlwaysBounded(connected, run[..|run| - 1], max); }
  }

  /** In every run the runners connected and on their way exceed the cap by no more
      than one for each surprise. */
  lemma CapIsExceededOnlyBySurprise(connected: nat, run: seq<Event>, max: nat)
    requires connected <= max
    ensures var s := After(Start(connected), run, max);
      s.connected + |s.onWay| <= max + s.unlaunched + s.overdue
  {
    AlwaysBounded(connected, run, max);
  }

  // One launch, and another each time it times out with nobody there yet.
  lemma {:induction false} Overdue(max: nat, o: nat) returns (run: seq<Event>)
    requires max > 0
    ensures var s := After(Start(max - 1), run, max);
            && s.connected == max - 1 && |s.onWay| == 1 + o && s.unlaunched == 0 && s.overdue == o
            && s.inFlight == Some(Launch(s.now, max - 1)) && s.now in s.onWay
  {
    var start := Start(max - 1);
    if o == 0 {
      run := [Tick(true)];
    } else {
      var before := Overdue(max, o - 1);
      run := before + [Wait(PROVISION_TIMEOUT)] + [Tick(true)];
    }
  }

  // `u` runners nobody launched connect.
  lemma {:induction false} Crowded(start: Fleet, before: seq<Event>, max: nat, u: nat) returns (run: seq<Event>)
    ensures var s, t := After(start, before, max), After(start, run, max);
            t == s.(connected := s.connected + u, unlaunched := s.unlaunched + u)
  {
    if u == 0 {
      run := before;
    } else {
      var rest := Crowded(start, before, max, u - 1);
      run := rest + [Connect];
    }
  }

  // Under a cap of zero nothing is launched.
  lemma {:induction false} NothingIsLaunched(connected: nat, run: seq<Event>)
    ensures var s := After(Start(connected), run, 0); s.onWay == [] && s.overdue == 0
  {
    if run != [] { NothingIsLaunched(connected, run[..|run| - 1]); }
  }

  /** Some run that starts within the cap has these surprises and reaches the bound. */
  ghost predicate Reached(max: nat, unlaunched: nat, overdue: nat) {
    exists connected: nat, run ::
      && connected <= max
      && var s := After(Start(connected), run, max);
         s.unlaunched == unlaunched && s.overdue == overdue && s.connected + |s.onWay| == max + unlaunched + overdue
  }

  /** The bound is exact: every number of surprises of either kind reaches it, but that
      no launch is overdue under a cap that allows none. */
  lemma BoundIsReached(max: nat, unlaunched: nat, overdue: nat)
    ensures Reached(max, unlaunched, overdue) <==> max > 0 || overdue == 0
  {
    if max > 0 {
      var before := Overdue(max, overdue);
      var run := Crowded(Start(max - 1), before, max, unlaunched);
      assert Reached(max, unlaunched, overdue);
    } else if overdue == 0 {
      var run := Crowded(Start(0), [], 0, unlaunched);
      assert Reached(max, unlaunched, overdue);
    } else if Reached(max, unlaunched, overdue) {
      var connected: nat, run :| connected <= max && After(Start(connected), run, max).overdue == overdue;
      NothingIsLaunched(connected, run);
    }
  }

  /** No run that starts within the cap and has these surprises exceeds it. */
  ghost predicate KeepsTheCap(max: nat, unlaunched: nat, overdue: nat) {
    forall connected: nat, run |
      && connected <= max
      && After(Start(connected), run, max).unlaunched == unlaunched
        && After(Start(connected), run, max).overdue == overdue ::
      After(Start(connected), run, max).connected + |After(Start(connected), run, max).onWay| <= max
  }

  /** The cap is kept exactly if there are no surprises. (Under a cap of zero no launch can
      be overdue, so nothing is claimed of that.) */
  lemma CapIsKeptIffNoSurprise(max: nat, unlaunched: nat, overdue: nat)
    requires max > 0 || overdue == 0
    ensures KeepsTheCap(max, unlaunched, overdue) <==> unlaunched == 0 && overdue == 0
  {
    if unlaunched == 0 && overdue == 0 {
      forall connected: nat, run | connected <= max
        ensures var s := After(Start(connected), run, max); s.connected + |s.onWay| <= max + s.unlaunched + s.overdue
      {
        CapIsExceededOnlyBySurprise(connected, run, max);
      }
    } else {
      BoundIsReached(max, unlaunched, overdue);
      var connected: nat, run :|
        && connected <= max
        && var s := After(Start(connected), run, max);
           s.unlaunched == unlaunched && s.overdue == overdue && s.connected + |s.onWay| == max + unlaunched + overdue;
    }
  }

  /** Every runner launched so far connects before its timeout. */
  ghost predicate Prompt(connected: nat, run: seq<Event>, max: nat) {
    forall n | 0 <= n <= |run| :: forall at | at in After(Start(connected), run[..n], max).onWay ::
      After(Start(connected), run[..n], max).now < at + PROVISION_TIMEOUT
  }

  // What the controller remembers was launched no earlier than anything on its way.
  ghost predicate RemembersLatest(s: Fleet) {
    forall at | at in s.onWay :: at <= s.now && (s.inFlight.Some? ==> at <= s.inFlight.value.at)
  }

  lemma StillRemembersLatest(s: Fleet, e: Event, max: nat)
    requires RemembersLatest(s)
    ensures RemembersLatest(Next(s, e, max))
  {
    var s' := Next(s, e, max);
    forall at | at in s'.onWay
      ensures at in s.onWay || (e.Tick? && at == s.now && s'.inFlight == Some(Launch(s.now, s.connected)))
    {
    }
  }

  lemma {:induction false} PromptIsNeverOverdue(connected: nat, run: seq<Event>, max: nat)
    requires Prompt(connected, run, max)
    ensures After(Start(connected), run, max).overdue == 0
    ensures RemembersLatest(After(Start(connected), run, max))
  {
    if run != [] {
      var front := run[..|run| - 1];
      assert forall n | 0 <= n <= |front| :: front[..n] == run[..n];
      PromptIsNeverOverdue(connected, front, max);
      var s := After(Start(connected), front, max);
      assert run[..|front|] == front;
      StillRemembersLatest(s, run[|front|], max);
      if s.onWay != [] { assert s.onWay[0] in s.onWay; }
    }
  }

  /** The cap holds in every run in which launched runners connect in time and no
      others do. */
  lemma CapHolds(connected: nat, run: seq<Event>, max: nat)
    requires connected <= max && Prompt(connected, run, max) && forall e | e in run :: !e.Connect?
    ensures var s := After(Start(connected), run, max); s.connected + |s.onWay| <= max
  {
    PromptIsNeverOverdue(connected, run, max);
    AlwaysBounded(connected, run, max);
    NoneUnlaunched(connected, run, max);
  }

  lemma {:induction false} NoneUnlaunched(connected: nat, run: seq<Event>, max: nat)
    requires forall e | e in run :: !e.Connect?
    ensures After(Start(connected), run, max).unlaunched == 0
  {
    if run != [] { NoneUnlaunched(connected, run[..|run| - 1], max); }
  }

  /** Reconnecting is enough to break it: a runner that drops and comes back passes for
      the one on its way, and a third is launched under a cap of two. */
  lemma ReconnectBreaksTheCap()
    ensures var run := [Leave, Tick(true), Connect, Wait(30), Tick(true)];
      && Prompt(1, run, 2)
      && var s := After(Start(1), run, 2); s.connected + |s.onWay| == 3
  {
    var run := [Leave, Tick(true), Connect, Wait(30), Tick(true)];
    var s0 := Start(1);
    var s1 := Next(s0, Leave, 2);
    var s2 := Next(s1, Tick(true), 2);
    var s3 := Next(s2, Connect, 2);
    var s4 := Next(s3, Wait(30), 2);
    var s5 := Next(s4, Tick(true), 2);
    assert run[..0] == [] && run[..1] == [Leave] && run[..2] == run[..1] + [Tick(true)]
      && run[..3] == run[..2] + [Connect];
    assert run[..4] == run[..3] + [Wait(30)] && run[..5] == run[..4] + [Tick(true)] && run[..5] == run;
    assert After(s0, run[..1], 2) == s1;
    assert After(s0, run[..2], 2) == s2;
    assert After(s0, run[..3], 2) == s3;
    assert After(s0, run[..4], 2) == s4;
    assert After(s0, run[..5], 2) == s5;
  }
}
