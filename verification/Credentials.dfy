/** Whose names go on a commit and which credential pushes it
    (crates/orchestrator/src/credentials.rs). */
module Credentials {
  import opened Orders
  import opened Protocol

  datatype Identity = Identity(name: string, email: string)

  const ANONYMOUS := Identity("lgtm", "lgtm@localhost")

  datatype Kind = Human | Agent

  datatype Credential = Credential(id: string, workspace: Option<string>, kind: Kind, owner: Option<string>,
                                   identity: Identity, token: Option<string>, sshKey: Option<string>)

  // `mode` is whose credential pushes.
  datatype Workspace = Workspace(workspace: Option<string>, mode: Kind, creditAgent: bool)

  datatype Store = Store(workspaces: seq<Workspace>, credentials: seq<Credential>)

  datatype Resolved = Resolved(
    author: Identity,
    coAuthors: seq<Identity>,
    signingKey: Option<string>,
    token: Option<string>)

  /** No workspace on either side stands for every workspace. */
  predicate SameWorkspace(held: Option<string>, own: Option<string>) {
    held.Some? && own.Some? ==> held == own
  }

  predicate Serves(c: Credential, kind: Kind, workspace: Option<string>, owner: Option<string>) {
    c.kind == kind && SameWorkspace(c.workspace, workspace) && c.owner == owner
  }

  /** The first credential of this kind and owner in this workspace. */
  function Find(cs: seq<Credential>, kind: Kind, workspace: Option<string>, owner: Option<string>)
    : (r: Option<Credential>)
    ensures r.Some? <==> exists c :: c in cs && Serves(c, kind, workspace, owner)
    ensures r.Some? ==> r.value in cs && Serves(r.value, kind, workspace, owner)
  {
    if cs == [] then None
    else if Serves(cs[0], kind, workspace, owner) then Some(cs[0])
    else Find(cs[1..], kind, workspace, owner)
  }

  function SettingsFrom(ws: seq<Workspace>, workspace: Option<string>): Workspace {
    if ws == [] then Workspace(None, Human, false)
    else if SameWorkspace(ws[0].workspace, workspace) then ws[0]
    else SettingsFrom(ws[1..], workspace)
  }

  function OrElse<T>(a: Option<T>, b: Option<T>): Option<T> { if a.Some? then a else b }

  function Identities(found: Option<Credential>): seq<Identity> {
    if found.Some? then [found.value.identity] else []
  }

  // ---- What is to be resolved -------------------------------------------------------

  /** A person's own credential; an absent person has none. */
  function HumanOf(s: Store, workspace: Option<string>, user: Option<string>): Option<Credential> {
    if user.None? then None else Find(s.credentials, Human, workspace, user)
  }

  /** The agent a person's work is pushed with: their own, else the shared one. */
  function AgentOf(s: Store, workspace: Option<string>, user: Option<string>): Option<Credential> {
    OrElse(if user.None? then None else Find(s.credentials, Agent, workspace, user),
           Find(s.credentials, Agent, workspace, None))
  }

  /** Who pushes: the human or the agent, as the workspace asks. */
  function PusherOf(s: Store, workspace: Option<string>, user: Option<string>): Option<Credential> {
    match SettingsFrom(s.workspaces, workspace).mode
    case Human => HumanOf(s, workspace, user)
    case Agent => AgentOf(s, workspace, user)
  }

  /** Who is credited besides: the agent of a human's commit if the workspace asks, the
      human behind an agent's. */
  function PartnerOf(s: Store, workspace: Option<string>, user: Option<string>): Option<Credential> {
    var settings := SettingsFrom(s.workspaces, workspace);
    match settings.mode
    case Human => if settings.creditAgent then AgentOf(s, workspace, user) else None
    case Agent => HumanOf(s, workspace, user)
  }

  function HelperOf(s: Store, workspace: Option<string>, other: string): Option<Credential> {
    OrElse(AgentOf(s, workspace, Some(other)), HumanOf(s, workspace, Some(other)))
  }

  /** Everybody to name, in the order they contributed, before repetitions go. */
  function Named(s: Store, workspace: Option<string>, user: Option<string>, others: seq<string>): seq<Identity> {
    if others == [] then Identities(PartnerOf(s, workspace, user))
    else
      Named(s, workspace, user, others[..|others| - 1]) + Identities(HelperOf(s, workspace, others[|others| - 1]))
  }

  ghost predicate Ascending(at: seq<nat>) {
    forall i, j | 0 <= i < j < |at| :: at[i] < at[j]
  }

  /** `part` is what `whole` holds at the places `at`, in its order. */
  ghost predicate Picks(whole: seq<Identity>, part: seq<Identity>, at: seq<nat>) {
    && |at| == |part| && Ascending(at)
    && forall i | 0 <= i < |at| :: at[i] < |whole| && part[i] == whole[at[i]]
  }

  /** Nobody before `k` has its address. */
  ghost predicate First(named: seq<Identity>, k: nat) {
    k < |named| && forall j | 0 <= j < k :: named[j].email != named[k].email
  }

  /** The co-authors are the first of each address but the author's, in order. */
  ghost predicate Credits(named: seq<Identity>, author: Identity, coAuthors: seq<Identity>, at: seq<nat>) {
    && Picks(named, coAuthors, at)
    && forall k: nat :: k in at <==> First(named, k) && named[k].email != author.email
  }

  /** What `Resolve` is to give. */
  ghost predicate Resolution(s: Store, workspace: Option<string>, user: Option<string>, others: seq<string>,
                             r: Resolved) {
    && (match PusherOf(s, workspace, user)
        case Some(c) => r.author == c.identity && r.token == c.token && r.signingKey == c.sshKey
        case None => r.author == ANONYMOUS && r.token == None && r.signingKey == None)
    && exists at :: Credits(Named(s, workspace, user, others), r.author, r.coAuthors, at)
  }

  // ---- Resolving ----------------------------------------------------------------------

  method Resolve(s: Store, workspace: Option<string>, user: Option<string>, others: seq<string>) returns (r: Resolved)
    ensures Resolution(s, workspace, user, others, r)
  {
    var pusher := PusherOf(s, workspace, user);
    var author := if pusher.Some? then pusher.value.identity else ANONYMOUS;
    var coAuthors := Identities(PartnerOf(s, workspace, user));
    for i := 0 to |others|
      invariant coAuthors == Named(s, workspace, user, others[..i])
    {
      assert others[..i + 1][..i] == others[..i];
      coAuthors := coAuthors + Identities(HelperOf(s, workspace, others[i]));
    }
    assert others[..|others|] == others;
    var distinct, at := Dedup(coAuthors);
    var kept, at' := Without(coAuthors, distinct, at, author);
    assert Credits(Named(s, workspace, user, others), author, kept, at');
    r := if pusher.Some? then Resolved(author, kept, pusher.value.sshKey, pusher.value.token)
         else Resolved(author, kept, None, None);
  }

  method Dedup(identities: seq<Identity>) returns (out: seq<Identity>, ghost at: seq<nat>)
    ensures Picks(identities, out, at) && forall k: nat :: k in at <==> First(identities, k)
  {
    out, at := [], [];
    for n := 0 to |identities|
      invariant Picks(identities, out, at) && forall k: nat :: k in at <==> First(identities, k) && k < n
    {
      var seen := HasEmail(out, identities[n].email);
      AlreadyThere(identities, out, at, n);
      if !seen {
        assert forall i | 0 <= i < |at| :: at[i] in at;
        out, at := out + [identities[n]], at + [n];
      }
    }
  }

  // An address stands in `out` as soon as anybody before `n` had it.
  lemma AlreadyThere(identities: seq<Identity>, out: seq<Identity>, at: seq<nat>, n: nat)
    requires n < |identities| && Picks(identities, out, at)
    requires forall k: nat :: k in at <==> First(identities, k) && k < n
    ensures (exists i :: 0 <= i < |out| && out[i].email == identities[n].email) <==> !First(identities, n)
  {
    if !First(identities, n) {
      var j: nat :| j < n && identities[j].email == identities[n].email;
      var k := FirstLike(identities, j);
      var i :| 0 <= i < |at| && at[i] == k;
      assert out[i].email == identities[n].email;
    } else {
      forall i | 0 <= i < |out| ensures out[i].email != identities[n].email { assert at[i] in at; }
    }
  }

  // The first place that has the address at `j`.
  ghost function FirstLike(identities: seq<Identity>, j: nat): (k: nat)
    requires j < |identities|
    ensures k <= j && First(identities, k) && identities[k].email == identities[j].email
  {
    if First(identities, j) then j
    else
      var i: nat :| i < j && identities[i].email == identities[j].email;
      FirstLike(identities, i)
  }

  predicate HasEmail(identities: seq<Identity>, email: string) {
    exists i | 0 <= i < |identities| :: identities[i].email == email
  }

  /** Drops the places that hold the author's address. */
  method Without(ghost whole: seq<Identity>, identities: seq<Identity>, ghost at: seq<nat>, author: Identity)
    returns (out: seq<Identity>, ghost at': seq<nat>)
    requires Picks(whole, identities, at)
    ensures Picks(whole, out, at') && forall k: nat :: k in at' <==> k in at && whole[k].email != author.email
  {
    out, at' := [], [];
    for n := 0 to |identities|
      invariant Picks(whole, out, at') && forall k: nat :: k in at' <==> k in at[..n] && whole[k].email != author.email
    {
      assert at[..n + 1] == at[..n] + [at[n]];
      if identities[n].email != author.email {
        out, at' := out + [identities[n]], at' + [at[n]];
      }
    }
    assert at[..|at|] == at;
  }

  // ---- What a resolution promises -------------------------------------------------------

  lemma AscendingIsUnique(a: seq<nat>, b: seq<nat>)
    requires Ascending(a) && Ascending(b) && forall k: nat :: k in a <==> k in b
    ensures a == b
  {
    NatLeIsTotalOrder();
    assert SortedBy(NatLe, a) && SortedBy(NatLe, b);
    hide TotalOrder, SortedBy, NatLe;
    SameElements(a, b);
    SortedUnique(NatLe, a, b);
  }

  lemma CreditsAreUnique(named: seq<Identity>, author: Identity, a: seq<Identity>, b: seq<Identity>, at: seq<nat>,
                         bt: seq<nat>)
    requires Credits(named, author, a, at) && Credits(named, author, b, bt)
    ensures a == b
  {
    hide First;
    AscendingIsUnique(at, bt);
  }

  /** There is only one answer to give. */
  lemma ResolutionIsUnique(s: Store, workspace: Option<string>, user: Option<string>, others: seq<string>, r: Resolved,
                           r': Resolved)
    requires Resolution(s, workspace, user, others, r) && Resolution(s, workspace, user, others, r')
    ensures r == r'
  {
    hide Named, PusherOf, Credits;
    var named := Named(s, workspace, user, others);
    var a: seq<nat> :| Credits(named, r.author, r.coAuthors, a);
    var b: seq<nat> :| Credits(named, r.author, r'.coAuthors, b);
    CreditsAreUnique(named, r.author, r.coAuthors, r'.coAuthors, a, b);
  }

  /** The record used is the first of its kind, of its owner and of this workspace, where a record
      or a task without a workspace goes with any. */
  lemma {:induction false} FindIsTheFirst(cs: seq<Credential>, kind: Kind, workspace: Option<string>,
                                          owner: Option<string>)
    ensures match Find(cs, kind, workspace, owner)
            case Some(c) => exists i: nat :: FirstFor(cs, i, kind, workspace, owner) && cs[i] == c
            case None => forall i | 0 <= i < |cs| :: !IsFor(cs[i], kind, workspace, owner)
  {
    if cs != [] {
      var rest := cs[1..];
      FindIsTheFirst(rest, kind, workspace, owner);
      if IsFor(cs[0], kind, workspace, owner) {
        assert FirstFor(cs, 0, kind, workspace, owner);
      } else {
        hide IsFor;
        forall i: nat | FirstFor(rest, i, kind, workspace, owner) {
          FirstLater(cs, i, kind, workspace, owner);
        }
        assert forall i | 0 < i < |cs| :: cs[i] == rest[i - 1];
      }
    }
  }

  ghost predicate FirstFor(cs: seq<Credential>, i: nat, kind: Kind, workspace: Option<string>, owner: Option<string>) {
    i < |cs| && IsFor(cs[i], kind, workspace, owner) && forall j | 0 <= j < i :: !IsFor(cs[j], kind, workspace, owner)
  }

  lemma FirstLater(cs: seq<Credential>, i: nat, kind: Kind, workspace: Option<string>, owner: Option<string>)
    requires cs != [] && !IsFor(cs[0], kind, workspace, owner) && FirstFor(cs[1..], i, kind, workspace, owner)
    ensures FirstFor(cs, i + 1, kind, workspace, owner) && cs[i + 1] == cs[1..][i]
  {
    hide IsFor;
    assert forall j | 0 < j < |cs| :: cs[j] == cs[1..][j - 1];
  }

  ghost predicate IsFor(c: Credential, kind: Kind, workspace: Option<string>, owner: Option<string>) {
    && c.kind == kind && c.owner == owner
    && (c.workspace == None || workspace == None || c.workspace == workspace)
  }

  /** The settings are the first that go with the workspace; without any, humans push and no
      agent is credited. */
  lemma {:induction false} SettingsAreTheFirst(ws: seq<Workspace>, workspace: Option<string>)
    ensures var settings := SettingsFrom(ws, workspace);
            if exists i :: GoesWith(ws, i, workspace) then
              exists i :: GoesWith(ws, i, workspace) && ws[i] == settings
                          && forall j | GoesWith(ws, j, workspace) :: i <= j
            else settings.mode == Human && !settings.creditAgent
  {
    if ws != [] {
      SettingsAreTheFirst(ws[1..], workspace);
      assert forall i | GoesWith(ws[1..], i, workspace) :: GoesWith(ws, i + 1, workspace);
      assert forall i | GoesWith(ws, i, workspace) && i != 0 :: GoesWith(ws[1..], i - 1, workspace);
      if !GoesWith(ws, 0, workspace) {
        if i :| GoesWith(ws[1..], i, workspace) && ws[1..][i] == SettingsFrom(ws[1..], workspace)
                && forall j | GoesWith(ws[1..], j, workspace) :: i <= j {
          assert GoesWith(ws, i + 1, workspace) && ws[i + 1] == SettingsFrom(ws, workspace);
        }
      }
    }
  }

  ghost predicate GoesWith(ws: seq<Workspace>, i: int, workspace: Option<string>) {
    && 0 <= i < |ws|
    && (ws[i].workspace == None || workspace == None || ws[i].workspace == workspace)
  }

  /** Credited besides whoever pushes: behind a human the agent that would push, if the workspace
      asks for it; behind an agent the human, if they registered; nobody else. */
  lemma PartnerIs(s: Store, workspace: Option<string>, user: Option<string>)
    ensures var settings := SettingsFrom(s.workspaces, workspace);
            var other := if settings.mode == Human then Agent else Human;
            match PartnerOf(s, workspace, user)
            case Some(c) => (settings.mode == Human ==> settings.creditAgent) && c in s.credentials
                              && MayPush(s, c, other, workspace, user)
            case None => (settings.mode == Human && !settings.creditAgent)
                         || forall c | c in s.credentials :: !MayPush(s, c, other, workspace, user)
  {
  }

  /** A helper is credited by their own agent, else by the shared one, else by themselves. */
  lemma HelperIs(s: Store, workspace: Option<string>, other: string, c: Credential)
    requires HelperOf(s, workspace, other) == Some(c)
    ensures c in s.credentials
    ensures if exists d :: d in s.credentials && IsFor(d, Agent, workspace, Some(other)) then
              IsFor(c, Agent, workspace, Some(other))
            else if exists d :: d in s.credentials && IsFor(d, Agent, workspace, None) then
              IsFor(c, Agent, workspace, None)
            else IsFor(c, Human, workspace, Some(other))
  {
    assert forall d, kind, owner :: IsFor(d, kind, workspace, owner) <==> Serves(d, kind, workspace, owner);
  }

  /** No two co-authors share an address, and none has the author's. */
  lemma CoAuthorsAreDistinct(s: Store, workspace: Option<string>, user: Option<string>, others: seq<string>,
                             r: Resolved)
    requires Resolution(s, workspace, user, others, r)
    ensures forall i, j | 0 <= i < j < |r.coAuthors| :: r.coAuthors[i].email != r.coAuthors[j].email
    ensures forall i | 0 <= i < |r.coAuthors| :: r.coAuthors[i].email != r.author.email
  {
    var at: seq<nat> :| Credits(Named(s, workspace, user, others), r.author, r.coAuthors, at);
    hide Named, PusherOf;
    assert forall i | 0 <= i < |at| :: at[i] in at;
  }

  /** Who pushes owns the name, the token and the key, all of one record: the user's
      own under a human's name, and under an agent's the shared one only for somebody
      with none of their own. */
  lemma OneRecordPushes(s: Store, workspace: Option<string>, user: Option<string>, others: seq<string>, r: Resolved)
    requires Resolution(s, workspace, user, others, r)
    ensures var mode := SettingsFrom(s.workspaces, workspace).mode;
      if exists c :: c in s.credentials && MayPush(s, c, mode, workspace, user) then
        exists c :: c in s.credentials && MayPush(s, c, mode, workspace, user)
          && r.author == c.identity && r.token == c.token && r.signingKey == c.sshKey
      else r.author == Identity("lgtm", "lgtm@localhost") && r.token == None && r.signingKey == None
  {
    var p := PusherOf(s, workspace, user);
    if p.Some? { assert MayPush(s, p.value, SettingsFrom(s.workspaces, workspace).mode, workspace, user); }
  }

  ghost predicate MayPush(s: Store, c: Credential, mode: Kind, workspace: Option<string>, user: Option<string>) {
    && c.kind == mode && SameWorkspace(c.workspace, workspace)
    && match mode
       case Human => user.Some? && c.owner == user
       case Agent => if HasOwnAgent(s, workspace, user) then c.owner == user else c.owner == None
  }

  ghost predicate HasOwnAgent(s: Store, workspace: Option<string>, user: Option<string>) {
    user.Some? && exists c :: c in s.credentials && Serves(c, Agent, workspace, user)
  }

  // Somebody who took part: the user or one of the others.
  predicate TookPart(person: string, user: Option<string>, others: seq<string>) {
    user == Some(person) || person in others
  }

  /** A record of this workspace that belongs to somebody who took part, or is the
      shared agent: nobody shares a human's. */
  ghost predicate Involved(c: Credential, workspace: Option<string>, user: Option<string>, others: seq<string>) {
    && SameWorkspace(c.workspace, workspace)
    && (if c.owner.Some? then TookPart(c.owner.value, user, others) else c.kind == Agent)
  }

  /** Every co-author is a registered record of somebody involved. */
  lemma OnlyTheInvolvedAreCredited(s: Store, workspace: Option<string>, user: Option<string>, others: seq<string>,
                                   r: Resolved, who: Identity)
    requires Resolution(s, workspace, user, others, r) && who in r.coAuthors
    ensures exists c :: c in s.credentials && Involved(c, workspace, user, others) && c.identity == who
  {
    var at: seq<nat> :| Credits(Named(s, workspace, user, others), r.author, r.coAuthors, at);
    NamedAreInvolved(s, workspace, user, others, who);
  }

  lemma {:induction false} NamedAreInvolved(s: Store, workspace: Option<string>, user: Option<string>,
                                            others: seq<string>, who: Identity)
    requires who in Named(s, workspace, user, others)
    ensures exists c :: c in s.credentials && Involved(c, workspace, user, others) && c.identity == who
  {
    if others == [] {
      var c := PartnerOf(s, workspace, user).value;
      assert Involved(c, workspace, user, others);
    } else {
      var front, last := others[..|others| - 1], others[|others| - 1];
      if who in Named(s, workspace, user, front) {
        NamedAreInvolved(s, workspace, user, front, who);
        var c :| c in s.credentials && Involved(c, workspace, user, front) && c.identity == who;
        assert Involved(c, workspace, user, others);
      } else {
        var c := HelperOf(s, workspace, last).value;
        assert Involved(c, workspace, user, others);
      }
    }
  }

  // Credited by name, or by an address that already stands on the commit.
  ghost predicate Credited(who: Identity, r: Resolved, earlier: seq<Identity>) {
    || who in r.coAuthors
    || who.email == r.author.email
    || exists c :: c in r.coAuthors && c in earlier && c.email == who.email
  }

  lemma FirstsAreCredited(named: seq<Identity>, author: Identity, coAuthors: seq<Identity>, at: seq<nat>, k: nat)
    requires Credits(named, author, coAuthors, at) && k < |named| && named[k].email != author.email
    ensures exists c :: c in coAuthors && c.email == named[k].email && (c == named[k] || c in named[..k])
  {
    var j := FirstLike(named, k);
    assert j in at;
    var i :| 0 <= i < |at| && at[i] == j;
    assert coAuthors[i] == named[j];
    if j < k { assert named[j] in named[..k]; }
  }

  /** The partner is credited unless their address is the author's. */
  lemma PartnerIsCredited(s: Store, workspace: Option<string>, user: Option<string>, others: seq<string>, r: Resolved)
    requires Resolution(s, workspace, user, others, r) && PartnerOf(s, workspace, user).Some?
    ensures Credited(PartnerOf(s, workspace, user).value.identity, r, [])
  {
    hide PusherOf, PartnerOf, Credits;
    var named, partner := Named(s, workspace, user, others), PartnerOf(s, workspace, user).value.identity;
    var at: seq<nat> :| Credits(named, r.author, r.coAuthors, at);
    NamedGrows(s, workspace, user, others, 0);
    assert named[0] == partner;
    if partner.email != r.author.email {
      FirstsAreCredited(named, r.author, r.coAuthors, at, 0);
    }
  }

  /** Every helper with a record to be credited by is credited, unless their address is
      the author's or that of a co-author named before them. */
  lemma HelperIsCredited(s: Store, workspace: Option<string>, user: Option<string>, others: seq<string>, r: Resolved,
                         k: nat)
    requires Resolution(s, workspace, user, others, r) && k < |others| && HelperOf(s, workspace, others[k]).Some?
    ensures Credited(HelperOf(s, workspace, others[k]).value.identity, r, Named(s, workspace, user, others[..k]))
  {
    hide PusherOf, PartnerOf, HelperOf, Credits;
    var named, helper := Named(s, workspace, user, others), HelperOf(s, workspace, others[k]).value.identity;
    var before := Named(s, workspace, user, others[..k]);
    var at: seq<nat> :| Credits(named, r.author, r.coAuthors, at);
    NamedGrows(s, workspace, user, others, k + 1);
    assert others[..k + 1][..k] == others[..k];
    assert before + [helper] <= named;
    if helper.email != r.author.email {
      assert named[|before|] == helper && named[..|before|] == before;
      FirstsAreCredited(named, r.author, r.coAuthors, at, |before|);
    }
  }

  lemma {:induction false} NamedGrows(s: Store, workspace: Option<string>, user: Option<string>, others: seq<string>,
                                      k: nat)
    requires k <= |others|
    ensures Named(s, workspace, user, others[..k]) <= Named(s, workspace, user, others)
  {
    if k < |others| {
      NamedGrows(s, workspace, user, others[..|others| - 1], k);
      assert others[..|others| - 1][..k] == others[..k];
    } else {
      assert others[..k] == others;
    }
  }

  // Their own record, or the shared agent.
  predicate CanCredit(c: Credential, workspace: Option<string>, other: string) {
    SameWorkspace(c.workspace, workspace) && (c.owner == Some(other) || (c.owner == None && c.kind == Agent))
  }

  /** A helper has a record to be credited by exactly if they registered one, as agent
      or human, or the workspace shares an agent. */
  lemma HelperIsRegistered(s: Store, workspace: Option<string>, other: string)
    ensures HelperOf(s, workspace, other).Some? <==>
      exists c :: c in s.credentials && CanCredit(c, workspace, other)
  {
    if c :| c in s.credentials && CanCredit(c, workspace, other) {
      assert Serves(c, c.kind, workspace, c.owner);
    }
  }
}
