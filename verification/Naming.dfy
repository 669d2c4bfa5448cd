/** What projects are called (crates/orchestrator/src/project.rs), and which prefixes a
    list of repositories is given when they are introduced one after the other. */
module Naming {
  import opened Protocol
  import opened Orders
  import opened Prefixes

  type Repository = Option<string>

  // ---- Names ---------------------------------------------------------------------

  function TrimSlashes(s: string): string {
    if s != "" && s[|s| - 1] == '/' then TrimSlashes(s[..|s| - 1]) else s
  }

  function LastSegment(s: string): string {
    if s == "" then ""
    else if s[|s| - 1] == '/' || s[|s| - 1] == ':' then ""
    else LastSegment(s[..|s| - 1]) + [s[|s| - 1]]
  }

  function TrimGit(s: string): string {
    if |s| >= 4 && s[|s| - 4..] == ".git" then TrimGit(s[..|s| - 4]) else s
  }

  /** What follows the last separator of a URL, if anything does. */
  function ProjectName(repository: Repository): string {
    if repository.None? then "general"
    else
      var name := TrimGit(LastSegment(TrimSlashes(repository.value)));
      if name == "" then "general" else name
  }

  predicate Plain(name: string) { forall i | 0 <= i < |name| :: name[i] != '/' && name[i] != ':' }

  predicate Slashes(s: string) { forall i | 0 <= i < |s| :: s[i] == '/' }

  lemma {:induction false} TrimmedSlashes(s: string, slashes: string)
    requires Slashes(slashes) && (s == "" || s[|s| - 1] != '/')
    ensures TrimSlashes(s + slashes) == s
  {
    if slashes != "" {
      var n := |slashes| - 1;
      TrimmedSlashes(s, slashes[..n]);
      assert (s + slashes)[..|s + slashes| - 1] == s + slashes[..n];
    } else {
      assert s + slashes == s;
    }
  }

  lemma {:induction false} LastSegmentIs(head: string, name: string)
    requires Plain(name)
    requires head == "" || head[|head| - 1] == '/' || head[|head| - 1] == ':'
    ensures LastSegment(head + name) == name
  {
    if name == "" {
      assert head + name == head;
    } else {
      var n := |name| - 1;
      LastSegmentIs(head, name[..n]);
      assert (head + name)[..|head + name| - 1] == head + name[..n];
    }
  }

  lemma GitTrimmed(name: string, git: string)
    requires !HasGit(name) && (git == "" || git == ".git")
    ensures TrimGit(name + git) == name
  {
    if git == "" {
      assert name + git == name;
    } else {
      assert (name + git)[|name|..] == ".git" && (name + git)[..|name|] == name;
    }
  }

  predicate HasGit(name: string) { |name| >= 4 && name[|name| - 4..] == ".git" }

  /** A project is called what its repository is: what stands after the last slash or colon,
      without slashes after it and without `.git`. */
  lemma NamedAfterItsRepository(head: string, name: string, git: string, slashes: string)
    requires name != "" && Plain(name) && !HasGit(name) && (git == "" || git == ".git") && Slashes(slashes)
    requires head == "" || head[|head| - 1] == '/' || head[|head| - 1] == ':'
    ensures ProjectName(Some(head + (name + git) + slashes)) == name
    ensures ProjectName(None) == ProjectName(Some(slashes)) == "general"
  {
    var full := name + git;
    PlainWithGit(name, git);
    GitTrimmed(name, git);
    TrimmedSlashes(head + full, slashes);
    TrimmedSlashes("", slashes);
    assert "" + slashes == slashes && TrimGit(LastSegment("")) == "";
    LastSegmentIs(head, full);
    hide TrimSlashes, LastSegment, TrimGit;
  }

  lemma PlainWithGit(name: string, git: string)
    requires name != "" && Plain(name) && (git == "" || git == ".git")
    ensures Plain(name + git) && (name + git)[|name + git| - 1] != '/'
  {
  }

  // ---- Prefixes, one after the other -------------------------------------------------

  function PrefixFor(r: Repository, taken: set<string>): string { DerivePrefix(ProjectName(r), taken) }

  /** The prefix each repository of `order` is given while `taken` are held. */
  function Given(taken: set<string>, order: seq<Repository>): (m: map<Repository, string>)
    ensures forall r :: r in m <==> r in order
  {
    if order == [] then map[]
    else
      var before, r := Given(taken, order[..|order| - 1]), order[|order| - 1];
      assert order == order[..|order| - 1] + [r];
      before[r := PrefixFor(r, taken + before.Values)]
  }

  lemma GivenOne(taken: set<string>, r: Repository)
    ensures Given(taken, []) == map[]
    ensures Given(taken, [r]) == map[r := PrefixFor(r, taken)] && Given(taken, [r]).Values == {PrefixFor(r, taken)}
  {
    assert [r][..0] == [];
    assert taken + Given(taken, []).Values == taken;
    assert Given(taken, [r]) == map[r := PrefixFor(r, taken)];
    assert map[r := PrefixFor(r, taken)].Values == {PrefixFor(r, taken)};
  }

  lemma NewValue(m: map<Repository, string>, r: Repository, p: string)
    requires r !in m
    ensures m[r := p].Values == m.Values + {p}
  {
    var n := m[r := p];
    forall q | q in m.Values + {p} ensures q in n.Values {
      if q in m.Values { var s :| s in m && m[s] == q; assert n[s] == q; } else { assert n[r] == p; }
    }
  }

  lemma GivenOneMore(taken: set<string>, order: seq<Repository>, r: Repository)
    requires r !in order
    ensures var before := Given(taken, order);
            var p := PrefixFor(r, taken + before.Values);
            Given(taken, order + [r]) == before[r := p] && before[r := p].Values == before.Values + {p}
  {
    assert (order + [r])[..|order|] == order;
    NewValue(Given(taken, order), r, PrefixFor(r, taken + Given(taken, order).Values));
  }

  ghost predicate Lists(order: seq<Repository>, rs: set<Repository>) {
    Distinct(order) && forall r :: r in order <==> r in rs
  }

  /** No two of these repositories would take the same prefix if each came first. */
  ghost predicate Apart(taken: set<string>, rs: set<Repository>) {
    forall r, s | r in rs && s in rs && r != s :: PrefixFor(r, taken) != PrefixFor(s, taken)
  }

  /** Repositories that do not clash are given what each would be given first. */
  lemma {:induction false} ApartAreGivenTheirFirst(taken: set<string>, order: seq<Repository>, rs: set<Repository>)
    requires Distinct(order) && Apart(taken, rs) && forall r | r in order :: r in rs
    ensures forall r | r in order :: Given(taken, order)[r] == PrefixFor(r, taken)
  {
    if order != [] {
      var front, last := order[..|order| - 1], order[|order| - 1];
      assert order == front + [last];
      ApartAreGivenTheirFirst(taken, front, rs);
      var held := Given(taken, front).Values;
      assert last !in front;
      DerivedPrefixIsFree(ProjectName(last), taken);
      assert PrefixFor(last, taken) !in held;
      OthersDoNotMatter(ProjectName(last), taken, taken + held);
    }
  }

  lemma {:induction false} Listed(rs: set<Repository>) returns (order: seq<Repository>)
    ensures Lists(order, rs)
  {
    order := [];
    if rs != {} {
      var r :| r in rs;
      var rest := Listed(rs - {r});
      order := rest + [r];
    }
  }

  // The first two of a list are given what they are given on their own.
  lemma {:induction false} LaterOnesDoNotMatter(taken: set<string>, order: seq<Repository>, n: nat, r: Repository)
    requires n <= |order| && Distinct(order) && r in order[..n]
    ensures r in order && Given(taken, order)[r] == Given(taken, order[..n])[r]
  {
    if n < |order| {
      var front := order[..|order| - 1];
      assert front[..n] == order[..n] && order == front + [order[|order| - 1]];
      LaterOnesDoNotMatter(taken, front, n, r);
    } else {
      assert order[..n] == order;
    }
  }

  lemma OneThenTheOther(taken: set<string>, r: Repository, s: Repository)
    requires r != s
    ensures Given(taken, [r]) == map[r := PrefixFor(r, taken)]
    ensures Given(taken, [r, s])[s] == PrefixFor(s, taken + {PrefixFor(r, taken)})
  {
    GivenOne(taken, r);
    assert [r, s][..1] == [r];
  }

  lemma TwoFirst(taken: set<string>, r: Repository, s: Repository, rest: seq<Repository>)
    requires Distinct([r, s] + rest)
    ensures var m := Given(taken, [r, s] + rest);
            m[r] == PrefixFor(r, taken) && m[s] == PrefixFor(s, taken + {PrefixFor(r, taken)})
  {
    hide Given;
    var order := [r, s] + rest;
    assert order[..1] == [r] && order[..2] == [r, s] && order[0] != order[1];
    LaterOnesDoNotMatter(taken, order, 1, r);
    LaterOnesDoNotMatter(taken, order, 2, s);
    OneThenTheOther(taken, r, s);
  }

  lemma TwoMore(rs: set<Repository>, r: Repository, s: Repository, rest: seq<Repository>)
    requires r in rs && s in rs && r != s && Lists(rest, rs - {s, r})
    ensures Lists([r, s] + rest, rs) && Distinct([r, s] + rest)
  {
    var order := [r, s] + rest;
    forall i, j | 0 <= i < j < |order| ensures order[i] != order[j] {
      assert i >= 2 ==> order[i] == rest[i - 2];
      assert j >= 2 ==> order[j] == rest[j - 2] && order[j] in rest;
    }
  }

  lemma TwoThatClash(taken: set<string>, rs: set<Repository>, r: Repository, s: Repository)
    returns (p: seq<Repository>, q: seq<Repository>)
    requires r in rs && s in rs && r != s && PrefixFor(r, taken) == PrefixFor(s, taken)
    ensures Lists(p, rs) && Lists(q, rs) && r in p && r in q && Given(taken, p)[r] != Given(taken, q)[r]
  {
    hide Given, Lists;
    var rest := Listed(rs - {s, r});
    p, q := [r, s] + rest, [s, r] + rest;
    TwoMore(rs, r, s, rest);
    TwoMore(rs, s, r, rest);
    TwoFirst(taken, r, s, rest);
    TwoFirst(taken, s, r, rest);
    DerivedPrefixIsFree(ProjectName(r), taken + {PrefixFor(s, taken)});
  }

  /** Introducing repositories in any order gives each the same prefix exactly if no two
      of them would take the same one at the outset. */
  lemma OrderMattersIffSomeClash(taken: set<string>, rs: set<Repository>)
    ensures (forall p, q | Lists(p, rs) && Lists(q, rs) :: Given(taken, p) == Given(taken, q)) <==> Apart(taken, rs)
  {
    if Apart(taken, rs) {
      forall p, q | Lists(p, rs) && Lists(q, rs) ensures Given(taken, p) == Given(taken, q) {
        ApartAreGivenTheirFirst(taken, p, rs);
        ApartAreGivenTheirFirst(taken, q, rs);
      }
    } else {
      var r, s :| r in rs && s in rs && r != s && PrefixFor(r, taken) == PrefixFor(s, taken);
      var p, q := TwoThatClash(taken, rs, r, s);
    }
  }
}
