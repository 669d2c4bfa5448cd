/** Finding skills on disk (crates/cli/src/skills.rs): which directories are
    discovered, and which of several that claim one name is kept. */
module Skills {
  import opened Protocol
  import opened Orders

  type Path = seq<string>

  /** A directory as `read_dir` shows it; an unreadable one shows nothing. */
  datatype Dir = Dir(hasSkill: bool, children: map<string, Dir>)

  const MAX_DEPTH: nat := 4

  predicate Skipped(name: string) { name == ".git" || name == "node_modules" || name == "target" }

  // ---- What is to be found ------------------------------------------------------

  function At(d: Dir, q: Path): Option<Dir> {
    if q == [] then Some(d)
    else if q[0] in d.children then At(d.children[q[0]], q[1..])
    else None
  }

  /** A skill lies `q` below a directory `depth` below the start: near enough,
      through no skipped name, and with no other skill on the way but the start's. */
  ghost predicate Findable(d: Dir, depth: nat, q: Path) {
    && depth + |q| <= MAX_DEPTH
    && At(d, q).Some? && At(d, q).value.hasSkill
    && (forall name | name in q :: !Skipped(name))
    && (forall k | 0 <= k < |q| :: depth + k > 0 ==> At(d, q[..k]).Some? && !At(d, q[..k]).value.hasSkill)
  }

  /** Looking below a directory is looking in each of its children. */
  lemma FindableBelow(d: Dir, depth: nat, name: string, q: Path)
    ensures Findable(d, depth, [name] + q) <==>
              && depth < MAX_DEPTH && !(d.hasSkill && depth > 0)
              && name in d.children && !Skipped(name)
              && Findable(d.children[name], depth + 1, q)
  {
    var p := [name] + q;
    assert p[0] == name && p[1..] == q;
    assert forall k | 0 < k <= |p| :: p[..k][0] == name && p[..k][1..] == q[..k - 1];
    if Findable(d, depth, p) {
      assert p[..0] == [];
      assert name in p;
      assert forall n | n in q :: n in p;
      forall k | 0 <= k < |q|
        ensures At(d.children[name], q[..k]).Some? && !At(d.children[name], q[..k]).value.hasSkill
      {
        assert At(d, p[..k + 1]).Some?;
      }
    }
    if depth < MAX_DEPTH && !(d.hasSkill && depth > 0) && name in d.children && !Skipped(name)
       && Findable(d.children[name], depth + 1, q)
    {
      forall k | 0 <= k < |p| && depth + k > 0 ensures At(d, p[..k]).Some? && !At(d, p[..k]).value.hasSkill {
        if k == 0 { assert p[..0] == []; }
      }
      forall n | n in p ensures !Skipped(n) { assert n == name || n in q; }
    }
  }

  // ---- The walk -------------------------------------------------------------------

  /** `found` is exactly what lies below `path`, each once. */
  ghost predicate Finds(found: seq<Path>, path: Path, d: Dir, depth: nat) {
    && Distinct(found)
    && (forall p :: p in found <==> path <= p && Findable(d, depth, p[|path|..]))
  }

  // What lies below the listed children of `path`.
  ghost predicate FindsIn(found: seq<Path>, path: Path, d: Dir, depth: nat, names: seq<string>) {
    && Distinct(found)
    && (forall p :: p in found <==>
          path < p && p[|path|] in names && !Skipped(p[|path|]) && p[|path|] in d.children
          && Findable(d.children[p[|path|]], depth + 1, p[|path| + 1..]))
  }

  lemma Below(path: Path, p: Path)
    requires path < p
    ensures p[|path|..] == [p[|path|]] + p[|path| + 1..]
    ensures path + [p[|path|]] <= p
  {
  }

  lemma DistinctConcat(a: seq<Path>, b: seq<Path>)
    requires Distinct(a) && Distinct(b) && forall p | p in a :: p !in b
    ensures Distinct(a + b)
  {
    forall i, j | 0 <= i < j < |a + b| ensures (a + b)[i] != (a + b)[j] {
      if i < |a| <= j { assert a[i] in a && b[j - |a|] in b; }
    }
  }

  lemma OneChild(before: seq<Path>, more: seq<Path>, path: Path, d: Dir, depth: nat, names: seq<string>, name: string)
    requires FindsIn(before, path, d, depth, names) && name !in names && name in d.children && !Skipped(name)
    requires Finds(more, path + [name], d.children[name], depth + 1)
    ensures FindsIn(before + more, path, d, depth, names + [name])
  {
    forall p
      ensures p in more <==> path < p && p[|path|] == name && Findable(d.children[name], depth + 1, p[|path| + 1..])
    {
      if path < p { Below(path, p); }
      assert path + [name] <= p <==> path < p && p[|path|] == name;
    }
    forall p | p in before ensures p !in more { }
    DistinctConcat(before, more);
  }

  lemma SkippedChild(before: seq<Path>, path: Path, d: Dir, depth: nat, names: seq<string>, name: string)
    requires FindsIn(before, path, d, depth, names) && (Skipped(name) || name !in d.children)
    ensures FindsIn(before, path, d, depth, names + [name])
  {
  }

  lemma AllChildren(here: seq<Path>, below: seq<Path>, path: Path, d: Dir, depth: nat, names: seq<string>)
    requires depth < MAX_DEPTH && !(d.hasSkill && depth > 0)
    requires here == if d.hasSkill then [path] else []
    requires FindsIn(below, path, d, depth, names) && forall n | n in d.children :: n in names
    ensures Finds(here + below, path, d, depth)
  {
    forall p ensures p in here + below <==> path <= p && Findable(d, depth, p[|path|..]) {
      if path < p {
        Below(path, p);
        FindableBelow(d, depth, p[|path|], p[|path| + 1..]);
      } else if path <= p {
        assert p == path && p[|path|..] == [];
      }
    }
    DistinctConcat(here, below);
  }

  lemma NothingBelow(here: seq<Path>, path: Path, d: Dir, depth: nat)
    requires depth <= MAX_DEPTH && (depth == MAX_DEPTH || (d.hasSkill && depth > 0))
    requires here == if d.hasSkill then [path] else []
    ensures Finds(here, path, d, depth)
  {
    forall p ensures p in here <==> path <= p && Findable(d, depth, p[|path|..]) {
      if path < p {
        Below(path, p);
        FindableBelow(d, depth, p[|path|], p[|path| + 1..]);
      } else if path <= p {
        assert p == path && p[|path|..] == [];
      }
    }
  }

  method Walk(path: Path, d: Dir, depth: nat, found: seq<Path>) returns (all: seq<Path>)
    requires depth <= MAX_DEPTH
    ensures found <= all && Finds(all[|found|..], path, d, depth)
    decreases MAX_DEPTH - depth
  {
    hide Finds, FindsIn, Findable;
    all := found;
    ghost var here := if d.hasSkill then [path] else [];
    if d.hasSkill {
      all := all + [path];
      if depth > 0 {
        NothingBelow(here, path, d, depth);
        assert all[|found|..] == here;
        return;
      }
    }
    if depth == MAX_DEPTH {
      NothingBelow(here, path, d, depth);
      assert all[|found|..] == here;
      return;
    }
    var names := SortedNames(d);
    ghost var below: seq<Path> := [];
    NoChildrenYet(path, d, depth);
    for i := 0 to |names|
      invariant all == found + here + below && FindsIn(below, path, d, depth, names[..i])
    {
      assert names[..i + 1] == names[..i] + [names[i]];
      if Skipped(names[i]) {
        SkippedChild(below, path, d, depth, names[..i], names[i]);
        continue;
      }
      ghost var was := all;
      all := Walk(path + [names[i]], d.children[names[i]], depth + 1, all);
      OneChild(below, all[|was|..], path, d, depth, names[..i], names[i]);
      below := below + all[|was|..];
    }
    assert names[..|names|] == names;
    AllChildren(here, below, path, d, depth, names);
    assert all[|found|..] == here + below;
  }

  lemma NoChildrenYet(path: Path, d: Dir, depth: nat)
    ensures FindsIn([], path, d, depth, [])
  {
  }

  /** The entries of a directory in name order. */
  method SortedNames(d: Dir) returns (names: seq<string>)
    ensures Distinct(names) && SortedBy(StringLe, names) && forall n :: n in names <==> n in d.children
  {
    var found: seq<string> := [];
    var rest := d.children.Keys;
    while rest != {}
      invariant rest <= d.children.Keys && Distinct(found)
      invariant forall n :: n in found <==> n in d.children && n !in rest
      decreases rest
    {
      var n :| n in rest;
      rest := rest - {n};
      found := found + [n];
    }
    StringLeIsTotalOrder();
    SortSorted(StringLe, found);
    SortDistinct(StringLe, found);
    names := Sort(StringLe, found);
  }

  /** Component by component, as paths are ordered. */
  predicate PathLe(a: Path, b: Path) {
    if a == [] then true
    else if b == [] then false
    else if a[0] == b[0] then PathLe(a[1..], b[1..])
    else StringLe(a[0], b[0])
  }

  lemma {:induction false} PathTotal(a: Path, b: Path)
    ensures PathLe(a, b) || PathLe(b, a)
  {
    if a != [] && b != [] {
      if a[0] == b[0] { PathTotal(a[1..], b[1..]); } else { StringTotal(a[0], b[0]); }
    }
  }

  lemma {:induction false} PathAntisymmetric(a: Path, b: Path)
    requires PathLe(a, b) && PathLe(b, a)
    ensures a == b
  {
    if a != [] && b != [] {
      if a[0] == b[0] {
        PathAntisymmetric(a[1..], b[1..]);
        assert a == [a[0]] + a[1..] && b == [b[0]] + b[1..];
      } else {
        StringAntisymmetric(a[0], b[0]);
      }
    }
  }

  lemma {:induction false} PathTransitive(a: Path, b: Path, c: Path)
    requires PathLe(a, b) && PathLe(b, c)
    ensures PathLe(a, c)
  {
    if a != [] {
      if a[0] == b[0] == c[0] {
        PathTransitive(a[1..], b[1..], c[1..]);
      } else if a[0] != b[0] && b[0] != c[0] {
        StringTransitive(a[0], b[0], c[0]);
        if a[0] == c[0] { StringAntisymmetric(a[0], b[0]); }
      }
    }
  }

  lemma PathLeIsTotalOrder()
    ensures TotalOrder(PathLe)
  {
    forall a, b ensures PathLe(a, b) || PathLe(b, a) { PathTotal(a, b); }
    forall a, b | PathLe(a, b) && PathLe(b, a) ensures a == b { PathAntisymmetric(a, b); }
    forall a, b, c | PathLe(a, b) && PathLe(b, c) ensures PathLe(a, c) { PathTransitive(a, b, c); }
  }

  /** What the walk finds from the start, in path order. */
  method Discover(d: Dir) returns (found: seq<Path>)
    ensures Distinct(found) && SortedBy(PathLe, found)
    ensures forall p :: p in found <==> Findable(d, 0, p)
  {
    var all := Walk([], d, 0, []);
    assert all[0..] == all;
    PathLeIsTotalOrder();
    SortSorted(PathLe, all);
    SortDistinct(PathLe, all);
    found := Sort(PathLe, all);
    forall p ensures p in found <==> Findable(d, 0, p) { assert p[0..] == p; }
  }

  /** What is discovered: the skills at most four levels down, on a way that goes through none
      of the directories that are skipped and past no skill but the start's. */
  lemma WhatIsDiscovered(d: Dir, p: Path)
    ensures Findable(d, 0, p) <==>
              && |p| <= 4 && At(d, p).Some? && At(d, p).value.hasSkill
              && ".git" !in p && "node_modules" !in p && "target" !in p
              && forall k | 0 < k < |p| :: At(d, p[..k]).Some? && !At(d, p[..k]).value.hasSkill
  {
    assert (forall name | name in p :: !Skipped(name)) <==>
             ".git" !in p && "node_modules" !in p && "target" !in p;
  }

  // ---- Two skills of one name ------------------------------------------------------

  datatype Reason = NotASkill(message: string) | DuplicateOf(dir: Path)

  /** What reading one directory gave: the name in its header, or why it is no skill. */
  type Outcome = Result<string, Reason>

  datatype Entry = Entry(dir: Path, index: nat)

  // By depth, then path. The source's sort is stable, so a directory named twice
  // is taken in the order it was named.
  predicate EntryLe(a: Entry, b: Entry) {
    if |a.dir| != |b.dir| then |a.dir| < |b.dir|
    else if a.dir != b.dir then PathLe(a.dir, b.dir)
    else a.index <= b.index
  }

  lemma EntryLeIsTotalOrder()
    ensures TotalOrder(EntryLe)
  {
    PathLeIsTotalOrder();
  }

  // `i` is a skill called `name`.
  predicate Claims(outcomes: seq<Outcome>, i: nat, name: string) {
    i < |outcomes| && outcomes[i] == Ok(name)
  }

  /** No directory claiming the name of `i` comes before it. */
  ghost predicate Wins(dirs: seq<Path>, outcomes: seq<Outcome>, i: nat)
    requires |dirs| == |outcomes|
  {
    && i < |outcomes| && outcomes[i].Ok?
    && forall j: nat | Claims(outcomes, j, outcomes[i].value) :: EntryLe(Entry(dirs[i], i), Entry(dirs[j], j))
  }

  /** Every name that is claimed at all has exactly one winner. */
  lemma OneWinner(dirs: seq<Path>, outcomes: seq<Outcome>, name: string)
    requires |dirs| == |outcomes| && exists i: nat :: Claims(outcomes, i, name)
    ensures exists w: nat :: Claims(outcomes, w, name) && Wins(dirs, outcomes, w)
    ensures forall v: nat, w: nat ::
      Claims(outcomes, v, name) && Wins(dirs, outcomes, v) && Claims(outcomes, w, name) && Wins(dirs, outcomes, w)
      ==> v == w
  {
    EntryLeIsTotalOrder();
    var w := Least(dirs, outcomes, name, |outcomes|);
  }

  ghost function Least(dirs: seq<Path>, outcomes: seq<Outcome>, name: string, n: nat): (w: nat)
    requires |dirs| == |outcomes| && n <= |outcomes| && exists i: nat :: i < n && Claims(outcomes, i, name)
    ensures w < n && Claims(outcomes, w, name)
    ensures forall j: nat | j < n && Claims(outcomes, j, name) :: EntryLe(Entry(dirs[w], w), Entry(dirs[j], j))
  {
    EntryLeIsTotalOrder();
    if !Claims(outcomes, n - 1, name) then Least(dirs, outcomes, name, n - 1)
    else if exists i: nat :: i < n - 1 && Claims(outcomes, i, name) then
      var w := Least(dirs, outcomes, name, n - 1);
      if EntryLe(Entry(dirs[w], w), Entry(dirs[n - 1], n - 1)) then w else n - 1
    else n - 1
  }

  /** Where two paths part, the smaller name decides; a directory comes before what is in it. */
  lemma {:induction false} PathLeIs(a: Path, b: Path)
    ensures PathLe(a, b) <==> a <= b || exists k: nat :: DiffersAt(a, b, k) && StringLe(a[k], b[k])
  {
    if a != [] && b != [] {
      forall k: nat { DiffersLater(a, b, k); }
      if a[0] == b[0] {
        PathLeIs(a[1..], b[1..]);
        assert a <= b <==> a[1..] <= b[1..];
        if k: nat :| DiffersAt(a[1..], b[1..], k) && StringLe(a[1..][k], b[1..][k]) {
          DiffersLater(a, b, k + 1);
          assert DiffersAt(a, b, k + 1);
        }
      } else {
        assert DiffersAt(a, b, 0);
      }
    }
  }

  /** The winner of a name is the shallowest directory that claims it; of those at one depth
      the first by path, name by name and character by character; of one directory named
      twice the first mention. */
  lemma TheWinnerIsTheShallowest(dirs: seq<Path>, outcomes: seq<Outcome>, w: nat, j: nat)
    requires |dirs| == |outcomes| && Wins(dirs, outcomes, w) && Claims(outcomes, j, outcomes[w].value)
    ensures |dirs[w]| <= |dirs[j]|
    ensures |dirs[w]| == |dirs[j]| && dirs[w] != dirs[j] ==>
              exists k: nat :: DiffersAt(dirs[w], dirs[j], k) && ComesBefore(dirs[w][k], dirs[j][k])
    ensures dirs[w] == dirs[j] ==> w <= j
  {
    assert EntryLe(Entry(dirs[w], w), Entry(dirs[j], j));
    if |dirs[w]| == |dirs[j]| && dirs[w] != dirs[j] { FirstByPath(dirs[w], dirs[j]); }
  }

  lemma FirstByPath(a: Path, b: Path)
    requires PathLe(a, b) && |a| == |b| && a != b
    ensures exists k: nat :: DiffersAt(a, b, k) && ComesBefore(a[k], b[k])
  {
    PathLeIs(a, b);
    hide PathLe, StringLe;
    assert a <= b ==> a == b;
    var k: nat :| DiffersAt(a, b, k) && StringLe(a[k], b[k]);
    Before(a[k], b[k]);
  }

  lemma Before(a: string, b: string)
    requires StringLe(a, b) && a != b
    ensures ComesBefore(a, b)
  {
    StringLeIs(a, b);
    hide StringLe, DiffersAt;
  }

  ghost predicate ComesBefore(a: string, b: string) {
    a < b || exists k: nat :: DiffersAt(a, b, k) && a[k] < b[k]
  }

  /** `a` holds every directory `b` does, with the same outcome. */
  ghost predicate Covers(aDirs: seq<Path>, a: seq<Outcome>, bDirs: seq<Path>, b: seq<Outcome>)
    requires |aDirs| == |a| && |bDirs| == |b|
  {
    forall j | 0 <= j < |b| :: exists i :: 0 <= i < |a| && aDirs[i] == bDirs[j] && a[i] == b[j]
  }

  /** Which of several distinct directories wins does not depend on their order. */
  lemma WinnersIgnoreOrder(aDirs: seq<Path>, a: seq<Outcome>, bDirs: seq<Path>, b: seq<Outcome>, i: nat, j: nat)
    requires |aDirs| == |a| && |bDirs| == |b| && Distinct(aDirs) && Distinct(bDirs)
    requires Covers(aDirs, a, bDirs, b) && Covers(bDirs, b, aDirs, a)
    requires i < |a| && j < |b| && aDirs[i] == bDirs[j] && a[i] == b[j]
    ensures Wins(aDirs, a, i) <==> Wins(bDirs, b, j)
  {
    hide *;
    if Wins(aDirs, a, i) { WinsIn(aDirs, a, bDirs, b, i, j); }
    if Wins(bDirs, b, j) { WinsIn(bDirs, b, aDirs, a, j, i); }
  }

  lemma WinsIn(aDirs: seq<Path>, a: seq<Outcome>, bDirs: seq<Path>, b: seq<Outcome>, i: nat, j: nat)
    requires |aDirs| == |a| && |bDirs| == |b| && Distinct(bDirs) && Covers(aDirs, a, bDirs, b)
    requires i < |a| && j < |b| && aDirs[i] == bDirs[j] && a[i] == b[j] && Wins(aDirs, a, i)
    ensures Wins(bDirs, b, j)
  {
    PathLeIsTotalOrder();
    forall l: nat | Claims(b, l, b[j].value) ensures EntryLe(Entry(bDirs[j], j), Entry(bDirs[l], l)) {
      var k :| 0 <= k < |a| && aDirs[k] == bDirs[l] && a[k] == b[l];
      assert Claims(a, k, a[i].value);
    }
  }

  /** What `Load` makes of directory `i`. */
  ghost predicate Settled(dirs: seq<Path>, outcomes: seq<Outcome>, i: nat, result: Outcome)
    requires |dirs| == |outcomes| && i < |outcomes|
  {
    if outcomes[i].Err? || Wins(dirs, outcomes, i) then result == outcomes[i]
    else exists w: nat ::
      Claims(outcomes, w, outcomes[i].value) && Wins(dirs, outcomes, w) && result == Err(DuplicateOf(dirs[w]))
  }

  // A readable skill, under the place it has in the input.
  ghost predicate Readable(e: Entry, dirs: seq<Path>, outcomes: seq<Outcome>)
    requires |dirs| == |outcomes|
  {
    e.index < |outcomes| && e.dir == dirs[e.index] && outcomes[e.index].Ok?
  }

  /** The readable directories, shallowest first. */
  method Ordered(dirs: seq<Path>, outcomes: seq<Outcome>) returns (order: seq<Entry>)
    requires |dirs| == |outcomes|
    ensures SortedBy(EntryLe, order) && Distinct(order)
    ensures forall e :: e in order <==> Readable(e, dirs, outcomes)
  {
    var found: seq<Entry> := [];
    for i := 0 to |dirs|
      invariant Distinct(found) && forall e :: e in found <==> Readable(e, dirs, outcomes) && e.index < i
    {
      if outcomes[i].Ok? { found := found + [Entry(dirs[i], i)]; }
    }
    EntryLeIsTotalOrder();
    SortSorted(EntryLe, found);
    SortDistinct(EntryLe, found);
    order := Sort(EntryLe, found);
  }

  type Duplicates = seq<(nat, Path)>

  // `e` lost its name to an earlier directory.
  ghost predicate Lost(e: Entry, outcomes: seq<Outcome>, winners: map<string, Entry>) {
    && e.index < |outcomes| && outcomes[e.index].Ok?
    && outcomes[e.index].value in winners && winners[outcomes[e.index].value] != e
  }

  // Among the directories `done`, `winners` holds the first of each name and
  // `duplicates` the rest.
  ghost predicate Decided(done: seq<Entry>, dirs: seq<Path>, outcomes: seq<Outcome>, winners: map<string, Entry>,
                          duplicates: Duplicates)
    requires |dirs| == |outcomes|
  {
    && (forall e | e in done :: Readable(e, dirs, outcomes) && outcomes[e.index].value in winners
          && EntryLe(winners[outcomes[e.index].value], e))
    && (forall name | name in winners :: winners[name] in done && outcomes[winners[name].index] == Ok(name))
    && (forall e | e in done && Lost(e, outcomes, winners) ::
        (e.index, winners[outcomes[e.index].value].dir) in duplicates)
    && (forall d | d in duplicates :: d.0 < |dirs| && Lost(Entry(dirs[d.0], d.0), outcomes, winners)
          && d.1 == winners[outcomes[d.0].value].dir)
  }

  lemma NextDecided(done: seq<Entry>, e: Entry, dirs: seq<Path>, outcomes: seq<Outcome>, winners: map<string, Entry>,
                    duplicates: Duplicates)
    requires |dirs| == |outcomes| && Decided(done, dirs, outcomes, winners, duplicates)
    requires Readable(e, dirs, outcomes) && forall f | f in done :: EntryLe(f, e) && f != e
    ensures var name := outcomes[e.index].value;
      if name in winners then Decided(done + [e], dirs, outcomes, winners, duplicates + [(e.index, winners[name].dir)])
      else Decided(done + [e], dirs, outcomes, winners[name := e], duplicates)
  {
    EntryLeIsTotalOrder();
  }

  // `results` after the duplicates so far were marked.
  ghost predicate Marked(results: seq<Outcome>, outcomes: seq<Outcome>, winners: map<string, Entry>,
                         duplicates: Duplicates) {
    && |results| == |outcomes|
    && (forall d | d in duplicates :: d.0 < |results| && results[d.0] == Err(DuplicateOf(d.1)))
    && (forall i: nat | i < |results| && (forall d | d in duplicates :: d.0 != i) :: results[i] == outcomes[i])
  }

  lemma AllSettled(order: seq<Entry>, dirs: seq<Path>, outcomes: seq<Outcome>, winners: map<string, Entry>,
                   duplicates: Duplicates, results: seq<Outcome>, i: nat)
    requires |dirs| == |outcomes| && i < |dirs| && Decided(order, dirs, outcomes, winners, duplicates)
    requires forall e :: e in order <==> Readable(e, dirs, outcomes)
    requires Marked(results, outcomes, winners, duplicates)
    ensures Settled(dirs, outcomes, i, results[i])
  {
    if outcomes[i].Ok? {
      var e, name := Entry(dirs[i], i), outcomes[i].value;
      assert e in order;
      var w := winners[name];
      assert Wins(dirs, outcomes, w.index) by {
        forall j: nat | Claims(outcomes, j, name) ensures EntryLe(w, Entry(dirs[j], j)) {
          assert Entry(dirs[j], j) in order;
        }
      }
      if w == e {
        assert forall d | d in duplicates :: d.0 != i;
      } else {
        assert (i, w.dir) in duplicates;
        EntryLeIsTotalOrder();
        assert Claims(outcomes, w.index, name);
        assert EntryLe(w, e);
      }
    } else {
      assert forall d | d in duplicates :: d.0 != i;
    }
  }

  /** Keeps the shallowest directory of each name and turns the others into errors
      that name it. */
  method Load(dirs: seq<Path>, outcomes: seq<Outcome>) returns (results: seq<Outcome>)
    requires |dirs| == |outcomes|
    ensures |results| == |outcomes|
    ensures forall i: nat | i < |outcomes| :: Settled(dirs, outcomes, i, results[i])
  {
    var order := Ordered(dirs, outcomes);
    var winners: map<string, Entry> := map[];
    var duplicates: Duplicates := [];
    for n := 0 to |order|
      invariant Decided(order[..n], dirs, outcomes, winners, duplicates)
    {
      var e := order[n];
      assert e in order && order[..n + 1] == order[..n] + [e];
      NextDecided(order[..n], e, dirs, outcomes, winners, duplicates);
      var name := outcomes[e.index].value;
      if name in winners {
        duplicates := duplicates + [(e.index, winners[name].dir)];
      } else {
        winners := winners[name := e];
      }
    }
    assert order[..|order|] == order;
    results := outcomes;
    for n := 0 to |duplicates|
      invariant Marked(results, outcomes, winners, duplicates[..n])
    {
      assert duplicates[n] in duplicates;
      assert duplicates[..n + 1] == duplicates[..n] + [duplicates[n]];
      results := results[duplicates[n].0 := Err(DuplicateOf(duplicates[n].1))];
    }
    assert duplicates[..|duplicates|] == duplicates;
    forall i: nat | i < |dirs| ensures Settled(dirs, outcomes, i, results[i]) {
      AllSettled(order, dirs, outcomes, winners, duplicates, results, i);
    }
  }

}
