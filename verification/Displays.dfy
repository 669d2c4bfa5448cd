/** What todos read as while the orchestrator runs (crates/orchestrator/src/state.rs,
    crates/orchestrator/src/api/projects.rs): todos come and go, projects are opened and
    given other prefixes, and a restart goes on with what is on disk. */
module Displays {
  import opened Protocol
  import opened Ids
  import opened Naming
  import opened Orders
  import opened Prefixes
  import opened Projects

  // ---- Prefixes a person may choose ----------------------------------------------------

  predicate IsSpace(c: char) {
    || '\U{0009}' <= c <= '\U{000D}' || c == ' ' || c == '\U{0085}' || c == '\U{00A0}' || c == '\U{1680}'
    || '\U{2000}' <= c <= '\U{200A}' || c == '\U{2028}' || c == '\U{2029}' || c == '\U{202F}' || c == '\U{205F}'
    || c == '\U{3000}'
  }

  function Trim(s: string): string {
    if s == "" then ""
    else if IsSpace(s[0]) then Trim(s[1..])
    else if IsSpace(s[|s| - 1]) then Trim(s[..|s| - 1])
    else s
  }

  function Upper(s: string): string {
    seq(|s|, i requires 0 <= i < |s| =>
      if IsLower(s[i]) then (s[i] as int - 'a' as int + 'A' as int) as char else s[i])
  }

  /** Only space goes, and all of it at both ends. */
  lemma {:induction false} TrimmedIs(s: string)
    returns (before: string, after: string)
    ensures s == before + Trim(s) + after
    ensures forall c | c in before + after :: IsSpace(c)
    ensures Trim(s) != "" ==> !IsSpace(Trim(s)[0]) && !IsSpace(Trim(s)[|Trim(s)| - 1])
  {
    before, after := "", "";
    if s != "" {
      if IsSpace(s[0]) {
        before, after := TrimmedIs(s[1..]);
        before := [s[0]] + before;
      } else if IsSpace(s[|s| - 1]) {
        before, after := TrimmedIs(s[..|s| - 1]);
        after := after + [s[|s| - 1]];
      }
    }
  }

  /** Small letters are made large, everything else stays. */
  lemma UpperIs(s: string)
    ensures |Upper(s)| == |s|
    ensures forall i | 0 <= i < |s| :: Upper(s)[i] == if 'a' <= s[i] <= 'z' then (s[i] as int - 32) as char else s[i]
  {
  }

  predicate IsLetter(c: char) { IsUpper(c) || IsLower(c) }

  /** One to eight letters or digits, the first a letter. */
  predicate Choosable(prefix: string) {
    0 < |prefix| <= PREFIX_MAX && IsLetter(prefix[0]) && forall c | c in prefix :: IsLetter(c) || IsDigit(c)
  }

  // ---- The changes ---------------------------------------------------------------------

  datatype Records = Records(todos: Todos, projects: Book)

  datatype Change =
    | Added(id: string, repository: Repository, at: nat)
    | Removed(id: string)
    | ProjectOpened(repository: Repository)
    | PrefixSet(project: string, prefix: string)
    | Restarted(disk: Records)

  /** Nobody but the project itself holds the prefix. */
  predicate FreeFor(b: Book, project: string, prefix: string) {
    forall k | k in b && b[k].prefix == prefix :: k == project
  }

  /** What a restart may find: not every record need have been written, a todo's number
      may be missing, and a counter may be an earlier one. */
  ghost predicate OnDisk(x: Records, disk: Records) {
    && GoodBook(disk.projects)
    && (forall u | u in disk.todos :: u in x.todos &&
          (disk.todos[u] == x.todos[u] || disk.todos[u] == x.todos[u].(number := 0)))
    && (forall k | k in disk.projects :: k in x.projects &&
          disk.projects[k] == x.projects[k].(nextNumber := disk.projects[k].nextNumber))
  }

  ghost predicate Step(c: Change, x: Records, y: Records) {
    match c
    case Added(id, repository, at) =>
      var number := NextNumber(x.projects, repository);
      && id !in x.todos && Takes(x.projects, y.projects, repository, number)
      && y.todos == x.todos[id := Todo(id, repository, number, at)]
    case Removed(id) => y.todos == x.todos - {id} && y.projects == x.projects
    case ProjectOpened(repository) => y.todos == x.todos && exists id :: Opens(x.projects, y.projects, repository, id)
    case PrefixSet(project, prefix) =>
      && y.todos == x.todos && project in x.projects && Choosable(prefix) && FreeFor(x.projects, project, prefix)
      && y.projects == x.projects[project := x.projects[project].(prefix := prefix)]
    case Restarted(disk) => OnDisk(x, disk) && Migrated(disk.todos, disk.projects, y.todos, y.projects)
  }

  // ---- What every change keeps ---------------------------------------------------------

  /** Numbers that have been given are given once in a repository. */
  ghost predicate UniquelyNumbered(t: Todos) {
    forall u, v | u in t && v in t && u != v && t[u].repository == t[v].repository && t[u].number > 0 ::
      t[u].number != t[v].number
  }

  /** Every todo has a number of its own that its repository's counter is past. */
  ghost predicate AllNumbered(x: Records) {
    && GoodBook(x.projects) && UniquelyNumbered(x.todos)
    && forall u | u in x.todos :: 0 < x.todos[u].number < NextNumber(x.projects, x.todos[u].repository)
  }

  lemma PassNumbersAll(t: Todos, b: Book, y: Records)
    requires UniquelyNumbered(t) && Migrated(t, b, y.todos, y.projects)
    ensures AllNumbered(y)
  {
    forall u | u in y.todos ensures 0 < y.todos[u].number < NextNumber(y.projects, y.todos[u].repository) {
      var r := y.todos[u].repository;
      AfterMigration(t, b, y.todos, y.projects, r, u);
      var k :| Has(y.projects, r, k) && 0 < y.todos[u].number < y.projects[k].nextNumber;
      NextNumberOf(y.projects, r, k);
    }
    forall u, v | u in t && v in t && u != v && y.todos[u].repository == y.todos[v].repository
      ensures y.todos[u].number != y.todos[v].number
    {
      NumbersStayApart(t, b, y, u, v);
    }
  }

  lemma RepositoryKept(t: Todos, b: Book, y: Records, u: string)
    requires Migrated(t, b, y.todos, y.projects) && u in t
    ensures Done(t, b, y.todos, y.projects, t[u].repository) && y.todos[u].repository == t[u].repository
  {
    assert Mentions(t, t[u].repository);
  }

  lemma NumbersStayApart(t: Todos, b: Book, y: Records, u: string, v: string)
    requires UniquelyNumbered(t) && Migrated(t, b, y.todos, y.projects)
    requires u in t && v in t && u != v && y.todos[u].repository == y.todos[v].repository
    ensures y.todos[u].number != y.todos[v].number
  {
    RepositoryKept(t, b, y, u);
    RepositoryKept(t, b, y, v);
    var r := t[u].repository;
    hide Migrated;
    var order, base, id :| DoneWith(t, b, y.todos, y.projects, r, order, base, id);
    NewNumbersAreFresh(t, b, y.todos, y.projects, r, order, base, id);
    hide OldestFirst, Base, PairLe;
    assert t[u].number == 0 ==> Legacy(t, r, u);
    assert t[v].number == 0 ==> Legacy(t, r, v);
  }

  lemma AboveAll(t: Todos, id: string, todo: Todo)
    requires UniquelyNumbered(t) && id !in t
    requires forall u | u in t && t[u].repository == todo.repository :: t[u].number < todo.number
    ensures UniquelyNumbered(t[id := todo])
  {
  }

  lemma Counted(b: Book, b': Book, r: Repository, number: nat)
    requires GoodBook(b) && Takes(b, b', r, number)
    ensures GoodBook(b') && number == NextNumber(b, r) && NextNumber(b', r) == number + 1
    ensures forall s | s != r :: NextNumber(b', s) == NextNumber(b, s)
  {
    hide GoodBook, NextNumber;
    var m: Book, p :| Opens(b, m, r, p) && m[p].nextNumber == number && b' == Advanced(m, p, number + 1);
    hide Opens;
    NumberTaken(b, m, r, p);
  }

  lemma CountersArePositive(b: Book, r: Repository)
    requires GoodBook(b)
    ensures NextNumber(b, r) > 0
  {
  }

  lemma AddedKeeps(x: Records, y: Records, id: string, r: Repository, at: nat)
    requires AllNumbered(x) && Step(Added(id, r, at), x, y)
    ensures AllNumbered(y) && NextNumber(y.projects, r) == NextNumber(x.projects, r) + 1
    ensures forall s | s != r :: NextNumber(y.projects, s) == NextNumber(x.projects, s)
  {
    hide GoodBook, NextNumber, Takes, UniquelyNumbered;
    var number := NextNumber(x.projects, r);
    CountersArePositive(x.projects, r);
    Counted(x.projects, y.projects, r, number);
    AboveAll(x.todos, id, Todo(id, r, number, at));
  }

  // A repository's counter, in a book with the same projects but for prefixes and new ones.
  lemma SameCounters(b: Book, b': Book, r: Repository)
    requires GoodBook(b) && GoodBook(b')
    requires forall k | k in b :: k in b' && b'[k].repository == b[k].repository && b'[k].nextNumber == b[k].nextNumber
    requires forall k | k in b' && k !in b :: b'[k].nextNumber == 1
    ensures NextNumber(b', r) == NextNumber(b, r)
  {
    if k :| Has(b, r, k) {
      NextNumberOf(b, r, k);
      NextNumberOf(b', r, k);
    } else if k :| Has(b', r, k) {
      assert k in b ==> Has(b, r, k);
      NextNumberOf(b', r, k);
    }
  }

  lemma OpenedKeeps(x: Records, y: Records, r: Repository, id: string)
    requires AllNumbered(x) && y.todos == x.todos && Opens(x.projects, y.projects, r, id)
    ensures AllNumbered(y) && forall s :: NextNumber(y.projects, s) == NextNumber(x.projects, s)
  {
    forall s ensures NextNumber(y.projects, s) == NextNumber(x.projects, s) {
      SameCounters(x.projects, y.projects, s);
    }
  }

  lemma PrefixKeeps(x: Records, y: Records, project: string, prefix: string)
    requires AllNumbered(x) && Step(PrefixSet(project, prefix), x, y)
    ensures AllNumbered(y) && forall s :: NextNumber(y.projects, s) == NextNumber(x.projects, s)
  {
    assert NoDash(prefix);
    forall s ensures NextNumber(y.projects, s) == NextNumber(x.projects, s) {
      SameCounters(x.projects, y.projects, s);
    }
  }

  lemma StepKeepsAllNumbered(c: Change, x: Records, y: Records)
    requires AllNumbered(x) && Step(c, x, y)
    ensures AllNumbered(y)
  {
    match c {
      case Added(id, r, at) => AddedKeeps(x, y, id, r, at);
      case Removed(_) =>
      case ProjectOpened(r) =>
        var id :| Opens(x.projects, y.projects, r, id);
        OpenedKeeps(x, y, r, id);
      case PrefixSet(project, prefix) => PrefixKeeps(x, y, project, prefix);
      case Restarted(disk) => PassNumbersAll(disk.todos, disk.projects, y);
    }
  }

  // ---- Runs ----------------------------------------------------------------------------

  ghost predicate IsRun(run: seq<Records>, changes: seq<Change>) {
    && |run| == |changes| + 1
    && forall i | 0 <= i < |changes| :: Step(changes[i], run[i], run[i + 1])
  }

  /** The orchestrator has started on records whose numbers, where there are any, are
      unique within their repository. */
  ghost predicate StartsFrom(disk: Records, run: seq<Records>) {
    && run != [] && GoodBook(disk.projects) && UniquelyNumbered(disk.todos)
    && Migrated(disk.todos, disk.projects, run[0].todos, run[0].projects)
  }

  lemma {:induction false} RunsStayNumbered(disk: Records, run: seq<Records>, changes: seq<Change>, i: nat)
    requires StartsFrom(disk, run) && IsRun(run, changes) && i < |run|
    ensures AllNumbered(run[i])
    decreases i
  {
    hide AllNumbered, Step;
    if i == 0 {
      PassNumbersAll(disk.todos, disk.projects, run[0]);
    } else {
      RunsStayNumbered(disk, run, changes, i - 1);
      StepKeepsAllNumbered(changes[i - 1], run[i - 1], run[i]);
    }
  }

  /** The todo reads as `text`. */
  ghost predicate Reads(x: Records, u: string, text: string) {
    && u in x.todos
    && exists p :: Has(x.projects, x.todos[u].repository, p) && text == Display(x.projects[p].prefix, x.todos[u].number)
  }

  /** In every state of every run each todo has one display id, without a project having
      to be opened for it, and no two todos have the same. */
  lemma DisplayIdsNameOneTodo(disk: Records, run: seq<Records>, changes: seq<Change>, i: nat)
    requires StartsFrom(disk, run) && IsRun(run, changes) && i < |run|
    ensures forall u | u in run[i].todos :: exists text :: Reads(run[i], u, text)
    ensures forall u, v, text, other | Reads(run[i], u, text) && Reads(run[i], v, other) :: u == v <==> text == other
  {
    RunsStayNumbered(disk, run, changes, i);
    hide IsRun, StartsFrom;
    var x := run[i];
    forall u | u in x.todos ensures exists text :: Reads(x, u, text) {
      assert HasProject(x.projects, x.todos[u].repository);
      var p :| Has(x.projects, x.todos[u].repository, p);
      assert Reads(x, u, Display(x.projects[p].prefix, x.todos[u].number));
    }
    forall u, v, text, other | Reads(x, u, text) && Reads(x, v, other) ensures u == v <==> text == other {
      OneReading(x, u, v, text, other);
    }
  }

  lemma OneReading(x: Records, u: string, v: string, text: string, other: string)
    requires AllNumbered(x) && Reads(x, u, text) && Reads(x, v, other)
    ensures u == v <==> text == other
  {
    hide Display;
    var p :| Has(x.projects, x.todos[u].repository, p) && text == Display(x.projects[p].prefix, x.todos[u].number);
    var q :| Has(x.projects, x.todos[v].repository, q) && other == Display(x.projects[q].prefix, x.todos[v].number);
    if text == other {
      DisplayIdsAreDistinct(x.projects, x.todos, u, v, p, q);
    }
  }

  // ---- Counters ------------------------------------------------------------------------

  /** A restart finds everything as it was. */
  ghost predicate NothingLost(c: Change, x: Records) { c.Restarted? ==> c.disk == x }

  lemma StepNeverCountsBack(c: Change, x: Records, y: Records, r: Repository)
    requires AllNumbered(x) && Step(c, x, y) && NothingLost(c, x)
    ensures NextNumber(x.projects, r) <= NextNumber(y.projects, r)
  {
    match c {
      case Added(id, s, at) => AddedKeeps(x, y, id, s, at);
      case Removed(_) =>
      case ProjectOpened(s) =>
        var id :| Opens(x.projects, y.projects, s, id);
        OpenedKeeps(x, y, s, id);
      case PrefixSet(project, prefix) => PrefixKeeps(x, y, project, prefix);
      case Restarted(_) => PassNeverCountsBack(x.todos, x.projects, y.todos, y.projects, r);
    }
  }

  lemma PassNeverCountsBack(t: Todos, b: Book, t': Todos, b': Book, r: Repository)
    requires GoodBook(b) && Migrated(t, b, t', b')
    ensures NextNumber(b, r) <= NextNumber(b', r)
  {
    if Mentions(t, r) {
      var order, base, id :| DoneWith(t, b, t', b', r, order, base, id);
      NextNumberOf(b', r, id);
    }
  }

  lemma {:induction false} CountersOnlyGoUp(disk: Records, run: seq<Records>, changes: seq<Change>, i: nat, j: nat,
                                            r: Repository)
    requires StartsFrom(disk, run) && IsRun(run, changes) && i <= j < |run|
    requires forall k | i <= k < j :: NothingLost(changes[k], run[k])
    ensures NextNumber(run[i].projects, r) <= NextNumber(run[j].projects, r)
    decreases j
  {
    hide AllNumbered, Step, NextNumber, StartsFrom, NothingLost;
    if i < j {
      CountersOnlyGoUp(disk, run, changes, i, j - 1, r);
      RunsStayNumbered(disk, run, changes, j - 1);
      StepNeverCountsBack(changes[j - 1], run[j - 1], run[j], r);
    }
  }

  /** While restarts find everything as it was, a new todo's number is above that of every
      todo its repository ever had, those that were removed included. */
  lemma NumbersAreNeverGivenAgain(disk: Records, run: seq<Records>, changes: seq<Change>, i: nat, j: nat, u: string)
    requires StartsFrom(disk, run) && IsRun(run, changes) && i <= j < |changes|
    requires forall k | i <= k < j :: NothingLost(changes[k], run[k])
    requires u in run[i].todos && changes[j].Added? && run[i].todos[u].repository == changes[j].repository
    ensures changes[j].id in run[j + 1].todos
    ensures run[i].todos[u].number < run[j + 1].todos[changes[j].id].number
  {
    hide NextNumber, StartsFrom, NothingLost;
    RunsStayNumbered(disk, run, changes, i);
    CountersOnlyGoUp(disk, run, changes, i, j, changes[j].repository);
    assert Step(changes[j], run[j], run[j + 1]);
  }

  // ---- The operations ------------------------------------------------------------------

  ghost function Snapshot(state: State): Records
    reads state
  {
    Records(state.todos, state.projects)
  }

  method CreateTodo(state: State, repository: Repository, at: nat) returns (id: string)
    requires state.Valid()
    modifies state
    ensures state.Valid() && Step(Added(id, repository, at), old(Snapshot(state)), Snapshot(state))
  {
    hide GoodBook, NextNumber, Takes;
    id := NewId(state.todos.Keys);
    var number := state.TakeNumber(repository);
    state.todos := state.todos[id := Todo(id, repository, number, at)];
  }

  method RemoveTodo(state: State, id: string) returns (found: bool)
    requires state.Valid()
    modifies state`todos
    ensures state.Valid() && Step(Removed(id), old(Snapshot(state)), Snapshot(state))
    ensures found == (id in old(state.todos)) && (!found ==> state.todos == old(state.todos))
  {
    found := id in state.todos;
    state.todos := state.todos - {id};
  }

  datatype Refusal = BadPrefix | Held(holder: string) | NoSuchProject

  /** Some other project that has the prefix, if there is one. */
  method Holder(b: Book, id: string, prefix: string) returns (found: Option<string>)
    ensures match found
            case Some(k) => k in b && k != id && b[k].prefix == prefix
            case None => FreeFor(b, id, prefix)
  {
    var rest := b.Keys;
    while rest != {}
      invariant rest <= b.Keys
      invariant forall k | k in b && k !in rest && b[k].prefix == prefix :: k == id
      decreases rest
    {
      var k :| k in rest;
      rest := rest - {k};
      if b[k].prefix == prefix && k != id {
        return Some(k);
      }
    }
    return None;
  }

  /** A person chooses a prefix. */
  method UpdateProject(state: State, id: string, text: string) returns (r: Result<(), Refusal>)
    requires state.Valid()
    modifies state`projects
    ensures state.Valid()
    ensures var prefix := Upper(Trim(text));
            match r
            case Ok(_) => Step(PrefixSet(id, prefix), old(Snapshot(state)), Snapshot(state))
            case Err(why) =>
              && state.projects == old(state.projects)
              && why.BadPrefix? == !Choosable(prefix)
              && (why.Held? ==> exists k | k in state.projects :: k != id && state.projects[k].prefix == prefix
                                                               && state.projects[k].name == why.holder)
              && (why.NoSuchProject? ==> FreeFor(state.projects, id, prefix) && id !in state.projects)
  {
    var prefix := Upper(Trim(text));
    if !Choosable(prefix) {
      return Err(BadPrefix);
    }
    var holder := Holder(state.projects, id, prefix);
    if holder.Some? {
      return Err(Held(state.projects[holder.value].name));
    }
    if id !in state.projects {
      return Err(NoSuchProject);
    }
    assert NoDash(prefix);
    state.projects := state.projects[id := state.projects[id].(prefix := prefix)];
    return Ok(());
  }

  // ---- What the system makes, a person can type ------------------------------------------

  lemma {:induction false} Pow10Positive(k: nat)
    ensures Pow10(k) > 0
  {
    if k > 0 { Pow10Positive(k - 1); }
  }

  lemma {:induction false} DecimalIsLonger(n: nat, k: nat)
    requires Pow10(k) <= n
    ensures k < |Decimal(n)|
  {
    if k > 0 {
      Pow10Positive(k - 1);
      assert Pow10(k) == 10 * Pow10(k - 1) && n / 10 >= Pow10(k - 1) >= 1;
      DecimalIsLonger(n / 10, k - 1);
    }
  }

  lemma UpperTrimmed(s: string)
    requires s != "" && forall c | c in s :: IsUpper(c) || IsDigit(c)
    ensures Upper(Trim(s)) == s
  {
    assert s[0] in s && s[|s| - 1] in s;
    assert Trim(s) == s;
    forall i | 0 <= i < |s| ensures Upper(s)[i] == s[i] { assert s[i] in s; }
  }

  // A numbered candidate keeps a letter exactly while its number has room for one.
  lemma NumberedStart(base: string, n: nat)
    requires AllUpper(base) && base != ""
    ensures var p := Numbered(base, n);
            && (forall c | c in p :: IsUpper(c) || IsDigit(c))
            && (IsLetter(p[0]) && |p| <= PREFIX_MAX <==> n < Pow10(7))
  {
    var p, suffix := Numbered(base, n), Decimal(n);
    var cut := |p| - |suffix|;
    forall i | 0 <= i < |p| ensures IsUpper(p[i]) || IsDigit(p[i]) {
      if i < cut {
        assert p[i] == base[i] && base[i] in base;
      } else {
        assert p[i] == suffix[i - cut] && suffix[i - cut] in suffix;
      }
    }
    if n < Pow10(7) {
      DecimalLength(n, 7);
      assert p[0] == base[0] && base[0] in base;
    } else {
      DecimalIsLonger(n, 7);
      assert cut == 0 && p[0] == suffix[0] && suffix[0] in suffix;
    }
  }

  /** The prefix a project is given can be typed back exactly while the head of its name's
      letters or one of them with a number below ten million is nobody's. */
  lemma DerivedPrefixesCanBeTyped(name: string, taken: set<string>)
    ensures var p, base := DerivePrefix(name, taken), BaseOf(name);
            && Upper(Trim(p)) == p
            && (Choosable(p) <==>
                  || (exists k :: 1 <= k <= |base| && base[..k] !in taken)
                  || (exists n :: 2 <= n < Pow10(7) && Numbered(base, n) !in taken))
  {
    var p, base := DerivePrefix(name, taken), BaseOf(name);
    var head := FreeHead(base, taken, 1);
    if head != "" {
      assert head == base[..|head|];
      forall i | 0 <= i < |head| ensures IsUpper(head[i]) { assert base[i] in base; }
    } else {
      NumberedStart(base, FreeFrom(base, taken, 2));
    }
    UpperTrimmed(p);
  }

  /** With ten million projects named alike, the next one's cannot. */
  lemma APrefixNobodyCanType()
    ensures var taken := {"A"} + set n | 2 <= n < Pow10(7) :: Numbered("A", n);
            !Choosable(DerivePrefix("a", taken))
  {
    hide Pow10;
    var taken := {"A"} + set n | 2 <= n < Pow10(7) :: Numbered("A", n);
    assert Letters("a", 8) == ['A'] + Letters("", 7);
    assert BaseOf("a") == "A";
    assert forall k | 1 <= k <= 1 :: "A"[..k] == "A";
    DerivedPrefixesCanBeTyped("a", taken);
  }
}
