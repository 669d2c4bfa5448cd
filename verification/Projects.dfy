/** Per-repository todo numbering (crates/orchestrator/src/project.rs): projects
    are created on demand, counters only go up, and todos from before numbering
    are numbered once at startup. */
module Projects {
  import opened Protocol
  import opened Ids
  import opened Naming
  import opened Orders
  import opened Prefixes

  datatype Project = Project(id: string, repository: Repository, prefix: string, name: string, nextNumber: nat)

  // `number` 0 is a todo from before numbering.
  datatype Todo = Todo(id: string, repository: Repository, number: nat, createdAt: nat)

  type Todos = map<string, Todo>
  type Book = map<string, Project>

  // ---- The projects ----------------------------------------------------------------

  /** Prefixes are pairwise distinct, and a repository has at most one project. */
  ghost predicate GoodBook(b: Book) {
    && (forall id | id in b :: b[id].id == id && b[id].prefix != "" && NoDash(b[id].prefix) && b[id].nextNumber > 0)
    && (forall i, j | i in b && j in b && i != j :: b[i].prefix != b[j].prefix && b[i].repository != b[j].repository)
  }

  ghost predicate Has(b: Book, repository: Repository, id: string) {
    id in b && b[id].repository == repository
  }

  function Taken(b: Book): set<string> { set k | k in b :: b[k].prefix }

  /** The book after `project_for`: the project is there, every other is untouched. */
  ghost predicate Opens(b: Book, b': Book, repository: Repository, id: string) {
    && GoodBook(b') && Has(b', repository, id)
    && (id in b ==> b' == b)
    && (id !in b ==>
          && b' == b[id := Project(id, repository, PrefixFor(repository, Taken(b)), ProjectName(repository), 1)]
          && forall k | k in b :: b[k].repository != repository)
  }

  /** The number the next todo of a repository would take. */
  ghost function NextNumber(b: Book, repository: Repository): nat {
    if id :| Has(b, repository, id) then b[id].nextNumber else 1
  }

  lemma NextNumberOf(b: Book, repository: Repository, id: string)
    requires GoodBook(b) && Has(b, repository, id)
    ensures NextNumber(b, repository) == b[id].nextNumber
  {
  }

  lemma PrefixFree(b: Book, repository: Repository, id: string)
    requires GoodBook(b) && id !in b && forall k | k in b :: b[k].repository != repository
    ensures Opens(b, b[id := Project(id, repository, PrefixFor(repository, Taken(b)), ProjectName(repository), 1)],
            repository, id)
  {
    DerivedPrefixIsFree(ProjectName(repository), Taken(b));
  }

  /** Two todos never read the same, as long as numbers are unique within a
      repository. */
  lemma DisplayIdsAreDistinct(b: Book, todos: Todos, t: string, u: string, p: string, q: string)
    requires GoodBook(b) && t in todos && u in todos
    requires Has(b, todos[t].repository, p) && Has(b, todos[u].repository, q)
    requires forall x, y | x in todos && y in todos && x != y && todos[x].repository == todos[y].repository ::
               todos[x].number != todos[y].number
    requires Display(b[p].prefix, todos[t].number) == Display(b[q].prefix, todos[u].number)
    ensures t == u
  {
    DisplayInjective(b[p].prefix, todos[t].number, b[q].prefix, todos[u].number);
  }

  // ---- Legacy todos ------------------------------------------------------------------

  ghost predicate Legacy(todos: Todos, repository: Repository, id: string) {
    id in todos && todos[id].repository == repository && todos[id].number == 0
  }

  /** `order` lists a repository's unnumbered todos, oldest first, ids breaking ties. */
  ghost predicate OldestFirst(todos: Todos, repository: Repository, order: seq<(nat, string)>) {
    && SortedBy(PairLe, order)
    && Distinct(order)
    && (forall i | 0 <= i < |order| ::
        Legacy(todos, repository, order[i].1) && order[i].0 == todos[order[i].1].createdAt)
    && (forall id | Legacy(todos, repository, id) :: (todos[id].createdAt, id) in order)
  }

  ghost predicate Highest(todos: Todos, repository: Repository, h: nat) {
    && (forall id | id in todos && todos[id].repository == repository :: todos[id].number <= h)
    && (h > 0 ==> exists id :: id in todos && todos[id].repository == repository && todos[id].number == h)
  }

  /** Where a repository's new numbers start. */
  ghost predicate Base(todos: Todos, b: Book, repository: Repository, base: nat) {
    exists h: nat :: Highest(todos, repository, h)
      && base == if NextNumber(b, repository) > h then NextNumber(b, repository) else h + 1
  }

  ghost predicate Mentions(todos: Todos, repository: Repository) {
    exists id :: id in todos && todos[id].repository == repository
  }

  // A repository's part of the todos once it is numbered.
  ghost predicate NewNumbers(t: Todos, t': Todos, r: Repository, order: seq<(nat, string)>, base: nat) {
    && (forall u | u in t && t[u].repository == r ::
          u in t' && t'[u] == t[u].(number := t'[u].number) && (t[u].number > 0 ==> t'[u] == t[u]))
    && (forall i | 0 <= i < |order| :: order[i].1 in t' && t'[order[i].1].number == base + i)
  }

  /** One repository is numbered: its unnumbered todos take consecutive numbers
      from `base`, oldest first, and its counter stands after the last. */
  ghost predicate DoneWith(t: Todos, b: Book, t': Todos, b': Book, r: Repository, order: seq<(nat, string)>, base: nat,
                           id: string) {
    && OldestFirst(t, r, order) && Base(t, b, r, base)
    && NewNumbers(t, t', r, order, base)
    && Has(b', r, id) && b'[id].nextNumber == base + |order|
    && (forall k | Has(b, r, k) :: k == id && b'[id] == b[k].(nextNumber := base + |order|))
  }

  ghost predicate Done(t: Todos, b: Book, t': Todos, b': Book, r: Repository) {
    exists order, base, id :: DoneWith(t, b, t', b', r, order, base, id)
  }

  /** Nothing of this repository has changed. */
  ghost predicate SameFor(t: Todos, b: Book, t': Todos, b': Book, r: Repository) {
    && (forall u | u in t && t[u].repository == r :: u in t' && t'[u] == t[u])
    && (forall u | u in t' && t'[u].repository == r :: u in t && t'[u] == t[u])
    && (forall k | Has(b, r, k) :: Has(b', r, k) && b'[k] == b[k])
    && (forall k | Has(b', r, k) :: Has(b, r, k))
  }

  /** What the startup pass leaves behind, whatever order it met repositories in. */
  ghost predicate Migrated(t: Todos, b: Book, t': Todos, b': Book) {
    && t'.Keys == t.Keys && GoodBook(b')
    && forall r :: if Mentions(t, r) then Done(t, b, t', b', r) else SameFor(t, b, t', b', r)
  }

  // ---- What follows for the numbers ----------------------------------------------

  lemma PlaceInOrder(t: Todos, b: Book, t': Todos, b': Book, r: Repository, order: seq<(nat, string)>, base: nat,
                     id: string, u: string)
    returns (i: nat)
    requires DoneWith(t, b, t', b', r, order, base, id) && Legacy(t, r, u)
    ensures i < |order| && order[i] == (t[u].createdAt, u) && t'[u].number == base + i
  {
    assert (t[u].createdAt, u) in order;
    i :| 0 <= i < |order| && order[i] == (t[u].createdAt, u);
  }

  lemma OlderTakesLess(t: Todos, b: Book, t': Todos, b': Book, r: Repository, order: seq<(nat, string)>, base: nat,
                       id: string, u: string, v: string)
    requires DoneWith(t, b, t', b', r, order, base, id)
    requires Legacy(t, r, u) && Legacy(t, r, v) && u != v && PairLe((t[u].createdAt, u), (t[v].createdAt, v))
    ensures t'[u].number < t'[v].number
  {
    var i := PlaceInOrder(t, b, t', b', r, order, base, id, u);
    var j := PlaceInOrder(t, b, t', b', r, order, base, id, v);
    if j < i {
      assert PairLe(order[j], order[i]);
      PairLeIsTotalOrder();
    }
  }

  lemma EveryNumberBelowNext(t: Todos, b: Book, t': Todos, b': Book, r: Repository, order: seq<(nat, string)>,
                             base: nat, id: string, u: string)
    requires DoneWith(t, b, t', b', r, order, base, id) && u in t && t[u].repository == r
    ensures 0 < t'[u].number < b'[id].nextNumber
    ensures t[u].number == 0 ==> forall v | v in t && t[v].repository == r :: t[v].number < t'[u].number
  {
    var h: nat :| Highest(t, r, h) && base == if NextNumber(b, r) > h then NextNumber(b, r) else h + 1;
    if t[u].number == 0 { var i := PlaceInOrder(t, b, t', b', r, order, base, id, u); }
  }

  /** New numbers are above every old one, in order of age, pairwise distinct,
      and the counter is above them all. */
  lemma NewNumbersAreFresh(t: Todos, b: Book, t': Todos, b': Book, r: Repository, order: seq<(nat, string)>, base: nat,
                           id: string)
    requires DoneWith(t, b, t', b', r, order, base, id)
    ensures forall u, v | Legacy(t, r, u) && v in t && t[v].repository == r && t[v].number > 0 ::
              t'[v].number == t[v].number < t'[u].number
    ensures forall u, v | Legacy(t, r, u) && Legacy(t, r, v) && u != v :: t'[u].number != t'[v].number
    ensures forall u, v | Legacy(t, r, u) && Legacy(t, r, v) && u != v
            && PairLe((t[u].createdAt, u), (t[v].createdAt, v)) ::
              t'[u].number < t'[v].number
    ensures forall u | u in t && t[u].repository == r :: 0 < t'[u].number < b'[id].nextNumber
  {
    hide OldestFirst, Base, PairLe;
    forall u | u in t && t[u].repository == r
      ensures 0 < t'[u].number < b'[id].nextNumber
      ensures t[u].number == 0 ==> forall v | v in t && t[v].repository == r :: t[v].number < t'[u].number
    {
      EveryNumberBelowNext(t, b, t', b', r, order, base, id, u);
    }
    forall u, v | Legacy(t, r, u) && Legacy(t, r, v) && u != v && PairLe((t[u].createdAt, u), (t[v].createdAt, v))
      ensures t'[u].number < t'[v].number
    {
      OlderTakesLess(t, b, t', b', r, order, base, id, u, v);
    }
    forall u, v | Legacy(t, r, u) && Legacy(t, r, v) && u != v ensures t'[u].number != t'[v].number {
      var i := PlaceInOrder(t, b, t', b', r, order, base, id, u);
      var j := PlaceInOrder(t, b, t', b', r, order, base, id, v);
    }
  }

  /** Of two unnumbered todos of a repository the older takes the smaller number; of two of one
      age the one whose id comes first. */
  lemma TheOlderTakesTheSmaller(t: Todos, b: Book, t': Todos, b': Book, u: string, v: string)
    requires Migrated(t, b, t', b') && u in t && v in t && u != v
    requires t[u].repository == t[v].repository && t[u].number == t[v].number == 0
    requires t[u].createdAt < t[v].createdAt || (t[u].createdAt == t[v].createdAt && StringLe(u, v))
    ensures t'[u].number < t'[v].number
  {
    var r := t[u].repository;
    assert Mentions(t, r);
    var order, base, id :| DoneWith(t, b, t', b', r, order, base, id);
    hide Migrated, DoneWith;
    OlderTakesLess(t, b, t', b', r, order, base, id, u, v);
  }

  lemma OrderIsUnique(t: Todos, r: Repository, p: seq<(nat, string)>, q: seq<(nat, string)>)
    requires OldestFirst(t, r, p) && OldestFirst(t, r, q)
    ensures p == q
  {
    PairLeIsTotalOrder();
    SameElements(p, q);
    SortedUnique(PairLe, p, q);
  }

  lemma BaseIsUnique(t: Todos, b: Book, r: Repository, x: nat, y: nat)
    requires Base(t, b, r, x) && Base(t, b, r, y)
    ensures x == y
  {
  }

  /** The numbers do not depend on the order repositories are met in. */
  lemma NumbersDoNotDependOnIteration(t: Todos, b: Book, t1: Todos, b1: Book, t2: Todos, b2: Book)
    requires Migrated(t, b, t1, b1) && Migrated(t, b, t2, b2)
    ensures t1 == t2
  {
    forall u | u in t ensures t1[u] == t2[u] {
      var r := t[u].repository;
      assert Mentions(t, r);
      var p: seq<(nat, string)>, x, i :| DoneWith(t, b, t1, b1, r, p, x, i);
      var q: seq<(nat, string)>, y, j :| DoneWith(t, b, t2, b2, r, q, y, j);
      OrderIsUnique(t, r, p, q);
      BaseIsUnique(t, b, r, x, y);
      if t[u].number == 0 {
        assert Legacy(t, r, u) && (t[u].createdAt, u) in p;
        var k :| 0 <= k < |p| && p[k] == (t[u].createdAt, u);
      }
    }
  }

  /** Migrating what has been migrated changes nothing. */
  lemma MigrationIsIdempotent(t: Todos, b: Book, t1: Todos, b1: Book, t2: Todos, b2: Book)
    requires Migrated(t, b, t1, b1) && Migrated(t1, b1, t2, b2)
    ensures t2 == t1 && b2 == b1
  {
    forall u | u in t1 ensures t2[u] == t1[u] && t1[u].number > 0 {
      AfterMigration(t, b, t1, b1, t1[u].repository, u);
      assert Mentions(t1, t1[u].repository);
      var p: seq<(nat, string)>, x, i :| DoneWith(t1, b1, t2, b2, t1[u].repository, p, x, i);
    }
    forall k | k in b2 ensures k in b1 && b2[k] == b1[k] {
      SecondPass(t, b, t1, b1, t2, b2, b2[k].repository);
      assert Has(b2, b2[k].repository, k);
    }
    forall k | k in b1 ensures k in b2 {
      SecondPass(t, b, t1, b1, t2, b2, b1[k].repository);
      assert Has(b1, b1[k].repository, k);
    }
  }

  lemma AfterMigration(t: Todos, b: Book, t1: Todos, b1: Book, r: Repository, u: string)
    requires Migrated(t, b, t1, b1) && u in t1 && t1[u].repository == r
    ensures Mentions(t, r) && exists id :: Has(b1, r, id) && 0 < t1[u].number < b1[id].nextNumber
  {
    var s := t[u].repository;
    assert Mentions(t, s);
    var p: seq<(nat, string)>, x, id :| DoneWith(t, b, t1, b1, s, p, x, id);
    NewNumbersAreFresh(t, b, t1, b1, s, p, x, id);
    assert Has(b1, r, id);
  }

  lemma CounterStandsAbove(t: Todos, b: Book, t1: Todos, b1: Book, r: Repository, x: nat)
    requires Migrated(t, b, t1, b1) && Mentions(t1, r) && Base(t1, b1, r, x)
    ensures x == NextNumber(b1, r)
  {
    var h: nat :| Highest(t1, r, h) && x == if NextNumber(b1, r) > h then NextNumber(b1, r) else h + 1;
    var v :| v in t1 && t1[v].repository == r && (h > 0 ==> t1[v].number == h);
    AfterMigration(t, b, t1, b1, r, v);
    var k :| Has(b1, r, k) && 0 < t1[v].number < b1[k].nextNumber;
    NextNumberOf(b1, r, k);
  }

  lemma SecondPass(t: Todos, b: Book, t1: Todos, b1: Book, t2: Todos, b2: Book, r: Repository)
    requires Migrated(t, b, t1, b1) && Migrated(t1, b1, t2, b2)
    ensures forall k :: Has(b1, r, k) <==> Has(b2, r, k)
    ensures forall k | Has(b1, r, k) :: k in b2 && b2[k] == b1[k]
  {
    if Mentions(t1, r) {
      var p: seq<(nat, string)>, x, id :| DoneWith(t1, b1, t2, b2, r, p, x, id);
      assert p == [] by {
        hide Migrated, Base;
        if p != [] { AfterMigration(t, b, t1, b1, r, p[0].1); }
      }
      assert x == NextNumber(b1, r) by { CounterStandsAbove(t, b, t1, b1, r, x); }
      var u :| u in t1 && t1[u].repository == r;
      AfterMigration(t, b, t1, b1, r, u);
      var k :| Has(b1, r, k) && 0 < t1[u].number < b1[k].nextNumber;
      NextNumberOf(b1, r, k);
    }
  }

  // ---- The orchestrator's state ------------------------------------------------------

  // The first `i` of `order` have their numbers, nothing else has changed.
  ghost predicate NumberedSoFar(t: Todos, t': Todos, order: seq<(nat, string)>, base: nat, i: nat) {
    && i <= |order| && t'.Keys == t.Keys
    && (forall k | 0 <= k < |order| :: order[k].1 in t)
    && (forall k | 0 <= k < i :: t'[order[k].1] == t[order[k].1].(number := base + k))
    && (forall u | u in t && (forall k | 0 <= k < i :: order[k].1 != u) :: t'[u] == t[u])
  }

  lemma NumberOne(t: Todos, m: Todos, r: Repository, order: seq<(nat, string)>, base: nat, i: nat)
    requires OldestFirst(t, r, order) && NumberedSoFar(t, m, order, base, i) && i < |order|
    ensures order[i].1 in m
    ensures NumberedSoFar(t, m[order[i].1 := m[order[i].1].(number := base + i)], order, base, i + 1)
  {
    var u := order[i].1;
    forall k | 0 <= k < |order| && k != i ensures order[k].1 != u {
      var other, one := order[k], order[i];
      assert other.1 == u ==> other == one;
    }
  }

  // The repository's project with its counter moved on.
  ghost function Advanced(m: Book, id: string, next: nat): Book
    requires id in m
  {
    m[id := m[id].(nextNumber := next)]
  }

  lemma CounterMoved(b: Book, m: Book, r: Repository, id: string, next: nat)
    requires GoodBook(b) && Opens(b, m, r, id) && next > 0 && m[id].nextNumber <= next
    ensures GoodBook(Advanced(m, id, next)) && Grows(b, Advanced(m, id, next))
    ensures Has(Advanced(m, id, next), r, id) && Advanced(m, id, next)[id].nextNumber == next
    ensures forall k | Has(b, r, k) :: k == id && Advanced(m, id, next)[id] == b[k].(nextNumber := next)
    ensures id in b ==> b[id].repository == r
    ensures forall k | k != id ::
            (k in Advanced(m, id, next) <==> k in b) && (k in b ==> Advanced(m, id, next)[k] == b[k])
  {
  }

  lemma OnlyLegacyMoved(t: Todos, t': Todos, r: Repository, order: seq<(nat, string)>, base: nat)
    requires OldestFirst(t, r, order) && NumberedSoFar(t, t', order, base, |order|)
    ensures t'.Keys == t.Keys && NewNumbers(t, t', r, order, base)
    ensures forall u | u in t && t[u].repository != r :: t'[u] == t[u]
  {
    forall u | u in t && (t[u].repository != r || t[u].number > 0) ensures t'[u] == t[u] { }
    forall u | u in t && t[u].repository == r ensures t'[u] == t[u].(number := t'[u].number) {
      if t[u].number == 0 {
        assert Legacy(t, r, u) && (t[u].createdAt, u) in order;
      }
    }
  }

  lemma OthersKept(t: Todos, b: Book, t': Todos, b': Book, r: Repository, order: seq<(nat, string)>, base: nat,
                   id: string, s: Repository)
    requires t'.Keys == t.Keys && s != r && Has(b', r, id) && forall k | Has(b, r, k) :: k == id
    requires NewNumbers(t, t', r, order, base)
    requires forall u | u in t && t[u].repository != r :: t'[u] == t[u]
    requires forall k | k != id :: (k in b' <==> k in b) && (k in b ==> b'[k] == b[k])
    requires id in b ==> b[id].repository == r
    ensures SameFor(t, b, t', b', s)
  {
  }

  lemma OthersUnmoved(t: Todos, b: Book, t': Todos, m: Book, r: Repository, order: seq<(nat, string)>, base: nat,
                      id: string, s: Repository)
    requires GoodBook(b) && OldestFirst(t, r, order) && base > 0 && s != r
    requires NumberedSoFar(t, t', order, base, |order|) && Opens(b, m, r, id) && m[id].nextNumber <= base
    ensures SameFor(t, b, t', Advanced(m, id, base + |order|), s)
  {
    hide GoodBook, OldestFirst, NumberedSoFar, SameFor, NewNumbers, Grows;
    CounterMoved(b, m, r, id, base + |order|);
    OnlyLegacyMoved(t, t', r, order, base);
    OthersKept(t, b, t', Advanced(m, id, base + |order|), r, order, base, id, s);
  }

  lemma RepositoryDone(t: Todos, b: Book, t': Todos, m: Book, r: Repository, order: seq<(nat, string)>, base: nat,
                       id: string)
    requires GoodBook(b) && OldestFirst(t, r, order) && Base(t, b, r, base) && base > 0
    requires NumberedSoFar(t, t', order, base, |order|) && Opens(b, m, r, id) && m[id].nextNumber <= base
    ensures var b' := Advanced(m, id, base + |order|);
            && GoodBook(b') && Grows(b, b') && DoneWith(t, b, t', b', r, order, base, id)
            && forall s | s != r :: SameFor(t, b, t', b', s)
  {
    hide GoodBook, OldestFirst, Base, Grows, NumberedSoFar, SameFor, NewNumbers;
    CounterMoved(b, m, r, id, base + |order|);
    OnlyLegacyMoved(t, t', r, order, base);
    var b' := Advanced(m, id, base + |order|);
    forall s | s != r ensures SameFor(t, b, t', b', s) {
      OthersUnmoved(t, b, t', m, r, order, base, id, s);
    }
  }

  lemma BaseOfOpened(t: Todos, b: Book, m: Book, r: Repository, id: string, highest: nat, base: nat)
    requires GoodBook(b) && Opens(b, m, r, id) && Highest(t, r, highest)
    requires base == if m[id].nextNumber > highest then m[id].nextNumber else highest + 1
    ensures Base(t, b, r, base) && base > 0
  {
    if id in b { NextNumberOf(b, r, id); }
  }

  lemma Sorted(t: Todos, r: Repository, found: seq<(nat, string)>)
    requires Distinct(found)
    requires forall i | 0 <= i < |found| :: Legacy(t, r, found[i].1) && found[i].0 == t[found[i].1].createdAt
    requires forall id | Legacy(t, r, id) :: (t[id].createdAt, id) in found
    ensures OldestFirst(t, r, Sort(PairLe, found))
  {
    var order := Sort(PairLe, found);
    PairLeIsTotalOrder();
    SortSorted(PairLe, found);
    SortDistinct(PairLe, found);
    forall i | 0 <= i < |order| ensures Legacy(t, r, order[i].1) && order[i].0 == t[order[i].1].createdAt {
      assert order[i] in found;
    }
  }

  /** The book after `take_number`: the project is there and its counter has moved past `number`. */
  ghost predicate Takes(b: Book, b': Book, r: Repository, number: nat) {
    exists m: Book, id :: Opens(b, m, r, id) && m[id].nextNumber == number && b' == Advanced(m, id, number + 1)
  }

  lemma NumberTaken(b: Book, m: Book, r: Repository, id: string)
    requires GoodBook(b) && Opens(b, m, r, id)
    ensures var b' := Advanced(m, id, m[id].nextNumber + 1);
            && GoodBook(b') && m[id].nextNumber == NextNumber(b, r) && NextNumber(b', r) == m[id].nextNumber + 1
            && forall s | s != r :: NextNumber(b', s) == NextNumber(b, s)
  {
    var b' := m[id := m[id].(nextNumber := m[id].nextNumber + 1)];
    if id in b { NextNumberOf(b, r, id); }
    NextNumberOf(b', r, id);
    forall s | s != r ensures NextNumber(b', s) == NextNumber(b, s) {
      SameProjects(b, m, b', r, id, s);
    }
  }

  lemma SameProjects(b: Book, m: Book, b': Book, r: Repository, id: string, s: Repository)
    requires GoodBook(b) && GoodBook(b') && Opens(b, m, r, id) && s != r
    requires b' == m[id := m[id].(nextNumber := m[id].nextNumber + 1)]
    ensures NextNumber(b', s) == NextNumber(b, s)
  {
    assert forall k :: Has(b', s, k) <==> Has(b, s, k);
    if k :| Has(b, s, k) {
      NextNumberOf(b, s, k);
      NextNumberOf(b', s, k);
    }
  }

  class State {
    var projects: Book
    var todos: Todos
    // Ids of the projects that have changed since they were stored.
    var dirty: seq<string>

    constructor (projects: Book, todos: Todos)
      requires GoodBook(projects)
      ensures Valid() && this.projects == projects && this.todos == todos && dirty == []
    {
      this.projects, this.todos, dirty := projects, todos, [];
    }

    ghost predicate Valid()
      reads this
    {
      GoodBook(projects)
    }

    method MarkProject(id: string)
      modifies this`dirty
      ensures dirty == if id in old(dirty) then old(dirty) else old(dirty) + [id]
    {
      if id !in dirty {
        dirty := dirty + [id];
      }
    }

    /** Id of the repository's project, if there is one. */
    method Find(repository: Repository) returns (found: Option<string>)
      ensures match found
              case Some(id) => Has(projects, repository, id)
              case None => forall k | k in projects :: projects[k].repository != repository
    {
      var rest := projects.Keys;
      while rest != {}
        invariant rest <= projects.Keys
        invariant forall k | k in projects && k !in rest :: projects[k].repository != repository
        decreases rest
      {
        var k :| k in rest;
        if projects[k].repository == repository {
          return Some(k);
        }
        rest := rest - {k};
      }
      return None;
    }

    /** The repository's project, created when something introduces it. */
    method ProjectFor(repository: Repository) returns (id: string)
      requires Valid()
      modifies this`projects, this`dirty
      ensures Valid() && Opens(old(projects), projects, repository, id)
      ensures if id in old(projects) then dirty == old(dirty) else id in dirty
      ensures forall d | d in dirty :: d in old(dirty) || d == id
    {
      var existing := Find(repository);
      if existing.Some? {
        return existing.value;
      }
      var name := ProjectName(repository);
      id := NewId(projects.Keys);
      PrefixFree(projects, repository, id);
      projects := projects[id := Project(id, repository, DerivePrefix(name, Taken(projects)), name, 1)];
      MarkProject(id);
    }

    /** `NextNumber`, which moves on by one. */
    method TakeNumber(repository: Repository) returns (number: nat)
      requires Valid()
      modifies this`projects, this`dirty
      ensures Valid() && number == NextNumber(old(projects), repository)
      ensures NextNumber(projects, repository) == number + 1
      ensures forall s | s != repository :: NextNumber(projects, s) == NextNumber(old(projects), s)
      ensures Takes(old(projects), projects, repository, number)
    {
      hide GoodBook, NextNumber;
      var id := ProjectFor(repository);
      number := projects[id].nextNumber;
      assert Opens(old(projects), projects, repository, id);
      NumberTaken(old(projects), projects, repository, id);
      projects := projects[id := projects[id].(nextNumber := number + 1)];
      MarkProject(id);
    }

    /** `Display`, of a project opened if need be. */
    method DisplayId(repository: Repository, number: nat) returns (text: string)
      requires Valid()
      modifies this`projects, this`dirty
      ensures Valid()
      ensures exists id ::
              Opens(old(projects), projects, repository, id) && text == Display(projects[id].prefix, number)
    {
      var id := ProjectFor(repository);
      text := projects[id].prefix + "-" + Decimal(number);
    }

    /** A repository's unnumbered todos oldest first, and its highest number. */
    method Survey(repository: Repository) returns (legacy: seq<(nat, string)>, highest: nat)
      ensures OldestFirst(todos, repository, legacy) && Highest(todos, repository, highest)
    {
      var found: seq<(nat, string)> := [];
      highest := 0;
      var rest := todos.Keys;
      while rest != {}
        invariant rest <= todos.Keys
        invariant Distinct(found)
        invariant forall i | 0 <= i < |found| ::
          found[i].1 !in rest && Legacy(todos, repository, found[i].1) && found[i].0 == todos[found[i].1].createdAt
        invariant forall id | Legacy(todos, repository, id) && id !in rest :: (todos[id].createdAt, id) in found
        invariant forall id | id in todos && id !in rest && todos[id].repository == repository ::
                  todos[id].number <= highest
        invariant highest > 0 ==>
                    exists id :: id in todos && todos[id].repository == repository && todos[id].number == highest
        decreases rest
      {
        var id :| id in rest;
        rest := rest - {id};
        var todo := todos[id];
        if todo.repository == repository {
          if todo.number == 0 {
            found := found + [(todo.createdAt, id)];
          }
          if todo.number > highest {
            highest := todo.number;
          }
        }
      }
      Sorted(todos, repository, found);
      legacy := Sort(PairLe, found);
    }

    // Gives the listed todos consecutive numbers from `base`.
    method AssignNumbers(repository: Repository, legacy: seq<(nat, string)>, base: nat)
      returns (changed: seq<string>, next: nat)
      requires OldestFirst(todos, repository, legacy)
      modifies this`todos
      ensures NumberedSoFar(old(todos), todos, legacy, base, |legacy|) && next == base + |legacy|
      ensures |changed| == |legacy| && forall k | 0 <= k < |legacy| :: changed[k] == legacy[k].1
    {
      hide NumberedSoFar, OldestFirst;
      changed, next := [], base;
      NobodyNumbered(todos, repository, legacy, base);
      for i := 0 to |legacy|
        invariant next == base + i && NumberedSoFar(old(todos), todos, legacy, base, i)
        invariant |changed| == i && forall k | 0 <= k < i :: changed[k] == legacy[k].1
      {
        NumberOne(old(todos), todos, repository, legacy, base, i);
        todos := todos[legacy[i].1 := todos[legacy[i].1].(number := next)];
        changed := changed + [legacy[i].1];
        next := next + 1;
      }
    }

    // One repository of the startup pass.
    method NumberRepository(repository: Repository) returns (changed: seq<string>)
      requires Valid()
      modifies this
      ensures Valid() && todos.Keys == old(todos).Keys
      ensures Done(old(todos), old(projects), todos, projects, repository)
      ensures forall s | s != repository :: SameFor(old(todos), old(projects), todos, projects, s)
      ensures forall u :: u in changed <==> Legacy(old(todos), repository, u)
      ensures Grows(old(projects), projects) && (projects == old(projects) ==> dirty == old(dirty))
      ensures Introduced(old(projects), projects, repository)
    {
      hide OldestFirst, Highest, DoneWith, SameFor, NumberedSoFar, Base, GoodBook, Grows, Introduced;
      var legacy, highest := Survey(repository);
      var id := ProjectFor(repository);
      ghost var book := projects;
      var base := if projects[id].nextNumber > highest then projects[id].nextNumber else highest + 1;
      BaseOfOpened(todos, old(projects), book, repository, id, highest, base);
      var next;
      changed, next := AssignNumbers(repository, legacy, base);
      RepositoryDone(old(todos), old(projects), todos, book, repository, legacy, base, id);
      Introduces(old(projects), book, repository, id, next);
      NumberedKeys(old(todos), todos, legacy, base);
      assert projects[id].nextNumber == next ==> projects[id := projects[id].(nextNumber := next)] == projects;
      if projects[id].nextNumber != next {
        projects := projects[id := projects[id].(nextNumber := next)];
        MarkProject(id);
      }
    }

    /** Repositories are taken in any order; each is `Done` once, and its project is opened if
        it has none. */
    method NumberLegacyTodos() returns (changed: seq<string>)
      requires Valid()
      modifies this
      ensures Valid() && Migrated(old(todos), old(projects), todos, projects)
      ensures forall u :: u in changed <==> u in old(todos) && old(todos)[u].number == 0
      ensures projects == old(projects) ==> dirty == old(dirty)
      ensures PassOf(old(todos), old(projects), projects)
    {
      hide Done, SameFor, Opened, Introduced, Grows;
      changed := [];
      ghost var t, b := todos, projects;
      ghost var order: seq<Repository> := [];
      NothingOpened(b);
      var rest := set u | u in todos :: todos[u].repository;
      assert forall r :: r in rest <==> Mentions(t, r);
      NothingDone(t, b);
      while rest != {}
        invariant Valid() && todos.Keys == t.Keys && forall r | r in rest :: Mentions(t, r)
        invariant forall r :: if Mentions(t, r) && r !in rest then Done(t, b, todos, projects, r)
                  else SameFor(t, b, todos, projects, r)
        invariant forall u :: u in changed <==> u in t && t[u].number == 0 && t[u].repository !in rest
        invariant Grows(b, projects) && (projects == b ==> dirty == old(dirty))
        invariant OpenedSoFar(t, b, projects, order, rest)
        decreases rest
      {
        var r :| r in rest;
        rest := rest - {r};
        ghost var m, c := todos, projects;
        var more := NumberRepository(r);
        NextRepository(t, b, m, c, todos, projects, r);
        forall s | s != r
          ensures if Mentions(t, s) && s !in rest then Done(t, b, todos, projects, s)
                  else SameFor(t, b, todos, projects, s)
        {
          OtherRepository(t, b, m, c, todos, projects, s);
        }
        NextOpened(t, b, c, projects, order, rest, r);
        if !HasProject(c, r) { order := order + [r]; }
        changed := changed + more;
        GrowsOn(b, c, projects);
        if projects == b { GrowsBack(b, c); }
      }
      AllOpened(t, b, projects, order);
    }
  }

  // ---- The prefixes the pass gives ------------------------------------------------------

  ghost predicate HasProject(b: Book, r: Repository) { exists k :: Has(b, r, k) }

  /** The repositories the pass will open a project for. */
  ghost predicate Newcomer(t: Todos, b: Book, r: Repository) { Mentions(t, r) && !HasProject(b, r) }

  /** `b'` is `b` with projects opened for the repositories of `order`, one after the
      other, under the prefixes that gives them. */
  ghost predicate Opened(b: Book, b': Book, order: seq<Repository>) {
    && Distinct(order)
    && (forall k | k in b :: k in b' && b'[k].repository == b[k].repository && b'[k].prefix == b[k].prefix)
    && (forall k | k in b' && k !in b ::
          b'[k].repository in order && b'[k].prefix == Given(Taken(b), order)[b'[k].repository])
    && (forall r | r in order :: HasProject(b', r) && !HasProject(b, r))
    && Taken(b') == Taken(b) + Given(Taken(b), order).Values
  }

  /** One repository has its project; if it is new, under the prefix free at that point. */
  ghost predicate Introduced(b: Book, b': Book, r: Repository) {
    if HasProject(b, r) then Opened(b, b', []) else Opened(b, b', [r])
  }

  lemma OpenedNothing(b: Book, b': Book)
    requires Grows(b, b') && b'.Keys == b.Keys
    ensures Opened(b, b', [])
  {
    assert Given(Taken(b), []) == map[];
    assert Taken(b') == Taken(b) by {
      forall p | p in Taken(b) ensures p in Taken(b') { var k :| k in b && b[k].prefix == p; assert b'[k].prefix == p; }
    }
  }

  lemma OpenedOne(b: Book, b': Book, r: Repository, id: string)
    requires Grows(b, b') && id !in b && b'.Keys == b.Keys + {id} && !HasProject(b, r)
    requires b'[id].repository == r && b'[id].prefix == PrefixFor(r, Taken(b))
    ensures Opened(b, b', [r])
  {
    var p := PrefixFor(r, Taken(b));
    GivenOne(Taken(b), r);
    hide Given, PrefixFor;
    assert Has(b', r, id);
    forall q | q in Taken(b) + {p} ensures q in Taken(b') {
      if q == p { assert b'[id].prefix == p; } else { var k :| k in b && b[k].prefix == q; assert b'[k].prefix == q; }
    }
    assert Taken(b') == Taken(b) + {p};
  }

  lemma Introduces(b: Book, m: Book, r: Repository, id: string, next: nat)
    requires GoodBook(b) && Opens(b, m, r, id) && Grows(b, Advanced(m, id, next))
    ensures Introduced(b, Advanced(m, id, next), r)
  {
    hide Opened;
    var b' := Advanced(m, id, next);
    if id in b {
      assert Has(b, r, id);
      OpenedNothing(b, b');
    } else {
      assert !HasProject(b, r);
      OpenedOne(b, b', r, id);
    }
  }

  lemma StillHas(b: Book, b': Book, order: seq<Repository>, r: Repository)
    requires Opened(b, b', order) && HasProject(b, r)
    ensures HasProject(b', r)
  {
    hide Given, Taken;
    var k :| Has(b, r, k);
    assert Has(b', r, k);
  }

  lemma SameOpened(b: Book, c: Book, b': Book, order: seq<Repository>)
    requires Opened(b, c, order) && Opened(c, b', [])
    ensures Opened(b, b', order)
  {
    hide Taken, HasProject;
    assert Taken(b') == Taken(c) by { assert Given(Taken(c), []) == map[]; }
    hide Given;
    assert forall k :: k in b' <==> k in c;
    forall s | s in order ensures HasProject(b', s) { StillHas(c, b', [], s); }
  }

  lemma AppendedOne(b: Book, c: Book, b': Book, order: seq<Repository>, r: Repository)
    requires Opened(b, c, order) && Opened(c, b', [r]) && !HasProject(c, r)
    ensures Opened(b, b', order + [r])
  {
    hide Given, Taken, PrefixFor, HasProject;
    GivenOne(Taken(c), r);
    GivenOneMore(Taken(b), order, r);
    forall s | s in order + [r] ensures HasProject(b', s) && !HasProject(b, s) {
      if s in order { StillHas(c, b', [r], s); }
      if HasProject(b, r) { StillHas(b, c, order, r); }
    }
    assert Distinct(order + [r]);
    assert Taken(b') == Taken(b) + Given(Taken(b), order + [r]).Values;
  }

  lemma OpenedOnTop(b: Book, c: Book, b': Book, order: seq<Repository>, r: Repository)
    requires Opened(b, c, order) && Introduced(c, b', r)
    ensures Opened(b, b', if HasProject(c, r) then order else order + [r])
  {
    hide Opened, HasProject;
    if HasProject(c, r) { SameOpened(b, c, b', order); } else { AppendedOne(b, c, b', order, r); }
  }

  ghost function Newcomers(t: Todos, b: Book): (rs: set<Repository>)
    ensures forall r :: r in rs <==> Newcomer(t, b, r)
  {
    set u | u in t && !HasProject(b, t[u].repository) :: t[u].repository
  }

  /** What the pass makes of the book: every newcomer opened, in some order. */
  ghost predicate PassOf(t: Todos, b: Book, b': Book) {
    exists order :: Opened(b, b', order) && Lists(order, Newcomers(t, b))
  }

  ghost predicate SamePrefixes(b1: Book, b2: Book) {
    forall i, j | i in b1 && j in b2 && b1[i].repository == b2[j].repository :: b1[i].prefix == b2[j].prefix
  }

  /** Whatever orders two passes over the same records take, every repository's project
      has the same prefix after both. */
  ghost predicate PassesAgree(t: Todos, b: Book) {
    forall b1: Book, b2: Book | PassOf(t, b, b1) && PassOf(t, b, b2) :: SamePrefixes(b1, b2)
  }

  lemma ApartPassesAgree(t: Todos, b: Book, b1: Book, b2: Book)
    requires GoodBook(b) && Apart(Taken(b), Newcomers(t, b)) && PassOf(t, b, b1) && PassOf(t, b, b2)
    ensures SamePrefixes(b1, b2)
  {
    var p :| Opened(b, b1, p) && Lists(p, Newcomers(t, b));
    var q :| Opened(b, b2, q) && Lists(q, Newcomers(t, b));
    ApartAreGivenTheirFirst(Taken(b), p, Newcomers(t, b));
    ApartAreGivenTheirFirst(Taken(b), q, Newcomers(t, b));
    hide PassOf, Apart, Given, PrefixFor;
    forall i, j | i in b1 && j in b2 && b1[i].repository == b2[j].repository ensures b1[i].prefix == b2[j].prefix {
      var r := b1[i].repository;
      assert (i in b ==> Has(b, r, i)) && (j in b ==> Has(b, r, j));
    }
  }

  // Every order can be taken.
  lemma {:induction false} CanOpen(b: Book, order: seq<Repository>) returns (b': Book)
    requires Distinct(order) && forall r | r in order :: !HasProject(b, r)
    ensures Opened(b, b', order)
  {
    hide Opened, HasProject, Given, Taken, PrefixFor;
    NothingOpened(b);
    b' := b;
    if order != [] {
      var front, r := order[..|order| - 1], order[|order| - 1];
      assert order == front + [r];
      var c := CanOpen(b, front);
      HasNow(b, c, front, r);
      var n := LongerThanAll(c.Keys);
      var id := seq(n, _ => '0');
      assert id !in c;
      b' := c[id := Project(id, r, PrefixFor(r, Taken(c)), ProjectName(r), 1)];
      OpenedOne(c, b', r, id);
      AppendedOne(b, c, b', front, r);
    }
  }

  lemma ProjectOf(b: Book, b': Book, order: seq<Repository>, r: Repository) returns (i: string)
    requires Opened(b, b', order) && r in order
    ensures Has(b', r, i) && b'[i].prefix == Given(Taken(b), order)[r]
  {
    hide Given, Taken;
    i :| Has(b', r, i);
    assert i in b ==> Has(b, r, i);
  }

  lemma ClashingPassesDisagree(t: Todos, b: Book, r: Repository, s: Repository)
    requires r != s && r in Newcomers(t, b) && s in Newcomers(t, b) && PrefixFor(r, Taken(b)) == PrefixFor(s, Taken(b))
    ensures !PassesAgree(t, b)
  {
    var rs := Newcomers(t, b);
    hide Given, PrefixFor, Newcomers, Opened, HasProject, Taken;
    var p, q := TwoThatClash(Taken(b), rs, r, s);
    assert Distinct(p) && Distinct(q) && forall r | r in rs :: !HasProject(b, r);
    var b1 := CanOpen(b, p);
    var b2 := CanOpen(b, q);
    assert PassOf(t, b, b1) && PassOf(t, b, b2);
    var i := ProjectOf(b, b1, p, r);
    var j := ProjectOf(b, b2, q, r);
  }

  /** The pass gives the same prefixes in every order exactly if no two of the repositories
      it opens a project for would take the same prefix from the book it starts with. */
  lemma PassesAgreeIffNoneClash(t: Todos, b: Book)
    requires GoodBook(b)
    ensures PassesAgree(t, b) <==> Apart(Taken(b), Newcomers(t, b))
  {
    hide PassOf, PrefixFor, Newcomers, SamePrefixes;
    if Apart(Taken(b), Newcomers(t, b)) {
      forall b1: Book, b2: Book | PassOf(t, b, b1) && PassOf(t, b, b2) ensures SamePrefixes(b1, b2) {
        ApartPassesAgree(t, b, b1, b2);
      }
    } else {
      var r, s :| r in Newcomers(t, b) && s in Newcomers(t, b) && r != s
        && PrefixFor(r, Taken(b)) == PrefixFor(s, Taken(b));
      ClashingPassesDisagree(t, b, r, s);
    }
  }

  /** Projects are never dropped or renamed, and counters never go down. */
  ghost predicate Grows(b: Book, b': Book) {
    forall k | k in b :: k in b' && b[k].nextNumber <= b'[k].nextNumber
      && b'[k] == b[k].(nextNumber := b'[k].nextNumber)
  }

  lemma GrowsOn(b: Book, c: Book, d: Book)
    requires Grows(b, c) && Grows(c, d)
    ensures Grows(b, d)
  {
  }

  lemma NothingOpened(b: Book)
    ensures Grows(b, b) && Opened(b, b, [])
  {
    OpenedNothing(b, b);
  }

  // Of the repositories mentioned, those not in `rest` have been gone through.
  ghost predicate OpenedSoFar(t: Todos, b: Book, b': Book, order: seq<Repository>, rest: set<Repository>) {
    && Opened(b, b', order)
    && forall r :: r in order <==> Newcomer(t, b, r) && r !in rest
  }

  // A project was there at the outset or has been opened.
  lemma HasNow(b: Book, c: Book, order: seq<Repository>, r: Repository)
    requires Opened(b, c, order)
    ensures HasProject(c, r) <==> HasProject(b, r) || r in order
  {
    hide Given, Taken;
    if HasProject(b, r) {
      StillHas(b, c, order, r);
    } else if k :| Has(c, r, k) {
      assert k in b ==> Has(b, r, k);
    }
  }

  lemma AllOpened(t: Todos, b: Book, b': Book, order: seq<Repository>)
    requires OpenedSoFar(t, b, b', order, {})
    ensures PassOf(t, b, b')
  {
    assert Lists(order, Newcomers(t, b));
  }

  lemma NextOpened(t: Todos, b: Book, c: Book, b': Book, order: seq<Repository>, rest: set<Repository>, r: Repository)
    requires OpenedSoFar(t, b, c, order, rest + {r}) && r !in rest && Mentions(t, r) && Introduced(c, b', r)
    ensures OpenedSoFar(t, b, b', if HasProject(c, r) then order else order + [r], rest)
  {
    OpenedOnTop(b, c, b', order, r);
    HasNow(b, c, order, r);
    hide Opened, HasProject, Introduced;
  }

  lemma GrowsBack(b: Book, c: Book)
    requires Grows(b, c) && Grows(c, b)
    ensures b == c
  {
  }

  lemma NobodyNumbered(t: Todos, r: Repository, order: seq<(nat, string)>, base: nat)
    requires OldestFirst(t, r, order)
    ensures NumberedSoFar(t, t, order, base, 0)
  {
  }

  lemma NumberedKeys(t: Todos, t': Todos, order: seq<(nat, string)>, base: nat)
    requires NumberedSoFar(t, t', order, base, |order|)
    ensures t'.Keys == t.Keys
  {
  }

  lemma NothingDone(t: Todos, b: Book)
    ensures forall r :: SameFor(t, b, t, b, r)
  {
  }

  /** What one repository's pass did still stands after it is counted from the start. */
  lemma NextRepository(t: Todos, b: Book, m: Todos, c: Book, t': Todos, b': Book, r: Repository)
    requires SameFor(t, b, m, c, r) && Done(m, c, t', b', r) && GoodBook(b) && GoodBook(c)
    ensures Done(t, b, t', b', r)
    ensures forall u :: Legacy(t, r, u) <==> Legacy(m, r, u)
  {
    var order, base, id :| DoneWith(m, c, t', b', r, order, base, id);
    assert OldestFirst(t, r, order);
    SameNext(t, b, m, c, r);
    var h: nat :| Highest(m, r, h) && base == if NextNumber(c, r) > h then NextNumber(c, r) else h + 1;
    assert Highest(t, r, h);
    assert DoneWith(t, b, t', b', r, order, base, id);
  }

  lemma SameNext(t: Todos, b: Book, m: Todos, c: Book, r: Repository)
    requires SameFor(t, b, m, c, r) && GoodBook(b) && GoodBook(c)
    ensures NextNumber(b, r) == NextNumber(c, r)
  {
    if k :| Has(b, r, k) {
      NextNumberOf(b, r, k);
      NextNumberOf(c, r, k);
    }
  }

  lemma OtherRepository(t: Todos, b: Book, m: Todos, c: Book, t': Todos, b': Book, s: Repository)
    requires SameFor(m, c, t', b', s)
    ensures SameFor(t, b, m, c, s) ==> SameFor(t, b, t', b', s)
    ensures Done(t, b, m, c, s) ==> Done(t, b, t', b', s)
  {
    if Done(t, b, m, c, s) {
      var order, base, id :| DoneWith(t, b, m, c, s, order, base, id);
      assert DoneWith(t, b, t', b', s, order, base, id);
    }
  }
}
