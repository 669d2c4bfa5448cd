/** The order Rust gives strings and pairs, and the library sort the repository
    leans on. Everything that sorts (statistics rows, legacy todos, artefacts,
    skill directories, blocked tasks) goes through `Sort`. */
module Orders {

  /** What sorting by a key needs: two elements may tie. */
  ghost predicate TotalPreorder<T(!new)>(le: (T, T) -> bool) {
    && (forall x, y :: le(x, y) || le(y, x))
    && (forall x, y, z :: le(x, y) && le(y, z) ==> le(x, z))
  }

  ghost predicate TotalOrder<T(!new)>(le: (T, T) -> bool) {
    && TotalPreorder(le)
    && (forall x, y :: le(x, y) && le(y, x) ==> x == y)
  }

  ghost predicate SortedBy<T>(le: (T, T) -> bool, xs: seq<T>) {
    forall i, j | 0 <= i < j < |xs| :: le(xs[i], xs[j])
  }

  // Insertion keeps the later of two equal elements behind the earlier one, as
  // a stable sort does.
  function Insert<T>(le: (T, T) -> bool, x: T, xs: seq<T>): seq<T> {
    if xs == [] then [x]
    else if le(x, xs[0]) then [x] + xs
    else [xs[0]] + Insert(le, x, xs[1..])
  }

  function Sort<T>(le: (T, T) -> bool, xs: seq<T>): seq<T> {
    if xs == [] then [] else Insert(le, xs[0], Sort(le, xs[1..]))
  }

  lemma {:induction false} InsertContents<T>(le: (T, T) -> bool, x: T, xs: seq<T>)
    ensures multiset(Insert(le, x, xs)) == multiset(xs) + multiset{x}
  {
    if xs == [] {
    } else if le(x, xs[0]) {
    } else {
      InsertContents(le, x, xs[1..]);
      assert xs == [xs[0]] + xs[1..];
    }
  }

  lemma {:induction false} InsertSorted<T(!new)>(le: (T, T) -> bool, x: T, xs: seq<T>)
    requires TotalPreorder(le) && SortedBy(le, xs)
    ensures SortedBy(le, Insert(le, x, xs))
  {
    if xs == [] {
    } else if le(x, xs[0]) {
    } else {
      InsertSorted(le, x, xs[1..]);
      InsertContents(le, x, xs[1..]);
      var rest := Insert(le, x, xs[1..]);
      forall i | 0 <= i < |rest| ensures le(xs[0], rest[i]) {
        assert rest[i] in multiset(rest);
        assert rest[i] == x || rest[i] in xs[1..];
      }
    }
  }

  lemma {:induction false} SortContents<T>(le: (T, T) -> bool, xs: seq<T>)
    ensures multiset(Sort(le, xs)) == multiset(xs)
    ensures |Sort(le, xs)| == |xs|
  {
    if xs != [] {
      SortContents(le, xs[1..]);
      InsertContents(le, xs[0], Sort(le, xs[1..]));
      assert xs == [xs[0]] + xs[1..];
    }
    assert |multiset(Sort(le, xs))| == |multiset(xs)|;
  }

  lemma {:induction false} SortSorted<T(!new)>(le: (T, T) -> bool, xs: seq<T>)
    requires TotalPreorder(le)
    ensures SortedBy(le, Sort(le, xs))
  {
    if xs != [] {
      SortSorted(le, xs[1..]);
      InsertSorted(le, xs[0], Sort(le, xs[1..]));
    }
  }

  lemma TailsAgree<T>(a: seq<T>, b: seq<T>)
    requires a != [] && b != [] && a[0] == b[0] && multiset(a) == multiset(b)
    ensures multiset(a[1..]) == multiset(b[1..])
  {
    assert a == [a[0]] + a[1..] && b == [b[0]] + b[1..];
    assert multiset(a[1..]) == multiset(a) - multiset{a[0]};
    assert multiset(b[1..]) == multiset(b) - multiset{b[0]};
  }

  /** What makes a sorted result independent of the order things arrived in. */
  lemma {:induction false} SortedUnique<T(!new)>(le: (T, T) -> bool, a: seq<T>, b: seq<T>)
    requires TotalOrder(le) && SortedBy(le, a) && SortedBy(le, b)
    requires multiset(a) == multiset(b)
    ensures a == b
  {
    assert |multiset(a)| == |a| && |multiset(b)| == |b|;
    if a != [] {
      assert SortedBy(le, a[1..]) && SortedBy(le, b[1..]);
      hide TotalOrder, SortedBy;
      assert a[0] in multiset(b) && b[0] in multiset(a);
      TailsAgree(a, b);
      SortedUnique(le, a[1..], b[1..]);
      assert a == [a[0]] + a[1..] && b == [b[0]] + b[1..];
    }
  }

  lemma SortPermutation<T(!new)>(le: (T, T) -> bool, a: seq<T>, b: seq<T>)
    requires TotalOrder(le) && multiset(a) == multiset(b)
    ensures Sort(le, a) == Sort(le, b)
  {
    SortSorted(le, a);
    SortSorted(le, b);
    SortContents(le, a);
    SortContents(le, b);
    SortedUnique(le, Sort(le, a), Sort(le, b));
  }

  // ---- Sequences without repetition --------------------------------------------

  ghost predicate Distinct<T>(xs: seq<T>) {
    forall i, j | 0 <= i < j < |xs| :: xs[i] != xs[j]
  }

  lemma {:induction false} AtMostOnce<T>(a: seq<T>, x: T)
    requires Distinct(a)
    ensures multiset(a)[x] <= 1
  {
    if a != [] {
      assert a == [a[0]] + a[1..];
      AtMostOnce(a[1..], x);
      if a[0] == x { assert x !in a[1..]; assert multiset(a[1..])[x] == 0; }
    }
  }

  lemma SameElements<T>(a: seq<T>, b: seq<T>)
    requires Distinct(a) && Distinct(b)
    requires forall x :: x in a <==> x in b
    ensures multiset(a) == multiset(b)
  {
    forall x ensures multiset(a)[x] == multiset(b)[x] {
      AtMostOnce(a, x);
      AtMostOnce(b, x);
      assert x in a <==> x in multiset(a);
      assert x in b <==> x in multiset(b);
    }
  }

  lemma Twice<T>(s: seq<T>, i: nat, j: nat)
    requires i < j < |s|
    ensures s[i] == s[j] ==> multiset(s)[s[i]] >= 2
  {
    assert s == s[..i] + [s[i]] + s[i + 1..j] + [s[j]] + s[j + 1..];
  }

  lemma SortDistinct<T(!new)>(le: (T, T) -> bool, xs: seq<T>)
    requires Distinct(xs)
    ensures Distinct(Sort(le, xs)) && forall x :: x in Sort(le, xs) <==> x in xs
  {
    hide Sort;
    var s := Sort(le, xs);
    SortContents(le, xs);
    forall x ensures x in s <==> x in xs { assert x in multiset(s) <==> x in multiset(xs); }
    forall i, j | 0 <= i < j < |s| ensures s[i] != s[j] {
      AtMostOnce(xs, s[i]);
      Twice(s, i, j);
    }
  }

  /** Every element once, in the order it first appears. */
  function FirstSeen<T(==)>(xs: seq<T>): seq<T> {
    if xs == [] then []
    else
      var before, x := FirstSeen(xs[..|xs| - 1]), xs[|xs| - 1];
      if x in before then before else before + [x]
  }

  lemma {:induction false} EachOnce<T>(xs: seq<T>)
    ensures Distinct(FirstSeen(xs))
    ensures forall x :: x in FirstSeen(xs) <==> x in xs
  {
    if xs != [] {
      EachOnce(xs[..|xs| - 1]);
      assert xs == xs[..|xs| - 1] + [xs[|xs| - 1]];
    }
  }

  /** What was seen before stands before. */
  lemma {:induction false} FirstSeenInOrder<T>(xs: seq<T>, n: nat)
    requires n <= |xs|
    ensures FirstSeen(xs[..n]) <= FirstSeen(xs)
  {
    if n < |xs| {
      FirstSeenInOrder(xs[..|xs| - 1], n);
      assert xs[..|xs| - 1][..n] == xs[..n];
    } else {
      assert xs[..n] == xs;
    }
  }

  predicate NatLe(a: nat, b: nat) { a <= b }

  lemma NatLeIsTotalOrder()
    ensures TotalOrder(NatLe)
  {
  }

  /** Lexicographic by code point: `str`'s own order. */
  predicate StringLe(a: string, b: string) {
    if a == [] then true
    else if b == [] then false
    else a[0] < b[0] || (a[0] == b[0] && StringLe(a[1..], b[1..]))
  }

  /** The two sequences part at place `k`. */
  ghost predicate DiffersAt<T>(a: seq<T>, b: seq<T>, k: nat) {
    k < |a| && k < |b| && a[..k] == b[..k] && a[k] != b[k]
  }

  lemma DiffersLater<T>(a: seq<T>, b: seq<T>, k: nat)
    requires a != [] && b != []
    ensures DiffersAt(a, b, k) <==>
              if k == 0 then a[0] != b[0] else a[0] == b[0] && DiffersAt(a[1..], b[1..], k - 1)
  {
    if 0 < k < |a| && k < |b| {
      assert a[..k] == [a[0]] + a[1..][..k - 1] && b[..k] == [b[0]] + b[1..][..k - 1];
      assert a[..k][0] == a[0] && b[..k][0] == b[0];
      assert a[..k][1..] == a[1..][..k - 1] && b[..k][1..] == b[1..][..k - 1];
    }
  }

  /** At the first character that differs, the smaller one decides; a prefix comes first. */
  lemma {:induction false} StringLeIs(a: string, b: string)
    ensures StringLe(a, b) <==> a <= b || exists k: nat :: DiffersAt(a, b, k) && a[k] < b[k]
  {
    if a != [] && b != [] {
      forall k: nat { DiffersLater(a, b, k); }
      if a[0] == b[0] {
        StringLeIs(a[1..], b[1..]);
        assert a <= b <==> a[1..] <= b[1..];
        if k: nat :| DiffersAt(a[1..], b[1..], k) && a[1..][k] < b[1..][k] {
          DiffersLater(a, b, k + 1);
          assert DiffersAt(a, b, k + 1);
        }
      } else {
        assert DiffersAt(a, b, 0);
      }
    }
  }

  lemma {:induction false} StringTotal(a: string, b: string)
    ensures StringLe(a, b) || StringLe(b, a)
  {
    if a != [] && b != [] { StringTotal(a[1..], b[1..]); }
  }

  lemma {:induction false} StringAntisymmetric(a: string, b: string)
    requires StringLe(a, b) && StringLe(b, a)
    ensures a == b
  {
    if a != [] && b != [] {
      StringAntisymmetric(a[1..], b[1..]);
      assert a == [a[0]] + a[1..] && b == [b[0]] + b[1..];
    }
  }

  lemma {:induction false} StringTransitive(a: string, b: string, c: string)
    requires StringLe(a, b) && StringLe(b, c)
    ensures StringLe(a, c)
  {
    if a != [] && a[0] == b[0] == c[0] { StringTransitive(a[1..], b[1..], c[1..]); }
  }

  lemma StringLeIsTotalOrder()
    ensures TotalOrder(StringLe)
  {
    forall x, y ensures StringLe(x, y) || StringLe(y, x) { StringTotal(x, y); }
    forall x, y | StringLe(x, y) && StringLe(y, x) ensures x == y { StringAntisymmetric(x, y); }
    forall x, y, z | StringLe(x, y) && StringLe(y, z) ensures StringLe(x, z) { StringTransitive(x, y, z); }
  }

  /** A number first, a name to break the tie: how sizes, ages and depths are sorted. */
  predicate PairLe(a: (nat, string), b: (nat, string)) {
    a.0 < b.0 || (a.0 == b.0 && StringLe(a.1, b.1))
  }

  lemma PairLeIsTotalOrder()
    ensures TotalOrder(PairLe)
  {
    StringLeIsTotalOrder();
  }
}
