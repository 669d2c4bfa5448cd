/** Collecting something from every element of a sequence, and what of the
    result survives a reordering of the sequence. */
module Aggregates {
  import opened Orders

  /** `flat_map`. */
  function Gather<T, U>(f: T -> seq<U>, xs: seq<T>): seq<U> {
    if xs == [] then [] else Gather(f, xs[..|xs| - 1]) + f(xs[|xs| - 1])
  }

  lemma GatherSnoc<T, U>(f: T -> seq<U>, xs: seq<T>, x: T)
    ensures Gather(f, xs + [x]) == Gather(f, xs) + f(x)
  {
    assert (xs + [x])[..|xs|] == xs;
  }

  lemma Associates<T>(a: seq<T>, b: seq<T>, c: seq<T>)
    ensures (a + b) + c == a + (b + c)
  {
  }

  lemma {:induction false} GatherConcat<T, U>(f: T -> seq<U>, a: seq<T>, b: seq<T>)
    ensures Gather(f, a + b) == Gather(f, a) + Gather(f, b)
  {
    if b == [] {
      assert a + b == a;
    } else {
      var front, last := b[..|b| - 1], b[|b| - 1];
      GatherConcat(f, a, front);
      GatherSnoc(f, a + front, last);
      assert b == front + [last];
      Associates(a, front, [last]);
      Associates(Gather(f, a), Gather(f, front), f(last));
    }
  }

  lemma TakeOut<T>(b: seq<T>, x: T) returns (p: seq<T>, q: seq<T>)
    requires x in b
    ensures b == p + [x] + q && multiset(p + q) == multiset(b) - multiset{x}
  {
    var i :| 0 <= i < |b| && b[i] == x;
    p, q := b[..i], b[i + 1..];
    assert b == p + [x] + q;
  }

  // The last element of one of two reorderings, taken out of both.
  lemma Peel<T>(a: seq<T>, b: seq<T>) returns (p: seq<T>, q: seq<T>)
    requires multiset(a) == multiset(b) && a != []
    ensures b == p + [a[|a| - 1]] + q && multiset(a[..|a| - 1]) == multiset(p + q)
  {
    var front, x := a[..|a| - 1], a[|a| - 1];
    assert a == front + [x];
    assert x in multiset(b);
    p, q := TakeOut(b, x);
    assert multiset(front) == multiset(a) - multiset{x};
  }

  /** What is gathered does not depend on the order it is gathered in. */
  lemma {:induction false} GatherPermutation<T, U>(f: T -> seq<U>, a: seq<T>, b: seq<T>)
    requires multiset(a) == multiset(b)
    ensures multiset(Gather(f, a)) == multiset(Gather(f, b))
  {
    if a == [] {
      assert |multiset(a)| == |multiset(b)|;
    } else {
      var front, x := a[..|a| - 1], a[|a| - 1];
      var p, q := Peel(a, b);
      GatherPermutation(f, front, p + q);
      GatherConcat(f, p, q);
      GatherConcat(f, p + [x], q);
      GatherSnoc(f, p, x);
    }
  }

  lemma GatherCount<T, U>(f: T -> seq<U>, a: seq<T>, b: seq<T>)
    requires multiset(a) == multiset(b)
    ensures |Gather(f, a)| == |Gather(f, b)|
  {
    GatherPermutation(f, a, b);
    assert |multiset(Gather(f, a))| == |multiset(Gather(f, b))|;
  }

  function Sum(xs: seq<real>): real {
    if xs == [] then 0.0 else Sum(xs[..|xs| - 1]) + xs[|xs| - 1]
  }

  lemma {:induction false} SumConcat(a: seq<real>, b: seq<real>)
    ensures Sum(a + b) == Sum(a) + Sum(b)
  {
    if b == [] {
      assert a + b == a;
    } else {
      SumConcat(a, b[..|b| - 1]);
      assert (a + b)[..|a + b| - 1] == a + b[..|b| - 1];
    }
  }

  lemma {:induction false} SumPermutation(a: seq<real>, b: seq<real>)
    requires multiset(a) == multiset(b)
    ensures Sum(a) == Sum(b)
  {
    if a == [] {
      assert |multiset(a)| == |multiset(b)|;
    } else {
      var front, x := a[..|a| - 1], a[|a| - 1];
      var p, q := Peel(a, b);
      SumPermutation(front, p + q);
      SumConcat(p, q);
      SumConcat(p + [x], q);
      assert (p + [x])[..|p|] == p;
    }
  }

  /** The larger of all, if there is one. */
  function Largest(xs: seq<real>): (m: seq<real>)
    ensures xs == [] ==> m == []
    ensures xs != [] ==> |m| == 1 && m[0] in xs && forall x | x in xs :: x <= m[0]
  {
    if xs == [] then []
    else
      var before, x := Largest(xs[..|xs| - 1]), xs[|xs| - 1];
      assert xs == xs[..|xs| - 1] + [x];
      if before == [] || before[0] < x then [x] else before
  }

  lemma LargestPermutation(a: seq<real>, b: seq<real>)
    requires multiset(a) == multiset(b)
    ensures Largest(a) == Largest(b)
  {
    assert forall x :: x in a <==> x in multiset(a);
    assert forall x :: x in b <==> x in multiset(b);
    if a != [] { assert a[0] in b; }
    if b != [] { assert b[0] in a; }
    if a != [] { assert Largest(a)[0] in b && Largest(b)[0] in a; }
  }

  /** The middle of the values in order, or the mean of the two, rounded down; nothing gives 0. */
  function Median(values: seq<nat>): nat {
    var s := Sort(NatLe, values);
    var mid := |s| / 2;
    if s == [] then 0
    else if |s| % 2 == 0 then (s[mid - 1] + s[mid]) / 2
    else s[mid]
  }

  /** `a` and `b` stand where the values split in halves: as many are below `a` as above `b`,
      and `between` are the rest. */
  ghost predicate Splits(values: multiset<nat>, lo: multiset<nat>, between: multiset<nat>, hi: multiset<nat>,
                         a: nat, b: nat) {
    && values == lo + between + hi && |lo| == |hi|
    && a <= b && (forall v | v in lo :: v <= a) && (forall v | v in hi :: b <= v)
  }

  /** Of an odd number of values the median is the one with as many before as after it. */
  lemma OddMedian(values: seq<nat>)
    requires |values| % 2 == 1
    ensures var m := Median(values); exists lo, hi :: Splits(multiset(values), lo, multiset{m}, hi, m, m)
  {
    var s, mid := Sort(NatLe, values), |values| / 2;
    SortContents(NatLe, values);
    var m := Median(values);
    var lo, hi := SortedSplits(values, mid, mid);
    hide *;
    assert s[mid..mid + 1] == [m];
    assert Splits(multiset(values), lo, multiset{m}, hi, m, m);
  }

  /** Of an even number it is the mean, rounded down, of the two in the middle; of none it is 0. */
  lemma EvenMedian(values: seq<nat>)
    requires |values| % 2 == 0
    ensures values == [] ==> Median(values) == 0
    ensures values != [] ==> exists a: nat, b: nat :: Middle(values, a, b) && Median(values) == (a + b) / 2
  {
    if values != [] {
      var s, mid := Sort(NatLe, values), |values| / 2;
      SortContents(NatLe, values);
      var a, b, m := s[mid - 1], s[mid], Median(values);
      var lo, hi := SortedSplits(values, mid - 1, mid);
      assert m == (a + b) / 2;
      assert Middle(values, a, b) by {
        hide *;
        assert s[mid - 1..mid + 1] == [a, b];
        assert Splits(multiset(values), lo, multiset{a, b}, hi, a, b);
      }
    }
  }

  ghost predicate Middle(values: seq<nat>, a: nat, b: nat) {
    exists lo, hi :: Splits(multiset(values), lo, multiset{a, b}, hi, a, b)
  }

  lemma SortedSplits(values: seq<nat>, i: nat, j: nat) returns (lo: multiset<nat>, hi: multiset<nat>)
    requires i <= j && i + j + 1 == |values|
    ensures var s := Sort(NatLe, values);
            |s| == |values| && Splits(multiset(values), lo, multiset(s[i..j + 1]), hi, s[i], s[j])
  {
    NatLeIsTotalOrder();
    SortSorted(NatLe, values);
    SortContents(NatLe, values);
    hide Sort, TotalOrder, SortedBy, Splits;
    lo, hi := SplitsSorted(Sort(NatLe, values), i, j);
  }

  lemma SplitsSorted(s: seq<nat>, i: nat, j: nat) returns (lo: multiset<nat>, hi: multiset<nat>)
    requires SortedBy(NatLe, s) && i <= j && i + j + 1 == |s|
    ensures Splits(multiset(s), lo, multiset(s[i..j + 1]), hi, s[i], s[j])
  {
    lo, hi := multiset(s[..i]), multiset(s[j + 1..]);
    assert s == s[..i] + s[i..j + 1] + s[j + 1..];
    assert i < j ==> NatLe(s[i], s[j]);
    forall v | v in lo ensures v <= s[i] {
      var k :| 0 <= k < i && s[..i][k] == v;
      assert NatLe(s[k], s[i]);
    }
    forall v | v in hi ensures s[j] <= v {
      var k :| 0 <= k < |s| - 1 - j && s[j + 1..][k] == v;
      assert NatLe(s[j], s[j + 1 + k]);
    }
  }

  lemma MedianPermutation(a: seq<nat>, b: seq<nat>)
    requires multiset(a) == multiset(b)
    ensures Median(a) == Median(b)
  {
    NatLeIsTotalOrder();
    SortPermutation(NatLe, a, b);
  }

  lemma FirstSeenPermutation<T>(a: seq<T>, b: seq<T>)
    requires multiset(a) == multiset(b)
    ensures multiset(FirstSeen(a)) == multiset(FirstSeen(b))
  {
    EachOnce(a);
    EachOnce(b);
    assert forall x :: x in a <==> x in multiset(a);
    assert forall x :: x in b <==> x in multiset(b);
    SameElements(FirstSeen(a), FirstSeen(b));
  }

  // ---- Splitting by key ----------------------------------------------------------

  /** How much is gathered under all of `keys` together. */
  function Spread<K, T, U>(f: K -> T -> seq<U>, keys: seq<K>, xs: seq<T>): nat {
    if keys == [] then 0 else |Gather(f(keys[0]), xs)| + Spread(f, keys[1..], xs)
  }

  lemma {:induction false} SpreadNothing<K, T, U>(f: K -> T -> seq<U>, keys: seq<K>)
    ensures Spread(f, keys, []) == 0
  {
    if keys != [] { SpreadNothing(f, keys[1..]); }
  }

  lemma {:induction false} SpreadSnoc<K, T, U>(f: K -> T -> seq<U>, keys: seq<K>, xs: seq<T>, x: T, k: K, n: nat)
    requires Distinct(keys) && forall j | j in keys :: |f(j)(x)| == if j == k then n else 0
    ensures Spread(f, keys, xs + [x]) == Spread(f, keys, xs) + if k in keys then n else 0
  {
    if keys != [] {
      assert keys == [keys[0]] + keys[1..];
      SpreadSnoc(f, keys[1..], xs, x, k, n);
      GatherSnoc(f(keys[0]), xs, x);
    }
  }

  /** Sorted into disjoint rows, nothing is lost and nothing counted twice. */
  lemma {:induction false} SpreadIsEverything<K(!new), T(!new), U(!new)>(
    f: K -> T -> seq<U>, key: T -> K, g: T -> seq<U>, keys: seq<K>, xs: seq<T>)
    requires Distinct(keys) && forall x | x in xs :: key(x) in keys
    requires forall k, x :: |f(k)(x)| == if k == key(x) then |g(x)| else 0
    ensures Spread(f, keys, xs) == |Gather(g, xs)|
  {
    if xs == [] {
      SpreadNothing(f, keys);
    } else {
      var front, x := xs[..|xs| - 1], xs[|xs| - 1];
      assert xs == front + [x];
      SpreadIsEverything(f, key, g, keys, front);
      SpreadSnoc(f, keys, front, x, key(x), |g(x)|);
    }
  }
}
