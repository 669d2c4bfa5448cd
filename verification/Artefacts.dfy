/** Which of the files a run leaves behind are sent (crates/agent/src/artefacts.rs). */
module Artefacts {
  import opened Protocol
  import opened Orders

  const MAX_FILES: nat := 20
  const MAX_TOTAL: nat := 5 * 1024 * 1024

  datatype File = File(name: string, size: nat)

  predicate FileLe(a: File, b: File) { PairLe((a.size, a.name), (b.size, b.name)) }

  lemma FileLeIsTotalOrder()
    ensures TotalOrder(FileLe)
  {
    PairLeIsTotalOrder();
    forall a: File, b: File ensures FileLe(a, b) || FileLe(b, a) {
      assert PairLe((a.size, a.name), (b.size, b.name)) || PairLe((b.size, b.name), (a.size, a.name));
    }
    forall a: File, b: File | FileLe(a, b) && FileLe(b, a) ensures a == b {
      assert (a.size, a.name) == (b.size, b.name);
    }
    forall a: File, b: File, c: File | FileLe(a, b) && FileLe(b, c) ensures FileLe(a, c) {
      assert PairLe((a.size, a.name), (c.size, c.name));
    }
  }

  ghost predicate BySize(s: seq<File>) {
    forall i, j | 0 <= i < j < |s| :: s[i].size <= s[j].size
  }

  lemma SortBySize(files: seq<File>)
    ensures var s := Sort(FileLe, files); BySize(s) && |s| == |files| && multiset(s) == multiset(files)
  {
    FileLeIsTotalOrder();
    SortSorted(FileLe, files);
    SortContents(FileLe, files);
  }

  function Total(files: seq<File>): nat {
    if files == [] then 0 else Total(files[..|files| - 1]) + files[|files| - 1].size
  }

  function Names(files: seq<File>): (names: seq<string>)
    ensures |names| == |files| && forall i | 0 <= i < |files| :: names[i] == files[i].name
  {
    if files == [] then [] else Names(files[..|files| - 1]) + [files[|files| - 1].name]
  }

  predicate Fits(files: seq<File>) {
    |files| <= MAX_FILES && Total(files) <= MAX_TOTAL
  }

  /** `s` in size order splits at `n`: everything before fits, one more does not. */
  ghost predicate Cut(s: seq<File>, n: nat) {
    && n <= |s| && Fits(s[..n])
    && (n < |s| ==> !Fits(s[..n + 1]))
  }

  // The first `i` files in size order have been looked at.
  ghost predicate Picking(s: seq<File>, i: nat, kept: seq<string>, skipped: seq<string>, total: nat) {
    && |kept| <= i <= |s| && |kept| <= MAX_FILES
    && kept == Names(s[..|kept|]) && skipped == Names(s[|kept|..i])
    && total == Total(s[..|kept|]) <= MAX_TOTAL
    && (|kept| < i ==> |kept| == MAX_FILES || total + s[|kept|].size > MAX_TOTAL)
  }

  lemma NothingPicked(s: seq<File>)
    ensures Picking(s, 0, [], [], 0)
  {
  }

  lemma Keeps(s: seq<File>, i: nat, kept: seq<string>, skipped: seq<string>, total: nat)
    requires BySize(s) && i < |s| && Picking(s, i, kept, skipped, total)
    requires |kept| < MAX_FILES && total + s[i].size <= MAX_TOTAL
    ensures Picking(s, i + 1, kept + [s[i].name], skipped, total + s[i].size)
  {
    // Had a file been left out, this one, at least as large, would not fit.
    assert |kept| == i;
    TotalSnoc(s, i);
    assert s[0..i] == s[..i] && s[0..i + 1] == s[..i + 1] && s[i + 1..i + 1] == s[i..i] == [];
  }

  lemma Skips(s: seq<File>, i: nat, kept: seq<string>, skipped: seq<string>, total: nat)
    requires i < |s| && Picking(s, i, kept, skipped, total)
    requires !(|kept| < MAX_FILES && total + s[i].size <= MAX_TOTAL)
    ensures Picking(s, i + 1, kept, skipped + [s[i].name], total)
  {
  }

  lemma Picked(s: seq<File>, kept: seq<string>, skipped: seq<string>, total: nat)
    requires Picking(s, |s|, kept, skipped, total)
    ensures kept == Names(s[..|kept|]) && skipped == Names(s[|kept|..]) && Cut(s, |kept|)
  {
    assert s[|kept|..|s|] == s[|kept|..];
    if |kept| < |s| { TotalSnoc(s, |kept|); }
  }

  /** What is kept is the longest prefix of the size order that is within both caps. */
  method Pick(files: seq<File>) returns (kept: seq<string>, skipped: seq<string>)
    ensures var s := Sort(FileLe, files);
            && |kept| <= |s| && multiset(s) == multiset(files)
            && kept == Names(s[..|kept|]) && skipped == Names(s[|kept|..])
            && Cut(s, |kept|)
  {
    hide Sort, Picking, Names, Total, Cut, BySize;
    var sorted := Sort(FileLe, files);
    SortBySize(files);
    NothingPicked(sorted);
    var total: nat := 0;
    kept, skipped := [], [];
    for i := 0 to |sorted|
      invariant Picking(sorted, i, kept, skipped, total)
    {
      var file := sorted[i];
      if |kept| < MAX_FILES && total + file.size <= MAX_TOTAL {
        Keeps(sorted, i, kept, skipped, total);
        total := total + file.size;
        kept := kept + [file.name];
      } else {
        Skips(sorted, i, kept, skipped, total);
        skipped := skipped + [file.name];
      }
    }
    Picked(sorted, kept, skipped, total);
  }

  lemma TotalSnoc(s: seq<File>, n: nat)
    requires n < |s|
    ensures Total(s[..n + 1]) == Total(s[..n]) + s[n].size
  {
    assert s[..n + 1][..n] == s[..n];
  }

  // ---- Nothing chosen otherwise does better -------------------------------

  lemma {:induction false} TotalConcat(a: seq<File>, b: seq<File>)
    ensures Total(a + b) == Total(a) + Total(b)
  {
    if b == [] {
      assert a + b == a;
    } else {
      TotalConcat(a, b[..|b| - 1]);
      assert (a + b)[..|a + b| - 1] == a + b[..|b| - 1];
    }
  }

  lemma RemoveOne(sel: seq<File>, i: nat)
    requires i < |sel|
    ensures var rest := sel[..i] + sel[i + 1..];
            && multiset(rest) == multiset(sel) - multiset{sel[i]}
            && Total(rest) + sel[i].size == Total(sel)
  {
    var a, b := sel[..i], sel[i + 1..];
    assert sel == a + ([sel[i]] + b);
    TotalConcat(a, [sel[i]] + b);
    TotalConcat([sel[i]], b);
    TotalConcat(a, b);
    assert [sel[i]][..0] == [];
  }

  // The part of a selection that is chosen from all but the last file.
  lemma WithoutLast(front: seq<File>, last: File, sel: seq<File>) returns (rest: seq<File>)
    requires multiset(sel) <= multiset(front + [last])
    ensures multiset(rest) <= multiset(front)
    ensures (rest == sel) || (|rest| + 1 == |sel| && Total(rest) + last.size == Total(sel))
  {
    if last in sel {
      var i :| 0 <= i < |sel| && sel[i] == last;
      RemoveOne(sel, i);
      rest := sel[..i] + sel[i + 1..];
      assert |sel[..i] + sel[i + 1..]| + 1 == |sel|;
    } else {
      rest := sel;
      forall f ensures multiset(sel)[f] <= multiset(front)[f] {
        if f == last { assert multiset(sel)[f] == 0; }
      }
    }
  }

  /** The `k` smallest files weigh no more than any `k` of the first `m`. */
  lemma {:induction false} SmallestWeighLeast(s: seq<File>, m: nat, sel: seq<File>)
    requires BySize(s) && m <= |s| && multiset(sel) <= multiset(s[..m])
    ensures |sel| <= m && Total(s[..|sel|]) <= Total(sel)
  {
    if m == 0 {
      assert |multiset(sel)| <= |multiset(s[..m])|;
    } else {
      hide BySize, Total;
      assert s[..m] == s[..m - 1] + [s[m - 1]];
      var rest := WithoutLast(s[..m - 1], s[m - 1], sel);
      SmallestWeighLeast(s, m - 1, rest);
      if rest != sel { TotalSnoc(s, |rest|); }
    }
  }

  lemma {:induction false} TotalMonotone(s: seq<File>, m: nat, n: nat)
    requires m <= n <= |s|
    ensures Total(s[..m]) <= Total(s[..n])
  {
    if m < n {
      TotalMonotone(s, m, n - 1);
      TotalSnoc(s, n - 1);
    }
  }

  /** `pick` is optimal: within the caps nothing holds more files, and nothing
      with as many files is smaller. */
  lemma PickIsOptimal(files: seq<File>, n: nat, sel: seq<File>)
    requires Cut(Sort(FileLe, files), n)
    requires multiset(sel) <= multiset(files) && Fits(sel)
    ensures |sel| <= n <= 20 && Total(Sort(FileLe, files)[..n]) <= 5242880
    ensures |sel| == n ==> Total(Sort(FileLe, files)[..n]) <= Total(sel)
  {
    var s := Sort(FileLe, files);
    SortBySize(files);
    assert s[..|s|] == s;
    SmallestWeighLeast(s, |s|, sel);
    if |sel| > n {
      TotalMonotone(s, n + 1, |sel|);
      assert false;
    }
  }

  // ---- What `collect` sends -----------------------------------------------

  function Named(files: seq<File>, names: seq<string>): seq<File> {
    if files == [] then []
    else
      var before := Named(files[..|files| - 1], names);
      if files[|files| - 1].name in names then before + [files[|files| - 1]] else before
  }

  // ---- The directory -----------------------------------------------------------

  predicate Alphanumeric(c: char) { 'a' <= c <= 'z' || 'A' <= c <= 'Z' || '0' <= c <= '9' }

  function Reduced(c: char): char { if Alphanumeric(c) || c == '.' || c == '_' || c == '-' then c else '-' }

  /** The name a file is sent under: unusual characters become dashes, and something
      other than punctuation must be left. */
  function ArtefactName(raw: string): Option<string> {
    var name := seq(|raw|, i requires 0 <= i < |raw| => Reduced(raw[i]));
    if |name| <= 128 && exists c | c in name :: Alphanumeric(c) then Some(name) else None
  }

  /** A file name is made of letters, digits, dots, dashes and underscores, some of them letters or
      digits, and at most 128 long; of what it is made from it keeps those characters in place,
      and a name is made of itself. */
  lemma WhatANameIs(raw: string)
    ensures match ArtefactName(raw)
            case Some(name) =>
              && |name| == |raw| <= 128 && ArtefactName(name) == Some(name)
              && (forall i | 0 <= i < |raw| :: name[i] == if Usual(raw[i]) then raw[i] else '-')
              && exists c :: c in raw && Usual(c) && c !in "._-"
            case None => |raw| > 128 || forall c | c in raw && Usual(c) :: c in "._-"
  {
    var name := seq(|raw|, i requires 0 <= i < |raw| => Reduced(raw[i]));
    assert forall i | 0 <= i < |raw| :: Reduced(name[i]) == name[i];
    assert seq(|name|, i requires 0 <= i < |name| => Reduced(name[i])) == name;
    if c :| c in name && Alphanumeric(c) {
      var i :| 0 <= i < |name| && name[i] == c;
      assert raw[i] in raw && Usual(raw[i]);
    }
    if c :| c in raw && Usual(c) && c !in "._-" {
      var i :| 0 <= i < |raw| && raw[i] == c;
      assert name[i] in name && Alphanumeric(name[i]);
    }
  }

  ghost predicate Usual(c: char) {
    'a' <= c <= 'z' || 'A' <= c <= 'Z' || '0' <= c <= '9' || c in "._-"
  }

  // A regular file of the directory, and whether reading it will succeed.
  datatype Entry = Entry(raw: string, size: nat, readable: bool)

  function Usable(entries: seq<Entry>): seq<Entry> {
    if entries == [] then []
    else
      Usable(entries[..|entries| - 1]) +
      if ArtefactName(entries[|entries| - 1].raw).Some? then [entries[|entries| - 1]] else []
  }

  function Found(entries: seq<Entry>): (found: seq<File>)
    ensures |found| == |Usable(entries)|
  {
    if entries == [] then []
    else
      var (e, before) := (entries[|entries| - 1], Found(entries[..|entries| - 1]));
      if ArtefactName(e.raw).Some? then before + [File(ArtefactName(e.raw).value, e.size)] else before
  }

  /** Of the files found, those under a name that was kept, as far as they can be read. */
  function Sent(found: seq<File>, read: seq<Entry>, names: seq<string>): seq<File>
    requires |found| == |read|
  {
    if found == [] then []
    else
      var n := |found| - 1;
      var before := Sent(found[..n], read[..n], names);
      if found[n].name in names && read[n].readable then before + [found[n]] else before
  }

  /** Lists the directory, picks by size, and reads whatever goes by a kept name. */
  method Collect(entries: seq<Entry>) returns (out: seq<File>)
    ensures var s := Sort(FileLe, Found(entries));
            exists n: nat :: n <= |s| && Cut(s, n) && out == Sent(Found(entries), Usable(entries), Names(s[..n]))
  {
    hide ArtefactName, Sort, Cut, Names;
    var found: seq<File> := [];
    var read: seq<Entry> := [];
    for i := 0 to |entries|
      invariant found == Found(entries[..i]) && read == Usable(entries[..i])
    {
      assert entries[..i + 1][..i] == entries[..i];
      var name := ArtefactName(entries[i].raw);
      if name.Some? {
        found, read := found + [File(name.value, entries[i].size)], read + [entries[i]];
      }
    }
    assert entries[..|entries|] == entries;
    var kept, skipped := Pick(found);
    assert Cut(Sort(FileLe, found), |kept|);
    out := [];
    for i := 0 to |found|
      invariant out == Sent(found[..i], read[..i], kept)
    {
      assert found[..i + 1][..i] == found[..i] && read[..i + 1][..i] == read[..i];
      if found[i].name in kept && read[i].readable {
        out := out + [found[i]];
      }
    }
    assert found[..|found|] == found && read[..|read|] == read;
  }

  lemma {:induction false} SentIsNoMore(found: seq<File>, read: seq<Entry>, names: seq<string>)
    requires |found| == |read|
    ensures |Sent(found, read, names)| <= |Named(found, names)|
            && Total(Sent(found, read, names)) <= Total(Named(found, names))
  {
    if found != [] {
      var n := |found| - 1;
      hide Total;
      SentIsNoMore(found[..n], read[..n], names);
    }
  }

  lemma {:induction false} SentIsNamed(found: seq<File>, read: seq<Entry>, names: seq<string>)
    requires |found| == |read| && forall i | 0 <= i < |read| :: read[i].readable
    ensures Sent(found, read, names) == Named(found, names)
  {
    if found != [] { SentIsNamed(found[..|found| - 1], read[..|found| - 1], names); }
  }

  lemma {:induction false} NamedContents(files: seq<File>, names: seq<string>, f: File)
    ensures multiset(Named(files, names))[f] == if f.name in names then multiset(files)[f] else 0
  {
    if files != [] {
      var front := files[..|files| - 1];
      assert files == front + [files[|files| - 1]];
      NamedContents(front, names, f);
    }
  }

  lemma {:induction false} TotalContents(a: seq<File>, b: seq<File>)
    requires multiset(a) == multiset(b)
    ensures |a| == |b| && Total(a) == Total(b)
  {
    assert |multiset(a)| == |a| && |multiset(b)| == |b|;
    if a != [] {
      var last, front := a[|a| - 1], a[..|a| - 1];
      assert a == front + [last];
      assert last in multiset(b);
      var i :| 0 <= i < |b| && b[i] == last;
      RemoveOne(b, i);
      TotalContents(front, b[..i] + b[i + 1..]);
    }
  }

  lemma KeptAreSent(kept: seq<File>, skipped: seq<File>, found: seq<File>, f: File)
    requires multiset(kept + skipped) == multiset(found)
    ensures multiset(kept)[f] <= multiset(Named(found, Names(kept)))[f] <= multiset(found)[f]
    ensures (forall i | 0 <= i < |skipped| :: skipped[i].name !in Names(kept)) ==>
              multiset(kept)[f] == multiset(Named(found, Names(kept)))[f]
  {
    NamedContents(found, Names(kept), f);
    if f in kept { var k :| 0 <= k < |kept| && kept[k] == f; }
  }

  /** The caps are applied to files but `collect` selects by name, and two files
      may be reduced to one name. What is sent is within the caps exactly when
      no skipped file goes by a kept name. */
  lemma SentWithinCapsIff(found: seq<File>, n: nat)
    requires n <= |Sort(FileLe, found)| && Cut(Sort(FileLe, found), n)
    ensures var s := Sort(FileLe, found);
            Fits(Named(found, Names(s[..n]))) <==> forall i | n <= i < |s| :: s[i].name !in Names(s[..n])
  {
    hide Sort, Names, Named, Total;
    var s := Sort(FileLe, found);
    SortContents(FileLe, found);
    var kept, skipped := s[..n], s[n..];
    assert s == kept + skipped;
    if i :| n <= i < |s| && s[i].name in Names(kept) {
      assert skipped[i - n] == s[i];
      SharedNameOverflows(found, n, i - n);
    } else {
      hide Fits;
      forall i | 0 <= i < |skipped| ensures skipped[i].name !in Names(kept) { assert skipped[i] == s[n + i]; }
      JustKept(kept, skipped, found);
    }
  }

  /** Whatever cannot be read, what is sent is within the caps if no skipped file goes by
      a kept name; if everything can be read, then only if. */
  lemma WithinCapsIffNoSharedName(entries: seq<Entry>, n: nat)
    requires n <= |Sort(FileLe, Found(entries))| && Cut(Sort(FileLe, Found(entries)), n)
    ensures var s := Sort(FileLe, Found(entries));
            var shared := exists i :: n <= i < |s| && s[i].name in Names(s[..n]);
            var fits := Fits(Sent(Found(entries), Usable(entries), Names(s[..n])));
            && (!shared ==> fits)
            && ((forall e | e in Usable(entries) :: e.readable) ==> (fits <==> !shared))
  {
    hide Sort, Cut, Sent, Named, Names, Found, Usable, Total;
    SentWithinCapsIff(Found(entries), n);
    SentIsNoMore(Found(entries), Usable(entries), Names(Sort(FileLe, Found(entries))[..n]));
    if forall e | e in Usable(entries) :: e.readable {
      SentIsNamed(Found(entries), Usable(entries), Names(Sort(FileLe, Found(entries))[..n]));
    }
  }

  lemma SentBoth(a: File, b: File, one: Entry, two: Entry)
    requires a.name == b.name && one.readable && two.readable
    ensures Sent([a, b], [one, two], Names([a])) == [a, b]
  {
    var names := Names([a]);
    assert names[0] == a.name && a.name in names;
    assert [a, b][..1] == [a] && [one, two][..1] == [one] && [a][..0] == [] && [one][..0] == [];
    hide Names;
    assert Sent([], [], names) == [];
    assert Sent([a], [one], names) == [a];
  }

  lemma OnlyOneFits(a: File, b: File)
    requires a.size <= MAX_TOTAL && b.size <= MAX_TOTAL < a.size + b.size
    ensures Cut([a, b], 1) && !Fits([a, b])
  {
    assert [] + [a] == [a] && [a] + [b] == [a, b];
    assert [a, b][..1] == [a] && [a, b][..2] == [a, b];
  }

  /** `a b` of one byte and `a-b` of five megabytes are both sent as `a-b`. */
  lemma TwoFilesOfOneName()
    ensures var entries := [Entry("a b", 1, true), Entry("a-b", MAX_TOTAL, true)];
            var s := Sort(FileLe, Found(entries));
            && |s| == 2 && Cut(s, 1) && Sent(Found(entries), Usable(entries), Names(s[..1])) == s && !Fits(s)
  {
    var one, two := Entry("a b", 1, true), Entry("a-b", MAX_TOTAL, true);
    var small, large := File("a-b", 1), File("a-b", MAX_TOTAL);
    BothAreUsable();
    assert FileLe(small, large);
    TwoInOrder(small, large);
    SentBoth(small, large, one, two);
    OnlyOneFits(small, large);
    hide *;
    assert [small, large][..1] == [small];
  }

  lemma BothAreUsable()
    ensures ArtefactName("a b") == ArtefactName("a-b") == Some("a-b")
  {
    var raw, name := "a b", "a-b";
    assert seq(|raw|, i requires 0 <= i < |raw| => Reduced(raw[i])) == name;
    assert seq(|name|, i requires 0 <= i < |name| => Reduced(name[i])) == name;
    assert name[0] in name && Alphanumeric(name[0]);
  }

  lemma TwoInOrder(a: File, b: File)
    requires FileLe(a, b)
    ensures Sort(FileLe, [a, b]) == [a, b]
  {
    assert [a, b][1..] == [b] && [b][1..] == [];
    assert Sort(FileLe, [b]) == [b];
  }

  lemma SharedNameOverflows(found: seq<File>, n: nat, i: nat)
    requires n <= |Sort(FileLe, found)| && Cut(Sort(FileLe, found), n)
    requires var s := Sort(FileLe, found); i < |s[n..]| && s[n..][i].name in Names(s[..n])
    ensures !Fits(Named(found, Names(Sort(FileLe, found)[..n])))
  {
    var s := Sort(FileLe, found);
    SortContents(FileLe, found);
    var kept, skipped := s[..n], s[n..];
    assert s == kept + skipped;
    var out := Named(found, Names(kept));
    // One file more than `pick` found room for.
    OneMore(kept, skipped, found, i);
    forall f ensures multiset(out)[f] <= multiset(found)[f] { KeptAreSent(kept, skipped, found, f); }
    if Fits(out) { PickIsOptimal(found, n, out); }
  }

  lemma JustKept(kept: seq<File>, skipped: seq<File>, found: seq<File>)
    requires multiset(kept + skipped) == multiset(found)
    requires forall i | 0 <= i < |skipped| :: skipped[i].name !in Names(kept)
    ensures var out := Named(found, Names(kept)); |out| == |kept| && Total(out) == Total(kept)
  {
    var out := Named(found, Names(kept));
    forall f ensures multiset(kept)[f] == multiset(out)[f] { KeptAreSent(kept, skipped, found, f); }
    TotalContents(kept, out);
  }

  lemma OneMore(kept: seq<File>, skipped: seq<File>, found: seq<File>, i: nat)
    requires multiset(kept + skipped) == multiset(found)
    requires i < |skipped| && skipped[i].name in Names(kept)
    ensures |kept| < |Named(found, Names(kept))|
  {
    var f, out := skipped[i], Named(found, Names(kept));
    NamedContents(found, Names(kept), f);
    assert f in multiset(skipped);
    forall g ensures multiset(kept)[g] <= multiset(out)[g] { KeptAreSent(kept, skipped, found, g); }
    var more := multiset(out) - multiset(kept);
    assert f in more && multiset(out) == multiset(kept) + more;
    assert |multiset(out)| == |multiset(kept)| + |more|;
  }

  // ---- Sending a file again ------------------------------------------------

  function Lookup(seen: seq<(string, nat)>, name: string): Option<nat> {
    if seen == [] then None
    else if seen[0].0 == name then Some(seen[0].1)
    else Lookup(seen[1..], name)
  }

  lemma {:induction false} LookupFirst(seen: seq<(string, nat)>, name: string, i: nat)
    requires i <= |seen| && forall j | 0 <= j < i :: seen[j].0 != name
    ensures i < |seen| && seen[i].0 == name ==> Lookup(seen, name) == Some(seen[i].1)
    ensures i == |seen| ==> Lookup(seen, name) == None
  {
    if i > 0 { LookupFirst(seen[1..], name, i - 1); }
  }

  lemma {:induction false} LookupUpdate(seen: seq<(string, nat)>, name: string, i: nat, hash: nat, other: string)
    requires i < |seen| && seen[i].0 == name && forall j | 0 <= j < i :: seen[j].0 != name
    ensures Lookup(seen[i := (name, hash)], other) == if other == name then Some(hash) else Lookup(seen, other)
  {
    if i > 0 {
      assert seen[i := (name, hash)][1..] == seen[1..][i - 1 := (name, hash)];
      LookupUpdate(seen[1..], name, i - 1, hash, other);
    }
  }

  lemma {:induction false} LookupPush(seen: seq<(string, nat)>, name: string, hash: nat, other: string)
    requires Lookup(seen, name) == None
    ensures Lookup(seen + [(name, hash)], other) == if other == name then Some(hash) else Lookup(seen, other)
  {
    if seen != [] {
      assert (seen + [(name, hash)])[1..] == seen[1..] + [(name, hash)];
      LookupPush(seen[1..], name, hash, other);
    }
  }

  /** Differs if the name was last seen with another hash, or never; only that name is updated. */
  method Changed(was: seq<(string, nat)>, name: string, hash: nat) returns (differs: bool, seen: seq<(string, nat)>)
    ensures differs <==> Lookup(was, name) != Some(hash)
    ensures forall other :: Lookup(seen, other) == if other == name then Some(hash) else Lookup(was, other)
  {
    var i := 0;
    while i < |was| && was[i].0 != name
      invariant 0 <= i <= |was| && forall j | 0 <= j < i :: was[j].0 != name
    {
      i := i + 1;
    }
    LookupFirst(was, name, i);
    if i < |was| {
      differs := was[i].1 != hash;
      seen := was[i := (name, hash)];
      forall other ensures Lookup(seen, other) == if other == name then Some(hash) else Lookup(was, other) {
        LookupUpdate(was, name, i, hash, other);
      }
    } else {
      differs := true;
      seen := was + [(name, hash)];
      forall other ensures Lookup(seen, other) == if other == name then Some(hash) else Lookup(was, other) {
        LookupPush(was, name, hash, other);
      }
    }
  }
}
