/** The prefix of a display id: short, made from a repository's name, and nobody else's; and the
    number after it (crates/orchestrator/src/project.rs). */
module Prefixes {

  const PREFIX_MAX: nat := 8

  predicate IsUpper(c: char) { 'A' <= c <= 'Z' }
  predicate IsLower(c: char) { 'a' <= c <= 'z' }
  predicate IsDigit(c: char) { '0' <= c <= '9' }

  predicate AllUpper(s: string) { forall c | c in s :: IsUpper(c) }
  predicate AllDigits(s: string) { forall c | c in s :: IsDigit(c) }

  // ---- Decimal numbers ---------------------------------------------------------

  function Digit(d: nat): (c: char)
    requires d < 10
    ensures IsDigit(c)
  {
    "0123456789"[d]
  }

  function Decimal(n: nat): (s: string)
    ensures s != "" && AllDigits(s)
  {
    if n < 10 then [Digit(n)] else Decimal(n / 10) + [Digit(n % 10)]
  }

  lemma {:induction false} DecimalInjective(a: nat, b: nat)
    requires Decimal(a) == Decimal(b)
    ensures a == b
    decreases a
  {
    var s, t := Decimal(a), Decimal(b);
    if a < 10 || b < 10 {
      assert a >= 10 ==> |s| > 1;
      assert b >= 10 ==> |t| > 1;
      assert s[0] == t[0];
    } else {
      assert s[..|s| - 1] == Decimal(a / 10) && t[..|t| - 1] == Decimal(b / 10);
      assert s[|s| - 1] == t[|t| - 1];
      DecimalInjective(a / 10, b / 10);
    }
  }

  function Pow10(k: nat): nat { if k == 0 then 1 else 10 * Pow10(k - 1) }

  lemma {:induction false} DecimalLength(n: nat, k: nat)
    requires k > 0 && n < Pow10(k)
    ensures |Decimal(n)| <= k
  {
    if n >= 10 {
      assert Pow10(1) == 10;
      assert n / 10 < Pow10(k - 1);
      DecimalLength(n / 10, k - 1);
    }
  }

  /** The number a text of digits reads as. */
  function Reading(s: string): nat
    requires AllDigits(s)
  {
    if s == "" then 0
    else
      assert s[|s| - 1] in s;
      10 * Reading(s[..|s| - 1]) + (s[|s| - 1] as int - '0' as int)
  }

  lemma DigitReads(d: nat)
    requires d < 10
    ensures Digit(d) as int == '0' as int + d
  {
    assert "0123456789"[d] as int == '0' as int + d;
  }

  /** A number is written as it is read, without leading zeros. */
  lemma {:induction false} DecimalReads(n: nat)
    ensures Reading(Decimal(n)) == n && (n > 0 ==> Decimal(n)[0] != '0')
  {
    if n < 10 {
      DigitReads(n);
      assert Decimal(n)[..0] == "";
    } else {
      DecimalReads(n / 10);
      DigitReads(n % 10);
      assert Decimal(n)[..|Decimal(n)| - 1] == Decimal(n / 10);
    }
  }

  // ---- Candidates ----------------------------------------------------------------

  /** The first eight ASCII letters of a name, in upper case. */
  function Letters(name: string, room: nat): (s: string)
    ensures AllUpper(s) && |s| <= room
  {
    if name == "" || room == 0 then ""
    else if IsUpper(name[0]) then [name[0]] + Letters(name[1..], room - 1)
    else if IsLower(name[0]) then [(name[0] as int - 'a' as int + 'A' as int) as char] + Letters(name[1..], room - 1)
    else Letters(name[1..], room)
  }

  function BaseOf(name: string): (s: string)
    ensures s != "" && AllUpper(s) && |s| <= PREFIX_MAX
  {
    var letters := Letters(name, PREFIX_MAX);
    if letters == "" then "P" else letters
  }

  /** A candidate with a number. Its letters are cut to leave room within eight characters. */
  function Numbered(base: string, n: nat): string {
    var suffix := Decimal(n);
    var room := if |suffix| <= PREFIX_MAX then PREFIX_MAX - |suffix| else 0;
    var keep := if room < |base| then room else |base|;
    base[..keep] + suffix
  }

  /** The letters of a name are those of its parts in order, as far as there is room, each in
      upper case; nothing else is a letter. */
  lemma {:induction false} LettersOfParts(a: string, b: string, room: nat)
    ensures Letters(a + b, room) == Letters(a, room) + Letters(b, room - |Letters(a, room)|)
  {
    if a == "" {
      assert a + b == b;
    } else {
      assert (a + b)[0] == a[0] && (a + b)[1..] == a[1..] + b;
      if room > 0 {
        LettersOfParts(a[1..], b, if IsUpper(a[0]) || IsLower(a[0]) then room - 1 else room);
      }
    }
  }

  lemma OneLetter(c: char, room: nat)
    requires room > 0
    ensures 'A' <= c <= 'Z' ==> Letters([c], room) == [c]
    ensures 'a' <= c <= 'z' ==> Letters([c], room) == [(c as int - 32) as char]
    ensures !('A' <= c <= 'Z') && !('a' <= c <= 'z') ==> Letters([c], room) == ""
  {
    assert [c][1..] == "";
  }

  /** A numbered candidate is as many of the letters as fit, and its number. */
  lemma NumberedFits(base: string, n: nat)
    ensures exists k :: 0 <= k <= |base| && Numbered(base, n) == base[..k] + Decimal(n)
                        && (k == |base| || k == 0 || k + |Decimal(n)| == PREFIX_MAX)
                        && (k < |base| ==> k + |Decimal(n)| >= PREFIX_MAX)
                        && (k > 0 ==> k + |Decimal(n)| <= PREFIX_MAX)
  {
    var k := |Numbered(base, n)| - |Decimal(n)|;
    assert Numbered(base, n) == base[..k] + Decimal(n);
  }

  lemma LettersThenDigits(a: string, b: string, s: string, t: string)
    requires AllUpper(a) && AllUpper(b) && AllDigits(s) && AllDigits(t) && s != "" && t != ""
    requires a + s == b + t
    ensures a == b && s == t
  {
    forall i | 0 <= i < |a| ensures IsUpper((a + s)[i]) { assert a[i] in a; }
    forall i | 0 <= i < |b| ensures IsUpper((b + t)[i]) { assert b[i] in b; }
    assert s[0] in s && t[0] in t;
    assert (a + s)[|a|] == s[0] && (b + t)[|b|] == t[0];
    assert |a| == |b|;
    assert a == (a + s)[..|a|] && b == (b + t)[..|b|];
    assert s == (a + s)[|a|..] && t == (b + t)[|b|..];
  }

  lemma NumberedInjective(base: string, m: nat, n: nat)
    requires AllUpper(base) && Numbered(base, m) == Numbered(base, n)
    ensures m == n
  {
    var s, t := Decimal(m), Decimal(n);
    var a := Numbered(base, m)[..|Numbered(base, m)| - |s|];
    var b := Numbered(base, n)[..|Numbered(base, n)| - |t|];
    assert AllUpper(a) && AllUpper(b);
    assert a + s == Numbered(base, m) && b + t == Numbered(base, n);
    LettersThenDigits(a, b, s, t);
    DecimalInjective(m, n);
  }

  /** `n - 2` distinct candidates fit in `taken` only if it is large enough. */
  lemma {:induction false} Pigeonhole(base: string, taken: set<string>, n: nat)
    requires AllUpper(base) && 2 <= n
    requires forall k | 2 <= k < n :: Numbered(base, k) in taken
    ensures n - 2 <= |taken|
  {
    if n > 2 {
      var last := Numbered(base, n - 1);
      forall k | 2 <= k < n - 1 ensures Numbered(base, k) in taken - {last} {
        if Numbered(base, k) == last { NumberedInjective(base, k, n - 1); }
      }
      Pigeonhole(base, taken - {last}, n - 1);
    }
  }

  /** The search `(2..)` for a free candidate: every number before `n` is held. */
  function FreeFrom(base: string, taken: set<string>, n: nat): (r: nat)
    requires AllUpper(base) && 2 <= n
    requires forall k | 2 <= k < n :: Numbered(base, k) in taken
    ensures n <= r <= |taken| + 2 && Numbered(base, r) !in taken
    ensures forall k | n <= k < r :: Numbered(base, k) in taken
    decreases |taken| + 2 - n
  {
    Pigeonhole(base, taken, n);
    if Numbered(base, n) !in taken then n
    else
      Pigeonhole(base, taken, n + 1);
      FreeFrom(base, taken, n + 1)
  }

  /** The shortest free prefix of `base` from `take` letters on, if any. */
  function FreeHead(base: string, taken: set<string>, take: nat): (r: string)
    requires 1 <= take <= |base| + 1
    ensures r != "" ==> r <= base && take <= |r| && r !in taken
    ensures r != "" ==> forall k | take <= k < |r| :: base[..k] in taken
    ensures r == "" ==> forall k | take <= k <= |base| :: base[..k] in taken
    decreases |base| + 1 - take
  {
    if take > |base| then ""
    else if base[..take] !in taken then base[..take]
    else FreeHead(base, taken, take + 1)
  }

  function DerivePrefix(name: string, taken: set<string>): string {
    var base := BaseOf(name);
    var head := FreeHead(base, taken, 1);
    if head != "" then head else Numbered(base, FreeFrom(base, taken, 2))
  }

  predicate NoDash(s: string) { '-' !in s }

  lemma NumberedShape(base: string, n: nat)
    requires AllUpper(base)
    ensures Numbered(base, n) != "" && NoDash(Numbered(base, n))
    ensures n < Pow10(PREFIX_MAX) ==> |Numbered(base, n)| <= PREFIX_MAX
  {
    if n < Pow10(PREFIX_MAX) { DecimalLength(n, PREFIX_MAX); }
    var s := Numbered(base, n);
    var suffix := Decimal(n);
    forall i | 0 <= i < |s| ensures s[i] != '-' {
      if i < |s| - |suffix| {
        assert s[i] in base;
      } else {
        assert s[i] == suffix[i - (|s| - |suffix|)];
        assert s[i] in suffix;
      }
    }
  }

  /** The search always lands, on a prefix nobody holds: a growing head of the
      name's letters, or a number no larger than the prefixes held plus two. It
      stays within eight characters while fewer than 10^8 - 2 are held. */
  lemma DerivedPrefixIsFree(name: string, taken: set<string>)
    ensures var prefix := DerivePrefix(name, taken);
            && prefix !in taken && prefix != "" && NoDash(prefix)
            && (|taken| + 2 < Pow10(8) ==> |prefix| <= 8)
    ensures var base, prefix := BaseOf(name), DerivePrefix(name, taken);
            ShortestFree(base, taken, prefix)
            || exists n :: FirstFree(base, taken, n) && prefix == Numbered(base, n)
  {
    var base := BaseOf(name);
    var head := FreeHead(base, taken, 1);
    if head != "" {
      forall i | 0 <= i < |head| ensures head[i] != '-' { assert base[i] in base; }
    } else {
      NumberedShape(base, FreeFrom(base, taken, 2));
      assert FirstFree(base, taken, FreeFrom(base, taken, 2));
    }
  }

  /** A head of `base`, and every shorter one is held. */
  ghost predicate ShortestFree(base: string, taken: set<string>, head: string) {
    head != "" && head <= base && head !in taken && forall k | 0 < k < |head| :: base[..k] in taken
  }

  /** Every head of `base` is held, and so is every candidate with a smaller number. */
  ghost predicate FirstFree(base: string, taken: set<string>, n: nat) {
    && 2 <= n <= |taken| + 2 && Numbered(base, n) !in taken
    && (forall k | 0 < k <= |base| :: base[..k] in taken)
    && (forall k | 2 <= k < n :: Numbered(base, k) in taken)
  }

  /** The base are the first eight letters of the name, or `P` if it has none. */
  lemma BaseIs(name: string)
    ensures BaseOf(name) == if HasLetter(name) then Letters(name, 8) else "P"
  {
    LettersThere(name, 8);
  }

  ghost predicate HasLetter(name: string) {
    exists i :: 0 <= i < |name| && ('A' <= name[i] <= 'Z' || 'a' <= name[i] <= 'z')
  }

  lemma {:induction false} LettersThere(name: string, room: nat)
    requires room > 0
    ensures Letters(name, room) != "" <==> HasLetter(name)
  {
    if name != "" {
      LettersThere(name[1..], room);
      assert forall i | 0 < i < |name| :: name[i] == name[1..][i - 1];
      assert forall i | 0 <= i < |name| - 1 :: name[1..][i] == name[i + 1];
    }
  }

  // ---- Display ids ---------------------------------------------------------------

  function Display(prefix: string, number: nat): string { prefix + "-" + Decimal(number) }

  lemma DisplayInjective(p: string, m: nat, q: string, n: nat)
    requires NoDash(p) && NoDash(q) && Display(p, m) == Display(q, n)
    ensures p == q && m == n
  {
    var a, b := Display(p, m), Display(q, n);
    forall i | 0 <= i < |p| ensures a[i] != '-' { assert p[i] in p; }
    forall i | 0 <= i < |q| ensures b[i] != '-' { assert q[i] in q; }
    assert a[|p|] == '-' && b[|q|] == '-';
    assert |p| == |q|;
    assert p == a[..|p|] && q == b[..|q|];
    assert Decimal(m) == a[|p| + 1..] && Decimal(n) == b[|q| + 1..];
    DecimalInjective(m, n);
  }

  // ---- Whose prefix depends on whose ---------------------------------------------------

  lemma {:induction false} SameHead(base: string, taken: set<string>, more: set<string>, take: nat)
    requires 1 <= take <= |base| + 1 && taken <= more && FreeHead(base, taken, take) !in more
    ensures FreeHead(base, more, take) == FreeHead(base, taken, take)
    decreases |base| + 1 - take
  {
    if take <= |base| && base[..take] in taken { SameHead(base, taken, more, take + 1); }
  }

  lemma {:induction false} NoHead(base: string, taken: set<string>, more: set<string>, take: nat)
    requires 1 <= take <= |base| + 1 && taken <= more && FreeHead(base, taken, take) == ""
    ensures FreeHead(base, more, take) == ""
    decreases |base| + 1 - take
  {
    if take <= |base| { NoHead(base, taken, more, take + 1); }
  }

  /** Further prefixes being held changes a project's own only if one of them is it. */
  lemma OthersDoNotMatter(name: string, taken: set<string>, more: set<string>)
    requires taken <= more && DerivePrefix(name, taken) !in more
    ensures DerivePrefix(name, more) == DerivePrefix(name, taken)
  {
    var base := BaseOf(name);
    if FreeHead(base, taken, 1) != "" {
      SameHead(base, taken, more, 1);
    } else {
      NoHead(base, taken, more, 1);
    }
  }

  /** Two projects get the same prefixes in either order exactly if they would not
      both take the same one. */
  lemma OrderMattersIffTheyClash(a: string, b: string, taken: set<string>)
    ensures var pa, pb := DerivePrefix(a, taken), DerivePrefix(b, taken);
            (DerivePrefix(b, taken + {pa}) == pb && DerivePrefix(a, taken + {pb}) == pa) <==> pa != pb
  {
    var pa, pb := DerivePrefix(a, taken), DerivePrefix(b, taken);
    DerivedPrefixIsFree(a, taken);
    DerivedPrefixIsFree(b, taken);
    DerivedPrefixIsFree(b, taken + {pa});
    if pa != pb {
      OthersDoNotMatter(a, taken, taken + {pb});
      OthersDoNotMatter(b, taken, taken + {pa});
    }
  }

  /** Which of two projects gets the short prefix depends on which comes first. */
  lemma PrefixesDependOnOrder()
    ensures var first := DerivePrefix("lgtm", {});
            first == "L" && DerivePrefix("LegalBase", {first}) == "LE"
    ensures var first := DerivePrefix("LegalBase", {});
            first == "L" && DerivePrefix("lgtm", {first}) == "LG"
  {
    assert Letters("lgtm", 8) == ['L'] + Letters("gtm", 7);
    assert Letters("gtm", 7) == ['G'] + Letters("tm", 6);
    assert Letters("LegalBase", 8) == ['L'] + Letters("egalBase", 7);
    assert Letters("egalBase", 7) == ['E'] + Letters("galBase", 6);
    assert BaseOf("lgtm")[..1] == "L" && BaseOf("lgtm")[..2] == "LG";
    assert BaseOf("LegalBase")[..1] == "L" && BaseOf("LegalBase")[..2] == "LE";
  }
}
