/** The wildcard matcher that decides which files are protected
    (crates/orchestrator/src/policy.rs). */
module Policies {
  import opened Protocol

  /** Splits at the first `*`, as `split_once` does. */
  function SplitOnce(pattern: string): (r: Option<(string, string)>)
    ensures r.None? <==> '*' !in pattern
    ensures r.Some? ==> pattern == r.value.0 + "*" + r.value.1 && '*' !in r.value.0
  {
    if pattern == "" then None
    else if pattern[0] == '*' then Some(("", pattern[1..]))
    else
      var rest := SplitOnce(pattern[1..]);
      if rest.None? then None else Some(([pattern[0]] + rest.value.0, rest.value.1))
  }

  /** Cuts the pattern at its first star and tries every tail for the rest. */
  predicate GlobMatch(pattern: string, path: string)
    decreases |pattern|
  {
    match SplitOnce(pattern)
    case None => pattern == path
    case Some(split) =>
      var (head, rest) := split;
      head <= path &&
      var tail := path[|head|..];
      exists at | 0 <= at <= |tail| :: GlobMatch(rest, tail[at..])
  }

  // ---- The same thing a character at a time --------------------------------

  predicate Matches(pattern: string, path: string)
    decreases |pattern| + |path|
  {
    if pattern == "" then path == ""
    else if pattern[0] == '*' then
      Matches(pattern[1..], path) || (path != "" && Matches(pattern, path[1..]))
    else path != "" && path[0] == pattern[0] && Matches(pattern[1..], path[1..])
  }

  lemma {:induction false} StarTakesAnyRun(rest: string, path: string, at: nat)
    requires at <= |path| && Matches(rest, path[at..])
    ensures Matches("*" + rest, path)
  {
    var p := "*" + rest;
    assert p[0] == '*' && p[1..] == rest;
    if at == 0 {
      assert path[0..] == path;
    } else {
      assert path[1..][at - 1..] == path[at..];
      StarTakesAnyRun(rest, path[1..], at - 1);
    }
  }

  lemma {:induction false} StarTookSomeRun(rest: string, path: string) returns (at: nat)
    requires Matches("*" + rest, path)
    ensures at <= |path| && Matches(rest, path[at..])
    decreases |path|
  {
    var p := "*" + rest;
    assert p[0] == '*' && p[1..] == rest;
    if Matches(rest, path) {
      at := 0;
      assert path[0..] == path;
    } else {
      var more := StarTookSomeRun(rest, path[1..]);
      at := more + 1;
      assert path[1..][more..] == path[at..];
    }
  }

  lemma {:induction false} LiteralHead(head: string, rest: string, path: string)
    requires '*' !in head
    ensures Matches(head + rest, path) <==> head <= path && Matches(rest, path[|head|..])
  {
    if head == "" {
      assert head + rest == rest && path[0..] == path;
    } else {
      var p := head + rest;
      assert p[0] == head[0] && p[1..] == head[1..] + rest;
      assert head[0] in head;
      if path != "" && path[0] == head[0] {
        assert forall c | c in head[1..] :: c in head;
        LiteralHead(head[1..], rest, path[1..]);
        assert head <= path <==> head[1..] <= path[1..];
        if head <= path { assert path[1..][|head[1..]|..] == path[|head|..]; }
      }
    }
  }

  /** The recursive matcher agrees with the character-by-character reading. */
  lemma {:induction false} GlobIsMatches(pattern: string, path: string)
    ensures GlobMatch(pattern, path) <==> Matches(pattern, path)
    decreases |pattern|
  {
    match SplitOnce(pattern)
    case None =>
      LiteralHead(pattern, "", path);
      assert pattern + "" == pattern;
    case Some(split) =>
      var (head, rest) := split;
      assert pattern == head + ("*" + rest);
      LiteralHead(head, "*" + rest, path);
      if head <= path {
        var tail := path[|head|..];
        forall at | 0 <= at <= |tail| ensures GlobMatch(rest, tail[at..]) <==> Matches(rest, tail[at..]) {
          GlobIsMatches(rest, tail[at..]);
        }
        if Matches("*" + rest, tail) {
          var at := StarTookSomeRun(rest, tail);
          assert GlobMatch(rest, tail[at..]);
        }
        if at :| 0 <= at <= |tail| && GlobMatch(rest, tail[at..]) {
          StarTakesAnyRun(rest, tail, at);
        }
      }
  }

  // ---- Substitution ----------------------------------------------------------

  function Stars(pattern: string): nat {
    if pattern == "" then 0 else (if pattern[0] == '*' then 1 else 0) + Stars(pattern[1..])
  }

  /** The pattern with its stars replaced, in order, by `fills`. */
  function Filled(pattern: string, fills: seq<string>): string
    requires |fills| == Stars(pattern)
  {
    if pattern == "" then ""
    else if pattern[0] == '*' then fills[0] + Filled(pattern[1..], fills[1..])
    else [pattern[0]] + Filled(pattern[1..], fills)
  }

  lemma {:induction false} MatchesHasFills(pattern: string, path: string) returns (fills: seq<string>)
    requires Matches(pattern, path)
    ensures |fills| == Stars(pattern) && Filled(pattern, fills) == path
    decreases |pattern|
  {
    if pattern == "" {
      fills := [];
    } else if pattern[0] == '*' {
      assert pattern == "*" + pattern[1..];
      var at := StarTookSomeRun(pattern[1..], path);
      var rest := MatchesHasFills(pattern[1..], path[at..]);
      fills := [path[..at]] + rest;
      assert fills[1..] == rest && path == path[..at] + path[at..];
    } else {
      fills := MatchesHasFills(pattern[1..], path[1..]);
      assert path == [path[0]] + path[1..];
    }
  }

  lemma {:induction false} FilledMatches(pattern: string, fills: seq<string>)
    requires |fills| == Stars(pattern)
    ensures Matches(pattern, Filled(pattern, fills))
    decreases |pattern|
  {
    if pattern != "" {
      var path := Filled(pattern, fills);
      if pattern[0] == '*' {
        FilledMatches(pattern[1..], fills[1..]);
        assert pattern == "*" + pattern[1..];
        assert path[|fills[0]|..] == Filled(pattern[1..], fills[1..]);
        StarTakesAnyRun(pattern[1..], path, |fills[0]|);
      } else {
        FilledMatches(pattern[1..], fills);
        assert path[1..] == Filled(pattern[1..], fills);
      }
    }
  }

  ghost predicate FillsTo(pattern: string, fills: seq<string>, path: string) {
    |fills| == Stars(pattern) && Filled(pattern, fills) == path
  }

  /** A pattern matches exactly the paths its stars can be filled in to give. */
  lemma GlobMatchIsSubstitution(pattern: string, path: string)
    ensures GlobMatch(pattern, path) <==> exists fills :: FillsTo(pattern, fills, path)
  {
    GlobIsMatches(pattern, path);
    if Matches(pattern, path) {
      var fills := MatchesHasFills(pattern, path);
      assert FillsTo(pattern, fills, path);
    }
    if fills :| FillsTo(pattern, fills, path) {
      FilledMatches(pattern, fills);
    }
  }

  // ---- Two stars are one --------------------------------------------------------

  lemma DoubleStarSuffix(after: string, path: string)
    ensures Matches("**" + after, path) <==> Matches("*" + after, path)
  {
    var two, one := "**" + after, "*" + after;
    assert two == "*" + one && one[1..] == after && two[1..] == one;
    if Matches(one, path) {
      assert path[0..] == path;
      StarTakesAnyRun(one, path, 0);
    }
    if Matches(two, path) {
      var at := StarTookSomeRun(one, path);
      var more := StarTookSomeRun(after, path[at..]);
      assert path[at..][more..] == path[at + more..];
      StarTakesAnyRun(after, path, at + more);
    }
  }

  lemma {:induction false} SamePrefix(before: string, a: string, b: string, path: string)
    requires forall tail :: Matches(a, tail) <==> Matches(b, tail)
    ensures Matches(before + a, path) <==> Matches(before + b, path)
    decreases |before|, |path|
  {
    if before == "" {
      assert before + a == a && before + b == b;
    } else {
      var p, q := before + a, before + b;
      assert p[0] == q[0] == before[0] && p[1..] == before[1..] + a && q[1..] == before[1..] + b;
      if before[0] == '*' {
        SamePrefix(before[1..], a, b, path);
        if path != "" { SamePrefix(before, a, b, path[1..]); }
      } else if path != "" && path[0] == before[0] {
        SamePrefix(before[1..], a, b, path[1..]);
      }
    }
  }

  /** `**` means what `*` means, wherever it stands. */
  lemma DoubleStarIsStar(before: string, after: string, path: string)
    ensures GlobMatch(before + "**" + after, path) <==> GlobMatch(before + "*" + after, path)
  {
    var two, one := "**" + after, "*" + after;
    assert before + "**" + after == before + two && before + "*" + after == before + one;
    forall tail ensures Matches(two, tail) <==> Matches(one, tail) { DoubleStarSuffix(after, tail); }
    SamePrefix(before, two, one, path);
    GlobIsMatches(before + two, path);
    GlobIsMatches(before + one, path);
  }
}
