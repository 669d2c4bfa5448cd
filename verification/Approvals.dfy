/** What the repository's policy refuses to approve on its own
    (crates/orchestrator/src/policy.rs), and how it measures a diff. */
module Approvals {
  import opened Protocol
  import opened Policies

  datatype Finding = Finding(blocking: bool, message: string)

  /** The parts of a task's result the policy looks at. The diff is a list of lines. */
  datatype Report = Report(
    validation: seq<Check>,
    findings: seq<Finding>,
    diff: seq<string>,
    changedFiles: seq<string>,
    cost: real)

  datatype Rules = Rules(maxDiffLines: Option<nat>, protectedFiles: seq<string>, budget: Option<real>)

  datatype Refusal =
    | CheckFailed(name: string)
    | BlockingFinding(message: string)
    | DiffTooLong(lines: nat, limit: nat)
    | TouchesProtected(path: string)
    | OverBudget(cost: real, budget: real)

  // ---- The size of a diff -----------------------------------------------------------

  predicate ChangedLine(line: string, mark: string, header: string) { mark <= line && !(header <= line) }

  predicate Counts(line: string) { ChangedLine(line, "+", "+++") || ChangedLine(line, "-", "---") }

  /** What counts towards the limit of a policy. */
  function DiffLines(diff: seq<string>): nat {
    if diff == [] then 0
    else DiffLines(diff[..|diff| - 1]) + if Counts(diff[|diff| - 1]) then 1 else 0
  }

  /** A line of a unified diff, before it is written down. */
  datatype DiffLine =
    | FileHeader(from: bool, path: string)
    | Added(text: string)
    | Removed(text: string)
    | Other(text: string)

  predicate WellWritten(line: DiffLine) {
    line.Other? ==> line.text == "" || (line.text[0] != '+' && line.text[0] != '-')
  }

  function Written(line: DiffLine): string {
    match line
    case FileHeader(from, path) => (if from then "--- " else "+++ ") + path
    case Added(text) => "+" + text
    case Removed(text) => "-" + text
    case Other(text) => text
  }

  function WrittenAll(lines: seq<DiffLine>): (diff: seq<string>)
    ensures |diff| == |lines|
  {
    seq(|lines|, i requires 0 <= i < |lines| => Written(lines[i]))
  }

  function Changes(lines: seq<DiffLine>): nat {
    if lines == [] then 0
    else Changes(lines[..|lines| - 1]) + if lines[|lines| - 1].Added? || lines[|lines| - 1].Removed? then 1 else 0
  }

  /** A changed line that reads like a file header once it is written down. */
  predicate Disguised(line: DiffLine) {
    (line.Added? && "++" <= line.text) || (line.Removed? && "--" <= line.text)
  }

  function Disguises(lines: seq<DiffLine>): nat {
    if lines == [] then 0
    else Disguises(lines[..|lines| - 1]) + if Disguised(lines[|lines| - 1]) then 1 else 0
  }

  lemma WrittenCounts(line: DiffLine)
    requires WellWritten(line)
    ensures Counts(Written(line)) <==> (line.Added? || line.Removed?) && !Disguised(line)
  {
    var w := Written(line);
    match line
    case FileHeader(from, path) =>
      var mark := if from then "---" else "+++";
      assert w[..3] == mark && mark <= w;
      assert w[0] == mark[0] && ("+" <= w ==> w[0] == '+') && ("-" <= w ==> w[0] == '-');
    case Added(text) =>
      assert w[0] == '+' && w[1..] == text;
      assert "+++" <= w <==> "++" <= text;
    case Removed(text) =>
      assert w[0] == '-' && w[1..] == text;
      assert "---" <= w <==> "--" <= text;
    case Other(text) =>
  }

  /** Every changed line is counted but those disguised as headers. */
  lemma {:induction false} DisguisedLinesAreMissed(lines: seq<DiffLine>)
    requires forall i | 0 <= i < |lines| :: WellWritten(lines[i])
    ensures DiffLines(WrittenAll(lines)) + Disguises(lines) == Changes(lines)
  {
    if lines != [] {
      var front, last := lines[..|lines| - 1], lines[|lines| - 1];
      DisguisedLinesAreMissed(front);
      WrittenCounts(last);
      assert WrittenAll(lines)[..|lines| - 1] == WrittenAll(front);
      assert WrittenAll(lines)[|lines| - 1] == Written(last);
    }
  }

  lemma {:induction false} NoDisguises(lines: seq<DiffLine>)
    ensures Disguises(lines) == 0 <==> forall i | 0 <= i < |lines| :: !Disguised(lines[i])
  {
    if lines != [] {
      var front := lines[..|lines| - 1];
      NoDisguises(front);
      assert forall i | 0 <= i < |front| :: front[i] == lines[i];
    }
  }

  /** The count is the number of added and removed lines exactly if no such line's
      text starts like the rest of a header mark. */
  lemma CountsEveryChangeIff(lines: seq<DiffLine>)
    requires forall i | 0 <= i < |lines| :: WellWritten(lines[i])
    ensures DiffLines(WrittenAll(lines)) == Changes(lines) <==> forall i | 0 <= i < |lines| :: !Disguised(lines[i])
  {
    DisguisedLinesAreMissed(lines);
    NoDisguises(lines);
  }

  /** Such a line exists: adding `++i;` to a file changes no line as far as the limit goes. */
  lemma AnIncrementIsNotCounted()
    ensures DiffLines(WrittenAll([Added("++i;")])) == 0 && Changes([Added("++i;")]) == 1
  {
    DisguisedLinesAreMissed([Added("++i;")]);
    assert [Added("++i;")][..0] == [];
  }

  // ---- Refusals ------------------------------------------------------------------------

  predicate Protected(rules: Rules, path: string) {
    exists p | p in rules.protectedFiles :: GlobMatch(p, path)
  }

  /** One reason not to approve. */
  ghost predicate Refuses(report: Report, rules: Rules, why: Refusal) {
    match why
    case CheckFailed(name) => Check(name, false) in report.validation
    case BlockingFinding(message) => Finding(true, message) in report.findings
    case DiffTooLong(lines, limit) =>
      rules.maxDiffLines == Some(limit) && lines == DiffLines(report.diff) && lines > limit
    case TouchesProtected(path) => path in report.changedFiles && Protected(rules, path)
    case OverBudget(cost, budget) => rules.budget == Some(budget) && cost == report.cost && cost > budget
  }

  function FailedIn(checks: seq<Check>): seq<Refusal> {
    if checks == [] then []
    else
      var before, c := FailedIn(checks[..|checks| - 1]), checks[|checks| - 1];
      if c.ok then before else before + [CheckFailed(c.name)]
  }

  function BlockingIn(findings: seq<Finding>): seq<Refusal> {
    if findings == [] then []
    else
      var before, f := BlockingIn(findings[..|findings| - 1]), findings[|findings| - 1];
      if f.blocking then before + [BlockingFinding(f.message)] else before
  }

  function TouchedIn(files: seq<string>, rules: Rules): seq<Refusal> {
    if files == [] then []
    else
      var before, path := TouchedIn(files[..|files| - 1], rules), files[|files| - 1];
      if Protected(rules, path) then before + [TouchesProtected(path)] else before
  }

  /** The whole list: each kind in the order its causes are listed, with repetitions. */
  function RefusalsOf(report: Report, rules: Rules): seq<Refusal> {
    FailedIn(report.validation) + BlockingIn(report.findings)
    + (if rules.maxDiffLines.Some? && DiffLines(report.diff) > rules.maxDiffLines.value
       then [DiffTooLong(DiffLines(report.diff), rules.maxDiffLines.value)] else [])
    + TouchedIn(report.changedFiles, rules)
    + (if rules.budget.Some? && report.cost > rules.budget.value then [OverBudget(report.cost, rules.budget.value)]
      else [])
  }

  lemma {:induction false} FailedAre(checks: seq<Check>, why: Refusal)
    ensures why in FailedIn(checks) <==> why.CheckFailed? && Check(why.name, false) in checks
  {
    if checks != [] {
      FailedAre(checks[..|checks| - 1], why);
      assert checks == checks[..|checks| - 1] + [checks[|checks| - 1]];
    }
  }

  lemma {:induction false} BlockingAre(findings: seq<Finding>, why: Refusal)
    ensures why in BlockingIn(findings) <==> why.BlockingFinding? && Finding(true, why.message) in findings
  {
    if findings != [] {
      BlockingAre(findings[..|findings| - 1], why);
      assert findings == findings[..|findings| - 1] + [findings[|findings| - 1]];
    }
  }

  lemma {:induction false} TouchedAre(files: seq<string>, rules: Rules, why: Refusal)
    ensures why in TouchedIn(files, rules) <==> why.TouchesProtected? && why.path in files && Protected(rules, why.path)
  {
    hide Protected;
    if files != [] {
      TouchedAre(files[..|files| - 1], rules, why);
      assert files == files[..|files| - 1] + [files[|files| - 1]];
    }
  }

  /** The list holds exactly the reasons there are. */
  lemma RefusalsAreTheReasons(report: Report, rules: Rules)
    ensures forall why :: why in RefusalsOf(report, rules) <==> Refuses(report, rules, why)
  {
    hide FailedIn, BlockingIn, TouchedIn, DiffLines, Protected;
    forall why ensures why in RefusalsOf(report, rules) <==> Refuses(report, rules, why) {
      FailedAre(report.validation, why);
      BlockingAre(report.findings, why);
      TouchedAre(report.changedFiles, rules, why);
    }
  }

  lemma {:induction false} FailuresAddUp(a: seq<Check>, b: seq<Check>)
    ensures FailedIn(a + b) == FailedIn(a) + FailedIn(b)
  {
    if b == [] {
      assert a + b == a;
    } else {
      FailuresAddUp(a, b[..|b| - 1]);
      assert (a + b)[..|a + b| - 1] == a + b[..|b| - 1];
    }
  }

  lemma {:induction false} FindingsAddUp(a: seq<Finding>, b: seq<Finding>)
    ensures BlockingIn(a + b) == BlockingIn(a) + BlockingIn(b)
  {
    if b == [] {
      assert a + b == a;
    } else {
      FindingsAddUp(a, b[..|b| - 1]);
      assert (a + b)[..|a + b| - 1] == a + b[..|b| - 1];
    }
  }

  lemma {:induction false} TouchedAddUp(a: seq<string>, b: seq<string>, rules: Rules)
    ensures TouchedIn(a + b, rules) == TouchedIn(a, rules) + TouchedIn(b, rules)
  {
    hide Protected;
    if b == [] {
      assert a + b == a;
    } else {
      TouchedAddUp(a, b[..|b| - 1], rules);
      assert (a + b)[..|a + b| - 1] == a + b[..|b| - 1];
    }
  }

  method Refusals(report: Report, rules: Rules) returns (reasons: seq<Refusal>)
    ensures reasons == RefusalsOf(report, rules)
  {
    hide DiffLines, Protected;
    reasons := [];
    for i := 0 to |report.validation|
      invariant reasons == FailedIn(report.validation[..i])
    {
      assert report.validation[..i + 1][..i] == report.validation[..i];
      if !report.validation[i].ok { reasons := reasons + [CheckFailed(report.validation[i].name)]; }
    }
    assert report.validation[..|report.validation|] == report.validation;
    reasons := PushBlocking(reasons, report.findings);
    if rules.maxDiffLines.Some? {
      var lines := DiffLines(report.diff);
      if lines > rules.maxDiffLines.value {
        reasons := reasons + [DiffTooLong(lines, rules.maxDiffLines.value)];
      }
    }
    reasons := PushTouched(reasons, report.changedFiles, rules);
    if rules.budget.Some? && report.cost > rules.budget.value {
      reasons := reasons + [OverBudget(report.cost, rules.budget.value)];
    }
  }

  method PushBlocking(before: seq<Refusal>, findings: seq<Finding>) returns (reasons: seq<Refusal>)
    ensures reasons == before + BlockingIn(findings)
  {
    reasons := before;
    for i := 0 to |findings|
      invariant reasons == before + BlockingIn(findings[..i])
    {
      assert findings[..i + 1][..i] == findings[..i];
      if findings[i].blocking { reasons := reasons + [BlockingFinding(findings[i].message)]; }
    }
    assert findings[..|findings|] == findings;
  }

  method PushTouched(before: seq<Refusal>, files: seq<string>, rules: Rules) returns (reasons: seq<Refusal>)
    ensures reasons == before + TouchedIn(files, rules)
  {
    hide Protected;
    reasons := before;
    for i := 0 to |files|
      invariant reasons == before + TouchedIn(files[..i], rules)
    {
      assert files[..i + 1][..i] == files[..i];
      if Protected(rules, files[i]) { reasons := reasons + [TouchesProtected(files[i])]; }
    }
    assert files[..|files|] == files;
  }

  datatype Decision = Decision(allowed: bool, refusals: seq<Refusal>)

  /** Nothing the policy names stands in the way. A file is protected if the stars of
      some pattern can be filled in to give its path. */
  ghost predicate Acceptable(report: Report, rules: Rules) {
    && (forall i | 0 <= i < |report.validation| :: report.validation[i].ok)
    && (forall i | 0 <= i < |report.findings| :: !report.findings[i].blocking)
    && (rules.maxDiffLines.Some? ==> DiffLines(report.diff) <= rules.maxDiffLines.value)
    && (forall path, pattern, fills | path in report.changedFiles && pattern in rules.protectedFiles ::
        !FillsTo(pattern, fills, path))
    && (rules.budget.Some? ==> report.cost <= rules.budget.value)
  }

  method Approve(report: Report, rules: Rules) returns (d: Decision)
    ensures d.allowed <==> Acceptable(report, rules)
    ensures d.refusals == RefusalsOf(report, rules)
  {
    hide RefusalsOf, Refuses, Acceptable;
    var reasons := Refusals(report, rules);
    RefusalsAreTheReasons(report, rules);
    AcceptableIffNoRefusal(report, rules);
    if |reasons| > 0 { assert reasons[0] in reasons; }
    d := Decision(|reasons| == 0, reasons);
  }

  lemma ProtectedIs(rules: Rules, path: string)
    ensures Protected(rules, path) <==>
              exists pattern, fills :: pattern in rules.protectedFiles && FillsTo(pattern, fills, path)
  {
    forall pattern | pattern in rules.protectedFiles
      ensures GlobMatch(pattern, path) <==> exists fills :: FillsTo(pattern, fills, path)
    {
      GlobMatchIsSubstitution(pattern, path);
    }
  }

  lemma AcceptableIffNoRefusal(report: Report, rules: Rules)
    ensures Acceptable(report, rules) <==> forall why :: !Refuses(report, rules, why)
  {
    hide DiffLines, Protected, GlobMatch, FillsTo;
    forall path
      ensures Protected(rules, path) <==>
                exists pattern, fills :: pattern in rules.protectedFiles && FillsTo(pattern, fills, path)
    {
      ProtectedIs(rules, path);
    }
    if forall why :: !Refuses(report, rules, why) {
      forall i | 0 <= i < |report.validation| ensures report.validation[i].ok {
        var c := report.validation[i];
        assert c == Check(c.name, c.ok) && !Refuses(report, rules, CheckFailed(c.name));
      }
      forall i | 0 <= i < |report.findings| ensures !report.findings[i].blocking {
        var f := report.findings[i];
        assert f == Finding(f.blocking, f.message) && !Refuses(report, rules, BlockingFinding(f.message));
      }
      if rules.maxDiffLines.Some? {
        assert !Refuses(report, rules, DiffTooLong(DiffLines(report.diff), rules.maxDiffLines.value));
      }
      if rules.budget.Some? { assert !Refuses(report, rules, OverBudget(report.cost, rules.budget.value)); }
      forall path | path in report.changedFiles ensures !Protected(rules, path) {
        assert !Refuses(report, rules, TouchesProtected(path));
      }
      assert Acceptable(report, rules);
    }
  }
}
