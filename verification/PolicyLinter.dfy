/** The lint pass, and why dead rules may be deleted. */
module PolicyLinter {
  import opened Basics
  import opened PolicyEngine

  datatype IssueCode = Shadowed | Contradictory | Redundant

  datatype Issue = Issue(code: IssueCode, ruleId: string, targetRuleId: string) {
    predicate IsError() { !code.Redundant? }
  }

  // ---------- Subsumption ----------

  predicate EndsWithStar(s: string) { s != "" && s[|s| - 1] == '*' }

  function WithoutLast(s: string): string
    requires s != ""
  {
    s[..|s| - 1]
  }

  predicate PatternSubsumes(a: string, b: string) {
    || a == "*"
    || a == b
    || (EndsWithStar(a) && WithoutLast(a) <= if EndsWithStar(b) then WithoutLast(b) else b)
  }

  predicate Covered(b: string, patterns: seq<string>) {
    exists i :: 0 <= i < |patterns| && PatternSubsumes(patterns[i], b)
  }

  predicate Unrestricted(list: Option<seq<string>>) { list.None? || list.value == [] }

  predicate ToolsSubsume(a: Option<seq<string>>, b: Option<seq<string>>) {
    if Unrestricted(a) || "*" in a.value then true
    else if Unrestricted(b) || "*" in b.value then false
    else forall j :: 0 <= j < |b.value| ==> Covered(b.value[j], a.value)
  }

  predicate ListSubsumes(a: Option<seq<string>>, b: Option<seq<string>>) {
    if Unrestricted(a) then true
    else if Unrestricted(b) then false
    else AllIn(b.value, a.value)
  }

  predicate ScopesSubsume(a: Option<seq<string>>, b: Option<seq<string>>) {
    Unrestricted(a) || (!Unrestricted(b) && AllIn(a.value, b.value))
  }

  predicate MatcherSubsumes(a: Matcher, b: Matcher) {
    && ToolsSubsume(a.tools, b.tools)
    && ListSubsumes(a.agents, b.agents)
    && ListSubsumes(a.riskLevels, b.riskLevels)
    && ListSubsumes(a.sideEffects, b.sideEffects)
    && ScopesSubsume(a.scopes, b.scopes)
  }

  // ---------- The lint pass ----------

  /** The higher-priority rule a leaves nothing for b. */
  predicate Kills(a: Rule, b: Rule) {
    && a.priority < b.priority
    && MatcherSubsumes(a.matcher, b.matcher)
    && (a.conditions == [] || a.conditions == b.conditions)
  }

  predicate Contradicts(a: Rule, b: Rule) {
    && a.priority == b.priority
    && MatcherSubsumes(a.matcher, b.matcher) && MatcherSubsumes(b.matcher, a.matcher)
    && a.conditions == b.conditions && a.effect != b.effect
  }

  /** What the pass reports for an ordered pair. */
  function PairIssue(a: Rule, b: Rule): seq<Issue> {
    if Contradicts(a, b) then [Issue(Contradictory, a.id, b.id)]
    else if Kills(a, b) then [Issue(if a.effect != b.effect then Shadowed else Redundant, b.id, a.id)]
    else []
  }

  /** Issues of rule i against rules i + 1 .. j - 1. */
  function RowIssues(sorted: seq<Rule>, i: nat, j: nat): seq<Issue>
    requires i < j <= |sorted|
  {
    if j == i + 1 then [] else RowIssues(sorted, i, j - 1) + PairIssue(sorted[i], sorted[j - 1])
  }

  /** Issues of rule i against all rules behind it. */
  function RowsOf(sorted: seq<Rule>): nat -> seq<Issue> {
    (i: nat) => if i < |sorted| then RowIssues(sorted, i, |sorted|) else []
  }

  function Issues(sorted: seq<Rule>, i: nat): seq<Issue> { Concatenation(i, RowsOf(sorted)) }

  method LintPolicyRules(rules: seq<Rule>) returns (valid: bool, issues: seq<Issue>)
    ensures issues == Issues(StableSort(rules, Priority), |rules|)
    ensures valid <==> forall issue :: issue in issues ==> issue.code == Redundant
  {
    var sorted := StableSort(rules, Priority);
    issues := [];
    var i := 0;
    while i < |sorted|
      invariant 0 <= i <= |sorted|
      invariant issues == Issues(sorted, i)
    {
      var row := LintAgainstLower(sorted, i);
      issues := issues + row;
      i := i + 1;
    }
    valid := forall k :: 0 <= k < |issues| ==> !issues[k].IsError();
  }

  method LintAgainstLower(sorted: seq<Rule>, i: nat) returns (row: seq<Issue>)
    requires i < |sorted|
    ensures row == RowIssues(sorted, i, |sorted|)
  {
    row := [];
    var a, j := sorted[i], i + 1;
    while j < |sorted|
      invariant i < j <= |sorted|
      invariant row == RowIssues(sorted, i, j)
    {
      var b := sorted[j];
      j := j + 1;
      if a.priority == b.priority {
        if MatcherSubsumes(a.matcher, b.matcher) && MatcherSubsumes(b.matcher, a.matcher)
           && a.conditions == b.conditions && a.effect != b.effect {
          row := row + [Issue(Contradictory, a.id, b.id)];
        }
        continue;
      }
      if a.priority < b.priority {
        if MatcherSubsumes(a.matcher, b.matcher) && (a.conditions == [] || a.conditions == b.conditions) {
          if a.effect != b.effect {
            row := row + [Issue(Shadowed, b.id, a.id)];
          } else {
            row := row + [Issue(Redundant, b.id, a.id)];
          }
        }
      }
    }
  }

  /** Rule i and a rule after it, before position j, have the issue. */
  ghost predicate RowHasIssue(sorted: seq<Rule>, i: nat, j: nat, issue: Issue)
    requires i < |sorted| && j <= |sorted|
  {
    exists k :: i < k < j && issue in PairIssue(sorted[i], sorted[k])
  }

  lemma {:induction false} RowIssuesFrom(sorted: seq<Rule>, i: nat, j: nat, issue: Issue)
    requires i < j <= |sorted|
    ensures issue in RowIssues(sorted, i, j) <==> RowHasIssue(sorted, i, j, issue)
  {
    if j > i + 1 {
      RowIssuesFrom(sorted, i, j - 1, issue);
      if issue in RowIssues(sorted, i, j) && issue !in RowIssues(sorted, i, j - 1) {
        assert issue in PairIssue(sorted[i], sorted[j - 1]);
      }
    }
  }

  /** The pass reports exactly the issues of all ordered pairs. */
  lemma IssuesFrom(sorted: seq<Rule>, issue: Issue)
    ensures issue in Issues(sorted, |sorted|)
       <==> exists i: nat :: i < |sorted| && RowHasIssue(sorted, i, |sorted|, issue)
  {
    InConcatenation(|sorted|, RowsOf(sorted), issue);
    forall i: nat | i < |sorted| ensures issue in RowsOf(sorted)(i) <==> RowHasIssue(sorted, i, |sorted|, issue) {
      RowIssuesFrom(sorted, i, |sorted|, issue);
    }
  }

  /** The linter lists an issue that calls the rule with this id unreachable. */
  ghost predicate Reported(rules: seq<Rule>, id: string) {
    exists issue :: issue in Issues(StableSort(rules, Priority), |rules|)
                    && !issue.code.Contradictory? && issue.ruleId == id
  }

  lemma IssueIsKill(a: Rule, b: Rule, issue: Issue)
    requires issue in PairIssue(a, b) && !issue.code.Contradictory?
    ensures Kills(a, b) && issue.ruleId == b.id && issue.targetRuleId == a.id
  {
  }

  /** The issue is about two rules of the list, one of which kills the other. */
  lemma IssueNamesKill(rules: seq<Rule>, issue: Issue) returns (a: Rule, b: Rule)
    requires issue in Issues(StableSort(rules, Priority), |rules|) && !issue.code.Contradictory?
    ensures a in rules && b in rules && a.id == issue.targetRuleId && b.id == issue.ruleId && Kills(a, b)
  {
    var sorted := StableSort(rules, Priority);
    SortedRules(rules);
    IssuesFrom(sorted, issue);
    var x: nat :| x < |sorted| && RowHasIssue(sorted, x, |sorted|, issue);
    var y :| x < y < |sorted| && issue in PairIssue(sorted[x], sorted[y]);
    a, b := sorted[x], sorted[y];
    IssueIsKill(a, b, issue);
    assert a in sorted && b in sorted;
  }

  lemma ReportedIsKilled(rules: seq<Rule>, id: string) returns (a: Rule, b: Rule)
    requires Reported(rules, id)
    ensures a in rules && b in rules && b.id == id && Kills(a, b)
  {
    var issue :| issue in Issues(StableSort(rules, Priority), |rules|)
                 && !issue.code.Contradictory? && issue.ruleId == id;
    a, b := IssueNamesKill(rules, issue);
  }

  lemma KilledIsReported(rules: seq<Rule>, a: Rule, b: Rule)
    requires a in rules && b in rules && Kills(a, b)
    ensures Reported(rules, b.id)
  {
    var sorted := StableSort(rules, Priority);
    SortedRules(rules);
    assert a in sorted && b in sorted;
    var x :| 0 <= x < |sorted| && sorted[x] == a;
    var y :| 0 <= y < |sorted| && sorted[y] == b;
    var issue := PairIssue(a, b)[0];
    KilledIsIssue(a, b);
    assert x < y;
    assert issue in PairIssue(sorted[x], sorted[y]);
    assert RowHasIssue(sorted, x, |sorted|, issue);
    IssuesFrom(sorted, issue);
  }

  lemma KilledIsIssue(a: Rule, b: Rule)
    requires Kills(a, b)
    ensures PairIssue(a, b) != [] && !PairIssue(a, b)[0].code.Contradictory? && PairIssue(a, b)[0].ruleId == b.id
  {
  }

  /** Two rules are reported contradictory exactly if they stand in this order at one priority, decide
      differently under the same conditions, and each subsumes the other. */
  lemma ContradictoryExactly(rules: seq<Rule>, id: string, targetId: string)
    ensures var sorted := StableSort(rules, Priority);
            Issue(Contradictory, id, targetId) in Issues(sorted, |rules|)
            <==> exists x, y :: 0 <= x < y < |sorted| && sorted[x].id == id && sorted[y].id == targetId
                                && sorted[x].priority == sorted[y].priority && sorted[x].effect != sorted[y].effect
                                && sorted[x].conditions == sorted[y].conditions
                                && MatcherSubsumes(sorted[x].matcher, sorted[y].matcher)
                                && MatcherSubsumes(sorted[y].matcher, sorted[x].matcher)
  {
    var sorted, issue := StableSort(rules, Priority), Issue(Contradictory, id, targetId);
    IssuesFrom(sorted, issue);
    if issue in Issues(sorted, |rules|) {
      var x: nat :| x < |sorted| && RowHasIssue(sorted, x, |sorted|, issue);
      var y :| x < y < |sorted| && issue in PairIssue(sorted[x], sorted[y]);
      PairContradicts(sorted[x], sorted[y], issue);
    }
    if x, y :| 0 <= x < y < |sorted| && sorted[x].id == id && sorted[y].id == targetId
               && Contradicts(sorted[x], sorted[y])
    {
      PairContradicts(sorted[x], sorted[y], issue);
      assert RowHasIssue(sorted, x, |sorted|, issue);
    }
  }

  lemma PairContradicts(a: Rule, b: Rule, issue: Issue)
    requires issue.code == Contradictory
    ensures issue in PairIssue(a, b) <==> issue.ruleId == a.id && issue.targetRuleId == b.id && Contradicts(a, b)
  {
  }

  // ---------- When one pattern covers another ----------

  function Breaks(s: string): nat {
    if s == "" then 0 else (if LineBreak(s[0]) then 1 else 0) + Breaks(s[1..])
  }

  lemma {:induction false} BreaksAdd(s: string, t: string)
    ensures Breaks(s + t) == Breaks(s) + Breaks(t)
  {
    if s == "" {
      assert s + t == t;
    } else {
      assert (s + t)[1..] == s[1..] + t;
      BreaksAdd(s[1..], t);
    }
  }

  lemma {:induction false} BreaksNone(s: string)
    ensures Breaks(s) == 0 <==> NoLineBreaks(s)
  {
    if s != "" {
      BreaksNone(s[1..]);
      assert s == [s[0]] + s[1..];
    }
  }

  /** A star stands for no line break, so a match has just the line breaks of its pattern. */
  lemma {:induction false} MatchKeepsBreaks(p: string, t: string)
    requires RegexMatch(p, t)
    ensures Breaks(p) == Breaks(t)
    decreases |p| + |t|
  {
    if p != "" {
      if p[0] == '*' && !RegexMatch(p[1..], t) { MatchKeepsBreaks(p, t[1..]); }
      else if p[0] == '*' { MatchKeepsBreaks(p[1..], t); }
      else { MatchKeepsBreaks(p[1..], t[1..]); }
    }
  }

  /** Read as text, a pattern matches itself. */
  lemma {:induction false} PrefixMatches(p: string, q: string, t: string)
    requires RegexMatch(q, t)
    ensures RegexMatch(p + q, p + t)
  {
    if p == "" {
      assert p + q == q && p + t == t;
    } else {
      PrefixMatches(p[1..], q, t);
      assert (p + q)[1..] == p[1..] + q && (p + t)[1..] == p[1..] + t;
      if p[0] == '*' { assert RegexMatch(p + q, (p + t)[1..]); }
    }
  }

  lemma GlobMatchesItself(p: string)
    ensures GlobMatch(p, p)
  {
    PrefixMatches(p, "", "");
    assert p + "" == p;
  }

  /** What matches a text matched by a pattern is matched by the pattern. */
  lemma {:induction false} MatchTransitive(a: string, b: string, t: string)
    requires RegexMatch(a, b) && RegexMatch(b, t)
    ensures RegexMatch(a, t)
    decreases |a| + |b| + |t|
  {
    if a != "" {
      if a[0] == '*' && RegexMatch(a[1..], b) {
        MatchTransitive(a[1..], b, t);
      } else if a[0] != '*' || b[0] != '*' {
        MatchTransitive(if a[0] == '*' then a else a[1..], b[1..], t[1..]);
      } else if RegexMatch(b[1..], t) {
        MatchTransitive(a, b[1..], t);
      } else {
        MatchTransitive(a, b, t[1..]);
      }
    }
  }

  lemma GlobTransitive(a: string, b: string, t: string)
    requires GlobMatch(a, b) && GlobMatch(b, t) && (b == "*" ==> a == "*")
    ensures GlobMatch(a, t)
  {
    if '*' in a && '*' in b && a != "*" { MatchTransitive(a, b, t); }
  }

  lemma GlobKeepsBreaks(p: string, t: string)
    requires GlobMatch(p, t) && p != "*"
    ensures Breaks(p) == Breaks(t)
  {
    if '*' in p { MatchKeepsBreaks(p, t); }
  }

  /** Every text that b matches, a matches. */
  ghost predicate PatternCovers(a: string, b: string) {
    forall t :: GlobMatch(b, t) ==> GlobMatch(a, t)
  }

  /** Of any two patterns, one covers the other exactly when it matches the other read as text;
      only the pattern "*" covers "*". */
  lemma PatternCoversExactly(a: string, b: string)
    ensures PatternCovers(a, b) <==> a == "*" || (b != "*" && GlobMatch(a, b))
  {
    if a != "*" {
      GlobMatchesItself(b);
      if b == "*" {
        var t := a + "\n";
        BreaksAdd(a, "\n");
        if GlobMatch(a, t) { GlobKeepsBreaks(a, t); }
        assert GlobMatch(b, t) && !GlobMatch(a, t);
      } else if GlobMatch(a, b) {
        forall t | GlobMatch(b, t) ensures GlobMatch(a, t) { GlobTransitive(a, b, t); }
      }
    }
  }

  lemma StarredPrefix(p: string, rest: string)
    ensures RegexMatch(p + "*", p + rest) <==> NoLineBreaks(rest)
  {
    if RegexMatch(p + "*", p + rest) {
      MatchKeepsBreaks(p + "*", p + rest);
      BreaksAdd(p, "*");
      BreaksAdd(p, rest);
      BreaksNone(rest);
    }
    if NoLineBreaks(rest) {
      StarMatchesAll(rest);
      PrefixMatches(p, "*", rest);
    }
  }

  /** When the linter says that a subsumes b, it does exactly if what a's star must cover of b
      holds no line break. */
  lemma PatternSubsumesExactly(a: string, b: string)
    requires PatternSubsumes(a, b)
    ensures PatternCovers(a, b) <==> a == "*" || a == b || NoLineBreaks(b[|a| - 1..])
  {
    PatternCoversExactly(a, b);
    if a == b {
      GlobMatchesItself(a);
    } else if a != "*" {
      var p := WithoutLast(a);
      assert a == p + "*" && b == p + b[|p|..];
      StarredPrefix(p, b[|p|..]);
    }
  }

  /** On a tool name without line breaks the linter is always right. */
  lemma PatternSubsumesSound(a: string, b: string, tool: string)
    requires PatternSubsumes(a, b) && NoLineBreaks(tool) && GlobMatch(b, tool)
    ensures GlobMatch(a, tool)
  {
    PatternSubsumesExactly(a, b);
    if a != "*" && a != b {
      GlobKeepsBreaks(b, tool);
      BreaksNone(tool);
      BreaksNone(b);
      assert NoLineBreaks(b[|a| - 1..]);
    }
  }

  // ---------- When one matcher covers another ----------

  /** Each pattern of b, read as a tool name, is matched by a's list. */
  predicate ToolsCover(a: Option<seq<string>>, b: Option<seq<string>>) {
    a.None? || "*" in a.value || (b.Some? && forall j :: 0 <= j < |b.value| ==> SomeGlob(a.value, b.value[j]))
  }

  /** The matcher matches no request at all. */
  predicate Void(m: Matcher) { m.tools == Some([]) || m.agents == Some([]) || m.riskLevels == Some([]) }

  /** The matcher matches no request that names a side effect. */
  predicate Harmless(m: Matcher) {
    m.sideEffects.Some? && forall i :: 0 <= i < |m.sideEffects.value| ==> m.sideEffects.value[i] == ""
  }

  /** No list of a is present but empty, which the engine lets match nothing and the linter reads
      as no restriction; or b has nothing to match there. */
  predicate ListsHold(a: Matcher, b: Matcher) {
    Void(b) || (!Void(a) && (a.sideEffects == Some([]) ==> Harmless(b)))
  }

  predicate ToolsHold(a: Matcher, b: Matcher) { Void(b) || ToolsCover(a.tools, b.tools) }

  /** Every request that b matches, a matches. */
  ghost predicate MatcherCovers(a: Matcher, b: Matcher) {
    forall r :: MatchesRule(b, r) ==> MatchesRule(a, r)
  }

  lemma ToolsCoverSound(a: Matcher, b: Matcher, tool: string)
    requires a.tools != Some([]) && ToolsSubsume(a.tools, b.tools)
    requires ToolsCover(a.tools, b.tools) || NoLineBreaks(tool)
    requires b.tools.Some? ==> SomeGlob(b.tools.value, tool)
    ensures a.tools.Some? ==> SomeGlob(a.tools.value, tool)
  {
    if a.tools.Some? {
      if "*" in a.tools.value {
        var i :| 0 <= i < |a.tools.value| && a.tools.value[i] == "*";
        assert GlobMatch(a.tools.value[i], tool);
      } else {
        var j :| 0 <= j < |b.tools.value| && GlobMatch(b.tools.value[j], tool);
        if ToolsCover(a.tools, b.tools) {
          var i :| 0 <= i < |a.tools.value| && GlobMatch(a.tools.value[i], b.tools.value[j]);
          GlobTransitive(a.tools.value[i], b.tools.value[j], tool);
        } else {
          assert Covered(b.tools.value[j], a.tools.value);
          var i :| 0 <= i < |a.tools.value| && PatternSubsumes(a.tools.value[i], b.tools.value[j]);
          PatternSubsumesSound(a.tools.value[i], b.tools.value[j], tool);
        }
      }
    }
  }

  /** When the linter says that a subsumes b, a matches all that b matches, as long as empty
      lists and line breaks do not come in between. */
  lemma MatcherSubsumesSound(a: Matcher, b: Matcher, r: Request)
    requires MatcherSubsumes(a, b) && ListsHold(a, b) && (ToolsHold(a, b) || NoLineBreaks(r.tool)) && MatchesRule(b, r)
    ensures MatchesRule(a, r)
  {
    ToolsCoverSound(a, b, r.tool);
  }

  /** A request that differs from what m asks for in tool and side effect at most. */
  function Tailored(m: Matcher, tool: string, sideEffect: Option<string>): Request
    requires !Void(m)
  {
    Request(tool, if m.agents.Some? then m.agents.value[0] else "",
            if m.riskLevels.Some? then m.riskLevels.value[0] else "",
            if m.scopes.Some? then m.scopes.value else [], None, None, sideEffect)
  }

  lemma TailoredMatches(m: Matcher, tool: string)
    requires !Void(m) && (m.tools.Some? ==> SomeGlob(m.tools.value, tool))
    ensures MatchesRule(m, Tailored(m, tool, None))
  {
  }

  /** A tool name that the matcher accepts. */
  function SomeTool(m: Matcher): string { if m.tools.Some? && m.tools.value != [] then m.tools.value[0] else "" }

  lemma SomeToolMatches(m: Matcher)
    requires !Void(m)
    ensures m.tools.Some? ==> SomeGlob(m.tools.value, SomeTool(m))
  {
    if m.tools.Some? { GlobMatchesItself(m.tools.value[0]); }
  }

  lemma EmptyListEscapes(a: Matcher, b: Matcher)
    requires !ListsHold(a, b)
    ensures !MatcherCovers(a, b)
  {
    SomeToolMatches(b);
    TailoredMatches(b, SomeTool(b));
    if !Void(a) {
      var effect := "write";
      if b.sideEffects.Some? {
        var i :| 0 <= i < |b.sideEffects.value| && b.sideEffects.value[i] != "";
        effect := b.sideEffects.value[i];
      }
      var r := Tailored(b, SomeTool(b), Some(effect));
      assert MatchesRule(b, r) && !MatchesRule(a, r);
    }
  }

  lemma UncoveredToolEscapes(a: Matcher, b: Matcher)
    requires MatcherSubsumes(a, b) && !Void(a) && !ToolsHold(a, b)
    ensures !MatcherCovers(a, b)
  {
    var j :| 0 <= j < |b.tools.value| && !SomeGlob(a.tools.value, b.tools.value[j]);
    GlobMatchesItself(b.tools.value[j]);
    TailoredMatches(b, b.tools.value[j]);
    assert !MatchesRule(a, Tailored(b, b.tools.value[j], None));
  }

  /** When the linter says that one matcher subsumes another, it does exactly if no list of it is
      empty where the other matches something, and it matches the other's tool patterns. */
  lemma MatcherSubsumesExactly(a: Matcher, b: Matcher)
    requires MatcherSubsumes(a, b)
    ensures MatcherCovers(a, b) <==> ListsHold(a, b) && ToolsHold(a, b)
  {
    if !ListsHold(a, b) {
      EmptyListEscapes(a, b);
    } else if !ToolsHold(a, b) {
      UncoveredToolEscapes(a, b);
    } else {
      forall r | MatchesRule(b, r) ensures MatchesRule(a, r) { MatcherSubsumesSound(a, b, r); }
    }
  }

  /** Where the linter says that a kills b, a does fire before b for this tool name: empty lists do
      not come in between, nor do line breaks. */
  predicate KillHolds(a: Rule, b: Rule, tool: string) {
    ListsHold(a.matcher, b.matcher) && (ToolsHold(a.matcher, b.matcher) || NoLineBreaks(tool))
  }

  // ---------- Deleting dead rules ----------

  /** Some rule of the list kills this one, and does so for this tool name. */
  ghost predicate Dead(rules: seq<Rule>, b: Rule, tool: string) {
    exists a :: a in rules && Kills(a, b) && KillHolds(a, b, tool)
  }

  lemma SkipHead(w: World, head: Rule, rest: seq<Rule>, r: Request)
    requires !Fires(w, head, r)
    ensures FirstMatch(w, [head] + rest, r) == FirstMatch(w, rest, r)
  {
    assert ([head] + rest)[1..] == rest;
  }

  lemma {:induction false} FirstMatchSurvives(w: World, sorted: seq<Rule>, r: Request, k: nat, keep: Rule -> bool)
    requires k < |sorted| && Fires(w, sorted[k], r) && NoneFires(w, sorted, k, r) && keep(sorted[k])
    ensures FirstMatch(w, Filter(sorted, keep), r) == DecisionOf(sorted[k])
  {
    var head, tail := sorted[..1], sorted[1..];
    assert sorted == head + tail;
    FilterConcat(head, tail, keep);
    assert Filter(head, keep) == if keep(sorted[0]) then [sorted[0]] else [] by {
      assert head[..0] == [] && Filter(head[..0], keep) == [];
    }
    if k > 0 {
      FirstMatchSurvives(w, tail, r, k - 1, keep);
      assert !Fires(w, sorted[0], r);
      if keep(sorted[0]) {
        SkipHead(w, sorted[0], Filter(tail, keep), r);
        assert Filter(sorted, keep) == [sorted[0]] + Filter(tail, keep);
      } else {
        assert Filter(sorted, keep) == Filter(tail, keep);
      }
    }
  }

  /** The first rule to fire is not dead. */
  lemma FirstIsAlive(w: World, rules: seq<Rule>, sorted: seq<Rule>, r: Request, k: nat)
    requires forall x :: x in sorted <==> x in rules
    requires forall i, j :: 0 <= i < j < |sorted| ==> sorted[i].priority <= sorted[j].priority
    requires k < |sorted| && Fires(w, sorted[k], r) && NoneFires(w, sorted, k, r)
    ensures !Dead(rules, sorted[k], r.tool)
  {
    if Dead(rules, sorted[k], r.tool) {
      var a :| a in rules && Kills(a, sorted[k]) && KillHolds(a, sorted[k], r.tool);
      MatcherSubsumesSound(a.matcher, sorted[k].matcher, r);
      assert false;
    }
  }

  lemma SilentStaySilent(w: World, sorted: seq<Rule>, keep: Rule -> bool, r: Request)
    requires NoneFires(w, sorted, |sorted|, r)
    ensures FirstMatch(w, Filter(sorted, keep), r) == FirstMatch(w, sorted, r)
  {
    var kept := Filter(sorted, keep);
    FirstMatchNone(w, sorted, r);
    forall i | 0 <= i < |kept| ensures !Fires(w, kept[i], r) { assert kept[i] in sorted; }
    FirstMatchNone(w, kept, r);
  }

  /** If the first rule to fire is kept, it still decides. */
  lemma WinnerKeptDecides(w: World, sorted: seq<Rule>, keep: Rule -> bool, r: Request, k: nat)
    requires k < |sorted| && Fires(w, sorted[k], r) && NoneFires(w, sorted, k, r) && keep(sorted[k])
    ensures FirstMatch(w, Filter(sorted, keep), r) == FirstMatch(w, sorted, r)
  {
    FirstMatchAt(w, sorted, r, k);
    FirstMatchSurvives(w, sorted, r, k, keep);
  }

  /** Deleting any set of dead rules changes no decision. */
  lemma DeletingDeadIsSafe(w: World, rules: seq<Rule>, keep: Rule -> bool, r: Request)
    requires forall b :: b in rules && !keep(b) ==> Dead(rules, b, r.tool)
    ensures EvaluatePolicies(w, Filter(rules, keep), r) == EvaluatePolicies(w, rules, r)
  {
    var sorted := StableSort(rules, Priority);
    FilterCommutesWithSort(rules, Priority, keep);
    if NoneFires(w, sorted, |sorted|, r) {
      SilentStaySilent(w, sorted, keep, r);
    } else {
      SortedRules(rules);
      var k := FirstFiring(w, sorted, r);
      FirstIsAlive(w, rules, sorted, r, k);
      assert sorted[k] in sorted;
      WinnerKeptDecides(w, sorted, keep, r, k);
    }
  }

  /** The report has an issue that calls the rule with this id unreachable below a rule whose kill
      holds for this tool name. */
  ghost predicate ReportedFor(rules: seq<Rule>, id: string, tool: string) {
    exists issue, a, b ::
      && issue in Issues(StableSort(rules, Priority), |rules|) && !issue.code.Contradictory?
      && a in rules && b in rules && a.id == issue.targetRuleId && b.id == issue.ruleId == id && KillHolds(a, b, tool)
  }

  ghost predicate DistinctIds(rules: seq<Rule>) {
    forall a, b :: a in rules && b in rules && a.id == b.id ==> a == b
  }

  /** Without empty lists and line breaks every report will do. */
  lemma PlainReportsHold(rules: seq<Rule>, id: string, tool: string)
    requires Reported(rules, id) && NoLineBreaks(tool)
    requires forall a :: a in rules ==> !Void(a.matcher) && a.matcher.sideEffects != Some([])
    ensures ReportedFor(rules, id, tool)
  {
    var issue :| issue in Issues(StableSort(rules, Priority), |rules|)
                 && !issue.code.Contradictory? && issue.ruleId == id;
    var a, b := IssueNamesKill(rules, issue);
    assert KillHolds(a, b, tool);
  }

  lemma ReportedIsDead(rules: seq<Rule>, b: Rule, tool: string)
    requires DistinctIds(rules) && b in rules && ReportedFor(rules, b.id, tool)
    ensures Dead(rules, b, tool)
  {
    var issue, a, b' :|
      && issue in Issues(StableSort(rules, Priority), |rules|) && !issue.code.Contradictory?
      && a in rules && b' in rules && a.id == issue.targetRuleId && b'.id == issue.ruleId == b.id
      && KillHolds(a, b', tool);
    var killer, killed := IssueNamesKill(rules, issue);
    assert killer == a && killed == b' == b;
  }

  /** With distinct ids, deleting any set of ids that a lint run reports as SHADOWED or REDUNDANT
      below a rule whose kill holds for the tool leaves the decision as it was, at every hour. */
  lemma DeletingReportedIsSafe(w: World, rules: seq<Rule>, ids: set<string>, r: Request)
    requires DistinctIds(rules) && forall id :: id in ids ==> ReportedFor(rules, id, r.tool)
    ensures EvaluatePolicies(w, Filter(rules, (b: Rule) => b.id !in ids), r) == EvaluatePolicies(w, rules, r)
  {
    forall b | b in rules && b.id in ids ensures Dead(rules, b, r.tool) { ReportedIsDead(rules, b, r.tool); }
    DeletingDeadIsSafe(w, rules, (b: Rule) => b.id !in ids, r);
  }

  lemma TwoRules(w: World, a: Rule, b: Rule, r: Request)
    requires a.priority < b.priority
    ensures EvaluatePolicies(w, [a, b], r)
         == if Fires(w, a, r) then DecisionOf(a) else if Fires(w, b, r) then DecisionOf(b) else DEFAULT_DENY
    ensures EvaluatePolicies(w, [a], r) == if Fires(w, a, r) then DecisionOf(a) else DEFAULT_DENY
  {
    StableSortOfSorted([a, b], Priority);
    StableSortOfSorted([a], Priority);
    assert FirstMatch(w, [], r) == DEFAULT_DENY;
    assert [b][1..] == [] && FirstMatch(w, [b], r) == if Fires(w, b, r) then DecisionOf(b) else DEFAULT_DENY;
    assert [a, b][1..] == [b] && [a][1..] == [];
  }

  lemma TwoEqualRules(w: World, a: Rule, b: Rule, r: Request)
    requires a.priority <= b.priority
    ensures EvaluatePolicies(w, [a, b], r)
         == if Fires(w, a, r) then DecisionOf(a) else if Fires(w, b, r) then DecisionOf(b) else DEFAULT_DENY
  {
    StableSortOfSorted([a, b], Priority);
    assert FirstMatch(w, [], r) == DEFAULT_DENY;
    assert [b][1..] == [] && FirstMatch(w, [b], r) == if Fires(w, b, r) then DecisionOf(b) else DEFAULT_DENY;
    assert [a, b][1..] == [b];
  }

  /** Of two contradictory rules whose matchers cover each other the one that happens to stand first
      decides: wherever either fires, swapping them turns the decision around. */
  lemma ContradictionTurns(w: World, a: Rule, b: Rule, r: Request)
    requires Contradicts(a, b) && MatcherCovers(a.matcher, b.matcher) && MatcherCovers(b.matcher, a.matcher)
    ensures Fires(w, a, r) <==> Fires(w, b, r)
    ensures Fires(w, a, r) ==> EvaluatePolicies(w, [a, b], r).effect != EvaluatePolicies(w, [b, a], r).effect
    ensures a.priority == b.priority
  {
    TwoEqualRules(w, a, b, r);
    TwoEqualRules(w, b, a, r);
  }

  /** Of two unconditional rules the one reported dead can be deleted exactly if the other's
      matcher covers its own. */
  lemma DeletingPairExactly(w: World, a: Rule, b: Rule)
    requires Kills(a, b) && b.conditions == [] && b != DEFAULT_DENY_RULE
    ensures (forall r :: EvaluatePolicies(w, [a], r) == EvaluatePolicies(w, [a, b], r))
       <==> ListsHold(a.matcher, b.matcher) && ToolsHold(a.matcher, b.matcher)
  {
    MatcherSubsumesExactly(a.matcher, b.matcher);
    forall r
      ensures EvaluatePolicies(w, [a], r) == EvaluatePolicies(w, [a, b], r)
         <==> (MatchesRule(b.matcher, r) ==> MatchesRule(a.matcher, r))
    {
      TwoRules(w, a, b, r);
    }
  }

  /** Deleting b from these rules changes no decision. */
  ghost predicate Deletable(w: World, rules: seq<Rule>, b: Rule) {
    forall r :: EvaluatePolicies(w, Filter(rules, (x: Rule) => x != b), r) == EvaluatePolicies(w, rules, r)
  }

  /** An unconditional rule reported dead below a can be deleted from every list that contains a
      exactly if a's matcher covers its own. */
  lemma DeletableExactly(w: World, a: Rule, b: Rule)
    requires Kills(a, b) && b.conditions == [] && b != DEFAULT_DENY_RULE
    ensures (forall rules :: a in rules ==> Deletable(w, rules, b))
       <==> ListsHold(a.matcher, b.matcher) && ToolsHold(a.matcher, b.matcher)
  {
    if forall rules :: a in rules ==> Deletable(w, rules, b) {
      assert Deletable(w, [a, b], b);
      OnlyKillerStays(a, b);
      DeletingPairExactly(w, a, b);
    }
    if ListsHold(a.matcher, b.matcher) && ToolsHold(a.matcher, b.matcher) {
      forall rules, r | a in rules
        ensures EvaluatePolicies(w, Filter(rules, (x: Rule) => x != b), r) == EvaluatePolicies(w, rules, r)
      {
        assert Dead(rules, b, r.tool);
        DeletingDeadIsSafe(w, rules, (x: Rule) => x != b, r);
      }
    }
  }

  lemma OnlyKillerStays(a: Rule, b: Rule)
    requires a != b
    ensures Filter([a, b], (x: Rule) => x != b) == [a]
  {
    var keep := (x: Rule) => x != b;
    FilterAppend([], a, keep);
    FilterAppend([a], b, keep);
    assert [] + [a] == [a] && [a] + [b] == [a, b];
  }

  /** The premise on lists is needed: an empty tool list is reported to shadow everything but
      matches nothing, so deleting the reported rule turns an allow into a deny. */
  lemma EmptyListBreaksDeletion(w: World)
    ensures var a := Rule("a", 0, Deny, ANY.(tools := Some([])), [], []);
            var b := Rule("b", 1, Allow, ANY, [], []);
            var r := Request("t", "agent", "low", [], None, None, None);
            Kills(a, b) && EvaluatePolicies(w, [a, b], r).effect == Allow && EvaluatePolicies(w, [a], r).effect == Deny
  {
    var a := Rule("a", 0, Deny, ANY.(tools := Some([])), [], []);
    var b := Rule("b", 1, Allow, ANY, [], []);
    var r := Request("t", "agent", "low", [], None, None, None);
    TwoRules(w, a, b, r);
    assert !Fires(w, a, r) && Fires(w, b, r);
  }

  function StarRule(): Rule { Rule("a", 0, Deny, ANY.(tools := Some(["ab*"])), [], []) }

  function BreakRule(): Rule { Rule("b", 1, Allow, ANY.(tools := Some(["ab\nc"])), [], []) }

  function BreakRequest(): Request { Request("ab\nc", "agent", "low", [], None, None, None) }

  lemma StarSaidToCover()
    ensures Kills(StarRule(), BreakRule())
  {
    assert PatternSubsumes(["ab*"][0], "ab\nc") && Covered("ab\nc", ["ab*"]);
  }

  lemma StarDoesNotMatch()
    ensures !RegexMatch("ab*", "ab\nc")
  {
    assert "ab*"[1..] == "b*" && "b*"[1..] == "*" && "*"[1..] == "";
    assert "ab\nc"[1..] == "b\nc" && "b\nc"[1..] == "\nc";
    assert !RegexMatch("*", "\nc") && !RegexMatch("b*", "b\nc");
  }

  lemma OnlyBreakRuleFires(w: World)
    ensures !Fires(w, StarRule(), BreakRequest()) && Fires(w, BreakRule(), BreakRequest())
  {
    StarDoesNotMatch();
    assert '*' !in "ab\nc" && GlobMatch(["ab\nc"][0], "ab\nc");
    assert SomeGlob(["ab\nc"], BreakRequest().tool);
  }

  /** So is the premise on tool names: "ab*" is reported to cover "ab\nc" but does not match it. */
  lemma LineBreakBreaksDeletion(w: World)
    ensures var a, b, r := StarRule(), BreakRule(), BreakRequest();
            Kills(a, b) && EvaluatePolicies(w, [a, b], r).effect == Allow && EvaluatePolicies(w, [a], r).effect == Deny
  {
    var a, b, r := StarRule(), BreakRule(), BreakRequest();
    StarSaidToCover();
    OnlyBreakRuleFires(w);
    TwoRules(w, a, b, r);
  }
}
