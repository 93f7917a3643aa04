/** What the linter's subsumption misses: nothing, for plain matchers. */
module LinterComplete {
  import opened Basics
  import opened PolicyEngine
  import opened PolicyLinter

  /** A literal, or a literal followed by one star, without line breaks. */
  predicate PlainPattern(p: string) {
    NoLineBreaks(p) && ('*' !in p || (p[|p| - 1] == '*' && '*' !in p[..|p| - 1]))
  }

  lemma {:induction false} PrefixOnly(p: string, t: string)
    requires '*' !in p && RegexMatch(p + "*", t)
    ensures p <= t
  {
    if p != "" {
      assert (p + "*")[1..] == p[1..] + "*";
      PrefixOnly(p[1..], t[1..]);
      assert p == [p[0]] + p[1..] && t == [t[0]] + t[1..];
    }
  }

  /** On plain patterns the linter's test says exactly when one covers the other. */
  lemma PatternTestExactly(a: string, b: string)
    requires PlainPattern(a) && PlainPattern(b)
    ensures PatternSubsumes(a, b) <==> PatternCovers(a, b)
  {
    PatternCoversExactly(a, b);
    if PatternSubsumes(a, b) {
      PatternSubsumesExactly(a, b);
      if a != "*" && a != b {
        var rest := b[|a| - 1..];
        forall i | 0 <= i < |rest| ensures !LineBreak(rest[i]) { assert rest[i] == b[|a| - 1 + i]; }
      }
    }
    if PatternCovers(a, b) && a != "*" && '*' in a {
      var p := WithoutLast(a);
      assert a == p + "*";
      PrefixOnly(p, b);
      assert '*' !in p;
    }
  }

  // ---------- Texts that a list does not match ----------

  function Breaking(n: nat): string { if n == 0 then "" else Breaking(n - 1) + "\n" }

  lemma {:induction false} BreakingHas(n: nat)
    ensures Breaks(Breaking(n)) == n
  {
    if n > 0 {
      BreakingHas(n - 1);
      BreaksAdd(Breaking(n - 1), "\n");
    }
  }

  /** More line breaks than any pattern of the list has. */
  function TooMany(patterns: seq<string>): (n: nat)
    ensures forall i :: 0 <= i < |patterns| ==> Breaks(patterns[i]) < n
  {
    if patterns == [] then 1
    else
      var n, k := TooMany(patterns[..|patterns| - 1]), Breaks(patterns[|patterns| - 1]);
      assert forall i :: 0 <= i < |patterns| - 1 ==> patterns[..|patterns| - 1][i] == patterns[i];
      if k < n then n else k + 1
  }

  lemma SomethingUnmatched(patterns: seq<string>)
    requires "*" !in patterns
    ensures !SomeGlob(patterns, Breaking(TooMany(patterns)))
  {
    var t := Breaking(TooMany(patterns));
    BreakingHas(TooMany(patterns));
    forall i | 0 <= i < |patterns| ensures !GlobMatch(patterns[i], t) {
      assert patterns[i] in patterns;
      if GlobMatch(patterns[i], t) { GlobKeepsBreaks(patterns[i], t); }
    }
  }

  /** A name that is not on the list. */
  function Stranger(list: seq<string>): (s: string)
    ensures forall i :: 0 <= i < |list| ==> |list[i]| < |s|
  {
    if list == [] then "x"
    else
      var s, last := Stranger(list[..|list| - 1]), list[|list| - 1];
      assert forall i :: 0 <= i < |list| - 1 ==> list[..|list| - 1][i] == list[i];
      if |last| < |s| then s else last + "x"
  }

  lemma StrangerIsNew(list: seq<string>)
    ensures Stranger(list) !in list
  {
  }

  // ---------- Matchers ----------

  predicate PlainMatcher(m: Matcher) {
    && !Void(m) && m.sideEffects != Some([])
    && (m.tools.Some? ==> forall i :: 0 <= i < |m.tools.value| ==> PlainPattern(m.tools.value[i]))
    && (m.sideEffects.Some? ==> "" !in m.sideEffects.value)
  }

  /** A request that b accepts and that differs in one respect at will. */
  lemma CoveredTools(a: Matcher, b: Matcher, tool: string)
    requires MatcherCovers(a, b) && !Void(b) && (b.tools.Some? ==> SomeGlob(b.tools.value, tool))
    ensures a.tools.Some? ==> SomeGlob(a.tools.value, tool)
  {
    TailoredMatches(b, tool);
    assert MatchesRule(a, Tailored(b, tool, None));
  }

  lemma ToolsComplete(a: Matcher, b: Matcher)
    requires PlainMatcher(a) && PlainMatcher(b) && MatcherCovers(a, b)
    ensures ToolsSubsume(a.tools, b.tools)
  {
    if a.tools.Some? && "*" !in a.tools.value {
      var t := Breaking(TooMany(a.tools.value));
      SomethingUnmatched(a.tools.value);
      if b.tools.None? || "*" in b.tools.value {
        if b.tools.Some? {
          var i :| 0 <= i < |b.tools.value| && b.tools.value[i] == "*";
          assert GlobMatch(b.tools.value[i], t);
        }
        CoveredTools(a, b, t);
      } else {
        forall j | 0 <= j < |b.tools.value| ensures Covered(b.tools.value[j], a.tools.value) {
          PatternCovered(a, b, j);
        }
      }
    }
  }

  lemma PatternCovered(a: Matcher, b: Matcher, j: nat)
    requires PlainMatcher(a) && PlainMatcher(b) && MatcherCovers(a, b)
    requires a.tools.Some? && "*" !in a.tools.value && b.tools.Some? && "*" !in b.tools.value && j < |b.tools.value|
    ensures Covered(b.tools.value[j], a.tools.value)
  {
    var pattern := b.tools.value[j];
    GlobMatchesItself(pattern);
    assert pattern in b.tools.value;
    CoveredTools(a, b, pattern);
    var i :| 0 <= i < |a.tools.value| && GlobMatch(a.tools.value[i], pattern);
    PatternCoversExactly(a.tools.value[i], pattern);
    PatternTestExactly(a.tools.value[i], pattern);
  }

  lemma CoveredRequest(a: Matcher, b: Matcher, r: Request)
    requires MatcherCovers(a, b) && MatchesRule(b, r)
    ensures MatchesRule(a, r)
  {
  }

  /** b accepts this request with its tool. */
  lemma Basic(b: Matcher) returns (r: Request)
    requires !Void(b)
    ensures MatchesRule(b, r) && r == Tailored(b, SomeTool(b), None)
  {
    SomeToolMatches(b);
    TailoredMatches(b, SomeTool(b));
    r := Tailored(b, SomeTool(b), None);
  }

  lemma AgentsComplete(a: Matcher, b: Matcher)
    requires PlainMatcher(a) && PlainMatcher(b) && MatcherCovers(a, b)
    ensures ListSubsumes(a.agents, b.agents)
  {
    if a.agents.Some? {
      var r := Basic(b);
      if b.agents.None? {
        StrangerIsNew(a.agents.value);
        CoveredRequest(a, b, r.(agentId := Stranger(a.agents.value)));
      } else {
        forall i | 0 <= i < |b.agents.value| ensures b.agents.value[i] in a.agents.value {
          CoveredRequest(a, b, r.(agentId := b.agents.value[i]));
        }
      }
    }
  }

  lemma RisksComplete(a: Matcher, b: Matcher)
    requires PlainMatcher(a) && PlainMatcher(b) && MatcherCovers(a, b)
    ensures ListSubsumes(a.riskLevels, b.riskLevels)
  {
    if a.riskLevels.Some? {
      var r := Basic(b);
      if b.riskLevels.None? {
        StrangerIsNew(a.riskLevels.value);
        CoveredRequest(a, b, r.(riskLevel := Stranger(a.riskLevels.value)));
      } else {
        forall i | 0 <= i < |b.riskLevels.value| ensures b.riskLevels.value[i] in a.riskLevels.value {
          CoveredRequest(a, b, r.(riskLevel := b.riskLevels.value[i]));
        }
      }
    }
  }

  lemma EffectsComplete(a: Matcher, b: Matcher)
    requires PlainMatcher(a) && PlainMatcher(b) && MatcherCovers(a, b)
    ensures ListSubsumes(a.sideEffects, b.sideEffects)
  {
    if a.sideEffects.Some? {
      var r := Basic(b);
      if b.sideEffects.None? {
        StrangerIsNew(a.sideEffects.value);
        CoveredRequest(a, b, r.(sideEffect := Some(Stranger(a.sideEffects.value))));
      } else {
        forall i | 0 <= i < |b.sideEffects.value| ensures b.sideEffects.value[i] in a.sideEffects.value {
          CoveredRequest(a, b, r.(sideEffect := Some(b.sideEffects.value[i])));
        }
      }
    }
  }

  lemma ScopesComplete(a: Matcher, b: Matcher)
    requires PlainMatcher(a) && PlainMatcher(b) && MatcherCovers(a, b)
    ensures ScopesSubsume(a.scopes, b.scopes)
  {
    if a.scopes.Some? && a.scopes.value != [] {
      var r := Basic(b);
      CoveredRequest(a, b, r);
      assert a.scopes.value[0] in r.scopes;
    }
  }

  /** For matchers with plain patterns and no empty list or side effect the linter's test is exact: one
      subsumes the other exactly if it matches every request that the other matches. */
  lemma MatcherTestExactly(a: Matcher, b: Matcher)
    requires PlainMatcher(a) && PlainMatcher(b)
    ensures MatcherSubsumes(a, b) <==> MatcherCovers(a, b)
  {
    if MatcherCovers(a, b) {
      ToolsComplete(a, b);
      AgentsComplete(a, b);
      RisksComplete(a, b);
      EffectsComplete(a, b);
      ScopesComplete(a, b);
    }
    if MatcherSubsumes(a, b) {
      MatcherSubsumesExactly(a, b);
      PlainToolsHold(a, b);
    }
  }

  lemma PlainToolsHold(a: Matcher, b: Matcher)
    requires PlainMatcher(a) && PlainMatcher(b) && MatcherSubsumes(a, b)
    ensures ToolsHold(a, b)
  {
    if a.tools.Some? && "*" !in a.tools.value {
      forall j | 0 <= j < |b.tools.value| ensures SomeGlob(a.tools.value, b.tools.value[j]) {
        var pattern := b.tools.value[j];
        assert Covered(pattern, a.tools.value);
        var i :| 0 <= i < |a.tools.value| && PatternSubsumes(a.tools.value[i], pattern);
        PatternTestExactly(a.tools.value[i], pattern);
        PatternCoversExactly(a.tools.value[i], pattern);
        assert a.tools.value[i] in a.tools.value && a.tools.value[i] != "*";
      }
    }
  }

  /** So for such rules a report SHADOWED or REDUNDANT is made exactly where a rule of higher precedence
      with no condition or the same ones matches every request that the lower one matches. */
  lemma KillsExactly(a: Rule, b: Rule)
    requires PlainMatcher(a.matcher) && PlainMatcher(b.matcher)
    ensures Kills(a, b) <==> a.priority < b.priority && (a.conditions == [] || a.conditions == b.conditions)
                             && forall r :: MatchesRule(b.matcher, r) ==> MatchesRule(a.matcher, r)
  {
    MatcherTestExactly(a.matcher, b.matcher);
  }

  /** The report: dead below another rule is SHADOWED if the effects differ and REDUNDANT otherwise,
      names the dead rule first, and only redundancy leaves the rules valid. */
  lemma ReportSays(a: Rule, b: Rule)
    requires Kills(a, b)
    ensures PairIssue(a, b) == [Issue(if a.effect == b.effect then Redundant else Shadowed, b.id, a.id)]
    ensures PairIssue(a, b)[0].IsError() <==> a.effect != b.effect
    ensures Issue(Contradictory, a.id, b.id).IsError()
  {
  }
}
