/** What the finite check says about all requests. */
module SmallModel {
  import opened Basics
  import opened PolicyEngine
  import opened PolicyVerifier

  // ---------- The fragment ----------

  predicate PlainCondition(c: Condition) { c.Environment? || c.ApprovalExists? || c.Custom? || c.Unknown? }

  ghost predicate PlainRule(rule: Rule) {
    && (rule.matcher.tools.Some? ==> forall p :: p in rule.matcher.tools.value ==> p == "*" || '*' !in p)
    && (forall c :: c in rule.conditions ==> PlainCondition(c))
    && !NamesAgent(rule, DEFAULT_AGENT)
    && !NamesEnvironment(rule, DEVELOPMENT)
  }

  ghost predicate Mentions(rule: Rule, tool: string) {
    rule.matcher.tools.Some? && tool in rule.matcher.tools.value
  }

  /** Literal or "*" tools, no clock or expression conditions, and one default tool, the default
      agent and the development environment left unnamed. */
  ghost predicate InWideFragment(rules: seq<Rule>, spare: string) {
    && spare in DEFAULT_TOOLS
    && forall rule :: rule in rules ==> PlainRule(rule) && !Mentions(rule, spare)
  }

  ghost predicate RequiresScope(rule: Rule, scope: string) {
    rule.matcher.scopes.Some? && scope in rule.matcher.scopes.value
  }

  /** No rule requires a scope or has an environment condition without a name. */
  ghost predicate WithinReach(rules: seq<Rule>) {
    forall rule :: rule in rules ==>
      (forall scope :: !RequiresScope(rule, scope)) && Environment(Missing) !in rule.conditions
  }

  ghost predicate InFragment(rules: seq<Rule>, spare: string) { InWideFragment(rules, spare) && WithinReach(rules) }

  /** The four risk levels and the three side effects; tool, agent, scopes, environment and token
      are arbitrary. */
  ghost predicate Known(r: Request) {
    r.riskLevel in RISK_LEVELS && r.sideEffect.Some? && r.sideEffect.value in SIDE_EFFECTS
  }

  /** Such a request with a token that is absent or not empty. */
  ghost predicate Covered(r: Request) {
    Known(r) && r.approvalToken != Some("")
  }

  // ---------- A wider space ----------

  ghost predicate InScopes(rules: seq<Rule>, scope: string) {
    exists rule :: rule in rules && RequiresScope(rule, scope)
  }

  /** The finite space that the checker would have to explore: the environment may also be absent,
      and the scopes are any of those that some rule requires, each at most once. */
  ghost predicate InWideSpace(rules: seq<Rule>, s: Request) {
    && (s.environment.None? || InEnvironments(rules, s.environment.value))
    && NoDuplicates(s.scopes) && (forall scope :: scope in s.scopes ==> InScopes(rules, scope))
    && InSpace(rules, s.(scopes := [], environment := Some(DEVELOPMENT)))
  }

  ghost predicate InSpaceOf(wide: bool, rules: seq<Rule>, s: Request) {
    if wide then InWideSpace(rules, s) else InSpace(rules, s)
  }

  ghost predicate InFragmentOf(wide: bool, rules: seq<Rule>, spare: string) {
    InWideFragment(rules, spare) && (wide || WithinReach(rules))
  }

  lemma SpaceIsInWide(rules: seq<Rule>, s: Request)
    requires InSpace(rules, s)
    ensures InWideSpace(rules, s)
  {
  }

  // ---------- The representative of a request ----------

  ghost function ScopesSeen(rules: seq<Rule>, scopes: seq<string>): (seen: seq<string>)
    ensures NoDuplicates(seen) && forall scope :: scope in seen <==> scope in scopes && InScopes(rules, scope)
  {
    WithoutRepeats(Filter(scopes, (scope: string) => InScopes(rules, scope)))
  }

  ghost function EnvironmentSeen(wide: bool, rules: seq<Rule>, environment: Option<string>): Option<string> {
    if environment.Some? && InEnvironments(rules, environment.value) then environment
    else if wide && environment.None? then None else Some(DEVELOPMENT)
  }

  ghost function Representative(wide: bool, rules: seq<Rule>, spare: string, r: Request): Request {
    Request(if InTools(rules, r.tool) then r.tool else spare,
            if InAgents(rules, r.agentId) then r.agentId else DEFAULT_AGENT,
            r.riskLevel, ScopesSeen(rules, r.scopes),
            if r.approvalToken.Some? then Some(PROBE_TOKEN) else None,
            EnvironmentSeen(wide, rules, r.environment), r.sideEffect)
  }

  lemma RepresentativeInSpace(wide: bool, rules: seq<Rule>, spare: string, r: Request)
    requires InFragmentOf(wide, rules, spare) && Known(r)
    ensures InSpaceOf(wide, rules, Representative(wide, rules, spare, r))
  {
    var s := Representative(wide, rules, spare, r);
    assert s.scopes != [] ==> s.scopes[0] in s.scopes;
  }

  lemma SpaceIsCovered(wide: bool, rules: seq<Rule>, s: Request)
    requires InSpaceOf(wide, rules, s)
    ensures Covered(s)
  {
  }

  /** A list of literals and stars sees no difference between two tools it does not name. */
  lemma LiteralsSeeNoDifference(patterns: seq<string>, t: string, u: string)
    requires forall p :: p in patterns ==> p == "*" || '*' !in p
    requires t in patterns ==> t == u || t == "*"
    requires u in patterns ==> t == u || u == "*"
    ensures SomeGlob(patterns, t) <==> SomeGlob(patterns, u)
  {
    if SomeGlob(patterns, t) {
      var i :| 0 <= i < |patterns| && GlobMatch(patterns[i], t);
      assert patterns[i] in patterns;
      assert GlobMatch(patterns[i], u);
    }
    if SomeGlob(patterns, u) {
      var i :| 0 <= i < |patterns| && GlobMatch(patterns[i], u);
      assert patterns[i] in patterns;
      assert GlobMatch(patterns[i], t);
    }
  }

  lemma SameToolMatch(rules: seq<Rule>, spare: string, rule: Rule, tool: string)
    requires InWideFragment(rules, spare) && rule in rules && rule.matcher.tools.Some? && !InTools(rules, tool)
    ensures SomeGlob(rule.matcher.tools.value, tool) <==> SomeGlob(rule.matcher.tools.value, spare)
  {
    if tool in rule.matcher.tools.value && tool != "*" {
      SampleOfLiteral(tool);
    }
    assert !Mentions(rule, spare);
    LiteralsSeeNoDifference(rule.matcher.tools.value, tool, spare);
  }

  lemma SameScopes(rules: seq<Rule>, rule: Rule, scopes: seq<string>)
    requires rule in rules && rule.matcher.scopes.Some?
    ensures AllIn(rule.matcher.scopes.value, scopes) <==> AllIn(rule.matcher.scopes.value, ScopesSeen(rules, scopes))
  {
    var required := rule.matcher.scopes.value;
    forall i | 0 <= i < |required| ensures InScopes(rules, required[i]) { assert RequiresScope(rule, required[i]); }
  }

  lemma SameMatch(wide: bool, rules: seq<Rule>, spare: string, rule: Rule, r: Request)
    requires InWideFragment(rules, spare) && rule in rules
    ensures MatchesRule(rule.matcher, r) <==> MatchesRule(rule.matcher, Representative(wide, rules, spare, r))
  {
    if rule.matcher.tools.Some? && !InTools(rules, r.tool) {
      SameToolMatch(rules, spare, rule, r.tool);
    }
    if rule.matcher.scopes.Some? { SameScopes(rules, rule, r.scopes); }
    assert PlainRule(rule);
    assert NamesAgent(rule, r.agentId) ==> InAgents(rules, r.agentId);
  }

  lemma SameCondition(wide: bool, rules: seq<Rule>, spare: string, rule: Rule, c: Condition, r: Request,
                      w: World, w': World)
    requires InFragmentOf(wide, rules, spare) && rule in rules && c in rule.conditions
    ensures MeetsCondition(w, c, r) <==> MeetsCondition(w', c, Representative(wide, rules, spare, r))
  {
    assert PlainRule(rule) && PlainCondition(c);
    if c.Environment? && c.param.Named? {
      assert NamesEnvironment(rule, c.param.name);
      assert InEnvironments(rules, c.param.name);
    }
  }

  /** A rule of the fragment treats a request like its representative, at any hour. */
  lemma SameFiring(wide: bool, rules: seq<Rule>, spare: string, rule: Rule, r: Request, w: World, w': World)
    requires InFragmentOf(wide, rules, spare) && rule in rules
    ensures Fires(w, rule, r) <==> Fires(w', rule, Representative(wide, rules, spare, r))
  {
    SameMatch(wide, rules, spare, rule, r);
    forall i | 0 <= i < |rule.conditions|
      ensures MeetsCondition(w, rule.conditions[i], r)
         <==> MeetsCondition(w', rule.conditions[i], Representative(wide, rules, spare, r))
    {
      SameCondition(wide, rules, spare, rule, rule.conditions[i], r, w, w');
    }
  }

  lemma {:induction false} SameFirstMatch(sorted: seq<Rule>, r: Request, s: Request, w: World, w': World)
    requires forall rule :: rule in sorted ==> (Fires(w, rule, r) <==> Fires(w', rule, s))
    ensures FirstMatch(w, sorted, r) == FirstMatch(w', sorted, s)
  {
    if sorted != [] {
      SameFirstMatch(sorted[1..], r, s, w, w');
    }
  }

  /** Evaluation of any subset of the named rules cannot tell them apart. */
  lemma SameDecision(wide: bool, rules: seq<Rule>, part: seq<Rule>, spare: string, r: Request, w: World, w': World)
    requires InFragmentOf(wide, rules, spare) && forall rule :: rule in part ==> rule in rules
    ensures EvaluatePolicies(w, part, r) == EvaluatePolicies(w', part, Representative(wide, rules, spare, r))
  {
    var sorted, s := StableSort(part, Priority), Representative(wide, rules, spare, r);
    SortedRules(part);
    forall rule | rule in sorted ensures Fires(w, rule, r) <==> Fires(w', rule, s) {
      SameFiring(wide, rules, spare, rule, r, w, w');
    }
    SameFirstMatch(sorted, r, s, w, w');
  }

  lemma SameInvariants(wide: bool, rules: seq<Rule>, spare: string, r: Request, d: Decision)
    requires Covered(r)
    ensures AllThree(r, d) <==> AllThree(Representative(wide, rules, spare, r), d)
  {
    assert InEnvironments(rules, PRODUCTION);
  }

  // ---------- The small-model theorems ----------

  /** The three default invariants hold in the whole space. */
  ghost predicate VerifiedOver(wide: bool, w: World, rules: seq<Rule>) {
    forall s :: InSpaceOf(wide, rules, s) ==> AllThree(s, EvaluatePolicies(w, rules, s))
  }

  /** The checker's verdict on the default invariants. */
  ghost predicate Verified(w: World, rules: seq<Rule>) { VerifiedOver(false, w, rules) }

  /** What its verdict would be over the wider space. */
  ghost predicate WideVerified(w: World, rules: seq<Rule>) { VerifiedOver(true, w, rules) }

  /** The verdict of VerifyPolicyInvariants on the default list is Verified. */
  method VerifyDefaults(w: World, rules: seq<Rule>) returns (verified: bool)
    ensures verified <==> Verified(w, rules)
  {
    var cs, violations;
    var invariants := DefaultInvariants();
    verified, cs, violations := VerifyPolicyInvariants(w, rules, invariants);
    assert forall s, d :: AllThree(s, d) <==> forall k :: 0 <= k < |invariants| ==> invariants[k].holds(s, d) by {
      assert invariants[0].holds == NoUnapprovedCritical && invariants[1].holds == NoUnapprovedSubmit
             && invariants[2].holds == ProductionWriteGuarded;
    }
  }

  /** The three invariants hold for every covered request, whatever its tool, agent, scopes and
      environment, and at whatever hour. */
  ghost predicate SafeEverywhere(rules: seq<Rule>) {
    forall w, r :: Covered(r) ==> AllThree(r, EvaluatePolicies(w, rules, r))
  }

  lemma VerifiedOverIsSafe(wide: bool, w: World, rules: seq<Rule>, spare: string)
    requires InFragmentOf(wide, rules, spare)
    ensures VerifiedOver(wide, w, rules) <==> SafeEverywhere(rules)
  {
    if VerifiedOver(wide, w, rules) {
      forall w', r | Covered(r) ensures AllThree(r, EvaluatePolicies(w', rules, r)) {
        RepresentativeInSpace(wide, rules, spare, r);
        SameDecision(wide, rules, rules, spare, r, w', w);
        SameInvariants(wide, rules, spare, r, EvaluatePolicies(w', rules, r));
      }
    }
    if SafeEverywhere(rules) {
      forall s | InSpaceOf(wide, rules, s) ensures AllThree(s, EvaluatePolicies(w, rules, s)) {
        SpaceIsCovered(wide, rules, s);
      }
    }
  }

  /** The checker reports verified exactly when the three invariants hold for every covered
      request, if no rule requires a scope or asks for an absent environment. */
  lemma VerifiedMeansSafeEverywhere(w: World, rules: seq<Rule>, spare: string)
    requires InFragment(rules, spare)
    ensures Verified(w, rules) <==> SafeEverywhere(rules)
  {
    VerifiedOverIsSafe(false, w, rules, spare);
  }

  /** With any required scopes and any environment conditions, they hold exactly when they hold in
      the wider space, which is more than the checker looks at. */
  lemma SafeEverywhereExactly(w: World, rules: seq<Rule>, spare: string)
    requires InWideFragment(rules, spare)
    ensures WideVerified(w, rules) <==> SafeEverywhere(rules)
    ensures WideVerified(w, rules) ==> Verified(w, rules)
  {
    VerifiedOverIsSafe(true, w, rules, spare);
    if WideVerified(w, rules) {
      forall s | InSpace(rules, s) ensures AllThree(s, EvaluatePolicies(w, rules, s)) { SpaceIsInWide(rules, s); }
    }
  }

  /** Every decision on a state with a token is also safe when the token is overlooked. */
  ghost predicate VerifiedTokenless(wide: bool, w: World, rules: seq<Rule>) {
    forall s :: InSpaceOf(wide, rules, s) && s.approvalToken.Some? ==>
      AllThree(s.(approvalToken := None), EvaluatePolicies(w, rules, s))
  }

  lemma EmptyTokenDecision(wide: bool, w: World, w': World, rules: seq<Rule>, spare: string, r: Request)
    requires InFragmentOf(wide, rules, spare) && Known(r) && r.approvalToken == Some("")
    ensures var s := Representative(wide, rules, spare, r);
            && InSpaceOf(wide, rules, s) && s.approvalToken.Some?
            && (AllThree(r, EvaluatePolicies(w', rules, r))
                <==> AllThree(s.(approvalToken := None), EvaluatePolicies(w, rules, s)))
  {
    RepresentativeInSpace(wide, rules, spare, r);
    SameDecision(wide, rules, rules, spare, r, w', w);
    SameInvariants(wide, rules, spare, r.(approvalToken := None), EvaluatePolicies(w', rules, r));
  }

  /** A state stands for the request with an empty token in the place of its own. */
  lemma EmptyTokenOnState(wide: bool, w: World, rules: seq<Rule>, spare: string, s: Request)
    requires InFragmentOf(wide, rules, spare) && InSpaceOf(wide, rules, s) && s.approvalToken.Some?
    ensures EvaluatePolicies(w, rules, s.(approvalToken := Some(""))) == EvaluatePolicies(w, rules, s)
  {
    var r := s.(approvalToken := Some(""));
    SameDecision(wide, rules, rules, spare, r, w, w);
    SameDecision(wide, rules, rules, spare, s, w, w);
  }

  /** With empty tokens among the requests the check, over either space, says as much exactly if the
      decisions on its states with a token are safe without one. */
  lemma VerifiedWithEmptyTokensExactly(wide: bool, w: World, rules: seq<Rule>, spare: string)
    requires InFragmentOf(wide, rules, spare)
    ensures VerifiedOver(wide, w, rules) && VerifiedTokenless(wide, w, rules)
       <==> forall w', r :: Known(r) ==> AllThree(r, EvaluatePolicies(w', rules, r))
  {
    VerifiedOverIsSafe(wide, w, rules, spare);
    if VerifiedOver(wide, w, rules) && VerifiedTokenless(wide, w, rules) {
      forall w', r | Known(r) ensures AllThree(r, EvaluatePolicies(w', rules, r)) {
        if r.approvalToken == Some("") { EmptyTokenDecision(wide, w, w', rules, spare, r); }
      }
    }
    if forall w', r :: Known(r) ==> AllThree(r, EvaluatePolicies(w', rules, r)) {
      forall s | InSpaceOf(wide, rules, s) && s.approvalToken.Some?
        ensures AllThree(s.(approvalToken := None), EvaluatePolicies(w, rules, s))
      {
        var r := s.(approvalToken := Some(""));
        assert Known(r);
        EmptyTokenOnState(wide, w, rules, spare, s);
      }
    }
  }

  ghost predicate EquivalentOver(wide: bool, w: World, rulesA: seq<Rule>, rulesB: seq<Rule>) {
    forall s :: InSpaceOf(wide, rulesA + rulesB, s)
                ==> SameOutcome(EvaluatePolicies(w, rulesA, s), EvaluatePolicies(w, rulesB, s))
  }

  /** The verdict of ProvePolicyEquivalence. */
  ghost predicate Equivalent(w: World, rulesA: seq<Rule>, rulesB: seq<Rule>) {
    EquivalentOver(false, w, rulesA, rulesB)
  }

  /** Two rule sets agree in effect and obligation types on every request of a known risk level
      and side effect. */
  ghost predicate SameEverywhere(rulesA: seq<Rule>, rulesB: seq<Rule>) {
    forall w, r :: Known(r) ==> SameOutcome(EvaluatePolicies(w, rulesA, r), EvaluatePolicies(w, rulesB, r))
  }

  lemma OutcomesTransfer(wide: bool, rulesA: seq<Rule>, rulesB: seq<Rule>, spare: string, r: Request,
                         w: World, w': World)
    requires InFragmentOf(wide, rulesA + rulesB, spare) && Known(r) && EquivalentOver(wide, w, rulesA, rulesB)
    ensures SameOutcome(EvaluatePolicies(w', rulesA, r), EvaluatePolicies(w', rulesB, r))
  {
    var rules := rulesA + rulesB;
    RepresentativeInSpace(wide, rules, spare, r);
    SameDecision(wide, rules, rulesA, spare, r, w', w);
    SameDecision(wide, rules, rulesB, spare, r, w', w);
  }

  /** Agreement over the narrow space for rules within the checker's reach, and over the wide space
      for all others, is agreement everywhere. */
  lemma EquivalentOverIsSame(wide: bool, w: World, rulesA: seq<Rule>, rulesB: seq<Rule>, spare: string)
    requires InFragmentOf(wide, rulesA + rulesB, spare)
    ensures EquivalentOver(wide, w, rulesA, rulesB) <==> SameEverywhere(rulesA, rulesB)
  {
    if EquivalentOver(wide, w, rulesA, rulesB) {
      forall w', r | Known(r)
        ensures SameOutcome(EvaluatePolicies(w', rulesA, r), EvaluatePolicies(w', rulesB, r))
      {
        OutcomesTransfer(wide, rulesA, rulesB, spare, r, w, w');
      }
    }
    if SameEverywhere(rulesA, rulesB) {
      forall s | InSpaceOf(wide, rulesA + rulesB, s)
        ensures SameOutcome(EvaluatePolicies(w, rulesA, s), EvaluatePolicies(w, rulesB, s))
      {
        SpaceIsCovered(wide, rulesA + rulesB, s);
      }
    }
  }

  /** Two rule sets are reported equivalent exactly when they agree everywhere. */
  lemma EquivalentMeansSameEverywhere(w: World, rulesA: seq<Rule>, rulesB: seq<Rule>, spare: string)
    requires InFragment(rulesA + rulesB, spare)
    ensures Equivalent(w, rulesA, rulesB) <==> SameEverywhere(rulesA, rulesB)
  {
    EquivalentOverIsSame(false, w, rulesA, rulesB, spare);
  }

  // ---------- Why the premises are there ----------

  lemma {:induction false} SingleRule(w: World, rule: Rule, r: Request)
    ensures EvaluatePolicies(w, [rule], r) == if Fires(w, rule, r) then DecisionOf(rule) else DEFAULT_DENY
  {
    StableSortOfSorted([rule], Priority);
    assert FirstMatch(w, [rule][1..], r) == DEFAULT_DENY;
  }

  lemma WideCheckFinds(w: World, rule: Rule, r: Request)
    requires PlainRule(rule) && rule.matcher.tools.None? && Covered(r)
    requires !AllThree(r, EvaluatePolicies(w, [rule], r))
    ensures !WideVerified(w, [rule])
  {
    var spare := DEFAULT_TOOLS[0];
    assert spare in DEFAULT_TOOLS;
    SafeEverywhereExactly(w, [rule], spare);
  }

  /** A rule with a required scope is never exercised by the space, whose requests have none. */
  lemma RequiredScopesEscape(w: World)
    ensures var rules := [Rule("a", 0, Allow, ANY.(scopes := Some(["admin"])), [], [])];
            var r := Request("t", "a", "critical", ["admin"], None, None, Some("read"));
            && Verified(w, rules) && !WideVerified(w, rules)
            && Covered(r) && !AllThree(r, EvaluatePolicies(w, rules, r))
  {
    var rule := Rule("a", 0, Allow, ANY.(scopes := Some(["admin"])), [], []);
    var r := Request("t", "a", "critical", ["admin"], None, None, Some("read"));
    SingleRule(w, rule, r);
    WideCheckFinds(w, rule, r);
    assert ["admin"][0] in r.scopes;
    forall s | InSpace([rule], s) ensures AllThree(s, EvaluatePolicies(w, [rule], s)) {
      SingleRule(w, rule, s);
      assert ["admin"][0] !in s.scopes;
    }
  }

  /** An environment condition without a name holds only of requests without an environment,
      which the space does not contain. */
  lemma NamelessEnvironmentEscapes(w: World)
    ensures var rules := [Rule("a", 0, Allow, ANY, [Environment(Missing)], [])];
            var r := Request("t", "a", "critical", [], None, None, Some("read"));
            && Verified(w, rules) && !WideVerified(w, rules)
            && Covered(r) && !AllThree(r, EvaluatePolicies(w, rules, r))
  {
    var rule := Rule("a", 0, Allow, ANY, [Environment(Missing)], []);
    var r := Request("t", "a", "critical", [], None, None, Some("read"));
    SingleRule(w, rule, r);
    WideCheckFinds(w, rule, r);
    forall s | InSpace([rule], s) ensures AllThree(s, EvaluatePolicies(w, [rule], s)) {
      SingleRule(w, rule, s);
      assert !MeetsCondition(w, rule.conditions[0], s);
    }
  }

  /** An empty token counts as present for a condition and as absent for an invariant. */
  lemma EmptyTokenEscapes(w: World)
    ensures var rules := [Rule("a", 0, Allow, ANY, [ApprovalExists], [])];
            var r := Request("t", "a", "critical", [], Some(""), None, Some("read"));
            Verified(w, rules) && Known(r) && !AllThree(r, EvaluatePolicies(w, rules, r))
  {
    var rule := Rule("a", 0, Allow, ANY, [ApprovalExists], []);
    var r := Request("t", "a", "critical", [], Some(""), None, Some("read"));
    SingleRule(w, rule, r);
    forall s | InSpace([rule], s) ensures AllThree(s, EvaluatePolicies(w, [rule], s)) {
      SingleRule(w, rule, s);
      assert Fires(w, rule, s) ==> MeetsCondition(w, rule.conditions[0], s);
    }
  }
}
