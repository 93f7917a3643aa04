/** Requests, rules with matchers and conditions, and the first-match policy evaluator. */
module PolicyEngine {
  import opened Basics

  datatype Effect = Allow | Deny

  datatype Obligation = RequireApproval | LogAudit | RateLimit | Notify | PiiRedact | PiiDeny

  /** The environment a condition names: a string, nothing at all, or a value of another type. */
  datatype EnvironmentParam = Named(name: string) | Missing | NotAString

  datatype Condition =
    | TimeWindow(startHour: Option<int>, endHour: Option<int>)
    | Environment(param: EnvironmentParam)
    | ApprovalExists
    | Expression(params: string)
    | Custom
    | Unknown

  datatype Matcher = Matcher(tools: Option<seq<string>>, agents: Option<seq<string>>, riskLevels: Option<seq<string>>,
                             scopes: Option<seq<string>>, sideEffects: Option<seq<string>>)

  datatype Rule = Rule(id: string, priority: int, effect: Effect, matcher: Matcher,
                       conditions: seq<Condition>, obligations: seq<Obligation>)

  datatype Request = Request(tool: string, agentId: string, riskLevel: string, scopes: seq<string>,
                             approvalToken: Option<string>, environment: Option<string>, sideEffect: Option<string>)

  datatype Decision = Decision(effect: Effect, matchedRule: Rule, obligations: seq<Obligation>)

  /** What evaluation depends on beside the request: the clock hour and the outcome of
      expression conditions. */
  datatype World = World(hour: int, expression: (string, Request) -> bool)

  const ANY: Matcher := Matcher(None, None, None, None, None)
  const DEFAULT_DENY_RULE: Rule := Rule("DEFAULT_DENY", 9999, Deny, ANY, [], [])
  const DEFAULT_DENY: Decision := Decision(Deny, DEFAULT_DENY_RULE, [])

  // ---------- Matching ----------

  /** The characters a regular expression's dot does not match. */
  predicate LineBreak(c: char) {
    c == '\n' || c == '\r' || c == '\U{2028}' || c == '\U{2029}'
  }

  predicate NoLineBreaks(s: string) {
    forall i :: 0 <= i < |s| ==> !LineBreak(s[i])
  }

  /** Whole-string match where '*' stands for any run of characters without a line break. */
  predicate RegexMatch(pattern: string, target: string)
    decreases |pattern| + |target|
  {
    if pattern == "" then target == ""
    else if pattern[0] == '*' then
      RegexMatch(pattern[1..], target)
      || (target != "" && !LineBreak(target[0]) && RegexMatch(pattern, target[1..]))
    else target != "" && pattern[0] == target[0] && RegexMatch(pattern[1..], target[1..])
  }

  lemma {:induction false} StarMatchesAll(t: string)
    requires NoLineBreaks(t)
    ensures RegexMatch("*", t)
  {
    if t == "" {
      assert RegexMatch("*"[1..], t);
    } else {
      StarMatchesAll(t[1..]);
    }
  }

  predicate GlobMatch(pattern: string, target: string) {
    if pattern == "*" then true
    else if '*' !in pattern then pattern == target
    else RegexMatch(pattern, target)
  }

  predicate SomeGlob(patterns: seq<string>, target: string) {
    exists i :: 0 <= i < |patterns| && GlobMatch(patterns[i], target)
  }

  predicate AllIn(xs: seq<string>, ys: seq<string>) {
    forall i :: 0 <= i < |xs| ==> xs[i] in ys
  }

  predicate HasSideEffect(r: Request) { r.sideEffect.Some? && r.sideEffect.value != "" }

  predicate MatchesRule(m: Matcher, r: Request) {
    && (m.tools.Some? ==> SomeGlob(m.tools.value, r.tool))
    && (m.agents.Some? ==> r.agentId in m.agents.value)
    && (m.riskLevels.Some? ==> r.riskLevel in m.riskLevels.value)
    && (m.scopes.Some? ==> AllIn(m.scopes.value, r.scopes))
    && (m.sideEffects.Some? && HasSideEffect(r) ==> r.sideEffect.value in m.sideEffects.value)
  }

  predicate MeetsCondition(w: World, c: Condition, r: Request) {
    match c
    case TimeWindow(start, end) => (start.Some? ==> start.value <= w.hour) && (end.Some? ==> w.hour < end.value)
    case Environment(Named(name)) => r.environment == Some(name)
    case Environment(Missing) => r.environment.None?
    case Environment(NotAString) => false
    case ApprovalExists => r.approvalToken.Some?
    case Expression(params) => w.expression(params, r)
    case Custom => true
    case Unknown => false
  }

  predicate MeetsConditions(w: World, conditions: seq<Condition>, r: Request) {
    forall i :: 0 <= i < |conditions| ==> MeetsCondition(w, conditions[i], r)
  }

  predicate Fires(w: World, rule: Rule, r: Request) {
    MatchesRule(rule.matcher, r) && MeetsConditions(w, rule.conditions, r)
  }

  // ---------- Evaluation ----------

  function Priority(rule: Rule): int { rule.priority }

  function DecisionOf(rule: Rule): Decision { Decision(rule.effect, rule, rule.obligations) }

  function FirstMatch(w: World, sorted: seq<Rule>, r: Request): Decision {
    if sorted == [] then DEFAULT_DENY
    else if Fires(w, sorted[0], r) then DecisionOf(sorted[0])
    else FirstMatch(w, sorted[1..], r)
  }

  function EvaluatePolicies(w: World, rules: seq<Rule>, r: Request): Decision {
    FirstMatch(w, StableSort(rules, Priority), r)
  }

  /** The first k rules do not fire. */
  ghost predicate NoneFires(w: World, rules: seq<Rule>, k: nat, r: Request)
    requires k <= |rules|
  {
    forall i :: 0 <= i < k ==> !Fires(w, rules[i], r)
  }

  lemma {:induction false} FirstMatchAt(w: World, sorted: seq<Rule>, r: Request, k: nat)
    requires k < |sorted| && Fires(w, sorted[k], r) && NoneFires(w, sorted, k, r)
    ensures FirstMatch(w, sorted, r) == DecisionOf(sorted[k])
  {
    if k > 0 {
      FirstMatchAt(w, sorted[1..], r, k - 1);
    }
  }

  lemma {:induction false} FirstMatchNone(w: World, sorted: seq<Rule>, r: Request)
    requires NoneFires(w, sorted, |sorted|, r)
    ensures FirstMatch(w, sorted, r) == DEFAULT_DENY
  {
    if sorted != [] {
      FirstMatchNone(w, sorted[1..], r);
    }
  }

  lemma {:induction false} FirstFiring(w: World, sorted: seq<Rule>, r: Request) returns (k: nat)
    requires !NoneFires(w, sorted, |sorted|, r)
    ensures k < |sorted| && Fires(w, sorted[k], r) && NoneFires(w, sorted, k, r)
  {
    if Fires(w, sorted[0], r) {
      k := 0;
    } else {
      var i :| 0 <= i < |sorted| && Fires(w, sorted[i], r);
      assert sorted[1..][i - 1] == sorted[i];
      k := FirstFiring(w, sorted[1..], r);
      k := k + 1;
    }
  }

  /** Rules are tried in ascending order of their priority numbers. */
  lemma SortedRules(rules: seq<Rule>)
    ensures var sorted := StableSort(rules, Priority);
            && (forall i, j :: 0 <= i < j < |sorted| ==> sorted[i].priority <= sorted[j].priority)
            && (forall x :: x in sorted <==> x in rules)
  {
    var sorted := StableSort(rules, Priority);
    StableSortSorts(rules, Priority);
    StableSortElements(rules, Priority);
    forall i, j | 0 <= i < j < |sorted| ensures sorted[i].priority <= sorted[j].priority {
      assert Priority(sorted[i]) <= Priority(sorted[j]);
    }
  }

  lemma LeastFiring(w: World, rules: seq<Rule>, r: Request) returns (rule: Rule)
    requires !NoneFires(w, rules, |rules|, r)
    ensures rule in rules && Fires(w, rule, r) && EvaluatePolicies(w, rules, r) == DecisionOf(rule)
    ensures forall other :: other in rules && Fires(w, other, r) ==> rule.priority <= other.priority
  {
    var sorted := StableSort(rules, Priority);
    SortedRules(rules);
    var i :| 0 <= i < |rules| && Fires(w, rules[i], r);
    assert rules[i] in rules;
    var k := FirstFiring(w, sorted, r);
    rule := sorted[k];
    FirstMatchAt(w, sorted, r, k);
    assert rule in sorted;
    forall other | other in rules && Fires(w, other, r) ensures rule.priority <= other.priority {
      assert other in sorted;
    }
  }

  /** The decision is that of a firing rule of least priority number, if any rule fires. */
  lemma WinnerHasLeastPriority(w: World, rules: seq<Rule>, r: Request)
    ensures NoneFires(w, rules, |rules|, r) ==> EvaluatePolicies(w, rules, r) == DEFAULT_DENY
    ensures !NoneFires(w, rules, |rules|, r) ==>
              exists rule :: rule in rules && Fires(w, rule, r) && EvaluatePolicies(w, rules, r) == DecisionOf(rule)
                             && forall other :: other in rules && Fires(w, other, r) ==> rule.priority <= other.priority
  {
    if NoneFires(w, rules, |rules|, r) {
      SortedRules(rules);
      forall i | 0 <= i < |rules| ensures !Fires(w, StableSort(rules, Priority)[i], r) {
        assert StableSort(rules, Priority)[i] in rules;
      }
      FirstMatchNone(w, StableSort(rules, Priority), r);
    } else {
      var rule := LeastFiring(w, rules, r);
    }
  }

  // ---------- Evaluation with a trace ----------

  datatype RuleEvaluation = RuleEvaluation(rule: Rule, matched: bool, conditionsMet: bool)

  datatype Conflict = Conflict(allowRule: Rule, denyRule: Rule)

  /** The entry says whether the rule matches and, if it does, whether its conditions are met too. */
  predicate Evaluates(w: World, e: RuleEvaluation, rule: Rule, r: Request) {
    && e.rule == rule && (e.matched <==> MatchesRule(rule.matcher, r))
    && (e.conditionsMet <==> MatchesRule(rule.matcher, r) && MeetsConditions(w, rule.conditions, r))
  }

  /** Rule j fires with the opposite effect. */
  predicate Opposes(w: World, winner: Rule, other: Rule, r: Request) {
    other.effect != winner.effect && Fires(w, other, r)
  }

  /** Rule j is the first behind rule i to oppose it. */
  ghost predicate FirstOpposing(w: World, sorted: seq<Rule>, i: int, j: int, r: Request) {
    && 0 <= i < j < |sorted| && Opposes(w, sorted[i], sorted[j], r)
    && forall k :: i < k < j ==> !Opposes(w, sorted[i], sorted[k], r)
  }

  /** Rule i decides the request, and rule j is the first behind it to oppose it. */
  ghost predicate Clash(w: World, sorted: seq<Rule>, i: int, j: int, r: Request) {
    FirstOpposing(w, sorted, i, j, r) && NoneFires(w, sorted, i, r) && Fires(w, sorted[i], r)
  }

  function ConflictOf(winner: Rule, other: Rule): Conflict {
    if winner.effect == Allow then Conflict(winner, other) else Conflict(other, winner)
  }

  /** The conflict of rule i with the first rule behind it that opposes it, if there is one. */
  ghost predicate IsConflict(w: World, sorted: seq<Rule>, i: nat, r: Request, conflicts: seq<Conflict>)
    requires i < |sorted|
  {
    && (conflicts != [] <==> exists j :: FirstOpposing(w, sorted, i, j, r))
    && forall j :: FirstOpposing(w, sorted, i, j, r) ==> conflicts == [ConflictOf(sorted[i], sorted[j])]
  }

  /** What the loop knows after i rules: the first one to fire, its decision and its conflict. */
  ghost predicate Traced(w: World, sorted: seq<Rule>, i: nat, r: Request, final: Option<nat>,
                         decision: Decision, conflicts: seq<Conflict>)
    requires i <= |sorted|
  {
    match final
    case None => NoneFires(w, sorted, i, r) && conflicts == [] && decision == DEFAULT_DENY
    case Some(k) => k < i && Fires(w, sorted[k], r) && NoneFires(w, sorted, k, r)
                    && decision == DecisionOf(sorted[k]) && IsConflict(w, sorted, k, r, conflicts)
  }

  /** The trace records every rule, decides like the plain evaluator, and reports a conflict
      exactly when a lower rule that fires would have decided the other way: between the deciding
      rule and the first such rule. */
  method EvaluatePoliciesWithTrace(w: World, rules: seq<Rule>, r: Request)
    returns (decision: Decision, evaluated: seq<RuleEvaluation>, conflicts: seq<Conflict>)
    ensures decision == EvaluatePolicies(w, rules, r)
    ensures |evaluated| == |rules|
    ensures forall i :: 0 <= i < |rules| ==> Evaluates(w, evaluated[i], StableSort(rules, Priority)[i], r)
    ensures conflicts != [] <==> exists i, j :: Clash(w, StableSort(rules, Priority), i, j, r)
    ensures forall i, j :: Clash(w, StableSort(rules, Priority), i, j, r) ==>
              conflicts == [ConflictOf(StableSort(rules, Priority)[i], StableSort(rules, Priority)[j])]
  {
    var sorted := StableSort(rules, Priority);
    evaluated, conflicts := [], [];
    var final: Option<nat> := None;
    decision := DEFAULT_DENY;
    var i := 0;
    while i < |sorted|
      invariant 0 <= i <= |sorted| && |evaluated| == i
      invariant forall k :: 0 <= k < i ==> Evaluates(w, evaluated[k], sorted[k], r)
      invariant Traced(w, sorted, i, r, final, decision, conflicts)
    {
      var rule := sorted[i];
      evaluated := evaluated + [RuleEvaluation(rule, MatchesRule(rule.matcher, r), Fires(w, rule, r))];
      if Fires(w, rule, r) && final.None? {
        final, decision := Some(i), DecisionOf(rule);
        conflicts := FindConflict(w, sorted, i, r);
      }
      i := i + 1;
    }
    WinnerOnly(w, sorted, r, final, conflicts);
  }

  method FindConflict(w: World, sorted: seq<Rule>, i: nat, r: Request) returns (conflicts: seq<Conflict>)
    requires i < |sorted|
    ensures conflicts != [] <==> exists j :: i < j < |sorted| && Opposes(w, sorted[i], sorted[j], r)
    ensures IsConflict(w, sorted, i, r, conflicts)
  {
    var rule, j := sorted[i], i + 1;
    while j < |sorted|
      invariant i < j <= |sorted|
      invariant forall k :: i < k < j ==> !Opposes(w, rule, sorted[k], r)
    {
      if Opposes(w, rule, sorted[j], r) {
        assert FirstOpposing(w, sorted, i, j, r);
        return [if rule.effect == Allow then Conflict(rule, sorted[j]) else Conflict(sorted[j], rule)];
      }
      j := j + 1;
    }
    conflicts := [];
  }

  lemma WinnerOnly(w: World, sorted: seq<Rule>, r: Request, final: Option<nat>, conflicts: seq<Conflict>)
    requires final.None? ==> NoneFires(w, sorted, |sorted|, r) && conflicts == []
    requires final.Some? ==> final.value < |sorted| && Fires(w, sorted[final.value], r)
                             && NoneFires(w, sorted, final.value, r)
                             && IsConflict(w, sorted, final.value, r, conflicts)
    ensures FirstMatch(w, sorted, r) == if final.None? then DEFAULT_DENY else DecisionOf(sorted[final.value])
    ensures conflicts != [] <==> exists i, j :: Clash(w, sorted, i, j, r)
    ensures forall i, j :: Clash(w, sorted, i, j, r) ==> conflicts == [ConflictOf(sorted[i], sorted[j])]
  {
    if final.None? {
      FirstMatchNone(w, sorted, r);
    } else {
      FirstMatchAt(w, sorted, r, final.value);
      forall i, j | Clash(w, sorted, i, j, r) ensures FirstOpposing(w, sorted, final.value, j, r) && i == final.value {
        OneWinner(w, sorted, i, final.value, r);
      }
      if conflicts != [] {
        var j :| FirstOpposing(w, sorted, final.value, j, r);
        assert Clash(w, sorted, final.value, j, r);
      }
    }
  }

  lemma OneWinner(w: World, sorted: seq<Rule>, i: nat, k: nat, r: Request)
    requires i < |sorted| && k < |sorted| && Fires(w, sorted[i], r) && Fires(w, sorted[k], r)
    requires NoneFires(w, sorted, i, r) && NoneFires(w, sorted, k, r)
    ensures i == k
  {
  }
}
