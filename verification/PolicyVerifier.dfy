/** The exhaustive checker of safety invariants over a finite space of sample requests. */
module PolicyVerifier {
  import opened Basics
  import opened PolicyEngine

  const DEFAULT_TOOLS := ["read_document", "write_record", "submit_external", "unlisted_admin_tool"]
  const DEFAULT_AGENT := "agent-default"
  const DEVELOPMENT := "development"
  const PRODUCTION := "production"
  const RISK_LEVELS := ["low", "medium", "high", "critical"]
  const SIDE_EFFECTS := ["read", "write", "submit"]
  const PROBE_TOKEN := "tok_verified_formal"

  // ---------- Safety invariants ----------

  predicate HasApprovalObligation(d: Decision) { RequireApproval in d.obligations }

  predicate Truthy(s: Option<string>) { s.Some? && s.value != "" }

  predicate Unguarded(r: Request, d: Decision) {
    !Truthy(r.approvalToken) && d.effect.Allow? && !HasApprovalObligation(d)
  }

  predicate NoUnapprovedCritical(r: Request, d: Decision) {
    !(r.riskLevel == "critical" && Unguarded(r, d))
  }

  predicate NoUnapprovedSubmit(r: Request, d: Decision) {
    !(r.sideEffect == Some("submit") && Unguarded(r, d))
  }

  predicate ProductionWriteGuarded(r: Request, d: Decision) {
    !(r.environment == Some(PRODUCTION) && r.sideEffect == Some("write")
      && (r.riskLevel == "high" || r.riskLevel == "critical") && Unguarded(r, d))
  }

  datatype Invariant = Invariant(id: string, holds: (Request, Decision) -> bool)

  function DefaultInvariants(): seq<Invariant> {
    [Invariant("NO_UNAPPROVED_CRITICAL_EXECUTION", NoUnapprovedCritical),
     Invariant("NO_UNAPPROVED_EXTERNAL_SUBMIT", NoUnapprovedSubmit),
     Invariant("PRODUCTION_HIGH_RISK_WRITE_GUARDED", ProductionWriteGuarded)]
  }

  predicate AllThree(r: Request, d: Decision) {
    NoUnapprovedCritical(r, d) && NoUnapprovedSubmit(r, d) && ProductionWriteGuarded(r, d)
  }

  // ---------- The finite space ----------

  /** What a tool pattern contributes: nothing, a sample of a glob, or the literal. */
  function SampleOf(pattern: string): string {
    if pattern == "" then "" else (if pattern[0] == '*' then "sample" else [pattern[0]]) + SampleOf(pattern[1..])
  }

  ghost predicate NamesTool(rule: Rule, t: string) {
    rule.matcher.tools.Some? && exists p :: p in rule.matcher.tools.value && p != "*" && SampleOf(p) == t
  }

  ghost predicate NamesAgent(rule: Rule, a: string) {
    rule.matcher.agents.Some? && a in rule.matcher.agents.value
  }

  ghost predicate NamesEnvironment(rule: Rule, e: string) {
    Environment(Named(e)) in rule.conditions
  }

  ghost predicate InTools(rules: seq<Rule>, t: string) {
    t in DEFAULT_TOOLS || exists rule :: rule in rules && NamesTool(rule, t)
  }

  ghost predicate InAgents(rules: seq<Rule>, a: string) {
    a == DEFAULT_AGENT || exists rule :: rule in rules && NamesAgent(rule, a)
  }

  ghost predicate InEnvironments(rules: seq<Rule>, e: string) {
    e == DEVELOPMENT || e == PRODUCTION || exists rule :: rule in rules && NamesEnvironment(rule, e)
  }

  ghost predicate InSpace(rules: seq<Rule>, s: Request) {
    && InTools(rules, s.tool) && InAgents(rules, s.agentId)
    && s.environment.Some? && InEnvironments(rules, s.environment.value)
    && s.riskLevel in RISK_LEVELS && s.scopes == []
    && s.sideEffect.Some? && s.sideEffect.value in SIDE_EFFECTS
    && (s.approvalToken == None || s.approvalToken == Some(PROBE_TOKEN))
  }

  /** Adding to an insertion-ordered set. */
  function Add(names: seq<string>, x: string): (r: seq<string>)
    ensures forall y :: y in r <==> y in names || y == x
  {
    if x in names then names else names + [x]
  }

  method CollectTools(rules: seq<Rule>) returns (tools: seq<string>)
    ensures forall t :: t in tools <==> InTools(rules, t)
  {
    tools := DEFAULT_TOOLS;
    var i := 0;
    while i < |rules|
      invariant 0 <= i <= |rules|
      invariant forall t :: t in tools <==> InTools(rules[..i], t)
    {
      tools := AddTools(rules[i], tools);
      assert rules[..i + 1] == rules[..i] + [rules[i]];
      i := i + 1;
    }
    assert rules[..i] == rules;
  }

  /** Some pattern before position j contributes this tool. */
  ghost predicate Sampled(patterns: seq<string>, j: nat, t: string)
    requires j <= |patterns|
  {
    exists k :: 0 <= k < j && patterns[k] != "*" && SampleOf(patterns[k]) == t
  }

  lemma SampledNext(patterns: seq<string>, j: nat, t: string)
    requires j < |patterns|
    ensures Sampled(patterns, j + 1, t) <==>
              Sampled(patterns, j, t) || (patterns[j] != "*" && SampleOf(patterns[j]) == t)
  {
    if Sampled(patterns, j, t) {
      var k :| 0 <= k < j && patterns[k] != "*" && SampleOf(patterns[k]) == t;
    }
  }

  method AddTools(rule: Rule, before: seq<string>) returns (tools: seq<string>)
    ensures forall t :: t in tools <==> t in before || NamesTool(rule, t)
  {
    tools := before;
    if rule.matcher.tools.None? { return; }
    var patterns, j := rule.matcher.tools.value, 0;
    while j < |patterns|
      invariant 0 <= j <= |patterns|
      invariant forall t :: t in tools <==> t in before || Sampled(patterns, j, t)
    {
      forall t ensures Sampled(patterns, j + 1, t) <==>
                         Sampled(patterns, j, t) || (patterns[j] != "*" && SampleOf(patterns[j]) == t)
      {
        SampledNext(patterns, j, t);
      }
      if patterns[j] != "*" { tools := Add(tools, Sample(patterns[j])); }
      j := j + 1;
    }
    forall t ensures Sampled(patterns, j, t) <==> NamesTool(rule, t) { SampledIsNamed(rule, patterns, t); }
  }

  function Sample(pattern: string): (s: string)
    ensures s == SampleOf(pattern)
  {
    if '*' in pattern then SampleOf(pattern)
    else
      SampleOfLiteral(pattern);
      pattern
  }

  lemma SampledIsNamed(rule: Rule, patterns: seq<string>, t: string)
    requires rule.matcher.tools == Some(patterns)
    ensures Sampled(patterns, |patterns|, t) <==> NamesTool(rule, t)
  {
    if NamesTool(rule, t) {
      var p :| p in patterns && p != "*" && SampleOf(p) == t;
      var k :| 0 <= k < |patterns| && patterns[k] == p;
    }
  }

  lemma {:induction false} SampleOfLiteral(p: string)
    requires '*' !in p
    ensures SampleOf(p) == p
  {
    if p != "" { SampleOfLiteral(p[1..]); }
  }

  method CollectAgents(rules: seq<Rule>) returns (agents: seq<string>)
    ensures forall a :: a in agents <==> InAgents(rules, a)
  {
    agents := [DEFAULT_AGENT];
    var i := 0;
    while i < |rules|
      invariant 0 <= i <= |rules|
      invariant forall a :: a in agents <==> InAgents(rules[..i], a)
    {
      assert rules[..i + 1] == rules[..i] + [rules[i]];
      if rules[i].matcher.agents.Some? {
        agents := AddAll(agents, rules[i].matcher.agents.value);
      }
      MoreAgents(rules[..i], rules[i]);
      i := i + 1;
    }
    assert rules[..i] == rules;
  }

  lemma MoreAgents(rules: seq<Rule>, rule: Rule)
    ensures forall a :: InAgents(rules + [rule], a) <==> InAgents(rules, a) || NamesAgent(rule, a)
  {
  }

  lemma MoreEnvironments(rules: seq<Rule>, rule: Rule)
    ensures forall e :: InEnvironments(rules + [rule], e) <==> InEnvironments(rules, e) || NamesEnvironment(rule, e)
  {
  }

  method AddAll(before: seq<string>, more: seq<string>) returns (names: seq<string>)
    ensures forall y :: y in names <==> y in before || y in more
  {
    names := before;
    var j := 0;
    while j < |more|
      invariant 0 <= j <= |more|
      invariant forall y :: y in names <==> y in before || y in more[..j]
    {
      names := Add(names, more[j]);
      j := j + 1;
    }
  }

  method CollectEnvironments(rules: seq<Rule>) returns (environments: seq<string>)
    ensures forall e :: e in environments <==> InEnvironments(rules, e)
  {
    environments := [DEVELOPMENT, PRODUCTION];
    var i := 0;
    while i < |rules|
      invariant 0 <= i <= |rules|
      invariant forall e :: e in environments <==> InEnvironments(rules[..i], e)
    {
      environments := AddEnvironments(rules[i].conditions, environments);
      MoreEnvironments(rules[..i], rules[i]);
      assert rules[..i + 1] == rules[..i] + [rules[i]];
      i := i + 1;
    }
    assert rules[..i] == rules;
  }

  method AddEnvironments(conditions: seq<Condition>, before: seq<string>) returns (environments: seq<string>)
    ensures forall e :: e in environments <==> e in before || Environment(Named(e)) in conditions
  {
    environments := before;
    var j := 0;
    while j < |conditions|
      invariant 0 <= j <= |conditions|
      invariant forall e :: e in environments <==> e in before || Environment(Named(e)) in conditions[..j]
    {
      if conditions[j].Environment? && conditions[j].param.Named? {
        environments := Add(environments, conditions[j].param.name);
      }
      j := j + 1;
    }
  }

  method BuildFiniteStateSpace(rules: seq<Rule>) returns (states: seq<Request>)
    ensures forall s :: s in states <==> InSpace(rules, s)
  {
    var tools := CollectTools(rules);
    var agents := CollectAgents(rules);
    var environments := CollectEnvironments(rules);
    states := [];
    var i := 0;
    while i < |tools|
      invariant 0 <= i <= |tools|
      invariant forall s :: s in states <==> s.tool in tools[..i] && StateOver(agents, environments, s)
    {
      var more := StatesForTool(tools[i], agents, environments);
      states := states + more;
      i := i + 1;
    }
  }

  ghost predicate InnerState(s: Request) {
    && s.riskLevel in RISK_LEVELS && s.scopes == []
    && s.sideEffect.Some? && s.sideEffect.value in SIDE_EFFECTS
    && (s.approvalToken == None || s.approvalToken == Some(PROBE_TOKEN))
  }

  ghost predicate StateIn(environments: seq<string>, s: Request) {
    s.environment.Some? && s.environment.value in environments && InnerState(s)
  }

  ghost predicate StateOver(agents: seq<string>, environments: seq<string>, s: Request) {
    s.agentId in agents && StateIn(environments, s)
  }

  method StatesForTool(tool: string, agents: seq<string>, environments: seq<string>) returns (states: seq<Request>)
    ensures forall s :: s in states <==> s.tool == tool && StateOver(agents, environments, s)
  {
    states := [];
    var i := 0;
    while i < |agents|
      invariant 0 <= i <= |agents|
      invariant forall s :: s in states <==> s.tool == tool && s.agentId in agents[..i] && StateIn(environments, s)
    {
      var more := StatesForAgent(tool, agents[i], environments);
      states := states + more;
      i := i + 1;
    }
  }

  method StatesForAgent(tool: string, agentId: string, environments: seq<string>) returns (states: seq<Request>)
    ensures forall s :: s in states <==> s.tool == tool && s.agentId == agentId && StateIn(environments, s)
  {
    states := [];
    var i := 0;
    while i < |environments|
      invariant 0 <= i <= |environments|
      invariant forall s :: s in states <==>
                  s.tool == tool && s.agentId == agentId && s.environment.Some?
                  && s.environment.value in environments[..i] && InnerState(s)
    {
      var more := StatesForEnvironment(tool, agentId, environments[i]);
      states := states + more;
      i := i + 1;
    }
  }

  method StatesForEnvironment(tool: string, agentId: string, environment: string) returns (states: seq<Request>)
    ensures forall s :: s in states <==>
              s.tool == tool && s.agentId == agentId && s.environment == Some(environment) && InnerState(s)
  {
    states := [];
    var i := 0;
    while i < |RISK_LEVELS|
      invariant 0 <= i <= |RISK_LEVELS|
      invariant forall s :: s in states <==>
                  s.tool == tool && s.agentId == agentId && s.environment == Some(environment)
                  && s.riskLevel in RISK_LEVELS[..i] && InnerState(s)
    {
      var more := StatesForRisk(tool, agentId, environment, RISK_LEVELS[i]);
      states := states + more;
      i := i + 1;
    }
  }

  method StatesForRisk(tool: string, agentId: string, environment: string, riskLevel: string)
    returns (states: seq<Request>)
    requires riskLevel in RISK_LEVELS
    ensures forall s :: s in states <==>
              s.tool == tool && s.agentId == agentId && s.environment == Some(environment)
              && s.riskLevel == riskLevel && InnerState(s)
  {
    states := [];
    var i := 0;
    while i < |SIDE_EFFECTS|
      invariant 0 <= i <= |SIDE_EFFECTS|
      invariant forall s :: s in states <==>
                  s.tool == tool && s.agentId == agentId && s.environment == Some(environment)
                  && s.riskLevel == riskLevel && s.scopes == [] && s.sideEffect.Some?
                  && s.sideEffect.value in SIDE_EFFECTS[..i]
                  && (s.approvalToken == None || s.approvalToken == Some(PROBE_TOKEN))
    {
      var base := Request(tool, agentId, riskLevel, [], None, Some(environment), Some(SIDE_EFFECTS[i]));
      states := states + [base, base.(approvalToken := Some(PROBE_TOKEN))];
      i := i + 1;
    }
  }

  // ---------- The two reports ----------

  datatype Counterexample = Counterexample(invariantId: string, state: Request, decision: Decision)

  /** Violations of the invariants listed, at one state. */
  function ViolationsAt(w: World, rules: seq<Rule>, invariants: seq<Invariant>, s: Request): (cs: seq<Counterexample>)
    ensures cs == [] <==> forall k :: 0 <= k < |invariants| ==> invariants[k].holds(s, EvaluatePolicies(w, rules, s))
  {
    if invariants == [] then []
    else
      var inv, d := invariants[|invariants| - 1], EvaluatePolicies(w, rules, s);
      ViolationsAt(w, rules, invariants[..|invariants| - 1], s)
      + if inv.holds(s, d) then [] else [Counterexample(inv.id, s, d)]
  }

  /** The counterexample names a state, the decision there and an invariant that it breaks. */
  ghost predicate Shows(w: World, rules: seq<Rule>, invariants: seq<Invariant>, c: Counterexample) {
    && c.decision == EvaluatePolicies(w, rules, c.state)
    && exists k :: 0 <= k < |invariants| && c.invariantId == invariants[k].id
                   && !invariants[k].holds(c.state, c.decision)
  }

  lemma {:induction false} ViolationsExactly(w: World, rules: seq<Rule>, invariants: seq<Invariant>, s: Request,
                                             c: Counterexample)
    ensures c in ViolationsAt(w, rules, invariants, s) <==> c.state == s && Shows(w, rules, invariants, c)
  {
    if invariants != [] {
      var n := |invariants| - 1;
      ViolationsExactly(w, rules, invariants[..n], s, c);
      if c.state == s && Shows(w, rules, invariants, c) {
        var k :| 0 <= k < |invariants| && c.invariantId == invariants[k].id
                 && !invariants[k].holds(c.state, c.decision);
        assert k < n ==> invariants[..n][k] == invariants[k];
      }
    }
  }

  function CountOf(cs: seq<Counterexample>, id: string): nat {
    if cs == [] then 0 else CountOf(cs[..|cs| - 1], id) + if cs[|cs| - 1].invariantId == id then 1 else 0
  }

  /** Explores every state; counts violations per invariant id. */
  method VerifyPolicyInvariants(w: World, rules: seq<Rule>, invariants: seq<Invariant>)
    returns (verified: bool, counterexamples: seq<Counterexample>, violations: map<string, nat>)
    ensures verified <==> counterexamples == []
    ensures verified <==> forall s, k :: InSpace(rules, s) && 0 <= k < |invariants|
                                         ==> invariants[k].holds(s, EvaluatePolicies(w, rules, s))
    ensures forall c :: c in counterexamples <==> InSpace(rules, c.state) && Shows(w, rules, invariants, c)
    ensures forall k :: 0 <= k < |invariants| ==>
              invariants[k].id in violations
              && violations[invariants[k].id] == CountOf(counterexamples, invariants[k].id)
  {
    var states := BuildFiniteStateSpace(rules);
    counterexamples := [];
    var i := 0;
    while i < |states|
      invariant 0 <= i <= |states|
      invariant forall c :: c in counterexamples <==> c.state in states[..i] && Shows(w, rules, invariants, c)
    {
      var s := states[i];
      assert states[..i + 1] == states[..i] + [s];
      var more := CheckState(w, rules, invariants, s);
      forall c ensures c in more <==> c.state == s && Shows(w, rules, invariants, c) {
        ViolationsExactly(w, rules, invariants, s, c);
      }
      counterexamples := counterexamples + more;
      i := i + 1;
    }
    assert states[..i] == states;
    violations := Tally(invariants, counterexamples);
    verified := counterexamples == [];
    NoneShown(w, rules, invariants, counterexamples);
  }

  lemma NoneShown(w: World, rules: seq<Rule>, invariants: seq<Invariant>, cs: seq<Counterexample>)
    requires forall c :: c in cs <==> InSpace(rules, c.state) && Shows(w, rules, invariants, c)
    ensures cs == [] <==> forall s, k :: InSpace(rules, s) && 0 <= k < |invariants|
                                         ==> invariants[k].holds(s, EvaluatePolicies(w, rules, s))
  {
    if s, k :| InSpace(rules, s) && 0 <= k < |invariants| && !invariants[k].holds(s, EvaluatePolicies(w, rules, s)) {
      var c := Counterexample(invariants[k].id, s, EvaluatePolicies(w, rules, s));
      assert c.invariantId == invariants[k].id && Shows(w, rules, invariants, c);
    }
    if cs != [] { assert cs[0] in cs; }
  }

  method CheckState(w: World, rules: seq<Rule>, invariants: seq<Invariant>, s: Request)
    returns (cs: seq<Counterexample>)
    ensures cs == ViolationsAt(w, rules, invariants, s)
  {
    var d := EvaluatePolicies(w, rules, s);
    cs := [];
    var k := 0;
    while k < |invariants|
      invariant 0 <= k <= |invariants|
      invariant cs == ViolationsAt(w, rules, invariants[..k], s)
    {
      assert invariants[..k + 1][..k] == invariants[..k];
      if !invariants[k].holds(s, d) {
        cs := cs + [Counterexample(invariants[k].id, s, d)];
      }
      k := k + 1;
    }
    assert invariants[..k] == invariants;
  }

  method Tally(invariants: seq<Invariant>, cs: seq<Counterexample>) returns (violations: map<string, nat>)
    ensures forall k :: 0 <= k < |invariants| ==>
              invariants[k].id in violations && violations[invariants[k].id] == CountOf(cs, invariants[k].id)
  {
    violations := map[];
    var k := 0;
    while k < |invariants|
      invariant 0 <= k <= |invariants|
      invariant forall j :: 0 <= j < k ==> invariants[j].id in violations
      invariant forall id :: id in violations ==> violations[id] == CountOf(cs, id)
    {
      violations := violations[invariants[k].id := CountOf(cs, invariants[k].id)];
      k := k + 1;
    }
  }

  /** Same effect and the same obligation types, counted. */
  predicate SameOutcome(a: Decision, b: Decision) {
    a.effect == b.effect && multiset(a.obligations) == multiset(b.obligations)
  }

  method ProvePolicyEquivalence(w: World, rulesA: seq<Rule>, rulesB: seq<Rule>)
    returns (equivalent: bool, diverging: seq<Request>)
    ensures equivalent <==> diverging == []
    ensures forall s :: s in diverging <==>
              InSpace(rulesA + rulesB, s)
              && !SameOutcome(EvaluatePolicies(w, rulesA, s), EvaluatePolicies(w, rulesB, s))
  {
    var states := BuildFiniteStateSpace(rulesA + rulesB);
    diverging := [];
    var i := 0;
    while i < |states|
      invariant 0 <= i <= |states|
      invariant forall s :: s in diverging <==>
                  s in states[..i] && !SameOutcome(EvaluatePolicies(w, rulesA, s), EvaluatePolicies(w, rulesB, s))
    {
      var s := states[i];
      assert states[..i + 1] == states[..i] + [s];
      if !SameOutcome(EvaluatePolicies(w, rulesA, s), EvaluatePolicies(w, rulesB, s)) {
        diverging := diverging + [s];
      }
      i := i + 1;
    }
    assert states[..i] == states;
    equivalent := diverging == [];
  }
}
