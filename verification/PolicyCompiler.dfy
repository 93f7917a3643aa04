/** Policy cards, interpreted and compiled to rules. */
module PolicyCompiler {
  // The direct interpreter, the compiler to prioritised rules, and when the two give the same
  // answer. How raw condition text becomes conditions is a parameter.

  import opened Basics
  import opened PolicyEngine

  datatype CardEffect = AllowIt | DenyIt | RequireApprovalFor
  datatype CardRule = CardRule(effect: CardEffect, condition: Option<string>)

  datatype Action = ActAllow | ActDeny | ActAudit | ActApproval
  datatype SideEffectRules = SideEffectRules(read: Action, write: Action, submit: Action)
  datatype SideEffect = Read | Write | Submit
  datatype PiiHandling = DenyPii | RedactPii | AllowWithAudit

  datatype AppliesTo = AppliesTo(capabilities: seq<string>, riskLevels: Option<seq<string>>)
  datatype Spec = Spec(allowedTools: seq<string>, forbiddenTools: seq<string>, approvalRequirements: seq<string>,
                       sideEffectRules: Option<SideEffectRules>, piiHandling: PiiHandling)
  datatype Card = Card(id: Option<string>, name: Option<string>, appliesTo: Option<AppliesTo>,
                       rules: Option<seq<CardRule>>, spec: Option<Spec>)

  datatype Context = Context(toolName: string, sideEffect: SideEffect, riskLevel: Option<string>,
                             agentId: Option<string>, approvalToken: Option<string>, environment: Option<string>)

  datatype Requirements = Requirements(approvalRequired: bool, piiHandling: PiiHandling)
  datatype Verdict = Denied | Allowed(requirements: Option<Requirements>)

  type Normalizer = string -> seq<Condition>

  const DEFAULT_SIDE_EFFECTS := SideEffectRules(ActAllow, ActApproval, ActApproval)

  function NonEmptyOr(s: Option<string>, other: string): string {
    if s.Some? && s.value != "" then s.value else other
  }

  function SideEffectName(e: SideEffect): string {
    match e
    case Read => "read"
    case Write => "write"
    case Submit => "submit"
  }

  function ConditionsOf(n: Normalizer, rule: CardRule): seq<Condition> {
    if rule.condition.Some? && rule.condition.value != "" then n(rule.condition.value) else []
  }

  function CardPii(card: Card): PiiHandling {
    if card.spec.Some? then card.spec.value.piiHandling else DenyPii
  }

  function ActionFor(spec: Spec, e: SideEffect): Action {
    var rules := if spec.sideEffectRules.Some? then spec.sideEffectRules.value else DEFAULT_SIDE_EFFECTS;
    match e
    case Read => rules.read
    case Write => rules.write
    case Submit => rules.submit
  }

  // ---------- The direct interpreter ----------

  /** The request that the interpreter evaluates conditions on. */
  function RequestOf(ctx: Context): Request {
    Request(ctx.toolName, NonEmptyOr(ctx.agentId, "anonymous"), NonEmptyOr(ctx.riskLevel, "low"), [],
            ctx.approvalToken, ctx.environment, Some(SideEffectName(ctx.sideEffect)))
  }

  /** s without its first star. */
  function WithoutFirstStar(s: string): string {
    if s == "" then "" else if s[0] == '*' then s[1..] else [s[0]] + WithoutFirstStar(s[1..])
  }

  predicate MatchesCapability(cap: string, tool: string) {
    cap == "*" || tool == cap || (cap != "" && cap[|cap| - 1] == '*' && WithoutFirstStar(cap) <= tool)
  }

  predicate SomeCapability(a: AppliesTo, tool: string) {
    exists i :: 0 <= i < |a.capabilities| && MatchesCapability(a.capabilities[i], tool)
  }

  predicate InScope(a: AppliesTo, ctx: Context) {
    && SomeCapability(a, ctx.toolName)
    && (a.riskLevels.Some? ==> ctx.riskLevel.Some? && ctx.riskLevel.value in a.riskLevels.value)
  }

  /** The first card rule whose conditions hold. */
  function FirstRule(w: World, n: Normalizer, rules: seq<CardRule>, r: Request): Option<CardRule> {
    if rules == [] then None
    else if MeetsConditions(w, ConditionsOf(n, rules[0]), r) then Some(rules[0])
    else FirstRule(w, n, rules[1..], r)
  }

  function ApplicableRule(w: World, n: Normalizer, card: Card, ctx: Context): Option<CardRule> {
    if card.appliesTo.Some? && card.rules.Some? && InScope(card.appliesTo.value, ctx)
    then FirstRule(w, n, card.rules.value, RequestOf(ctx)) else None
  }

  /** A list that names the tool or everything. */
  predicate Listed(list: seq<string>, tool: string) { "*" in list || tool in list }

  function RuleVerdict(card: Card, rule: CardRule): Verdict {
    if rule.effect.DenyIt? then Denied
    else Allowed(Some(Requirements(rule.effect.RequireApprovalFor?, CardPii(card))))
  }

  function SpecVerdict(spec: Spec, ctx: Context): Verdict {
    if Listed(spec.forbiddenTools, ctx.toolName) then Denied
    else if !Listed(spec.allowedTools, ctx.toolName) then Denied
    else if ActionFor(spec, ctx.sideEffect).ActDeny? then Denied
    else
      Allowed(Some(Requirements(ActionFor(spec, ctx.sideEffect).ActApproval?
                                || Listed(spec.approvalRequirements, ctx.toolName), spec.piiHandling)))
  }

  function EvaluatePolicy(w: World, n: Normalizer, card: Card, ctx: Context): Verdict {
    var rule := ApplicableRule(w, n, card, ctx);
    if rule.Some? then RuleVerdict(card, rule.value)
    else if card.spec.None? then Allowed(None)
    else SpecVerdict(card.spec.value, ctx)
  }

  // ---------- The compiler ----------

  function BaseId(card: Card): string {
    NonEmptyOr(card.id, NonEmptyOr(card.name, "unknown-policy"))
  }

  function PiiObligations(card: Card): seq<Obligation> {
    match CardPii(card)
    case RedactPii => [PiiRedact]
    case DenyPii => [PiiDeny]
    case AllowWithAudit => []
  }

  /** The matcher of the compiled card rules. */
  function ScopeMatcher(a: AppliesTo): Matcher {
    ANY.(tools := Some(a.capabilities), riskLevels := a.riskLevels)
  }

  function CompileRule(n: Normalizer, card: Card, a: AppliesTo, rule: CardRule, priority: nat): Rule {
    var matcher := ScopeMatcher(a);
    if rule.effect.DenyIt? then
      Rule(BaseId(card) + "-v2-deny-" + Decimal(priority), priority, Deny, matcher, ConditionsOf(n, rule), [])
    else
      Rule(BaseId(card) + "-v2-allow-" + Decimal(priority), priority, Allow, matcher, ConditionsOf(n, rule),
           PiiObligations(card) + if rule.effect.RequireApprovalFor? then [RequireApproval] else [])
  }

  function CompileRules(n: Normalizer, card: Card, a: AppliesTo, rules: seq<CardRule>): (r: seq<Rule>)
    ensures |r| == |rules|
    ensures forall i :: 0 <= i < |r| ==> r[i] == CompileRule(n, card, a, rules[i], 100 + i)
  {
    if rules == [] then []
    else CompileRules(n, card, a, rules[..|rules| - 1])
         + [CompileRule(n, card, a, rules[|rules| - 1], 100 + |rules| - 1)]
  }

  function ForbiddenRule(card: Card, spec: Spec, priority: nat): seq<Rule> {
    if spec.forbiddenTools == [] then []
    else [Rule(BaseId(card) + "-forbidden-tools", priority, Deny, ANY.(tools := Some(spec.forbiddenTools)), [], [])]
  }

  function ApprovalRule(card: Card, spec: Spec, priority: nat): seq<Rule> {
    if spec.approvalRequirements == [] then []
    else [Rule(BaseId(card) + "-approval-reqs", priority, Allow, ANY.(tools := Some(spec.approvalRequirements)), [],
               PiiObligations(card) + [RequireApproval])]
  }

  function SideEffectRule(card: Card, spec: Spec, e: SideEffect, priority: nat): Rule {
    var matcher := ANY.(tools := Some(spec.allowedTools), sideEffects := Some([SideEffectName(e)]));
    if ActionFor(spec, e).ActDeny? then
      Rule(BaseId(card) + "-sideeffect-deny-" + SideEffectName(e), priority, Deny, matcher, [], [])
    else
      Rule(BaseId(card) + "-sideeffect-allow-" + SideEffectName(e), priority, Allow, matcher, [],
           PiiObligations(card) + if ActionFor(spec, e).ActApproval? then [RequireApproval] else [])
  }

  function CompileSpec(card: Card, spec: Spec, priority: nat): seq<Rule> {
    var f := ForbiddenRule(card, spec, priority);
    var a := ApprovalRule(card, spec, priority + |f|);
    var q := priority + |f| + |a|;
    f + a + SideEffectRulesFrom(card, spec, q)
  }

  function SideEffectRulesFrom(card: Card, spec: Spec, q: nat): seq<Rule> {
    [SideEffectRule(card, spec, Read, q), SideEffectRule(card, spec, Write, q + 1),
     SideEffectRule(card, spec, Submit, q + 2)]
  }

  function CompileV2(n: Normalizer, card: Card): seq<Rule> {
    if card.appliesTo.Some? && card.rules.Some? then CompileRules(n, card, card.appliesTo.value, card.rules.value)
    else []
  }

  function Compile(n: Normalizer, card: Card): seq<Rule> {
    var v2 := CompileV2(n, card);
    if card.spec.None? then v2 else v2 + CompileSpec(card, card.spec.value, 100 + |v2|)
  }

  method AdaptPolicyCardToRules(n: Normalizer, card: Card) returns (rules: seq<Rule>)
    ensures rules == Compile(n, card)
  {
    rules := [];
    var priority := 100;
    if card.appliesTo.Some? && card.rules.Some? {
      rules := AdaptCardRules(n, card, card.appliesTo.value, card.rules.value);
      priority := priority + |rules|;
    }
    if card.spec.None? { return; }
    var specRules := AdaptSpec(card, card.spec.value, priority);
    rules := rules + specRules;
  }

  method AdaptCardRules(n: Normalizer, card: Card, a: AppliesTo, cardRules: seq<CardRule>) returns (rules: seq<Rule>)
    ensures rules == CompileRules(n, card, a, cardRules)
  {
    rules := [];
    var priority, i := 100, 0;
    while i < |cardRules|
      invariant 0 <= i <= |cardRules| && priority == 100 + i
      invariant rules == CompileRules(n, card, a, cardRules[..i])
    {
      assert cardRules[..i + 1][..i] == cardRules[..i];
      var rule := AdaptCardRule(n, card, a, cardRules[i], priority);
      rules := rules + [rule];
      priority := priority + 1;
      i := i + 1;
    }
    assert cardRules[..i] == cardRules;
  }

  method AdaptCardRule(n: Normalizer, card: Card, a: AppliesTo, rule: CardRule, priority: nat) returns (r: Rule)
    ensures r == CompileRule(n, card, a, rule, priority)
  {
    var matcher := ANY.(tools := Some(a.capabilities), riskLevels := a.riskLevels);
    if rule.effect.DenyIt? {
      return Rule(BaseId(card) + "-v2-deny-" + Decimal(priority), priority, Deny, matcher, ConditionsOf(n, rule), []);
    }
    var obs := PiiObligations(card);
    assert obs == obs + [];
    if rule.effect.RequireApprovalFor? {
      obs := obs + [RequireApproval];
    }
    r := Rule(BaseId(card) + "-v2-allow-" + Decimal(priority), priority, Allow, matcher, ConditionsOf(n, rule), obs);
  }

  method AdaptSpec(card: Card, spec: Spec, start: nat) returns (rules: seq<Rule>)
    ensures rules == CompileSpec(card, spec, start)
  {
    var priority := start;
    var f, a := ForbiddenRule(card, spec, priority), [];
    if |spec.forbiddenTools| > 0 {
      priority := priority + 1;
    }
    if |spec.approvalRequirements| > 0 {
      a := ApprovalRule(card, spec, priority);
      priority := priority + 1;
    }
    var read := SideEffectRule(card, spec, Read, priority);
    priority := priority + 1;
    var write := SideEffectRule(card, spec, Write, priority);
    priority := priority + 1;
    var submit := SideEffectRule(card, spec, Submit, priority);
    rules := f + a + [read, write, submit];
  }

  lemma SpecPriorities(card: Card, spec: Spec, start: nat)
    ensures var rules := CompileSpec(card, spec, start);
            forall i :: 0 <= i < |rules| ==> rules[i].priority == start + i
  {
  }

  /** Rules come out in priority order, numbered from 100 without gaps. */
  lemma CompiledPriorities(n: Normalizer, card: Card)
    ensures forall i :: 0 <= i < |Compile(n, card)| ==> Compile(n, card)[i].priority == 100 + i
  {
    if card.spec.Some? {
      SpecPriorities(card, card.spec.value, 100 + |CompileV2(n, card)|);
    }
  }

  /** The card's id, else its name, and if it has neither a fixed word. */
  ghost predicate NamesCard(base: string, card: Card) {
    if card.id.Some? && card.id.value != "" then base == card.id.value
    else if card.name.Some? && card.name.value != "" then base == card.name.value
    else base == "unknown-policy"
  }

  /** Every compiled rule is named after its card and the part of the card it comes from. */
  lemma CompiledIds(n: Normalizer, card: Card, base: string)
    requires NamesCard(base, card)
    ensures card.appliesTo.Some? && card.rules.Some? ==>
              && |CompileV2(n, card)| == |card.rules.value|
              && forall i :: 0 <= i < |card.rules.value| ==>
                   CompileV2(n, card)[i].id
                   == base + (if card.rules.value[i].effect == DenyIt then "-v2-deny-" else "-v2-allow-")
                      + Decimal(100 + i)
    ensures forall spec: Spec, k: nat ::
              && (spec.forbiddenTools != [] ==>
                    && |ForbiddenRule(card, spec, k)| == 1
                    && ForbiddenRule(card, spec, k)[0].id == base + "-forbidden-tools")
              && (spec.approvalRequirements != [] ==>
                    && |ApprovalRule(card, spec, k)| == 1
                    && ApprovalRule(card, spec, k)[0].id == base + "-approval-reqs")
    ensures forall spec: Spec, e: SideEffect, k: nat ::
              SideEffectRule(card, spec, e, k).id
              == base + (if ActionFor(spec, e).ActDeny? then "-sideeffect-deny-" else "-sideeffect-allow-")
                 + SideEffectName(e)
  {
  }

  lemma CompiledIsSorted(w: World, n: Normalizer, card: Card, r: Request)
    ensures EvaluatePolicies(w, Compile(n, card), r) == FirstMatch(w, Compile(n, card), r)
  {
    CompiledPriorities(n, card);
    StableSortOfSorted(Compile(n, card), Priority);
  }

  lemma {:induction false} FirstMatchConcat(w: World, xs: seq<Rule>, ys: seq<Rule>, r: Request)
    ensures FirstMatch(w, xs + ys, r)
         == if NoneFires(w, xs, |xs|, r) then FirstMatch(w, ys, r) else FirstMatch(w, xs, r)
  {
    if xs == [] {
      assert xs + ys == ys;
    } else {
      assert (xs + ys)[1..] == xs[1..] + ys;
      FirstMatchConcat(w, xs[1..], ys, r);
      if !Fires(w, xs[0], r) {
        assert NoneFires(w, xs, |xs|, r) <==> NoneFires(w, xs[1..], |xs| - 1, r) by {
          assert forall i :: 1 <= i < |xs| ==> xs[i] == xs[1..][i - 1];
        }
      }
    }
  }

  // ---------- Patterns on which the two agree ----------

  /** A literal, or a literal followed by one star. */
  predicate Simple(pattern: string) {
    '*' !in pattern || (pattern[|pattern| - 1] == '*' && '*' !in pattern[..|pattern| - 1])
  }

  predicate AllSimple(patterns: seq<string>) {
    forall i :: 0 <= i < |patterns| ==> Simple(patterns[i])
  }

  predicate AllNames(list: seq<string>) {
    forall i :: 0 <= i < |list| ==> list[i] == "*" || '*' !in list[i]
  }

  lemma {:induction false} PrefixPattern(p: string, t: string)
    requires '*' !in p && NoLineBreaks(t)
    ensures RegexMatch(p + "*", t) <==> p <= t
  {
    if p == "" {
      assert p + "*" == "*";
      StarMatchesAll(t);
    } else {
      assert (p + "*")[1..] == p[1..] + "*";
      if t != "" && p[0] == t[0] {
        PrefixPattern(p[1..], t[1..]);
        if p[1..] <= t[1..] { assert p == [p[0]] + p[1..] && t == [t[0]] + t[1..]; }
      }
    }
  }

  lemma {:induction false} RemoveOnlyStar(p: string)
    requires '*' !in p
    ensures WithoutFirstStar(p + "*") == p
  {
    if p == "" {
      assert (p + "*")[1..] == "";
    } else {
      assert (p + "*")[1..] == p[1..] + "*";
      RemoveOnlyStar(p[1..]);
    }
  }

  lemma CapabilityIsGlob(cap: string, tool: string)
    requires Simple(cap) && NoLineBreaks(tool)
    ensures MatchesCapability(cap, tool) <==> GlobMatch(cap, tool)
  {
    if '*' in cap && cap != "*" {
      var p := cap[..|cap| - 1];
      assert cap == p + "*";
      PrefixPattern(p, tool);
      RemoveOnlyStar(p);
    }
  }

  /** The interpreter compares the level that the request names; the compiled rules see "low" where
      it names none. */
  predicate RiskHeard(levels: Option<seq<string>>, named: Option<string>) {
    levels.Some? ==>
      match named
      case None => "low" !in levels.value
      case Some(level) => level == "" ==> ("" in levels.value <==> "low" in levels.value)
  }

  lemma CapabilitiesAreGlobs(a: AppliesTo, tool: string)
    requires AllSimple(a.capabilities) && NoLineBreaks(tool)
    ensures SomeCapability(a, tool) <==> SomeGlob(a.capabilities, tool)
  {
    forall i | 0 <= i < |a.capabilities|
      ensures MatchesCapability(a.capabilities[i], tool) <==> GlobMatch(a.capabilities[i], tool)
    {
      CapabilityIsGlob(a.capabilities[i], tool);
    }
  }

  /** The scope of a card and the matcher compiled from it accept the same requests, except for
      tools in scope where an unnamed risk level makes the difference. */
  lemma ScopeIsMatchExactly(a: AppliesTo, ctx: Context)
    requires AllSimple(a.capabilities) && NoLineBreaks(ctx.toolName)
    ensures (InScope(a, ctx) <==> MatchesRule(ScopeMatcher(a), RequestOf(ctx)))
       <==> !SomeCapability(a, ctx.toolName) || RiskHeard(a.riskLevels, ctx.riskLevel)
  {
    CapabilitiesAreGlobs(a, ctx.toolName);
    assert InScope(a, ctx) ==> SomeCapability(a, ctx.toolName);
  }

  lemma NamesAreGlobs(list: seq<string>, tool: string)
    requires AllNames(list)
    ensures Listed(list, tool) <==> SomeGlob(list, tool)
  {
    if Listed(list, tool) {
      var i :| 0 <= i < |list| && (list[i] == "*" || list[i] == tool);
      assert GlobMatch(list[i], tool);
    }
  }

  // ---------- What the compiled rules mean ----------

  /** The card rule that decides after compiling: the matcher of the compiled rules replaces the
      interpreter's test of scope. */
  function HeardRule(w: World, n: Normalizer, card: Card, ctx: Context): Option<CardRule> {
    if card.appliesTo.Some? && card.rules.Some? && MatchesRule(ScopeMatcher(card.appliesTo.value), RequestOf(ctx))
    then FirstRule(w, n, card.rules.value, RequestOf(ctx)) else None
  }

  /** Lists are read as glob patterns, and the approval list comes before the allowed tools. */
  function CompiledSpecVerdict(spec: Spec, ctx: Context): Verdict {
    var action := ActionFor(spec, ctx.sideEffect);
    if SomeGlob(spec.forbiddenTools, ctx.toolName) then Denied
    else if SomeGlob(spec.approvalRequirements, ctx.toolName) then Allowed(Some(Requirements(true, spec.piiHandling)))
    else if !SomeGlob(spec.allowedTools, ctx.toolName) || action.ActDeny? then Denied
    else Allowed(Some(Requirements(action.ActApproval?, spec.piiHandling)))
  }

  /** The card as its compiled rules read it; without a spec they deny what no rule decides. */
  function CompiledVerdict(w: World, n: Normalizer, card: Card, ctx: Context): Verdict {
    var rule := HeardRule(w, n, card, ctx);
    if rule.Some? then RuleVerdict(card, rule.value)
    else if card.spec.None? then Denied
    else CompiledSpecVerdict(card.spec.value, ctx)
  }

  // ---------- The two evaluations, stage by stage ----------

  predicate RiskHeardBy(card: Card, ctx: Context) {
    card.appliesTo.Some? ==> RiskHeard(card.appliesTo.value.riskLevels, ctx.riskLevel)
  }

  predicate InFragment(card: Card) {
    && (card.appliesTo.Some? ==> AllSimple(card.appliesTo.value.capabilities))
    && (card.spec.Some? ==> AllNames(card.spec.value.allowedTools) && AllNames(card.spec.value.forbiddenTools)
                            && AllNames(card.spec.value.approvalRequirements))
  }

  /** The compiled rules are those of the card rules, numbered from start. */
  ghost predicate CompiledFrom(n: Normalizer, card: Card, a: AppliesTo, rules: seq<CardRule>, compiled: seq<Rule>,
                               start: nat)
  {
    && |compiled| == |rules|
    && forall i :: 0 <= i < |rules| ==> compiled[i] == CompileRule(n, card, a, rules[i], start + i)
  }

  lemma CompiledTail(n: Normalizer, card: Card, a: AppliesTo, rules: seq<CardRule>, compiled: seq<Rule>, start: nat)
    requires CompiledFrom(n, card, a, rules, compiled, start) && rules != []
    ensures CompiledFrom(n, card, a, rules[1..], compiled[1..], start + 1)
    ensures compiled[0] == CompileRule(n, card, a, rules[0], start)
  {
    forall i | 0 <= i < |rules| - 1 ensures compiled[1..][i] == CompileRule(n, card, a, rules[1..][i], start + 1 + i) {
      assert compiled[i + 1] == CompileRule(n, card, a, rules[i + 1], start + (i + 1));
    }
  }

  lemma CompiledRuleFires(w: World, n: Normalizer, card: Card, a: AppliesTo, rule: CardRule, k: nat, r: Request)
    requires MatchesRule(ScopeMatcher(a), r)
    ensures Fires(w, CompileRule(n, card, a, rule, k), r) <==> MeetsConditions(w, ConditionsOf(n, rule), r)
  {
  }

  lemma NoneFiresTail(w: World, rules: seq<Rule>, r: Request)
    requires rules != []
    ensures NoneFires(w, rules, |rules|, r) <==> !Fires(w, rules[0], r) && NoneFires(w, rules[1..], |rules| - 1, r)
  {
    assert forall i :: 1 <= i < |rules| ==> rules[i] == rules[1..][i - 1];
  }

  lemma {:induction false} CardRulesAgree(w: World, n: Normalizer, card: Card, a: AppliesTo, rules: seq<CardRule>,
                                          compiled: seq<Rule>, start: nat, r: Request)
    requires CompiledFrom(n, card, a, rules, compiled, start)
    requires MatchesRule(ScopeMatcher(a), r)
    ensures var rule := FirstRule(w, n, rules, r);
            && (rule.None? <==> NoneFires(w, compiled, |compiled|, r))
            && (rule.Some? ==> exists k: nat :: FirstMatch(w, compiled, r)
                                                == DecisionOf(CompileRule(n, card, a, rule.value, k)))
  {
    if rules != [] {
      CompiledTail(n, card, a, rules, compiled, start);
      CompiledRuleFires(w, n, card, a, rules[0], start, r);
      NoneFiresTail(w, compiled, r);
      if !Fires(w, compiled[0], r) {
        CardRulesAgree(w, n, card, a, rules[1..], compiled[1..], start + 1, r);
      } else {
        assert FirstMatch(w, compiled, r) == DecisionOf(CompileRule(n, card, a, rules[0], start));
      }
    }
  }

  /** Same answer: allow or deny, and on allow the same approval need and PII handling. */
  predicate Agree(v: Verdict, d: Decision) {
    match v
    case Denied => d.effect.Deny?
    case Allowed(None) => false
    case Allowed(Some(req)) =>
      && d.effect.Allow?
      && (req.approvalRequired <==> RequireApproval in d.obligations)
      && (req.piiHandling.RedactPii? <==> PiiRedact in d.obligations)
      && (req.piiHandling.DenyPii? <==> PiiDeny in d.obligations)
  }

  lemma RuleVerdictAgrees(n: Normalizer, card: Card, a: AppliesTo, rule: CardRule, k: nat)
    ensures Agree(RuleVerdict(card, rule), DecisionOf(CompileRule(n, card, a, rule, k)))
  {
  }

  /** A list of compiled rules fires exactly when the interpreter has a rule, and decides like it. */
  ghost predicate DecidesAsRule(w: World, card: Card, compiled: seq<Rule>, rule: Option<CardRule>, r: Request) {
    && (rule.None? <==> NoneFires(w, compiled, |compiled|, r))
    && (rule.Some? ==> Agree(RuleVerdict(card, rule.value), FirstMatch(w, compiled, r)))
  }

  lemma InScopeStage(w: World, n: Normalizer, card: Card, a: AppliesTo, rules: seq<CardRule>, compiled: seq<Rule>,
                     r: Request)
    requires CompiledFrom(n, card, a, rules, compiled, 100)
    requires MatchesRule(ScopeMatcher(a), r)
    ensures DecidesAsRule(w, card, compiled, FirstRule(w, n, rules, r), r)
  {
    CardRulesAgree(w, n, card, a, rules, compiled, 100, r);
    var rule := FirstRule(w, n, rules, r);
    if rule.Some? {
      var k: nat :| FirstMatch(w, compiled, r) == DecisionOf(CompileRule(n, card, a, rule.value, k));
      RuleVerdictAgrees(n, card, a, rule.value, k);
    }
  }

  lemma OutOfScopeStage(w: World, n: Normalizer, card: Card, a: AppliesTo, rules: seq<CardRule>, compiled: seq<Rule>,
                        r: Request)
    requires CompiledFrom(n, card, a, rules, compiled, 100)
    requires !MatchesRule(ScopeMatcher(a), r)
    ensures DecidesAsRule(w, card, compiled, None, r)
  {
    forall i | 0 <= i < |compiled| ensures !Fires(w, compiled[i], r) {
      assert compiled[i].matcher == ScopeMatcher(a);
    }
  }

  /** The compiled card rules fire exactly when the interpreter's rules would on a request they
      hear of, and decide like them. */
  lemma CardRuleStage(w: World, n: Normalizer, card: Card, ctx: Context) returns (v2: seq<Rule>)
    ensures v2 == CompileV2(n, card) && DecidesAsRule(w, card, v2, HeardRule(w, n, card, ctx), RequestOf(ctx))
  {
    v2 := CompileV2(n, card);
    if card.appliesTo.Some? && card.rules.Some? {
      var a := card.appliesTo.value;
      if MatchesRule(ScopeMatcher(a), RequestOf(ctx)) {
        InScopeStage(w, n, card, a, card.rules.value, v2, RequestOf(ctx));
      } else {
        OutOfScopeStage(w, n, card, a, card.rules.value, v2, RequestOf(ctx));
      }
    }
  }

  lemma FirstOfThree(w: World, x: Rule, y: Rule, z: Rule, r: Request)
    ensures FirstMatch(w, [x, y, z], r)
         == if Fires(w, x, r) then DecisionOf(x) else if Fires(w, y, r) then DecisionOf(y)
            else if Fires(w, z, r) then DecisionOf(z) else DEFAULT_DENY
  {
    assert [x, y, z][1..] == [y, z] && [y, z][1..] == [z] && [z][1..] == [];
    assert FirstMatch(w, [z], r) == if Fires(w, z, r) then DecisionOf(z) else FirstMatch(w, [], r);
    assert FirstMatch(w, [y, z], r) == if Fires(w, y, r) then DecisionOf(y) else FirstMatch(w, [z], r);
  }

  lemma SideEffectFires(w: World, card: Card, spec: Spec, e: SideEffect, q: nat, ctx: Context)
    ensures Fires(w, SideEffectRule(card, spec, e, q), RequestOf(ctx))
       <==> SomeGlob(spec.allowedTools, ctx.toolName) && e == ctx.sideEffect
  {
    var list := [SideEffectName(e)];
    assert SideEffectName(ctx.sideEffect) in list <==> SideEffectName(ctx.sideEffect) == SideEffectName(e);
    assert SideEffectName(ctx.sideEffect)[0] == SideEffectName(e)[0] <==> e == ctx.sideEffect;
  }

  lemma SideEffectStage(w: World, card: Card, spec: Spec, q: nat, ctx: Context)
    ensures !SomeGlob(spec.allowedTools, ctx.toolName) ==>
              FirstMatch(w, SideEffectRulesFrom(card, spec, q), RequestOf(ctx)) == DEFAULT_DENY
    ensures SomeGlob(spec.allowedTools, ctx.toolName) ==>
              exists k: nat :: FirstMatch(w, SideEffectRulesFrom(card, spec, q), RequestOf(ctx))
                               == DecisionOf(SideEffectRule(card, spec, ctx.sideEffect, k))
  {
    SideEffectFires(w, card, spec, Read, q, ctx);
    SideEffectFires(w, card, spec, Write, q + 1, ctx);
    SideEffectFires(w, card, spec, Submit, q + 2, ctx);
    FirstOfThree(w, SideEffectRule(card, spec, Read, q), SideEffectRule(card, spec, Write, q + 1),
                 SideEffectRule(card, spec, Submit, q + 2), RequestOf(ctx));
  }

  /** What the compiled spec decides: forbidden first, then the approval list, then the
      action of the side effect on an allowed tool. */
  predicate DecidesLike(card: Card, spec: Spec, ctx: Context, d: Decision) {
    if SomeGlob(spec.forbiddenTools, ctx.toolName) then d.effect.Deny?
    else if SomeGlob(spec.approvalRequirements, ctx.toolName) then
      d.effect.Allow? && d.obligations == PiiObligations(card) + [RequireApproval]
    else if !SomeGlob(spec.allowedTools, ctx.toolName) then d.effect.Deny?
    else SideEffectDecision(card, spec, ctx.sideEffect, d)
  }

  predicate SideEffectDecision(card: Card, spec: Spec, e: SideEffect, d: Decision) {
    if ActionFor(spec, e).ActDeny? then d.effect.Deny?
    else d.effect.Allow? && d.obligations == PiiObligations(card)
                                             + if ActionFor(spec, e).ActApproval? then [RequireApproval] else []
  }

  lemma SideEffectDecides(card: Card, spec: Spec, e: SideEffect, k: nat)
    ensures SideEffectDecision(card, spec, e, DecisionOf(SideEffectRule(card, spec, e, k)))
  {
  }

  lemma FirstOfStages(w: World, f: seq<Rule>, a: seq<Rule>, side: seq<Rule>, r: Request)
    ensures FirstMatch(w, (f + a) + side, r)
         == if !NoneFires(w, f, |f|, r) then FirstMatch(w, f, r)
            else if !NoneFires(w, a, |a|, r) then FirstMatch(w, a, r) else FirstMatch(w, side, r)
  {
    FirstMatchConcat(w, f + a, side, r);
    FirstMatchConcat(w, f, a, r);
    NoneFiresConcat(w, f, a, r);
  }

  /** The forbidden stage fires exactly on forbidden tools, and denies. */
  ghost predicate DeniesForbidden(w: World, spec: Spec, ctx: Context, f: seq<Rule>) {
    && (NoneFires(w, f, |f|, RequestOf(ctx)) <==> !SomeGlob(spec.forbiddenTools, ctx.toolName))
    && (SomeGlob(spec.forbiddenTools, ctx.toolName) ==> FirstMatch(w, f, RequestOf(ctx)).effect.Deny?)
  }

  /** The approval stage fires exactly on tools listed for approval, and asks for it. */
  ghost predicate AsksApproval(w: World, card: Card, spec: Spec, ctx: Context, a: seq<Rule>) {
    && (NoneFires(w, a, |a|, RequestOf(ctx)) <==> !SomeGlob(spec.approvalRequirements, ctx.toolName))
    && (SomeGlob(spec.approvalRequirements, ctx.toolName) ==>
          var d := FirstMatch(w, a, RequestOf(ctx));
          d.effect.Allow? && d.obligations == PiiObligations(card) + [RequireApproval])
  }

  /** The last stage decides on allowed tools by their side effect, and on no others. */
  ghost predicate DecidesAllowed(w: World, card: Card, spec: Spec, ctx: Context, side: seq<Rule>) {
    var d := FirstMatch(w, side, RequestOf(ctx));
    if SomeGlob(spec.allowedTools, ctx.toolName) then SideEffectDecision(card, spec, ctx.sideEffect, d)
    else d == DEFAULT_DENY
  }

  lemma SideEffectsDecide(w: World, card: Card, spec: Spec, q: nat, ctx: Context) returns (side: seq<Rule>)
    ensures side == SideEffectRulesFrom(card, spec, q) && DecidesAllowed(w, card, spec, ctx, side)
  {
    side := SideEffectRulesFrom(card, spec, q);
    SideEffectStage(w, card, spec, q, ctx);
    if SomeGlob(spec.allowedTools, ctx.toolName) {
      var k: nat :| FirstMatch(w, side, RequestOf(ctx)) == DecisionOf(SideEffectRule(card, spec, ctx.sideEffect, k));
      SideEffectDecides(card, spec, ctx.sideEffect, k);
    }
  }

  lemma ForbiddenStage(w: World, card: Card, spec: Spec, start: nat, ctx: Context) returns (f: seq<Rule>)
    ensures f == ForbiddenRule(card, spec, start) && DeniesForbidden(w, spec, ctx, f)
  {
    f := ForbiddenRule(card, spec, start);
    ListRuleFires(w, f, spec.forbiddenTools, RequestOf(ctx));
  }

  lemma ApprovalStage(w: World, card: Card, spec: Spec, start: nat, ctx: Context) returns (a: seq<Rule>)
    ensures a == ApprovalRule(card, spec, start) && AsksApproval(w, card, spec, ctx, a)
  {
    a := ApprovalRule(card, spec, start);
    ListRuleFires(w, a, spec.approvalRequirements, RequestOf(ctx));
  }

  /** Of three stages in a row the first that fires decides. */
  lemma StagesDecide(w: World, card: Card, spec: Spec, ctx: Context, f: seq<Rule>, a: seq<Rule>, side: seq<Rule>)
    requires DeniesForbidden(w, spec, ctx, f) && AsksApproval(w, card, spec, ctx, a)
             && DecidesAllowed(w, card, spec, ctx, side)
    ensures DecidesLike(card, spec, ctx, FirstMatch(w, f + a + side, RequestOf(ctx)))
  {
    FirstOfStages(w, f, a, side, RequestOf(ctx));
  }

  lemma SpecRules(card: Card, spec: Spec, start: nat, f: seq<Rule>, a: seq<Rule>, side: seq<Rule>)
    requires f == ForbiddenRule(card, spec, start) && a == ApprovalRule(card, spec, start + |f|)
    requires side == SideEffectRulesFrom(card, spec, start + |f| + |a|)
    ensures f + a + side == CompileSpec(card, spec, start)
  {
  }

  lemma SpecStage(w: World, card: Card, spec: Spec, start: nat, ctx: Context) returns (rules: seq<Rule>)
    ensures rules == CompileSpec(card, spec, start)
            && DecidesLike(card, spec, ctx, FirstMatch(w, rules, RequestOf(ctx)))
  {
    var f := ForbiddenStage(w, card, spec, start, ctx);
    var a := ApprovalStage(w, card, spec, start + |f|, ctx);
    var side := SideEffectsDecide(w, card, spec, start + |f| + |a|, ctx);
    StagesDecide(w, card, spec, ctx, f, a, side);
    SpecRules(card, spec, start, f, a, side);
    rules := f + a + side;
  }

  lemma NoneFiresConcat(w: World, f: seq<Rule>, a: seq<Rule>, r: Request)
    ensures NoneFires(w, f + a, |f + a|, r) <==> NoneFires(w, f, |f|, r) && NoneFires(w, a, |a|, r)
  {
    assert forall i :: 0 <= i < |f| ==> (f + a)[i] == f[i];
    assert forall i :: 0 <= i < |a| ==> (f + a)[|f| + i] == a[i];
  }

  lemma CompiledSpecAgrees(card: Card, spec: Spec, ctx: Context, d: Decision)
    requires card.spec == Some(spec) && DecidesLike(card, spec, ctx, d)
    ensures Agree(CompiledSpecVerdict(spec, ctx), d)
  {
  }

  /** A list rule that is present exactly for a non-empty list fires exactly on the tools that match. */
  lemma ListRuleFires(w: World, rules: seq<Rule>, list: seq<string>, r: Request)
    requires if list == [] then rules == []
             else |rules| == 1 && rules[0].matcher == ANY.(tools := Some(list)) && rules[0].conditions == []
    ensures NoneFires(w, rules, |rules|, r) <==> !SomeGlob(list, r.tool)
    ensures SomeGlob(list, r.tool) ==> FirstMatch(w, rules, r) == DecisionOf(rules[0])
  {
    if list != [] {
      assert Fires(w, rules[0], r) <==> SomeGlob(list, r.tool);
    }
  }

  /** The requests on which compiling keeps the card's meaning. */
  predicate Faithful(w: World, n: Normalizer, card: Card, ctx: Context) {
    || ApplicableRule(w, n, card, ctx).Some?
    || (card.spec.Some?
        && var spec := card.spec.value;
           || Listed(spec.forbiddenTools, ctx.toolName)
           || !Listed(spec.approvalRequirements, ctx.toolName)
           || (Listed(spec.allowedTools, ctx.toolName) && !ActionFor(spec, ctx.sideEffect).ActDeny?))
  }

  /** The compiled decision comes from the card rules' part, if one of them applies. */
  lemma CardRulesDecide(w: World, n: Normalizer, card: Card, ctx: Context)
    requires HeardRule(w, n, card, ctx).Some? || card.spec.None?
    ensures Agree(CompiledVerdict(w, n, card, ctx), EvaluatePolicies(w, Compile(n, card), RequestOf(ctx)))
  {
    var r := RequestOf(ctx);
    CompiledIsSorted(w, n, card, r);
    var v2 := CardRuleStage(w, n, card, ctx);
    if card.spec.Some? {
      FirstMatchConcat(w, v2, CompileSpec(card, card.spec.value, 100 + |v2|), r);
    } else if HeardRule(w, n, card, ctx).None? {
      FirstMatchNone(w, v2, r);
    }
  }

  lemma CompiledInParts(n: Normalizer, card: Card, v2: seq<Rule>, rest: seq<Rule>)
    requires card.spec.Some? && v2 == CompileV2(n, card) && rest == CompileSpec(card, card.spec.value, 100 + |v2|)
    ensures Compile(n, card) == v2 + rest
  {
  }

  lemma SecondPartDecides(w: World, compiled: seq<Rule>, v2: seq<Rule>, rest: seq<Rule>, r: Request)
    requires compiled == v2 + rest && NoneFires(w, v2, |v2|, r)
    ensures FirstMatch(w, compiled, r) == FirstMatch(w, rest, r)
  {
    FirstMatchConcat(w, v2, rest, r);
  }

  /** Otherwise it comes from the spec, if there is one. */
  lemma SpecDecides(w: World, n: Normalizer, card: Card, ctx: Context) returns (d: Decision)
    requires HeardRule(w, n, card, ctx).None? && card.spec.Some?
    ensures d == EvaluatePolicies(w, Compile(n, card), RequestOf(ctx)) && DecidesLike(card, card.spec.value, ctx, d)
  {
    var r := RequestOf(ctx);
    CompiledIsSorted(w, n, card, r);
    var v2 := CardRuleStage(w, n, card, ctx);
    var rest := SpecStage(w, card, card.spec.value, 100 + |v2|, ctx);
    CompiledInParts(n, card, v2, rest);
    SecondPartDecides(w, Compile(n, card), v2, rest, r);
    d := FirstMatch(w, rest, r);
  }

  /** The first-match evaluator on the compiled rules gives the compiled verdict, for every card and
      every request. */
  lemma CompiledVerdictHolds(w: World, n: Normalizer, card: Card, ctx: Context)
    ensures Agree(CompiledVerdict(w, n, card, ctx), EvaluatePolicies(w, Compile(n, card), RequestOf(ctx)))
  {
    if HeardRule(w, n, card, ctx).Some? || card.spec.None? {
      CardRulesDecide(w, n, card, ctx);
    } else {
      var d := SpecDecides(w, n, card, ctx);
      CompiledSpecAgrees(card, card.spec.value, ctx, d);
    }
  }

  /** A decision agrees with one verdict at most. */
  lemma AgreeDetermines(v: Verdict, v': Verdict, d: Decision)
    requires Agree(v, d) && Agree(v', d)
    ensures v == v'
  {
  }

  /** Compiling preserves the meaning of a card for a request - allow or deny, approval, PII
      handling - exactly when the interpreter's verdict is the compiled one. */
  lemma CompilePreservesMeaningExactly(w: World, n: Normalizer, card: Card, ctx: Context)
    ensures Agree(EvaluatePolicy(w, n, card, ctx), EvaluatePolicies(w, Compile(n, card), RequestOf(ctx)))
       <==> EvaluatePolicy(w, n, card, ctx) == CompiledVerdict(w, n, card, ctx)
  {
    var d := EvaluatePolicies(w, Compile(n, card), RequestOf(ctx));
    CompiledVerdictHolds(w, n, card, ctx);
    if Agree(EvaluatePolicy(w, n, card, ctx), d) {
      AgreeDetermines(EvaluatePolicy(w, n, card, ctx), CompiledVerdict(w, n, card, ctx), d);
    }
  }

  lemma HeardIsApplicable(w: World, n: Normalizer, card: Card, ctx: Context)
    requires InFragment(card) && NoLineBreaks(ctx.toolName) && RiskHeardBy(card, ctx)
    ensures HeardRule(w, n, card, ctx) == ApplicableRule(w, n, card, ctx)
  {
    if card.appliesTo.Some? { ScopeIsMatchExactly(card.appliesTo.value, ctx); }
  }

  lemma SpecVerdictsDiffer(spec: Spec, ctx: Context)
    requires AllNames(spec.allowedTools) && AllNames(spec.forbiddenTools) && AllNames(spec.approvalRequirements)
    ensures SpecVerdict(spec, ctx) == CompiledSpecVerdict(spec, ctx)
       <==> || Listed(spec.forbiddenTools, ctx.toolName)
            || !Listed(spec.approvalRequirements, ctx.toolName)
            || (Listed(spec.allowedTools, ctx.toolName) && !ActionFor(spec, ctx.sideEffect).ActDeny?)
  {
    NamesAreGlobs(spec.allowedTools, ctx.toolName);
    NamesAreGlobs(spec.forbiddenTools, ctx.toolName);
    NamesAreGlobs(spec.approvalRequirements, ctx.toolName);
  }

  /** For plain patterns and a risk level that makes no difference, that is: a card rule decides, or
      the card has a spec and the tool is forbidden, or not listed for approval, or allowed with a
      side effect that is not denied. */
  lemma FaithfulExactly(w: World, n: Normalizer, card: Card, ctx: Context)
    requires InFragment(card) && NoLineBreaks(ctx.toolName) && RiskHeardBy(card, ctx)
    ensures Agree(EvaluatePolicy(w, n, card, ctx), EvaluatePolicies(w, Compile(n, card), RequestOf(ctx)))
       <==> Faithful(w, n, card, ctx)
  {
    CompilePreservesMeaningExactly(w, n, card, ctx);
    HeardIsApplicable(w, n, card, ctx);
    if card.spec.Some? { SpecVerdictsDiffer(card.spec.value, ctx); }
  }

  /** A card for low risk denies what its spec allows. */
  function LowRiskCard(): Card {
    Card(None, None, Some(AppliesTo(["*"], Some(["low"]))), Some([CardRule(DenyIt, None)]),
         Some(Spec(["*"], [], [], None, AllowWithAudit)))
  }

  function UnratedRequest(): Context { Context("t", Read, None, None, None, None) }

  lemma UnnamedAllowed(w: World, n: Normalizer)
    ensures ApplicableRule(w, n, LowRiskCard(), UnratedRequest()).None?
    ensures !EvaluatePolicy(w, n, LowRiskCard(), UnratedRequest()).Denied?
    ensures Faithful(w, n, LowRiskCard(), UnratedRequest())
  {
    var ctx := UnratedRequest();
    assert !InScope(LowRiskCard().appliesTo.value, ctx);
    assert Listed(["*"], ctx.toolName) by { assert ["*"][0] == "*"; }
  }

  lemma UnnamedDenied(w: World, n: Normalizer)
    ensures EvaluatePolicies(w, Compile(n, LowRiskCard()), RequestOf(UnratedRequest())).effect.Deny?
  {
    var rules, r := Compile(n, LowRiskCard()), RequestOf(UnratedRequest());
    CompiledIsSorted(w, n, LowRiskCard(), r);
    assert GlobMatch(["*"][0], r.tool) && ["low"][0] in ["low"];
    assert Fires(w, rules[0], r);
  }

  lemma LowRiskCardInFragment()
    ensures InFragment(LowRiskCard())
  {
    assert "*"[..0] == "" && Simple("*");
  }

  /** The premise on risk levels is needed: a request that names none is out of the scope of a card
      for low risk, but the rules compiled from it fire. */
  lemma UnnamedRiskLevelMatters(w: World, n: Normalizer)
    ensures var card, ctx := LowRiskCard(), UnratedRequest();
            && InFragment(card) && NoLineBreaks(ctx.toolName) && Faithful(w, n, card, ctx)
            && !EvaluatePolicy(w, n, card, ctx).Denied?
            && EvaluatePolicies(w, Compile(n, card), RequestOf(ctx)).effect.Deny?
  {
    LowRiskCardInFragment();
    UnnamedAllowed(w, n);
    UnnamedDenied(w, n);
  }
}
