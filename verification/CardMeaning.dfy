/** What a card says, by its own fields. */
module CardMeaning {
  // Interpreter and compiled rules are compared elsewhere; here each is held against the text of the
  // card: its lists, its actions for side effects, its handling of personal data and its conditions.

  import opened Basics
  import opened PolicyEngine
  import opened PolicyCompiler

  // ---------- The spec ----------

  /** The verdict on a tool that the spec allows, asks no approval for by name, and rules on by the
      side effect alone. */
  predicate ActsAs(v: Verdict, action: Action, pii: PiiHandling) {
    match action
    case ActDeny => v == Denied
    case ActApproval => v == Allowed(Some(Requirements(true, pii)))
    case ActAllow => v == Allowed(Some(Requirements(false, pii)))
    case ActAudit => v == Allowed(Some(Requirements(false, pii)))
  }

  /** The same on the decision of compiled rules. */
  predicate DecidesAs(d: Decision, action: Action, pii: PiiHandling) {
    && (d.effect == Deny <==> action == ActDeny)
    && (d.effect == Allow ==>
          && (RequireApproval in d.obligations <==> action == ActApproval)
          && (PiiRedact in d.obligations <==> pii == RedactPii)
          && (PiiDeny in d.obligations <==> pii == DenyPii))
  }

  predicate InList(list: seq<string>, tool: string) {
    exists i :: 0 <= i < |list| && (list[i] == "*" || list[i] == tool)
  }

  lemma ListedIsInList(list: seq<string>, tool: string)
    ensures Listed(list, tool) <==> InList(list, tool)
  {
  }

  /** Where no card rule decides, the interpreter refuses forbidden tools, then tools that are not
      allowed; read, write and submit are treated as the spec's actions for them say, and where it has
      none reading is allowed and the others need approval; a tool listed for approval needs it. */
  lemma InterpretedSpec(w: World, n: Normalizer, card: Card, ctx: Context, spec: Spec)
    requires ApplicableRule(w, n, card, ctx).None? && card.spec == Some(spec)
    ensures var v := EvaluatePolicy(w, n, card, ctx);
            if InList(spec.forbiddenTools, ctx.toolName) || !InList(spec.allowedTools, ctx.toolName) then v == Denied
            else if InList(spec.approvalRequirements, ctx.toolName) then
              match spec.sideEffectRules
              case Some(rules) =>
                if (ctx.sideEffect.Read? && rules.read.ActDeny?) || (ctx.sideEffect.Write? && rules.write.ActDeny?)
                   || (ctx.sideEffect.Submit? && rules.submit.ActDeny?)
                then v == Denied else v == Allowed(Some(Requirements(true, spec.piiHandling)))
              case None => v == Allowed(Some(Requirements(true, spec.piiHandling)))
            else
              match spec.sideEffectRules
              case Some(rules) =>
                && (ctx.sideEffect.Read? ==> ActsAs(v, rules.read, spec.piiHandling))
                && (ctx.sideEffect.Write? ==> ActsAs(v, rules.write, spec.piiHandling))
                && (ctx.sideEffect.Submit? ==> ActsAs(v, rules.submit, spec.piiHandling))
              case None =>
                v == Allowed(Some(Requirements(!ctx.sideEffect.Read?, spec.piiHandling)))
  {
    ListedIsInList(spec.forbiddenTools, ctx.toolName);
    ListedIsInList(spec.allowedTools, ctx.toolName);
    ListedIsInList(spec.approvalRequirements, ctx.toolName);
  }

  lemma SpecDecision(w: World, n: Normalizer, card: Card, ctx: Context, spec: Spec) returns (d: Decision)
    requires HeardRule(w, n, card, ctx).None? && card.spec == Some(spec)
    ensures d == EvaluatePolicies(w, Compile(n, card), RequestOf(ctx))
    ensures Agree(CompiledSpecVerdict(spec, ctx), d)
  {
    d := EvaluatePolicies(w, Compile(n, card), RequestOf(ctx));
    CompiledVerdictHolds(w, n, card, ctx);
  }

  /** So do the compiled rules, reading the lists as patterns and asking approval for a listed tool
      whatever else the spec says. */
  lemma CompiledSpec(w: World, n: Normalizer, card: Card, ctx: Context, spec: Spec)
    requires HeardRule(w, n, card, ctx).None? && card.spec == Some(spec)
    ensures var d := EvaluatePolicies(w, Compile(n, card), RequestOf(ctx));
            if SomeGlob(spec.forbiddenTools, ctx.toolName) then d.effect == Deny
            else if SomeGlob(spec.approvalRequirements, ctx.toolName) then DecidesAs(d, ActApproval, spec.piiHandling)
            else if !SomeGlob(spec.allowedTools, ctx.toolName) then d.effect == Deny
            else
              match spec.sideEffectRules
              case Some(rules) =>
                && (ctx.sideEffect.Read? ==> DecidesAs(d, rules.read, spec.piiHandling))
                && (ctx.sideEffect.Write? ==> DecidesAs(d, rules.write, spec.piiHandling))
                && (ctx.sideEffect.Submit? ==> DecidesAs(d, rules.submit, spec.piiHandling))
              case None =>
                DecidesAs(d, if ctx.sideEffect.Read? then ActAllow else ActApproval, spec.piiHandling)
  {
    var d := SpecDecision(w, n, card, ctx, spec);
  }

  // ---------- The card rules ----------

  /** The request that a context stands for: what it leaves open is anonymous, of low risk, without
      scopes. */
  predicate StandsFor(r: Request, ctx: Context) {
    && r.tool == ctx.toolName && r.scopes == [] && r.approvalToken == ctx.approvalToken
    && r.environment == ctx.environment
    && (ctx.agentId.Some? && ctx.agentId.value != "" ==> r.agentId == ctx.agentId.value)
    && (ctx.agentId in {None, Some("")} ==> r.agentId == "anonymous")
    && (ctx.riskLevel.Some? && ctx.riskLevel.value != "" ==> r.riskLevel == ctx.riskLevel.value)
    && (ctx.riskLevel in {None, Some("")} ==> r.riskLevel == "low")
    && (ctx.sideEffect.Read? ==> r.sideEffect == Some("read"))
    && (ctx.sideEffect.Write? ==> r.sideEffect == Some("write"))
    && (ctx.sideEffect.Submit? ==> r.sideEffect == Some("submit"))
  }

  lemma RequestStandsFor(ctx: Context)
    ensures StandsFor(RequestOf(ctx), ctx)
  {
  }

  /** The rule's condition, if it has one, reads as conditions that hold of the request. */
  predicate RuleHolds(w: World, n: Normalizer, rule: CardRule, r: Request) {
    rule.condition in {None, Some("")} || MeetsConditions(w, n(Or(rule.condition, "")), r)
  }

  /** Rule k is the first of these whose condition holds. */
  ghost predicate FirstToHold(w: World, n: Normalizer, rules: seq<CardRule>, r: Request, k: nat) {
    k < |rules| && RuleHolds(w, n, rules[k], r) && forall i :: 0 <= i < k ==> !RuleHolds(w, n, rules[i], r)
  }

  lemma {:induction false} FirstRuleIsFirst(w: World, n: Normalizer, rules: seq<CardRule>, r: Request, k: nat)
    requires FirstToHold(w, n, rules, r, k)
    ensures FirstRule(w, n, rules, r) == Some(rules[k])
  {
    assert MeetsConditions(w, ConditionsOf(n, rules[0]), r) <==> RuleHolds(w, n, rules[0], r);
    if k > 0 {
      assert forall i :: 0 <= i < k - 1 ==> rules[1..][i] == rules[i + 1];
      FirstRuleIsFirst(w, n, rules[1..], r, k - 1);
    }
  }

  /** The tool is one of the card's capabilities: any, by name, or by what comes before a final star. */
  predicate InCapabilities(capabilities: seq<string>, tool: string) {
    exists i :: 0 <= i < |capabilities|
                && var cap := capabilities[i];
                   cap == "*" || cap == tool
                   || (cap != "" && cap[|cap| - 1] == '*' && WithoutFirstStar(cap) <= tool)
  }

  predicate HandlesAs(v: Verdict, effect: CardEffect, pii: PiiHandling) {
    match effect
    case DenyIt => v == Denied
    case AllowIt => v == Allowed(Some(Requirements(false, pii)))
    case RequireApprovalFor => v == Allowed(Some(Requirements(true, pii)))
  }

  /** A card without a spec denies personal data. */
  predicate HandlesPii(card: Card, pii: PiiHandling) {
    if card.spec.Some? then pii == card.spec.value.piiHandling else pii == DenyPii
  }

  /** For a tool among the card's capabilities, at a risk level the card names if it names any, the first
      rule whose condition holds decides as its effect says. */
  lemma InterpretedRule(w: World, n: Normalizer, card: Card, ctx: Context, a: AppliesTo, rules: seq<CardRule>,
                        k: nat, pii: PiiHandling)
    requires card.appliesTo == Some(a) && card.rules == Some(rules) && HandlesPii(card, pii)
    requires InCapabilities(a.capabilities, ctx.toolName)
    requires a.riskLevels.Some? ==> ctx.riskLevel.Some? && ctx.riskLevel.value in a.riskLevels.value
    requires FirstToHold(w, n, rules, RequestOf(ctx), k)
    ensures HandlesAs(EvaluatePolicy(w, n, card, ctx), rules[k].effect, pii)
  {
    FirstRuleIsFirst(w, n, rules, RequestOf(ctx), k);
    assert SomeCapability(a, ctx.toolName);
  }

  /** The compiled rules decide as the first such rule says for a tool that matches a capability as a
      pattern, at a risk level the card names if it names any. */
  lemma CompiledCardRule(w: World, n: Normalizer, card: Card, ctx: Context, a: AppliesTo, rules: seq<CardRule>,
                         k: nat, pii: PiiHandling)
    requires card.appliesTo == Some(a) && card.rules == Some(rules) && HandlesPii(card, pii)
    requires SomeGlob(a.capabilities, ctx.toolName)
    requires a.riskLevels.Some? ==> RequestOf(ctx).riskLevel in a.riskLevels.value
    requires FirstToHold(w, n, rules, RequestOf(ctx), k)
    ensures var d := EvaluatePolicies(w, Compile(n, card), RequestOf(ctx));
            match rules[k].effect
            case DenyIt => d.effect == Deny
            case AllowIt => d.effect == Allow && DecidesAs(d, ActAllow, pii)
            case RequireApprovalFor => d.effect == Allow && DecidesAs(d, ActApproval, pii)
  {
    FirstRuleIsFirst(w, n, rules, RequestOf(ctx), k);
    assert HeardRule(w, n, card, ctx) == Some(rules[k]);
    CompiledVerdictHolds(w, n, card, ctx);
  }

  /** A card without a spec allows, where no rule decides, without any requirement; its compiled rules
      deny. */
  lemma WithoutSpec(w: World, n: Normalizer, card: Card, ctx: Context)
    requires card.spec.None?
    ensures ApplicableRule(w, n, card, ctx).None? ==> EvaluatePolicy(w, n, card, ctx) == Allowed(None)
    ensures HeardRule(w, n, card, ctx).None? ==>
              EvaluatePolicies(w, Compile(n, card), RequestOf(ctx)).effect == Deny
  {
    CompiledVerdictHolds(w, n, card, ctx);
  }
}
