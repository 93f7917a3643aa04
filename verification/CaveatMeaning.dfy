/** What an accepted macaroon says, field by field. */
module CaveatMeaning {
  import opened Basics
  import opened Macaroon
  import opened MacaroonTheorems

  /** A ceiling on the risk admits the levels up to it; a level that is not named, or not known, is
      taken for medium. */
  predicate Admits(ceiling: RiskLevel, level: Option<string>) {
    match ceiling
    case Low => level == Some("low")
    case Medium => level != Some("high") && level != Some("critical")
    case High => level != Some("critical")
    case Critical => true
  }

  /** The tool is listed by name, or it starts with what a listed pattern has before its final star. */
  predicate ListsTool(patterns: seq<string>, tool: string) {
    exists i :: 0 <= i < |patterns|
                && (patterns[i] == tool
                    || exists n :: 0 <= n <= |tool| && patterns[i] == tool[..n] + "*")
  }

  /** The caveat, field by field, allows the call. */
  ghost predicate Allows(c: Caveat, ctx: Context) {
    && (c.allowedTools.Some? ==> c.allowedTools.value == [] || ListsTool(c.allowedTools.value, ctx.toolName))
    && (c.maxRiskLevel.Some? ==> Admits(c.maxRiskLevel.value, ctx.riskLevel))
    && (c.allowedSideEffects.Some? ==> c.allowedSideEffects.value == [] || ctx.sideEffect in c.allowedSideEffects.value)
    && (c.expiresAt.Some? && c.expiresAt.value != "" ==>
          exists end :: ctx.parseDate(c.expiresAt.value) == Some(end) && ctx.now <= end)
    && (forall used, budget :: c.maxTokensBudget == Some(budget) && ctx.cumulativeTokensUsed == Some(used) ==>
          used <= budget)
  }

  lemma PatternByText(pattern: string, tool: string)
    ensures MatchesToolPattern(pattern, tool)
       <==> pattern == tool || exists n :: 0 <= n <= |tool| && pattern == tool[..n] + "*"
  {
    if MatchesToolPattern(pattern, tool) && pattern != tool {
      var n := |pattern| - 1;
      assert pattern == pattern[..n] + "*" && pattern[..n] == tool[..n];
    }
    if n :| 0 <= n <= |tool| && pattern == tool[..n] + "*" {
      assert pattern[|pattern| - 1] == '*' && pattern[..|pattern| - 1] == tool[..n];
    }
  }

  lemma SatisfiedMeansAllows(c: Caveat, ctx: Context)
    ensures Satisfied(c, ctx) <==> Allows(c, ctx)
  {
    if c.allowedTools.Some? {
      forall i | 0 <= i < |c.allowedTools.value|
        ensures MatchesToolPattern(c.allowedTools.value[i], ctx.toolName)
           <==> c.allowedTools.value[i] == ctx.toolName
                || exists n :: 0 <= n <= |ctx.toolName| && c.allowedTools.value[i] == ctx.toolName[..n] + "*"
      {
        PatternByText(c.allowedTools.value[i], ctx.toolName);
      }
    }
  }

  /** The last caveat that names a delegate names this one. */
  ghost predicate NamedLast(caveats: seq<Caveat>, delegate: string) {
    delegate != "" && exists k :: 0 <= k < |caveats| && caveats[k].delegateToAgentId == Some(delegate)
                                  && forall j :: k < j < |caveats| ==> caveats[j].delegateToAgentId in {None, Some("")}
  }

  lemma {:induction false} LastDelegateIsNamedLast(start: string, caveats: seq<Caveat>)
    ensures NamedLast(caveats, LastDelegate(start, caveats))
         || (LastDelegate(start, caveats) == start
             && forall j :: 0 <= j < |caveats| ==> caveats[j].delegateToAgentId in {None, Some("")})
  {
    if caveats != [] {
      var front, last := caveats[..|caveats| - 1], caveats[|caveats| - 1];
      LastDelegateIsNamedLast(start, front);
      if NonEmpty(last.delegateToAgentId) {
        assert caveats[|caveats| - 1].delegateToAgentId == Some(LastDelegate(start, caveats));
      } else if NamedLast(front, LastDelegate(start, front)) {
        var k :| 0 <= k < |front| && front[k].delegateToAgentId == Some(LastDelegate(start, front))
                 && forall j :: k < j < |front| ==> front[j].delegateToAgentId in {None, Some("")};
        assert caveats[k] == front[k];
      }
    }
  }

  lemma NamedLastIsUnique(caveats: seq<Caveat>, a: string, b: string)
    requires NamedLast(caveats, a) && NamedLast(caveats, b)
    ensures a == b
  {
  }

  lemma BoundDelegateExactly(m: Macaroon, delegate: string)
    requires HasRootBinding(m)
    ensures NamedLast(m.caveats, delegate) <==> delegate == BoundDelegate(m)
  {
    LastDelegateIsNamedLast(m.caveats[0].delegateToAgentId.value, m.caveats);
    if NamedLast(m.caveats, delegate) { NamedLastIsUnique(m.caveats, delegate, BoundDelegate(m)); }
  }

  /** The caller does not say who it is, says that it is anonymous, or is the delegate. */
  predicate MayCall(agentId: Option<string>, delegate: string) {
    agentId == None || agentId == Some("") || agentId == Some("anonymous") || agentId == Some(delegate)
  }

  /** A macaroon is accepted exactly if its first caveat names a delegate, its tag is the one chained
      from the secret, the delegate named last is in its header and may be the caller, and every
      caveat allows the call. */
  lemma AcceptedExactly(secret: string, m: Macaroon, ctx: Context)
    ensures Accepts(secret, m, ctx)
       <==> && m.caveats != [] && m.caveats[0].delegateToAgentId !in {None, Some("")}
            && m.signature == ChainAll(Root(secret, m.nonce, m.issuerAgentId, m.caveats[0].delegateToAgentId.value,
                                            m.issuedAt), m.caveats)
            && NamedLast(m.caveats, m.delegateAgentId) && MayCall(ctx.agentId, m.delegateAgentId)
            && forall i :: 0 <= i < |m.caveats| ==> Allows(m.caveats[i], ctx)
  {
    AcceptsMeaning(secret, m, ctx);
    if HasRootBinding(m) { BoundDelegateExactly(m, m.delegateAgentId); }
    forall i | 0 <= i < |m.caveats| ensures Satisfied(m.caveats[i], ctx) <==> Allows(m.caveats[i], ctx) {
      SatisfiedMeansAllows(m.caveats[i], ctx);
    }
  }

  lemma {:induction false} FirstViolatedIsFirst(caveats: seq<Caveat>, ctx: Context, i: nat)
    requires i <= |caveats| && FirstViolated(caveats, ctx, i).Some?
    ensures var k := FirstViolated(caveats, ctx, i).value;
            i <= k < |caveats| && !Allows(caveats[k], ctx) && forall j :: i <= j < k ==> Allows(caveats[j], ctx)
    decreases |caveats| - i
  {
    SatisfiedMeansAllows(caveats[i], ctx);
    if Satisfied(caveats[i], ctx) { FirstViolatedIsFirst(caveats, ctx, i + 1); }
  }

  /** The answer: an accepted macaroon names its issuer, its last delegate and all its caveats; a caveat
      is blamed exactly if it is the first that does not allow the call, and counted with those before. */
  lemma AnswersExactly(secret: string, m: Macaroon, ctx: Context)
    ensures match Verify(secret, m, ctx)
            case Valid(issuer, delegate, n) =>
              issuer == m.issuerAgentId && NamedLast(m.caveats, delegate) && n == |m.caveats|
            case Invalid(MissingRootBinding, n) =>
              n == 0 && (m.caveats == [] || m.caveats[0].delegateToAgentId in {None, Some("")})
            case Invalid(BadSignature, n) =>
              n == 0 && m.caveats != []
              && m.signature != ChainAll(Root(secret, m.nonce, m.issuerAgentId,
                                              Or(m.caveats[0].delegateToAgentId, ""), m.issuedAt), m.caveats)
            case Invalid(HeaderMismatch, n) => n == 0 && !NamedLast(m.caveats, m.delegateAgentId)
            case Invalid(WrongCaller, n) => n == 0 && !MayCall(ctx.agentId, m.delegateAgentId)
            case Invalid(CaveatViolated(k), n) =>
              n == k + 1 <= |m.caveats| && !Allows(m.caveats[k], ctx)
              && forall j :: 0 <= j < k ==> Allows(m.caveats[j], ctx)
  {
    if HasRootBinding(m) {
      BoundDelegateExactly(m, m.delegateAgentId);
      BoundDelegateExactly(m, BoundDelegate(m));
      if FirstViolated(m.caveats, ctx, 0).Some? { FirstViolatedIsFirst(m.caveats, ctx, 0); }
    }
  }

  /** A minted macaroon is accepted exactly if it was minted for someone, the delegate that its initial
      caveats name last, or else the one it was minted for, may be the caller, and the initial caveats
      allow the call. */
  lemma MintAcceptedExactly(secret: string, o: MintOptions, ctx: Context)
    ensures var m := Mint(secret, o);
            && (Accepts(secret, m, ctx) <==>
                  && o.delegateAgentId != "" && MayCall(ctx.agentId, m.delegateAgentId)
                  && forall i :: 0 <= i < |o.initialCaveats| ==> Allows(o.initialCaveats[i], ctx))
            && (NamedLast(o.initialCaveats, m.delegateAgentId)
                || (m.delegateAgentId == o.delegateAgentId
                    && forall j :: 0 <= j < |o.initialCaveats| ==>
                         o.initialCaveats[j].delegateToAgentId in {None, Some("")}))
  {
    var m := Mint(secret, o);
    AcceptedExactly(secret, m, ctx);
    LastDelegateIsNamedLast(o.delegateAgentId, m.caveats);
    assert m.caveats[0].delegateToAgentId == Some(o.delegateAgentId) && Allows(m.caveats[0], ctx);
    assert forall i :: 0 <= i < |o.initialCaveats| ==> m.caveats[i + 1] == o.initialCaveats[i];
    assert (forall i :: 0 <= i < |m.caveats| ==> Allows(m.caveats[i], ctx)) <==>
           forall i :: 0 <= i < |o.initialCaveats| ==> Allows(o.initialCaveats[i], ctx);
    NamedBehind(m.caveats, m.delegateAgentId, o);
  }

  lemma NamedBehind(caveats: seq<Caveat>, delegate: string, o: MintOptions)
    requires |caveats| == |o.initialCaveats| + 1 && caveats[1..] == o.initialCaveats
    requires caveats[0].delegateToAgentId == Some(o.delegateAgentId)
    ensures NamedLast(caveats, delegate) ==>
              NamedLast(o.initialCaveats, delegate)
              || (delegate == o.delegateAgentId
                  && forall j :: 0 <= j < |o.initialCaveats| ==>
                       o.initialCaveats[j].delegateToAgentId in {None, Some("")})
  {
    if NamedLast(caveats, delegate) {
      var k :| 0 <= k < |caveats| && caveats[k].delegateToAgentId == Some(delegate)
               && forall j :: k < j < |caveats| ==> caveats[j].delegateToAgentId in {None, Some("")};
      forall j | k <= j < |o.initialCaveats| ensures o.initialCaveats[j].delegateToAgentId in {None, Some("")} {
        assert o.initialCaveats[j] == caveats[j + 1];
      }
      if k > 0 { assert o.initialCaveats[k - 1].delegateToAgentId == Some(delegate); }
    }
  }
}
