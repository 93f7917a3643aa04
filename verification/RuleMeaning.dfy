/** When a policy rule fires, by its own fields. */
module RuleMeaning {
  import opened Basics
  import opened PolicyEngine

  // ---------- Patterns ----------

  /** The line breaks are line feed, carriage return, line separator and paragraph separator. */
  lemma LineBreaksByCode(c: char)
    ensures LineBreak(c) <==> c as int in {0x0A, 0x0D, 0x2028, 0x2029}
  {
  }

  /** How a text is cut up by a pattern: literal characters stand for themselves, each star for a piece
      without line breaks. */
  ghost predicate Fits(pattern: string, target: string, pieces: seq<string>)
    decreases |pattern|
  {
    if pattern == "" then target == "" && pieces == []
    else if pattern[0] == '*' then
      pieces != [] && NoLineBreaks(pieces[0]) && pieces[0] <= target
      && Fits(pattern[1..], target[|pieces[0]|..], pieces[1..])
    else target != "" && target[0] == pattern[0] && Fits(pattern[1..], target[1..], pieces)
  }

  lemma {:induction false} FittingMatches(pattern: string, target: string, pieces: seq<string>)
    requires Fits(pattern, target, pieces)
    ensures RegexMatch(pattern, target)
    decreases |pattern| + |target|
  {
    if pattern != "" {
      if pattern[0] != '*' {
        FittingMatches(pattern[1..], target[1..], pieces);
      } else if pieces[0] == "" {
        FittingMatches(pattern[1..], target, pieces[1..]);
      } else {
        var shorter := [pieces[0][1..]] + pieces[1..];
        assert target[1..][|shorter[0]|..] == target[|pieces[0]|..];
        assert pieces[0] == target[..|pieces[0]|];
        FittingMatches(pattern, target[1..], shorter);
      }
    }
  }

  lemma {:induction false} MatchingFits(pattern: string, target: string) returns (pieces: seq<string>)
    requires RegexMatch(pattern, target)
    ensures Fits(pattern, target, pieces)
    decreases |pattern| + |target|
  {
    if pattern == "" {
      pieces := [];
    } else if pattern[0] != '*' {
      pieces := MatchingFits(pattern[1..], target[1..]);
    } else if RegexMatch(pattern[1..], target) {
      var rest := MatchingFits(pattern[1..], target);
      pieces := [""] + rest;
    } else {
      var rest := MatchingFits(pattern, target[1..]);
      pieces := [[target[0]] + rest[0]] + rest[1..];
      assert target == [target[0]] + target[1..];
      assert target[|pieces[0]|..] == target[1..][|rest[0]|..];
    }
  }

  ghost predicate CanBeCut(pattern: string, target: string) { exists pieces :: Fits(pattern, target, pieces) }

  lemma RegexExactly(pattern: string, target: string)
    ensures RegexMatch(pattern, target) <==> CanBeCut(pattern, target)
  {
    if RegexMatch(pattern, target) { var pieces := MatchingFits(pattern, target); }
    if CanBeCut(pattern, target) {
      var pieces :| Fits(pattern, target, pieces);
      FittingMatches(pattern, target, pieces);
    }
  }

  /** A pattern with stars matches exactly the texts that can be cut to fit it; one star alone matches
      everything and a literal itself. */
  lemma GlobExactly(pattern: string, target: string)
    ensures pattern == "*" ==> GlobMatch(pattern, target)
    ensures '*' !in pattern ==> (GlobMatch(pattern, target) <==> pattern == target)
    ensures '*' in pattern && pattern != "*" ==> (GlobMatch(pattern, target) <==> CanBeCut(pattern, target))
  {
    RegexExactly(pattern, target);
  }

  // ---------- Matchers and conditions ----------

  /** A matcher names nothing it does not check: an absent list admits all, a present one only what is
      on it; a request without a side effect is not held to the list of side effects. */
  lemma MatchesExactly(m: Matcher, r: Request)
    ensures MatchesRule(m, r)
       <==> && (forall tools :: m.tools == Some(tools) ==> exists p :: p in tools && GlobMatch(p, r.tool))
            && (forall agents :: m.agents == Some(agents) ==> r.agentId in agents)
            && (forall levels :: m.riskLevels == Some(levels) ==> r.riskLevel in levels)
            && (forall scopes :: m.scopes == Some(scopes) ==> forall scope :: scope in scopes ==> scope in r.scopes)
            && (forall effects, effect :: m.sideEffects == Some(effects) && r.sideEffect == Some(effect) && effect != ""
                                          ==> effect in effects)
  {
  }

  /** Two time windows that meet share out the hours between them: at each hour of the two together
      exactly one is open, and at every other hour none. */
  lemma WindowsTile(w: World, r: Request, a: int, b: int, c: int)
    requires a <= b <= c
    ensures var early, late := TimeWindow(Some(a), Some(b)), TimeWindow(Some(b), Some(c));
            && (a <= w.hour < c <==> MeetsCondition(w, early, r) != MeetsCondition(w, late, r))
            && (MeetsCondition(w, early, r) ==> w.hour < b) && (MeetsCondition(w, late, r) ==> b <= w.hour)
            && !(MeetsCondition(w, early, r) && MeetsCondition(w, late, r))
    ensures MeetsCondition(w, TimeWindow(Some(a), None), r) <==> a <= w.hour
    ensures MeetsCondition(w, TimeWindow(None, Some(b)), r) <==> w.hour < b
    ensures MeetsCondition(w, TimeWindow(None, None), r)
  {
  }

  /** The other conditions: a named environment holds of requests from it, a missing name of requests
      from none, a wrong one of no request; a token need only be there; custom conditions hold and
      unknown ones do not. */
  lemma ConditionsExactly(w: World, r: Request, name: string, params: string)
    ensures MeetsCondition(w, Environment(Named(name)), r) <==> r.environment == Some(name)
    ensures MeetsCondition(w, Environment(Missing), r) <==> r.environment == None
    ensures !MeetsCondition(w, Environment(NotAString), r)
    ensures MeetsCondition(w, ApprovalExists, r) <==> r.approvalToken != None
    ensures MeetsCondition(w, Expression(params), r) <==> w.expression(params, r)
    ensures MeetsCondition(w, Custom, r) && !MeetsCondition(w, Unknown, r)
  {
  }

  /** A rule fires exactly if its matcher matches and none of its conditions fails. */
  lemma FiresExactly(w: World, rule: Rule, r: Request)
    ensures Fires(w, rule, r)
       <==> MatchesRule(rule.matcher, r) && forall c :: c in rule.conditions ==> MeetsCondition(w, c, r)
  {
  }

  /** The decision carries the deciding rule with its effect and its obligations; with no rule at all
      everything is denied. */
  lemma DecisionCarriesRule(w: World, rule: Rule, r: Request)
    ensures var d := FirstMatch(w, [rule], r);
            if Fires(w, rule, r) then d == Decision(rule.effect, rule, rule.obligations)
            else d == Decision(Deny, Rule("DEFAULT_DENY", 9999, Deny, Matcher(None, None, None, None, None), [], []),
                               [])
  {
    assert FirstMatch(w, [rule][1..], r) == DEFAULT_DENY;
  }

  /** The tracing evaluator's conflict: the first rule to fire, and the first behind it that also fires
      with the other effect; the one that allows is named first. */
  lemma ClashExactly(w: World, sorted: seq<Rule>, i: int, j: int, r: Request)
    ensures Clash(w, sorted, i, j, r)
       <==> && 0 <= i < j < |sorted| && Fires(w, sorted[i], r) && (forall k :: 0 <= k < i ==> !Fires(w, sorted[k], r))
            && Fires(w, sorted[j], r) && sorted[j].effect != sorted[i].effect
            && forall k :: i < k < j ==> !Fires(w, sorted[k], r) || sorted[k].effect == sorted[i].effect
    ensures Clash(w, sorted, i, j, r) ==>
              var c := ConflictOf(sorted[i], sorted[j]);
              && c.allowRule.effect == Allow && c.denyRule.effect == Deny
              && {c.allowRule, c.denyRule} == {sorted[i], sorted[j]}
  {
  }
}
