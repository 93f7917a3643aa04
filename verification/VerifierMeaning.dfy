/** What the finite-state verifier looks at and reports, by name. */
module VerifierMeaning {
  import opened Basics
  import opened PolicyEngine
  import opened PolicyVerifier

  // ---------- The invariants ----------

  /** Allowed outright: no approval is asked for and the request brings no token to speak of. */
  predicate LetsThrough(r: Request, d: Decision) {
    d.effect == Allow && RequireApproval !in d.obligations && r.approvalToken in {None, Some("")}
  }

  /** The default invariants by their names: critical requests, submissions, and high or critical writes
      in production are not let through. */
  lemma DefaultInvariantsSay(r: Request, d: Decision)
    ensures var invariants := DefaultInvariants();
            && |invariants| == 3
            && invariants[0].id == "NO_UNAPPROVED_CRITICAL_EXECUTION"
            && (invariants[0].holds(r, d) <==> !(r.riskLevel == "critical" && LetsThrough(r, d)))
            && invariants[1].id == "NO_UNAPPROVED_EXTERNAL_SUBMIT"
            && (invariants[1].holds(r, d) <==> !(r.sideEffect == Some("submit") && LetsThrough(r, d)))
            && invariants[2].id == "PRODUCTION_HIGH_RISK_WRITE_GUARDED"
            && (invariants[2].holds(r, d) <==>
                  !(r.environment == Some("production") && r.sideEffect == Some("write")
                    && r.riskLevel in {"high", "critical"} && LetsThrough(r, d)))
            && (AllThree(r, d) <==> forall k :: 0 <= k < 3 ==> invariants[k].holds(r, d))
  {
    var invariants := DefaultInvariants();
    assert invariants[0].holds == NoUnapprovedCritical && invariants[1].holds == NoUnapprovedSubmit
           && invariants[2].holds == ProductionWriteGuarded;
    assert LetsThrough(r, d) <==> Unguarded(r, d);
  }

  // ---------- The space ----------

  /** One of the rule's tool patterns, with its stars replaced by samples. */
  ghost predicate Contributes(rule: Rule, t: string) {
    exists p :: p in Or(rule.matcher.tools, []) && p != "*" && t == SampleOf(p)
  }

  /** The tools of the space: four defaults, and for every pattern but the lone star the pattern with
      each star replaced by a sample; the agents and environments: the defaults and those that rules
      name; and no scopes. */
  lemma SpaceByName(rules: seq<Rule>, s: Request)
    ensures InSpace(rules, s)
       <==> && (s.tool in {"read_document", "write_record", "submit_external", "unlisted_admin_tool"}
                || exists rule :: rule in rules && Contributes(rule, s.tool))
            && (s.agentId == "agent-default"
                || exists rule :: rule in rules && s.agentId in Or(rule.matcher.agents, []))
            && s.riskLevel in {"low", "medium", "high", "critical"} && s.scopes == []
            && (s.approvalToken == None || s.approvalToken == Some("tok_verified_formal"))
            && (s.environment in {Some("development"), Some("production")}
                || exists rule, name :: rule in rules && Environment(Named(name)) in rule.conditions
                                        && s.environment == Some(name))
            && s.sideEffect in {Some("read"), Some("write"), Some("submit")}
  {
    ToolsByName(rules, s.tool);
    AgentsByName(rules, s.agentId);
    if s.environment.Some? { EnvironmentsByName(rules, s.environment.value); }
    assert forall x :: x in RISK_LEVELS <==> x in {"low", "medium", "high", "critical"};
    assert forall x :: x in SIDE_EFFECTS <==> x in {"read", "write", "submit"};
  }

  lemma ToolsByName(rules: seq<Rule>, t: string)
    ensures InTools(rules, t)
       <==> t in {"read_document", "write_record", "submit_external", "unlisted_admin_tool"}
            || exists rule :: rule in rules && Contributes(rule, t)
  {
    assert t in DEFAULT_TOOLS <==> t in {"read_document", "write_record", "submit_external", "unlisted_admin_tool"};
    forall rule ensures NamesTool(rule, t) <==> Contributes(rule, t) { ContributesExactly(rule, t); }
  }

  lemma ContributesExactly(rule: Rule, t: string)
    ensures NamesTool(rule, t) <==> Contributes(rule, t)
  {
    if NamesTool(rule, t) {
      var p :| p in rule.matcher.tools.value && p != "*" && SampleOf(p) == t;
      assert p in Or(rule.matcher.tools, []);
    }
  }

  lemma AgentsByName(rules: seq<Rule>, a: string)
    ensures InAgents(rules, a)
       <==> a == "agent-default" || exists rule :: rule in rules && a in Or(rule.matcher.agents, [])
  {
    if rule :| rule in rules && NamesAgent(rule, a) { assert a in Or(rule.matcher.agents, []); }
    if rule :| rule in rules && a in Or(rule.matcher.agents, []) { assert NamesAgent(rule, a); }
  }

  lemma EnvironmentsByName(rules: seq<Rule>, e: string)
    ensures InEnvironments(rules, e)
       <==> e in {"development", "production"}
            || exists rule :: rule in rules && Environment(Named(e)) in rule.conditions
  {
    if rule :| rule in rules && NamesEnvironment(rule, e) { assert Environment(Named(e)) in rule.conditions; }
    if rule :| rule in rules && Environment(Named(e)) in rule.conditions { assert NamesEnvironment(rule, e); }
  }

  /** A sample is the pattern with "sample" for every star, and the pattern matches it. */
  lemma {:induction false} SampleFits(pattern: string)
    ensures RegexMatch(pattern, SampleOf(pattern))
    ensures '*' !in SampleOf(pattern)
  {
    if pattern != "" {
      SampleFits(pattern[1..]);
      var rest := SampleOf(pattern[1..]);
      if pattern[0] == '*' {
        StarTakes("sample", pattern, rest);
      } else {
        assert SampleOf(pattern)[1..] == rest;
      }
    }
  }

  lemma {:induction false} StarTakes(piece: string, pattern: string, rest: string)
    requires pattern != "" && pattern[0] == '*' && NoLineBreaks(piece) && RegexMatch(pattern[1..], rest)
    ensures RegexMatch(pattern, piece + rest)
  {
    if piece == "" {
      assert piece + rest == rest;
    } else {
      StarTakes(piece[1..], pattern, rest);
      assert (piece + rest)[1..] == piece[1..] + rest;
    }
  }

  lemma {:induction false} SampleReplaces(p: string, q: string)
    ensures SampleOf(p + "*" + q) == SampleOf(p) + "sample" + SampleOf(q)
    ensures '*' !in p ==> SampleOf(p) == p
  {
    if p == "" {
      assert (p + "*" + q)[1..] == q;
    } else {
      assert (p + "*" + q)[1..] == p[1..] + "*" + q;
      SampleReplaces(p[1..], q);
      assert p == [p[0]] + p[1..];
    }
  }

  // ---------- The reports ----------

  /** The count of an invariant is the number of its counterexamples. */
  lemma {:induction false} CountsPositions(cs: seq<Counterexample>, id: string)
    ensures CountOf(cs, id) == |set k | 0 <= k < |cs| && cs[k].invariantId == id|
  {
    if cs != [] {
      CountsPositions(cs[..|cs| - 1], id);
      PositionsGrow(cs, id);
    }
  }

  lemma PositionsGrow(cs: seq<Counterexample>, id: string)
    requires cs != []
    ensures var front, n := cs[..|cs| - 1], |cs| - 1;
            |set k | 0 <= k < |cs| && cs[k].invariantId == id|
            == |set k | 0 <= k < |front| && front[k].invariantId == id| + if cs[n].invariantId == id then 1 else 0
  {
    var front, n := cs[..|cs| - 1], |cs| - 1;
    var before := set k | 0 <= k < |front| && front[k].invariantId == id;
    var all := set k | 0 <= k < |cs| && cs[k].invariantId == id;
    assert n !in before;
    assert all == if cs[n].invariantId == id then before + {n} else before;
  }

  /** Two decisions count as one outcome exactly if both allow or both deny and they carry every
      obligation equally often. */
  lemma SameOutcomeExactly(a: Decision, b: Decision)
    ensures SameOutcome(a, b)
       <==> (a.effect == Allow <==> b.effect == Allow)
            && forall o :: multiset(a.obligations)[o] == multiset(b.obligations)[o]
  {
  }
}
