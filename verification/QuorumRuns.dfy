/** Quorum safety, read off the calls of a run. */
module QuorumRuns {
  // The network of replicas keeps books: requests issued, ballots, consumes. Here every entry is
  // traced back to the call that made it, so that safety speaks of what callers passed and when.

  import opened Basics
  import opened QuorumStore
  import opened QuorumNetwork
  import C = QuorumConvergence

  /** Call g of the run asked for this token. */
  ghost predicate AsksFor(actions: seq<Action>, g: nat, token: string) {
    g < |actions| && actions[g].Do? && actions[g].op.Generate? && actions[g].op.token == token
  }

  /** The people who called approveToken for this token. */
  ghost function Callers(actions: seq<Action>, token: string): set<string> {
    set a | a in actions && a.Do? && a.op.CastVote? && a.op.token == token :: a.op.actor
  }

  /** The book entry repeats what call g passed. */
  ghost predicate Repeats(config: Config, q: Request, a: Action)
    requires a.Do? && a.op.Generate?
  {
    && a.at in config
    && q.token == a.op.token && q.requestId == a.op.requestId && q.capabilityId == a.op.capabilityId
    && q.payloadHash == a.op.payloadHash && q.riskLevel == a.op.riskLevel
    && q.sideEffectLevel == a.op.sideEffectLevel && q.requestedBy == a.op.requestedBy && q.createdAt == a.op.now
    && q.expiresAt == a.op.now + (if a.op.ttlMs.Some? then a.op.ttlMs.value else config[a.at].defaultTtlMs)
    && q.requiredApprovals == VotesAsked(config[a.at], a.op.riskLevel)
  }

  lemma RunStep(config: Config, actions: seq<Action>)
    requires Run(config, actions).Some? && actions != []
    ensures var front, a := actions[..|actions| - 1], actions[|actions| - 1];
            && Run(config, front).Some? && Enabled(config, Run(config, front).value, a)
            && Run(config, actions).value == Next(config, Run(config, front).value, a)
  {
  }

  /** Every issued request repeats the arguments of the call that asked for it. */
  lemma {:induction false} IssuedAsAsked(config: Config, actions: seq<Action>, token: string) returns (g: nat)
    requires Run(config, actions).Some? && token in Run(config, actions).value.issued
    ensures AsksFor(actions, g, token) && Repeats(config, Run(config, actions).value.issued[token], actions[g])
  {
    if actions == [] {
      assert false;
    } else {
      var front, a := actions[..|actions| - 1], actions[|actions| - 1];
      RunStep(config, actions);
      if a.Do? && a.op.Generate? && a.op.token == token {
        g := |actions| - 1;
      } else {
        g := IssuedAsAsked(config, front, token);
      }
    }
  }

  /** Every ballot was cast by a call of approveToken, by that person and at that time. */
  lemma {:induction false} BallotsWereCast(config: Config, actions: seq<Action>, b: Ballot)
    requires Run(config, actions).Some? && b in Run(config, actions).value.ballots
    ensures exists a :: a in actions && a.Do? && a.op == CastVote(b.token, b.approverId, b.at)
  {
    if actions != [] {
      var front, a := actions[..|actions| - 1], actions[|actions| - 1];
      assert actions == front + [a];
      RunStep(config, actions);
      if b in Run(config, front).value.ballots {
        BallotsWereCast(config, front, b);
        var c :| c in front && c.Do? && c.op == CastVote(b.token, b.approverId, b.at);
        assert c in actions;
      } else {
        assert a in actions;
      }
    }
  }

  lemma SupportersCalled(config: Config, actions: seq<Action>, token: string)
    requires Run(config, actions).Some?
    ensures Supporters(Run(config, actions).value.ballots, token) <= Callers(actions, token)
  {
    forall b | b in Run(config, actions).value.ballots && b.token == token
      ensures b.approverId in Callers(actions, token)
    {
      BallotsWereCast(config, actions, b);
      var a :| a in actions && a.Do? && a.op == CastVote(b.token, b.approverId, b.at);
    }
  }

  /** Enough people called approveToken for the token, and enough besides the one who asked for it if
      no replica allows self-approval. */
  ghost predicate Backing(config: Config, actions: seq<Action>, a: Action)
    requires a.Do? && a.op.Generate? && a.at in config
  {
    var people := Callers(actions, a.op.token);
    && |people| >= VotesAsked(config[a.at], a.op.riskLevel) >= 1
    && (NoSelfApproval(config) ==> |people - {a.op.requestedBy}| >= VotesAsked(config[a.at], a.op.riskLevel))
  }

  lemma QuorumIsBacking(config: Config, actions: seq<Action>, token: string) returns (g: nat)
    requires Run(config, actions).Some? && token in Run(config, actions).value.issued
    requires HasQuorum(config, Run(config, actions).value, token)
    ensures AsksFor(actions, g, token) && Repeats(config, Run(config, actions).value.issued[token], actions[g])
    ensures Backing(config, actions, actions[g])
  {
    var net := Run(config, actions).value;
    g := IssuedAsAsked(config, actions, token);
    SupportersCalled(config, actions, token);
    var supporters, people := Supporters(net.ballots, token), Callers(actions, token);
    C.SubsetSmaller(supporters, people);
    if NoSelfApproval(config) {
      assert supporters <= people - {actions[g].op.requestedBy};
      C.SubsetSmaller(supporters, people - {actions[g].op.requestedBy});
    }
  }

  /** Call k of the run is a consume that succeeds. */
  ghost predicate Consumes(config: Config, actions: seq<Action>, k: nat) {
    && k < |actions| && actions[k].Do? && actions[k].op.Use? && Run(config, actions[..k]).Some?
    && Enabled(config, Run(config, actions[..k]).value, actions[k])
    && Perform(config[actions[k].at], Run(config, actions[..k]).value.stores[actions[k].at], actions[k].op).1
  }

  lemma ConsumeWasGood(config: Config, actions: seq<Action>, k: nat) returns (rec: Record)
    requires Consumes(config, actions, k)
    ensures var net, op := Run(config, actions[..k]).value, actions[k].op;
            && Good(net.issued, net.ballots, rec) && rec.request.token == op.token
            && rec.request.capabilityId == op.capabilityId && rec.request.payloadHash == op.payloadHash
            && op.now <= rec.request.expiresAt && |rec.votes| >= rec.request.requiredApprovals
  {
    var net := Run(config, actions[..k]).value;
    RunKeepsInv(config, actions[..k]);
    assert GoodStore(net.issued, net.ballots, net.stores[actions[k].at]);
    rec := net.stores[actions[k].at][actions[k].op.token];
  }

  /** Quorum safety over runs: a consume that succeeds was asked for by an earlier call, for the same
      capability and payload, is not past the time that call gave it, and was backed by then by as
      many callers of approveToken as its risk level needs, the one who asked not counted if no replica
      allows self-approval. */
  lemma ConsumeWasBacked(config: Config, actions: seq<Action>, k: nat) returns (g: nat)
    requires Consumes(config, actions, k)
    ensures var op := actions[k].op;
            && g < k && AsksFor(actions, g, op.token) && actions[g].at in config
            && var ask := actions[g].op;
               && ask.capabilityId == op.capabilityId && ask.payloadHash == op.payloadHash
               && op.now <= ask.now + (if ask.ttlMs.Some? then ask.ttlMs.value else config[actions[g].at].defaultTtlMs)
               && Backing(config, actions[..k], actions[g])
  {
    var net := Run(config, actions[..k]).value;
    var rec := ConsumeWasGood(config, actions, k);
    RunKeepsInv(config, actions[..k]);
    VotesMakeQuorum(config, net, rec);
    g := QuorumIsBacking(config, actions[..k], rec.request.token);
  }

  /** If no replica is configured otherwise, whatever else is, no token asked for at critical risk is
      ever consumed before two people other than the one who asked called approveToken for it. */
  lemma CriticalNeedsTwo(config: Config, settings: map<ReplicaId, Settings>, actions: seq<Action>, k: nat, g: nat)
    requires config == map i | i in settings :: OptionsOf(settings[i])
    requires forall i :: i in settings ==>
               "critical" !in Or(settings[i].riskQuorumMap, map[]) && settings[i].disallowSelfApproval != Some(false)
    requires Consumes(config, actions, k) && AsksFor(actions, g, actions[k].op.token) && g < k
    requires actions[g].op.riskLevel == "critical"
    ensures |Callers(actions[..k], actions[k].op.token) - {actions[g].op.requestedBy}| >= 2
  {
    var h := ConsumeWasBacked(config, actions, k);
    AskedOnce(config, actions[..k], g, h, actions[k].op.token);
    DefaultsAskTwo(settings[actions[h].at]);
    forall i | i in config ensures config[i].disallowSelfApproval { DefaultsAskTwo(settings[i]); }
  }

  lemma DefaultsAskTwo(s: Settings)
    requires "critical" !in Or(s.riskQuorumMap, map[]) && s.disallowSelfApproval != Some(false)
    ensures VotesAsked(OptionsOf(s), "critical") == 2 && OptionsOf(s).disallowSelfApproval
  {
    assert DEFAULT_QUORUMS["critical"] == 2;
  }

  /** An asked-for token stays known. */
  lemma {:induction false} AskedIsIssued(config: Config, actions: seq<Action>, g: nat, token: string)
    requires Run(config, actions).Some? && AsksFor(actions, g, token)
    ensures token in Run(config, actions).value.issued
  {
    RunStep(config, actions);
    if g < |actions| - 1 { AskedIsIssued(config, actions[..|actions| - 1], g, token); }
  }

  /** No token is asked for twice. */
  lemma {:induction false} AskedOnce(config: Config, actions: seq<Action>, g: nat, h: nat, token: string)
    requires Run(config, actions).Some? && AsksFor(actions, g, token) && AsksFor(actions, h, token)
    ensures g == h
  {
    var front := actions[..|actions| - 1];
    RunStep(config, actions);
    if g < |actions| - 1 && h < |actions| - 1 {
      AskedOnce(config, front, g, h, token);
    } else if g < |actions| - 1 {
      AskedIsIssued(config, front, g, token);
    } else if h < |actions| - 1 {
      AskedIsIssued(config, front, h, token);
    }
  }

  /** What a replica holds about a token repeats the call that asked for it; its votes are by different
      people who called approveToken, not the one who asked if no replica allows it; approved and
      consumed mean enough of them, pending too few. */
  lemma StoredAsAsked(config: Config, actions: seq<Action>, i: ReplicaId, token: string) returns (g: nat)
    requires Run(config, actions).Some? && i in Run(config, actions).value.stores
    requires token in Run(config, actions).value.stores[i]
    ensures var rec := Run(config, actions).value.stores[i][token];
            && AsksFor(actions, g, token) && Repeats(config, rec.request, actions[g])
            && (rec.status.Approved? || rec.status.Consumed? ==>
                  |rec.votes| >= VotesAsked(config[actions[g].at], actions[g].op.riskLevel))
            && (rec.status.Pending? ==> |rec.votes| < VotesAsked(config[actions[g].at], actions[g].op.riskLevel))
            && (forall x, y :: 0 <= x < y < |rec.votes| ==> rec.votes[x].approverId != rec.votes[y].approverId)
            && (forall v :: v in rec.votes ==> v.approverId in Callers(actions, token))
            && (NoSelfApproval(config) ==> !Voted(rec.votes, actions[g].op.requestedBy))
  {
    var net := Run(config, actions).value;
    StatusMatchesVotes(config, net, i, token);
    g := IssuedAsAsked(config, actions, token);
    SupportersCalled(config, actions, token);
    var rec := net.stores[i][token];
    forall v | v in rec.votes ensures v.approverId in Callers(actions, token) {
      assert Backed(token, v, net.ballots);
      assert v.approverId in Supporters(net.ballots, token);
    }
  }

  // ---------- Delivery ----------

  lemma OneMore(config: Config, actions: seq<Action>, a: Action)
    requires Run(config, actions).Some? && Enabled(config, Run(config, actions).value, a)
    ensures Run(config, actions + [a]) == Some(Next(config, Run(config, actions).value, a))
  {
    assert (actions + [a])[..|actions + [a]| - 1] == actions;
  }

  lemma Exported(config: Config, actions: seq<Action>, i: ReplicaId, snapshot: seq<Record>)
    requires Run(config, actions).Some? && i in config && i in Run(config, actions).value.stores
    requires C.ExportOf(snapshot, Run(config, actions).value.stores[i])
    ensures var net, after := Run(config, actions).value, Run(config, actions + [Publish(i, snapshot)]);
            after.Some? && after.value.stores == net.stores && after.value.sent == net.sent + {snapshot}
  {
    OneMore(config, actions, Publish(i, snapshot));
  }

  lemma Delivered(config: Config, actions: seq<Action>, i: ReplicaId, snapshot: seq<Record>)
    requires Run(config, actions).Some? && i in config && i in Run(config, actions).value.stores
    requires snapshot in Run(config, actions).value.sent
    ensures var net, after := Run(config, actions).value, Run(config, actions + [Do(i, Merge(snapshot))]);
            && after.Some? && after.value.sent == net.sent
            && after.value.stores == net.stores[i := MergeAll(net.stores[i], snapshot)]
  {
    OneMore(config, actions, Do(i, Merge(snapshot)));
  }

  /** After any run two replicas can still publish their exports and merge each other's: the run goes
      on, and ends with one view of every token on both, the join of what they knew before. */
  lemma ExchangeRuns(config: Config, actions: seq<Action>, i: ReplicaId, j: ReplicaId, fromI: seq<Record>,
                     fromJ: seq<Record>)
    requires Run(config, actions).Some? && i != j
    requires var net := Run(config, actions).value;
             && i in config && j in config && i in net.stores && j in net.stores
             && C.ExportOf(fromI, net.stores[i]) && C.ExportOf(fromJ, net.stores[j])
    ensures var net := Run(config, actions).value;
            var known := C.JoinStores(C.StoreView(net.stores[i]), C.StoreView(net.stores[j]));
            var end := Run(config, actions + [Publish(i, fromI)] + [Publish(j, fromJ)]
                                   + [Do(i, Merge(fromJ))] + [Do(j, Merge(fromI))]);
            && end.Some? && i in end.value.stores && j in end.value.stores
            && C.StoreView(end.value.stores[i]) == C.StoreView(end.value.stores[j]) == known
  {
    var net := Run(config, actions).value;
    var told := actions + [Publish(i, fromI)] + [Publish(j, fromJ)];
    Exported(config, actions, i, fromI);
    Exported(config, actions + [Publish(i, fromI)], j, fromJ);
    Delivered(config, told, i, fromJ);
    Delivered(config, told + [Do(i, Merge(fromJ))], j, fromI);
    RunKeepsInv(config, actions);
    GoodIsGenuine(net.issued, net.ballots, net.stores[i]);
    GoodIsGenuine(net.issued, net.ballots, net.stores[j]);
    C.MergeExportIsJoin(net.issued, net.stores[i], net.stores[j], fromJ);
    C.ExchangeAgrees(net.issued, net.stores[i], net.stores[j], fromI, fromJ);
  }
}
