/** Replicas on a network. */
module QuorumNetwork {
  // Any number of replicas take requests, vote, consume, revoke, list, export and merge in any
  // order, each with its own clock, over a network that delivers every exported snapshot to any
  // replica, any number of times.

  import opened Basics
  import opened QuorumStore
  import C = QuorumConvergence
  import S = SingleUse

  type ReplicaId = nat

  datatype Action =
    | Do(at: ReplicaId, op: Op)
    | Publish(at: ReplicaId, snapshot: seq<Record>)

  /** A vote that some approveToken call cast. */
  datatype Ballot = Ballot(token: string, approverId: string, at: int)

  /** A successful validateAndConsume, with the record it succeeded on. */
  datatype Consumption = Used(at: ReplicaId, token: string, capabilityId: string, payloadHash: string, now: int,
                              rec: Record)

  /** stores: each replica's records; sent: exported snapshots; issued: every request ever
      generated; ballots: every vote ever cast; uses: every successful consume. */
  datatype Net = Net(stores: map<ReplicaId, Records>, sent: set<seq<Record>>,
                     issued: map<string, Request>, ballots: set<Ballot>, uses: seq<Consumption>)

  type Config = map<ReplicaId, Options>

  function Init(config: Config): Net {
    Net(map i | i in config :: map[], {}, map[], {}, [])
  }

  /** A generated token is fresh; a merged snapshot was exported; an export is of the replica. */
  ghost predicate Enabled(config: Config, net: Net, a: Action) {
    && a.at in config && a.at in net.stores
    && match a
       case Publish(at, snapshot) => C.ExportOf(snapshot, net.stores[at])
       case Do(at, op) => (op.Generate? ==> op.token !in net.issued) && (op.Merge? ==> op.snapshot in net.sent)
  }

  /** The request that the caller of generateToken asked for. */
  function Asked(opts: Options, op: Op): Request
    requires op.Generate?
  {
    Request(token := op.token, requestId := op.requestId, capabilityId := op.capabilityId,
            payloadHash := op.payloadHash, riskLevel := op.riskLevel, sideEffectLevel := op.sideEffectLevel,
            requestedBy := op.requestedBy, createdAt := op.now, expiresAt := op.now + Or(op.ttlMs, opts.defaultTtlMs),
            requiredApprovals := VotesAsked(opts, op.riskLevel))
  }

  function VotesAsked(opts: Options, riskLevel: string): int {
    AtLeastOne(if riskLevel in opts.riskQuorumMap then opts.riskQuorumMap[riskLevel] else opts.defaultRequiredApprovals)
  }

  /** The requests known after a call. */
  ghost function Issued(opts: Options, net: Net, op: Op): map<string, Request> {
    if op.Generate? then net.issued[op.token := Asked(opts, op)] else net.issued
  }

  /** The ballot a call casts, if it adds a vote. */
  ghost function Cast(net: Net, op: Op, before: Records, after: Records): set<Ballot> {
    if op.CastVote? && op.token in before && op.token in after && after[op.token].votes != before[op.token].votes
    then net.ballots + {Ballot(op.token, op.actor, op.now)}
    else net.ballots
  }

  ghost function Next(config: Config, net: Net, a: Action): Net
    requires Enabled(config, net, a)
  {
    match a
    case Publish(_, snapshot) => net.(sent := net.sent + {snapshot})
    case Do(at, op) =>
      var before := net.stores[at];
      var (after, ok) := Perform(config[at], before, op);
      Net(net.stores[at := after], net.sent, Issued(config[at], net, op), Cast(net, op, before, after),
          if op.Use? && ok && op.token in before
          then net.uses + [Used(at, op.token, op.capabilityId, op.payloadHash, op.now, before[op.token])]
          else net.uses)
  }

  /** The state a run ends in; None when some action was not enabled. */
  ghost function Run(config: Config, actions: seq<Action>): Option<Net> {
    if actions == [] then Some(Init(config))
    else
      match Run(config, actions[..|actions| - 1])
      case None => None
      case Some(net) =>
        var a := actions[|actions| - 1];
        if Enabled(config, net, a) then Some(Next(config, net, a)) else None
  }

  ghost predicate Reachable(config: Config, net: Net) {
    exists actions :: Run(config, actions) == Some(net)
  }

  // ---------- The invariant of one record ----------

  ghost predicate Backed(token: string, v: Vote, ballots: set<Ballot>) {
    Ballot(token, v.approverId, v.approvedAt) in ballots
  }

  ghost predicate Good(issued: map<string, Request>, ballots: set<Ballot>, rec: Record) {
    var q := rec.request;
    && q.token in issued && issued[q.token] == q
    && C.Sound(rec)
    && (rec.status.Approved? || rec.status.Consumed? ==> |rec.votes| >= q.requiredApprovals)
    && (forall v :: v in rec.votes ==> Backed(q.token, v, ballots))
  }

  lemma NewRecordGood(opts: Options, token: string, requestId: string, capabilityId: string, payloadHash: string,
                      riskLevel: string, sideEffectLevel: string, requestedBy: string, ttlMs: Option<int>, now: int,
                      issued: map<string, Request>, ballots: set<Ballot>)
    ensures var rec := NewRecord(opts, token, requestId, capabilityId, payloadHash, riskLevel, sideEffectLevel,
                                 requestedBy, ttlMs, now);
            Good(issued[token := rec.request], ballots, rec) && rec.request.requiredApprovals >= 1
  {
  }

  lemma ApproveKeepsGood(rec: Record, opts: Options, actor: string, now: int,
                         issued: map<string, Request>, ballots: set<Ballot>)
    requires Good(issued, ballots, rec)
    ensures var after := Approve(rec, opts, actor, now).0;
            Good(issued, if after.votes == rec.votes then ballots
                         else ballots + {Ballot(rec.request.token, actor, now)}, after)
  {
    C.ApproveGrows(rec, opts, actor, now);
  }

  lemma LocalKeepsGood(rec: Record, capabilityId: string, payloadHash: string, now: int,
                       issued: map<string, Request>, ballots: set<Ballot>)
    requires Good(issued, ballots, rec)
    ensures Good(issued, ballots, Consume(rec, capabilityId, payloadHash, now).0)
    ensures Good(issued, ballots, Revoke(rec).0)
    ensures Good(issued, ballots, ExpireIfDue(rec, now))
  {
  }

  lemma {:induction false} UpsertFrom(votes: seq<Vote>, v: Vote)
    ensures forall u :: u in Upsert(votes, v) ==> u in votes || u == v
  {
    if votes != [] && votes[0].approverId != v.approverId {
      UpsertFrom(votes[1..], v);
    }
  }

  lemma {:induction false} MergeInFrom(acc: seq<Vote>, remote: seq<Vote>)
    ensures forall u :: u in MergeIn(acc, remote) ==> u in acc || u in remote
  {
    if remote != [] {
      MergeInFrom(acc, remote[..|remote| - 1]);
      UpsertFrom(MergeIn(acc, remote[..|remote| - 1]), remote[|remote| - 1]);
    }
  }

  lemma MergedVotesFrom(local: seq<Vote>, remote: seq<Vote>)
    requires C.DistinctApprovers(local)
    ensures forall u :: u in MergeVotes(local, remote) ==> u in local || u in remote
  {
    C.UpsertAllOfDistinct(local);
    MergeInFrom(local, remote);
    StableSortElements(MergeIn(local, remote), ApprovedAt);
  }

  lemma MergeKeepsGood(local: Record, remote: Record, issued: map<string, Request>, ballots: set<Ballot>)
    requires Good(issued, ballots, local) && Good(issued, ballots, remote)
    requires local.request.token == remote.request.token
    ensures Good(issued, ballots, MergeRecord(local, remote))
  {
    C.MergeRecordIsJoin(local, remote);
    C.MergeVotesIsMinUnion(local.votes, remote.votes);
    MergedVotesFrom(local.votes, remote.votes);
    C.SubmapSmaller(C.Earliest(local.votes), C.Earliest(MergeVotes(local.votes, remote.votes)));
    C.SubmapSmaller(C.Earliest(remote.votes), C.Earliest(MergeVotes(local.votes, remote.votes)));
  }

  // ---------- The invariant of the network ----------

  ghost predicate GoodStore(issued: map<string, Request>, ballots: set<Ballot>, s: Records) {
    forall t :: t in s ==> s[t].request.token == t && Good(issued, ballots, s[t])
  }

  ghost predicate GoodSnapshot(issued: map<string, Request>, ballots: set<Ballot>, snapshot: seq<Record>) {
    forall r :: r in snapshot ==> Good(issued, ballots, r)
  }

  /** What a consume must have been entitled to. */
  ghost predicate Entitled(issued: map<string, Request>, ballots: set<Ballot>, u: Consumption) {
    var q := u.rec.request;
    && u.token == q.token && Good(issued, ballots, u.rec)
    && u.capabilityId == q.capabilityId && u.payloadHash == q.payloadHash && u.now <= q.expiresAt
    && u.rec.status.Approved?
  }

  ghost predicate NoSelfApproval(config: Config) {
    forall i :: i in config ==> config[i].disallowSelfApproval
  }

  /** Ballots are for issued requests; where no replica allows it, nobody votes for their own. */
  ghost predicate Fair(config: Config, issued: map<string, Request>, b: Ballot) {
    b.token in issued && (NoSelfApproval(config) ==> b.approverId != issued[b.token].requestedBy)
  }

  ghost predicate WellIssued(issued: map<string, Request>) {
    forall t :: t in issued ==> issued[t].requiredApprovals >= 1 && issued[t].token == t
  }

  ghost predicate Inv(config: Config, net: Net) {
    && (forall b :: b in net.ballots ==> Fair(config, net.issued, b))
    && net.stores.Keys == config.Keys
    && WellIssued(net.issued)
    && (forall i :: i in net.stores ==> GoodStore(net.issued, net.ballots, net.stores[i]))
    && (forall s :: s in net.sent ==> GoodSnapshot(net.issued, net.ballots, s))
    && (forall u :: u in net.uses ==> Entitled(net.issued, net.ballots, u))
  }

  /** Knowing more requests and more ballots spoils nothing. */
  ghost predicate Extends(issued: map<string, Request>, ballots: set<Ballot>,
                          issued': map<string, Request>, ballots': set<Ballot>) {
    && ballots <= ballots'
    && forall t :: t in issued ==> t in issued' && issued'[t] == issued[t]
  }

  lemma GoodExtends(issued: map<string, Request>, ballots: set<Ballot>,
                    issued': map<string, Request>, ballots': set<Ballot>, rec: Record)
    requires Good(issued, ballots, rec) && Extends(issued, ballots, issued', ballots')
    ensures Good(issued', ballots', rec)
  {
    forall v | v in rec.votes ensures Backed(rec.request.token, v, ballots') {
      assert Backed(rec.request.token, v, ballots);
    }
  }

  lemma InvExtends(config: Config, net: Net, issued: map<string, Request>, ballots: set<Ballot>)
    requires Inv(config, net) && Extends(net.issued, net.ballots, issued, ballots)
    ensures forall i :: i in net.stores ==> GoodStore(issued, ballots, net.stores[i])
    ensures forall s :: s in net.sent ==> GoodSnapshot(issued, ballots, s)
    ensures forall u :: u in net.uses ==> Entitled(issued, ballots, u)
  {
    forall i, t | i in net.stores && t in net.stores[i] ensures Good(issued, ballots, net.stores[i][t]) {
      assert GoodStore(net.issued, net.ballots, net.stores[i]);
      GoodExtends(net.issued, net.ballots, issued, ballots, net.stores[i][t]);
    }
    forall s, r | s in net.sent && r in s ensures Good(issued, ballots, r) {
      assert GoodSnapshot(net.issued, net.ballots, s);
      GoodExtends(net.issued, net.ballots, issued, ballots, r);
    }
    forall u | u in net.uses ensures Entitled(issued, ballots, u) {
      GoodExtends(net.issued, net.ballots, issued, ballots, u.rec);
    }
  }

  lemma {:induction false} ReceiveKeepsGood(s: Records, snapshot: seq<Record>,
                                            issued: map<string, Request>, ballots: set<Ballot>)
    requires GoodStore(issued, ballots, s) && GoodSnapshot(issued, ballots, snapshot)
    ensures GoodStore(issued, ballots, MergeAll(s, snapshot))
  {
    if snapshot != [] {
      var front, r := snapshot[..|snapshot| - 1], snapshot[|snapshot| - 1];
      assert r in snapshot;
      assert GoodSnapshot(issued, ballots, front);
      ReceiveKeepsGood(s, front, issued, ballots);
      var sofar := MergeAll(s, front);
      if r.request.token in sofar {
        MergeKeepsGood(sofar[r.request.token], r, issued, ballots);
      }
    }
  }

  /** Replacing one good record at one replica keeps that replica good. */
  lemma PutKeepsGood(s: Records, token: string, rec: Record, issued: map<string, Request>, ballots: set<Ballot>)
    requires GoodStore(issued, ballots, s) && rec.request.token == token && Good(issued, ballots, rec)
    ensures GoodStore(issued, ballots, s[token := rec])
  {
  }

  /** A call changes its own replica's store, and what is known only grows. */
  lemma CallKeepsInv(config: Config, net: Net, after: Net, at: ReplicaId)
    requires Inv(config, net) && at in net.stores && at in after.stores
    requires after.stores == net.stores[at := after.stores[at]] && after.sent == net.sent
    requires Extends(net.issued, net.ballots, after.issued, after.ballots)
    requires WellIssued(after.issued)
    requires forall b :: b in after.ballots && b !in net.ballots ==> Fair(config, after.issued, b)
    requires GoodStore(after.issued, after.ballots, after.stores[at])
    requires forall u :: u in after.uses && u !in net.uses ==> Entitled(after.issued, after.ballots, u)
    ensures Inv(config, after)
  {
    InvExtends(config, net, after.issued, after.ballots);
    forall b | b in after.ballots ensures Fair(config, after.issued, b) {
      if b in net.ballots { assert Fair(config, net.issued, b); }
    }
  }

  lemma GenerateKeepsInv(config: Config, net: Net, at: ReplicaId, op: Op)
    requires Inv(config, net) && Enabled(config, net, Do(at, op)) && op.Generate?
    ensures Inv(config, Next(config, net, Do(at, op)))
  {
    var s, net' := net.stores[at], Next(config, net, Do(at, op));
    NewRecordGood(config[at], op.token, op.requestId, op.capabilityId, op.payloadHash, op.riskLevel,
                  op.sideEffectLevel, op.requestedBy, op.ttlMs, op.now, net.issued, net.ballots);
    InvExtends(config, net, net'.issued, net'.ballots);
    PutKeepsGood(s, op.token, net'.stores[at][op.token], net'.issued, net'.ballots);
    CallKeepsInv(config, net, net', at);
  }

  lemma VoteKeepsInv(config: Config, net: Net, at: ReplicaId, op: Op)
    requires Inv(config, net) && Enabled(config, net, Do(at, op)) && op.CastVote?
    ensures Inv(config, Next(config, net, Do(at, op)))
  {
    var s, net' := net.stores[at], Next(config, net, Do(at, op));
    if op.token in s {
      assert GoodStore(net.issued, net.ballots, s);
      ApproveKeepsGood(s[op.token], config[at], op.actor, op.now, net.issued, net.ballots);
      NewBallotFair(config, net, at, op);
      InvExtends(config, net, net'.issued, net'.ballots);
      PutKeepsGood(s, op.token, net'.stores[at][op.token], net'.issued, net'.ballots);
    }
    CallKeepsInv(config, net, net', at);
  }

  lemma NewBallotFair(config: Config, net: Net, at: ReplicaId, op: Op)
    requires Inv(config, net) && Enabled(config, net, Do(at, op)) && op.CastVote? && op.token in net.stores[at]
    ensures forall b :: b in Next(config, net, Do(at, op)).ballots && b !in net.ballots ==> Fair(config, net.issued, b)
  {
    assert GoodStore(net.issued, net.ballots, net.stores[at]);
  }

  lemma UseKeepsGood(s: Records, op: Op, issued: map<string, Request>, ballots: set<Ballot>)
    requires GoodStore(issued, ballots, s) && op.Use? && op.token in s
    ensures var (rec, ok) := Consume(s[op.token], op.capabilityId, op.payloadHash, op.now);
            && GoodStore(issued, ballots, s[op.token := rec])
            && forall at :: ok ==>
                 Entitled(issued, ballots, Used(at, op.token, op.capabilityId, op.payloadHash, op.now, s[op.token]))
  {
    LocalKeepsGood(s[op.token], op.capabilityId, op.payloadHash, op.now, issued, ballots);
    PutKeepsGood(s, op.token, Consume(s[op.token], op.capabilityId, op.payloadHash, op.now).0, issued, ballots);
  }

  lemma UseKeepsInv(config: Config, net: Net, at: ReplicaId, op: Op)
    requires Inv(config, net) && Enabled(config, net, Do(at, op)) && op.Use?
    ensures Inv(config, Next(config, net, Do(at, op)))
  {
    assert GoodStore(net.issued, net.ballots, net.stores[at]);
    if op.token in net.stores[at] { UseKeepsGood(net.stores[at], op, net.issued, net.ballots); }
    CallKeepsInv(config, net, Next(config, net, Do(at, op)), at);
  }

  lemma WithdrawKeepsInv(config: Config, net: Net, at: ReplicaId, op: Op)
    requires Inv(config, net) && Enabled(config, net, Do(at, op)) && op.Withdraw?
    ensures Inv(config, Next(config, net, Do(at, op)))
  {
    var s := net.stores[at];
    if op.token in s {
      assert GoodStore(net.issued, net.ballots, s);
      LocalKeepsGood(s[op.token], "", "", 0, net.issued, net.ballots);
      PutKeepsGood(s, op.token, Revoke(s[op.token]).0, net.issued, net.ballots);
    }
  }

  lemma ExpireAllKeepsGood(s: Records, now: int, issued: map<string, Request>, ballots: set<Ballot>)
    requires GoodStore(issued, ballots, s)
    ensures GoodStore(issued, ballots, ExpireAll(s, now))
  {
    forall t | t in s ensures Good(issued, ballots, ExpireIfDue(s[t], now)) {
      LocalKeepsGood(s[t], "", "", now, issued, ballots);
    }
  }

  lemma SweepOrMergeKeepsInv(config: Config, net: Net, at: ReplicaId, op: Op)
    requires Inv(config, net) && Enabled(config, net, Do(at, op)) && (op.ListPending? || op.Merge?)
    ensures Inv(config, Next(config, net, Do(at, op)))
  {
    assert GoodStore(net.issued, net.ballots, net.stores[at]);
    if op.ListPending? {
      ExpireAllKeepsGood(net.stores[at], op.now, net.issued, net.ballots);
    } else {
      assert GoodSnapshot(net.issued, net.ballots, op.snapshot);
      ReceiveKeepsGood(net.stores[at], op.snapshot, net.issued, net.ballots);
    }
  }

  lemma PublishKeepsInv(config: Config, net: Net, at: ReplicaId, snapshot: seq<Record>)
    requires Inv(config, net) && Enabled(config, net, Publish(at, snapshot))
    ensures Inv(config, Next(config, net, Publish(at, snapshot)))
  {
    var s := net.stores[at];
    assert GoodStore(net.issued, net.ballots, s);
    forall r | r in snapshot ensures Good(net.issued, net.ballots, r) {
      assert r in s.Values;
    }
    assert GoodSnapshot(net.issued, net.ballots, snapshot);
  }

  lemma NextKeepsInv(config: Config, net: Net, a: Action)
    requires Inv(config, net) && Enabled(config, net, a)
    ensures Inv(config, Next(config, net, a))
  {
    match a
    case Publish(at, snapshot) => PublishKeepsInv(config, net, at, snapshot);
    case Do(at, op) =>
      if op.Generate? { GenerateKeepsInv(config, net, at, op); }
      else if op.CastVote? { VoteKeepsInv(config, net, at, op); }
      else if op.Use? { UseKeepsInv(config, net, at, op); }
      else if op.Withdraw? { WithdrawKeepsInv(config, net, at, op); }
      else { SweepOrMergeKeepsInv(config, net, at, op); }
  }

  lemma {:induction false} RunKeepsInv(config: Config, actions: seq<Action>)
    requires Run(config, actions).Some?
    ensures Inv(config, Run(config, actions).value)
  {
    if actions != [] {
      RunKeepsInv(config, actions[..|actions| - 1]);
      NextKeepsInv(config, Run(config, actions[..|actions| - 1]).value, actions[|actions| - 1]);
    }
  }

  // ---------- Safety of every reachable state ----------

  /** The people who really voted for a token, through some approveToken call. */
  ghost function Supporters(ballots: set<Ballot>, token: string): set<string> {
    set b | b in ballots && b.token == token :: b.approverId
  }

  lemma VotersAreSupporters(issued: map<string, Request>, ballots: set<Ballot>, rec: Record)
    requires Good(issued, ballots, rec)
    ensures C.Earliest(rec.votes).Keys <= Supporters(ballots, rec.request.token)
    ensures |rec.votes| <= |Supporters(ballots, rec.request.token)|
  {
    var keys, people := C.Earliest(rec.votes).Keys, Supporters(ballots, rec.request.token);
    C.KeysAreApprovers(rec.votes);
    forall k | k in keys ensures k in people {
      var i :| 0 <= i < |rec.votes| && rec.votes[i].approverId == k;
      assert rec.votes[i] in rec.votes;
      assert Backed(rec.request.token, rec.votes[i], ballots);
    }
    C.SubsetSmaller(keys, people);
  }

  lemma SupportersAreFair(config: Config, net: Net, token: string)
    requires Inv(config, net) && NoSelfApproval(config) && token in net.issued
    ensures net.issued[token].requestedBy !in Supporters(net.ballots, token)
  {
    forall b | b in net.ballots && b.token == token ensures b.approverId != net.issued[token].requestedBy {
      assert Fair(config, net.issued, b);
    }
  }

  /** At least the required number of distinct people each cast a vote for the token somewhere in
      the network; the requester is none of them if no replica allows self-approval. */
  ghost predicate HasQuorum(config: Config, net: Net, token: string)
    requires token in net.issued
  {
    var q, people := net.issued[token], Supporters(net.ballots, token);
    && |people| >= q.requiredApprovals >= 1
    && (NoSelfApproval(config) ==> q.requestedBy !in people)
  }

  lemma VotesMakeQuorum(config: Config, net: Net, rec: Record)
    requires Inv(config, net) && Good(net.issued, net.ballots, rec) && |rec.votes| >= rec.request.requiredApprovals
    ensures HasQuorum(config, net, rec.request.token)
  {
    VotersAreSupporters(net.issued, net.ballots, rec);
    if NoSelfApproval(config) { SupportersAreFair(config, net, rec.request.token); }
  }

  /** Quorum safety: however replicas interleave and snapshots travel, a consume succeeds only
      on the issued request, before expiry, with a quorum of real votes. */
  lemma QuorumSafety(config: Config, net: Net, k: nat)
    requires Reachable(config, net) && k < |net.uses|
    ensures var u := net.uses[k];
            && u.token in net.issued
            && var q := net.issued[u.token];
               && u.capabilityId == q.capabilityId && u.payloadHash == q.payloadHash && u.now <= q.expiresAt
               && HasQuorum(config, net, u.token)
  {
    var actions :| Run(config, actions) == Some(net);
    RunKeepsInv(config, actions);
    var u := net.uses[k];
    assert Entitled(net.issued, net.ballots, u);
    VotesMakeQuorum(config, net, u.rec);
  }

  /** Status and votes agree on every replica: APPROVED and CONSUMED have quorum, PENDING has
      not, nobody is counted twice, every vote was cast, and the requester is not counted if no
      replica allows self-approval. */
  lemma StatusMatchesVotes(config: Config, net: Net, i: ReplicaId, t: string)
    requires Reachable(config, net) && i in net.stores && t in net.stores[i]
    ensures var rec := net.stores[i][t];
            && t in net.issued && rec.request == net.issued[t]
            && (rec.status.Approved? || rec.status.Consumed? ==> |rec.votes| >= rec.request.requiredApprovals)
            && (rec.status.Pending? ==> |rec.votes| < rec.request.requiredApprovals)
            && (forall x, y :: 0 <= x < y < |rec.votes| ==> rec.votes[x].approverId != rec.votes[y].approverId)
            && (NoSelfApproval(config) ==> !Voted(rec.votes, rec.request.requestedBy))
            && (forall v :: v in rec.votes ==> Backed(t, v, net.ballots))
  {
    var actions :| Run(config, actions) == Some(net);
    RunKeepsInv(config, actions);
    assert GoodStore(net.issued, net.ballots, net.stores[i]);
    var rec := net.stores[i][t];
    C.DistinctApproversMeaning(rec.votes);
    forall x | 0 <= x < |rec.votes|
      ensures NoSelfApproval(config) ==> rec.votes[x].approverId != rec.request.requestedBy
    {
      assert rec.votes[x] in rec.votes;
      assert Backed(t, rec.votes[x], net.ballots);
      assert Fair(config, net.issued, Ballot(t, rec.votes[x].approverId, rec.votes[x].approvedAt));
    }
  }

  /** In every reachable state the premises of convergence hold, so any two replicas that
      exchange exports agree. */
  lemma ReachableReplicasConverge(config: Config, net: Net, i: ReplicaId, j: ReplicaId,
                                  fromI: seq<Record>, fromJ: seq<Record>)
    requires Reachable(config, net) && i in net.stores && j in net.stores
    requires C.ExportOf(fromI, net.stores[i]) && C.ExportOf(fromJ, net.stores[j])
    ensures C.StoreView(MergeAll(net.stores[i], fromJ)) == C.StoreView(MergeAll(net.stores[j], fromI))
  {
    var actions :| Run(config, actions) == Some(net);
    RunKeepsInv(config, actions);
    assert GoodStore(net.issued, net.ballots, net.stores[i]) && GoodStore(net.issued, net.ballots, net.stores[j]);
    GoodIsGenuine(net.issued, net.ballots, net.stores[i]);
    GoodIsGenuine(net.issued, net.ballots, net.stores[j]);
    C.ExchangeAgrees(net.issued, net.stores[i], net.stores[j], fromI, fromJ);
  }

  lemma GoodIsGenuine(issued: map<string, Request>, ballots: set<Ballot>, s: Records)
    requires GoodStore(issued, ballots, s)
    ensures C.GenuineStore(issued, s)
  {
  }

  // ---------- Single use ----------

  /** The replica's record for this token is EXPIRED, CONSUMED or REVOKED. */
  ghost predicate ClosedAt(net: Net, i: ReplicaId, token: string) {
    i in net.stores && S.Closed(net.stores[i], token)
  }

  /** A consume of this token at this replica. */
  predicate UsesHere(u: Consumption, i: ReplicaId, token: string) { u.at == i && u.token == token }

  lemma CallIsFresh(config: Config, net: Net, a: Action)
    requires Inv(config, net) && Enabled(config, net, a) && a.Do?
    ensures S.Fresh(net.stores[a.at], a.op)
  {
    assert GoodStore(net.issued, net.ballots, net.stores[a.at]);
  }

  /** A closed token stays closed, and no consume of it succeeds there any more. */
  lemma ClosedStays(config: Config, net: Net, a: Action, i: ReplicaId, token: string)
    requires Inv(config, net) && Enabled(config, net, a) && ClosedAt(net, i, token)
    ensures var after := Next(config, net, a);
            && ClosedAt(after, i, token) && net.uses <= after.uses
            && forall k :: |net.uses| <= k < |after.uses| ==> !UsesHere(after.uses[k], i, token)
  {
    if a.Do? {
      CallIsFresh(config, net, a);
      if a.at == i {
        S.PerformKeepsClosed(config[i], net.stores[i], a.op, token);
        if a.op.Use? && a.op.token == token { S.ClosedRefusesUse(config[i], net.stores[i], a.op); }
      }
    }
  }

  lemma UseCloses(config: Config, net: Net, a: Action)
    requires Enabled(config, net, a)
    ensures var after := Next(config, net, a);
            && |net.uses| <= |after.uses| <= |net.uses| + 1
            && (|after.uses| > |net.uses| ==>
                  ClosedAt(after, after.uses[|net.uses|].at, after.uses[|net.uses|].token)
                  && after.uses == net.uses + [after.uses[|net.uses|]])
  {
    if a.Do? && a.op.Use? && Perform(config[a.at], net.stores[a.at], a.op).1 {
      S.SuccessCloses(config[a.at], net.stores[a.at], a.op);
    }
  }

  /** Every consumed token is closed where it was consumed, and no replica consumed one twice. */
  ghost predicate SpentOnce(net: Net) {
    && (forall u :: u in net.uses ==> ClosedAt(net, u.at, u.token))
    && (forall j, k :: 0 <= j < k < |net.uses| ==> !UsesHere(net.uses[k], net.uses[j].at, net.uses[j].token))
  }

  lemma NextKeepsSpentOnce(config: Config, net: Net, a: Action)
    requires Inv(config, net) && Enabled(config, net, a) && SpentOnce(net)
    ensures SpentOnce(Next(config, net, a))
  {
    var after := Next(config, net, a);
    UseCloses(config, net, a);
    forall u | u in net.uses
      ensures ClosedAt(after, u.at, u.token)
      ensures forall k :: |net.uses| <= k < |after.uses| ==> !UsesHere(after.uses[k], u.at, u.token)
    {
      ClosedStays(config, net, a, u.at, u.token);
    }
  }

  lemma {:induction false} RunSpendsOnce(config: Config, actions: seq<Action>)
    requires Run(config, actions).Some?
    ensures SpentOnce(Run(config, actions).value)
  {
    if actions != [] {
      var front := actions[..|actions| - 1];
      RunSpendsOnce(config, front);
      RunKeepsInv(config, front);
      NextKeepsSpentOnce(config, Run(config, front).value, actions[|actions| - 1]);
    }
  }

  /** Two consumes of one token are always at different replicas. */
  lemma OneUsePerReplica(config: Config, net: Net, j: nat, k: nat)
    requires Reachable(config, net) && j < k < |net.uses| && net.uses[j].token == net.uses[k].token
    ensures net.uses[j].at != net.uses[k].at
  {
    var actions :| Run(config, actions) == Some(net);
    RunSpendsOnce(config, actions);
  }

  lemma RunStep(config: Config, actions: seq<Action>, a: Action)
    requires Run(config, actions + [a]).Some?
    ensures Run(config, actions).Some? && Enabled(config, Run(config, actions).value, a)
    ensures Run(config, actions + [a]).value == Next(config, Run(config, actions).value, a)
  {
    assert (actions + [a])[..|actions + [a]| - 1] == actions;
  }

  lemma {:induction false} ClosedForever(config: Config, early: seq<Action>, late: seq<Action>,
                                         i: ReplicaId, token: string)
    requires Run(config, early + late).Some? && Run(config, early).Some? && ClosedAt(Run(config, early).value, i, token)
    ensures var was, now := Run(config, early).value, Run(config, early + late).value;
            && ClosedAt(now, i, token) && was.uses <= now.uses
            && forall k :: |was.uses| <= k < |now.uses| ==> !UsesHere(now.uses[k], i, token)
  {
    if late == [] {
      assert early + late == early;
    } else {
      var front, a := late[..|late| - 1], late[|late| - 1];
      assert early + late == (early + front) + [a];
      RunStep(config, early + front, a);
      ClosedForever(config, early, front, i, token);
      RunKeepsInv(config, early + front);
      ClosedStays(config, Run(config, early + front).value, a, i, token);
    }
  }

  /** An export of a replica on which the token is closed says so. */
  lemma ExportTells(net: Net, i: ReplicaId, token: string, snapshot: seq<Record>) returns (r: Record)
    requires ClosedAt(net, i, token) && C.ExportOf(snapshot, net.stores[i])
    requires net.stores[i][token].request.token == token
    ensures r in snapshot && r.request.token == token && r.status.Terminal()
  {
    r := net.stores[i][token];
    assert r in net.stores[i].Values;
  }

  /** Once a replica has merged an export that was taken after a consume, it never consumes the
      token itself, whatever happens in the network. */
  lemma NoUseAfterHearing(config: Config, early: seq<Action>, middle: seq<Action>, late: seq<Action>,
                          u: Consumption, j: ReplicaId, snapshot: seq<Record>)
    requires Run(config, early).Some? && u in Run(config, early).value.uses
    requires Enabled(config, Run(config, early).value, Publish(u.at, snapshot))
    requires Run(config, early + middle + [Do(j, Merge(snapshot))]).Some?
    requires Run(config, early + middle + [Do(j, Merge(snapshot))] + late).Some?
    ensures var heard := Run(config, early + middle + [Do(j, Merge(snapshot))]).value;
            var now := Run(config, early + middle + [Do(j, Merge(snapshot))] + late).value;
            forall k :: |heard.uses| <= k < |now.uses| ==> !UsesHere(now.uses[k], j, u.token)
  {
    var net := Run(config, early).value;
    RunSpendsOnce(config, early);
    RunKeepsInv(config, early);
    assert GoodStore(net.issued, net.ballots, net.stores[u.at]);
    var r := ExportTells(net, u.at, u.token, snapshot);
    RunStep(config, early + middle, Do(j, Merge(snapshot)));
    S.MergeKeepsClosed(Run(config, early + middle).value.stores[j], snapshot, u.token);
    ClosedForever(config, early + middle + [Do(j, Merge(snapshot))], late, j, u.token);
  }
}
