/** What the store does, in terms of what its callers pass. */
module QuorumOutcomes {
  import opened Basics
  import opened QuorumStore
  import C = QuorumConvergence

  // ---------- A new token ----------

  /** The record of a new token has every argument in its own field, lives for the time asked for, or
      for fifteen minutes where nothing is said, and may not be approved by its requester unless that
      was allowed. */
  lemma GeneratedRecord(s: Settings, records: Records, op: Op)
    requires op.Generate?
    ensures var opts := OptionsOf(s);
            var after := Perform(opts, records, op).0;
            && after.Keys == records.Keys + {op.token}
            && (forall t :: t in records && t != op.token ==> after[t] == records[t])
            && var rec := after[op.token];
               var q := rec.request;
               && rec.status == Pending && rec.votes == [] && rec.consumedAt == None
               && q.token == op.token && q.requestId == op.requestId && q.capabilityId == op.capabilityId
               && q.payloadHash == op.payloadHash && q.riskLevel == op.riskLevel
               && q.sideEffectLevel == op.sideEffectLevel && q.requestedBy == op.requestedBy
               && q.createdAt == op.now
               && (op.ttlMs.Some? ==> q.expiresAt == op.now + op.ttlMs.value)
               && (op.ttlMs.None? && s.defaultTtlMs.Some? ==> q.expiresAt == op.now + s.defaultTtlMs.value)
               && (op.ttlMs.None? && s.defaultTtlMs.None? ==> q.expiresAt == op.now + 900000)
    ensures s.clusterId.None? ==> OptionsOf(s).clusterId == "cluster-primary"
    ensures s.disallowSelfApproval != Some(false) ==>
              forall now :: !Perform(OptionsOf(s), Perform(OptionsOf(s), records, op).0,
                                     CastVote(op.token, op.requestedBy, now)).1
  {
  }

  // ---------- Votes and consumption ----------

  /** A record takes this person's vote at this time. */
  predicate TakesVote(rec: Record, opts: Options, actor: string, now: int) {
    && (rec.status == Approved || (rec.status == Pending && now <= rec.request.expiresAt))
    && (actor != rec.request.requestedBy || !opts.disallowSelfApproval)
  }

  /** The first vote that completes the quorum approves the record, and only that; a vote on an overdue
      request expires it. The voter is told whether the record is approved. */
  lemma VoteApprovesExactly(opts: Options, records: Records, token: string, actor: string, now: int)
    ensures var (after, ok) := Perform(opts, records, CastVote(token, actor, now));
            && (token !in records ==> after == records && !ok)
            && (token in records ==>
                  var rec := records[token];
                  && (ok <==> TakesVote(rec, opts, actor, now) && after[token].status == Approved)
                  && (after[token].status == Approved <==>
                        || rec.status == Approved
                        || (TakesVote(rec, opts, actor, now)
                            && |after[token].votes| >= rec.request.requiredApprovals))
                  && (after[token].status == Expired <==>
                        rec.status == Expired || (rec.status == Pending && now > rec.request.expiresAt))
                  && (after[token].status == Consumed <==> rec.status == Consumed)
                  && (after[token].status == Revoked <==> rec.status == Revoked)
                  && after[token].consumedAt == rec.consumedAt)
  {
  }

  /** A vote is recorded, once and with its time, exactly if the token is stored, open and not
      overdue and the voter may vote; nobody else's vote changes. */
  lemma VoteCountsExactly(opts: Options, records: Records, token: string, actor: string, now: int)
    requires token in records
    ensures var rec, after := records[token], Perform(opts, records, CastVote(token, actor, now)).0;
            && after.Keys == records.Keys && (forall t :: t in records && t != token ==> after[t] == records[t])
            && after[token].request == rec.request
            && after[token].votes == (if TakesVote(rec, opts, actor, now) && !Voted(rec.votes, actor)
                                      then rec.votes + [Vote(actor, opts.clusterId, now)] else rec.votes)
            && (Voted(after[token].votes, actor) <==> Voted(rec.votes, actor) || TakesVote(rec, opts, actor, now))
  {
    var rec, after := records[token], Perform(opts, records, CastVote(token, actor, now)).0;
    if TakesVote(rec, opts, actor, now) && !Voted(rec.votes, actor) {
      assert after[token].votes[|rec.votes|].approverId == actor;
    }
  }

  /** A consume succeeds exactly on an approved record with its quorum, for the capability and the
      payload that were approved, not past expiry; it leaves the record CONSUMED at this time. */
  lemma ConsumeSucceedsExactly(opts: Options, records: Records, token: string, capabilityId: string,
                               payloadHash: string, now: int)
    ensures var (after, ok) := Perform(opts, records, Use(token, capabilityId, payloadHash, now));
            && (ok <==> token in records && records[token].status == Approved
                        && |records[token].votes| >= records[token].request.requiredApprovals
                        && records[token].request.capabilityId == capabilityId
                        && records[token].request.payloadHash == payloadHash
                        && now <= records[token].request.expiresAt)
            && (ok ==> after == records[token := records[token].(status := Consumed, consumedAt := Some(now))])
            && (!ok && token in records && now > records[token].request.expiresAt ==>
                  after == records[token := records[token].(status := Expired)])
            && (!ok && (token !in records || now <= records[token].request.expiresAt) ==> after == records)
  {
  }

  /** Revoking closes every stored record but a consumed one, and changes nothing else. */
  lemma RevokeSucceedsExactly(opts: Options, records: Records, token: string)
    ensures var (after, ok) := Perform(opts, records, Withdraw(token));
            && (ok <==> token in records && records[token].status != Consumed)
            && after == if ok then records[token := records[token].(status := Revoked)] else records
  {
  }

  datatype Ballot = Ballot(actor: string, now: int)

  function AfterVotes(opts: Options, rec: Record, ballots: seq<Ballot>): Record {
    if ballots == [] then rec
    else
      var b := ballots[|ballots| - 1];
      Approve(AfterVotes(opts, rec, ballots[..|ballots| - 1]), opts, b.actor, b.now).0
  }

  function VotesOf(opts: Options, ballots: seq<Ballot>): (votes: seq<Vote>)
    ensures |votes| == |ballots|
    ensures forall i :: 0 <= i < |ballots| ==> votes[i] == Vote(ballots[i].actor, opts.clusterId, ballots[i].now)
  {
    seq(|ballots|, i requires 0 <= i < |ballots| => Vote(ballots[i].actor, opts.clusterId, ballots[i].now))
  }

  /** Different people who may vote, all in time. */
  ghost predicate ProperVotes(opts: Options, q: Request, ballots: seq<Ballot>) {
    && (forall i, j :: 0 <= i < j < |ballots| ==> ballots[i].actor != ballots[j].actor)
    && (forall i :: 0 <= i < |ballots| ==> ballots[i].now <= q.expiresAt)
    && (opts.disallowSelfApproval ==> forall i :: 0 <= i < |ballots| ==> ballots[i].actor != q.requestedBy)
  }

  lemma {:induction false} ProperVotesCount(opts: Options, rec: Record, ballots: seq<Ballot>)
    requires rec.status == Pending && rec.votes == [] && rec.request.requiredApprovals >= 1
    requires ProperVotes(opts, rec.request, ballots)
    ensures AfterVotes(opts, rec, ballots)
         == rec.(votes := VotesOf(opts, ballots),
                 status := if |ballots| >= rec.request.requiredApprovals then Approved else Pending)
  {
    if ballots == [] {
      assert VotesOf(opts, ballots) == [];
    } else {
      var front, b := ballots[..|ballots| - 1], ballots[|ballots| - 1];
      ProperVotesCount(opts, rec, front);
      var before := AfterVotes(opts, rec, front);
      assert !Voted(before.votes, b.actor);
      assert VotesOf(opts, ballots) == VotesOf(opts, front) + [Vote(b.actor, opts.clusterId, b.now)];
    }
  }

  /** A quorum is enough and nothing less is: after proper votes on a new request a matching consume in
      time succeeds exactly if as many voted as are required. */
  lemma QuorumSufficesExactly(opts: Options, records: Records, ask: Op, ballots: seq<Ballot>, now: int)
    requires ask.Generate?
    ensures var rec := Perform(opts, records, ask).0[ask.token];
            ProperVotes(opts, rec.request, ballots) && now <= rec.request.expiresAt ==>
              (Perform(opts, map[ask.token := AfterVotes(opts, rec, ballots)],
                       Use(ask.token, ask.capabilityId, ask.payloadHash, now)).1
               <==> |ballots| >= rec.request.requiredApprovals)
  {
    var rec := Perform(opts, records, ask).0[ask.token];
    if ProperVotes(opts, rec.request, ballots) { ProperVotesCount(opts, rec, ballots); }
  }

  // ---------- What a merge leaves ----------

  /** The people who voted. */
  function People(votes: seq<Vote>): set<string> { set v | v in votes :: v.approverId }

  lemma {:induction false} EarliestKeys(votes: seq<Vote>)
    ensures C.Earliest(votes).Keys == People(votes)
  {
    if votes != [] {
      EarliestKeys(votes[1..]);
      assert votes == [votes[0]] + votes[1..];
      assert People(votes) == {votes[0].approverId} + People(votes[1..]);
    }
  }

  lemma {:induction false} LatestKeys(votes: seq<Vote>)
    ensures C.Latest(votes).Keys == People(votes)
  {
    if votes != [] {
      var front, last := votes[..|votes| - 1], votes[|votes| - 1];
      LatestKeys(front);
      assert votes == front + [last];
      assert People(votes) == People(front) + {last.approverId};
    }
  }

  lemma MergedVoters(local: seq<Vote>, remote: seq<Vote>)
    ensures |MergeVotes(local, remote)| == |People(local) + People(remote)|
  {
    C.MergeVotesIsMinUnion(local, remote);
    LatestKeys(local);
    EarliestKeys(remote);
    var m := C.Earliest(MergeVotes(local, remote));
    assert m.Keys == People(local) + People(remote);
    assert |m| == |m.Keys|;
  }

  /** Nobody in the list voted before v's voter did so with v. */
  ghost predicate NoneSooner(votes: seq<Vote>, v: Vote) {
    forall u :: u in votes && u.approverId == v.approverId ==> v.approvedAt <= u.approvedAt
  }

  lemma {:induction false} UpsertKeepsOther(votes: seq<Vote>, u: Vote, v: Vote)
    requires v in votes && u.approverId != v.approverId
    ensures v in Upsert(votes, u)
  {
    if votes[0].approverId != u.approverId && votes[0] != v { UpsertKeepsOther(votes[1..], u, v); }
  }

  lemma {:induction false} MergeInKeeps(acc: seq<Vote>, remote: seq<Vote>, v: Vote)
    requires v in acc && NoneSooner(remote, v)
    ensures v in MergeIn(acc, remote)
  {
    if remote != [] {
      var front, rv := remote[..|remote| - 1], remote[|remote| - 1];
      assert remote == front + [rv];
      MergeInKeeps(acc, front, v);
      var sofar := MergeIn(acc, front);
      if Earlier(sofar, rv) {
        var i :| 0 <= i < |sofar| && sofar[i] == v;
        assert rv in remote;
        UpsertKeepsOther(sofar, rv, v);
      }
    }
  }

  /** A local vote that no remote one precedes stays as it is, with its cluster, also at equal times. */
  lemma LocalVoteStays(local: seq<Vote>, remote: seq<Vote>, v: Vote)
    requires C.DistinctApprovers(local) && v in local && NoneSooner(remote, v)
    ensures v in MergeVotes(local, remote)
  {
    C.UpsertAllOfDistinct(local);
    MergeInKeeps(local, remote, v);
    StableSortElements(MergeIn(local, remote), ApprovedAt);
  }

  predicate EitherIs(local: Record, remote: Record, status: Status) {
    local.status == status || remote.status == status
  }

  /** Whichever record is local: revoked wins over consumed, consumed over expired, and those over
      everything open, where an approval or enough different voters on both sides together approve. */
  lemma MergedStatus(local: Record, remote: Record)
    ensures var merged := MergeRecord(local, remote);
            var people := People(local.votes) + People(remote.votes);
            && merged.status == (if EitherIs(local, remote, Revoked) then Revoked
                                 else if EitherIs(local, remote, Consumed) then Consumed
                                 else if EitherIs(local, remote, Expired) then Expired
                                 else if EitherIs(local, remote, Approved) then Approved
                                 else if |people| >= local.request.requiredApprovals then Approved
                                 else Pending)
            && merged.request == local.request
  {
    MergedVoters(local.votes, remote.votes);
  }

  /** A consumption time that is known stays, and one that is not is learnt. */
  lemma MergedConsumptionTime(local: Record, remote: Record)
    ensures var at := MergeRecord(local, remote).consumedAt;
            && (forall t :: t != 0 && local.consumedAt == Some(t) ==> at == Some(t))
            && (forall t :: t != 0 && remote.consumedAt == Some(t) && local.consumedAt in {None, Some(0)} ==>
                  at == Some(t))
            && (remote.consumedAt in {None, Some(0)} ==> at == local.consumedAt)
  {
  }

  /** Some record of this token, in the store or in the snapshot, has the status. */
  ghost predicate SomewhereIs(records: Records, snapshot: seq<Record>, token: string, status: Status) {
    || (token in records && records[token].status == status)
    || exists r :: r in snapshot && r.request.token == token && r.status == status
  }

  ghost predicate Somewhere(records: Records, snapshot: seq<Record>, token: string) {
    token in records || exists r :: r in snapshot && r.request.token == token
  }

  lemma SomewhereSnoc(records: Records, front: seq<Record>, last: Record, token: string, status: Status)
    ensures SomewhereIs(records, front + [last], token, status)
       <==> SomewhereIs(records, front, token, status) || (last.request.token == token && last.status == status)
    ensures Somewhere(records, front + [last], token)
       <==> Somewhere(records, front, token) || last.request.token == token
  {
    assert last in front + [last];
    assert forall r :: r in front ==> r in front + [last];
  }

  /** The closed status that the known records of a token demand, if one does. */
  ghost predicate ClosedAs(records: Records, snapshot: seq<Record>, token: string, status: Status) {
    if SomewhereIs(records, snapshot, token, Revoked) then status == Revoked
    else if SomewhereIs(records, snapshot, token, Consumed) then status == Consumed
    else if SomewhereIs(records, snapshot, token, Expired) then status == Expired
    else status == Approved || status == Pending
  }

  /** After any snapshot a token is REVOKED exactly if some known record of it was; otherwise CONSUMED
      exactly if some was, and otherwise EXPIRED exactly if some was. */
  lemma {:induction false} MergedTokenClosedAs(records: Records, snapshot: seq<Record>, token: string)
    ensures token in MergeAll(records, snapshot) <==> Somewhere(records, snapshot, token)
    ensures token in MergeAll(records, snapshot) ==>
              ClosedAs(records, snapshot, token, MergeAll(records, snapshot)[token].status)
  {
    if snapshot != [] {
      var front, last := snapshot[..|snapshot| - 1], snapshot[|snapshot| - 1];
      assert snapshot == front + [last];
      MergedTokenClosedAs(records, front, token);
      SomewhereSnoc(records, front, last, token, Revoked);
      SomewhereSnoc(records, front, last, token, Consumed);
      SomewhereSnoc(records, front, last, token, Expired);
      if last.request.token == token && token in MergeAll(records, front) {
        MergedStatus(MergeAll(records, front)[token], last);
      }
    }
  }

  /** A revocation that reaches a replica by another's export shows there. */
  lemma RevocationArrives(records: Records, other: Records, snapshot: seq<Record>, token: string)
    requires C.ExportOf(snapshot, other) && token in other
    requires other[token].request.token == token && other[token].status == Revoked
    ensures token in MergeAll(records, snapshot) && MergeAll(records, snapshot)[token].status == Revoked
  {
    assert other[token] in other.Values;
    MergedTokenClosedAs(records, snapshot, token);
    assert SomewhereIs(records, snapshot, token, Revoked);
  }

  /** So does a consumption, unless a revocation is known on either side. */
  lemma ConsumptionArrives(records: Records, other: Records, snapshot: seq<Record>, token: string)
    requires C.ExportOf(snapshot, other) && token in other
    requires forall t :: t in other ==> other[t].request.token == t
    requires other[token].status == Consumed
    ensures var after := MergeAll(records, snapshot);
            token in after && after[token].status == if token in records && records[token].status == Revoked
                                                     then Revoked else Consumed
  {
    assert other[token] in other.Values;
    MergedTokenClosedAs(records, snapshot, token);
    forall r | r in snapshot && r.request.token == token ensures r == other[token] {
      assert r in other.Values;
    }
    assert SomewhereIs(records, snapshot, token, Consumed);
  }

  // ---------- Which tokens are reported as approved ----------

  /** The token stands APPROVED before the snapshot or after some part of it. */
  ghost predicate ApprovedSometime(records: Records, snapshot: seq<Record>, token: string) {
    exists k :: 0 <= k <= |snapshot| && ApprovedAfter(records, snapshot, k, token)
  }

  predicate ApprovedAfter(records: Records, snapshot: seq<Record>, k: int, token: string)
    requires 0 <= k <= |snapshot|
  {
    ApprovedIn(MergeAll(records, snapshot[..k]), token)
  }

  lemma SometimeSnoc(records: Records, snapshot: seq<Record>, token: string)
    requires snapshot != []
    ensures ApprovedSometime(records, snapshot, token)
       <==> ApprovedSometime(records, snapshot[..|snapshot| - 1], token)
            || ApprovedAfter(records, snapshot, |snapshot|, token)
  {
    var front := snapshot[..|snapshot| - 1];
    forall k | 0 <= k <= |front|
      ensures ApprovedAfter(records, front, k, token) <==> ApprovedAfter(records, snapshot, k, token)
    {
      assert front[..k] == snapshot[..k];
    }
  }

  predicate ApprovedIn(records: Records, token: string) {
    token in records && records[token].status == Approved
  }

  /** One merged record: a token that is no longer PENDING stays so, and does not become APPROVED. */
  lemma PendingOnce(before: Records, remote: Record, token: string)
    ensures var after := MergeOne(before, remote);
            && (token in before && before[token].status != Pending ==>
                  token in after && after[token].status != Pending
                  && (ApprovedIn(after, token) ==> ApprovedIn(before, token)))
            && (remote.request.token != token ==> (ApprovedIn(after, token) <==> ApprovedIn(before, token)))
  {
    if remote.request.token == token && token in before { MergedStatus(before[token], remote); }
  }

  lemma NewlyApprovedSnoc(records: Records, snapshot: seq<Record>, token: string)
    requires snapshot != []
    ensures var front, last := snapshot[..|snapshot| - 1], snapshot[|snapshot| - 1];
            var before := MergeAll(records, front);
            var now := last.request.token == token && !ApprovedIn(before, token)
                       && ApprovedIn(MergeOne(before, last), token);
            && (token in NewlyApproved(records, snapshot) <==> token in NewlyApproved(records, front) || now)
            && multiset(NewlyApproved(records, snapshot))[token]
               == multiset(NewlyApproved(records, front))[token] + if now then 1 else 0
  {
  }

  /** A merge reports a token exactly if it was not APPROVED before and became so along the snapshot, and
      reports it once; what closed it later does not matter. */
  lemma {:induction false} NewlyApprovedExactly(records: Records, snapshot: seq<Record>, token: string)
    ensures token in NewlyApproved(records, snapshot)
       <==> ApprovedSometime(records, snapshot, token) && !ApprovedIn(records, token)
    ensures multiset(NewlyApproved(records, snapshot))[token] <= 1
    ensures ApprovedSometime(records, snapshot, token) ==>
              token in MergeAll(records, snapshot) && MergeAll(records, snapshot)[token].status != Pending
  {
    if snapshot == [] {
      assert snapshot[..0] == snapshot;
      if ApprovedIn(records, token) { StartsApproved(records, snapshot, token); }
    } else {
      var front, last := snapshot[..|snapshot| - 1], snapshot[|snapshot| - 1];
      var before := MergeAll(records, front);
      assert snapshot[..|snapshot|] == snapshot;
      assert ApprovedAfter(records, snapshot, |snapshot|, token) <==> ApprovedIn(MergeOne(before, last), token);
      NewlyApprovedExactly(records, front, token);
      NewlyApprovedSnoc(records, snapshot, token);
      SometimeSnoc(records, snapshot, token);
      PendingOnce(before, last, token);
      if ApprovedIn(records, token) { StartsApproved(records, front, token); }
      if ApprovedIn(before, token) { EndsApproved(records, front, token); }
    }
  }

  lemma EndsApproved(records: Records, snapshot: seq<Record>, token: string)
    requires ApprovedIn(MergeAll(records, snapshot), token)
    ensures ApprovedSometime(records, snapshot, token)
  {
    assert snapshot[..|snapshot|] == snapshot;
    assert ApprovedAfter(records, snapshot, |snapshot|, token);
  }

  lemma StartsApproved(records: Records, snapshot: seq<Record>, token: string)
    requires ApprovedIn(records, token)
    ensures ApprovedSometime(records, snapshot, token)
  {
    assert snapshot[..0] == [];
    assert ApprovedAfter(records, snapshot, 0, token);
  }
}
