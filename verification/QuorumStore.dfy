/** The M-of-N approval store and its records. */
module QuorumStore {
  // What each operation does to one record, and the store object whose methods update the record
  // map in place.

  import opened Basics

  datatype Status = Pending | Approved | Expired | Consumed | Revoked {
    /** Precedence used when two records for one token are joined. */
    function Rank(): nat {
      match this
      case Pending => 1
      case Approved => 2
      case Expired => 3
      case Consumed => 4
      case Revoked => 5
    }

    predicate Terminal() { Expired? || Consumed? || Revoked? }
  }

  datatype Vote = Vote(approverId: string, clusterId: string, approvedAt: int)

  /** The part of a record that is fixed when the token is generated. */
  datatype Request = Request(token: string, requestId: string, capabilityId: string, payloadHash: string,
                             riskLevel: string, sideEffectLevel: string, requestedBy: string,
                             createdAt: int, expiresAt: int, requiredApprovals: int)

  datatype Record = Record(request: Request, status: Status, votes: seq<Vote>, consumedAt: Option<int>)

  datatype Options = Options(clusterId: string, defaultRequiredApprovals: int, riskQuorumMap: map<string, int>,
                             disallowSelfApproval: bool, defaultTtlMs: int)

  /** What a caller may configure; a risk level may be given without a quorum. */
  datatype Settings = Settings(clusterId: Option<string>, defaultRequiredApprovals: Option<int>,
                               riskQuorumMap: Option<map<string, Option<int>>>, disallowSelfApproval: Option<bool>,
                               defaultTtlMs: Option<int>)

  type Records = map<string, Record>

  // ---------- Options ----------

  const DEFAULT_QUORUMS := map["low" := 1, "medium" := 1, "high" := 1, "critical" := 2]
  const DEFAULT_TTL_MS := 15 * 60 * 1000

  /** The default quorums, overlaid with the given ones. */
  function Quorums(given: map<string, Option<int>>): map<string, int> {
    map level | level in DEFAULT_QUORUMS.Keys + given.Keys && (level in given ==> given[level].Some?) ::
      if level in given then given[level].value else DEFAULT_QUORUMS[level]
  }

  function OptionsOf(s: Settings): Options {
    Options(Or(s.clusterId, "cluster-primary"), Or(s.defaultRequiredApprovals, 1), Quorums(Or(s.riskQuorumMap, map[])),
            Or(s.disallowSelfApproval, true), Or(s.defaultTtlMs, DEFAULT_TTL_MS))
  }

  // ---------- What each operation does to one record ----------

  function NewRecord(opts: Options, token: string, requestId: string, capabilityId: string, payloadHash: string,
                     riskLevel: string, sideEffectLevel: string, requestedBy: string,
                     ttlMs: Option<int>, now: int): Record
  {
    var quorum := if riskLevel in opts.riskQuorumMap then opts.riskQuorumMap[riskLevel]
                  else opts.defaultRequiredApprovals;
    var ttl := if ttlMs.Some? then ttlMs.value else opts.defaultTtlMs;
    Record(Request(token, requestId, capabilityId, payloadHash, riskLevel, sideEffectLevel, requestedBy,
                   now, now + ttl, if quorum > 1 then quorum else 1),
           Pending, [], None)
  }

  function AtLeastOne(n: int): int { if n > 1 then n else 1 }

  /** How many votes a token asks for: what is given for its risk level; for a level given without a
      number, or unknown, the given fallback or else one; two for critical and one for the other
      known levels where nothing is given. A number below one counts as one. */
  lemma QuorumOfLevel(s: Settings, token: string, requestId: string, capabilityId: string, payloadHash: string,
                      riskLevel: string, sideEffectLevel: string, requestedBy: string, ttlMs: Option<int>, now: int)
    ensures var q := NewRecord(OptionsOf(s), token, requestId, capabilityId, payloadHash, riskLevel, sideEffectLevel,
                               requestedBy, ttlMs, now).request.requiredApprovals;
            var given := Or(s.riskQuorumMap, map[]);
            var fallback := AtLeastOne(Or(s.defaultRequiredApprovals, 1));
            if riskLevel in given then
              q == if given[riskLevel].Some? then AtLeastOne(given[riskLevel].value) else fallback
            else if riskLevel == "critical" then q == 2
            else if riskLevel in ["low", "medium", "high"] then q == 1
            else q == fallback
  {
  }

  predicate Voted(votes: seq<Vote>, approverId: string) {
    exists i :: 0 <= i < |votes| && votes[i].approverId == approverId
  }

  /** approveToken on an existing record: the updated record and the reported result. */
  function Approve(rec: Record, opts: Options, actor: string, now: int): (Record, bool) {
    if now > rec.request.expiresAt && rec.status.Pending? then (rec.(status := Expired), false)
    else if !rec.status.Pending? && !rec.status.Approved? then (rec, false)
    else if opts.disallowSelfApproval && actor == rec.request.requestedBy then (rec, false)
    else
      var votes := if Voted(rec.votes, actor) then rec.votes
                   else rec.votes + [Vote(actor, opts.clusterId, now)];
      var status := if |votes| >= rec.request.requiredApprovals then Approved else rec.status;
      (rec.(votes := votes, status := status), status.Approved?)
  }

  /** validateAndConsume on an existing record. */
  function Consume(rec: Record, capabilityId: string, payloadHash: string, now: int): (Record, bool) {
    if now > rec.request.expiresAt then (rec.(status := Expired), false)
    else if !rec.status.Approved? || |rec.votes| < rec.request.requiredApprovals then (rec, false)
    else if rec.request.capabilityId != capabilityId || rec.request.payloadHash != payloadHash then (rec, false)
    else (rec.(status := Consumed, consumedAt := Some(now)), true)
  }

  /** revokeToken on an existing record. */
  function Revoke(rec: Record): (Record, bool) {
    if rec.status.Consumed? then (rec, false) else (rec.(status := Revoked), true)
  }

  /** What listing the pending approvals does to a record. */
  function ExpireIfDue(rec: Record, now: int): Record {
    if rec.status.Pending? && now > rec.request.expiresAt then rec.(status := Expired) else rec
  }

  /** The store after every overdue PENDING record has been marked EXPIRED. */
  function ExpireAll(records: Records, now: int): Records {
    map t | t in records :: ExpireIfDue(records[t], now)
  }

  /** Every record of the listed tokens, marked EXPIRED where it is overdue. */
  function Sweep(records: Records, tokens: seq<string>, now: int): (swept: Records)
    requires forall t :: t in tokens ==> t in records
    ensures swept.Keys == records.Keys
  {
    if tokens == [] then records
    else
      assert tokens[|tokens| - 1] in tokens;
      var t := tokens[|tokens| - 1];
      Sweep(records, tokens[..|tokens| - 1], now)[t := ExpireIfDue(records[t], now)]
  }

  /** A sweep touches the listed tokens only and does to each what one visit does. */
  lemma {:induction false} SweepAt(records: Records, tokens: seq<string>, now: int, t: string)
    requires forall u :: u in tokens ==> u in records
    requires t in records
    ensures Sweep(records, tokens, now)[t] == if t in tokens then ExpireIfDue(records[t], now) else records[t]
  {
    if tokens != [] {
      assert tokens == tokens[..|tokens| - 1] + [tokens[|tokens| - 1]];
      SweepAt(records, tokens[..|tokens| - 1], now, t);
    }
  }

  /** The records of the listed tokens that stay PENDING at this time. */
  function Live(records: Records, tokens: seq<string>, now: int): seq<Record>
    requires forall t :: t in tokens ==> t in records
  {
    if tokens == [] then []
    else
      assert tokens[|tokens| - 1] in tokens;
      var rec := ExpireIfDue(records[tokens[|tokens| - 1]], now);
      Live(records, tokens[..|tokens| - 1], now) + if rec.status.Pending? then [rec] else []
  }

  lemma SweepIsExpireAll(records: Records, tokens: seq<string>, now: int)
    requires forall t :: t in tokens <==> t in records
    ensures Sweep(records, tokens, now) == ExpireAll(records, now)
  {
    forall t | t in records ensures Sweep(records, tokens, now)[t] == ExpireAll(records, now)[t] {
      SweepAt(records, tokens, now, t);
    }
  }

  /** One more token in a sweep. */
  lemma SweepNext(records: Records, tokens: seq<string>, k: nat, now: int)
    requires forall u :: u in tokens ==> u in records
    requires k < |tokens| && tokens[k] !in tokens[..k]
    ensures var rec := ExpireIfDue(Sweep(records, tokens[..k], now)[tokens[k]], now);
            && Sweep(records, tokens[..k + 1], now) == Sweep(records, tokens[..k], now)[tokens[k] := rec]
            && Live(records, tokens[..k + 1], now)
               == Live(records, tokens[..k], now) + if rec.status.Pending? then [rec] else []
  {
    assert tokens[..k + 1][..k] == tokens[..k];
    SweepAt(records, tokens[..k], now, tokens[k]);
  }

  /** The listing shows exactly the requests that are PENDING and not overdue. */
  lemma {:induction false} LiveExactly(records: Records, tokens: seq<string>, now: int, r: Record)
    requires forall t :: t in tokens ==> t in records
    ensures r in Live(records, tokens, now)
       <==> exists t :: t in tokens && records[t] == r && r.status.Pending? && now <= r.request.expiresAt
  {
    if tokens != [] {
      var front, t := tokens[..|tokens| - 1], tokens[|tokens| - 1];
      assert tokens == front + [t];
      LiveExactly(records, front, now, r);
      if r in Live(records, front, now) {
        var u :| u in front && records[u] == r && r.status.Pending? && now <= r.request.expiresAt;
        assert u in tokens;
      } else if r in Live(records, tokens, now) {
        assert t in tokens && records[t] == r;
      }
    }
  }

  // ---------- Merging one remote record ----------

  function ApprovedAt(v: Vote): int { v.approvedAt }

  /** An insertion-ordered map keyed by approver: an existing key keeps its place. */
  function Upsert(votes: seq<Vote>, v: Vote): seq<Vote> {
    if votes == [] then [v]
    else if votes[0].approverId == v.approverId then [v] + votes[1..]
    else [votes[0]] + Upsert(votes[1..], v)
  }

  function UpsertAll(acc: seq<Vote>, votes: seq<Vote>): seq<Vote> {
    if votes == [] then acc else Upsert(UpsertAll(acc, votes[..|votes| - 1]), votes[|votes| - 1])
  }

  /** True when the remote vote must replace or extend what is known about its approver. */
  predicate Earlier(known: seq<Vote>, rv: Vote) {
    forall i :: 0 <= i < |known| && known[i].approverId == rv.approverId ==> rv.approvedAt < known[i].approvedAt
  }

  function MergeIn(acc: seq<Vote>, remote: seq<Vote>): seq<Vote> {
    if remote == [] then acc
    else
      var sofar := MergeIn(acc, remote[..|remote| - 1]);
      var rv := remote[|remote| - 1];
      if Earlier(sofar, rv) then Upsert(sofar, rv) else sofar
  }

  function MergeVotes(local: seq<Vote>, remote: seq<Vote>): seq<Vote> {
    StableSort(MergeIn(UpsertAll([], local), remote), ApprovedAt)
  }

  function MergeStatus(local: Status, remote: Status, votes: nat, required: int): Status {
    var joined := if remote.Rank() > local.Rank() then remote else local;
    if joined.Pending? && votes >= required then Approved else joined
  }

  /** Truthiness of an optional epoch time. */
  predicate Truthy(t: Option<int>) { t.Some? && t.value != 0 }

  function MergeRecord(local: Record, remote: Record): Record {
    var votes := MergeVotes(local.votes, remote.votes);
    Record(local.request,
           MergeStatus(local.status, remote.status, |votes|, local.request.requiredApprovals),
           votes,
           if Truthy(remote.consumedAt) && !Truthy(local.consumedAt) then remote.consumedAt else local.consumedAt)
  }

  function MergeOne(records: Records, remote: Record): Records {
    var t := remote.request.token;
    records[t := if t in records then MergeRecord(records[t], remote) else remote]
  }

  /** Merging a snapshot folds its records in order. */
  function MergeAll(records: Records, snapshot: seq<Record>): Records {
    if snapshot == [] then records
    else MergeOne(MergeAll(records, snapshot[..|snapshot| - 1]), snapshot[|snapshot| - 1])
  }

  predicate IsApproved(records: Records, token: string) {
    token in records && records[token].status.Approved?
  }

  /** Tokens that a snapshot turns from anything else into APPROVED, in snapshot order. */
  function NewlyApproved(records: Records, snapshot: seq<Record>): seq<string> {
    if snapshot == [] then []
    else
      var before := MergeAll(records, snapshot[..|snapshot| - 1]);
      var t := snapshot[|snapshot| - 1].request.token;
      NewlyApproved(records, snapshot[..|snapshot| - 1])
      + if !IsApproved(before, t) && IsApproved(MergeOne(before, snapshot[|snapshot| - 1]), t) then [t] else []
  }

  // ---------- One call on a whole store ----------

  datatype Op =
    | Generate(token: string, requestId: string, capabilityId: string, payloadHash: string,
               riskLevel: string, sideEffectLevel: string, requestedBy: string, ttlMs: Option<int>, now: int)
    | CastVote(token: string, actor: string, now: int)
    | Use(token: string, capabilityId: string, payloadHash: string, now: int)
    | Withdraw(token: string)
    | ListPending(now: int)
    | Merge(snapshot: seq<Record>)

  /** The store after a call, and what the call reports. */
  function Perform(opts: Options, records: Records, op: Op): (Records, bool) {
    match op
    case Generate(token, requestId, capabilityId, payloadHash, risk, side, who, ttl, now) =>
      (records[token := NewRecord(opts, token, requestId, capabilityId, payloadHash, risk, side, who, ttl, now)], true)
    case CastVote(token, actor, now) =>
      if token !in records then (records, false)
      else var (rec, ok) := Approve(records[token], opts, actor, now); (records[token := rec], ok)
    case Use(token, capabilityId, payloadHash, now) =>
      if token !in records then (records, false)
      else var (rec, ok) := Consume(records[token], capabilityId, payloadHash, now); (records[token := rec], ok)
    case Withdraw(token) =>
      if token !in records then (records, false)
      else var (rec, ok) := Revoke(records[token]); (records[token := rec], ok)
    case ListPending(now) => (ExpireAll(records, now), true)
    case Merge(snapshot) => (MergeAll(records, snapshot), true)
  }

  // ---------- The store object ----------

  class QuorumApprovalStore {
    const opts: Options
    var records: Records
    /** Insertion order of the record map. */
    var order: seq<string>

    ghost predicate Valid()
      reads this
    {
      && NoDuplicates(order)
      && (forall t :: t in order <==> t in records)
      && (forall t :: t in records ==> records[t].request.token == t)
    }

    constructor (settings: Settings)
      ensures Valid() && opts == OptionsOf(settings) && records == map[]
    {
      opts := OptionsOf(settings);
      records := map[];
      order := [];
    }

    /** The token is the random identifier the caller drew. */
    method GenerateToken(token: string, requestId: string, capabilityId: string, payloadHash: string,
                         riskLevel: string, sideEffectLevel: string, requestedBy: string,
                         ttlMs: Option<int>, now: int)
      requires Valid()
      modifies this
      ensures Valid()
      ensures records == Perform(opts, old(records), Generate(token, requestId, capabilityId, payloadHash, riskLevel,
                                                              sideEffectLevel, requestedBy, ttlMs, now)).0
      ensures token in records
      ensures var rec := records[token];
              && rec.status == Pending && rec.votes == [] && rec.consumedAt == None
              && rec.request.token == token && rec.request.requestId == requestId
              && rec.request.capabilityId == capabilityId && rec.request.payloadHash == payloadHash
              && rec.request.riskLevel == riskLevel && rec.request.sideEffectLevel == sideEffectLevel
              && rec.request.requestedBy == requestedBy && rec.request.createdAt == now
              && rec.request.expiresAt == now + if ttlMs.Some? then ttlMs.value else opts.defaultTtlMs
      ensures forall t :: t in records <==> t == token || t in old(records)
      ensures forall t :: t in old(records) && t != token ==> records[t] == old(records)[t]
    {
      if token !in records {
        order := order + [token];
      }
      records := records[token := NewRecord(opts, token, requestId, capabilityId, payloadHash,
                                            riskLevel, sideEffectLevel, requestedBy, ttlMs, now)];
    }

    /** Lists the live requests in insertion order and marks the overdue ones EXPIRED on the way. */
    method GetPendingApprovals(now: int) returns (pending: seq<Record>)
      requires Valid()
      modifies this`records
      ensures Valid()
      ensures records == Perform(opts, old(records), ListPending(now)).0
      ensures pending == Live(old(records), order, now)
    {
      pending := SweepPending(now);
    }

    /** The loop over the records. */
    method SweepPending(now: int) returns (pending: seq<Record>)
      requires Valid()
      modifies this`records
      ensures Valid()
      ensures records == ExpireAll(old(records), now)
      ensures pending == Live(old(records), order, now)
    {
      ghost var before := records;
      pending := [];
      var i := 0;
      while i < |order|
        invariant 0 <= i <= |order|
        invariant records == Sweep(before, order[..i], now)
        invariant pending == Live(before, order[..i], now)
      {
        SweepNext(before, order, i, now);
        var rec := ExpireIfDue(records[order[i]], now);
        records := records[order[i] := rec];
        if rec.status.Pending? {
          pending := pending + [rec];
        }
        i := i + 1;
      }
      assert order[..i] == order;
      SweepIsExpireAll(before, order, now);
    }

    method ApproveToken(token: string, actor: string, now: int) returns (ok: bool)
      requires Valid()
      modifies this`records
      ensures Valid()
      ensures (records, ok) == Perform(opts, old(records), CastVote(token, actor, now))
    {
      if token !in records { return false; }
      var rec := records[token];
      assert records == records[token := rec];
      if now > rec.request.expiresAt && rec.status.Pending? {
        records := records[token := rec.(status := Expired)];
        return false;
      }
      if !rec.status.Pending? && !rec.status.Approved? { return false; }
      if opts.disallowSelfApproval && actor == rec.request.requestedBy { return false; }
      if !Voted(rec.votes, actor) {
        rec := rec.(votes := rec.votes + [Vote(actor, opts.clusterId, now)]);
      }
      if |rec.votes| >= rec.request.requiredApprovals {
        rec := rec.(status := Approved);
      }
      records := records[token := rec];
      return rec.status.Approved?;
    }

    method ValidateAndConsume(token: string, capabilityId: string, payloadHash: string, now: int)
      returns (ok: bool)
      requires Valid()
      modifies this`records
      ensures Valid()
      ensures (records, ok) == Perform(opts, old(records), Use(token, capabilityId, payloadHash, now))
    {
      if token !in records { return false; }
      var rec := records[token];
      assert records == records[token := rec];
      if now > rec.request.expiresAt {
        records := records[token := rec.(status := Expired)];
        return false;
      }
      if !rec.status.Approved? || |rec.votes| < rec.request.requiredApprovals { return false; }
      if rec.request.capabilityId != capabilityId || rec.request.payloadHash != payloadHash { return false; }
      records := records[token := rec.(status := Consumed, consumedAt := Some(now))];
      return true;
    }

    method RevokeToken(token: string) returns (ok: bool)
      requires Valid()
      modifies this`records
      ensures Valid()
      ensures (records, ok) == Perform(opts, old(records), Withdraw(token))
    {
      if token !in records { return false; }
      var rec := records[token];
      assert records == records[token := rec];
      if rec.status.Consumed? { return false; }
      records := records[token := rec.(status := Revoked)];
      return true;
    }

    /** Every record once, in insertion order. */
    method ExportStateSnapshot() returns (snapshot: seq<Record>)
      requires Valid()
      ensures |snapshot| == |order|
      ensures forall k :: 0 <= k < |order| ==> snapshot[k] == records[order[k]]
      ensures forall r :: r in snapshot <==> r in records.Values
      ensures NoDuplicates(snapshot)
    {
      snapshot := seq(|order|, k requires 0 <= k < |order| reads this requires Valid() => records[order[k]]);
      forall r ensures r in snapshot <==> r in records.Values {
        if r in records.Values {
          var t :| t in records && records[t] == r;
          var k :| 0 <= k < |order| && order[k] == t;
          assert snapshot[k] == r;
        }
      }
    }

    /** Union of votes by approver, join of statuses, and promotion at quorum, record by record. */
    method MergeRemoteSnapshot(snapshot: seq<Record>) returns (merged: nat, newlyApproved: seq<string>)
      requires Valid()
      modifies this
      ensures Valid()
      ensures records == Perform(opts, old(records), Merge(snapshot)).0
      ensures merged == |snapshot| && newlyApproved == NewlyApproved(old(records), snapshot)
    {
      merged, newlyApproved := MergeRecords(snapshot);
    }

    /** The merge loop. */
    method MergeRecords(snapshot: seq<Record>) returns (merged: nat, newlyApproved: seq<string>)
      requires Valid()
      modifies this
      ensures Valid()
      ensures records == MergeAll(old(records), snapshot)
      ensures merged == |snapshot| && newlyApproved == NewlyApproved(old(records), snapshot)
    {
      merged, newlyApproved := 0, [];
      ghost var before := records;
      while merged < |snapshot|
        invariant merged <= |snapshot|
        invariant Valid()
        invariant records == MergeAll(before, snapshot[..merged])
        invariant newlyApproved == NewlyApproved(before, snapshot[..merged])
      {
        assert snapshot[..merged + 1][..merged] == snapshot[..merged];
        var isNew := MergeRemoteRecord(snapshot[merged]);
        if isNew {
          newlyApproved := newlyApproved + [snapshot[merged].request.token];
        }
        merged := merged + 1;
      }
      assert snapshot[..merged] == snapshot;
    }

    /** One turn of the merge loop; the result says whether the record became APPROVED. */
    method MergeRemoteRecord(remote: Record) returns (isNew: bool)
      requires Valid()
      modifies this
      ensures Valid()
      ensures records == MergeOne(old(records), remote)
      ensures isNew <==> !IsApproved(old(records), remote.request.token) && IsApproved(records, remote.request.token)
    {
      var t := remote.request.token;
      if t !in records {
        records := records[t := remote];
        order := order + [t];
        return remote.status.Approved?;
      }
      var wasApproved := records[t].status.Approved?;
      var joined := MergeIntoLocal(records[t], remote);
      records := records[t := joined];
      return !wasApproved && joined.status.Approved?;
    }

    static method MergeIntoLocal(local: Record, remote: Record) returns (rec: Record)
      ensures rec == MergeRecord(local, remote)
    {
      var votes := MergeVoteLists(local.votes, remote.votes);
      rec := local.(votes := votes);
      if remote.status.Rank() > rec.status.Rank() {
        rec := rec.(status := remote.status);
      }
      if rec.status.Pending? && |votes| >= rec.request.requiredApprovals {
        rec := rec.(status := Approved);
      }
      if Truthy(remote.consumedAt) && !Truthy(rec.consumedAt) {
        rec := rec.(consumedAt := remote.consumedAt);
      }
    }

    /** Set union keyed by approver that keeps the earlier vote, ordered by vote time. */
    static method MergeVoteLists(local: seq<Vote>, remote: seq<Vote>) returns (votes: seq<Vote>)
      ensures votes == MergeVotes(local, remote)
    {
      votes := [];
      var i := 0;
      while i < |local|
        invariant 0 <= i <= |local|
        invariant votes == UpsertAll([], local[..i])
      {
        assert local[..i + 1][..i] == local[..i];
        votes := Upsert(votes, local[i]);
        i := i + 1;
      }
      assert local[..i] == local;
      var j := 0;
      while j < |remote|
        invariant 0 <= j <= |remote|
        invariant votes == MergeIn(UpsertAll([], local), remote[..j])
      {
        assert remote[..j + 1][..j] == remote[..j];
        if Earlier(votes, remote[j]) {
          votes := Upsert(votes, remote[j]);
        }
        j := j + 1;
      }
      assert remote[..j] == remote;
      votes := StableSort(votes, ApprovedAt);
    }
  }
}
