/** Merging snapshots is a lattice join. */
module QuorumConvergence {
  // What every replica sees of a token depends only on which records reached it. The observable
  // part of a record is its fixed request, its status and the map from approver to earliest vote.

  import opened Basics
  import opened QuorumStore
  import PointwiseJoin

  // ---------- Votes as a map from approver to earliest vote time ----------

  ghost function Sooner(m: map<string, int>, v: Vote): map<string, int> {
    if v.approverId in m && m[v.approverId] <= v.approvedAt then m else m[v.approverId := v.approvedAt]
  }

  ghost function Earliest(votes: seq<Vote>): map<string, int> {
    if votes == [] then map[] else Sooner(Earliest(votes[1..]), votes[0])
  }

  ghost function MinUnion(a: map<string, int>, b: map<string, int>): map<string, int> {
    PointwiseJoin.JoinMaps(a, b, Min)
  }

  lemma MinUnionSooner(a: map<string, int>, b: map<string, int>, v: Vote)
    ensures MinUnion(a, Sooner(b, v)) == Sooner(MinUnion(a, b), v)
  {
    var l, r := MinUnion(a, Sooner(b, v)), Sooner(MinUnion(a, b), v);
    assert l.Keys == r.Keys;
    forall k | k in l ensures l[k] == r[k] { }
  }

  /** As many votes as approvers. */
  ghost predicate DistinctApprovers(votes: seq<Vote>) {
    |Earliest(votes)| == |votes|
  }

  lemma {:induction false} EarliestSnoc(votes: seq<Vote>, v: Vote)
    ensures Earliest(votes + [v]) == Sooner(Earliest(votes), v)
  {
    if votes == [] {
      assert (votes + [v])[1..] == [];
    } else {
      assert (votes + [v])[1..] == votes[1..] + [v];
      EarliestSnoc(votes[1..], v);
    }
  }

  lemma InsertLast(votes: seq<Vote>, v: Vote)
    requires votes != [] && v.approvedAt < votes[|votes| - 1].approvedAt
    ensures InsertByKey(votes, v, ApprovedAt) == InsertByKey(votes[..|votes| - 1], v, ApprovedAt) + [votes[|votes| - 1]]
  {
  }

  lemma SoonerCommutes(m: map<string, int>, v: Vote, w: Vote)
    ensures Sooner(Sooner(m, v), w) == Sooner(Sooner(m, w), v)
  {
  }

  lemma {:induction false} EarliestOfInsert(votes: seq<Vote>, v: Vote)
    ensures Earliest(InsertByKey(votes, v, ApprovedAt)) == Sooner(Earliest(votes), v)
  {
    EarliestSnoc(votes, v);
    if votes != [] && v.approvedAt < votes[|votes| - 1].approvedAt {
      var front, last := votes[..|votes| - 1], votes[|votes| - 1];
      assert votes == front + [last];
      InsertLast(votes, v);
      EarliestOfInsert(front, v);
      EarliestSnoc(InsertByKey(front, v, ApprovedAt), last);
      EarliestSnoc(front, last);
      SoonerCommutes(Earliest(front), v, last);
    }
  }

  /** Sorting by vote time does not change who voted or when. */
  lemma {:induction false} EarliestOfSort(votes: seq<Vote>)
    ensures Earliest(StableSort(votes, ApprovedAt)) == Earliest(votes)
  {
    if votes != [] {
      var front, last := votes[..|votes| - 1], votes[|votes| - 1];
      assert votes == front + [last];
      EarliestOfSort(front);
      EarliestOfInsert(StableSort(front, ApprovedAt), last);
      EarliestSnoc(front, last);
    }
  }

  lemma {:induction false} VotesBoundEarliest(votes: seq<Vote>)
    ensures |Earliest(votes)| <= |votes|
    ensures forall i :: 0 <= i < |votes| ==> votes[i].approverId in Earliest(votes)
                                             && Earliest(votes)[votes[i].approverId] <= votes[i].approvedAt
  {
    if votes != [] {
      VotesBoundEarliest(votes[1..]);
      assert forall i :: 1 <= i < |votes| ==> votes[i] == votes[1..][i - 1];
    }
  }

  lemma DistinctTail(votes: seq<Vote>)
    requires votes != [] && DistinctApprovers(votes)
    ensures DistinctApprovers(votes[1..]) && votes[0].approverId !in Earliest(votes[1..])
  {
    VotesBoundEarliest(votes[1..]);
  }

  ghost predicate NoTwoBySame(votes: seq<Vote>) {
    forall i, j :: 0 <= i < j < |votes| ==> votes[i].approverId != votes[j].approverId
  }

  lemma NoTwoBySameTail(votes: seq<Vote>)
    requires votes != []
    ensures NoTwoBySame(votes) <==>
              NoTwoBySame(votes[1..]) && forall j :: 1 <= j < |votes| ==> votes[0].approverId != votes[j].approverId
  {
    var tail := votes[1..];
    assert forall i :: 1 <= i < |votes| ==> votes[i] == tail[i - 1];
    if !NoTwoBySame(tail) {
      var i, j :| 0 <= i < j < |tail| && tail[i].approverId == tail[j].approverId;
      assert votes[i + 1].approverId == votes[j + 1].approverId;
    }
  }

  /** A vote list has one vote per approver exactly when no two positions share an approver. */
  lemma {:induction false} DistinctApproversMeaning(votes: seq<Vote>)
    ensures DistinctApprovers(votes) <==> NoTwoBySame(votes)
  {
    if votes != [] {
      var tail := votes[1..];
      DistinctApproversMeaning(tail);
      NoTwoBySameTail(votes);
      VotesBoundEarliest(tail);
      KeysAreApprovers(tail);
      if DistinctApprovers(votes) {
        DistinctTail(votes);
      } else if DistinctApprovers(tail) {
        var i :| 0 <= i < |tail| && tail[i].approverId == votes[0].approverId;
        assert votes[i + 1].approverId == votes[0].approverId;
      }
    }
  }

  lemma {:induction false} KeysAreApprovers(votes: seq<Vote>)
    ensures forall k :: k in Earliest(votes) ==>
              exists i :: 0 <= i < |votes| && votes[i].approverId == k && votes[i].approvedAt == Earliest(votes)[k]
  {
    if votes != [] {
      KeysAreApprovers(votes[1..]);
      forall k | k in Earliest(votes)
        ensures exists i :: 0 <= i < |votes| && votes[i].approverId == k && votes[i].approvedAt == Earliest(votes)[k]
      {
        if k in Earliest(votes[1..]) && Earliest(votes)[k] == Earliest(votes[1..])[k] {
          var i :| 0 <= i < |votes| - 1 && votes[1..][i].approverId == k
                   && votes[1..][i].approvedAt == Earliest(votes)[k];
          assert votes[i + 1] == votes[1..][i];
        } else {
          assert votes[0].approverId == k;
        }
      }
    }
  }

  lemma {:induction false} UpsertFresh(votes: seq<Vote>, v: Vote)
    requires v.approverId !in Earliest(votes)
    ensures Upsert(votes, v) == votes + [v]
  {
    if votes != [] {
      UpsertFresh(votes[1..], v);
    }
  }

  lemma EarliestCons(v: Vote, tail: seq<Vote>)
    ensures Earliest([v] + tail) == Sooner(Earliest(tail), v)
  {
    assert ([v] + tail)[1..] == tail;
  }

  lemma SoonerNew(m: map<string, int>, v: Vote)
    requires v.approverId !in m
    ensures Sooner(m, v) == m[v.approverId := v.approvedAt] && |Sooner(m, v)| == |m| + 1
  {
    assert Sooner(m, v).Keys == m.Keys + {v.approverId};
  }

  /** Entering a vote into a list with one vote per approver replaces that approver's vote. */
  lemma {:induction false} UpsertReplaces(votes: seq<Vote>, v: Vote)
    requires DistinctApprovers(votes)
    ensures Earliest(Upsert(votes, v)) == Earliest(votes)[v.approverId := v.approvedAt]
    ensures DistinctApprovers(Upsert(votes, v))
  {
    if votes == [] {
      EarliestCons(v, []);
      assert [v] + [] == [v];
    } else {
      var head, tail := votes[0], votes[1..];
      DistinctTail(votes);
      SoonerNew(Earliest(tail), head);
      if head.approverId == v.approverId {
        EarliestCons(v, tail);
        SoonerNew(Earliest(tail), v);
      } else {
        UpsertReplaces(tail, v);
        EarliestCons(head, Upsert(tail, v));
        SoonerNew(Earliest(Upsert(tail, v)), head);
      }
    }
  }

  lemma UpsertEarlier(votes: seq<Vote>, v: Vote)
    requires DistinctApprovers(votes) && Earlier(votes, v)
    ensures Earliest(Upsert(votes, v)) == Sooner(Earliest(votes), v)
    ensures DistinctApprovers(Upsert(votes, v))
  {
    UpsertReplaces(votes, v);
    KeysAreApprovers(votes);
  }

  /** The map from approver to the vote that stands last in the list. */
  ghost function Latest(votes: seq<Vote>): map<string, int> {
    if votes == [] then map[]
    else Latest(votes[..|votes| - 1])[votes[|votes| - 1].approverId := votes[|votes| - 1].approvedAt]
  }

  lemma {:induction false} UpsertAllIsLatest(votes: seq<Vote>)
    ensures DistinctApprovers(UpsertAll([], votes)) && Earliest(UpsertAll([], votes)) == Latest(votes)
  {
    if votes != [] {
      UpsertAllIsLatest(votes[..|votes| - 1]);
      UpsertReplaces(UpsertAll([], votes[..|votes| - 1]), votes[|votes| - 1]);
    }
  }

  lemma {:induction false} UpsertAllOfDistinct(votes: seq<Vote>)
    requires DistinctApprovers(votes)
    ensures UpsertAll([], votes) == votes
  {
    if votes != [] {
      var front, last := votes[..|votes| - 1], votes[|votes| - 1];
      assert votes == front + [last];
      EarliestSnoc(front, last);
      VotesBoundEarliest(front);
      UpsertAllOfDistinct(front);
      UpsertFresh(front, last);
    }
  }

  lemma {:induction false} MergeInIsMinUnion(acc: seq<Vote>, remote: seq<Vote>)
    requires DistinctApprovers(acc)
    ensures DistinctApprovers(MergeIn(acc, remote))
    ensures Earliest(MergeIn(acc, remote)) == MinUnion(Earliest(acc), Earliest(remote))
  {
    if remote != [] {
      var front, rv := remote[..|remote| - 1], remote[|remote| - 1];
      assert remote == front + [rv];
      EarliestSnoc(front, rv);
      MergeInIsMinUnion(acc, front);
      MinUnionSooner(Earliest(acc), Earliest(front), rv);
      var sofar := MergeIn(acc, front);
      if Earlier(sofar, rv) {
        UpsertEarlier(sofar, rv);
      } else {
        VotesBoundEarliest(sofar);
      }
    } else {
      assert MinUnion(Earliest(acc), map[]) == Earliest(acc);
    }
  }

  /** Merging two vote lists keeps each approver's earliest vote, once, ordered by time. Of several
      local votes by one approver, which no replica ever holds, the last one counts. */
  lemma MergeVotesIsMinUnion(local: seq<Vote>, remote: seq<Vote>)
    ensures DistinctApprovers(MergeVotes(local, remote))
    ensures Earliest(MergeVotes(local, remote)) == MinUnion(Latest(local), Earliest(remote))
    ensures DistinctApprovers(local) ==> Latest(local) == Earliest(local)
    ensures Sorted(MergeVotes(local, remote), ApprovedAt)
  {
    var own := UpsertAll([], local);
    UpsertAllIsLatest(local);
    if DistinctApprovers(local) { UpsertAllOfDistinct(local); }
    MergeInIsMinUnion(own, remote);
    EarliestOfSort(MergeIn(own, remote));
    StableSortSorts(MergeIn(own, remote), ApprovedAt);
    VotesBoundEarliest(MergeVotes(local, remote));
  }

  // ---------- The join on what is observable of one record ----------

  datatype View = View(request: Request, status: Status, votes: map<string, int>)

  ghost function ViewOf(rec: Record): View {
    View(rec.request, rec.status, Earliest(rec.votes))
  }

  /** Votes are one per approver and a PENDING record is still below quorum. */
  ghost predicate Sound(rec: Record) {
    && DistinctApprovers(rec.votes)
    && (rec.status.Pending? ==> |rec.votes| < rec.request.requiredApprovals)
  }

  ghost function Join(a: View, b: View): View {
    var votes := MinUnion(a.votes, b.votes);
    View(a.request, MergeStatus(a.status, b.status, |votes|, a.request.requiredApprovals), votes)
  }

  /** A view in which quorum has already been acted on. */
  ghost predicate Settled(v: View) { v.status.Pending? ==> |v.votes| < v.request.requiredApprovals }

  lemma MergeRecordIsJoin(local: Record, remote: Record)
    requires Sound(local) && Sound(remote)
    ensures ViewOf(MergeRecord(local, remote)) == Join(ViewOf(local), ViewOf(remote))
    ensures Sound(MergeRecord(local, remote))
  {
    MergeVotesIsMinUnion(local.votes, remote.votes);
  }

  lemma SubmapSmaller(a: map<string, int>, b: map<string, int>)
    requires a.Keys <= b.Keys
    ensures |a| <= |b|
  {
    SubsetSmaller(a.Keys, b.Keys);
  }

  lemma {:induction false} SubsetSmaller(a: set<string>, b: set<string>)
    requires a <= b
    ensures |a| <= |b|
  {
    if a != {} {
      var x :| x in a;
      SubsetSmaller(a - {x}, b - {x});
    }
  }

  lemma JoinCommutes(a: View, b: View)
    requires a.request == b.request
    ensures Join(a, b) == Join(b, a)
  {
    PointwiseJoin.Commutes(a.votes, b.votes, Min);
  }

  lemma JoinIdempotent(a: View)
    requires Settled(a)
    ensures Join(a, a) == a
  {
    assert MinUnion(a.votes, a.votes) == a.votes;
  }

  lemma MergeStatusAssociates(a: Status, b: Status, c: Status, ab: nat, bc: nat, abc: nat, required: int)
    requires ab <= abc && bc <= abc
    ensures MergeStatus(MergeStatus(a, b, ab, required), c, abc, required)
         == MergeStatus(a, MergeStatus(b, c, bc, required), abc, required)
  {
  }

  lemma JoinAssociates(a: View, b: View, c: View)
    requires a.request == b.request == c.request
    ensures Join(Join(a, b), c) == Join(a, Join(b, c))
  {
    var ab, bc := MinUnion(a.votes, b.votes), MinUnion(b.votes, c.votes);
    var abc := MinUnion(ab, c.votes);
    PointwiseJoin.Associates(a.votes, b.votes, c.votes, Min);
    SubmapSmaller(ab, abc);
    SubmapSmaller(bc, abc);
    MergeStatusAssociates(a.status, b.status, c.status, |ab|, |bc|, |abc|, a.request.requiredApprovals);
  }

  // ---------- The join on whole stores ----------

  type Store = map<string, View>

  ghost function StoreView(records: Records): Store {
    map t | t in records :: ViewOf(records[t])
  }

  ghost function JoinStores(a: Store, b: Store): Store {
    PointwiseJoin.JoinMaps(a, b, Join)
  }

  /** A settled view that repeats the request its token was issued for. */
  ghost predicate Genuine(issued: map<string, Request>, t: string, v: View) {
    t in issued && v.request == issued[t] && Settled(v)
  }

  ghost predicate Coherent(issued: map<string, Request>, s: Store) {
    forall t :: t in s ==> Genuine(issued, t, s[t])
  }

  lemma JoinGenuine(issued: map<string, Request>, t: string, a: View, b: View)
    requires Genuine(issued, t, a) && Genuine(issued, t, b)
    ensures Genuine(issued, t, Join(a, b))
  {
  }

  lemma JoinStoresCoherent(issued: map<string, Request>, a: Store, b: Store)
    requires Coherent(issued, a) && Coherent(issued, b)
    ensures Coherent(issued, JoinStores(a, b))
  {
    forall t | t in JoinStores(a, b) ensures Genuine(issued, t, JoinStores(a, b)[t]) {
      if t in a && t in b { JoinGenuine(issued, t, a[t], b[t]); }
    }
  }

  lemma StoresCommute(issued: map<string, Request>, a: Store, b: Store)
    requires Coherent(issued, a) && Coherent(issued, b)
    ensures JoinStores(a, b) == JoinStores(b, a)
  {
    forall t | t in a && t in b ensures Join(a[t], b[t]) == Join(b[t], a[t]) {
      assert Genuine(issued, t, a[t]) && Genuine(issued, t, b[t]);
      JoinCommutes(a[t], b[t]);
    }
    PointwiseJoin.Commutes(a, b, Join);
  }

  lemma StoresIdempotent(issued: map<string, Request>, a: Store)
    requires Coherent(issued, a)
    ensures JoinStores(a, a) == a
  {
    forall t | t in a ensures Join(a[t], a[t]) == a[t] {
      assert Genuine(issued, t, a[t]);
      JoinIdempotent(a[t]);
    }
    PointwiseJoin.Idempotent(a, Join);
  }

  lemma StoresAssociate(issued: map<string, Request>, a: Store, b: Store, c: Store)
    requires Coherent(issued, a) && Coherent(issued, b) && Coherent(issued, c)
    ensures JoinStores(JoinStores(a, b), c) == JoinStores(a, JoinStores(b, c))
  {
    forall t | t in a && t in b && t in c
      ensures Join(Join(a[t], b[t]), c[t]) == Join(a[t], Join(b[t], c[t]))
    {
      assert Genuine(issued, t, a[t]) && Genuine(issued, t, b[t]) && Genuine(issued, t, c[t]);
      JoinAssociates(a[t], b[t], c[t]);
    }
    PointwiseJoin.Associates(a, b, c, Join);
  }

  /** The join of stores is commutative, associative and idempotent. */
  lemma StoreJoinLaws(issued: map<string, Request>, a: Store, b: Store, c: Store)
    requires Coherent(issued, a) && Coherent(issued, b) && Coherent(issued, c)
    ensures JoinStores(a, b) == JoinStores(b, a)
    ensures JoinStores(JoinStores(a, b), c) == JoinStores(a, JoinStores(b, c))
    ensures JoinStores(a, a) == a
  {
    StoresCommute(issued, a, b);
    StoresAssociate(issued, a, b, c);
    StoresIdempotent(issued, a);
  }

  // ---------- What merging does to a store ----------

  /** A record list in which every record is sound and genuine. */
  ghost predicate GenuineRecords(issued: map<string, Request>, recs: seq<Record>) {
    forall r :: r in recs ==> Sound(r) && Genuine(issued, r.request.token, ViewOf(r))
  }

  ghost predicate GenuineStore(issued: map<string, Request>, records: Records) {
    forall t :: t in records ==> Sound(records[t]) && Genuine(issued, t, ViewOf(records[t]))
                                 && records[t].request.token == t
  }

  ghost function Singleton(rec: Record): Store { map[rec.request.token := ViewOf(rec)] }

  lemma MergeOneView(records: Records, remote: Record)
    requires remote.request.token in records ==> Sound(records[remote.request.token]) && Sound(remote)
    ensures StoreView(MergeOne(records, remote)) == JoinStores(StoreView(records), Singleton(remote))
  {
    var t := remote.request.token;
    var l, r := StoreView(MergeOne(records, remote)), JoinStores(StoreView(records), Singleton(remote));
    assert l.Keys == records.Keys + {t} == r.Keys;
    if t in records {
      MergeRecordIsJoin(records[t], remote);
    }
    forall u | u in l ensures l[u] == r[u] {
      if u != t { assert MergeOne(records, remote)[u] == records[u]; }
    }
  }

  lemma MergeOneIsJoin(issued: map<string, Request>, records: Records, remote: Record)
    requires GenuineStore(issued, records)
    requires Sound(remote) && Genuine(issued, remote.request.token, ViewOf(remote))
    ensures StoreView(MergeOne(records, remote)) == JoinStores(StoreView(records), Singleton(remote))
    ensures GenuineStore(issued, MergeOne(records, remote))
  {
    var t := remote.request.token;
    MergeOneView(records, remote);
    if t in records {
      MergeRecordIsJoin(records[t], remote);
      JoinGenuine(issued, t, ViewOf(records[t]), ViewOf(remote));
    }
  }

  /** The store a list of records amounts to, joined one after the other onto a start. */
  ghost function JoinRecords(start: Store, recs: seq<Record>): Store {
    if recs == [] then start
    else JoinStores(JoinRecords(start, recs[..|recs| - 1]), Singleton(recs[|recs| - 1]))
  }

  lemma {:induction false} MergeAllIsJoin(issued: map<string, Request>, records: Records, recs: seq<Record>)
    requires GenuineStore(issued, records) && GenuineRecords(issued, recs)
    ensures StoreView(MergeAll(records, recs)) == JoinRecords(StoreView(records), recs)
    ensures GenuineStore(issued, MergeAll(records, recs))
  {
    if recs != [] {
      var front, last := recs[..|recs| - 1], recs[|recs| - 1];
      assert last in recs;
      assert GenuineRecords(issued, front);
      MergeAllIsJoin(issued, records, front);
      MergeOneIsJoin(issued, MergeAll(records, front), last);
    }
  }

  // ---------- The order of the join, and convergence ----------

  /** Everything a says is already contained in b. */
  ghost predicate Below(a: Store, b: Store) {
    JoinStores(a, b) == b
  }

  lemma BelowAt(a: Store, b: Store)
    ensures Below(a, b) <==> forall t :: t in a ==> t in b && Join(a[t], b[t]) == b[t]
  {
    var j := JoinStores(a, b);
    if Below(a, b) {
      forall t | t in a ensures t in b && Join(a[t], b[t]) == b[t] {
        assert t in j;
      }
    }
    if forall t :: t in a ==> t in b && Join(a[t], b[t]) == b[t] {
      assert j.Keys == b.Keys;
      forall t | t in j ensures j[t] == b[t] { }
    }
  }

  lemma SingletonCoherent(issued: map<string, Request>, r: Record)
    requires Genuine(issued, r.request.token, ViewOf(r))
    ensures Coherent(issued, Singleton(r))
  {
  }

  lemma {:induction false} JoinRecordsCoherent(issued: map<string, Request>, start: Store, recs: seq<Record>)
    requires Coherent(issued, start) && GenuineRecords(issued, recs)
    ensures Coherent(issued, JoinRecords(start, recs))
  {
    if recs != [] {
      var front, last := recs[..|recs| - 1], recs[|recs| - 1];
      assert last in recs;
      JoinRecordsCoherent(issued, start, front);
      SingletonCoherent(issued, last);
      JoinStoresCoherent(issued, JoinRecords(start, front), Singleton(last));
    }
  }

  lemma BelowJoin(issued: map<string, Request>, a: Store, b: Store)
    requires Coherent(issued, a) && Coherent(issued, b)
    ensures Below(a, JoinStores(a, b)) && Below(b, JoinStores(a, b))
  {
    StoresAssociate(issued, a, a, b);
    StoresIdempotent(issued, a);
    StoresCommute(issued, a, b);
    StoresAssociate(issued, b, b, a);
    StoresIdempotent(issued, b);
  }

  lemma BelowTransitive(issued: map<string, Request>, a: Store, b: Store, c: Store)
    requires Coherent(issued, a) && Coherent(issued, b) && Coherent(issued, c)
    requires Below(a, b) && Below(b, c)
    ensures Below(a, c)
  {
    StoresAssociate(issued, a, b, c);
  }

  lemma JoinBelow(issued: map<string, Request>, a: Store, b: Store, u: Store)
    requires Coherent(issued, a) && Coherent(issued, b) && Coherent(issued, u)
    requires Below(a, u) && Below(b, u)
    ensures Below(JoinStores(a, b), u)
  {
    StoresAssociate(issued, a, b, u);
  }

  /** Merging records yields an upper bound of the start and of every record merged ... */
  lemma {:induction false} JoinRecordsBounds(issued: map<string, Request>, start: Store, recs: seq<Record>)
    requires Coherent(issued, start) && GenuineRecords(issued, recs)
    ensures Below(start, JoinRecords(start, recs))
    ensures forall r :: r in recs ==> Below(Singleton(r), JoinRecords(start, recs))
  {
    if recs == [] {
      StoresIdempotent(issued, start);
    } else {
      var front, last := recs[..|recs| - 1], recs[|recs| - 1];
      assert recs == front + [last];
      assert last in recs;
      var sofar := JoinRecords(start, front);
      JoinRecordsBounds(issued, start, front);
      JoinRecordsCoherent(issued, start, front);
      JoinRecordsCoherent(issued, start, recs);
      SingletonCoherent(issued, last);
      BelowJoin(issued, sofar, Singleton(last));
      BelowTransitive(issued, start, sofar, JoinRecords(start, recs));
      forall r | r in recs ensures Below(Singleton(r), JoinRecords(start, recs)) {
        if r in front {
          SingletonCoherent(issued, r);
          BelowTransitive(issued, Singleton(r), sofar, JoinRecords(start, recs));
        }
      }
    }
  }

  /** ... and the least one. */
  lemma {:induction false} JoinRecordsLeast(issued: map<string, Request>, start: Store, recs: seq<Record>, u: Store)
    requires Coherent(issued, start) && GenuineRecords(issued, recs) && Coherent(issued, u)
    requires Below(start, u)
    requires forall r :: r in recs ==> Below(Singleton(r), u)
    ensures Below(JoinRecords(start, recs), u)
  {
    if recs != [] {
      var front, last := recs[..|recs| - 1], recs[|recs| - 1];
      assert last in recs;
      JoinRecordsLeast(issued, start, front, u);
      JoinRecordsCoherent(issued, start, front);
      SingletonCoherent(issued, last);
      JoinBelow(issued, JoinRecords(start, front), Singleton(last), u);
    }
  }

  /** Every record of xs looks like some record of ys. */
  ghost predicate Covered(xs: seq<Record>, ys: seq<Record>) {
    forall x :: x in xs ==> exists y :: y in ys && ViewOf(y) == ViewOf(x)
  }

  lemma SameViewBelow(x: Record, ys: seq<Record>, u: Store)
    requires exists y :: y in ys && ViewOf(y) == ViewOf(x)
    requires forall y :: y in ys ==> Below(Singleton(y), u)
    ensures Below(Singleton(x), u)
  {
    var y :| y in ys && ViewOf(y) == ViewOf(x);
    assert Singleton(x) == map[ViewOf(x).request.token := ViewOf(x)] == Singleton(y);
  }

  lemma JoinRecordsBelow(issued: map<string, Request>, start: Store, xs: seq<Record>, ys: seq<Record>)
    requires Coherent(issued, start) && GenuineRecords(issued, xs) && GenuineRecords(issued, ys)
    requires Covered(xs, ys)
    ensures Below(JoinRecords(start, xs), JoinRecords(start, ys))
  {
    var u := JoinRecords(start, ys);
    JoinRecordsCoherent(issued, start, ys);
    JoinRecordsBounds(issued, start, ys);
    forall x | x in xs ensures Below(Singleton(x), u) {
      SameViewBelow(x, ys, u);
    }
    JoinRecordsLeast(issued, start, xs, u);
  }

  /** A replica that receives several snapshots, one after the other. */
  function MergeSnapshots(records: Records, snapshots: seq<seq<Record>>): Records {
    if snapshots == [] then records
    else MergeAll(MergeSnapshots(records, snapshots[..|snapshots| - 1]), snapshots[|snapshots| - 1])
  }

  function Flatten(snapshots: seq<seq<Record>>): seq<Record> {
    if snapshots == [] then [] else Flatten(snapshots[..|snapshots| - 1]) + snapshots[|snapshots| - 1]
  }

  lemma {:induction false} MergeAllConcat(records: Records, xs: seq<Record>, ys: seq<Record>)
    ensures MergeAll(records, xs + ys) == MergeAll(MergeAll(records, xs), ys)
  {
    if ys == [] {
      assert xs + ys == xs;
    } else {
      MergeAllConcat(records, xs, ys[..|ys| - 1]);
      assert (xs + ys)[..|xs + ys| - 1] == xs + ys[..|ys| - 1];
    }
  }

  /** How records are grouped into snapshots does not matter. */
  lemma {:induction false} MergeSnapshotsFlatten(records: Records, snapshots: seq<seq<Record>>)
    ensures MergeSnapshots(records, snapshots) == MergeAll(records, Flatten(snapshots))
  {
    if snapshots != [] {
      var front, last := snapshots[..|snapshots| - 1], snapshots[|snapshots| - 1];
      MergeSnapshotsFlatten(records, front);
      MergeAllConcat(records, Flatten(front), last);
    }
  }

  /** Convergence: from one start, two histories of snapshots that carry the same views, in
      any order, grouping and repetition, leave the same status and vote times everywhere. */
  lemma SnapshotsConverge(issued: map<string, Request>, records: Records,
                          xs: seq<seq<Record>>, ys: seq<seq<Record>>)
    requires GenuineStore(issued, records)
    requires GenuineRecords(issued, Flatten(xs)) && GenuineRecords(issued, Flatten(ys))
    requires Covered(Flatten(xs), Flatten(ys)) && Covered(Flatten(ys), Flatten(xs))
    ensures StoreView(MergeSnapshots(records, xs)) == StoreView(MergeSnapshots(records, ys))
  {
    var start, fx, fy := StoreView(records), Flatten(xs), Flatten(ys);
    MergeSnapshotsFlatten(records, xs);
    MergeSnapshotsFlatten(records, ys);
    MergeAllIsJoin(issued, records, fx);
    MergeAllIsJoin(issued, records, fy);
    JoinRecordsBelow(issued, start, fx, fy);
    JoinRecordsBelow(issued, start, fy, fx);
    JoinRecordsCoherent(issued, start, fx);
    JoinRecordsCoherent(issued, start, fy);
    StoresCommute(issued, JoinRecords(start, fx), JoinRecords(start, fy));
  }

  /** What exportStateSnapshot returns, up to order. */
  ghost predicate ExportOf(snapshot: seq<Record>, records: Records) {
    forall r :: r in snapshot <==> r in records.Values
  }

  /** Receiving a replica's export joins that replica's whole view into one's own. */
  lemma MergeExportIsJoin(issued: map<string, Request>, records: Records, remote: Records, snapshot: seq<Record>)
    requires GenuineStore(issued, records) && GenuineStore(issued, remote) && ExportOf(snapshot, remote)
    ensures GenuineRecords(issued, snapshot)
    ensures StoreView(MergeAll(records, snapshot)) == JoinStores(StoreView(records), StoreView(remote))
  {
    var a, b := StoreView(records), StoreView(remote);
    var j, u := JoinRecords(a, snapshot), JoinStores(a, b);
    forall r | r in snapshot
      ensures Sound(r) && Genuine(issued, r.request.token, ViewOf(r)) && Below(Singleton(r), b)
    {
      var t :| t in remote && remote[t] == r;
      assert b[t] == ViewOf(r) && Genuine(issued, t, b[t]);
      JoinIdempotent(b[t]);
      BelowAt(Singleton(r), b);
    }
    MergeAllIsJoin(issued, records, snapshot);
    StoreViewCoherent(issued, records);
    StoreViewCoherent(issued, remote);
    JoinRecordsBounds(issued, a, snapshot);
    JoinRecordsCoherent(issued, a, snapshot);
    JoinStoresCoherent(issued, a, b);
    // The export lies below the result ...
    forall t | t in b ensures t in j && Join(b[t], j[t]) == j[t] {
      assert remote[t] in snapshot;
      BelowAt(Singleton(remote[t]), j);
    }
    BelowAt(b, j);
    JoinBelow(issued, a, b, j);
    // ... and the result below the join of the two views.
    BelowJoin(issued, a, b);
    forall r | r in snapshot ensures Below(Singleton(r), u) {
      SingletonCoherent(issued, r);
      BelowTransitive(issued, Singleton(r), b, u);
    }
    JoinRecordsLeast(issued, a, snapshot, u);
    StoresCommute(issued, j, u);
  }

  lemma StoreViewCoherent(issued: map<string, Request>, records: Records)
    requires GenuineStore(issued, records)
    ensures Coherent(issued, StoreView(records))
  {
  }

  /** Two replicas that receive each other's export agree. */
  lemma ExchangeAgrees(issued: map<string, Request>, left: Records, right: Records,
                       fromLeft: seq<Record>, fromRight: seq<Record>)
    requires GenuineStore(issued, left) && GenuineStore(issued, right)
    requires ExportOf(fromLeft, left) && ExportOf(fromRight, right)
    ensures StoreView(MergeAll(left, fromRight)) == StoreView(MergeAll(right, fromLeft))
  {
    MergeExportIsJoin(issued, left, right, fromRight);
    MergeExportIsJoin(issued, right, left, fromLeft);
    StoreViewCoherent(issued, left);
    StoreViewCoherent(issued, right);
    StoresCommute(issued, StoreView(left), StoreView(right));
  }

  /** Relaying changes nothing: hearing from a replica after it heard from a third one is
      the same as hearing from both. */
  lemma RelayIsDirect(issued: map<string, Request>, local: Records, relay: Records, source: Records,
                      fromSource: seq<Record>, fromRelay: seq<Record>, relayed: seq<Record>)
    requires GenuineStore(issued, local) && GenuineStore(issued, relay) && GenuineStore(issued, source)
    requires ExportOf(fromSource, source) && ExportOf(fromRelay, relay)
    requires ExportOf(relayed, MergeAll(relay, fromSource))
    ensures StoreView(MergeAll(local, relayed)) == StoreView(MergeAll(MergeAll(local, fromRelay), fromSource))
  {
    MergeExportIsJoin(issued, relay, source, fromSource);
    MergeAllIsJoin(issued, relay, fromSource);
    MergeExportIsJoin(issued, local, MergeAll(relay, fromSource), relayed);
    MergeExportIsJoin(issued, local, relay, fromRelay);
    MergeAllIsJoin(issued, local, fromRelay);
    MergeExportIsJoin(issued, MergeAll(local, fromRelay), source, fromSource);
    StoreViewCoherent(issued, local);
    StoreViewCoherent(issued, relay);
    StoreViewCoherent(issued, source);
    StoresAssociate(issued, StoreView(local), StoreView(relay), StoreView(source));
  }

  lemma MergedTwice(records: Records, r: Record)
    requires r.request.token !in records
    ensures MergeAll(records, [r]) == records[r.request.token := r]
    ensures MergeAll(records, [r, r]) == records[r.request.token := MergeRecord(r, r)]
  {
    assert [r, r][..1] == [r] && [r][..0] == [];
    assert MergeAll(records, [r]) == MergeOne(MergeAll(records, []), r);
    assert MergeAll(records, [r, r]) == MergeOne(MergeAll(records, [r]), r);
  }

  lemma SelfMergeIsJoin(r: Record)
    requires DistinctApprovers(r.votes)
    ensures ViewOf(MergeRecord(r, r)) == Join(ViewOf(r), ViewOf(r))
  {
    MergeVotesIsMinUnion(r.votes, r.votes);
  }

  lemma JoinSelfExactly(v: View)
    ensures Join(v, v) == v <==> Settled(v)
  {
    assert MinUnion(v.votes, v.votes) == v.votes;
  }

  lemma OneEntryDecides(records: Records, t: string, a: Record, b: Record)
    ensures StoreView(records[t := a]) == StoreView(records[t := b]) <==> ViewOf(a) == ViewOf(b)
  {
    var x, y := StoreView(records[t := a]), StoreView(records[t := b]);
    assert x[t] == ViewOf(a) && y[t] == ViewOf(b);
    if ViewOf(a) == ViewOf(b) {
      assert x.Keys == y.Keys;
      forall k | k in x ensures x[k] == y[k] { }
    }
  }

  /** The premise that PENDING records are below quorum is needed: a first copy is taken over
      unpromoted, so receiving it twice is harmless exactly when it is settled. */
  lemma RepetitionHarmlessExactly(records: Records, r: Record)
    requires r.request.token !in records && DistinctApprovers(r.votes)
    ensures StoreView(MergeAll(records, [r, r])) == StoreView(MergeAll(records, [r])) <==> Settled(ViewOf(r))
  {
    MergedTwice(records, r);
    SelfMergeIsJoin(r);
    JoinSelfExactly(ViewOf(r));
    OneEntryDecides(records, r.request.token, MergeRecord(r, r), r);
  }

  // ---------- Which local operations move up the order ----------

  /** The record after the operation contains everything the record before it said. */
  ghost predicate Grows(before: Record, after: Record) {
    Join(ViewOf(before), ViewOf(after)) == ViewOf(after)
  }

  lemma GrowsByStatus(rec: Record, status: Status)
    requires Sound(rec) && Sound(rec.(status := status))
    ensures forall at :: Grows(rec, rec.(status := status, consumedAt := at)) <==> rec.status.Rank() <= status.Rank()
  {
    var v := Earliest(rec.votes);
    assert MinUnion(v, v) == v;
  }

  /** Contrary to the design's word "monotonic", a consume attempt after expiry lowers a
      CONSUMED or REVOKED token to EXPIRED; every other attempt moves up. */
  lemma ConsumeGrowsExactly(rec: Record, capabilityId: string, payloadHash: string, now: int)
    requires Sound(rec)
    ensures Grows(rec, Consume(rec, capabilityId, payloadHash, now).0)
       <==> !(now > rec.request.expiresAt && (rec.status.Consumed? || rec.status.Revoked?))
  {
    GrowsByStatus(rec, Expired);
    GrowsByStatus(rec, Consumed);
    GrowsByStatus(rec, rec.status);
    var after := Consume(rec, capabilityId, payloadHash, now).0;
    assert after == rec.(status := after.status, consumedAt := after.consumedAt);
  }

  lemma RevokeAndExpireGrow(rec: Record, now: int)
    requires Sound(rec)
    ensures Grows(rec, Revoke(rec).0)
    ensures Grows(rec, ExpireIfDue(rec, now))
  {
    GrowsByStatus(rec, Revoked);
    GrowsByStatus(rec, Expired);
    GrowsByStatus(rec, rec.status);
    assert Revoke(rec).0 == rec.(status := Revoke(rec).0.status, consumedAt := rec.consumedAt);
    assert ExpireIfDue(rec, now) == rec.(status := ExpireIfDue(rec, now).status, consumedAt := rec.consumedAt);
  }

  lemma VotedIsKey(votes: seq<Vote>, k: string)
    ensures Voted(votes, k) <==> k in Earliest(votes)
  {
    VotesBoundEarliest(votes);
    KeysAreApprovers(votes);
  }

  lemma GrowsByVote(rec: Record, v: Vote, status: Status)
    requires Sound(rec) && !Voted(rec.votes, v.approverId) && rec.status.Rank() <= status.Rank()
    requires status.Pending? ==> |rec.votes| + 1 < rec.request.requiredApprovals
    ensures var after := rec.(votes := rec.votes + [v], status := status); Grows(rec, after) && Sound(after)
  {
    VotedIsKey(rec.votes, v.approverId);
    EarliestSnoc(rec.votes, v);
    var m := Earliest(rec.votes);
    assert Earliest(rec.votes + [v]) == m[v.approverId := v.approvedAt];
    assert MinUnion(m, m[v.approverId := v.approvedAt]) == m[v.approverId := v.approvedAt];
  }

  lemma ApproveShape(rec: Record, opts: Options, actor: string, now: int)
    requires Sound(rec)
    ensures var after, v := Approve(rec, opts, actor, now).0, Vote(actor, opts.clusterId, now);
            && rec.status.Rank() <= after.status.Rank()
            && (after.status.Pending? ==> |after.votes| < rec.request.requiredApprovals)
            && (after == rec.(status := after.status, consumedAt := rec.consumedAt)
                || (!Voted(rec.votes, actor) && after == rec.(votes := rec.votes + [v], status := after.status)))
  {
  }

  lemma ApproveGrows(rec: Record, opts: Options, actor: string, now: int)
    requires Sound(rec)
    ensures Grows(rec, Approve(rec, opts, actor, now).0)
    ensures Sound(Approve(rec, opts, actor, now).0)
  {
    var after, v := Approve(rec, opts, actor, now).0, Vote(actor, opts.clusterId, now);
    ApproveShape(rec, opts, actor, now);
    if after == rec.(status := after.status, consumedAt := rec.consumedAt) {
      GrowsByStatus(rec, after.status);
    } else {
      GrowsByVote(rec, v, after.status);
    }
  }
}
