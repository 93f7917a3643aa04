/** A token is consumed at most once. */
module SingleUse {
  import opened QuorumStore

  /** Random tokens do not collide with one the store already holds. */
  predicate Fresh(records: Records, op: Op) { op.Generate? ==> op.token !in records }

  /** A run: the store before each call and after the last one, each token generated fresh. */
  ghost predicate IsRun(opts: Options, ops: seq<Op>, stores: seq<Records>) {
    && |stores| == |ops| + 1
    && forall k :: 0 <= k < |ops| ==> Fresh(stores[k], ops[k]) && stores[k + 1] == Perform(opts, stores[k], ops[k]).0
  }

  predicate Closed(records: Records, token: string) {
    token in records && records[token].status.Terminal()
  }

  lemma MergeOneKeepsClosed(records: Records, remote: Record, token: string)
    ensures Closed(records, token) ==> Closed(MergeOne(records, remote), token)
    ensures remote.request.token == token && remote.status.Terminal() ==> Closed(MergeOne(records, remote), token)
  {
  }

  lemma {:induction false} MergeKeepsClosed(records: Records, snapshot: seq<Record>, token: string)
    ensures Closed(records, token) ==> Closed(MergeAll(records, snapshot), token)
    ensures (exists r :: r in snapshot && r.request.token == token && r.status.Terminal())
              ==> Closed(MergeAll(records, snapshot), token)
  {
    if snapshot != [] {
      var front, last := snapshot[..|snapshot| - 1], snapshot[|snapshot| - 1];
      assert snapshot == front + [last];
      MergeKeepsClosed(records, front, token);
      MergeOneKeepsClosed(MergeAll(records, front), last, token);
    }
  }

  /** {EXPIRED, CONSUMED, REVOKED} is never left again. */
  lemma PerformKeepsClosed(opts: Options, records: Records, op: Op, token: string)
    requires Closed(records, token) && Fresh(records, op)
    ensures Closed(Perform(opts, records, op).0, token)
  {
    if op.Merge? {
      MergeKeepsClosed(records, op.snapshot, token);
    }
  }

  lemma ClosedRefusesUse(opts: Options, records: Records, op: Op)
    requires op.Use? && Closed(records, op.token)
    ensures !Perform(opts, records, op).1
  {
  }

  lemma SuccessCloses(opts: Options, records: Records, op: Op)
    requires op.Use? && Perform(opts, records, op).1
    ensures Closed(Perform(opts, records, op).0, op.token)
  {
  }

  lemma {:induction false} StaysClosed(opts: Options, ops: seq<Op>, stores: seq<Records>, i: nat, j: nat, token: string)
    requires IsRun(opts, ops, stores) && i <= j <= |ops|
    requires Closed(stores[i], token)
    ensures Closed(stores[j], token)
    decreases j
  {
    if i < j {
      StaysClosed(opts, ops, stores, i, j - 1, token);
      PerformKeepsClosed(opts, stores[j - 1], ops[j - 1], token);
    }
  }

  /** Over any run of calls and merges, with any clock readings, a token is consumed
      successfully at most once. */
  lemma ConsumedAtMostOnce(opts: Options, ops: seq<Op>, stores: seq<Records>, i: nat, j: nat)
    requires IsRun(opts, ops, stores) && i < j < |ops|
    requires ops[i].Use? && ops[j].Use? && ops[i].token == ops[j].token
    requires Perform(opts, stores[i], ops[i]).1
    ensures !Perform(opts, stores[j], ops[j]).1
  {
    SuccessCloses(opts, stores[i], ops[i]);
    StaysClosed(opts, ops, stores, i + 1, j, ops[i].token);
    ClosedRefusesUse(opts, stores[j], ops[j]);
  }

  /** ... and never after the replica has merged a CONSUMED, REVOKED or EXPIRED record for it. */
  lemma NeverAfterClosedMerge(opts: Options, ops: seq<Op>, stores: seq<Records>, i: nat, j: nat, r: Record)
    requires IsRun(opts, ops, stores) && i < j < |ops|
    requires ops[i].Merge? && r in ops[i].snapshot && r.status.Terminal()
    requires ops[j].Use? && ops[j].token == r.request.token
    ensures !Perform(opts, stores[j], ops[j]).1
  {
    MergeKeepsClosed(stores[i], ops[i].snapshot, r.request.token);
    StaysClosed(opts, ops, stores, i + 1, j, r.request.token);
    ClosedRefusesUse(opts, stores[j], ops[j]);
  }
}
