/** The gateway's approval gate. */
module ApprovalGateway {
  import opened Basics
  import opened QuorumStore
  import opened SingleUse

  type CallId = nat

  datatype Call = Call(toolName: string, cleanPayloadHash: string, token: Option<string>, agentId: string,
                       requestId: string, sideEffect: string)

  /** Where a call stands. Cleared calls have passed the gate and still await the executor;
      they keep whether their decision required approval and the record their token was
      consumed on, if one was. */
  datatype Phase =
    | Arrived
    | AwaitingGate
    | Cleared(requiresApproval: bool, consumed: Option<Record>)
    | Executed(requiresApproval: bool, consumed: Option<Record>)
    | Refused

  datatype Gateway = Gateway(records: Records, calls: map<CallId, Call>, phases: map<CallId, Phase>)

  datatype Step =
    | Arrive(id: CallId, call: Call)
    | Judge(id: CallId, allowed: bool, requiresApproval: bool)
    | PassGate(id: CallId, freshToken: string, now: int)
    | Execute(id: CallId)
    | OnStore(op: Op)

  predicate HasToken(call: Call) { call.token.Some? && call.token.value != "" }

  /** What the gate does to the store: request a token when none was sent, consume it otherwise. */
  function GateOp(call: Call, freshToken: string, now: int): Op {
    if HasToken(call) then Use(call.token.value, call.toolName, call.cleanPayloadHash, now)
    else Generate(freshToken, call.requestId, call.toolName, call.cleanPayloadHash, "high", call.sideEffect,
                  call.agentId, None, now)
  }

  predicate Enabled(g: Gateway, s: Step) {
    match s
    case Arrive(id, _) => id !in g.calls && id !in g.phases
    case Judge(id, _, _) => id in g.phases && g.phases[id].Arrived?
    case PassGate(id, freshToken, now) =>
      id in g.calls && id in g.phases && g.phases[id].AwaitingGate?
      && Fresh(g.records, GateOp(g.calls[id], freshToken, now))
    case Execute(id) => id in g.phases && g.phases[id].Cleared?
    case OnStore(op) => Fresh(g.records, op)
  }

  function Next(opts: Options, g: Gateway, s: Step): Gateway
    requires Enabled(g, s)
  {
    match s
    case Arrive(id, call) => g.(calls := g.calls[id := call], phases := g.phases[id := Arrived])
    case Judge(id, allowed, requiresApproval) =>
      g.(phases := g.phases[id := if !allowed then Refused
                                  else if requiresApproval then AwaitingGate else Cleared(false, None)])
    case PassGate(id, freshToken, now) =>
      var op := GateOp(g.calls[id], freshToken, now);
      var (after, ok) := Perform(opts, g.records, op);
      g.(records := after,
         phases := g.phases[id := if op.Use? && ok && op.token in g.records
                                  then Cleared(true, Some(g.records[op.token]))
                                  else Refused])
    case Execute(id) => g.(phases := g.phases[id := Executed(g.phases[id].requiresApproval, g.phases[id].consumed)])
    case OnStore(op) => g.(records := Perform(opts, g.records, op).0)
  }

  ghost function Run(opts: Options, start: Records, steps: seq<Step>): Option<Gateway> {
    if steps == [] then Some(Gateway(start, map[], map[]))
    else
      match Run(opts, start, steps[..|steps| - 1])
      case None => None
      case Some(g) => if Enabled(g, steps[|steps| - 1]) then Some(Next(opts, g, steps[|steps| - 1])) else None
  }

  /** The call has used up the token it was sent with. */
  predicate Spent(g: Gateway, id: CallId, token: string) {
    && id in g.phases && id in g.calls && g.calls[id].token == Some(token)
    && (g.phases[id].Cleared? || g.phases[id].Executed?) && g.phases[id].consumed.Some?
  }

  /** The consumed record entitles this very call. */
  predicate Covers(call: Call, rec: Record) {
    && HasToken(call) && rec.status.Approved? && |rec.votes| >= rec.request.requiredApprovals
    && rec.request.capabilityId == call.toolName && rec.request.payloadHash == call.cleanPayloadHash
  }

  predicate PaidFor(call: Call, p: Phase)
    requires p.Cleared? || p.Executed?
  {
    && (p.requiresApproval ==> p.consumed.Some?)
    && (p.consumed.Some? ==> Covers(call, p.consumed.value))
  }

  ghost predicate Inv(g: Gateway) {
    && (forall id :: id in g.phases ==> id in g.calls)
    && (forall id :: id in g.phases && (g.phases[id].Cleared? || g.phases[id].Executed?) ==>
          PaidFor(g.calls[id], g.phases[id]))
    && (forall id, token :: Spent(g, id, token) ==> Closed(g.records, token))
    && (forall i, j, token :: Spent(g, i, token) && Spent(g, j, token) ==> i == j)
  }

  lemma PassGateKeepsInv(opts: Options, g: Gateway, s: Step)
    requires Inv(g) && Enabled(g, s) && s.PassGate?
    ensures Inv(Next(opts, g, s))
  {
    var g', op := Next(opts, g, s), GateOp(g.calls[s.id], s.freshToken, s.now);
    var ok := Perform(opts, g.records, op).1;
    forall id, token | Spent(g', id, token) ensures Closed(g'.records, token) {
      if id == s.id {
        SuccessCloses(opts, g.records, op);
      } else {
        assert Spent(g, id, token);
        PerformKeepsClosed(opts, g.records, op, token);
      }
    }
    forall i, j, token | Spent(g', i, token) && Spent(g', j, token) ensures i == j {
      if i != s.id { assert Spent(g, i, token); }
      if j != s.id { assert Spent(g, j, token); }
      if op.Use? && Closed(g.records, op.token) { ClosedRefusesUse(opts, g.records, op); }
    }
  }

  lemma NextKeepsInv(opts: Options, g: Gateway, s: Step)
    requires Inv(g) && Enabled(g, s)
    ensures Inv(Next(opts, g, s))
  {
    var g' := Next(opts, g, s);
    if s.PassGate? {
      PassGateKeepsInv(opts, g, s);
    } else {
      assert forall id, token :: Spent(g', id, token) ==> Spent(g, id, token);
      forall id, token | Spent(g', id, token) ensures Closed(g'.records, token) {
        assert Spent(g, id, token);
        if s.OnStore? { PerformKeepsClosed(opts, g.records, s.op, token); }
      }
    }
  }

  lemma {:induction false} RunKeepsInv(opts: Options, start: Records, steps: seq<Step>)
    requires Run(opts, start, steps).Some?
    ensures Inv(Run(opts, start, steps).value)
  {
    if steps != [] {
      RunKeepsInv(opts, start, steps[..|steps| - 1]);
      NextKeepsInv(opts, Run(opts, start, steps[..|steps| - 1]).value, steps[|steps| - 1]);
    }
  }

  ghost predicate RanWithApproval(g: Gateway, id: CallId) {
    id in g.phases && id in g.calls && g.phases[id].Executed? && g.phases[id].requiresApproval
  }

  lemma TokensDiffer(g: Gateway, i: CallId, j: CallId)
    requires Inv(g) && i != j && RanWithApproval(g, i) && RanWithApproval(g, j)
    ensures g.calls[i].token != g.calls[j].token
  {
    assert PaidFor(g.calls[i], g.phases[i]) && PaidFor(g.calls[j], g.phases[j]);
    if g.calls[i].token == g.calls[j].token {
      assert Spent(g, i, g.calls[i].token.value) && Spent(g, j, g.calls[i].token.value);
    }
  }
}
