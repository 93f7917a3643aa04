/** The approval gate, read off the steps of a run. */
module GatewayRuns {
  // The gateway's phases are local bookkeeping of the call. Here they are traced back to the steps
  // that led there, so that the promises speak of verdicts, store calls and executor calls only.

  import opened Basics
  import opened QuorumStore
  import opened SingleUse
  import opened ApprovalGateway

  /** Step p gave the call's token to the store and the store consumed it: an approved record with its
      votes, for the call's tool and payload, in time. */
  ghost predicate PaysAt(opts: Options, start: Records, steps: seq<Step>, p: nat, call: Call) {
    && p < |steps| && steps[p].PassGate? && Run(opts, start, steps[..p]).Some? && Run(opts, start, steps[..p + 1]).Some?
    && call.token.Some? && call.token.value != ""
    && var before, after := Run(opts, start, steps[..p]).value.records, Run(opts, start, steps[..p + 1]).value.records;
       var token := call.token.value;
       && token in before && token in after && after[token].status == Consumed
       && var rec := before[token];
          && rec.status == Approved && |rec.votes| >= rec.request.requiredApprovals
          && rec.request.capabilityId == call.toolName && rec.request.payloadHash == call.cleanPayloadHash
          && steps[p].now <= rec.request.expiresAt
  }

  /** ... for this call, after every verdict on it and before the executor ran. */
  ghost predicate PaidAt(opts: Options, start: Records, steps: seq<Step>, id: CallId, p: nat, call: Call) {
    && PaysAt(opts, start, steps, p, call) && steps[p].id == id
    && (forall k :: 0 <= k < |steps| && steps[k].Judge? && steps[k].id == id ==> k < p)
    && (forall k :: 0 <= k < |steps| && steps[k] == Execute(id) ==> p < k)
  }

  ghost predicate OnlyJudged(steps: seq<Step>, id: CallId, requiresApproval: bool) {
    && Judge(id, true, requiresApproval) in steps
    && forall a, r :: Judge(id, a, r) in steps ==> a && r == requiresApproval
  }

  /** The steps that a call has behind it in each phase. */
  ghost predicate Told(opts: Options, start: Records, steps: seq<Step>, id: CallId, call: Call, phase: Phase) {
    && (!phase.Executed? ==> Execute(id) !in steps)
    && match phase
       case Arrived => forall a, r :: Judge(id, a, r) !in steps
       case AwaitingGate => OnlyJudged(steps, id, true)
       case Cleared(required, _) =>
         OnlyJudged(steps, id, required) && (required ==> exists p :: PaidAt(opts, start, steps, id, p, call))
       case Executed(required, _) =>
         OnlyJudged(steps, id, required) && (required ==> exists p :: PaidAt(opts, start, steps, id, p, call))
       case Refused => true
  }

  ghost predicate History(opts: Options, start: Records, steps: seq<Step>, id: CallId)
    requires Run(opts, start, steps).Some?
  {
    var g := Run(opts, start, steps).value;
    && (id in g.phases <==> id in g.calls)
    && (id !in g.phases ==> Unknown(steps, id))
    && (id in g.phases ==>
          && (forall call :: Arrive(id, call) in steps <==> call == g.calls[id])
          && Told(opts, start, steps, id, g.calls[id], g.phases[id]))
  }

  ghost predicate Unknown(steps: seq<Step>, id: CallId) {
    && (forall call :: Arrive(id, call) !in steps) && (forall a, r :: Judge(id, a, r) !in steps)
    && Execute(id) !in steps
  }

  lemma RunStep(opts: Options, start: Records, steps: seq<Step>)
    requires Run(opts, start, steps).Some? && steps != []
    ensures var front, s := steps[..|steps| - 1], steps[|steps| - 1];
            && steps == front + [s]
            && Run(opts, start, front).Some? && Enabled(Run(opts, start, front).value, s)
            && Run(opts, start, steps).value == Next(opts, Run(opts, start, front).value, s)
  {
  }

  /** What was paid stays paid; a later step may be the executor's, but no further verdict. */
  lemma PaidStays(opts: Options, start: Records, steps: seq<Step>, s: Step, id: CallId, p: nat, call: Call)
    requires PaidAt(opts, start, steps, id, p, call) && !(s.Judge? && s.id == id)
    ensures PaidAt(opts, start, steps + [s], id, p, call)
  {
    var longer := steps + [s];
    assert longer[..p] == steps[..p] && longer[..p + 1] == steps[..p + 1] && longer[p] == steps[p];
  }

  lemma ToldStays(opts: Options, start: Records, steps: seq<Step>, s: Step, id: CallId, call: Call, phase: Phase)
    requires Told(opts, start, steps, id, call, phase) && !(s.Judge? && s.id == id) && s != Execute(id)
    ensures Told(opts, start, steps + [s], id, call, phase)
  {
    if (phase.Cleared? || phase.Executed?) && phase.requiresApproval {
      var p :| PaidAt(opts, start, steps, id, p, call);
      PaidStays(opts, start, steps, s, id, p, call);
    }
  }

  lemma ExecuteTold(opts: Options, start: Records, steps: seq<Step>, id: CallId, call: Call, phase: Phase)
    requires Told(opts, start, steps, id, call, phase) && phase.Cleared?
    ensures Told(opts, start, steps + [Execute(id)], id, call, Executed(phase.requiresApproval, phase.consumed))
  {
    if phase.requiresApproval {
      var p :| PaidAt(opts, start, steps, id, p, call);
      PaidStays(opts, start, steps, Execute(id), id, p, call);
    }
  }

  lemma JudgeTold(opts: Options, start: Records, steps: seq<Step>, s: Step, g: Gateway, call: Call)
    requires s.Judge? && Told(opts, start, steps, s.id, call, Arrived) && Enabled(g, s)
    ensures Told(opts, start, steps + [s], s.id, call, Next(opts, g, s).phases[s.id])
  {
    assert s in steps + [s];
  }

  lemma PassGateTold(opts: Options, start: Records, steps: seq<Step>, s: Step, g: Gateway)
    requires s.PassGate? && Enabled(g, s) && Run(opts, start, steps) == Some(g)
    requires Told(opts, start, steps, s.id, g.calls[s.id], AwaitingGate)
    ensures Told(opts, start, steps + [s], s.id, g.calls[s.id], Next(opts, g, s).phases[s.id])
  {
    var longer, after := steps + [s], Next(opts, g, s);
    assert longer[..|steps|] == steps && longer[..|steps| + 1] == longer && longer[|longer| - 1] == s;
    assert Run(opts, start, longer) == Some(after);
    if after.phases[s.id].Cleared? {
      assert PaysAt(opts, start, longer, |steps|, g.calls[s.id]);
      assert PaidAt(opts, start, longer, s.id, |steps|, g.calls[s.id]);
    }
  }

  lemma {:induction false} HistoryHolds(opts: Options, start: Records, steps: seq<Step>, id: CallId)
    requires Run(opts, start, steps).Some?
    ensures History(opts, start, steps, id)
  {
    if steps != [] {
      var front, s := steps[..|steps| - 1], steps[|steps| - 1];
      RunStep(opts, start, steps);
      HistoryHolds(opts, start, front, id);
      var g := Run(opts, start, front).value;
      HistoryStep(opts, start, front, s, g, id);
    }
  }

  lemma HistoryStep(opts: Options, start: Records, steps: seq<Step>, s: Step, g: Gateway, id: CallId)
    requires Run(opts, start, steps) == Some(g) && Enabled(g, s) && History(opts, start, steps, id)
    requires Run(opts, start, steps + [s]) == Some(Next(opts, g, s))
    ensures History(opts, start, steps + [s], id)
  {
    if id in g.phases {
      if s.Judge? && s.id == id {
        JudgeTold(opts, start, steps, s, g, g.calls[id]);
      } else if s.PassGate? && s.id == id {
        PassGateTold(opts, start, steps, s, g);
      } else if s == Execute(id) {
        ExecuteTold(opts, start, steps, id, g.calls[id], g.phases[id]);
      } else {
        ToldStays(opts, start, steps, s, id, g.calls[id], g.phases[id]);
      }
    } else if s.Arrive? && s.id == id {
      assert forall call :: Arrive(id, call) in steps + [s] <==> call == s.call;
    }
  }

  // ---------- The promises ----------

  /** A verdict asked for approval of this call, and the executor ran it. */
  ghost predicate RanJudged(steps: seq<Step>, id: CallId, call: Call) {
    && Arrive(id, call) in steps && Execute(id) in steps
    && exists allowed :: Judge(id, allowed, true) in steps
  }

  lemma RanJudgedEnds(opts: Options, start: Records, steps: seq<Step>, id: CallId, call: Call)
    requires Run(opts, start, steps).Some? && RanJudged(steps, id, call)
    ensures var g := Run(opts, start, steps).value;
            RanWithApproval(g, id) && g.calls[id] == call
    ensures exists p :: PaidAt(opts, start, steps, id, p, call)
  {
    HistoryHolds(opts, start, steps, id);
  }

  /** Whenever the executor ran a call whose verdict asked for approval, a gate step lies between the
      verdict and the executor call in which the store consumed the call's token, on an approved record
      with its votes, for exactly this tool and payload, in time. */
  lemma ExecutionWasApproved(opts: Options, start: Records, steps: seq<Step>, id: CallId, call: Call) returns (p: nat)
    requires Run(opts, start, steps).Some? && RanJudged(steps, id, call)
    ensures PaidAt(opts, start, steps, id, p, call)
  {
    RanJudgedEnds(opts, start, steps, id, call);
    p :| PaidAt(opts, start, steps, id, p, call);
  }

  /** No two of them, however they interleave, used the same token. */
  lemma OneExecutionPerToken(opts: Options, start: Records, steps: seq<Step>, i: CallId, a: Call, j: CallId, b: Call)
    requires Run(opts, start, steps).Some? && i != j && RanJudged(steps, i, a) && RanJudged(steps, j, b)
    ensures a.token != b.token
  {
    RanJudgedEnds(opts, start, steps, i, a);
    RanJudgedEnds(opts, start, steps, j, b);
    RunKeepsInv(opts, start, steps);
    TokensDiffer(Run(opts, start, steps).value, i, j);
  }

  /** The executor runs no call without a verdict that allows it, and none with one that does not. */
  lemma OnlyAllowedCallsRun(opts: Options, start: Records, steps: seq<Step>, id: CallId)
    requires Run(opts, start, steps).Some? && Execute(id) in steps
    ensures exists required :: Judge(id, true, required) in steps
    ensures forall required :: Judge(id, false, required) !in steps
  {
    HistoryHolds(opts, start, steps, id);
  }

  lemma AfterOne(opts: Options, start: Records, front: seq<Step>, s: Step)
    requires Run(opts, start, front).Some? && Enabled(Run(opts, start, front).value, s)
    ensures Run(opts, start, front + [s]) == Some(Next(opts, Run(opts, start, front).value, s))
  {
    var longer := front + [s];
    assert longer[..|longer| - 1] == front && longer[|longer| - 1] == s;
  }

  /** A call that is allowed without approval runs, with or without a token, and leaves the store alone. */
  lemma FreeCallRuns(opts: Options, start: Records, call: Call)
    ensures var end := Run(opts, start, [] + [Arrive(0, call)] + [Judge(0, true, false)] + [Execute(0)]);
            end.Some? && end.value.records == start && end.value.phases[0].Executed?
  {
    AfterOne(opts, start, [], Arrive(0, call));
    AfterOne(opts, start, [] + [Arrive(0, call)], Judge(0, true, false));
    AfterOne(opts, start, [] + [Arrive(0, call)] + [Judge(0, true, false)], Execute(0));
  }

  /** A call that needs approval runs next exactly if the store holds an approved record for its token,
      tool and payload, with its votes and not overdue. */
  lemma ApprovedCallRunsExactly(opts: Options, start: Records, call: Call, freshToken: string, now: int)
    requires call.token.Some? && call.token.value != ""
    ensures var gate := [] + [Arrive(0, call)] + [Judge(0, true, true)] + [PassGate(0, freshToken, now)];
            && Run(opts, start, gate).Some?
            && (Run(opts, start, gate + [Execute(0)]).Some? <==>
                  var token := call.token.value;
                  && token in start && start[token].status == Approved
                  && |start[token].votes| >= start[token].request.requiredApprovals
                  && start[token].request.capabilityId == call.toolName
                  && start[token].request.payloadHash == call.cleanPayloadHash && now <= start[token].request.expiresAt)
  {
    var arrived := [] + [Arrive(0, call)];
    var judged := arrived + [Judge(0, true, true)];
    var gate := judged + [PassGate(0, freshToken, now)];
    AfterOne(opts, start, [], Arrive(0, call));
    AfterOne(opts, start, arrived, Judge(0, true, true));
    AfterOne(opts, start, judged, PassGate(0, freshToken, now));
    if Enabled(Run(opts, start, gate).value, Execute(0)) {
      AfterOne(opts, start, gate, Execute(0));
    } else {
      assert (gate + [Execute(0)])[..|gate|] == gate;
    }
  }

  /** A call that needs approval and brings no token is refused, and a request for a token is filed: at
      high risk, for its tool and payload, in the name of its agent. */
  lemma TokenlessCallAsks(opts: Options, start: Records, steps: seq<Step>, s: Step)
    requires Run(opts, start, steps).Some? && s.PassGate? && Enabled(Run(opts, start, steps).value, s)
    requires var call := Run(opts, start, steps).value.calls[s.id]; call.token.None? || call.token.value == ""
    ensures var g, after := Run(opts, start, steps).value, Next(opts, Run(opts, start, steps).value, s);
            var call := g.calls[s.id];
            && after.phases[s.id] == Refused && s.freshToken in after.records
            && var rec := after.records[s.freshToken];
               && rec.status == Pending && rec.votes == [] && rec.request.token == s.freshToken
               && rec.request.requestId == call.requestId && rec.request.capabilityId == call.toolName
               && rec.request.payloadHash == call.cleanPayloadHash && rec.request.riskLevel == "high"
               && rec.request.sideEffectLevel == call.sideEffect && rec.request.requestedBy == call.agentId
               && rec.request.createdAt == s.now && rec.request.expiresAt == s.now + opts.defaultTtlMs
  {
  }

  /** A refused call never runs. */
  lemma RefusedStaysRefused(opts: Options, g: Gateway, s: Step, id: CallId)
    requires Enabled(g, s) && id in g.phases && g.phases[id] == Refused
    ensures Next(opts, g, s).phases[id] == Refused && s != Execute(id)
  {
  }
}
