/** The gateway over a replicated store. */
module GatewayNetwork {
  // One replica of the network is the gateway's own store: the calls of the gate go through it,
  // while other operations on it, other replicas and the network interleave freely.

  import opened Basics
  import opened QuorumStore
  import N = QuorumNetwork
  import G = ApprovalGateway
  import R = GatewayRuns
  import Q = QuorumRuns

  /** home: the replica that the gateway uses. */
  datatype System = System(home: N.ReplicaId, net: N.Net, gateway: G.Gateway)

  datatype Move =
    | AtGateway(step: G.Step)
    | Elsewhere(action: N.Action)

  /** The store operation of a gateway step, if it is one. */
  function StoreOp(g: G.Gateway, s: G.Step): Option<Op>
    requires G.Enabled(g, s)
  {
    match s
    case PassGate(id, freshToken, now) => Some(G.GateOp(g.calls[id], freshToken, now))
    case OnStore(op) => Some(op)
    case _ => None
  }

  function Start(config: N.Config, home: N.ReplicaId): System {
    System(home, N.Init(config), G.Gateway(map[], map[], map[]))
  }

  /** Operations on the gateway's own store are steps of the gateway; exports of it are not. */
  ghost predicate Enabled(config: N.Config, sys: System, m: Move) {
    match m
    case AtGateway(s) =>
      && sys.home in config && G.Enabled(sys.gateway, s)
      && (StoreOp(sys.gateway, s).Some? ==> N.Enabled(config, sys.net, N.Do(sys.home, StoreOp(sys.gateway, s).value)))
    case Elsewhere(a) => N.Enabled(config, sys.net, a) && (a.Do? ==> a.at != sys.home)
  }

  ghost function Next(config: N.Config, sys: System, m: Move): System
    requires Enabled(config, sys, m)
  {
    match m
    case AtGateway(s) =>
      var op := StoreOp(sys.gateway, s);
      sys.(net := if op.Some? then N.Next(config, sys.net, N.Do(sys.home, op.value)) else sys.net,
           gateway := G.Next(config[sys.home], sys.gateway, s))
    case Elsewhere(a) => sys.(net := N.Next(config, sys.net, a))
  }

  ghost function Run(config: N.Config, home: N.ReplicaId, moves: seq<Move>): Option<System> {
    if moves == [] then Some(Start(config, home))
    else
      match Run(config, home, moves[..|moves| - 1])
      case None => None
      case Some(sys) =>
        var m := moves[|moves| - 1];
        if Enabled(config, sys, m) then Some(Next(config, sys, m)) else None
  }

  /** The record that a call consumed its token on is one the network vouches for. */
  ghost predicate Vouched(net: N.Net, call: G.Call, p: G.Phase) {
    (p.Cleared? || p.Executed?) && p.consumed.Some? ==>
      && call.token == Some(p.consumed.value.request.token)
      && N.Good(net.issued, net.ballots, p.consumed.value)
  }

  ghost predicate AllVouched(net: N.Net, g: G.Gateway) {
    forall id :: id in g.phases && id in g.calls ==> Vouched(net, g.calls[id], g.phases[id])
  }

  ghost predicate Inv(config: N.Config, sys: System) {
    && N.Inv(config, sys.net) && G.Inv(sys.gateway)
    && (sys.home in config ==> sys.net.stores[sys.home] == sys.gateway.records)
    && AllVouched(sys.net, sys.gateway)
  }

  lemma VouchedStays(net: N.Net, after: N.Net, g: G.Gateway)
    requires AllVouched(net, g) && N.Extends(net.issued, net.ballots, after.issued, after.ballots)
    ensures AllVouched(after, g)
  {
    forall id | id in g.phases && id in g.calls ensures Vouched(after, g.calls[id], g.phases[id]) {
      assert Vouched(net, g.calls[id], g.phases[id]);
      var p := g.phases[id];
      if (p.Cleared? || p.Executed?) && p.consumed.Some? {
        N.GoodExtends(net.issued, net.ballots, after.issued, after.ballots, p.consumed.value);
      }
    }
  }

  lemma NetworkOnlyLearns(config: N.Config, net: N.Net, a: N.Action)
    requires N.Enabled(config, net, a)
    ensures var after := N.Next(config, net, a);
            N.Extends(net.issued, net.ballots, after.issued, after.ballots)
  {
  }

  lemma ElsewhereKeepsInv(config: N.Config, sys: System, a: N.Action)
    requires Inv(config, sys) && Enabled(config, sys, Elsewhere(a))
    ensures Inv(config, Next(config, sys, Elsewhere(a)))
  {
    N.NextKeepsInv(config, sys.net, a);
    NetworkOnlyLearns(config, sys.net, a);
    VouchedStays(sys.net, N.Next(config, sys.net, a), sys.gateway);
  }

  /** A token that the gate consumes was consumed on a record of its own store. */
  lemma GateVouches(config: N.Config, sys: System, s: G.Step)
    requires Inv(config, sys) && Enabled(config, sys, AtGateway(s)) && s.PassGate?
    ensures Vouched(sys.net, sys.gateway.calls[s.id], G.Next(config[sys.home], sys.gateway, s).phases[s.id])
  {
    assert N.GoodStore(sys.net.issued, sys.net.ballots, sys.net.stores[sys.home]);
  }

  lemma StepVouches(config: N.Config, sys: System, s: G.Step)
    requires Inv(config, sys) && Enabled(config, sys, AtGateway(s))
    ensures AllVouched(sys.net, G.Next(config[sys.home], sys.gateway, s))
  {
    var g, g' := sys.gateway, G.Next(config[sys.home], sys.gateway, s);
    if s.PassGate? { GateVouches(config, sys, s); }
    forall id | id in g'.phases && id in g'.calls ensures Vouched(sys.net, g'.calls[id], g'.phases[id]) {
      if id in g.phases && id in g.calls { assert Vouched(sys.net, g.calls[id], g.phases[id]); }
    }
  }

  lemma GatewayKeepsInv(config: N.Config, sys: System, s: G.Step)
    requires Inv(config, sys) && Enabled(config, sys, AtGateway(s))
    ensures Inv(config, Next(config, sys, AtGateway(s)))
  {
    var op := StoreOp(sys.gateway, s);
    G.NextKeepsInv(config[sys.home], sys.gateway, s);
    StepVouches(config, sys, s);
    if op.Some? {
      var a := N.Do(sys.home, op.value);
      N.NextKeepsInv(config, sys.net, a);
      NetworkOnlyLearns(config, sys.net, a);
      VouchedStays(sys.net, N.Next(config, sys.net, a), G.Next(config[sys.home], sys.gateway, s));
    }
  }

  lemma {:induction false} RunKeepsInv(config: N.Config, home: N.ReplicaId, moves: seq<Move>)
    requires Run(config, home, moves).Some?
    ensures Inv(config, Run(config, home, moves).value) && Run(config, home, moves).value.home == home
  {
    if moves != [] {
      RunKeepsInv(config, home, moves[..|moves| - 1]);
      var sys, m := Run(config, home, moves[..|moves| - 1]).value, moves[|moves| - 1];
      if m.AtGateway? { GatewayKeepsInv(config, sys, m.step); } else { ElsewhereKeepsInv(config, sys, m.action); }
    }
  }

  // ---------- The gateway's steps and the network's calls among the moves ----------

  ghost function StepsOf(moves: seq<Move>): (steps: seq<G.Step>)
    ensures forall s :: s in steps <==> AtGateway(s) in moves
  {
    if moves == [] then []
    else
      var m := moves[|moves| - 1];
      assert moves == moves[..|moves| - 1] + [m];
      StepsOf(moves[..|moves| - 1]) + if m.AtGateway? then [m.step] else []
  }

  /** The call on the network's stores that a move makes, if it makes one. */
  ghost function ActionOf(sys: System, m: Move): seq<N.Action> {
    match m
    case Elsewhere(a) => [a]
    case AtGateway(s) =>
      if G.Enabled(sys.gateway, s) && StoreOp(sys.gateway, s).Some?
      then [N.Do(sys.home, StoreOp(sys.gateway, s).value)] else []
  }

  ghost function ActionsOf(config: N.Config, home: N.ReplicaId, moves: seq<Move>): seq<N.Action>
    requires Run(config, home, moves).Some?
  {
    if moves == [] then []
    else
      ActionsOf(config, home, moves[..|moves| - 1])
      + ActionOf(Run(config, home, moves[..|moves| - 1]).value, moves[|moves| - 1])
  }

  lemma GatewayStep(opts: Options, front: seq<G.Step>, s: G.Step)
    requires G.Run(opts, map[], front).Some? && G.Enabled(G.Run(opts, map[], front).value, s)
    ensures G.Run(opts, map[], front + [s]) == Some(G.Next(opts, G.Run(opts, map[], front).value, s))
  {
    R.AfterOne(opts, map[], front, s);
  }

  lemma NetworkStep(config: N.Config, front: seq<N.Action>, a: N.Action)
    requires N.Run(config, front).Some? && N.Enabled(config, N.Run(config, front).value, a)
    ensures N.Run(config, front + [a]) == Some(N.Next(config, N.Run(config, front).value, a))
  {
    var longer := front + [a];
    assert longer[..|longer| - 1] == front && longer[|longer| - 1] == a;
  }

  /** Seen from either side the run is one of the gateway alone, and one of the network alone. */
  lemma {:induction false} RunSplits(config: N.Config, home: N.ReplicaId, moves: seq<Move>)
    requires Run(config, home, moves).Some? && home in config
    ensures var sys := Run(config, home, moves).value;
            && G.Run(config[home], map[], StepsOf(moves)) == Some(sys.gateway)
            && N.Run(config, ActionsOf(config, home, moves)) == Some(sys.net)
  {
    if moves != [] {
      var front, m := moves[..|moves| - 1], moves[|moves| - 1];
      RunSplits(config, home, front);
      RunKeepsInv(config, home, front);
      MoveSplits(config, home, front, m);
    }
  }

  lemma MoveSplits(config: N.Config, home: N.ReplicaId, front: seq<Move>, m: Move)
    requires Run(config, home, front).Some? && home in config && Enabled(config, Run(config, home, front).value, m)
    requires Run(config, home, front).value.home == home
    requires G.Run(config[home], map[], StepsOf(front)) == Some(Run(config, home, front).value.gateway)
    requires N.Run(config, ActionsOf(config, home, front)) == Some(Run(config, home, front).value.net)
    ensures var sys, after := Run(config, home, front).value, Next(config, Run(config, home, front).value, m);
            && G.Run(config[home], map[], StepsOf(front) + if m.AtGateway? then [m.step] else []) == Some(after.gateway)
            && N.Run(config, ActionsOf(config, home, front) + ActionOf(sys, m)) == Some(after.net)
  {
    var sys, actions := Run(config, home, front).value, ActionsOf(config, home, front);
    match m
    case Elsewhere(a) =>
      NetworkStep(config, actions, a);
      assert StepsOf(front) + [] == StepsOf(front);
    case AtGateway(s) =>
      GatewayStep(config[home], StepsOf(front), s);
      var op := StoreOp(sys.gateway, s);
      if op.Some? { NetworkStep(config, actions, N.Do(home, op.value)); } else { assert actions + [] == actions; }
  }

  /** A gateway step happens only at a replica that exists. */
  lemma {:induction false} StepsNeedHome(config: N.Config, home: N.ReplicaId, moves: seq<Move>, s: G.Step)
    requires Run(config, home, moves).Some? && AtGateway(s) in moves
    ensures home in config
  {
    var front, m := moves[..|moves| - 1], moves[|moves| - 1];
    assert moves == front + [m];
    RunKeepsInv(config, home, front);
    if m != AtGateway(s) { StepsNeedHome(config, home, front, s); }
  }

  /** Among the moves a verdict asked for approval of this call, and the executor ran it. */
  ghost predicate RanJudged(moves: seq<Move>, id: G.CallId, call: G.Call) {
    && AtGateway(G.Arrive(id, call)) in moves && AtGateway(G.Execute(id)) in moves
    && exists allowed :: AtGateway(G.Judge(id, allowed, true)) in moves
  }

  lemma RanJudgedSteps(config: N.Config, home: N.ReplicaId, moves: seq<Move>, id: G.CallId, call: G.Call)
    requires Run(config, home, moves).Some? && RanJudged(moves, id, call)
    ensures home in config && G.Run(config[home], map[], StepsOf(moves)) == Some(Run(config, home, moves).value.gateway)
    ensures R.RanJudged(StepsOf(moves), id, call)
  {
    StepsNeedHome(config, home, moves, G.Execute(id));
    RunSplits(config, home, moves);
    var allowed :| AtGateway(G.Judge(id, allowed, true)) in moves;
    assert G.Judge(id, allowed, true) in StepsOf(moves);
  }

  /** End to end: whenever the executor ran a call whose verdict asked for approval, somebody had asked
      for its token, for exactly this tool and payload, and as many people as the risk level of that
      request needs had called approveToken for it somewhere in the network - the one who asked not
      counted if no replica allows that. */
  lemma ExecutionHadQuorum(config: N.Config, home: N.ReplicaId, moves: seq<Move>, id: G.CallId, call: G.Call)
    returns (g: nat)
    requires Run(config, home, moves).Some? && RanJudged(moves, id, call)
    ensures call.token.Some?
    ensures var actions := ActionsOf(config, home, moves);
            && Q.AsksFor(actions, g, call.token.value) && actions[g].at in config
            && actions[g].op.capabilityId == call.toolName && actions[g].op.payloadHash == call.cleanPayloadHash
            && Q.Backing(config, actions, actions[g])
  {
    RanJudgedSteps(config, home, moves, id, call);
    R.RanJudgedEnds(config[home], map[], StepsOf(moves), id, call);
    RunSplits(config, home, moves);
    RunKeepsInv(config, home, moves);
    var sys := Run(config, home, moves).value;
    var p := sys.gateway.phases[id];
    assert G.PaidFor(call, p) && Vouched(sys.net, call, p);
    N.VotesMakeQuorum(config, sys.net, p.consumed.value);
    g := Q.QuorumIsBacking(config, ActionsOf(config, home, moves), call.token.value);
  }

  /** Nor do two of them ever use one token, whatever the rest of the network does. */
  lemma ExecutionsUseDifferentTokens(config: N.Config, home: N.ReplicaId, moves: seq<Move>,
                                     i: G.CallId, a: G.Call, j: G.CallId, b: G.Call)
    requires Run(config, home, moves).Some? && i != j && RanJudged(moves, i, a) && RanJudged(moves, j, b)
    ensures a.token != b.token
  {
    RanJudgedSteps(config, home, moves, i, a);
    RanJudgedSteps(config, home, moves, j, b);
    R.OneExecutionPerToken(config[home], map[], StepsOf(moves), i, a, j, b);
  }
}
