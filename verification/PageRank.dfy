/** Personalized PageRank by power iteration over adjacency lists, over the reals: model and loops. */
module PageRank {

  datatype Edge = Edge(source: string, target: string)
  datatype Graph = Graph(nodes: seq<string>, edges: seq<Edge>)

  type Vector = map<string, real>
  type Adjacency = map<string, seq<string>>
  type Scores = string -> real

  /** Multiplication under a name, so that proofs can treat a product as a term. */
  function Scaled(c: real, y: real): real { c * y }

  /** The stored score, or zero. */
  function Get(v: Vector, u: string): real { if u in v then v[u] else 0.0 }

  function Neighbors(out: Adjacency, u: string): seq<string> { if u in out then out[u] else [] }

  function Sum(nodes: seq<string>, v: Vector): real {
    if nodes == [] then 0.0 else Sum(nodes[..|nodes| - 1], v) + Get(v, nodes[|nodes| - 1])
  }

  /** The vector that a loop over the nodes fills in. */
  function Tabulate(nodes: seq<string>, f: Scores): (v: Vector)
  {
    if nodes == [] then map[]
    else Tabulate(nodes[..|nodes| - 1], f)[nodes[|nodes| - 1] := f(nodes[|nodes| - 1])]
  }

  // ---------- Seeds ----------

  function Seed(weights: Vector, id: string): real {
    if Get(weights, id) > 0.0 then Get(weights, id) else 0.0
  }

  function SeedSum(nodes: seq<string>, weights: Vector): (s: real)
    ensures s >= 0.0
  {
    if nodes == [] then 0.0 else SeedSum(nodes[..|nodes| - 1], weights) + Seed(weights, nodes[|nodes| - 1])
  }

  function SeededOf(weights: Vector, total: real): Scores
    requires total > 0.0
  {
    (u: string) => Seed(weights, u) / total
  }

  function UniformOf(y: real): Scores { (u: string) => y }

  /** Seed weights clipped at zero and normalised; uniform when none is positive. */
  function Personalization(nodes: seq<string>, weights: Vector): Vector {
    var total := SeedSum(nodes, weights);
    if total > 0.0 then Tabulate(nodes, SeededOf(weights, total))
    else if nodes == [] then map[] else Tabulate(nodes, UniformOf(1.0 / |nodes| as real))
  }

  // ---------- Adjacency ----------

  /** An edge with an unknown end is dropped. */
  function AddEdge(nodes: seq<string>, out: Adjacency, e: Edge): Adjacency {
    if e.source in nodes && e.target in nodes then out[e.source := Neighbors(out, e.source) + [e.target]] else out
  }

  /** Repeated edges are kept. */
  function AddEdges(nodes: seq<string>, out: Adjacency, edges: seq<Edge>): Adjacency {
    if edges == [] then out else AddEdge(nodes, AddEdges(nodes, out, edges[..|edges| - 1]), edges[|edges| - 1])
  }

  function Outgoing(g: Graph): Adjacency {
    AddEdges(g.nodes, map u | u in g.nodes :: [], g.edges)
  }

  // ---------- One iteration ----------

  function DanglingMass(nodes: seq<string>, out: Adjacency, x: Vector): real {
    if nodes == [] then 0.0
    else
      var u := nodes[|nodes| - 1];
      DanglingMass(nodes[..|nodes| - 1], out, x) + if Neighbors(out, u) == [] then Get(x, u) else 0.0
  }

  /** Teleport plus the damped dangling mass, both shared out like the personalization. */
  function BaseOf(p: Vector, teleport: real, carried: real): Scores {
    (u: string) => Scaled(teleport, Get(p, u)) + Scaled(carried, Get(p, u))
  }

  function DampedOf(d: real, x: Vector): Scores { (u: string) => Scaled(d, Get(x, u)) }

  /** What a node with neighbours hands to each of them. */
  function ShareOf(out: Adjacency, damped: Scores): Scores {
    (u: string) => if Neighbors(out, u) == [] then 0.0 else damped(u) / |Neighbors(out, u)| as real
  }

  function PushAll(next: Vector, neighbors: seq<string>, share: real): Vector {
    if neighbors == [] then next
    else
      var sofar, t := PushAll(next, neighbors[..|neighbors| - 1], share), neighbors[|neighbors| - 1];
      sofar[t := Get(sofar, t) + share]
  }

  function Spread(next: Vector, nodes: seq<string>, out: Adjacency, share: Scores): Vector {
    if nodes == [] then next
    else
      var u := nodes[|nodes| - 1];
      PushAll(Spread(next, nodes[..|nodes| - 1], out, share), Neighbors(out, u), share(u))
  }

  /** One iteration, given the dangling mass. */
  function StepFrom(nodes: seq<string>, out: Adjacency, p: Vector, d: real, x: Vector, dangling: real): Vector {
    Spread(Tabulate(nodes, BaseOf(p, 1.0 - d, Scaled(d, dangling))), nodes, out, ShareOf(out, DampedOf(d, x)))
  }

  function Step(nodes: seq<string>, out: Adjacency, p: Vector, d: real, x: Vector): Vector {
    StepFrom(nodes, out, p, d, x, DanglingMass(nodes, out, x))
  }

  function Iterate(nodes: seq<string>, out: Adjacency, p: Vector, d: real, x: Vector, k: nat): Vector {
    if k == 0 then x else Step(nodes, out, p, d, Iterate(nodes, out, p, d, x, k - 1))
  }

  /** Every neighbour is a node. */
  ghost predicate Inside(nodes: seq<string>, out: Adjacency) {
    forall u, t :: t in Neighbors(out, u) ==> t in nodes
  }

  lemma {:induction false} AddEdgesInside(nodes: seq<string>, out: Adjacency, edges: seq<Edge>)
    requires Inside(nodes, out)
    ensures Inside(nodes, AddEdges(nodes, out, edges))
  {
    if edges != [] {
      AddEdgesInside(nodes, out, edges[..|edges| - 1]);
      var sofar, e := AddEdges(nodes, out, edges[..|edges| - 1]), edges[|edges| - 1];
      var r := AddEdges(nodes, out, edges);
      forall u, t | t in Neighbors(r, u) ensures t in nodes {
        assert t in Neighbors(sofar, u) || t == e.target;
      }
    }
  }

  lemma OutgoingInside(g: Graph)
    ensures Inside(g.nodes, Outgoing(g))
  {
    AddEdgesInside(g.nodes, map u | u in g.nodes :: [], g.edges);
  }

  // ---------- The whole computation ----------

  function MaxOf(nodes: seq<string>, x: Vector): (m: real)
    ensures m >= 0.0
    ensures forall u :: u in nodes ==> Get(x, u) <= m
  {
    if nodes == [] then 0.0
    else
      var front, u := nodes[..|nodes| - 1], nodes[|nodes| - 1];
      assert nodes == front + [u];
      if Get(x, u) > MaxOf(front, x) then Get(x, u) else MaxOf(front, x)
  }

  function QuotientOf(x: Vector, m: real): Scores
    requires m > 0.0
  {
    (u: string) => Get(x, u) / m
  }

  /** The vector divided by its greatest entry, if that is positive. */
  function Normalised(nodes: seq<string>, x: Vector): Vector {
    if MaxOf(nodes, x) > 0.0 then Tabulate(nodes, QuotientOf(x, MaxOf(nodes, x))) else x
  }

  function Rounds(iterations: int): nat { if iterations < 0 then 0 else iterations }

  function Ranking(g: Graph, weights: Vector, d: real, iterations: int): Vector {
    if g.nodes == [] then map[]
    else
      var p := Personalization(g.nodes, weights);
      Normalised(g.nodes, Iterate(g.nodes, Outgoing(g), p, d, p, Rounds(iterations)))
  }

  // ---------- The loops ----------

  lemma Front<T>(s: seq<T>, i: nat)
    requires i < |s|
    ensures s[..i + 1][..i] == s[..i]
  {
  }

  method SumSeeds(nodes: seq<string>, weights: Vector) returns (total: real)
    ensures total == SeedSum(nodes, weights)
  {
    total := 0.0;
    for i := 0 to |nodes|
      invariant total == SeedSum(nodes[..i], weights)
    {
      Front(nodes, i);
      total := total + Seed(weights, nodes[i]);
    }
    assert nodes[..|nodes|] == nodes;
  }

  method Personalize(nodes: seq<string>, weights: Vector) returns (p: Vector)
    requires nodes != []
    ensures p == Personalization(nodes, weights)
  {
    var total := SumSeeds(nodes, weights);
    ghost var f := if total > 0.0 then SeededOf(weights, total) else UniformOf(1.0 / |nodes| as real);
    p := map[];
    for i := 0 to |nodes|
      invariant p == Tabulate(nodes[..i], f)
    {
      Front(nodes, i);
      var w := if total > 0.0 then Seed(weights, nodes[i]) / total else 1.0 / |nodes| as real;
      p := p[nodes[i] := w];
    }
    assert nodes[..|nodes|] == nodes;
  }

  method BuildAdjacency(g: Graph) returns (out: Adjacency)
    ensures out == Outgoing(g)
  {
    out := map u | u in g.nodes :: [];
    ghost var start := out;
    for i := 0 to |g.edges|
      invariant out == AddEdges(g.nodes, start, g.edges[..i])
    {
      Front(g.edges, i);
      var e := g.edges[i];
      if e.source in g.nodes && e.target in g.nodes {
        out := out[e.source := Neighbors(out, e.source) + [e.target]];
      }
    }
    assert g.edges[..|g.edges|] == g.edges;
  }

  method GatherDangling(nodes: seq<string>, out: Adjacency, x: Vector) returns (mass: real)
    ensures mass == DanglingMass(nodes, out, x)
  {
    mass := 0.0;
    for i := 0 to |nodes|
      invariant mass == DanglingMass(nodes[..i], out, x)
    {
      Front(nodes, i);
      if Neighbors(out, nodes[i]) == [] { mass := mass + Get(x, nodes[i]); }
    }
    assert nodes[..|nodes|] == nodes;
  }

  method ShareBase(nodes: seq<string>, p: Vector, teleport: real, carried: real) returns (next: Vector)
    ensures next == Tabulate(nodes, BaseOf(p, teleport, carried))
  {
    next := map[];
    for i := 0 to |nodes|
      invariant next == Tabulate(nodes[..i], BaseOf(p, teleport, carried))
    {
      Front(nodes, i);
      next := next[nodes[i] := Scaled(teleport, Get(p, nodes[i])) + Scaled(carried, Get(p, nodes[i]))];
    }
    assert nodes[..|nodes|] == nodes;
  }

  method PushToNeighbors(before: Vector, neighbors: seq<string>, share: real) returns (next: Vector)
    ensures next == PushAll(before, neighbors, share)
  {
    next := before;
    for i := 0 to |neighbors|
      invariant next == PushAll(before, neighbors[..i], share)
    {
      Front(neighbors, i);
      next := next[neighbors[i] := Get(next, neighbors[i]) + share];
    }
    assert neighbors[..|neighbors|] == neighbors;
  }

  method PushShares(base: Vector, nodes: seq<string>, out: Adjacency, d: real, x: Vector) returns (next: Vector)
    ensures next == Spread(base, nodes, out, ShareOf(out, DampedOf(d, x)))
  {
    next := base;
    for i := 0 to |nodes|
      invariant next == Spread(base, nodes[..i], out, ShareOf(out, DampedOf(d, x)))
    {
      Front(nodes, i);
      var neighbors := Neighbors(out, nodes[i]);
      if |neighbors| > 0 {
        var share := Scaled(d, Get(x, nodes[i])) / |neighbors| as real;
        next := PushToNeighbors(next, neighbors, share);
      }
    }
    assert nodes[..|nodes|] == nodes;
  }

  method FindMax(nodes: seq<string>, x: Vector) returns (m: real)
    ensures m == MaxOf(nodes, x)
  {
    m := 0.0;
    for i := 0 to |nodes|
      invariant m == MaxOf(nodes[..i], x)
    {
      Front(nodes, i);
      if Get(x, nodes[i]) > m { m := Get(x, nodes[i]); }
    }
    assert nodes[..|nodes|] == nodes;
  }

  method NormaliseMax(nodes: seq<string>, x: Vector) returns (r: Vector)
    ensures r == Normalised(nodes, x)
  {
    var m := FindMax(nodes, x);
    if m <= 0.0 { return x; }
    r := map[];
    for i := 0 to |nodes|
      invariant r == Tabulate(nodes[..i], QuotientOf(x, m))
    {
      Front(nodes, i);
      r := r[nodes[i] := Get(x, nodes[i]) / m];
    }
    assert nodes[..|nodes|] == nodes;
  }

  ghost function Ids(nodes: seq<string>): set<string> { set u | u in nodes }

  lemma {:induction false} TabulateKeys(nodes: seq<string>, f: Scores)
    ensures Tabulate(nodes, f).Keys == Ids(nodes)
  {
    if nodes != [] {
      TabulateKeys(nodes[..|nodes| - 1], f);
      assert nodes == nodes[..|nodes| - 1] + [nodes[|nodes| - 1]];
    }
  }

  lemma {:induction false} PushAllKeys(all: seq<string>, next: Vector, neighbors: seq<string>, share: real)
    requires next.Keys == Ids(all) && forall t :: t in neighbors ==> t in all
    ensures PushAll(next, neighbors, share).Keys == Ids(all)
  {
    if neighbors != [] {
      assert neighbors[|neighbors| - 1] in neighbors;
      PushAllKeys(all, next, neighbors[..|neighbors| - 1], share);
    }
  }

  lemma {:induction false} SpreadKeys(all: seq<string>, next: Vector, nodes: seq<string>, out: Adjacency, share: Scores)
    requires next.Keys == Ids(all) && Inside(all, out)
    ensures Spread(next, nodes, out, share).Keys == Ids(all)
  {
    if nodes != [] {
      var front, u := nodes[..|nodes| - 1], nodes[|nodes| - 1];
      SpreadKeys(all, next, front, out, share);
      PushAllKeys(all, Spread(next, front, out, share), Neighbors(out, u), share(u));
    }
  }

  /** An iteration scores exactly the nodes. */
  lemma StepKeys(nodes: seq<string>, out: Adjacency, p: Vector, d: real, x: Vector)
    requires Inside(nodes, out)
    ensures Step(nodes, out, p, d, x).Keys == Ids(nodes)
  {
    var base := BaseOf(p, 1.0 - d, Scaled(d, DanglingMass(nodes, out, x)));
    TabulateKeys(nodes, base);
    SpreadKeys(nodes, Tabulate(nodes, base), nodes, out, ShareOf(out, DampedOf(d, x)));
  }

  lemma PersonalizationKeys(nodes: seq<string>, weights: Vector)
    ensures Personalization(nodes, weights).Keys == Ids(nodes)
  {
    var total := SeedSum(nodes, weights);
    if total > 0.0 {
      TabulateKeys(nodes, SeededOf(weights, total));
    } else if nodes != [] {
      TabulateKeys(nodes, UniformOf(1.0 / |nodes| as real));
    }
  }

  lemma Overwritten(x: Vector, y: Vector)
    requires x.Keys == y.Keys
    ensures x + y == y
  {
  }

  /** One round of the loop: the new scores overwrite the old ones. */
  method IterateOnce(nodes: seq<string>, out: Adjacency, p: Vector, d: real, x: Vector) returns (ppr: Vector)
    requires Inside(nodes, out) && x.Keys == Ids(nodes)
    ensures ppr == Step(nodes, out, p, d, x) && ppr.Keys == Ids(nodes)
  {
    var mass := GatherDangling(nodes, out, x);
    var base := ShareBase(nodes, p, 1.0 - d, Scaled(d, mass));
    var next := PushShares(base, nodes, out, d, x);
    StepKeys(nodes, out, p, d, x);
    Overwritten(x, next);
    ppr := x + next;
  }

  method RunIterations(nodes: seq<string>, out: Adjacency, p: Vector, d: real, iterations: int) returns (ppr: Vector)
    requires Inside(nodes, out) && p.Keys == Ids(nodes)
    ensures ppr == Iterate(nodes, out, p, d, p, Rounds(iterations))
  {
    ppr := p;
    ghost var rounds := Rounds(iterations);
    var iter := 0;
    while iter < iterations
      invariant 0 <= iter <= rounds
      invariant ppr == Iterate(nodes, out, p, d, p, iter) && ppr.Keys == Ids(nodes)
    {
      ppr := IterateOnce(nodes, out, p, d, ppr);
      iter := iter + 1;
    }
    assert iter == rounds;
  }

  method ComputePersonalizedPageRank(g: Graph, seedWeights: Vector, damping: real, iterations: int)
    returns (ppr: Vector)
    ensures ppr == Ranking(g, seedWeights, damping, iterations)
  {
    if g.nodes == [] { return map[]; }
    var p := Personalize(g.nodes, seedWeights);
    var out := BuildAdjacency(g);
    OutgoingInside(g);
    PersonalizationKeys(g.nodes, seedWeights);
    ppr := RunIterations(g.nodes, out, p, damping, iterations);
    ppr := NormaliseMax(g.nodes, ppr);
  }
}
