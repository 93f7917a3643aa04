/** Power iteration conserves mass and forgets its start: every step contracts distances. */
module PageRankTheorems {
  import opened Basics
  import opened PageRank
  import opened PageRankMass

  // ---------- Conservation ----------

  /** Seeds clipped at zero and divided by their sum, or the uniform vector, sum to one. */
  lemma PersonalizationIsDistribution(nodes: seq<string>, weights: Vector)
    requires nodes != []
    ensures Distribution(nodes, Personalization(nodes, weights))
  {
    if SeedSum(nodes, weights) > 0.0 {
      SeededIsDistribution(nodes, weights, SeedSum(nodes, weights));
    } else {
      UniformIsDistribution(nodes, 1.0 / |nodes| as real);
    }
  }

  /** Every iteration conserves mass: from a distribution, with a distribution to teleport to,
      scores stay non-negative and sum to exactly one. */
  lemma {:induction false} IterateConserves(nodes: seq<string>, out: Adjacency, p: Vector, d: real, x: Vector, k: nat)
    requires NoDuplicates(nodes) && Inside(nodes, out) && 0.0 <= d <= 1.0
    requires Distribution(nodes, p) && Distribution(nodes, x)
    ensures Distribution(nodes, Iterate(nodes, out, p, d, x, k))
  {
    if k > 0 {
      var y := Iterate(nodes, out, p, d, x, k - 1);
      IterateConserves(nodes, out, p, d, x, k - 1);
      StepSum(nodes, out, p, d, y);
      StepNonNegative(nodes, out, p, d, y);
    }
  }

  /** Every node starts with its positive seed weight's share of all positive weights, or with an equal
      share if there is no positive weight. */
  lemma PersonalizationAt(nodes: seq<string>, weights: Vector, u: string)
    requires u in nodes
    ensures var positive := (v: string) => if v in weights && weights[v] > 0.0 then weights[v] else 0.0;
            var total := SumOf(nodes, positive);
            && total >= 0.0
            && u in Personalization(nodes, weights)
            && Get(Personalization(nodes, weights), u)
               == if total > 0.0 then positive(u) / total else 1.0 / |nodes| as real
  {
    var positive := (v: string) => if v in weights && weights[v] > 0.0 then weights[v] else 0.0;
    SeedSumOf(nodes, weights, positive);
    var total := SeedSum(nodes, weights);
    if total > 0.0 { TabulateAt(nodes, SeededOf(weights, total), u); }
    else { TabulateAt(nodes, UniformOf(1.0 / |nodes| as real), u); }
  }

  lemma {:induction false} SeedSumOf(nodes: seq<string>, weights: Vector, f: Scores)
    requires forall u :: f(u) == Seed(weights, u)
    ensures SeedSum(nodes, weights) == SumOf(nodes, f)
  {
    if nodes != [] { SeedSumOf(nodes[..|nodes| - 1], weights, f); }
  }

  // ---------- The final ranking ----------

  /** A distribution, once normalised, lies between zero and one and reaches one. */
  lemma NormalisedRange(nodes: seq<string>, x: Vector)
    requires nodes != [] && Distribution(nodes, x)
    ensures forall u :: u in nodes ==> 0.0 <= Get(Normalised(nodes, x), u) <= 1.0
    ensures exists u :: u in nodes && Get(Normalised(nodes, x), u) == 1.0
  {
    var m := MaxOf(nodes, x);
    if m <= 0.0 {
      SumAtMostMax(nodes, x);
      assert false;
    }
    MaxIsReached(nodes, x);
    var top :| top in nodes && Get(x, top) == m;
    forall u | u in nodes
      ensures 0.0 <= Get(Normalised(nodes, x), u) <= 1.0 && (u == top ==> Get(Normalised(nodes, x), u) == 1.0)
    {
      TabulateAt(nodes, QuotientOf(x, m), u);
      QuotientRange(Get(x, u), m);
    }
  }

  /** Whatever the seeds and the edges, with damping between zero and one every node ranks
      between zero and one and some node ranks exactly one. */
  lemma RankingRange(g: Graph, weights: Vector, d: real, iterations: int)
    requires g.nodes != [] && NoDuplicates(g.nodes) && 0.0 <= d <= 1.0
    ensures forall u :: u in g.nodes ==> 0.0 <= Get(Ranking(g, weights, d, iterations), u) <= 1.0
    ensures exists u :: u in g.nodes && Get(Ranking(g, weights, d, iterations), u) == 1.0
  {
    var p := Personalization(g.nodes, weights);
    PersonalizationIsDistribution(g.nodes, weights);
    OutgoingInside(g);
    IterateConserves(g.nodes, Outgoing(g), p, d, p, Rounds(iterations));
    NormalisedRange(g.nodes, Iterate(g.nodes, Outgoing(g), p, d, p, Rounds(iterations)));
  }

  /** Every rank is the node's score divided by the greatest score, that of top. */
  ghost predicate InProportion(nodes: seq<string>, ranks: Vector, scores: Vector, top: string) {
    && top in nodes && Get(scores, top) > 0.0
    && forall u :: u in nodes ==> Get(scores, u) <= Get(scores, top)
                                  && Get(ranks, u) == Get(scores, u) / Get(scores, top)
  }

  /** The ranks are the scores after so many rounds, or after none for a negative number, in
      proportion to the greatest of them. */
  lemma RanksAreProportions(g: Graph, weights: Vector, d: real, iterations: int, rounds: nat)
    returns (top: string)
    requires g.nodes != [] && NoDuplicates(g.nodes) && 0.0 <= d <= 1.0
    requires rounds == iterations || (iterations < 0 && rounds == 0)
    ensures var p := Personalization(g.nodes, weights);
            var scores := Iterate(g.nodes, Outgoing(g), p, d, p, rounds);
            InProportion(g.nodes, Ranking(g, weights, d, iterations), scores, top)
  {
    var p := Personalization(g.nodes, weights);
    PersonalizationIsDistribution(g.nodes, weights);
    OutgoingInside(g);
    IterateConserves(g.nodes, Outgoing(g), p, d, p, rounds);
    var scores := Iterate(g.nodes, Outgoing(g), p, d, p, rounds);
    top := NormalisedProportions(g.nodes, scores);
    assert Ranking(g, weights, d, iterations) == Normalised(g.nodes, scores);
  }

  lemma NormalisedProportions(nodes: seq<string>, x: Vector) returns (top: string)
    requires nodes != [] && Distribution(nodes, x)
    ensures InProportion(nodes, Normalised(nodes, x), x, top)
  {
    var m := MaxOf(nodes, x);
    if m <= 0.0 {
      SumAtMostMax(nodes, x);
      assert false;
    }
    MaxIsReached(nodes, x);
    top :| top in nodes && Get(x, top) == m;
    forall u | u in nodes ensures Get(Normalised(nodes, x), u) == Get(x, u) / m {
      TabulateAt(nodes, QuotientOf(x, m), u);
    }
  }

  // ---------- Contraction ----------

  ghost function Abs(y: real): real { if y < 0.0 then -y else y }

  /** L1 distance over the nodes. */
  ghost function Distance(nodes: seq<string>, x: Vector, y: Vector): real {
    if nodes == [] then 0.0
    else
      var u := nodes[|nodes| - 1];
      Distance(nodes[..|nodes| - 1], x, y) + Abs(Get(x, u) - Get(y, u))
  }

  ghost function GapOf(f: Scores, g: Scores): Scores { (u: string) => Abs(f(u) - g(u)) }

  /** Raising one entry of each vector moves them apart by at most the difference. */
  lemma {:induction false} DistanceUpdate(nodes: seq<string>, x: Vector, y: Vector, t: string, a: real, b: real)
    requires NoDuplicates(nodes)
    ensures Distance(nodes, x[t := Get(x, t) + a], y[t := Get(y, t) + b]) <= Distance(nodes, x, y) + Abs(a - b)
    ensures t !in nodes ==> Distance(nodes, x[t := Get(x, t) + a], y[t := Get(y, t) + b]) == Distance(nodes, x, y)
  {
    if nodes != [] {
      assert nodes == nodes[..|nodes| - 1] + [nodes[|nodes| - 1]];
      DistanceUpdate(nodes[..|nodes| - 1], x, y, t, a, b);
    }
  }

  lemma {:induction false} PushAllDistance(nodes: seq<string>, x: Vector, y: Vector, neighbors: seq<string>, a: real,
                                           b: real)
    requires NoDuplicates(nodes)
    ensures Distance(nodes, PushAll(x, neighbors, a), PushAll(y, neighbors, b))
         <= Distance(nodes, x, y) + Repeat(|neighbors|, Abs(a - b))
  {
    if neighbors != [] {
      var front, t := neighbors[..|neighbors| - 1], neighbors[|neighbors| - 1];
      PushAllDistance(nodes, x, y, front, a, b);
      DistanceUpdate(nodes, PushAll(x, front, a), PushAll(y, front, b), t, a, b);
    }
  }

  lemma {:induction false} SpreadDistance(all: seq<string>, x: Vector, y: Vector, nodes: seq<string>,
                                          out: Adjacency, f: Scores, g: Scores)
    requires NoDuplicates(all)
    ensures Distance(all, Spread(x, nodes, out, f), Spread(y, nodes, out, g))
         <= Distance(all, x, y) + Handed(nodes, out, GapOf(f, g))
  {
    if nodes != [] {
      var front, u := nodes[..|nodes| - 1], nodes[|nodes| - 1];
      SpreadDistance(all, x, y, front, out, f, g);
      SpreadDistanceStep(all, Spread(x, front, out, f), Spread(y, front, out, g), Neighbors(out, u), f, g, u);
    }
  }

  lemma SpreadDistanceStep(all: seq<string>, x: Vector, y: Vector, neighbors: seq<string>, f: Scores, g: Scores,
                           u: string)
    requires NoDuplicates(all)
    ensures Distance(all, PushAll(x, neighbors, f(u)), PushAll(y, neighbors, g(u)))
         <= Distance(all, x, y) + Repeat(|neighbors|, GapOf(f, g)(u))
  {
    PushAllDistance(all, x, y, neighbors, f(u), g(u));
  }

  lemma ScaledMinus(d: real, a: real, b: real)
    ensures Scaled(d, a) - Scaled(d, b) == Scaled(d, a - b)
  {
  }

  lemma ScaledNegated(d: real, y: real)
    ensures Scaled(d, -y) == -Scaled(d, y)
  {
  }

  lemma AbsScaled(d: real, a: real, b: real)
    requires d >= 0.0
    ensures Abs(Scaled(d, a) - Scaled(d, b)) == Scaled(d, Abs(a - b))
  {
    ScaledMinus(d, a, b);
    ScaledNegated(d, a - b);
    ProductNonNegative(d, Abs(a - b));
  }

  lemma QuotientMinus(a: real, b: real, n: real)
    requires n > 0.0
    ensures a / n - b / n == (a - b) / n
  {
  }

  lemma QuotientNegated(y: real, n: real)
    requires n > 0.0
    ensures (-y) / n == -(y / n)
  {
  }

  lemma AbsQuotient(a: real, b: real, n: real)
    requires n > 0.0
    ensures Abs(a / n - b / n) == Abs(a - b) / n
  {
    QuotientMinus(a, b, n);
    QuotientNegated(a - b, n);
    QuotientNonNegative(Abs(a - b), n);
  }

  lemma GapRepeat(a: real, b: real, n: nat, fx: real, fy: real)
    requires n > 0 && fx == a / n as real && fy == b / n as real
    ensures Repeat(n, Abs(fx - fy)) == Abs(a - b)
  {
    AbsQuotient(a, b, n as real);
    RepeatQuotient(Abs(a - b), n, Abs(fx - fy));
  }

  lemma ShareGap(out: Adjacency, f: Scores, g: Scores, u: string)
    ensures Repeat(|Neighbors(out, u)|, GapOf(ShareOf(out, f), ShareOf(out, g))(u))
         == if Neighbors(out, u) == [] then 0.0 else GapOf(f, g)(u)
  {
    if Neighbors(out, u) != [] {
      GapRepeat(f(u), g(u), |Neighbors(out, u)|, ShareOf(out, f)(u), ShareOf(out, g)(u));
    }
  }

  /** Dangling masses differ by at most the gap over the dangling nodes. */
  lemma {:induction false} DanglingGap(nodes: seq<string>, out: Adjacency, f: Scores, g: Scores)
    ensures Abs(DanglingOf(nodes, out, f) - DanglingOf(nodes, out, g)) <= DanglingOf(nodes, out, GapOf(f, g))
  {
    if nodes != [] { DanglingGap(nodes[..|nodes| - 1], out, f, g); }
  }

  lemma {:induction false} TabulateDistance(all: seq<string>, nodes: seq<string>, f: Scores, g: Scores)
    requires forall u :: u in nodes ==> u in all
    ensures Distance(nodes, Tabulate(all, f), Tabulate(all, g)) == SumOf(nodes, GapOf(f, g))
  {
    if nodes != [] {
      var u := nodes[|nodes| - 1];
      assert u in nodes;
      TabulateDistance(all, nodes[..|nodes| - 1], f, g);
      TabulateAt(all, f, u);
      TabulateAt(all, g, u);
    }
  }

  lemma BaseGapArithmetic(t: real, m: real, k: real, y: real, c: real)
    requires y >= 0.0 && c == Abs(m - k)
    ensures Abs((Scaled(t, y) + Scaled(m, y)) - (Scaled(t, y) + Scaled(k, y))) == Scaled(c, y)
  {
    AbsScaled(y, m, k);
  }

  lemma BaseDistance(nodes: seq<string>, p: Vector, t: real, m: real, k: real)
    requires Distribution(nodes, p)
    ensures Distance(nodes, Tabulate(nodes, BaseOf(p, t, m)), Tabulate(nodes, BaseOf(p, t, k))) == Abs(m - k)
  {
    var f, g, c := BaseOf(p, t, m), BaseOf(p, t, k), Abs(m - k);
    TabulateDistance(nodes, nodes, f, g);
    forall u ensures GapOf(f, g)(u) == DampedOf(c, p)(u) {
      assert Get(p, u) >= 0.0;
      BaseGapArithmetic(t, m, k, Get(p, u), c);
    }
    SumOfSame(nodes, GapOf(f, g), DampedOf(c, p));
    SumDamped(nodes, c, p);
  }

  /** For damped scores f and g, one iteration brings them no further apart. */
  lemma SpreadTogether(nodes: seq<string>, out: Adjacency, p: Vector, t: real, f: Scores, g: Scores, m: real, k: real)
    requires NoDuplicates(nodes) && Distribution(nodes, p)
    requires m == DanglingOf(nodes, out, f) && k == DanglingOf(nodes, out, g)
    ensures Distance(nodes, Spread(Tabulate(nodes, BaseOf(p, t, m)), nodes, out, ShareOf(out, f)),
                            Spread(Tabulate(nodes, BaseOf(p, t, k)), nodes, out, ShareOf(out, g)))
         <= SumOf(nodes, GapOf(f, g))
  {
    var b, c := Tabulate(nodes, BaseOf(p, t, m)), Tabulate(nodes, BaseOf(p, t, k));
    SpreadDistance(nodes, b, c, nodes, out, ShareOf(out, f), ShareOf(out, g));
    BaseDistance(nodes, p, t, m, k);
    DanglingGap(nodes, out, f, g);
    forall u ensures Repeat(|Neighbors(out, u)|, GapOf(ShareOf(out, f), ShareOf(out, g))(u))
                  == if Neighbors(out, u) == [] then 0.0 else GapOf(f, g)(u)
    {
      ShareGap(out, f, g, u);
    }
    HandedIsLive(nodes, out, GapOf(ShareOf(out, f), ShareOf(out, g)), GapOf(f, g));
    LiveAndDangling(nodes, out, GapOf(f, g));
  }

  lemma {:induction false} DampedGap(nodes: seq<string>, d: real, x: Vector, y: Vector)
    requires d >= 0.0
    ensures SumOf(nodes, GapOf(DampedOf(d, x), DampedOf(d, y))) == Scaled(d, Distance(nodes, x, y))
  {
    if nodes != [] {
      var front, u := nodes[..|nodes| - 1], nodes[|nodes| - 1];
      var gap := Abs(Get(x, u) - Get(y, u));
      DampedGap(front, d, x, y);
      AbsScaled(d, Get(x, u), Get(y, u));
      Distribute(d, Distance(front, x, y), gap);
    }
  }

  lemma AtMost(d: real, a: real, b: real)
    requires d >= 0.0 && a <= b
    ensures Scaled(d, a) <= Scaled(d, b)
  {
  }

  lemma StepDistance(nodes: seq<string>, out: Adjacency, p: Vector, d: real, x: Vector, y: Vector)
    requires NoDuplicates(nodes) && Distribution(nodes, p)
    ensures Distance(nodes, Step(nodes, out, p, d, x), Step(nodes, out, p, d, y))
         <= SumOf(nodes, GapOf(DampedOf(d, x), DampedOf(d, y)))
  {
    var m, k := DanglingMass(nodes, out, x), DanglingMass(nodes, out, y);
    DanglingDamped(nodes, out, d, x);
    DanglingDamped(nodes, out, d, y);
    SpreadTogether(nodes, out, p, 1.0 - d, DampedOf(d, x), DampedOf(d, y), Scaled(d, m), Scaled(d, k));
  }

  /** One iteration is a contraction in L1: it shrinks the distance of any two vectors by the
      damping factor. */
  lemma StepContracts(nodes: seq<string>, out: Adjacency, p: Vector, d: real, x: Vector, y: Vector)
    requires NoDuplicates(nodes) && 0.0 <= d && Distribution(nodes, p)
    ensures Distance(nodes, Step(nodes, out, p, d, x), Step(nodes, out, p, d, y)) <= Scaled(d, Distance(nodes, x, y))
  {
    StepDistance(nodes, out, p, d, x, y);
    DampedGap(nodes, d, x, y);
  }

  function Power(d: real, k: nat): real { if k == 0 then 1.0 else Scaled(d, Power(d, k - 1)) }

  lemma Compose(d: real, after: real, distance: real, before: real, start: real)
    requires d >= 0.0 && after <= Scaled(d, distance) && distance <= Scaled(before, start)
    ensures after <= Scaled(Scaled(d, before), start)
  {
    AtMost(d, distance, before * start);
    assert d * (before * start) == d * before * start;
  }

  /** k iterations shrink the distance by damping to the k. */
  lemma {:induction false} IterateContracts(nodes: seq<string>, out: Adjacency, p: Vector, d: real, x: Vector,
                                            y: Vector, k: nat)
    requires NoDuplicates(nodes) && 0.0 <= d && Distribution(nodes, p)
    ensures Distance(nodes, Iterate(nodes, out, p, d, x, k), Iterate(nodes, out, p, d, y, k))
         <= Scaled(Power(d, k), Distance(nodes, x, y))
  {
    if k > 0 {
      var a, b := Iterate(nodes, out, p, d, x, k - 1), Iterate(nodes, out, p, d, y, k - 1);
      IterateContracts(nodes, out, p, d, x, y, k - 1);
      StepContracts(nodes, out, p, d, a, b);
      Compose(d, Distance(nodes, Step(nodes, out, p, d, a), Step(nodes, out, p, d, b)), Distance(nodes, a, b),
              Power(d, k - 1), Distance(nodes, x, y));
    }
  }

  lemma {:induction false} DistanceBound(nodes: seq<string>, x: Vector, y: Vector)
    requires NonNegative(x) && NonNegative(y)
    ensures Distance(nodes, x, y) <= Sum(nodes, x) + Sum(nodes, y)
  {
    if nodes != [] {
      var u := nodes[|nodes| - 1];
      DistanceBound(nodes[..|nodes| - 1], x, y);
      assert Get(x, u) >= 0.0 && Get(y, u) >= 0.0;
    }
  }

  lemma {:induction false} PowerNonNegative(d: real, k: nat)
    requires d >= 0.0
    ensures Power(d, k) >= 0.0
  {
    if k > 0 {
      PowerNonNegative(d, k - 1);
      ProductNonNegative(d, Power(d, k - 1));
    }
  }

  lemma AtMostTwice(after: real, power: real, start: real)
    requires after <= Scaled(power, start) && start <= 2.0 && power >= 0.0
    ensures after <= Scaled(2.0, power)
  {
    AtMost(power, start, 2.0);
  }

  /** Where the iteration starts stops mattering: two starting distributions are within
      2 times damping to the k after k iterations. */
  lemma StartsForgotten(nodes: seq<string>, out: Adjacency, p: Vector, d: real, x: Vector, y: Vector, k: nat)
    requires NoDuplicates(nodes) && 0.0 <= d <= 1.0 && Distribution(nodes, p)
    requires Distribution(nodes, x) && Distribution(nodes, y)
    ensures Distance(nodes, Iterate(nodes, out, p, d, x, k), Iterate(nodes, out, p, d, y, k))
         <= Scaled(2.0, Power(d, k))
  {
    DistanceBound(nodes, x, y);
    PowerNonNegative(d, k);
    IterateContracts(nodes, out, p, d, x, y, k);
    AtMostTwice(Distance(nodes, Iterate(nodes, out, p, d, x, k), Iterate(nodes, out, p, d, y, k)),
                Power(d, k), Distance(nodes, x, y));
  }

  // ---------- What one entry receives ----------

  ghost function Count(neighbors: seq<string>, t: string): nat { multiset(neighbors)[t] }

  /** The shares that node t is handed, once for every time it is listed. */
  ghost function Received(nodes: seq<string>, out: Adjacency, share: Scores, t: string): real {
    if nodes == [] then 0.0
    else
      var u := nodes[|nodes| - 1];
      Received(nodes[..|nodes| - 1], out, share, t) + Repeat(Count(Neighbors(out, u), t), share(u))
  }

  lemma {:induction false} PushAllAt(next: Vector, neighbors: seq<string>, share: real, t: string)
    ensures Get(PushAll(next, neighbors, share), t) == Get(next, t) + Repeat(Count(neighbors, t), share)
  {
    if neighbors != [] {
      var front, last := neighbors[..|neighbors| - 1], neighbors[|neighbors| - 1];
      PushAllAt(next, front, share, t);
      assert neighbors == front + [last];
    }
  }

  lemma {:induction false} SpreadAt(next: Vector, nodes: seq<string>, out: Adjacency, share: Scores, t: string)
    ensures Get(Spread(next, nodes, out, share), t) == Get(next, t) + Received(nodes, out, share, t)
  {
    if nodes != [] {
      var front, u := nodes[..|nodes| - 1], nodes[|nodes| - 1];
      SpreadAt(next, front, out, share, t);
      PushAllAt(Spread(next, front, out, share), Neighbors(out, u), share(u), t);
    }
  }

  /** The new score of a node: its teleport, its part of the dangling mass, and one share from
      every edge that points to it. */
  lemma StepAt(nodes: seq<string>, out: Adjacency, p: Vector, d: real, x: Vector, t: string)
    requires t in nodes
    ensures Get(Step(nodes, out, p, d, x), t)
         == Scaled(1.0 - d, Get(p, t)) + Scaled(Scaled(d, DanglingMass(nodes, out, x)), Get(p, t))
            + Received(nodes, out, ShareOf(out, DampedOf(d, x)), t)
  {
    var base := BaseOf(p, 1.0 - d, Scaled(d, DanglingMass(nodes, out, x)));
    TabulateAt(nodes, base, t);
    SpreadAt(Tabulate(nodes, base), nodes, out, ShareOf(out, DampedOf(d, x)), t);
  }

  lemma OneEdgeCounts(nodes: seq<string>, out: Adjacency, e: Edge, u: string, t: string)
    ensures Count(Neighbors(AddEdge(nodes, out, e), u), t)
         == Count(Neighbors(out, u), t) + if u in nodes && t in nodes && e == Edge(u, t) then 1 else 0
  {
  }

  /** t is listed under u once for every edge from u to t, if both are nodes. */
  lemma {:induction false} AdjacencyCounts(nodes: seq<string>, out: Adjacency, edges: seq<Edge>, u: string, t: string)
    requires Neighbors(out, u) == []
    ensures Count(Neighbors(AddEdges(nodes, out, edges), u), t)
         == if u in nodes && t in nodes then multiset(edges)[Edge(u, t)] else 0
  {
    if edges != [] {
      var front, e := edges[..|edges| - 1], edges[|edges| - 1];
      AdjacencyCounts(nodes, out, front, u, t);
      OneEdgeCounts(nodes, AddEdges(nodes, out, front), e, u, t);
      assert edges == front + [e];
    }
  }

  lemma OutgoingCounts(g: Graph, u: string, t: string)
    ensures Count(Neighbors(Outgoing(g), u), t)
         == if u in g.nodes && t in g.nodes then multiset(g.edges)[Edge(u, t)] else 0
  {
    AdjacencyCounts(g.nodes, map v | v in g.nodes :: [], g.edges, u, t);
  }
}
