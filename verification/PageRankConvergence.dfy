/** Where the PageRank iteration is heading. */
module PageRankConvergence {
  import opened Basics
  import opened PageRank
  import opened PageRankMass
  import opened PageRankTheorems

  // ---------- The iterates close in ----------

  lemma IterateNext(nodes: seq<string>, out: Adjacency, p: Vector, d: real, x: Vector, k: nat)
    ensures Iterate(nodes, out, p, d, x, k + 1) == Step(nodes, out, p, d, Iterate(nodes, out, p, d, x, k))
  {
  }

  ghost predicate IsRun(step: Vector -> Vector, f: nat -> Vector) { forall n: nat :: f(n + 1) == step(f(n)) }

  /** Two runs of one step function that meet stay together. */
  lemma {:induction false} RunsMeet(step: Vector -> Vector, f: nat -> Vector, g: nat -> Vector, m: nat, k: nat)
    requires IsRun(step, f) && IsRun(step, g) && f(m) == g(0)
    ensures f(m + k) == g(k)
  {
    if k > 0 {
      RunsMeet(step, f, g, m, k - 1);
      var n: nat := m + (k - 1);
      assert f(n + 1) == step(f(n)) && g(k - 1 + 1) == step(g(k - 1));
    }
  }

  /** All iterates, by number. */
  function RunFrom(nodes: seq<string>, out: Adjacency, p: Vector, d: real, x: Vector): nat -> Vector {
    (n: nat) => Iterate(nodes, out, p, d, x, n)
  }

  function StepOf(nodes: seq<string>, out: Adjacency, p: Vector, d: real): Vector -> Vector {
    (x: Vector) => Step(nodes, out, p, d, x)
  }

  lemma RunFromSteps(nodes: seq<string>, out: Adjacency, p: Vector, d: real, x: Vector)
    ensures IsRun(StepOf(nodes, out, p, d), RunFrom(nodes, out, p, d, x))
    ensures RunFrom(nodes, out, p, d, x)(0) == x
  {
    var step, f := StepOf(nodes, out, p, d), RunFrom(nodes, out, p, d, x);
    forall n: nat ensures f(n + 1) == step(f(n)) { IterateNext(nodes, out, p, d, x, n); }
  }

  lemma RunShifts(nodes: seq<string>, out: Adjacency, p: Vector, d: real, x: Vector, y: Vector, m: nat, k: nat)
    requires y == RunFrom(nodes, out, p, d, x)(m)
    ensures RunFrom(nodes, out, p, d, x)(m + k) == RunFrom(nodes, out, p, d, y)(k)
  {
    RunFromSteps(nodes, out, p, d, x);
    RunFromSteps(nodes, out, p, d, y);
    RunsMeet(StepOf(nodes, out, p, d), RunFrom(nodes, out, p, d, x), RunFrom(nodes, out, p, d, y), m, k);
  }

  /** From the k-th on, all iterates are within 2 times damping to the k of the k-th. */
  lemma LaterIteratesClose(nodes: seq<string>, out: Adjacency, p: Vector, d: real, x: Vector, k: nat, m: nat)
    requires NoDuplicates(nodes) && Inside(nodes, out) && 0.0 <= d <= 1.0
    requires Distribution(nodes, p) && Distribution(nodes, x)
    ensures var run := RunFrom(nodes, out, p, d, x);
            Distance(nodes, run(m + k), run(k)) <= Scaled(2.0, Power(d, k))
  {
    var y := RunFrom(nodes, out, p, d, x)(m);
    RunShifts(nodes, out, p, d, x, y, m, k);
    IterateConserves(nodes, out, p, d, x, m);
    StartsForgotten(nodes, out, p, d, y, x, k);
  }

  lemma BernoulliStep(d: real, k: nat, power: real)
    requires 0.0 <= d <= 1.0 && power >= 0.0
    requires power * (1.0 + k as real * (1.0 - d)) <= 1.0
    ensures Scaled(d, power) * (1.0 + (k + 1) as real * (1.0 - d)) <= 1.0
  {
    var e, n := 1.0 - d, k as real;
    assert d * (1.0 + (n + 1.0) * e) == 1.0 + n * e - (n + 1.0) * (e * e);
    assert (n + 1.0) * (e * e) >= 0.0;
    Monotone(power, d * (1.0 + (n + 1.0) * e), 1.0 + n * e);
    assert Scaled(d, power) * (1.0 + (n + 1.0) * e) == power * (d * (1.0 + (n + 1.0) * e));
  }

  lemma Monotone(c: real, a: real, b: real)
    requires c >= 0.0 && a <= b
    ensures c * a <= c * b
  {
  }

  /** Powers of the damping factor fall at least as fast as a harmonic sequence. */
  lemma {:induction false} PowerFalls(d: real, k: nat)
    requires 0.0 <= d <= 1.0
    ensures Power(d, k) * (1.0 + k as real * (1.0 - d)) <= 1.0
  {
    if k > 0 {
      PowerFalls(d, k - 1);
      PowerNonNegative(d, k - 1);
      BernoulliStep(d, k - 1, Power(d, k - 1));
    }
  }

  /** Enough steps for a given accuracy. */
  function StepsFor(d: real, eps: real): nat
    requires d < 1.0 && eps > 0.0
  {
    QuotientNonNegative(2.0, Scaled(1.0 - d, eps));
    (2.0 / Scaled(1.0 - d, eps)).Floor + 1
  }

  lemma EnoughSteps(e: real, eps: real, n: real)
    requires e > 0.0 && eps > 0.0 && n > 2.0 / Scaled(e, eps)
    ensures n * e * eps >= 2.0
  {
    var unit := Scaled(e, eps);
    Monotone(unit, 2.0 / unit, n);
    assert unit * (2.0 / unit) == 2.0;
    assert n * e * eps == unit * n;
  }

  lemma Divides(power: real, n: real, e: real, eps: real)
    requires power >= 0.0 && power * (1.0 + n * e) <= 1.0 && n * e * eps >= 2.0 && e > 0.0 && eps > 0.0 && n >= 0.0
    ensures Scaled(2.0, power) <= eps
  {
    assert n * e >= 0.0;
    Monotone(power, n * e, 1.0 + n * e);
    Monotone(eps, power * (n * e), 1.0);
    Monotone(power, 2.0, n * e * eps);
    assert eps * (power * (n * e)) == power * (n * e * eps);
  }

  lemma PowerGetsSmall(d: real, eps: real, k: nat)
    requires 0.0 <= d < 1.0 && eps > 0.0 && k >= StepsFor(d, eps)
    ensures Scaled(2.0, Power(d, k)) <= eps
  {
    var e, n := 1.0 - d, k as real;
    PowerFalls(d, k);
    PowerNonNegative(d, k);
    EnoughSteps(e, eps, n);
    Divides(Power(d, k), n, e, eps);
  }

  /** The scores settle: for every accuracy there is a number of steps after which no two iterates
      differ by more. */
  lemma IteratesAreCauchy(nodes: seq<string>, out: Adjacency, p: Vector, d: real, x: Vector, eps: real, j: nat, k: nat)
    requires NoDuplicates(nodes) && Inside(nodes, out) && 0.0 <= d < 1.0 && eps > 0.0
    requires Distribution(nodes, p) && Distribution(nodes, x) && StepsFor(d, eps) <= k <= j
    ensures var run := RunFrom(nodes, out, p, d, x); Distance(nodes, run(j), run(k)) <= eps
  {
    LaterIteratesClose(nodes, out, p, d, x, k, j - k);
    PowerGetsSmall(d, eps, k);
  }

  // ---------- The stationary scores ----------

  /** Another step changes no node's score. */
  ghost predicate Stationary(nodes: seq<string>, out: Adjacency, p: Vector, d: real, y: Vector) {
    SameScores(nodes, Step(nodes, out, p, d, y), y)
  }

  ghost predicate SameScores(nodes: seq<string>, x: Vector, y: Vector) {
    forall u :: u in nodes ==> Get(x, u) == Get(y, u)
  }

  lemma {:induction false} DistanceOfSame(nodes: seq<string>, x: Vector, y: Vector, z: Vector)
    requires SameScores(nodes, x, y)
    ensures Distance(nodes, z, x) == Distance(nodes, z, y)
  {
    if nodes != [] {
      var front := nodes[..|nodes| - 1];
      assert forall u :: u in front ==> u in nodes;
      DistanceOfSame(front, x, y, z);
      assert nodes[|nodes| - 1] in nodes;
    }
  }

  lemma {:induction false} DistanceSeparates(nodes: seq<string>, x: Vector, y: Vector)
    ensures Distance(nodes, x, y) >= 0.0
    ensures Distance(nodes, x, y) <= 0.0 ==> SameScores(nodes, x, y)
  {
    if nodes != [] {
      assert nodes == nodes[..|nodes| - 1] + [nodes[|nodes| - 1]];
      DistanceSeparates(nodes[..|nodes| - 1], x, y);
    }
  }

  /** k iterations shrink the distance to stationary scores by damping to the k. */
  lemma {:induction false} DistanceToStationary(nodes: seq<string>, out: Adjacency, p: Vector, d: real, x: Vector,
                                                y: Vector, k: nat)
    requires NoDuplicates(nodes) && 0.0 <= d && Distribution(nodes, p) && Stationary(nodes, out, p, d, y)
    ensures Distance(nodes, Iterate(nodes, out, p, d, x, k), y) <= Scaled(Power(d, k), Distance(nodes, x, y))
  {
    if k > 0 {
      var a := Iterate(nodes, out, p, d, x, k - 1);
      DistanceToStationary(nodes, out, p, d, x, y, k - 1);
      StepContracts(nodes, out, p, d, a, y);
      DistanceOfSame(nodes, Step(nodes, out, p, d, y), y, Step(nodes, out, p, d, a));
      Compose(d, Distance(nodes, Step(nodes, out, p, d, a), y), Distance(nodes, a, y), Power(d, k - 1),
              Distance(nodes, x, y));
    }
  }

  /** After enough steps from anywhere the scores are as near to the stationary ones as one likes. */
  lemma ApproachesStationary(nodes: seq<string>, out: Adjacency, p: Vector, d: real, x: Vector, y: Vector,
                             eps: real, k: nat)
    requires NoDuplicates(nodes) && 0.0 <= d < 1.0 && Distribution(nodes, p) && Stationary(nodes, out, p, d, y)
    requires Distribution(nodes, x) && Distribution(nodes, y) && eps > 0.0 && k >= StepsFor(d, eps)
    ensures Distance(nodes, Iterate(nodes, out, p, d, x, k), y) <= eps
  {
    DistanceToStationary(nodes, out, p, d, x, y, k);
    DistanceBound(nodes, x, y);
    PowerNonNegative(d, k);
    AtMostTwice(Distance(nodes, Iterate(nodes, out, p, d, x, k), y), Power(d, k), Distance(nodes, x, y));
    PowerGetsSmall(d, eps, k);
  }

  lemma NothingLeft(d: real, gap: real)
    requires d < 1.0 && gap <= Scaled(d, gap)
    ensures gap <= 0.0
  {
    assert gap - Scaled(d, gap) == (1.0 - d) * gap;
    assert gap > 0.0 ==> (1.0 - d) * gap > 0.0;
  }

  /** There is at most one vector of stationary scores. */
  lemma StationaryIsUnique(nodes: seq<string>, out: Adjacency, p: Vector, d: real, x: Vector, y: Vector)
    requires NoDuplicates(nodes) && 0.0 <= d < 1.0 && Distribution(nodes, p)
    requires Stationary(nodes, out, p, d, x) && Stationary(nodes, out, p, d, y)
    ensures SameScores(nodes, x, y)
  {
    DistanceToStationary(nodes, out, p, d, x, y, 1);
    OneStep(nodes, out, p, d, x, y);
    NothingLeft(d, Distance(nodes, x, y));
    DistanceSeparates(nodes, x, y);
  }

  lemma OneStep(nodes: seq<string>, out: Adjacency, p: Vector, d: real, x: Vector, y: Vector)
    requires Stationary(nodes, out, p, d, x)
    ensures Distance(nodes, Iterate(nodes, out, p, d, x, 1), y) == Distance(nodes, x, y)
    ensures Power(d, 1) == d
  {
    assert Iterate(nodes, out, p, d, x, 0) == x && Power(d, 0) == 1.0;
    assert Iterate(nodes, out, p, d, x, 1) == Step(nodes, out, p, d, x);
    DistanceSymmetric(nodes, Step(nodes, out, p, d, x), y);
    DistanceSymmetric(nodes, x, y);
    DistanceOfSame(nodes, Step(nodes, out, p, d, x), x, y);
  }

  lemma {:induction false} DistanceSymmetric(nodes: seq<string>, x: Vector, y: Vector)
    ensures Distance(nodes, x, y) == Distance(nodes, y, x)
  {
    if nodes != [] { DistanceSymmetric(nodes[..|nodes| - 1], x, y); }
  }
}
