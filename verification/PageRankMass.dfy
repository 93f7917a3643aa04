/** Power iteration conserves mass: what tabulating, pushing and sharing do to sums, so that scores
    stay a probability distribution; and the range of the final ranking. */
module PageRankMass {
  import opened Basics
  import opened PageRank

  // ---------- Sums over functions ----------

  ghost function SumOf(nodes: seq<string>, f: Scores): real {
    if nodes == [] then 0.0 else SumOf(nodes[..|nodes| - 1], f) + f(nodes[|nodes| - 1])
  }

  ghost function LiveOf(nodes: seq<string>, out: Adjacency, f: Scores): real {
    if nodes == [] then 0.0
    else
      var u := nodes[|nodes| - 1];
      LiveOf(nodes[..|nodes| - 1], out, f) + if Neighbors(out, u) == [] then 0.0 else f(u)
  }

  ghost function DanglingOf(nodes: seq<string>, out: Adjacency, f: Scores): real {
    if nodes == [] then 0.0
    else
      var u := nodes[|nodes| - 1];
      DanglingOf(nodes[..|nodes| - 1], out, f) + if Neighbors(out, u) == [] then f(u) else 0.0
  }

  lemma {:induction false} LiveAndDangling(nodes: seq<string>, out: Adjacency, f: Scores)
    ensures LiveOf(nodes, out, f) + DanglingOf(nodes, out, f) == SumOf(nodes, f)
  {
    if nodes != [] { LiveAndDangling(nodes[..|nodes| - 1], out, f); }
  }

  lemma {:induction false} TabulateAt(nodes: seq<string>, f: Scores, u: string)
    requires u in nodes
    ensures u in Tabulate(nodes, f) && Get(Tabulate(nodes, f), u) == f(u)
  {
    if u != nodes[|nodes| - 1] { TabulateAt(nodes[..|nodes| - 1], f, u); }
  }

  lemma {:induction false} SumTabulate(all: seq<string>, nodes: seq<string>, f: Scores)
    requires forall u :: u in nodes ==> u in all
    ensures Sum(nodes, Tabulate(all, f)) == SumOf(nodes, f)
  {
    if nodes != [] {
      assert nodes[|nodes| - 1] in nodes;
      SumTabulate(all, nodes[..|nodes| - 1], f);
      TabulateAt(all, f, nodes[|nodes| - 1]);
    }
  }

  lemma Distribute(c: real, a: real, b: real)
    ensures Scaled(c, a + b) == Scaled(c, a) + Scaled(c, b)
  {
  }

  lemma {:induction false} SumDamped(nodes: seq<string>, c: real, x: Vector)
    ensures SumOf(nodes, DampedOf(c, x)) == Scaled(c, Sum(nodes, x))
  {
    if nodes != [] {
      SumDamped(nodes[..|nodes| - 1], c, x);
      Distribute(c, Sum(nodes[..|nodes| - 1], x), Get(x, nodes[|nodes| - 1]));
    }
  }

  lemma {:induction false} DanglingDamped(nodes: seq<string>, out: Adjacency, c: real, x: Vector)
    ensures DanglingOf(nodes, out, DampedOf(c, x)) == Scaled(c, DanglingMass(nodes, out, x))
  {
    if nodes != [] {
      var front, u := nodes[..|nodes| - 1], nodes[|nodes| - 1];
      DanglingDamped(front, out, c, x);
      Distribute(c, DanglingMass(front, out, x), Get(x, u));
    }
  }

  lemma {:induction false} SumOfSame(nodes: seq<string>, f: Scores, g: Scores)
    requires forall u :: f(u) == g(u)
    ensures SumOf(nodes, f) == SumOf(nodes, g)
  {
    if nodes != [] { SumOfSame(nodes[..|nodes| - 1], f, g); }
  }

  // ---------- What pushing does to the sum ----------

  /** n copies of y added up. */
  ghost function Repeat(n: nat, y: real): real {
    if n == 0 then 0.0 else Repeat(n - 1, y) + y
  }

  lemma {:induction false} RepeatIsProduct(n: nat, y: real)
    ensures Repeat(n, y) == n as real * y
  {
    if n > 0 {
      RepeatIsProduct(n - 1, y);
      assert n as real == (n - 1) as real + 1.0;
      assert ((n - 1) as real + 1.0) * y == (n - 1) as real * y + y;
    }
  }

  lemma RepeatQuotient(y: real, n: nat, share: real)
    requires n > 0 && share == y / n as real
    ensures Repeat(n, share) == y
  {
    RepeatIsProduct(n, share);
  }

  /** Everything handed out. */
  ghost function Handed(nodes: seq<string>, out: Adjacency, share: Scores): real {
    if nodes == [] then 0.0
    else
      var u := nodes[|nodes| - 1];
      Handed(nodes[..|nodes| - 1], out, share) + Repeat(|Neighbors(out, u)|, share(u))
  }

  lemma {:induction false} SumUpdate(nodes: seq<string>, v: Vector, t: string, y: real)
    requires NoDuplicates(nodes)
    ensures Sum(nodes, v[t := y]) == Sum(nodes, v) + if t in nodes then y - Get(v, t) else 0.0
  {
    if nodes != [] {
      assert nodes == nodes[..|nodes| - 1] + [nodes[|nodes| - 1]];
      SumUpdate(nodes[..|nodes| - 1], v, t, y);
    }
  }

  lemma {:induction false} PushAllSum(nodes: seq<string>, next: Vector, neighbors: seq<string>, share: real)
    requires NoDuplicates(nodes) && forall t :: t in neighbors ==> t in nodes
    ensures Sum(nodes, PushAll(next, neighbors, share)) == Sum(nodes, next) + Repeat(|neighbors|, share)
  {
    if neighbors != [] {
      var front, t := neighbors[..|neighbors| - 1], neighbors[|neighbors| - 1];
      assert t in neighbors;
      PushAllSum(nodes, next, front, share);
      SumUpdate(nodes, PushAll(next, front, share), t, Get(PushAll(next, front, share), t) + share);
    }
  }

  lemma {:induction false} SpreadSum(all: seq<string>, next: Vector, nodes: seq<string>, out: Adjacency, share: Scores)
    requires NoDuplicates(all) && Inside(all, out)
    ensures Sum(all, Spread(next, nodes, out, share)) == Sum(all, next) + Handed(nodes, out, share)
  {
    if nodes != [] {
      var front, u := nodes[..|nodes| - 1], nodes[|nodes| - 1];
      SpreadSum(all, next, front, out, share);
      PushAllSum(all, Spread(next, front, out, share), Neighbors(out, u), share(u));
    }
  }

  lemma {:induction false} HandedIsLive(nodes: seq<string>, out: Adjacency, share: Scores, f: Scores)
    requires forall u :: Repeat(|Neighbors(out, u)|, share(u)) == if Neighbors(out, u) == [] then 0.0 else f(u)
    ensures Handed(nodes, out, share) == LiveOf(nodes, out, f)
  {
    if nodes != [] { HandedIsLive(nodes[..|nodes| - 1], out, share, f); }
  }

  lemma ShareEntry(out: Adjacency, f: Scores, u: string)
    ensures Repeat(|Neighbors(out, u)|, ShareOf(out, f)(u)) == if Neighbors(out, u) == [] then 0.0 else f(u)
  {
    if Neighbors(out, u) != [] { RepeatQuotient(f(u), |Neighbors(out, u)|, ShareOf(out, f)(u)); }
  }

  lemma BaseEntry(t: real, c: real, y: real)
    ensures Scaled(t, y) + Scaled(c, y) == Scaled(t + c, y)
  {
  }

  lemma BaseSum(nodes: seq<string>, p: Vector, t: real, c: real)
    requires Sum(nodes, p) == 1.0
    ensures Sum(nodes, Tabulate(nodes, BaseOf(p, t, c))) == t + c
  {
    SumTabulate(nodes, nodes, BaseOf(p, t, c));
    forall u ensures BaseOf(p, t, c)(u) == DampedOf(t + c, p)(u) { BaseEntry(t, c, Get(p, u)); }
    SumOfSame(nodes, BaseOf(p, t, c), DampedOf(t + c, p));
    SumDamped(nodes, t + c, p);
  }

  /** For damped scores f, an iteration yields the teleported mass plus the mass of f. */
  lemma SpreadTotal(nodes: seq<string>, out: Adjacency, p: Vector, t: real, f: Scores, carried: real)
    requires NoDuplicates(nodes) && Inside(nodes, out) && Sum(nodes, p) == 1.0
    requires carried == DanglingOf(nodes, out, f)
    ensures Sum(nodes, Spread(Tabulate(nodes, BaseOf(p, t, carried)), nodes, out, ShareOf(out, f)))
         == t + SumOf(nodes, f)
  {
    SpreadSum(nodes, Tabulate(nodes, BaseOf(p, t, carried)), nodes, out, ShareOf(out, f));
    BaseSum(nodes, p, t, carried);
    forall u ensures Repeat(|Neighbors(out, u)|, ShareOf(out, f)(u)) == if Neighbors(out, u) == [] then 0.0 else f(u) {
      ShareEntry(out, f, u);
    }
    HandedIsLive(nodes, out, ShareOf(out, f), f);
    LiveAndDangling(nodes, out, f);
  }

  /** One iteration keeps the total mass one. */
  lemma StepSum(nodes: seq<string>, out: Adjacency, p: Vector, d: real, x: Vector)
    requires NoDuplicates(nodes) && Inside(nodes, out)
    requires Sum(nodes, p) == 1.0 && Sum(nodes, x) == 1.0
    ensures Sum(nodes, Step(nodes, out, p, d, x)) == 1.0
  {
    var m := DanglingMass(nodes, out, x);
    DanglingDamped(nodes, out, d, x);
    SumDamped(nodes, d, x);
    SpreadTotal(nodes, out, p, 1.0 - d, DampedOf(d, x), Scaled(d, m));
  }

  // ---------- Conservation ----------

  ghost predicate NonNegative(v: Vector) { forall u :: Get(v, u) >= 0.0 }

  ghost predicate Distribution(nodes: seq<string>, x: Vector) { Sum(nodes, x) == 1.0 && NonNegative(x) }

  lemma {:induction false} TabulateNonNegative(nodes: seq<string>, f: Scores)
    requires forall u :: f(u) >= 0.0
    ensures NonNegative(Tabulate(nodes, f))
  {
    if nodes != [] {
      TabulateNonNegative(nodes[..|nodes| - 1], f);
      forall u ensures Get(Tabulate(nodes, f), u) >= 0.0 { assert Get(Tabulate(nodes[..|nodes| - 1], f), u) >= 0.0; }
    } else {
      forall u ensures Get(Tabulate(nodes, f), u) >= 0.0 { }
    }
  }

  lemma {:induction false} PushAllNonNegative(next: Vector, neighbors: seq<string>, share: real)
    requires share >= 0.0 && NonNegative(next)
    ensures NonNegative(PushAll(next, neighbors, share))
  {
    if neighbors != [] {
      var front := neighbors[..|neighbors| - 1];
      PushAllNonNegative(next, front, share);
      forall u ensures Get(PushAll(next, neighbors, share), u) >= 0.0 {
        assert Get(PushAll(next, front, share), u) >= 0.0;
      }
    }
  }

  lemma {:induction false} SpreadNonNegative(next: Vector, nodes: seq<string>, out: Adjacency, share: Scores)
    requires NonNegative(next) && forall u :: share(u) >= 0.0
    ensures NonNegative(Spread(next, nodes, out, share))
  {
    if nodes != [] {
      var front, u := nodes[..|nodes| - 1], nodes[|nodes| - 1];
      SpreadNonNegative(next, front, out, share);
      PushAllNonNegative(Spread(next, front, out, share), Neighbors(out, u), share(u));
    }
  }

  lemma ShareNonNegative(out: Adjacency, f: Scores, u: string)
    requires f(u) >= 0.0
    ensures ShareOf(out, f)(u) >= 0.0
  {
    if Neighbors(out, u) != [] { QuotientNonNegative(f(u), |Neighbors(out, u)| as real); }
  }

  lemma ProductNonNegative(a: real, b: real)
    requires a >= 0.0 && b >= 0.0
    ensures Scaled(a, b) >= 0.0
  {
  }

  lemma {:induction false} DanglingNonNegative(nodes: seq<string>, out: Adjacency, x: Vector)
    requires NonNegative(x)
    ensures DanglingMass(nodes, out, x) >= 0.0
  {
    if nodes != [] { DanglingNonNegative(nodes[..|nodes| - 1], out, x); }
  }

  lemma BaseNonNegative(p: Vector, t: real, c: real, u: string)
    requires t >= 0.0 && c >= 0.0 && Get(p, u) >= 0.0
    ensures BaseOf(p, t, c)(u) >= 0.0
  {
    ProductNonNegative(t, Get(p, u));
    ProductNonNegative(c, Get(p, u));
  }

  lemma SpreadStaysNonNegative(nodes: seq<string>, out: Adjacency, p: Vector, t: real, c: real, f: Scores)
    requires t >= 0.0 && c >= 0.0 && NonNegative(p) && forall u :: f(u) >= 0.0
    ensures NonNegative(Spread(Tabulate(nodes, BaseOf(p, t, c)), nodes, out, ShareOf(out, f)))
  {
    forall u ensures BaseOf(p, t, c)(u) >= 0.0 { BaseNonNegative(p, t, c, u); }
    TabulateNonNegative(nodes, BaseOf(p, t, c));
    forall u ensures ShareOf(out, f)(u) >= 0.0 { ShareNonNegative(out, f, u); }
    SpreadNonNegative(Tabulate(nodes, BaseOf(p, t, c)), nodes, out, ShareOf(out, f));
  }

  lemma StepNonNegative(nodes: seq<string>, out: Adjacency, p: Vector, d: real, x: Vector)
    requires 0.0 <= d <= 1.0 && NonNegative(p) && NonNegative(x)
    ensures NonNegative(Step(nodes, out, p, d, x))
  {
    var m := DanglingMass(nodes, out, x);
    DanglingNonNegative(nodes, out, x);
    ProductNonNegative(d, m);
    forall u ensures DampedOf(d, x)(u) >= 0.0 { ProductNonNegative(d, Get(x, u)); }
    SpreadStaysNonNegative(nodes, out, p, 1.0 - d, Scaled(d, m), DampedOf(d, x));
  }

  lemma {:induction false} SeededSum(nodes: seq<string>, weights: Vector, total: real)
    requires total > 0.0
    ensures SumOf(nodes, SeededOf(weights, total)) == SeedSum(nodes, weights) / total
  {
    if nodes != [] {
      SeededSum(nodes[..|nodes| - 1], weights, total);
      AddFractions(SeedSum(nodes[..|nodes| - 1], weights), Seed(weights, nodes[|nodes| - 1]), total);
    }
  }

  lemma SeededIsDistribution(nodes: seq<string>, weights: Vector, total: real)
    requires total > 0.0 && total == SeedSum(nodes, weights)
    ensures Distribution(nodes, Tabulate(nodes, SeededOf(weights, total)))
  {
    SumTabulate(nodes, nodes, SeededOf(weights, total));
    SeededSum(nodes, weights, total);
    assert total / total == 1.0;
    forall u ensures SeededOf(weights, total)(u) >= 0.0 { QuotientNonNegative(Seed(weights, u), total); }
    TabulateNonNegative(nodes, SeededOf(weights, total));
  }

  lemma {:induction false} UniformSum(nodes: seq<string>, y: real)
    ensures SumOf(nodes, UniformOf(y)) == Repeat(|nodes|, y)
  {
    if nodes != [] { UniformSum(nodes[..|nodes| - 1], y); }
  }

  lemma UniformIsDistribution(nodes: seq<string>, y: real)
    requires nodes != [] && y == 1.0 / |nodes| as real
    ensures Distribution(nodes, Tabulate(nodes, UniformOf(y)))
  {
    SumTabulate(nodes, nodes, UniformOf(y));
    UniformSum(nodes, y);
    RepeatQuotient(1.0, |nodes|, y);
    QuotientNonNegative(1.0, |nodes| as real);
    TabulateNonNegative(nodes, UniformOf(y));
  }

  lemma {:induction false} MaxIsReached(nodes: seq<string>, x: Vector)
    requires MaxOf(nodes, x) > 0.0
    ensures exists u :: u in nodes && Get(x, u) == MaxOf(nodes, x)
  {
    var front, u := nodes[..|nodes| - 1], nodes[|nodes| - 1];
    assert u in nodes;
    if Get(x, u) <= MaxOf(front, x) {
      MaxIsReached(front, x);
      var v :| v in front && Get(x, v) == MaxOf(front, x);
      assert v in nodes;
    }
  }

  lemma {:induction false} SumAtMostMax(nodes: seq<string>, x: Vector)
    requires MaxOf(nodes, x) <= 0.0
    ensures Sum(nodes, x) <= 0.0
  {
    if nodes != [] { SumAtMostMax(nodes[..|nodes| - 1], x); }
  }

  lemma QuotientRange(y: real, m: real)
    requires 0.0 <= y <= m && m > 0.0
    ensures 0.0 <= y / m <= 1.0
    ensures y == m ==> y / m == 1.0
  {
  }
}
