/** Personalised PageRank over the def/ref file graph, with reals for floats. */
module PageRank {
  import opened SetSums
  import opened Markov

  type Weights = map<string, real>
  type Graph = map<string, Weights>

  /** A Go map read: a missing key reads as zero. */
  function At(m: Weights, k: string): real { if k in m then m[k] else 0.0 }

  ghost function Entries(m: Weights): Vector { k => At(m, k) }

  /** What the edge builders promise: positive weights, and destinations that are nodes. Sources may be anything. */
  ghost predicate WellFormed(g: Graph, nodes: set<string>) {
    forall src :: src in g ==> GoodRow(g[src], nodes)
  }

  ghost predicate GoodRow(row: Weights, nodes: set<string>) {
    forall dst :: dst in row ==> dst in nodes && 0.0 < row[dst]
  }

  ghost predicate NonNegative(m: Weights) { forall k :: k in m ==> 0.0 <= m[k] }

  // ---------------------------------------------------------------- specification

  ghost function OutWeight(g: Graph, src: string): real {
    if src in g then Sum(Entries(g[src]), g[src].Keys) else 0.0
  }

  ghost function Teleport(nodes: set<string>, personal: Weights): Vector {
    id => var total := Sum(Entries(personal), nodes);
      if total > 0.0 then At(personal, id) / total
      else if |nodes| == 0 then 0.0 else 1.0 / |nodes| as real
  }

  /** The random surfer: follow an outgoing edge in proportion to its weight, or teleport from a dangling file. */
  ghost function Surfer(g: Graph, pv: Vector): Kernel {
    (src, dst) => if OutWeight(g, src) == 0.0 then pv(dst)
      else (if src in g then At(g[src], dst) / OutWeight(g, src) else 0.0)
  }

  /** One iteration, as a random surfer who teleports with probability 1 - damping. */
  ghost function Step(nodes: set<string>, g: Graph, pv: Vector, damping: real, x: Vector): Vector {
    Damped(Surfer(g, pv), pv, damping, nodes, x)
  }

  ghost function Uniform(nodes: set<string>): Vector { id => if |nodes| == 0 then 0.0 else 1.0 / |nodes| as real }

  ghost function Iterate(nodes: set<string>, g: Graph, pv: Vector, damping: real, k: nat): Vector {
    if k == 0 then Uniform(nodes) else Step(nodes, g, pv, damping, Iterate(nodes, g, pv, damping, k - 1))
  }

  ghost predicate Stationary(nodes: set<string>, g: Graph, pv: Vector, damping: real, x: Vector) {
    Distribution(x, nodes) && forall id :: id in nodes ==> Step(nodes, g, pv, damping, x)(id) == x(id)
  }

  ghost function Power(d: real, k: nat): real { if k == 0 then 1.0 else d * Power(d, k - 1) }

  // ---------------------------------------------------------------- the kernel is stochastic

  lemma DivideSum(f: Vector, g: Vector, s: set<string>)
    requires Sum(f, s) > 0.0
    requires forall id :: id in s ==> g(id) == f(id) / Sum(f, s)
    ensures Sum(g, s) == 1.0
  {
    var c := 1.0 / Sum(f, s);
    forall id | id in s ensures g(id) == c * f(id) {
      var u, t := f(id), Sum(f, s);
      assert u / t == (1.0 / t) * u;
    }
    SumScale(f, g, c, s);
  }

  lemma UniformIsDistribution(nodes: set<string>)
    requires nodes != {}
    ensures Distribution(Uniform(nodes), nodes)
  {
    var n := |nodes| as real;
    SumConstant(Uniform(nodes), 1.0 / n, nodes);
    assert (1.0 / n) * n == 1.0;
  }

  lemma TeleportIsDistribution(nodes: set<string>, personal: Weights)
    requires nodes != {} && NonNegative(personal)
    ensures Distribution(Teleport(nodes, personal), nodes)
  {
    var total := Sum(Entries(personal), nodes);
    if total > 0.0 {
      DivideSum(Entries(personal), Teleport(nodes, personal), nodes);
    } else {
      UniformIsDistribution(nodes);
      SumEqual(Uniform(nodes), Teleport(nodes, personal), nodes);
    }
  }

  lemma OutWeightNonNegative(g: Graph, nodes: set<string>, src: string)
    requires WellFormed(g, nodes)
    ensures 0.0 <= OutWeight(g, src)
  {
    if src in g {
      forall dst | dst in g[src].Keys ensures 0.0 <= Entries(g[src])(dst) {
        assert 0.0 < g[src][dst];
      }
      SumNonNegative(Entries(g[src]), g[src].Keys);
    }
  }

  lemma SurferIsStochastic(nodes: set<string>, g: Graph, pv: Vector)
    requires WellFormed(g, nodes) && Distribution(pv, nodes)
    ensures Stochastic(Surfer(g, pv), nodes)
  {
    hide Surfer, Row, Sum, WellFormed;
    forall src | src in nodes ensures Sum(Row(Surfer(g, pv), src), nodes) == 1.0 {
      SurferRow(nodes, g, pv, src);
    }
    forall src, dst | src in nodes && dst in nodes ensures 0.0 <= Surfer(g, pv)(src, dst) {
      SurferNonNegative(nodes, g, pv, src, dst);
    }
  }

  lemma SurferNonNegative(nodes: set<string>, g: Graph, pv: Vector, src: string, dst: string)
    requires WellFormed(g, nodes) && 0.0 <= pv(dst)
    ensures 0.0 <= Surfer(g, pv)(src, dst)
  {
    OutWeightNonNegative(g, nodes, src);
  }

  lemma SurferRow(nodes: set<string>, g: Graph, pv: Vector, src: string)
    requires WellFormed(g, nodes) && Distribution(pv, nodes)
    ensures Sum(Row(Surfer(g, pv), src), nodes) == 1.0
  {
    var row := Row(Surfer(g, pv), src);
    if OutWeight(g, src) == 0.0 {
      SumEqual(row, pv, nodes);
    } else {
      var f := Entries(g[src]);
      OutWeightNonNegative(g, nodes, src);
      SumSupport(f, nodes, g[src].Keys);
      DivideSum(f, row, nodes);
    }
  }

  // ---------------------------------------------------------------- mass and convergence

  /** Every iteration keeps the ranks a probability distribution over the node list. */
  lemma StepKeepsDistribution(nodes: set<string>, g: Graph, pv: Vector, damping: real, x: Vector)
    requires WellFormed(g, nodes) && Distribution(pv, nodes) && Distribution(x, nodes)
    requires 0.0 <= damping <= 1.0
    ensures Distribution(Step(nodes, g, pv, damping, x), nodes)
  {
    SurferIsStochastic(nodes, g, pv);
    DampedKeepsDistribution(Surfer(g, pv), pv, damping, nodes, x);
  }

  lemma {:induction false} IterateIsDistribution(nodes: set<string>, g: Graph, pv: Vector, damping: real, k: nat)
    requires nodes != {} && WellFormed(g, nodes) && Distribution(pv, nodes) && 0.0 <= damping <= 1.0
    ensures Distribution(Iterate(nodes, g, pv, damping, k), nodes)
  {
    UniformIsDistribution(nodes);
    if k > 0 {
      IterateIsDistribution(nodes, g, pv, damping, k - 1);
      StepKeepsDistribution(nodes, g, pv, damping, Iterate(nodes, g, pv, damping, k - 1));
    }
  }

  /** One iteration brings any two rank vectors closer by the damping factor. */
  lemma StepContracts(nodes: set<string>, g: Graph, pv: Vector, damping: real, x: Vector, y: Vector)
    requires WellFormed(g, nodes) && Distribution(pv, nodes) && 0.0 <= damping <= 1.0
    ensures L1(Step(nodes, g, pv, damping, x), Step(nodes, g, pv, damping, y), nodes) <= damping * L1(x, y, nodes)
  {
    SurferIsStochastic(nodes, g, pv);
    DampedContracts(Surfer(g, pv), pv, damping, nodes, x, y);
  }

  lemma NextBound(damping: real, next: real, gap: real, p: real)
    requires 0.0 <= damping && gap <= 2.0 * p && next <= damping * gap
    ensures next <= 2.0 * (damping * p)
  {
    ScaleAtMost(damping, gap, 2.0 * p);
  }

  /** Iterates started j steps apart are within 2 * damping^k of each other after k more steps. */
  lemma {:induction false} IteratesConverge(nodes: set<string>, g: Graph, pv: Vector, damping: real, j: nat, k: nat)
    requires nodes != {} && WellFormed(g, nodes) && Distribution(pv, nodes) && 0.0 <= damping <= 1.0
    ensures L1(Iterate(nodes, g, pv, damping, j + k), Iterate(nodes, g, pv, damping, k), nodes)
            <= 2.0 * Power(damping, k)
  {
    hide Step, L1, WellFormed, Distribution, Uniform;
    var x, y := Iterate(nodes, g, pv, damping, j + k), Iterate(nodes, g, pv, damping, k);
    if k == 0 {
      IterateIsDistribution(nodes, g, pv, damping, j);
      UniformIsDistribution(nodes);
      DistributionsWithinTwo(x, y, nodes);
    } else {
      var x', y' := Iterate(nodes, g, pv, damping, j + k - 1), Iterate(nodes, g, pv, damping, k - 1);
      assert j + (k - 1) == j + k - 1;
      IteratesConverge(nodes, g, pv, damping, j, k - 1);
      StepContracts(nodes, g, pv, damping, x', y');
      NextBound(damping, L1(x, y, nodes), L1(x', y', nodes), Power(damping, k - 1));
    }
  }

  /** After k iterations the ranks are within 2 * damping^k of every stationary distribution. */
  lemma {:induction false} IterateNearStationary(nodes: set<string>, g: Graph, pv: Vector, damping: real, pi: Vector,
          k: nat)
    requires nodes != {} && WellFormed(g, nodes) && Distribution(pv, nodes) && 0.0 <= damping <= 1.0
    requires Stationary(nodes, g, pv, damping, pi)
    ensures L1(Iterate(nodes, g, pv, damping, k), pi, nodes) <= 2.0 * Power(damping, k)
  {
    hide Step, L1, WellFormed, Distribution, Uniform;
    UniformIsDistribution(nodes);
    if k == 0 {
      assert Distribution(pi, nodes);
      DistributionsWithinTwo(Uniform(nodes), pi, nodes);
    } else {
      var y := Iterate(nodes, g, pv, damping, k - 1);
      IterateNearStationary(nodes, g, pv, damping, pi, k - 1);
      StepContracts(nodes, g, pv, damping, y, pi);
      StationaryStays(nodes, g, pv, damping, pi, y);
      NextBound(damping, L1(Iterate(nodes, g, pv, damping, k), pi, nodes), L1(y, pi, nodes), Power(damping, k - 1));
    }
  }

  lemma StationaryStays(nodes: set<string>, g: Graph, pv: Vector, damping: real, pi: Vector, y: Vector)
    requires Stationary(nodes, g, pv, damping, pi)
    ensures L1(Step(nodes, g, pv, damping, y), Step(nodes, g, pv, damping, pi), nodes)
            == L1(Step(nodes, g, pv, damping, y), pi, nodes)
  {
    var z := Step(nodes, g, pv, damping, y);
    L1Agrees(z, Step(nodes, g, pv, damping, pi), pi, nodes);
  }

  lemma L1Agrees(z: Vector, x: Vector, y: Vector, nodes: set<string>)
    requires forall id :: id in nodes ==> x(id) == y(id)
    ensures L1(z, x, nodes) == L1(z, y, nodes) && L1(x, z, nodes) == L1(y, z, nodes)
  {
    SumEqual(AbsOf(Minus(z, x)), AbsOf(Minus(z, y)), nodes);
    SumEqual(AbsOf(Minus(x, z)), AbsOf(Minus(y, z)), nodes);
  }

  lemma ShrinksToZero(damping: real, gap: real, next: real)
    requires damping < 1.0 && next <= damping * gap && next == gap
    ensures gap <= 0.0
  {
    if gap > 0.0 {
      var slack := 1.0 - damping;
      assert slack * gap == gap - damping * gap;
      assert slack * gap > 0.0;
    }
  }

  /** Below damping 1 there is at most one stationary distribution, so the limit does not depend on where one starts. */
  lemma StationaryIsUnique(nodes: set<string>, g: Graph, pv: Vector, damping: real, x: Vector, y: Vector)
    requires WellFormed(g, nodes) && Distribution(pv, nodes) && 0.0 <= damping < 1.0
    requires Stationary(nodes, g, pv, damping, x) && Stationary(nodes, g, pv, damping, y)
    ensures forall id :: id in nodes ==> x(id) == y(id)
  {
    hide Step, L1, WellFormed, Distribution;
    StepContracts(nodes, g, pv, damping, x, y);
    StationaryStays(nodes, g, pv, damping, y, x);
    L1Agrees(y, Step(nodes, g, pv, damping, x), x, nodes);
    ShrinksToZero(damping, L1(x, y, nodes), L1(Step(nodes, g, pv, damping, x), Step(nodes, g, pv, damping, y), nodes));
    L1Zero(x, y, nodes);
  }
}
