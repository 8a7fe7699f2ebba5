/** Vectors and stochastic kernels over a finite set of nodes. */
module Markov {
  import opened SetSums

  type Vector = string -> real
  type Kernel = (string, string) -> real

  function Abs(x: real): real { if x < 0.0 then -x else x }

  ghost predicate Stochastic(k: Kernel, nodes: set<string>) {
    && (forall src, dst :: src in nodes && dst in nodes ==> 0.0 <= k(src, dst))
    && (forall src :: src in nodes ==> Sum(Row(k, src), nodes) == 1.0)
  }

  ghost predicate Distribution(x: Vector, nodes: set<string>) {
    (forall id :: id in nodes ==> 0.0 <= x(id)) && Sum(x, nodes) == 1.0
  }

  ghost function Moved(k: Kernel, x: Vector): Kernel { (src, dst) => x(src) * k(src, dst) }

  /** Where the mass x ends up after one move of the kernel. */
  ghost function Push(k: Kernel, nodes: set<string>, x: Vector): Vector { ColumnSums(Moved(k, x), nodes) }

  ghost function Minus(x: Vector, y: Vector): Vector { id => x(id) - y(id) }

  ghost function AbsOf(x: Vector): Vector { id => Abs(x(id)) }

  ghost function L1(x: Vector, y: Vector, nodes: set<string>): real { Sum(AbsOf(Minus(x, y)), nodes) }

  /** A stochastic kernel neither creates nor destroys mass, of either sign. */
  lemma PushKeepsMass(k: Kernel, nodes: set<string>, x: Vector)
    requires Stochastic(k, nodes)
    ensures Sum(Push(k, nodes, x), nodes) == Sum(x, nodes)
  {
    var m := Moved(k, x);
    SumExchange(m, nodes, nodes);
    forall src | src in nodes ensures RowSums(m, nodes)(src) == x(src) {
      SumScale(Row(k, src), Row(m, src), x(src), nodes);
      assert Times(x(src), 1.0, Sum(Row(m, src), nodes));
    }
    SumEqual(RowSums(m, nodes), x, nodes);
  }

  lemma {:induction false} AbsOfSum(f: Vector, s: set<string>)
    ensures Abs(Sum(f, s)) <= Sum(AbsOf(f), s)
  {
    if s != {} {
      var x :| x in s;
      SumPick(f, s, x);
      SumPick(AbsOf(f), s, x);
      AbsOfSum(f, s - {x});
    }
  }

  lemma AbsProduct(x: real, c: real)
    requires 0.0 <= c
    ensures Abs(x * c) == Abs(x) * c
  {
  }

  /** A stochastic kernel never lengthens a vector in the L1 norm. */
  lemma PushShrinks(k: Kernel, nodes: set<string>, x: Vector)
    requires Stochastic(k, nodes)
    ensures Sum(AbsOf(Push(k, nodes, x)), nodes) <= Sum(AbsOf(x), nodes)
  {
    forall dst | dst in nodes ensures AbsOf(Push(k, nodes, x))(dst) <= Push(k, nodes, AbsOf(x))(dst) {
      PushShrinksAt(k, nodes, x, dst);
    }
    hide Push, AbsOf, Sum;
    SumAtMost(AbsOf(Push(k, nodes, x)), Push(k, nodes, AbsOf(x)), nodes);
    PushKeepsMass(k, nodes, AbsOf(x));
  }

  lemma PushShrinksAt(k: Kernel, nodes: set<string>, x: Vector, dst: string)
    requires Stochastic(k, nodes) && dst in nodes
    ensures AbsOf(Push(k, nodes, x))(dst) <= Push(k, nodes, AbsOf(x))(dst)
  {
    var m, a := Column(Moved(k, x), dst), Column(Moved(k, AbsOf(x)), dst);
    forall src | src in nodes ensures AbsOf(m)(src) == a(src) {
      AbsProduct(x(src), k(src, dst));
    }
    AbsOfSum(m, nodes);
    SumEqual(AbsOf(m), a, nodes);
  }

  lemma PushMinus(k: Kernel, nodes: set<string>, x: Vector, y: Vector, dst: string)
    ensures Push(k, nodes, Minus(x, y))(dst) == Push(k, nodes, x)(dst) - Push(k, nodes, y)(dst)
  {
    var f, g, h := Column(Moved(k, x), dst), Column(Moved(k, y), dst), Column(Moved(k, Minus(x, y)), dst);
    forall src | src in nodes ensures f(src) == g(src) + h(src) {
      var u, v, w := x(src), y(src), k(src, dst);
      assert (u - v) * w == u * w - v * w;
    }
    SumAdd(g, h, f, nodes);
  }

  lemma PushNonNegative(k: Kernel, nodes: set<string>, x: Vector, dst: string)
    requires Stochastic(k, nodes) && dst in nodes
    requires forall id :: id in nodes ==> 0.0 <= x(id)
    ensures 0.0 <= Push(k, nodes, x)(dst)
  {
    var f := Column(Moved(k, x), dst);
    forall src | src in nodes ensures 0.0 <= f(src) {
      var u, w := x(src), k(src, dst);
      assert 0.0 <= u * w;
    }
    SumNonNegative(f, nodes);
  }

  /** Two distributions are at most 2 apart. */
  lemma DistributionsWithinTwo(x: Vector, y: Vector, nodes: set<string>)
    requires Distribution(x, nodes) && Distribution(y, nodes)
    ensures 0.0 <= L1(x, y, nodes) <= 2.0
  {
    var h: Vector := id => x(id) + y(id);
    SumAdd(x, y, h, nodes);
    SumAtMost(AbsOf(Minus(x, y)), h, nodes);
    SumNonNegative(AbsOf(Minus(x, y)), nodes);
  }

  lemma L1Zero(x: Vector, y: Vector, nodes: set<string>)
    requires L1(x, y, nodes) <= 0.0
    ensures forall id :: id in nodes ==> x(id) == y(id)
  {
    SumNonNegative(AbsOf(Minus(x, y)), nodes);
    forall id | id in nodes ensures x(id) == y(id) {
      assert AbsOf(Minus(x, y))(id) == 0.0;
    }
  }

  /** Teleport to pv with probability 1 - d, otherwise move by the kernel. */
  ghost function Damped(k: Kernel, pv: Vector, d: real, nodes: set<string>, x: Vector): Vector {
    id => (1.0 - d) * pv(id) + d * Push(k, nodes, x)(id)
  }

  ghost function Scaled(c: real, x: Vector): Vector { id => c * x(id) }

  lemma SumScaled(c: real, x: Vector, nodes: set<string>)
    ensures Sum(Scaled(c, x), nodes) == c * Sum(x, nodes)
  {
    SumScale(x, Scaled(c, x), c, nodes);
  }

  lemma DampedSum(k: Kernel, pv: Vector, d: real, nodes: set<string>, x: Vector)
    requires Stochastic(k, nodes)
    ensures Sum(Damped(k, pv, d, nodes, x), nodes) == (1.0 - d) * Sum(pv, nodes) + d * Sum(x, nodes)
  {
    hide Push, Sum;
    PushKeepsMass(k, nodes, x);
    SumScaled(1.0 - d, pv, nodes);
    SumScaled(d, Push(k, nodes, x), nodes);
    SumAdd(Scaled(1.0 - d, pv), Scaled(d, Push(k, nodes, x)), Damped(k, pv, d, nodes, x), nodes);
  }

  lemma ProductNonNegative(c: real, u: real)
    requires 0.0 <= c && 0.0 <= u
    ensures 0.0 <= c * u
  {
  }

  lemma MixNonNegative(d: real, u: real, v: real)
    requires 0.0 <= d <= 1.0 && 0.0 <= u && 0.0 <= v
    ensures 0.0 <= (1.0 - d) * u + d * v
  {
    ProductNonNegative(1.0 - d, u);
    ProductNonNegative(d, v);
  }

  lemma DampedKeepsDistribution(k: Kernel, pv: Vector, d: real, nodes: set<string>, x: Vector)
    requires Stochastic(k, nodes) && Distribution(pv, nodes) && Distribution(x, nodes) && 0.0 <= d <= 1.0
    ensures Distribution(Damped(k, pv, d, nodes, x), nodes)
  {
    DampedSum(k, pv, d, nodes, x);
    forall id | id in nodes ensures 0.0 <= Damped(k, pv, d, nodes, x)(id) {
      PushNonNegative(k, nodes, x, id);
      MixNonNegative(d, pv(id), Push(k, nodes, x)(id));
    }
  }

  lemma ScaledGap(d: real, base: real, u: real, v: real)
    requires 0.0 <= d
    ensures Abs((base + d * u) - (base + d * v)) == d * Abs(u - v)
  {
    assert (base + d * u) - (base + d * v) == (u - v) * d;
    AbsProduct(u - v, d);
  }

  lemma ScaleAtMost(d: real, u: real, v: real)
    requires 0.0 <= d && u <= v
    ensures d * u <= d * v
  {
  }

  lemma DampedGap(k: Kernel, pv: Vector, d: real, nodes: set<string>, x: Vector, y: Vector, id: string)
    requires 0.0 <= d
    ensures AbsOf(Minus(Damped(k, pv, d, nodes, x), Damped(k, pv, d, nodes, y)))(id)
         == Scaled(d, AbsOf(Push(k, nodes, Minus(x, y))))(id)
  {
    hide Push, Sum;
    PushMinus(k, nodes, x, y, id);
    var base, u, v := (1.0 - d) * pv(id), Push(k, nodes, x)(id), Push(k, nodes, y)(id);
    ScaledGap(d, base, u, v);
    assert Damped(k, pv, d, nodes, x)(id) == base + d * u;
    assert Damped(k, pv, d, nodes, y)(id) == base + d * v;
  }

  lemma DampedL1(k: Kernel, pv: Vector, d: real, nodes: set<string>, x: Vector, y: Vector)
    requires 0.0 <= d
    ensures L1(Damped(k, pv, d, nodes, x), Damped(k, pv, d, nodes, y), nodes)
         == d * Sum(AbsOf(Push(k, nodes, Minus(x, y))), nodes)
  {
    hide Damped, Push, Minus, AbsOf, Scaled;
    var gap := AbsOf(Minus(Damped(k, pv, d, nodes, x), Damped(k, pv, d, nodes, y)));
    var pushed := AbsOf(Push(k, nodes, Minus(x, y)));
    forall id | id in nodes ensures gap(id) == Scaled(d, pushed)(id) {
      DampedGap(k, pv, d, nodes, x, y, id);
    }
    SumEqual(gap, Scaled(d, pushed), nodes);
    SumScaled(d, pushed, nodes);
  }

  /** Any two vectors come closer by the factor d. */
  lemma DampedContracts(k: Kernel, pv: Vector, d: real, nodes: set<string>, x: Vector, y: Vector)
    requires Stochastic(k, nodes) && 0.0 <= d
    ensures L1(Damped(k, pv, d, nodes, x), Damped(k, pv, d, nodes, y), nodes) <= d * L1(x, y, nodes)
  {
    hide Damped, Push, AbsOf, Minus, Stochastic;
    DampedL1(k, pv, d, nodes, x, y);
    PushShrinks(k, nodes, Minus(x, y));
    ShrinkScaled(d, L1(Damped(k, pv, d, nodes, x), Damped(k, pv, d, nodes, y), nodes),
                 Sum(AbsOf(Push(k, nodes, Minus(x, y))), nodes), L1(x, y, nodes));
  }

  lemma ShrinkScaled(d: real, gap: real, pushed: real, bound: real)
    requires 0.0 <= d && gap == d * pushed && pushed <= bound
    ensures gap <= d * bound
  {
    ScaleAtMost(d, pushed, bound);
  }
}
