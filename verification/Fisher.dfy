/** The two-sided Fisher exact test of a 2x2 table, in exact arithmetic. */
module Fisher {
  import opened Binomials
  import opened RangeSums

  datatype Table = Table(a: nat, b: nat, c: nat, d: nat) {
    function Total(): nat { a + b + c + d }
    function Row(): nat { a + b }
    function Column(): nat { a + c }
    function SwapRows(): Table { Table(c, d, a, b) }
    function SwapColumns(): Table { Table(b, a, d, c) }
    function Transpose(): Table { Table(a, c, b, d) }
  }

  function Max(x: int, y: int): int { if x >= y then x else y }

  function Min(x: int, y: int): int { if x <= y then x else y }

  function Lowest(t: Table): int { Max(0, t.Column() - (t.Total() - t.Row())) }

  function Highest(t: Table): int { Min(t.Row(), t.Column()) }

  /** hyp: every math.comb argument is a natural number, and the divisor is not zero. */
  function Hyp(t: Table, k: int): (p: real)
    requires Lowest(t) <= k <= Highest(t)
    ensures p > 0.0
  {
    CombPositive(t.Total(), t.Column());
    CombPositive(t.Row(), k);
    CombPositive(t.Total() - t.Row(), t.Column() - k);
    Positive(Comb(t.Row(), k), Comb(t.Total() - t.Row(), t.Column() - k));
    QuotientPositive(Comb(t.Row(), k) * Comb(t.Total() - t.Row(), t.Column() - k), Comb(t.Total(), t.Column()));
    (Comb(t.Row(), k) * Comb(t.Total() - t.Row(), t.Column() - k)) as real / Comb(t.Total(), t.Column()) as real
  }

  lemma QuotientPositive(x: nat, y: nat)
    requires x > 0 && y > 0
    ensures x as real / y as real > 0.0
  {
  }

  const TOLERANCE := 1.0000001

  /** The probability of k when k is feasible, zero elsewhere. */
  ghost function Probability(t: Table): int -> real {
    k => if Lowest(t) <= k <= Highest(t) then Hyp(t, k) else 0.0
  }

  /** The terms that pass the test's filter against the observed probability. */
  ghost function Extreme(t: Table): int -> real {
    k => if Lowest(t) <= k <= Highest(t) && Hyp(t, k) <= Hyp(t, t.a) * TOLERANCE then Hyp(t, k) else 0.0
  }

  /** The sum inside the test, before it is capped at 1. */
  ghost function TailSum(t: Table): real {
    Sum(Extreme(t), Lowest(t), Highest(t) + 1)
  }

  ghost function PValue(t: Table): real {
    if t.Total() == 0 then 1.0 else if TailSum(t) <= 1.0 then TailSum(t) else 1.0
  }

  lemma QuotientsEqual(x: nat, y: nat, u: nat, v: nat)
    requires y > 0 && v > 0 && x * v == u * y
    ensures x as real / y as real == u as real / v as real
  {
    var p, q := x as real / y as real, u as real / v as real;
    assert p * y as real == x as real && q * v as real == u as real;
    assert (x * v) as real == x as real * v as real && (u * y) as real == u as real * y as real;
    assert (p - q) * (y as real * v as real) == 0.0;
  }

  /** The range is the set of cell values for which all four cells are natural numbers; the observed one is in it. */
  lemma RangeIsFeasible(t: Table, k: int)
    ensures Lowest(t) <= k <= Highest(t) <==>
            0 <= k && 0 <= t.Row() - k && 0 <= t.Column() - k && 0 <= t.Total() - t.Row() - (t.Column() - k)
    ensures Lowest(t) <= t.a <= Highest(t)
  {
  }

  lemma HypSwapRows(t: Table, k: int)
    requires Lowest(t) <= k <= Highest(t)
    ensures Lowest(t.SwapRows()) <= t.Column() - k <= Highest(t.SwapRows())
    ensures Hyp(t.SwapRows(), t.Column() - k) == Hyp(t, k)
  {
    var x, y := Comb(t.Row(), k), Comb(t.Total() - t.Row(), t.Column() - k);
    assert x * y == y * x;
  }

  lemma HypSwapColumns(t: Table, k: int)
    requires Lowest(t) <= k <= Highest(t)
    ensures Lowest(t.SwapColumns()) <= t.Row() - k <= Highest(t.SwapColumns())
    ensures Hyp(t.SwapColumns(), t.Row() - k) == Hyp(t, k)
  {
    CombSymmetric(t.Row(), k);
    CombSymmetric(t.Total() - t.Row(), t.Column() - k);
    CombSymmetric(t.Total(), t.Column());
    assert t.SwapColumns().Column() - (t.Row() - k) == t.Total() - t.Row() - (t.Column() - k);
  }

  lemma HypTranspose(t: Table, k: int)
    requires Lowest(t) <= k <= Highest(t)
    ensures Lowest(t.Transpose()) <= k <= Highest(t.Transpose())
    ensures Hyp(t.Transpose(), k) == Hyp(t, k)
  {
    hide Comb;
    var n, r, c := t.Total(), t.Row(), t.Column();
    CombTranspose(n, r, c, k);
    CombPositive(n, r);
    CombPositive(n, c);
    QuotientsEqual(Comb(c, k) * Comb(n - c, r - k), Comb(n, r), Comb(r, k) * Comb(n - r, c - k), Comb(n, c));
  }

  /** If u's terms are t's reflected in s, and the observed cells match, the tails agree. */
  lemma TailReflected(t: Table, u: Table, s: int)
    requires Lowest(u) == s - Highest(t) && Highest(u) == s - Lowest(t) && u.a == s - t.a
    requires forall k :: Lowest(t) <= k <= Highest(t) ==> Hyp(u, s - k) == Hyp(t, k)
    ensures TailSum(u) == TailSum(t)
  {
    RangeIsFeasible(t, t.a);
    var f, g := Extreme(t), Extreme(u);
    forall k | Lowest(t) <= k < Highest(t) + 1 ensures f(k) == g(s - k) {
      assert Hyp(u, s - k) == Hyp(t, k) && Hyp(u, s - t.a) == Hyp(t, t.a);
    }
    SumReflected(f, g, Lowest(t), Highest(t) + 1, s);
  }

  lemma PValueSwapRows(t: Table)
    ensures PValue(t.SwapRows()) == PValue(t)
  {
    forall k | Lowest(t) <= k <= Highest(t) ensures Hyp(t.SwapRows(), t.Column() - k) == Hyp(t, k) {
      HypSwapRows(t, k);
    }
    TailReflected(t, t.SwapRows(), t.Column());
  }

  lemma PValueSwapColumns(t: Table)
    ensures PValue(t.SwapColumns()) == PValue(t)
  {
    forall k | Lowest(t) <= k <= Highest(t) ensures Hyp(t.SwapColumns(), t.Row() - k) == Hyp(t, k) {
      HypSwapColumns(t, k);
    }
    TailReflected(t, t.SwapColumns(), t.Row());
  }

  lemma PValueTranspose(t: Table)
    ensures PValue(t.Transpose()) == PValue(t)
  {
    RangeIsFeasible(t, t.a);
    var f, g := Extreme(t), Extreme(t.Transpose());
    HypTranspose(t, t.a);
    forall k | Lowest(t) <= k < Highest(t) + 1 ensures f(k) == g(k) {
      HypTranspose(t, k);
    }
    SumEqual(f, g, Lowest(t), Highest(t) + 1);
  }

  /** The hypergeometric weight over the total count of tables, for any k up to the column total. */
  ghost function Share(t: Table): int -> real {
    k => if 0 <= k <= t.Column() then
           CombPositive(t.Total(), t.Column());
           (Comb(t.Row(), k) * Comb(t.Total() - t.Row(), t.Column() - k)) as real / Comb(t.Total(), t.Column()) as real
         else 0.0
  }

  lemma AddQuotients(x: nat, y: nat, d: nat)
    requires d > 0
    ensures x as real / d as real + y as real / d as real == (x + y) as real / d as real
  {
  }

  lemma OneShare(t: Table, k: nat)
    requires k <= t.Column()
    ensures Comb(t.Total(), t.Column()) > 0
    ensures Share(t)(k)
         == (Comb(t.Row(), k) * Comb(t.Total() - t.Row(), t.Column() - k)) as real / Comb(t.Total(), t.Column()) as real
  {
    CombPositive(t.Total(), t.Column());
    hide Comb;
  }

  lemma {:induction false} SharesAreConvolution(t: Table, top: nat)
    requires top <= t.Column()
    ensures Comb(t.Total(), t.Column()) > 0
    ensures Sum(Share(t), 0, top + 1)
         == Convolution(t.Row(), t.Total() - t.Row(), t.Column(), top) as real / Comb(t.Total(), t.Column()) as real
  {
    hide Comb, Share;
    OneShare(t, top);
    SumLast(Share(t), 0, top + 1);
    if top > 0 {
      SharesAreConvolution(t, top - 1);
      AddQuotients(Convolution(t.Row(), t.Total() - t.Row(), t.Column(), top - 1),
                   Comb(t.Row(), top) * Comb(t.Total() - t.Row(), t.Column() - top), Comb(t.Total(), t.Column()));
    }
  }

  lemma InfeasibleShare(t: Table, k: int)
    requires 0 <= k < Lowest(t) || Highest(t) < k <= t.Column()
    ensures Share(t)(k) == 0.0
  {
    CombPositive(t.Row(), k);
    CombPositive(t.Total() - t.Row(), t.Column() - k);
    CombPositive(t.Total(), t.Column());
    ZeroProduct(Comb(t.Row(), k), Comb(t.Total() - t.Row(), t.Column() - k));
  }

  lemma ZeroProduct(x: nat, y: nat)
    requires x == 0 || y == 0
    ensures x * y == 0
  {
  }

  lemma SharesSumToOne(t: Table)
    ensures Sum(Share(t), 0, t.Column() + 1) == 1.0
  {
    SharesAreConvolution(t, t.Column());
    Vandermonde(t.Row(), t.Total() - t.Row(), t.Column());
    QuotientsEqual(Comb(t.Total(), t.Column()), Comb(t.Total(), t.Column()), 1, 1);
  }

  lemma FeasibleShare(t: Table, k: int)
    requires Lowest(t) <= k <= Highest(t)
    ensures Share(t)(k) == Probability(t)(k)
  {
  }

  /** The probabilities over the test's range sum to exactly 1. */
  lemma ProbabilitiesSumToOne(t: Table)
    ensures Sum(Probability(t), Lowest(t), Highest(t) + 1) == 1.0
  {
    RangeIsFeasible(t, t.a);
    var f, g := Probability(t), Share(t);
    forall k | 0 <= k < Lowest(t) || Highest(t) + 1 <= k < t.Column() + 1 ensures g(k) == 0.0 {
      InfeasibleShare(t, k);
    }
    SumTrim(g, 0, Lowest(t), Highest(t) + 1, t.Column() + 1);
    forall k | Lowest(t) <= k < Highest(t) + 1 ensures f(k) == g(k) {
      FeasibleShare(t, k);
    }
    SumEqual(f, g, Lowest(t), Highest(t) + 1);
    SharesSumToOne(t);
  }

  lemma ExtremeAtMost(t: Table, k: int)
    requires Lowest(t) <= k <= Highest(t)
    ensures 0.0 <= Extreme(t)(k) <= Probability(t)(k)
  {
    hide Comb;
  }

  lemma ObservedIsExtreme(t: Table)
    requires Lowest(t) <= t.a <= Highest(t)
    ensures Extreme(t)(t.a) == Hyp(t, t.a)
  {
    hide Comb;
    var p := Hyp(t, t.a);
    assert p <= p * TOLERANCE;
  }

  lemma TailBounds(t: Table)
    requires Lowest(t) <= t.a <= Highest(t)
    ensures Hyp(t, t.a) <= TailSum(t) <= 1.0
  {
    var f, g := Extreme(t), Probability(t);
    hide Comb, Sum, Extreme, Probability, Hyp, Lowest, Highest;
    ProbabilitiesSumToOne(t);
    ObservedIsExtreme(t);
    forall k | Lowest(t) <= k < Highest(t) + 1 ensures 0.0 <= f(k) <= g(k) {
      ExtremeAtMost(t, k);
    }
    SumAtMost(f, g, Lowest(t), Highest(t) + 1);
    SumHasTerm(f, Lowest(t), Highest(t) + 1, t.a);
  }

  /** The capped value is the sum itself: it lies between the observed probability and 1. */
  lemma PValueBounds(t: Table)
    ensures Lowest(t) <= t.a <= Highest(t)
    ensures Hyp(t, t.a) <= PValue(t) <= 1.0
    ensures PValue(t) == TailSum(t)
  {
    RangeIsFeasible(t, t.a);
    TailBounds(t);
    if t.Total() == 0 {
      EmptyTable(t);
    }
    hide TailSum, Hyp, Lowest, Highest;
  }

  lemma EmptyTable(t: Table)
    requires t.Total() == 0
    ensures Lowest(t) == t.a == Highest(t) == 0 && Hyp(t, 0) == 1.0
  {
    assert Lowest(t) == t.a == Highest(t) == 0;
    ProbabilitiesSumToOne(t);
    hide Comb, Hyp;
    assert Sum(Probability(t), 0, 1) == Probability(t)(0) + Sum(Probability(t), 1, 1);
  }

  // ---------------------------------------------------------------- the test in terms of the table

  /** With k in the first cell and these margins all four cells are natural numbers. */
  predicate Feasible(t: Table, k: int) {
    0 <= k <= t.a + t.b && k <= t.a + t.c && t.a + t.c - k <= t.c + t.d
  }

  lemma FeasibleIsInRange(t: Table, k: int)
    ensures Feasible(t, k) <==> Lowest(t) <= k <= Highest(t)
    ensures Feasible(t, t.a)
  {
    RangeIsFeasible(t, k);
  }

  lemma Rearranged(p: nat, q: nat, u: nat, v: nat, e: nat, x: nat, y: nat, z: nat)
    requires p * u == x && q * v == y && p * q * e == z
    ensures z * (u * v) == x * y * e
  {
    assert z * (u * v) == (p * u) * (q * v) * e by {
      ByFours(p, q, e, u, v);
    }
  }

  lemma ByFours(p: nat, q: nat, e: nat, u: nat, v: nat)
    ensures p * q * e * (u * v) == (p * u) * (q * v) * e
  {
    var a, b := p * u, q * v;
    assert p * q * (u * v) == a * b by {
      assert p * q * (u * v) == p * (q * (u * v)) == p * (u * (q * v));
    }
    assert p * q * e * (u * v) == p * q * (u * v) * e;
  }

  lemma ScaledQuotient(x: nat, y: nat, f: nat, n: nat, g: nat, m: nat)
    requires y > 0 && y * f == n && x * f * g == m
    ensures (x as real / y as real) * (n * g) as real == m as real
  {
    var r := x as real / y as real;
    assert r * y as real == x as real;
    assert (n * g) as real == (y * f * g) as real == y as real * (f * g) as real;
    assert r * (y as real * (f * g) as real) == x as real * (f * g) as real;
    assert x as real * (f * g) as real == (x * (f * g)) as real;
    assert x * (f * g) == x * f * g;
  }

  /** x! y! */
  ghost function Factorials(x: nat, y: nat): nat { Factorial(x) * Factorial(y) }

  /** p n! uv = xy. */
  ghost predicate InRatio(p: real, n: nat, u: nat, v: nat, x: nat, y: nat) {
    p * (Factorial(n) * (u * v)) as real == (x * y) as real
  }

  lemma HypScaled(p: nat, q: nat, y: nat, u: nat, v: nat, e: nat, x: nat, n: nat)
    requires y > 0 && p * q * (u * v) == x && y * e == Factorial(n)
    ensures InRatio((p * q) as real / y as real, n, u, v, x, e)
  {
    ByFactor(p * q, u * v, e, x);
    ScaledQuotient(p * q, y, e, Factorial(n), u * v, x * e);
  }

  lemma ByFactor(a: nat, b: nat, e: nat, x: nat)
    requires a * b == x
    ensures a * e * b == x * e
  {
  }

  lemma TwoCombs(r: nat, k: nat, s: nat, j: nat)
    requires k <= r && j <= s
    ensures Comb(r, k) * Comb(s, j) * (Factorials(k, r - k) * Factorials(j, s - j)) == Factorials(r, s)
  {
    CombFactorial(r, k);
    CombFactorial(s, j);
    hide Comb, Factorial;
    Rearranged(Comb(r, k), Comb(s, j), Factorials(k, r - k), Factorials(j, s - j), 1, Factorial(r), Factorial(s),
               Comb(r, k) * Comb(s, j));
  }

  /**
   * The hypergeometric probability, by the factorials of margins and cells: times the factorials of the total and of
   * the four cells it is the product of those of the four margins.
   */
  lemma HypMeans(t: Table, k: int)
    requires Feasible(t, k)
    ensures var r, s, c, n := t.a + t.b, t.c + t.d, t.a + t.c, t.a + t.b + t.c + t.d;
            InRatio(Term(t, k), n, Factorials(k, r - k), Factorials(c - k, s - (c - k)),
                    Factorials(r, s), Factorials(c, n - c))
  {
    var r, s, c, n := t.a + t.b, t.c + t.d, t.a + t.c, t.a + t.b + t.c + t.d;
    TermValue(t, k);
    OneComb(n, c);
    hide *;
    TwoCombs(r, k, s, c - k);
    HypScaled(Comb(r, k), Comb(s, c - k), Comb(n, c), Factorials(k, r - k), Factorials(c - k, s - (c - k)),
              Factorials(c, n - c), Factorials(r, s), n);
  }

  lemma OneComb(n: nat, c: nat)
    requires c <= n
    ensures Comb(n, c) * Factorials(c, n - c) == Factorial(n)
  {
    CombFactorial(n, c);
    hide Comb, Factorial;
  }

  lemma TermValue(t: Table, k: int)
    requires Feasible(t, k)
    ensures var r, s, c, n := t.a + t.b, t.c + t.d, t.a + t.c, t.a + t.b + t.c + t.d;
            && 0 <= k <= r && k <= c <= n && c - k <= s && Comb(n, c) > 0
            && Term(t, k) == (Comb(r, k) * Comb(s, c - k)) as real / Comb(n, c) as real
  {
    FeasibleIsInRange(t, k);
    CombPositive(t.Total(), t.Column());
    hide Comb;
  }

  /** The tables that beat the observed one by more than the tolerance. */
  ghost function Likelier(t: Table): int -> real {
    k => if Feasible(t, k) && Feasible(t, t.a) && Beats(t, k) then Term(t, k) else 0.0
  }

  ghost function Term(t: Table, k: int): real
    requires Feasible(t, k)
  {
    FeasibleIsInRange(t, k);
    Hyp(t, k)
  }

  ghost predicate Beats(t: Table, k: int)
    requires Feasible(t, k) && Feasible(t, t.a)
  {
    Term(t, k) > Term(t, t.a) * 1.0000001
  }

  /** The p-value is what the tables that beat the observed one leave of the whole probability. */
  lemma PValueMeans(t: Table)
    ensures PValue(t) == 1.0 - Sum(Likelier(t), 0, t.a + t.c + 1)
  {
    PValueBounds(t);
    ProbabilitiesSumToOne(t);
    FeasibleIsInRange(t, t.a);
    var f, g, h := Extreme(t), Likelier(t), Probability(t);
    forall k | Lowest(t) <= k < Highest(t) + 1 ensures h(k) == f(k) + g(k) {
      FeasibleIsInRange(t, k);
    }
    SumAdd(f, g, h, Lowest(t), Highest(t) + 1);
    forall k | 0 <= k < Lowest(t) || Highest(t) + 1 <= k < t.a + t.c + 1 ensures g(k) == 0.0 {
      FeasibleIsInRange(t, k);
    }
    hide Hyp, Sum, Likelier, Extreme, Probability;
    SumTrim(g, 0, Lowest(t), Highest(t) + 1, t.a + t.c + 1);
  }

  lemma LikelierTerm(t: Table, k: int)
    ensures Likelier(t)(k) >= 0.0 && Feasible(t, t.a)
    ensures Likelier(t)(k) > 0.0 <==> Feasible(t, k) && Beats(t, k)
  {
    FeasibleIsInRange(t, k);
    hide Comb;
  }

  /** The test reports 1 exactly when no table with these margins beats the observed one by more than the tolerance. */
  lemma PValueIsOne(t: Table)
    ensures Feasible(t, t.a)
    ensures PValue(t) == 1.0 <==> forall k :: Feasible(t, k) ==> !Beats(t, k)
  {
    PValueMeans(t);
    FeasibleIsInRange(t, t.a);
    var g := Likelier(t);
    forall k ensures g(k) >= 0.0 && (g(k) > 0.0 <==> Feasible(t, k) && Beats(t, k)) {
      LikelierTerm(t, k);
    }
    hide PValue, Beats, Likelier, Sum;
    forall k | Feasible(t, k) ensures g(k) <= Sum(g, 0, t.a + t.c + 1) {
      SumHasTerm(g, 0, t.a + t.c + 1, k);
    }
    if forall k :: Feasible(t, k) ==> !Beats(t, k) {
      NothingAdds(g, 0, t.a + t.c + 1);
    }
  }

  lemma {:induction false} NothingAdds(f: int -> real, lo: int, hi: int)
    requires forall k :: lo <= k < hi ==> f(k) == 0.0
    ensures Sum(f, lo, hi) == 0.0
    decreases hi - lo
  {
    if lo < hi {
      NothingAdds(f, lo + 1, hi);
    }
  }
}
