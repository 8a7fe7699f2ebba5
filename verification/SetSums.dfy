/** Finite sums of reals over sets, which do not depend on the order of summation. */
module SetSums {

  ghost function Sum<T(!new)>(f: T -> real, s: set<T>): real {
    if s == {} then 0.0 else var x :| x in s; f(x) + Sum(f, s - {x})
  }

  /** Any element may be taken first. */
  lemma {:induction false} SumPick<T(!new)>(f: T -> real, s: set<T>, x: T)
    requires x in s
    ensures Sum(f, s) == f(x) + Sum(f, s - {x})
    decreases s
  {
    var y :| y in s && Sum(f, s) == f(y) + Sum(f, s - {y});
    if y != x {
      SumPick(f, s - {y}, x);
      SumPick(f, s - {x}, y);
      assert s - {y} - {x} == s - {x} - {y};
    }
  }

  lemma SumInsert<T(!new)>(f: T -> real, s: set<T>, x: T)
    requires x !in s
    ensures Sum(f, s + {x}) == Sum(f, s) + f(x)
  {
    SumPick(f, s + {x}, x);
    assert s + {x} - {x} == s;
  }

  lemma {:induction false} SumEqual<T(!new)>(f: T -> real, g: T -> real, s: set<T>)
    requires forall x :: x in s ==> f(x) == g(x)
    ensures Sum(f, s) == Sum(g, s)
  {
    if s != {} {
      var x :| x in s;
      SumPick(f, s, x);
      SumPick(g, s, x);
      SumEqual(f, g, s - {x});
    }
  }

  lemma {:induction false} SumAdd<T(!new)>(f: T -> real, g: T -> real, h: T -> real, s: set<T>)
    requires forall x :: x in s ==> h(x) == f(x) + g(x)
    ensures Sum(h, s) == Sum(f, s) + Sum(g, s)
  {
    if s != {} {
      var x :| x in s;
      SumPick(f, s, x);
      SumPick(g, s, x);
      SumPick(h, s, x);
      SumAdd(f, g, h, s - {x});
    }
  }

  ghost predicate Times(c: real, u: real, v: real) { v == c * u }

  lemma Distribute(c: real, u: real, v: real)
    ensures c * (u + v) == c * u + c * v
  {
  }

  lemma TimesAdd(c: real, u: real, v: real, u': real, v': real)
    requires Times(c, u, v) && Times(c, u', v')
    ensures Times(c, u + u', v + v')
  {
  }

  lemma {:induction false} SumScale<T(!new)>(f: T -> real, g: T -> real, c: real, s: set<T>)
    requires forall x :: x in s ==> Times(c, f(x), g(x))
    ensures Times(c, Sum(f, s), Sum(g, s))
  {
    if s == {} {
    } else {
      hide Times;
      var x :| x in s;
      SumPick(f, s, x);
      SumPick(g, s, x);
      SumScale(f, g, c, s - {x});
      TimesAdd(c, f(x), g(x), Sum(f, s - {x}), Sum(g, s - {x}));
    }
  }

  lemma {:induction false} SumAtMost<T(!new)>(f: T -> real, g: T -> real, s: set<T>)
    requires forall x :: x in s ==> f(x) <= g(x)
    ensures Sum(f, s) <= Sum(g, s)
  {
    if s != {} {
      var x :| x in s;
      SumPick(f, s, x);
      SumPick(g, s, x);
      SumAtMost(f, g, s - {x});
    }
  }

  lemma {:induction false} SumNonNegative<T(!new)>(f: T -> real, s: set<T>)
    requires forall x :: x in s ==> 0.0 <= f(x)
    ensures 0.0 <= Sum(f, s)
    ensures Sum(f, s) == 0.0 ==> forall x :: x in s ==> f(x) == 0.0
  {
    if s != {} {
      var x :| x in s;
      SumPick(f, s, x);
      SumNonNegative(f, s - {x});
    }
  }

  lemma {:induction false} SumConstant<T(!new)>(f: T -> real, c: real, s: set<T>)
    requires forall x :: x in s ==> f(x) == c
    ensures Sum(f, s) == c * |s| as real
  {
    if s != {} {
      var x :| x in s;
      SumPick(f, s, x);
      SumConstant(f, c, s - {x});
      var k := |s - {x}|;
      assert |s| == k + 1;
      assert c * (k + 1) as real == c * k as real + c;
    }
  }

  /** Elements where f vanishes may be left out. */
  lemma {:induction false} SumSupport<T(!new)>(f: T -> real, s: set<T>, t: set<T>)
    requires t <= s
    requires forall x :: x in s && x !in t ==> f(x) == 0.0
    ensures Sum(f, s) == Sum(f, t)
    decreases s
  {
    if s == t {
    } else {
      var x :| x in s && x !in t;
      SumPick(f, s, x);
      SumSupport(f, s - {x}, t);
    }
  }

  /** f with its first, or second, argument fixed. */
  ghost function Row<S, T>(f: (S, T) -> real, x: S): T -> real { y => f(x, y) }

  ghost function Column<S, T>(f: (S, T) -> real, y: T): S -> real { x => f(x, y) }

  ghost function RowSums<S, T(!new)>(f: (S, T) -> real, t: set<T>): S -> real { x => Sum(Row(f, x), t) }

  ghost function ColumnSums<S(!new), T>(f: (S, T) -> real, s: set<S>): T -> real { y => Sum(Column(f, y), s) }

  /** A double sum may be taken in either order. */
  lemma {:induction false} SumExchange<S(!new), T(!new)>(f: (S, T) -> real, s: set<S>, t: set<T>)
    ensures Sum(RowSums(f, t), s) == Sum(ColumnSums(f, s), t)
    decreases s
  {
    if s == {} {
      SumConstant(ColumnSums(f, s), 0.0, t);
    } else {
      var x :| x in s;
      SumPick(RowSums(f, t), s, x);
      SumExchange(f, s - {x}, t);
      forall y | y in t ensures ColumnSums(f, s)(y) == ColumnSums(f, s - {x})(y) + Row(f, x)(y) {
        SumPick(Column(f, y), s, x);
      }
      SumAdd(ColumnSums(f, s - {x}), Row(f, x), ColumnSums(f, s), t);
    }
  }
}
