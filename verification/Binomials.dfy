/** Binomial coefficients as math.comb computes them, and the identities the Fisher test rests on. */
module Binomials {

  /** math.comb on its legal arguments: 0 when k exceeds n. */
  function Comb(n: nat, k: nat): nat {
    if k == 0 then 1 else if n == 0 then 0 else Comb(n - 1, k - 1) + Comb(n - 1, k)
  }

  function Factorial(n: nat): (f: nat)
    ensures f > 0
  {
    if n == 0 then 1 else n * Factorial(n - 1)
  }

  lemma CombPositive(n: nat, k: nat)
    ensures Comb(n, k) > 0 <==> k <= n
  {
  }

  lemma {:induction false} CombFull(n: nat)
    ensures Comb(n, n) == 1
  {
    if n > 0 {
      CombFull(n - 1);
      CombPositive(n - 1, n);
    }
  }

  /** Products of naturals regrouped; stated once so that each induction step is linear. */
  lemma SplitFactor(x: nat, y: nat, k: nat, j: nat, p: nat, q: nat, f: nat)
    requires x * (p * (j * q)) == f && y * ((k * p) * q) == f
    ensures (x + y) * ((k * p) * (j * q)) == (k + j) * f
  {
    var u := p * (j * q);
    var v := (k * p) * q;
    RegroupOuter(k, p, j * q);
    assert (k * p) * (j * q) == k * u;
    RegroupMiddle(k * p, j, q);
    assert (k * p) * (j * q) == j * v;
    RegroupMiddle(x, k, u);
    RegroupMiddle(y, j, v);
    Distribute(x, y, (k * p) * (j * q));
    Distribute(k, j, f);
  }

  lemma RegroupOuter(a: nat, b: nat, c: nat)
    ensures (a * b) * c == a * (b * c)
  {
  }

  lemma RegroupMiddle(a: nat, b: nat, c: nat)
    ensures a * (b * c) == b * (a * c)
  {
  }

  lemma Distribute(a: nat, b: nat, c: nat)
    ensures (a + b) * c == a * c + b * c
  {
  }

  lemma {:induction false} CombFactorial(n: nat, k: nat)
    requires k <= n
    ensures Comb(n, k) * (Factorial(k) * Factorial(n - k)) == Factorial(n)
  {
    if k == 0 {
    } else if k == n {
      CombFull(n);
    } else {
      CombFactorial(n - 1, k - 1);
      CombFactorial(n - 1, k);
      assert Factorial(k) == k * Factorial(k - 1);
      assert Factorial(n - k) == (n - k) * Factorial(n - k - 1);
      SplitFactor(Comb(n - 1, k - 1), Comb(n - 1, k), k, n - k, Factorial(k - 1), Factorial(n - k - 1),
                  Factorial(n - 1));
    }
  }

  lemma CancelFactor(x: nat, y: nat, f: nat)
    requires f > 0 && x * f == y * f
    ensures x == y
  {
  }

  lemma CombSymmetric(n: nat, k: nat)
    requires k <= n
    ensures Comb(n, k) == Comb(n, n - k)
  {
    hide Comb, Factorial;
    CombFactorial(n, k);
    CombFactorial(n, n - k);
    CancelFactor(Comb(n, k), Comb(n, n - k), Factorial(k) * Factorial(n - k));
  }

  /** (x(pq)) (y(st)) z == xyz (pq)(st). */
  lemma RegroupSix(x: nat, y: nat, z: nat, u: nat, v: nat)
    ensures z * ((x * u) * (y * v)) == x * y * z * (u * v)
  {
    assert (x * u) * (y * v) == (x * y) * (u * v) by {
      RegroupOuter(x, u, y * v);
      RegroupMiddle(u, y, v);
      RegroupOuter(x, y, u * v);
    }
    RegroupMiddle(z, x * y, u * v);
    RegroupOuter(x * y, z, u * v);
  }

  function Cells(p: nat, q: nat, s: nat, t: nat): nat {
    (Factorial(p) * Factorial(q)) * (Factorial(s) * Factorial(t))
  }

  /** A choice of r things, then k of them and c - k of the rest, is a multinomial count. */
  lemma MultinomialCount(n: nat, r: nat, c: nat, k: nat)
    requires k <= r <= n && k <= c && c - k <= n - r
    ensures Comb(r, k) * Comb(n - r, c - k) * Comb(n, r) * Cells(k, r - k, c - k, n - r - (c - k)) == Factorial(n)
  {
    CombFactorial(n, r);
    CombFactorial(r, k);
    CombFactorial(n - r, c - k);
    RegroupSix(Comb(r, k), Comb(n - r, c - k), Comb(n, r), Factorial(k) * Factorial(r - k),
               Factorial(c - k) * Factorial(n - r - (c - k)));
  }

  lemma CellsTranspose(p: nat, q: nat, s: nat, t: nat)
    ensures Cells(p, q, s, t) == Cells(p, s, q, t)
    ensures Cells(p, q, s, t) > 0
  {
    var a, b, c, d := Factorial(p), Factorial(q), Factorial(s), Factorial(t);
    assert (a * b) * (c * d) == (a * c) * (b * d) by {
      RegroupOuter(a, b, c * d);
      RegroupMiddle(b, c, d);
      RegroupOuter(a, c, b * d);
    }
    Positive(a, b);
    Positive(c, d);
    Positive(a * b, c * d);
  }

  lemma Positive(a: nat, b: nat)
    requires a > 0 && b > 0
    ensures a * b > 0
  {
  }

  /** Choosing rows then columns counts the same tables as choosing columns then rows. */
  lemma CombTranspose(n: nat, r: nat, c: nat, k: nat)
    requires k <= r <= n && k <= c <= n && c - k <= n - r
    ensures Comb(r, k) * Comb(n - r, c - k) * Comb(n, r) == Comb(c, k) * Comb(n - c, r - k) * Comb(n, c)
  {
    MultinomialCount(n, r, c, k);
    MultinomialCount(n, c, r, k);
    CellsTranspose(k, r - k, c - k, n - r - (c - k));
    assert n - r - (c - k) == n - c - (r - k);
    CancelFactor(Comb(r, k) * Comb(n - r, c - k) * Comb(n, r), Comb(c, k) * Comb(n - c, r - k) * Comb(n, c),
                 Cells(k, r - k, c - k, n - r - (c - k)));
  }

  /** Comb(r, k) * Comb(m, c - k) summed over k = 0 .. top. */
  function Convolution(r: nat, m: nat, c: nat, top: nat): nat
    requires top <= c
  {
    Comb(r, top) * Comb(m, c - top) + (if top == 0 then 0 else Convolution(r, m, c, top - 1))
  }

  lemma {:induction false} ConvolutionPascal(r: nat, m: nat, c: nat, top: nat)
    requires r > 0 && top <= c
    ensures Convolution(r, m, c, top)
            == Convolution(r - 1, m, c, top) + (if top == 0 then 0 else Convolution(r - 1, m, c - 1, top - 1))
  {
    if top > 0 {
      ConvolutionPascal(r, m, c, top - 1);
      assert Comb(r, top) == Comb(r - 1, top - 1) + Comb(r - 1, top);
      Distribute(Comb(r - 1, top - 1), Comb(r - 1, top), Comb(m, c - top));
    }
  }

  lemma {:induction false} ConvolutionBase(m: nat, c: nat, top: nat)
    requires top <= c
    ensures Convolution(0, m, c, top) == Comb(m, c)
  {
    if top > 0 {
      ConvolutionBase(m, c, top - 1);
    }
  }

  /** Vandermonde's identity. */
  lemma {:induction false} Vandermonde(r: nat, m: nat, c: nat)
    ensures Convolution(r, m, c, c) == Comb(r + m, c)
  {
    if r == 0 {
      ConvolutionBase(m, c, c);
    } else {
      ConvolutionPascal(r, m, c, c);
      Vandermonde(r - 1, m, c);
      if c > 0 {
        Vandermonde(r - 1, m, c - 1);
        assert Comb(r + m, c) == Comb(r - 1 + m, c - 1) + Comb(r - 1 + m, c);
      }
    }
  }
}
