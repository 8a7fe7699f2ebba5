/** Finite sums of reals over an integer range, lo inclusive and hi exclusive. */
module RangeSums {

  ghost function Sum(f: int -> real, lo: int, hi: int): real
    decreases hi - lo
  {
    if lo >= hi then 0.0 else f(lo) + Sum(f, lo + 1, hi)
  }

  lemma {:induction false} SumLast(f: int -> real, lo: int, hi: int)
    requires lo < hi
    ensures Sum(f, lo, hi) == Sum(f, lo, hi - 1) + f(hi - 1)
    decreases hi - lo
  {
    if lo < hi - 1 {
      SumLast(f, lo + 1, hi);
    }
  }

  /** Reading a range backwards: g at s - k is f at k. */
  lemma {:induction false} SumReflected(f: int -> real, g: int -> real, lo: int, hi: int, s: int)
    requires lo <= hi
    requires forall k :: lo <= k < hi ==> f(k) == g(s - k)
    ensures Sum(f, lo, hi) == Sum(g, s - hi + 1, s - lo + 1)
    decreases hi - lo
  {
    if lo < hi {
      SumReflected(f, g, lo + 1, hi, s);
      SumLast(g, s - hi + 1, s - lo + 1);
    }
  }

  lemma {:induction false} SumEqual(f: int -> real, g: int -> real, lo: int, hi: int)
    requires forall k :: lo <= k < hi ==> f(k) == g(k)
    ensures Sum(f, lo, hi) == Sum(g, lo, hi)
    decreases hi - lo
  {
    if lo < hi {
      SumEqual(f, g, lo + 1, hi);
    }
  }

  lemma {:induction false} SumAtMost(f: int -> real, g: int -> real, lo: int, hi: int)
    requires forall k :: lo <= k < hi ==> 0.0 <= f(k) <= g(k)
    ensures 0.0 <= Sum(f, lo, hi) <= Sum(g, lo, hi)
    ensures Sum(f, lo, hi) == Sum(g, lo, hi) ==> forall k :: lo <= k < hi ==> f(k) == g(k)
    decreases hi - lo
  {
    if lo < hi {
      SumAtMost(f, g, lo + 1, hi);
    }
  }

  lemma {:induction false} SumHasTerm(f: int -> real, lo: int, hi: int, k: int)
    requires lo <= k < hi
    requires forall j :: lo <= j < hi ==> 0.0 <= f(j)
    ensures f(k) <= Sum(f, lo, hi)
    decreases hi - lo
  {
    SumAtMost(f, f, lo + 1, hi);
    if lo < k {
      SumHasTerm(f, lo + 1, hi, k);
    }
  }

  /** Terms that are zero at both ends of a range can be dropped. */
  lemma {:induction false} SumTrim(f: int -> real, lo: int, lo': int, hi': int, hi: int)
    requires lo <= lo' <= hi' <= hi
    requires forall k :: lo <= k < lo' || hi' <= k < hi ==> f(k) == 0.0
    ensures Sum(f, lo, hi) == Sum(f, lo', hi')
    decreases hi - lo
  {
    if lo < lo' {
      SumTrim(f, lo + 1, lo', hi', hi);
    } else if hi' < hi {
      SumLast(f, lo, hi);
      SumTrim(f, lo, lo', hi', hi - 1);
    }
  }

  lemma {:induction false} SumAdd(f: int -> real, g: int -> real, h: int -> real, lo: int, hi: int)
    requires forall k :: lo <= k < hi ==> h(k) == f(k) + g(k)
    ensures Sum(h, lo, hi) == Sum(f, lo, hi) + Sum(g, lo, hi)
    decreases hi - lo
  {
    if lo < hi {
      SumAdd(f, g, h, lo + 1, hi);
    }
  }
}
