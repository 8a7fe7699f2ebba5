/** Sorting strings by a strict total order. */
module Sorting {
  import opened Lists

  type Less = (string, string) -> bool

  ghost predicate StrictOrder(less: Less) {
    && (forall a, b :: a != b ==> less(a, b) || less(b, a))
    && (forall a, b :: less(a, b) ==> !less(b, a))
    && (forall a, b, c :: less(a, b) && less(b, c) ==> less(a, c))
  }

  /** The order of sort.Strings: by code points, as UTF-8 orders bytes. */
  predicate Before(a: string, b: string) {
    b != [] && (a == [] || a[0] < b[0] || (a[0] == b[0] && Before(a[1..], b[1..])))
  }

  lemma {:induction false} BeforeIsTotal(a: string, b: string)
    ensures a == b || Before(a, b) || Before(b, a)
    ensures !(Before(a, b) && Before(b, a)) && !Before(a, a)
  {
    if a != [] && b != [] && a[0] == b[0] {
      BeforeIsTotal(a[1..], b[1..]);
      assert a == [a[0]] + a[1..] && b == [b[0]] + b[1..];
    }
    if a != [] {
      BeforeIsTotal(a[1..], a[1..]);
    }
  }

  lemma {:induction false} BeforeIsTransitive(a: string, b: string, c: string)
    requires Before(a, b) && Before(b, c)
    ensures Before(a, c)
  {
    if a != [] && a[0] == b[0] == c[0] {
      BeforeIsTransitive(a[1..], b[1..], c[1..]);
    }
  }

  /** a and b agree up to k, and there a ends, or has the smaller character. */
  ghost predicate PartAt(a: string, b: string, k: nat) {
    k <= |a| && k < |b| && a[..k] == b[..k] && (k == |a| || a[k] < b[k])
  }

  lemma {:induction false} BeforeMeans(a: string, b: string)
    ensures Before(a, b) <==> exists k: nat :: PartAt(a, b, k)
  {
    if b == [] {
    } else if a == [] || a[0] < b[0] {
      assert PartAt(a, b, 0);
    } else if a[0] == b[0] {
      BeforeMeans(a[1..], b[1..]);
      if Before(a, b) {
        var k: nat :| PartAt(a[1..], b[1..], k);
        assert a[..k + 1] == [a[0]] + a[1..][..k] && b[..k + 1] == [b[0]] + b[1..][..k];
        assert PartAt(a, b, k + 1);
      }
      forall k: nat | PartAt(a, b, k) ensures Before(a, b) {
        assert k > 0;
        assert a[1..][..k - 1] == a[..k][1..] && b[1..][..k - 1] == b[..k][1..];
        assert PartAt(a[1..], b[1..], k - 1);
      }
    } else {
      forall k: nat ensures !PartAt(a, b, k) {
        if 0 < k <= |a| && k < |b| {
          assert a[..k][0] == a[0] && b[..k][0] == b[0];
        }
      }
    }
  }

  lemma BeforeIsStrict()
    ensures StrictOrder(Before)
  {
    hide Before;
    forall a, b ensures (a != b ==> Before(a, b) || Before(b, a)) && (Before(a, b) ==> !Before(b, a)) {
      BeforeIsTotal(a, b);
    }
    forall a, b, c | Before(a, b) && Before(b, c) ensures Before(a, c) {
      BeforeIsTransitive(a, b, c);
    }
  }

  ghost predicate SortedBy(less: Less, xs: seq<string>) {
    forall i, j :: 0 <= i < j < |xs| ==> less(xs[i], xs[j])
  }

  lemma SortedIsDistinct(less: Less, xs: seq<string>)
    requires StrictOrder(less) && SortedBy(less, xs)
    ensures Distinct(xs)
  {
  }

  /** An element goes in after those before it. */
  lemma InsertedSorted(less: Less, xs: seq<string>, p: nat, x: string)
    requires StrictOrder(less) && SortedBy(less, xs) && p <= |xs|
    requires p > 0 ==> less(xs[p - 1], x)
    requires p < |xs| ==> less(x, xs[p])
    ensures SortedBy(less, Inserted(xs, p, x))
  {
    forall i | 0 <= i < p ensures less(xs[i], x) {
      assert i < p - 1 ==> less(xs[i], xs[p - 1]);
    }
    forall i | p <= i < |xs| ensures less(x, xs[i]) {
      assert i > p ==> less(xs[p], xs[i]);
    }
  }

  /** Where x goes in a sorted list that does not hold it. */
  method Place(less: Less, xs: seq<string>, x: string) returns (p: nat)
    requires StrictOrder(less) && SortedBy(less, xs) && x !in xs
    ensures p <= |xs| && (p > 0 ==> less(xs[p - 1], x)) && (p < |xs| ==> less(x, xs[p]))
  {
    p := |xs|;
    while p > 0 && !less(xs[p - 1], x)
      invariant p <= |xs| && (p < |xs| ==> less(x, xs[p]))
    {
      p := p - 1;
    }
  }

  /** The library sort, of a list without repetition. */
  method Sort(less: Less, xs: seq<string>) returns (r: seq<string>)
    requires StrictOrder(less) && Distinct(xs)
    ensures SortedBy(less, r) && Distinct(r) && Elements(r) == Elements(xs)
  {
    hide StrictOrder;
    r := [];
    for i := 0 to |xs|
      invariant SortedBy(less, r) && Distinct(r) && Elements(r) == Elements(xs[..i])
    {
      assert xs[i] !in Elements(xs[..i]) && Elements(xs[..i + 1]) == Elements(xs[..i]) + {xs[i]};
      var p := Place(less, r, xs[i]);
      InsertedSorted(less, r, p, xs[i]);
      InsertedElements(r, p, xs[i]);
      r := Inserted(r, p, xs[i]);
    }
    assert xs[..|xs|] == xs;
  }

  /** There is one sorted list of given elements: the order they were collected in makes no difference. */
  lemma {:induction false} SortedIsUnique(less: Less, a: seq<string>, b: seq<string>)
    requires StrictOrder(less) && SortedBy(less, a) && SortedBy(less, b) && Elements(a) == Elements(b)
    ensures a == b
    decreases |a|
  {
    SortedIsDistinct(less, a);
    SortedIsDistinct(less, b);
    ElementCount(a);
    ElementCount(b);
    if a != [] {
      assert a[0] in Elements(b) && b[0] in Elements(a);
      var i :| 0 <= i < |b| && b[i] == a[0];
      var j :| 0 <= j < |a| && a[j] == b[0];
      assert a[0] == b[0];
      RestElements(less, a);
      RestElements(less, b);
      SortedIsUnique(less, a[1..], b[1..]);
    }
  }

  lemma RestElements(less: Less, xs: seq<string>)
    requires StrictOrder(less) && SortedBy(less, xs) && xs != []
    ensures Elements(xs[1..]) == Elements(xs) - {xs[0]}
  {
    SortedIsDistinct(less, xs);
    assert xs == [xs[0]] + xs[1..];
  }
}
