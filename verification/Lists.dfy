/** Lists without repetition, and lists rewritten in place. */
module Lists {

  ghost function Elements<T>(xs: seq<T>): set<T> { set x | x in xs }

  ghost predicate Distinct<T>(xs: seq<T>) { forall i, j :: 0 <= i < j < |xs| ==> xs[i] != xs[j] }

  lemma {:induction false} ElementCount<T>(xs: seq<T>)
    requires Distinct(xs)
    ensures |Elements(xs)| == |xs|
  {
    if xs != [] {
      var front, last := xs[..|xs| - 1], xs[|xs| - 1];
      ElementCount(front);
      assert Elements(xs) == Elements(front) + {last};
      assert last !in Elements(front);
    }
  }

  function Inserted<T>(xs: seq<T>, p: nat, x: T): (r: seq<T>)
    requires p <= |xs|
    ensures |r| == |xs| + 1
    ensures forall i :: 0 <= i < |r| ==> r[i] == if i < p then xs[i] else if i == p then x else xs[i - 1]
  {
    xs[..p] + [x] + xs[p..]
  }

  lemma InsertedElements<T>(xs: seq<T>, p: nat, x: T)
    requires p <= |xs|
    ensures Elements(Inserted(xs, p, x)) == Elements(xs) + {x}
    ensures Distinct(xs) && x !in xs ==> Distinct(Inserted(xs, p, x))
  {
    assert xs == xs[..p] + xs[p..];
  }

  /** One more element of a list that is being rewritten from the front. */
  lemma Splice<T>(done: seq<T>, rest: seq<T>, x: T)
    requires |rest| > 0
    ensures (done + rest)[|done|] == rest[0] && (done + rest)[|done| := x] == done + [x] + rest[1..]
    ensures (done + rest)[|done| := rest[0]] == done + rest
  {
  }

  lemma SubsetCount<T>(a: set<T>, b: set<T>)
    requires a <= b
    ensures |a| <= |b| && |b - a| == |b| - |a|
  {
    assert b == a + (b - a);
  }

  ghost predicate Ascending(at: seq<nat>) { forall j, k :: 0 <= j < k < |at| ==> at[j] < at[k] }

  /** ys is what xs holds at these positions. */
  ghost predicate Chosen<T>(xs: seq<T>, at: seq<nat>, ys: seq<T>) {
    |ys| == |at| && forall k :: 0 <= k < |at| ==> at[k] < |xs| && ys[k] == xs[at[k]]
  }

  lemma ChosenMore<T>(xs: seq<T>, x: T, at: seq<nat>, ys: seq<T>)
    requires Chosen(xs, at, ys)
    ensures Chosen(xs + [x], at, ys) && Chosen(xs + [x], at + [|xs|], ys + [x])
    ensures Ascending(at) ==> Ascending(at + [|xs|])
  {
  }
}
