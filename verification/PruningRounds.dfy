/** When pruning an already pruned message list changes it again. */
module PruningRounds {
  import opened Text
  import opened Pruning
  import opened PruningPass
  import opened PruningTransform
  import opened PruningLaws

  // ---------------------------------------------------------------- cutting a string again

  lemma {:induction false} DecimalLength(n: nat)
    ensures 1 <= |Decimal(n)| <= n / 10 + 1
    ensures n < 10 <==> |Decimal(n)| == 1
    ensures n < 100 <==> |Decimal(n)| <= 2
  {
    if n >= 10 {
      DecimalLength(n / 10);
    }
  }

  lemma {:induction false} DecimalInjective(m: nat, n: nat)
    requires Decimal(m) == Decimal(n)
    ensures m == n
  {
    var s := Decimal(m);
    var digits := "0123456789";
    assert s[|s| - 1] == digits[m % 10] == digits[n % 10];
    assert m % 10 == n % 10;
    DecimalLength(m);
    DecimalLength(n);
    if m >= 10 {
      assert Decimal(m / 10) == s[..|s| - 1] == Decimal(n / 10);
      DecimalInjective(m / 10, n / 10);
    }
  }

  lemma MarkerLength(n: nat)
    ensures |Marker(n)| == 50 + |Decimal(n)|
  {
    hide Decimal;
  }

  lemma MarkerInjective(m: nat, n: nat)
    requires Marker(m) == Marker(n)
    ensures m == n
  {
    MarkerLength(m);
    MarkerLength(n);
    hide Decimal;
    var k := |Decimal(m)|;
    assert Decimal(m) == Marker(m)[23..23 + k];
    assert Decimal(n) == Marker(n)[23..23 + k];
    DecimalInjective(m, n);
  }

  lemma CutOnce(s: string)
    requires |s| > MAX
    ensures Truncated(s)[..MAX] == s[..MAX] && Truncated(s)[MAX..] == Marker(|s| - MAX)
    ensures |Truncated(s)| == MAX + 50 + |Decimal(|s| - MAX)|
  {
    MarkerLength(|s| - MAX);
    hide Marker;
  }

  /** The number of dropped characters that the marker, with its count, makes up for. */
  lemma OnlyFiftyTwo(n: nat)
    ensures n == 50 + |Decimal(n)| <==> n == 52
  {
    DecimalLength(n);
    hide Decimal;
  }

  /** What a cut leaves alone. */
  lemma CutChangesNothing(s: string)
    ensures Truncated(s) == s <==> |s| <= MAX || (|s| == MAX + 52 && s[MAX..] == Marker(52))
  {
    if |s| > MAX {
      CutOnce(s);
      OnlyFiftyTwo(|s| - MAX);
      hide Marker, Decimal, Truncated;
      assert s == s[..MAX] + s[MAX..];
      assert Truncated(s) == Truncated(s)[..MAX] + Truncated(s)[MAX..];
    }
  }

  /** A string is done after one cut exactly when it was short, or 52 characters too long. */
  lemma CutSettles(s: string)
    ensures Truncated(Truncated(s)) == Truncated(s) <==> |s| <= MAX || |s| == MAX + 52
  {
    if |s| > MAX {
      var n := |s| - MAX;
      CutOnce(s);
      CutChangesNothing(Truncated(s));
      OnlyFiftyTwo(n);
      DecimalLength(n);
      hide Marker, Decimal, Truncated;
      if Truncated(Truncated(s)) == Truncated(s) {
        assert Marker(n) == Marker(52);
        MarkerInjective(n, 52);
      }
    } else {
      hide Marker, Decimal;
      assert Truncated(s) == s;
    }
  }

  /**
   * Every string of a length anybody can store is done after three: the count dropped must have fewer than 50 digits.
   */
  lemma ThirdCutSettles(s: string)
    ensures var three := Truncated(Truncated(Truncated(s)));
            Truncated(three) == three <==> |s| <= MAX || |Decimal(|s| - MAX)| < 50
  {
    var once := Truncated(s);
    var twice := Truncated(once);
    CutSettles(twice);
    if |s| > MAX {
      CutOnce(s);
      CutOnce(once);
      DecimalLength(|once| - MAX);
    }
    hide Marker, Decimal;
  }

  // ---------------------------------------------------------------- transforming a list again

  /** Deduping and eliding the transformed list again changes nothing. */
  lemma TransformSettles(msgs: Messages)
    ensures PrunedCalls(Transformed(msgs)) == Transformed(msgs)
  {
    PruningCallsTwice(Shortened(msgs));
  }

  /** Nor does it lose reasoning or parts a second time. */
  lemma NothingMoreStale(msgs: Messages)
    ensures Stripped(Transformed(msgs)) == Transformed(msgs)
  {
    ReasoningSurvives(msgs);
    var t := Transformed(msgs);
    hide ReasoningAt, Transformed;
    assert KeepFrom(t) == -1;
    assert |Stripped(t)| == |t| && forall i :: 0 <= i < |t| ==> Stripped(t)[i] == t[i];
  }

  ghost predicate CutAlready(s: string) { Truncated(s) == s }

  lemma SameCallCut(c: Option<Call>, d: Option<Call>)
    requires SameCall(c, d, Cut) && OfCall(c, CutAlready)
    ensures c == d
  {
    hide Truncated;
  }

  lemma NothingToCut(a: Messages, b: Messages)
    requires Same(a, b, Cut) && AllOutputs(a, CutAlready)
    ensures a == b
  {
    hide SameCall, OfCall;
    forall i | 0 <= i < |a| ensures a[i] == b[i] {
      assert SameMessage(a[i], b[i], Cut);
      if a[i].Message? {
        assert OfParts(a[i].parts, CutAlready);
        forall j | 0 <= j < |a[i].parts| ensures a[i].parts[j] == b[i].parts[j] {
          var p, q := a[i].parts[j], b[i].parts[j];
          assert SamePart(p, q, Cut) && OfPart(p, CutAlready);
          if p.Part? {
            SameCallCut(p.inv, q.inv);
            SameCallCut(p.state, q.state);
          }
        }
      }
    }
  }

  lemma UnchangedWasCut(a: Messages)
    requires Same(a, a, CutOrMasked)
    ensures AllOutputs(a, CutAlready)
  {
    forall x | CutOrMasked(x, x) ensures CutAlready(x) {
      MasksAreMasks();
      TruncatedIsBounded(x);
    }
    hide CutOrMasked, CutAlready;
    forall i | 0 <= i < |a| && a[i].Message? ensures OfParts(a[i].parts, CutAlready) {
      assert SameMessage(a[i], a[i], CutOrMasked);
      forall j | 0 <= j < |a[i].parts| ensures OfPart(a[i].parts[j], CutAlready) {
        assert SamePart(a[i].parts[j], a[i].parts[j], CutOrMasked);
      }
    }
  }

  /** A second transform changes nothing exactly when no output is left that another cut would change. */
  lemma TransformTwice(msgs: Messages)
    ensures Transformed(Transformed(msgs)) == Transformed(msgs) <==> AllOutputs(Transformed(msgs), CutAlready)
  {
    var t := Transformed(msgs);
    NothingMoreStale(msgs);
    OnlyOutputsChange(t);
    ShortenedChange(t);
    TransformSettles(msgs);
    hide Same, Stripped, Shortened, PrunedCalls, AllOutputs, CutAlready;
    if AllOutputs(t, CutAlready) {
      NothingToCut(t, Shortened(t));
    }
    if Transformed(t) == t {
      UnchangedWasCut(t);
    }
  }

  lemma {:induction false} StripOutputs(parts: seq<Part>, p: OnOutputs)
    requires OfParts(parts, p)
    ensures OfParts(Strip(parts), p)
  {
    hide OfPart;
    if parts != [] {
      StripOutputs(parts[..|parts| - 1], p);
    }
  }

  lemma OutputsBecome(msgs: Messages, p: OnOutputs, q: OnOutputs)
    requires AllOutputs(msgs, p) && Yields(p, CutOrMasked, q)
    ensures AllOutputs(Transformed(msgs), q)
  {
    OnlyOutputsChange(msgs);
    hide OfParts, Same, CutOrMasked, Transformed, KeepFrom;
    forall i | 0 <= i < |msgs| && msgs[i].Message? ensures OfParts(Stripped(msgs)[i].parts, p) {
      StripOutputs(msgs[i].parts, p);
    }
    SameOutputs(Stripped(msgs), Transformed(msgs), p, CutOrMasked, q);
  }

  ghost predicate ShortOrFiftyTwoOver(s: string) { |s| <= MAX || |s| == MAX + 52 }

  /** So a list whose outputs are short, or 52 too long, is done after one transform. */
  lemma OneTransformSettles(msgs: Messages)
    requires AllOutputs(msgs, ShortOrFiftyTwoOver)
    ensures Transformed(Transformed(msgs)) == Transformed(msgs)
  {
    forall x, y | ShortOrFiftyTwoOver(x) && CutOrMasked(x, y) ensures CutAlready(y) {
      CutSettles(x);
      MasksAreMasks();
    }
    hide CutOrMasked, ShortOrFiftyTwoOver, CutAlready, Transformed, AllOutputs;
    assert Yields(ShortOrFiftyTwoOver, CutOrMasked, CutAlready);
    OutputsBecome(msgs, ShortOrFiftyTwoOver, CutAlready);
    TransformTwice(msgs);
  }

  ghost predicate Storable(s: string) { |s| <= MAX || |Decimal(|s| - MAX)| < 50 }

  ghost predicate LessThanHundredOver(s: string) { |s| < MAX + 100 && (|s| <= MAX || |s| >= MAX + 10) }

  /** And any list of outputs anybody can store is done after three. */
  lemma ThreeTransformsSettle(msgs: Messages)
    requires AllOutputs(msgs, Storable)
    ensures var three := Transformed(Transformed(Transformed(msgs))); Transformed(three) == three
  {
    forall x, y | Storable(x) && CutOrMasked(x, y) ensures LessThanHundredOver(y) {
      FirstCutLength(x);
      MasksAreMasks();
    }
    forall x, y | LessThanHundredOver(x) && CutOrMasked(x, y) ensures ShortOrFiftyTwoOver(y) {
      SecondCutLength(x);
      MasksAreMasks();
    }
    hide CutOrMasked, ShortOrFiftyTwoOver, LessThanHundredOver, Storable, Transformed, AllOutputs;
    assert Yields(Storable, CutOrMasked, LessThanHundredOver);
    assert Yields(LessThanHundredOver, CutOrMasked, ShortOrFiftyTwoOver);
    OutputsBecome(msgs, Storable, LessThanHundredOver);
    OutputsBecome(Transformed(msgs), LessThanHundredOver, ShortOrFiftyTwoOver);
    OneTransformSettles(Transformed(Transformed(msgs)));
  }

  lemma FirstCutLength(s: string)
    requires Storable(s)
    ensures LessThanHundredOver(Truncated(s))
  {
    hide Marker, Decimal;
    if |s| > MAX {
      CutOnce(s);
      DecimalLength(|s| - MAX);
    }
  }

  lemma SecondCutLength(s: string)
    requires LessThanHundredOver(s)
    ensures ShortOrFiftyTwoOver(Truncated(s))
  {
    hide Marker, Decimal;
    if |s| > MAX {
      CutOnce(s);
      DecimalLength(|s| - MAX);
    }
  }
}
