/** What the model sees after pruning, for every message list. */
module PruningLaws {
  import opened Lists
  import opened Text
  import opened Pruning
  import opened PruningPass
  import opened PruningTransform

  // ---------------------------------------------------------------- reasoning

  lemma {:induction false} StripDropsReasoning(parts: seq<Part>)
    ensures forall p :: p in Strip(parts) ==> p.Part? && !p.reasoning
  {
    if parts != [] {
      StripDropsReasoning(parts[..|parts| - 1]);
    }
  }

  lemma TrimReasoning(m: Message, stale: bool)
    ensures HasReasoning(TrimMessage(m, stale)) <==> HasReasoning(m) && !stale
  {
    if m.Message? {
      var parts := if stale then Strip(m.parts) else m.parts;
      StripDropsReasoning(m.parts);
      BoundEach(parts);
      var out := BoundParts(parts);
      assert forall j :: 0 <= j < |parts| ==> IsReasoning(out[j]) == IsReasoning(parts[j]);
      hide BoundPart, BoundParts, Strip;
      if HasReasoning(m) && !stale {
        var j :| 0 <= j < |parts| && IsReasoning(parts[j]);
        assert IsReasoning(out[j]) && out[j] in out;
      }
      if exists p :: p in out && IsReasoning(p) {
        var j :| 0 <= j < |out| && IsReasoning(out[j]);
        assert parts[j] in parts && IsReasoning(parts[j]);
      }
    }
  }

  function AtLeast(r: seq<nat>, k: int): seq<nat> {
    if r == [] then [] else AtLeast(r[..|r| - 1], k) + (if r[|r| - 1] >= k then [r[|r| - 1]] else [])
  }

  lemma {:induction false} ReasoningAfterTrim(msgs: Messages, k: int)
    ensures ReasoningAt(TrimFrom(msgs, k)) == AtLeast(ReasoningAt(msgs), k)
  {
    hide HasReasoning, TrimMessage, ReasoningAt;
    if msgs == [] {
      NoReasoning();
    } else {
      var n := |msgs| - 1;
      var front := TrimFrom(msgs[..n], k);
      ReasoningAfterTrim(msgs[..n], k);
      TrimReasoning(msgs[n], n < k);
      TrimEach(msgs[..n], k);
      AtLeastSnoc(ReasoningAt(msgs[..n]), n, k);
      ReasoningSnoc(msgs[..n], msgs[n]);
      ReasoningSnoc(front, TrimMessage(msgs[n], n < k));
      assert msgs[..n] + [msgs[n]] == msgs;
      assert TrimFrom(msgs, k) == front + [TrimMessage(msgs[n], n < k)];
    }
  }

  lemma ReasoningSnoc(ms: Messages, m: Message)
    ensures ReasoningAt(ms + [m]) == if HasReasoning(m) then ReasoningAt(ms) + [|ms|] else ReasoningAt(ms)
  {
    hide HasReasoning;
    var s := ms + [m];
    assert s[..|s| - 1] == ms && s[|s| - 1] == m;
    assert ReasoningAt(ms) + [] == ReasoningAt(ms);
  }

  lemma NoReasoning()
    ensures ReasoningAt([]) == []
  {
  }

  lemma AtLeastSnoc(r: seq<nat>, x: nat, k: int)
    ensures AtLeast(r + [x], k) == AtLeast(r, k) + (if x >= k then [x] else [])
  {
    assert (r + [x])[..|r|] == r;
  }

  lemma {:induction false} ReasoningAscends(msgs: Messages)
    ensures forall i, j :: 0 <= i < j < |ReasoningAt(msgs)| ==> ReasoningAt(msgs)[i] < ReasoningAt(msgs)[j]
  {
    hide HasReasoning;
    if msgs != [] {
      ReasoningAscends(msgs[..|msgs| - 1]);
    }
  }

  lemma {:induction false} AtLeastSplit(r: seq<nat>, cut: nat, k: int)
    requires cut <= |r|
    requires forall i :: 0 <= i < cut ==> r[i] < k
    requires forall i :: cut <= i < |r| ==> r[i] >= k
    ensures AtLeast(r, k) == r[cut..]
  {
    if r != [] {
      var n := |r| - 1;
      if cut <= n {
        AtLeastSplit(r[..n], cut, k);
        assert r[cut..] == r[..n][cut..] + [r[n]];
      } else {
        AtLeastSplit(r[..n], n, k);
        assert r[..n][n..] == [];
      }
    }
  }

  /** The last n elements, or all of them. */
  function LastOf(r: seq<nat>, n: nat): seq<nat> { if |r| > n then r[|r| - n..] else r }

  lemma {:induction false} SameReasoning(a: Messages, b: Messages)
    requires |a| == |b| && forall i :: 0 <= i < |a| ==> HasReasoning(a[i]) == HasReasoning(b[i])
    ensures ReasoningAt(a) == ReasoningAt(b)
  {
    hide HasReasoning;
    if a != [] {
      SameReasoning(a[..|a| - 1], b[..|b| - 1]);
    }
  }

  lemma SamePartsReasoning(a: seq<Part>, b: seq<Part>, r: Change)
    requires SameParts(a, b, r) && exists p :: p in a && IsReasoning(p)
    ensures exists q :: q in b && IsReasoning(q)
  {
    var j :| 0 <= j < |a| && IsReasoning(a[j]);
    assert SamePart(a[j], b[j], r);
    assert b[j] in b && IsReasoning(b[j]);
  }

  lemma SameMessageReasoning(a: Message, b: Message, r: Change)
    requires SameMessage(a, b, r)
    ensures HasReasoning(a) == HasReasoning(b)
  {
    hide SamePart;
    if HasReasoning(a) {
      SamePartsReasoning(a.parts, b.parts, r);
    }
    if HasReasoning(b) {
      SamePartsBack(a.parts, b.parts, r);
      SamePartsReasoning(b.parts, a.parts, Anyhow);
    }
  }

  lemma SamePartsBack(a: seq<Part>, b: seq<Part>, r: Change)
    requires SameParts(a, b, r)
    ensures SameParts(b, a, Anyhow)
  {
    forall j | 0 <= j < |b| ensures SamePart(b[j], a[j], Anyhow) {
      assert SamePart(a[j], b[j], r);
    }
  }

  lemma SameKeepsReasoning(a: Messages, b: Messages, r: Change)
    requires Same(a, b, r)
    ensures ReasoningAt(a) == ReasoningAt(b)
  {
    forall i | 0 <= i < |a| ensures HasReasoning(a[i]) == HasReasoning(b[i]) {
      SameMessageReasoning(a[i], b[i], r);
    }
    hide HasReasoning, SameMessage;
    SameReasoning(a, b);
  }

  /**
   * Reasoning survives in exactly the last three messages that carry any, or in all if there are no more than three.
   */
  lemma ReasoningSurvives(msgs: Messages)
    ensures ReasoningAt(Transformed(msgs)) == LastOf(ReasoningAt(msgs), 3)
  {
    var r := ReasoningAt(msgs);
    ReasoningAfterTrim(msgs, KeepFrom(msgs));
    ReasoningAscends(msgs);
    hide ReasoningAt, AtLeast, Shortened, PrunedCalls;
    if |r| > KEEP_REASONING {
      AtLeastSplit(r, |r| - KEEP_REASONING, KeepFrom(msgs));
    } else {
      AtLeastSplit(r, 0, -1);
      assert r[0..] == r;
    }
    PrunedCallsChange(Shortened(msgs));
    SameKeepsReasoning(Shortened(msgs), Transformed(msgs), KeptOrMasked);
    assert ReasoningAt(Shortened(msgs)) == AtLeast(r, KeepFrom(msgs)) by {
      ShortenedIsTrimmed(msgs);
    }
  }

  lemma ShortenedIsTrimmed(msgs: Messages)
    ensures Shortened(msgs) == TrimFrom(msgs, KeepFrom(msgs))
  {
    hide TrimFrom, KeepFrom;
  }

  // ---------------------------------------------------------------- everything else

  /**
   * The parts of message i that the transform passes on: of a stale message those that are neither missing nor
   * reasoning.
   */
  function Passed(msgs: Messages, keepFrom: int, i: nat): Message
    requires i < |msgs|
  {
    if msgs[i].Message? && i < keepFrom then Message(Strip(msgs[i].parts)) else msgs[i]
  }

  function Stripped(msgs: Messages): Messages {
    seq(|msgs|, i requires 0 <= i < |msgs| => Passed(msgs, KeepFrom(msgs), i))
  }

  /** What may become of an output: it is cut to size, or masked. */
  ghost predicate CutOrMasked(x: string, y: string) { y == Truncated(x) || y == SUPERSEDED || y == ELIDED }

  ghost predicate Cut(x: string, y: string) { y == Truncated(x) }

  lemma BoundPartChange(p: Part)
    ensures SamePart(p, BoundPart(p), Cut)
  {
  }

  lemma BoundPartsChange(parts: seq<Part>)
    ensures SameParts(parts, BoundParts(parts), Cut)
  {
    BoundEach(parts);
    hide BoundPart, SamePart;
    forall j | 0 <= j < |parts| ensures SamePart(parts[j], BoundParts(parts)[j], Cut) {
      BoundPartChange(parts[j]);
    }
  }

  lemma ShortenedChange(msgs: Messages)
    ensures Same(Stripped(msgs), Shortened(msgs), Cut)
  {
    var k := KeepFrom(msgs);
    TrimEach(msgs, k);
    hide KeepFrom, Strip, BoundParts, SameParts;
    forall i | 0 <= i < |msgs| ensures SameMessage(Stripped(msgs)[i], Shortened(msgs)[i], Cut) {
      if msgs[i].Message? {
        BoundPartsChange(Passed(msgs, k, i).parts);
      }
    }
  }

  lemma CutThenMasked()
    ensures Composes(Cut, KeptOrMasked, CutOrMasked)
  {
    hide Truncated;
  }

  /**
   * The transform changes nothing but outputs, which it cuts or masks, and drops nothing but stale reasoning and
   * missing parts.
   */
  lemma OnlyOutputsChange(msgs: Messages)
    ensures Same(Stripped(msgs), Transformed(msgs), CutOrMasked)
  {
    ShortenedChange(msgs);
    PrunedCallsChange(Shortened(msgs));
    CutThenMasked();
    hide Same, Composes, Stripped, Shortened, PrunedCalls;
    SameTrans(Stripped(msgs), Shortened(msgs), Transformed(msgs), Cut, KeptOrMasked, CutOrMasked);
  }

  /** From the window on, a message keeps every part, its reasoning, its calls and its other content. */
  lemma WindowKeepsEverything(msgs: Messages, i: nat)
    requires KeepFrom(msgs) <= i < |msgs|
    ensures |Transformed(msgs)| == |msgs| && SameMessage(msgs[i], Transformed(msgs)[i], CutOrMasked)
  {
    OnlyOutputsChange(msgs);
    hide Transformed, SameMessage;
    assert Stripped(msgs)[i] == msgs[i];
  }

  ghost function Staying(parts: seq<Part>): set<nat> {
    set j: nat | j < |parts| && parts[j].Part? && !parts[j].reasoning
  }

  /** The positions of the parts that stay, in order. */
  ghost predicate Picks(parts: seq<Part>, at: seq<nat>) { Ascending(at) && Elements(at) == Staying(parts) }

  lemma StayingMore(parts: seq<Part>)
    requires parts != []
    ensures var n: nat := |parts| - 1;
            Staying(parts) == Staying(parts[..n]) + (if Stays(parts[n]) then {n} else {})
  {
  }

  lemma ElementsMore(at: seq<nat>, n: nat)
    ensures Elements(at + [n]) == Elements(at) + {n}
  {
  }

  lemma PicksBound(parts: seq<Part>, at: seq<nat>, k: nat)
    requires Picks(parts, at) && k < |at|
    ensures at[k] < |parts|
  {
    assert at[k] in Elements(at);
  }

  lemma PicksMore(parts: seq<Part>, at: seq<nat>)
    requires parts != [] && Picks(parts[..|parts| - 1], at)
    ensures Picks(parts, if Stays(parts[|parts| - 1]) then at + [|parts| - 1] else at)
  {
    var n: nat := |parts| - 1;
    StayingMore(parts);
    ElementsMore(at, n);
    forall k | 0 <= k < |at| ensures at[k] < n {
      PicksBound(parts[..n], at, k);
    }
    hide Stays, Staying, Elements;
  }

  lemma StripNone()
    ensures Picks([], []) && Chosen([], [], Strip([]))
  {
  }

  lemma {:induction false} StripPositions(parts: seq<Part>) returns (at: seq<nat>)
    ensures Picks(parts, at) && Chosen(parts, at, Strip(parts))
  {
    hide Stays, Picks, Strip, Chosen;
    if parts == [] {
      at := [];
      StripNone();
    } else {
      var n: nat := |parts| - 1;
      var front := parts[..n];
      StripMore(parts);
      at := StripPositions(front);
      PicksMore(parts, at);
      ChosenMore(front, parts[n], at, Strip(front));
      assert front + [parts[n]] == parts && Strip(front) + [] == Strip(front);
      at := if Stays(parts[n]) then at + [n] else at;
    }
  }

  lemma StripMore(parts: seq<Part>)
    requires parts != []
    ensures var n := |parts| - 1; Strip(parts) == Strip(parts[..n]) + (if Stays(parts[n]) then [parts[n]] else [])
  {
  }

  /**
   * A stale message keeps, in order, exactly its parts that are neither missing nor reasoning, and their calls and
   * content.
   */
  lemma StaleKeepsTheRest(msgs: Messages, i: nat) returns (at: seq<nat>)
    requires i < |msgs| && i < KeepFrom(msgs) && msgs[i].Message?
    ensures |Transformed(msgs)| == |msgs| && Transformed(msgs)[i].Message?
    ensures Picks(msgs[i].parts, at) && |at| == |Transformed(msgs)[i].parts|
    ensures forall k :: 0 <= k < |at| ==>
              at[k] < |msgs[i].parts| && SamePart(msgs[i].parts[at[k]], Transformed(msgs)[i].parts[k], CutOrMasked)
  {
    OnlyOutputsChange(msgs);
    at := StripPositions(msgs[i].parts);
    hide Transformed, Strip, SamePart;
    assert SameMessage(Stripped(msgs)[i], Transformed(msgs)[i], CutOrMasked);
  }

  /** The reasoning-bearing messages after message i. */
  ghost function ReasoningAfter(msgs: Messages, i: nat): set<nat> {
    set j: nat | i < j < |msgs| && msgs[j].Message? && exists p :: p in msgs[j].parts && p.Part? && p.reasoning
  }

  lemma {:induction false} ReasoningIndices(msgs: Messages, j: nat)
    ensures j in ReasoningAt(msgs) <==> j < |msgs| && HasReasoning(msgs[j])
  {
    hide HasReasoning;
    if msgs != [] {
      ReasoningIndices(msgs[..|msgs| - 1], j);
    }
  }

  /** A message is stale when at least three after it carry reasoning, and more than three do in all. */
  lemma StaleMeans(msgs: Messages, i: nat)
    ensures i < KeepFrom(msgs) <==> |ReasoningAfter(msgs, i)| >= 3 && |ReasoningAt(msgs)| > 3
  {
    var r := ReasoningAt(msgs);
    ReasoningAscends(msgs);
    forall j: nat ensures j in r <==> j < |msgs| && HasReasoning(msgs[j]) {
      ReasoningIndices(msgs, j);
    }
    assert forall j: nat :: j in ReasoningAfter(msgs, i) <==> j > i && j in r;
    hide ReasoningAt, ReasoningAfter, HasReasoning;
    AfterCount(r, i, ReasoningAfter(msgs, i));
  }

  /** In an ascending list at least three elements exceed i exactly when the third last does. */
  lemma AfterCount(r: seq<nat>, i: nat, after: set<nat>)
    requires forall j, k :: 0 <= j < k < |r| ==> r[j] < r[k]
    requires forall j: nat :: j in after <==> j > i && j in r
    ensures |r| > 3 ==> (i < r[|r| - 3] <==> |after| >= 3)
  {
    if |r| > 3 {
      var n := |r|;
      var last := {r[n - 1], r[n - 2], r[n - 3]};
      assert |last| == 3;
      if i < r[n - 3] {
        assert last <= after;
        SubsetCount(last, after);
      } else {
        var two := {r[n - 1], r[n - 2]};
        forall x | x in after ensures x in two {
          var k :| 0 <= k < n && r[k] == x;
        }
        SubsetCount(after, two);
      }
    }
  }

  // ---------------------------------------------------------------- sizes

  /** What every output of a list satisfies. */
  type OnOutputs = string -> bool

  ghost predicate OfCall(c: Option<Call>, p: OnOutputs) { c.Some? && c.value.output.Some? ==> p(c.value.output.value) }

  ghost predicate OfPart(q: Part, p: OnOutputs) { q.Part? ==> OfCall(q.inv, p) && OfCall(q.state, p) }

  ghost predicate OfParts(parts: seq<Part>, p: OnOutputs) { forall j :: 0 <= j < |parts| ==> OfPart(parts[j], p) }

  ghost predicate AllOutputs(msgs: Messages, p: OnOutputs) {
    forall i :: 0 <= i < |msgs| && msgs[i].Message? ==> OfParts(msgs[i].parts, p)
  }

  ghost predicate Yields(p: OnOutputs, r: Change, q: OnOutputs) { forall x, y :: p(x) && r(x, y) ==> q(y) }

  lemma SameOutputs(a: Messages, b: Messages, p: OnOutputs, r: Change, q: OnOutputs)
    requires Same(a, b, r) && AllOutputs(a, p) && Yields(p, r, q)
    ensures AllOutputs(b, q)
  {
    hide Yields;
    forall i | 0 <= i < |b| && b[i].Message? ensures OfParts(b[i].parts, q) {
      assert SameMessage(a[i], b[i], r) && OfParts(a[i].parts, p);
      forall j | 0 <= j < |b[i].parts| ensures OfPart(b[i].parts[j], q) {
        SamePartOutputs(a[i].parts[j], b[i].parts[j], p, r, q);
      }
    }
  }

  lemma SamePartOutputs(a: Part, b: Part, p: OnOutputs, r: Change, q: OnOutputs)
    requires SamePart(a, b, r) && OfPart(a, p) && Yields(p, r, q)
    ensures OfPart(b, q)
  {
  }

  ghost predicate Whatever(s: string) { true }

  /** At most MAX characters, or MAX characters and the marker that says how many were dropped. */
  ghost predicate Bounded(s: string) {
    |s| <= MAX || exists n: nat :: n > 0 && |s| == MAX + |Marker(n)| && s[MAX..] == Marker(n)
  }

  lemma TruncatedIsBounded(s: string)
    ensures Bounded(Truncated(s))
    ensures |s| <= MAX ==> Truncated(s) == s
    ensures |s| > MAX ==> Truncated(s)[..MAX] == s[..MAX]
  {
    hide Marker;
    if |s| > MAX {
      var n: nat := |s| - MAX;
      assert Truncated(s)[MAX..] == Marker(n);
    }
  }

  /** Every output the model sees is within MAX plus the marker. */
  lemma OutputsAreBounded(msgs: Messages)
    ensures AllOutputs(Transformed(msgs), Bounded)
  {
    OnlyOutputsChange(msgs);
    hide Same, Stripped, Transformed;
    forall x, y | CutOrMasked(x, y) ensures Bounded(y) {
      TruncatedIsBounded(x);
      MasksAreMasks();
    }
    hide Bounded, CutOrMasked;
    SameOutputs(Stripped(msgs), Transformed(msgs), Whatever, CutOrMasked, Bounded);
  }
}
