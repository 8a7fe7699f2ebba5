/** What becomes of each observation of the input. */
module PruningObservations {
  import opened Text
  import opened Pruning
  import opened PruningPass
  import opened PruningTransform
  import opened PruningLaws

  /** The observation of a part: its invocation if that has a result, else its state if that has an output. */
  function CallOf(p: Part): Option<Call> {
    if p.Missing? then None
    else if p.inv.Some? && p.inv.value.output.Some? then p.inv
    else if p.state.Some? && p.state.value.output.Some? then p.state
    else None
  }

  /**
   * The observations of a message, in order; the reasoning parts of a stale message are dropped, and theirs with them.
   */
  function CallsOf(parts: seq<Part>, stale: bool): seq<Call> {
    if parts == [] then []
    else
      var p := parts[|parts| - 1];
      CallsOf(parts[..|parts| - 1], stale)
          + (if CallOf(p).None? || (stale && p.reasoning) then [] else [CallOf(p).value])
  }

  /** The observations of a message list whose messages before keepFrom are stale. */
  function Observations(msgs: Messages, keepFrom: int): seq<Call> {
    if msgs == [] then []
    else
      var n := |msgs| - 1;
      Observations(msgs[..n], keepFrom) + (if msgs[n].Message? then CallsOf(msgs[n].parts, n < keepFrom) else [])
  }

  ghost function KeysOf(calls: seq<Call>): (r: seq<string>)
    ensures |r| == |calls|
  {
    seq(|calls|, k requires 0 <= k < |calls| => KeyOf(calls[k]))
  }

  // ---------------------------------------------------------------- the slots are the observations

  lemma {:induction false} StripKeepsCalls(parts: seq<Part>)
    ensures CallsOf(Strip(parts), false) == CallsOf(parts, true)
  {
    if parts != [] {
      var n := |parts| - 1;
      StripKeepsCalls(parts[..n]);
      var front := Strip(parts[..n]);
      assert (front + [parts[n]])[..|front|] == front;
      assert front + [] == front && CallsOf(front, false) + [] == CallsOf(front, false);
    }
  }

  lemma {:induction false} StaleObservations(a: Messages, b: Messages, k: int)
    requires |a| == |b|
    requires forall i :: 0 <= i < |a| ==> b[i] == if a[i].Message? && i < k then Message(Strip(a[i].parts)) else a[i]
    ensures Observations(b, -1) == Observations(a, k)
  {
    if a != [] {
      var n := |a| - 1;
      StaleObservations(a[..n], b[..n], k);
      if a[n].Message? {
        StripKeepsCalls(a[n].parts);
      }
      hide Strip, CallsOf;
    }
  }

  lemma {:induction false} PartSlotCalls(i: nat, parts: seq<Part>)
    ensures |PartSlots(i, parts)| == |CallsOf(parts, false)|
    ensures forall k :: 0 <= k < |PartSlots(i, parts)| ==>
              var s := PartSlots(i, parts)[k];
              && s.part < |parts| && Field(parts[s.part]) == Some(s.inInv)
              && Some(CallsOf(parts, false)[k]) == CallOf(parts[s.part])
  {
    if parts != [] {
      hide Field;
      PartSlotCalls(i, parts[..|parts| - 1]);
      hide CallOf;
    }
  }

  lemma {:induction false} SlotCalls(msgs: Messages)
    ensures |Slots(msgs)| == |Observations(msgs, -1)|
    ensures forall k :: 0 <= k < |Slots(msgs)| ==>
              Sound(msgs, Slots(msgs)[k]) && CallAt(msgs, Slots(msgs)[k]) == Observations(msgs, -1)[k]
  {
    if msgs != [] {
      var n := |msgs| - 1;
      var front := msgs[..n];
      SlotCalls(front);
      forall k | 0 <= k < |Slots(front)|
        ensures Sound(msgs, Slots(front)[k]) && CallAt(msgs, Slots(front)[k]) == Observations(front, -1)[k]
      {
        assert Sound(front, Slots(front)[k]);
      }
      if msgs[n].Message? {
        PartSlotsShape(n, msgs[n].parts);
        PartSlotCalls(n, msgs[n].parts);
      }
      hide PartSlots, CallsOf, Field;
    }
  }

  // ---------------------------------------------------------------- observations through the transform

  /** The same tool and arguments, and outputs related by r. */
  ghost predicate SameObserved(c: Call, d: Call, r: Change) {
    c.tool == d.tool && c.args == d.args && c.output.Some? && d.output.Some? && r(c.output.value, d.output.value)
  }

  ghost predicate AllObserved(cs: seq<Call>, ds: seq<Call>, r: Change) {
    |cs| == |ds| && forall k :: 0 <= k < |cs| ==> SameObserved(cs[k], ds[k], r)
  }

  lemma {:induction false} SamePartsObserved(a: seq<Part>, b: seq<Part>, r: Change)
    requires SameParts(a, b, r)
    ensures AllObserved(CallsOf(a, false), CallsOf(b, false), r)
  {
    if a != [] {
      var n := |a| - 1;
      SamePartsObserved(a[..n], b[..n], r);
      SameField(a[n], b[n], r);
      assert SamePart(a[n], b[n], r);
      hide SameParts;
    }
  }

  lemma {:induction false} SameObservations(a: Messages, b: Messages, r: Change)
    requires Same(a, b, r)
    ensures AllObserved(Observations(a, -1), Observations(b, -1), r)
  {
    if a != [] {
      var n := |a| - 1;
      SameObservations(a[..n], b[..n], r);
      assert SameMessage(a[n], b[n], r);
      if a[n].Message? {
        SamePartsObserved(a[n].parts, b[n].parts, r);
      }
      hide Same, CallsOf, SameObserved, SameParts;
    }
  }

  /** Cutting to size loses no observation but those of dropped parts, and changes nothing but outputs. */
  lemma ShortenedObservations(msgs: Messages)
    ensures AllObserved(Observations(msgs, KeepFrom(msgs)), Observations(Shortened(msgs), -1), Cut)
  {
    ShortenedChange(msgs);
    hide Same, Shortened, Observations, AllObserved;
    StaleObservations(msgs, Stripped(msgs), KeepFrom(msgs));
    SameObservations(Stripped(msgs), Shortened(msgs), Cut);
  }

  /** A later observation is of the same call. */
  ghost predicate ComesAgain(calls: seq<Call>, k: nat)
    requires k < |calls|
  {
    exists j :: k < j < |calls| && Alike(calls[k], calls[j])
  }

  /** What becomes of the k-th of n outputs: masked, elided from the middle of a long list, or kept. */
  ghost function Fate(calls: seq<Call>, k: nat, own: string): string
    requires k < |calls|
  {
    if ComesAgain(calls, k) then "[aegis: superseded by a later identical call]"
    else if |calls| > 8 && 2 <= k < |calls| - 6 && own != "" && !("[aegis:" <= own)
    then "[aegis: elided stale observation]"
    else own
  }

  lemma ComesAgainMeans(calls: seq<Call>, k: nat)
    requires k < |calls|
    ensures ComesAgain(calls, k) <==> RepeatedLater(KeysOf(calls), k)
  {
    var keys := KeysOf(calls);
    assert forall j :: 0 <= j < |keys| ==> keys[j] == KeyOf(calls[j]);
  }

  lemma FateIsPruned(calls: seq<Call>, outputs: seq<string>, k: nat)
    requires k < |calls| == |outputs|
    ensures Pruned(KeysOf(calls), outputs)[k] == Fate(calls, k, outputs[k])
  {
    ComesAgainMeans(calls, k);
    PrunedExactly(KeysOf(calls), outputs, k);
    hide Pruned, RepeatedLater, ComesAgain, KeysOf;
  }

  /** The observations after the pass are those before it, each with its fate. */
  lemma PrunedObservations(m: Messages, k: nat)
    requires k < |Observations(m, -1)|
    ensures var before, now := Observations(m, -1), Observations(PrunedCalls(m), -1);
            && |now| == |before| && before[k].output.Some?
            && now[k] == before[k].(output := Some(Fate(before, k, before[k].output.value)))
  {
    var t, slots := PrunedCalls(m), Slots(m);
    PrunedCallsChange(m);
    SameObservations(m, t, KeptOrMasked);
    SlotCalls(m);
    SlotCalls(t);
    PrunedCallsOutputs(m);
    assert Keys(m, slots) == KeysOf(Observations(m, -1));
    assert Outputs(t, slots)[k] == Output(t, slots[k]) && Outputs(m, slots)[k] == Output(m, slots[k]);
    hide Same, PrunedCalls, Slots, Observations, Keys, Outputs, Sound, Pruned, CallAt, KeptOrMasked, KeyOf, Fate;
    assert SameObserved(Observations(m, -1)[k], Observations(t, -1)[k], KeptOrMasked);
    FateIsPruned(Observations(m, -1), Outputs(m, slots), k);
  }

  lemma CutObservations(a: seq<Call>, b: seq<Call>)
    requires AllObserved(a, b, Cut)
    ensures KeysOf(a) == KeysOf(b)
    ensures forall k ::
              0 <= k < |a| ==> a[k].output.Some? && b[k] == a[k].(output := Some(Truncated(a[k].output.value)))
  {
    hide Truncated;
    assert forall k :: 0 <= k < |a| ==> SameObserved(a[k], b[k], Cut);
    assert forall k :: 0 <= k < |a| ==> KeysOf(a)[k] == KeysOf(b)[k];
  }

  lemma SameCallsSameFate(a: seq<Call>, b: seq<Call>, k: nat, own: string)
    requires |a| == |b| && k < |a| && forall j :: 0 <= j < |a| ==> b[j] == a[j].(output := b[j].output)
    ensures Fate(a, k, own) == Fate(b, k, own)
  {
    forall j | 0 <= j < |a| ensures Alike(a[k], a[j]) == Alike(b[k], b[j]) {
      assert b[j] == a[j].(output := b[j].output) && b[k] == a[k].(output := b[k].output);
    }
    assert ComesAgain(a, k) == ComesAgain(b, k);
  }

  /**
   * Each observation of the input, those of dropped reasoning aside, is still there, in order, for the same call:
   * masked if a later one is of the same call, else, in a list of more than eight, masked from the third to the seventh
   * from the end unless empty or marked already, else its own output cut to size.
   */
  lemma ObservationFate(msgs: Messages, k: nat)
    requires k < |Observations(msgs, KeepFrom(msgs))|
    ensures var was, now := Observations(msgs, KeepFrom(msgs)), Observations(Transformed(msgs), -1);
            && |now| == |was| && was[k].output.Some?
            && now[k] == was[k].(output := Some(Fate(was, k, Truncated(was[k].output.value))))
  {
    ShortenedObservations(msgs);
    var m := Shortened(msgs);
    var was := Observations(msgs, KeepFrom(msgs));
    CutObservations(was, Observations(m, -1));
    PrunedObservations(m, k);
    hide Observations, KeepFrom, Shortened, PrunedCalls, KeysOf, Fate, Truncated, AllObserved;
    SameCallsSameFate(was, Observations(m, -1), k, Truncated(was[k].output.value));
  }

  /**
   * Of calls whose arguments are JSON text: an observation is superseded when some later one has its tool and
   * arguments; when none has, it keeps its own output, cut to size, among the first two, the last six, and in a list of
   * up to eight.
   */
  lemma FateOfCalls(msgs: Messages, k: nat)
    requires k < |Observations(msgs, KeepFrom(msgs))|
    requires forall c :: c in Observations(msgs, KeepFrom(msgs)) ==> NoNul(c.args)
    ensures var was, now := Observations(msgs, KeepFrom(msgs)), Observations(Transformed(msgs), -1);
            && |now| == |was| && was[k].output.Some?
            && var again := exists j :: k < j < |was| && was[j].tool == was[k].tool && was[j].args == was[k].args;
               && (again ==> now[k].output == Some("[aegis: superseded by a later identical call]"))
               && (!again && (k < 2 || k >= |was| - 6 || |was| <= 8) ==>
                     now[k].output == Some(Truncated(was[k].output.value)))
  {
    var was := Observations(msgs, KeepFrom(msgs));
    ObservationFate(msgs, k);
    hide Observations, KeepFrom, Transformed, Truncated, NoNul;
    forall j | 0 <= j < |was|
      ensures Alike(was[k], was[j]) <==> was[j].tool == was[k].tool && was[j].args == was[k].args
    {
      assert was[j] in was && was[k] in was;
      KeysIdentifyCalls(was[k], was[j]);
    }
  }
}
