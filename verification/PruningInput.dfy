/** Pruning twice, said of the list that goes in. */
module PruningInput {
  import opened Text
  import opened Pruning
  import opened PruningPass
  import opened PruningTransform
  import opened PruningLaws
  import opened PruningRounds

  /** There is an output at s, listed as an observation or not: a state output behind an invocation's result is not. */
  predicate HasOutput(msgs: Messages, s: Slot) {
    && s.msg < |msgs| && msgs[s.msg].Message? && s.part < |msgs[s.msg].parts| && msgs[s.msg].parts[s.part].Part?
    && CallThere(msgs, s).Some? && CallThere(msgs, s).value.output.Some?
  }

  function CallThere(msgs: Messages, s: Slot): Option<Call>
    requires s.msg < |msgs| && msgs[s.msg].Message? && s.part < |msgs[s.msg].parts| && msgs[s.msg].parts[s.part].Part?
  {
    if s.inInv then msgs[s.msg].parts[s.part].inv else msgs[s.msg].parts[s.part].state
  }

  function OutputAt(msgs: Messages, s: Slot): string
    requires HasOutput(msgs, s)
  {
    CallThere(msgs, s).value.output.value
  }

  lemma SoundHasOutput(msgs: Messages, s: Slot)
    requires Sound(msgs, s)
    ensures HasOutput(msgs, s) && OutputAt(msgs, s) == Output(msgs, s)
  {
  }

  lemma OutputsOneByOne(msgs: Messages, p: OnOutputs)
    ensures AllOutputs(msgs, p) <==> forall s :: HasOutput(msgs, s) ==> p(OutputAt(msgs, s))
  {
    if AllOutputs(msgs, p) {
      forall s | HasOutput(msgs, s) ensures p(OutputAt(msgs, s)) {
        assert OfParts(msgs[s.msg].parts, p) && OfPart(msgs[s.msg].parts[s.part], p);
      }
    }
    if forall s :: HasOutput(msgs, s) ==> p(OutputAt(msgs, s)) {
      forall i | 0 <= i < |msgs| && msgs[i].Message? ensures OfParts(msgs[i].parts, p) {
        forall j | 0 <= j < |msgs[i].parts| ensures OfPart(msgs[i].parts[j], p) {
          if msgs[i].parts[j].Part? {
            assert HasOutput(msgs, Slot(i, j, true)) ==> p(OutputAt(msgs, Slot(i, j, true)));
            assert HasOutput(msgs, Slot(i, j, false)) ==> p(OutputAt(msgs, Slot(i, j, false)));
          }
        }
      }
    }
  }

  lemma SameOutputAt(a: Messages, b: Messages, r: Change, s: Slot)
    requires Same(a, b, r)
    ensures HasOutput(a, s) <==> HasOutput(b, s)
    ensures HasOutput(a, s) ==> r(OutputAt(a, s), OutputAt(b, s))
  {
    if s.msg < |a| && a[s.msg].Message? {
      assert SameMessage(a[s.msg], b[s.msg], r);
      if s.part < |a[s.msg].parts| {
        assert SamePart(a[s.msg].parts[s.part], b[s.msg].parts[s.part], r);
      }
    }
  }

  // ---------------------------------------------------------------- outputs that no observation lists

  lemma PutElsewhere(msgs: Messages, at: Slot, v: string, s: Slot)
    requires Sound(msgs, at) && s != at && HasOutput(msgs, s)
    ensures HasOutput(Put(msgs, at, v), s) && OutputAt(Put(msgs, at, v), s) == OutputAt(msgs, s)
  {
  }

  lemma {:induction false} PutAllElsewhere(msgs: Messages, slots: seq<Slot>, vs: seq<string>, s: Slot)
    requires AllSound(msgs, slots) && |slots| == |vs| && s !in slots && HasOutput(msgs, s)
    ensures HasOutput(PutAll(msgs, slots, vs), s) && OutputAt(PutAll(msgs, slots, vs), s) == OutputAt(msgs, s)
    decreases |slots|
  {
    if slots != [] {
      var n := |slots| - 1;
      PutAllLast(msgs, slots, vs);
      hide Sound, Put, PutAll, HasOutput, OutputAt;
      PutAllElsewhere(msgs, slots[..n], vs[..n], s);
      PutElsewhere(PutAll(msgs, slots[..n], vs[..n]), slots[n], vs[n], s);
    }
  }

  lemma PrunedCallsElsewhere(m: Messages, s: Slot)
    requires HasOutput(m, s) && s !in Slots(m)
    ensures HasOutput(PrunedCalls(m), s) && OutputAt(PrunedCalls(m), s) == OutputAt(m, s)
  {
    SlotsShape(m);
    var slots := Slots(m);
    var d := Deduped(Keys(m, slots), Outputs(m, slots));
    var deduped := PutAll(m, slots, d);
    PutAllOutputs(m, slots, d);
    hide Sound, HasOutput, OutputAt, Slots, Keys, Deduped, Elided, Outputs;
    PutAllElsewhere(m, slots, d, s);
    PutAllElsewhere(deduped, slots, Elided(Outputs(deduped, slots)), s);
  }

  // ---------------------------------------------------------------- what becomes of each output of the input

  /** The observation in slot k is masked: the same call comes again, or it is elided from the stale middle. */
  ghost predicate MaskedAt(m: Messages, k: nat)
    requires k < |Slots(m)| && AllSound(m, Slots(m))
  {
    var slots, n := Slots(m), |Slots(m)|;
    var c, out := CallAt(m, slots[k]), Output(m, slots[k]);
    || (exists j :: k < j < n && Alike(c, CallAt(m, slots[j])))
    || (n > 8 && 2 <= k < n - 6 && out != "" && !("[aegis:" <= out))
  }

  lemma MaskedAtMeans(m: Messages, k: nat)
    requires k < |Slots(m)| && AllSound(m, Slots(m))
    ensures MaskedAt(m, k) <==>
            || RepeatedLater(Keys(m, Slots(m)), k)
            || (InMiddle(k, |Slots(m)|) && Output(m, Slots(m)[k]) != "" && !(MASK <= Output(m, Slots(m)[k])))
  {
    hide Slots, CallAt, Sound;
    var keys := Keys(m, Slots(m));
    assert forall j :: 0 <= j < |keys| ==> keys[j] == KeyOf(CallAt(m, Slots(m)[j]));
  }

  ghost predicate Masked(m: Messages, s: Slot) {
    AllSound(m, Slots(m)) && exists k: nat :: k < |Slots(m)| && Slots(m)[k] == s && MaskedAt(m, k)
  }

  /** A masked output becomes a mask, every other stays. */
  lemma PrunedOutputAt(m: Messages, s: Slot)
    requires HasOutput(m, s)
    ensures HasOutput(PrunedCalls(m), s)
    ensures var out := OutputAt(PrunedCalls(m), s);
            if Masked(m, s) then out == SUPERSEDED || out == ELIDED else out == OutputAt(m, s)
  {
    SlotsShape(m);
    PrunedCallsOutputs(m);
    var slots, t := Slots(m), PrunedCalls(m);
    hide PrunedCalls, HasOutput, Slots, RepeatedLater, Sound, Output, Keys, KeptOrMasked, OutputAt, Pruned;
    if s in slots {
      var k: nat :| k < |slots| && slots[k] == s;
      assert Outputs(m, slots)[k] == Output(m, s) && Outputs(t, slots)[k] == Output(t, s);
      PrunedExactly(Keys(m, slots), Outputs(m, slots), k);
      SoundHasOutput(m, s);
      SoundHasOutput(t, s);
      OneSlot(slots, k, s);
      MaskedAtMeans(m, k);
      hide MaskedAt;
      assert Masked(m, s) <==> MaskedAt(m, k);
    } else {
      PrunedCallsElsewhere(m, s);
    }
  }

  lemma OneSlot(slots: seq<Slot>, k: nat, s: Slot)
    requires Lists.Distinct(slots) && k < |slots| && slots[k] == s
    ensures forall j: nat :: j < |slots| && slots[j] == s ==> j == k
  {
  }

  lemma SameKeys(a: Messages, b: Messages, r: Change, slots: seq<Slot>)
    requires Same(a, b, r) && AllSound(a, slots) && AllSound(b, slots)
    ensures Keys(a, slots) == Keys(b, slots)
  {
    forall k | 0 <= k < |slots| ensures Keys(a, slots)[k] == Keys(b, slots)[k] {
      var s := slots[k];
      assert Sound(a, s) && Sound(b, s);
      assert SameMessage(a[s.msg], b[s.msg], r);
      assert SamePart(a[s.msg].parts[s.part], b[s.msg].parts[s.part], r);
    }
  }

  lemma CutKeepsMask(x: string)
    ensures Truncated(x) == "" <==> x == ""
    ensures MASK <= Truncated(x) <==> MASK <= x
  {
    if |x| > MAX {
      CutOnce(x);
      hide Truncated, Marker;
      var y := Truncated(x);
      assert y[..MAX] == x[..MAX];
      assert forall i :: 0 <= i < |MASK| ==> y[i] == y[..MAX][i] && x[i] == x[..MAX][i];
    }
  }

  /** Which outputs are masked can be seen before anything is cut. */
  lemma SameMasked(a: Messages, b: Messages, s: Slot)
    requires Same(a, b, Cut)
    ensures Masked(a, s) <==> Masked(b, s)
  {
    SlotsShape(a);
    SlotsShape(b);
    SameSlots(a, b, Cut);
    SameKeys(a, b, Cut, Slots(a));
    var slots := Slots(a);
    hide Slots, Same, Sound, Keys, Truncated, RepeatedLater;
    forall k: nat | k < |slots| ensures MaskedAt(a, k) <==> MaskedAt(b, k) {
      hide HasOutput, OutputAt, Output, CallAt;
      SoundHasOutput(a, slots[k]);
      SoundHasOutput(b, slots[k]);
      SameOutputAt(a, b, Cut, slots[k]);
      CutKeepsMask(Output(a, slots[k]));
    }
    hide MaskedAt;
  }

  // ---------------------------------------------------------------- when a second transform changes nothing

  /**
   * An output of the input that one transform leaves in its final form: it is masked, short, or 52 characters too long.
   */
  ghost predicate FinalAt(m: Messages, s: Slot)
    requires HasOutput(m, s)
  {
    Masked(m, s) || ShortOrFiftyTwoOver(OutputAt(m, s))
  }

  lemma TransformedOutputAt(msgs: Messages, s: Slot)
    ensures HasOutput(Transformed(msgs), s) <==> HasOutput(Stripped(msgs), s)
    ensures HasOutput(Stripped(msgs), s)
            ==> (CutAlready(OutputAt(Transformed(msgs), s)) <==> FinalAt(Stripped(msgs), s))
  {
    var a, b := Stripped(msgs), Shortened(msgs);
    ShortenedChange(msgs);
    PrunedCallsChange(b);
    hide Same, Stripped, Shortened, PrunedCalls, HasOutput, OutputAt, Masked, Truncated, KeptOrMasked;
    SameOutputAt(a, b, Cut, s);
    SameOutputAt(b, Transformed(msgs), KeptOrMasked, s);
    if HasOutput(a, s) {
      SameMasked(a, b, s);
      PrunedOutputAt(b, s);
      CutSettles(OutputAt(a, s));
      MaskIsCut();
    }
  }

  lemma MaskIsCut()
    ensures CutAlready(SUPERSEDED) && CutAlready(ELIDED)
  {
    MasksAreMasks();
  }

  /**
   * A second transform changes nothing exactly when each output that goes in, those of dropped parts aside,
   * will be masked, has at most MAX characters, or has MAX + 52.
   */
  lemma SecondTransformExactly(msgs: Messages)
    ensures Transformed(Transformed(msgs)) == Transformed(msgs)
            <==> forall s :: HasOutput(Stripped(msgs), s) ==> FinalAt(Stripped(msgs), s)
  {
    TransformTwice(msgs);
    OutputsOneByOne(Transformed(msgs), CutAlready);
    hide Transformed, Stripped, HasOutput, OutputAt, CutAlready, FinalAt, AllOutputs;
    forall s
      ensures HasOutput(Transformed(msgs), s) <==> HasOutput(Stripped(msgs), s)
      ensures HasOutput(Stripped(msgs), s)
              ==> (CutAlready(OutputAt(Transformed(msgs), s)) <==> FinalAt(Stripped(msgs), s))
    {
      TransformedOutputAt(msgs, s);
    }
  }

  // ---------------------------------------------------------------- a list that changes

  /** One message with one call, whose output is out. */
  function OneCall(out: string): Messages { [Message([Part(false, Some(Call("read", "{}", Some(out))), None, "")])] }

  lemma OneCallFinal(out: string)
    ensures Stripped(OneCall(out)) == OneCall(out) && HasOutput(OneCall(out), Slot(0, 0, true))
    ensures OutputAt(OneCall(out), Slot(0, 0, true)) == out && !Masked(OneCall(out), Slot(0, 0, true))
  {
    var m := OneCall(out);
    var parts := m[0].parts;
    assert !HasReasoning(m[0]);
    assert m[..0] == [] && parts[..0] == [];
    assert ReasoningAt(m) == [];
    assert PartSlots(0, parts) == [Slot(0, 0, true)];
    assert Slots(m) == [Slot(0, 0, true)];
  }

  /** A single output over MAX, but not by 52, is cut again by a second transform. */
  lemma SecondTransformCanChange(out: string)
    requires |out| > MAX && |out| != MAX + 52
    ensures Transformed(Transformed(OneCall(out))) != Transformed(OneCall(out))
  {
    OneCallFinal(out);
    SecondTransformExactly(OneCall(out));
    hide Transformed, Stripped, HasOutput, OutputAt, Masked;
    assert !FinalAt(Stripped(OneCall(out)), Slot(0, 0, true));
  }
}
