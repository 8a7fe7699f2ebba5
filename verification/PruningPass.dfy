/** The pruning pass over a message list, in place. */
module PruningPass {
  import opened Lists
  import opened Text
  import opened Pruning

  ghost function PutAll(msgs: Messages, slots: seq<Slot>, vs: seq<string>): (r: Messages)
    requires AllSound(msgs, slots) && |slots| == |vs|
    ensures forall s :: Sound(msgs, s) ==> Sound(r, s)
    decreases |slots|
  {
    if slots == [] then msgs
    else
      var n := |slots| - 1;
      assert forall k :: 0 <= k < n ==> slots[..n][k] == slots[k];
      var before := PutAll(msgs, slots[..n], vs[..n]);
      assert Sound(msgs, slots[n]);
      assert forall s :: Sound(before, s) ==> Sound(Put(before, slots[n], vs[n]), s) by {
        forall s | Sound(before, s) ensures Sound(Put(before, slots[n], vs[n]), s) {
          PutSound(before, slots[n], vs[n], s);
        }
      }
      Put(before, slots[n], vs[n])
  }

  ghost function Outputs(msgs: Messages, slots: seq<Slot>): (r: seq<string>)
    requires AllSound(msgs, slots)
    ensures |r| == |slots|
  {
    seq(|slots|, k requires 0 <= k < |slots| => Output(msgs, slots[k]))
  }

  ghost function Keys(msgs: Messages, slots: seq<Slot>): (r: seq<string>)
    requires AllSound(msgs, slots)
    ensures |r| == |slots|
  {
    seq(|slots|, k requires 0 <= k < |slots| => KeyOf(CallAt(msgs, slots[k])))
  }

  /** PutAll changes the outputs at its slots, and no other call. */
  lemma {:induction false} PutAllCalls(msgs: Messages, slots: seq<Slot>, vs: seq<string>, s: Slot)
    requires AllSound(msgs, slots) && |slots| == |vs| && Distinct(slots) && Sound(msgs, s)
    ensures s !in slots ==> CallAt(PutAll(msgs, slots, vs), s) == CallAt(msgs, s)
    ensures forall k :: 0 <= k < |slots| && slots[k] == s ==>
              CallAt(PutAll(msgs, slots, vs), s) == CallAt(msgs, s).(output := Some(vs[k]))
    decreases |slots|
  {
    hide Sound, Put, CallAt;
    if slots != [] {
      var n := |slots| - 1;
      assert forall k :: 0 <= k < n ==> slots[..n][k] == slots[k];
      PutAllCalls(msgs, slots[..n], vs[..n], s);
      assert Sound(msgs, slots[n]);
      PutSound(PutAll(msgs, slots[..n], vs[..n]), slots[n], vs[n], s);
      assert slots == slots[..n] + [slots[n]];
    }
  }

  lemma PutAllOutputs(msgs: Messages, slots: seq<Slot>, vs: seq<string>)
    requires AllSound(msgs, slots) && |slots| == |vs| && Distinct(slots)
    ensures AllSound(PutAll(msgs, slots, vs), slots)
    ensures Outputs(PutAll(msgs, slots, vs), slots) == vs && Keys(PutAll(msgs, slots, vs), slots) == Keys(msgs, slots)
  {
    hide Sound, CallAt, PutAll;
    var r := PutAll(msgs, slots, vs);
    forall k | 0 <= k < |slots|
      ensures Sound(r, slots[k]) && CallAt(r, slots[k]) == CallAt(msgs, slots[k]).(output := Some(vs[k]))
    {
      assert Sound(msgs, slots[k]);
      PutAllCalls(msgs, slots, vs, slots[k]);
    }
  }

  lemma PutAllLast(msgs: Messages, slots: seq<Slot>, vs: seq<string>)
    requires AllSound(msgs, slots) && |slots| == |vs| && slots != []
    ensures var n := |slots| - 1;
            AllSound(msgs, slots[..n]) && Sound(msgs, slots[n]) && Sound(PutAll(msgs, slots[..n], vs[..n]), slots[n])
            && PutAll(msgs, slots, vs) == Put(PutAll(msgs, slots[..n], vs[..n]), slots[n], vs[n])
  {
    hide Sound, Put;
    assert forall k :: 0 <= k < |slots| - 1 ==> slots[..|slots| - 1][k] == slots[k];
  }

  /** Writing back what is there changes nothing. */
  lemma {:induction false} PutAllSame(msgs: Messages, slots: seq<Slot>, vs: seq<string>)
    requires AllSound(msgs, slots) && vs == Outputs(msgs, slots)
    ensures PutAll(msgs, slots, vs) == msgs
    decreases |slots|
  {
    if slots != [] {
      var n := |slots| - 1;
      PutAllLast(msgs, slots, vs);
      hide Sound, Put, PutAll, Output;
      assert vs[..n] == Outputs(msgs, slots[..n]) && vs[n] == Output(msgs, slots[n]);
      PutAllSame(msgs, slots[..n], vs[..n]);
      PutSame(msgs, slots[n]);
    }
  }

  // ---------------------------------------------------------------- nothing but outputs changes

  /** How an output may change. */
  type Change = (string, string) -> bool

  ghost predicate SameCall(c: Option<Call>, d: Option<Call>, r: Change) {
    && c.Some? == d.Some?
    && (c.Some? ==>
          && c.value.tool == d.value.tool && c.value.args == d.value.args
          && c.value.output.Some? == d.value.output.Some?
          && (c.value.output.Some? ==> r(c.value.output.value, d.value.output.value)))
  }

  /** The same part up to its outputs, which are related by r. */
  ghost predicate SamePart(p: Part, q: Part, r: Change) {
    && p.Part? == q.Part?
    && (p.Part? ==>
          && p.reasoning == q.reasoning && p.content == q.content
          && SameCall(p.inv, q.inv, r) && SameCall(p.state, q.state, r))
  }

  ghost predicate SameParts(a: seq<Part>, b: seq<Part>, r: Change) {
    |a| == |b| && forall j :: 0 <= j < |a| ==> SamePart(a[j], b[j], r)
  }

  ghost predicate SameMessage(a: Message, b: Message, r: Change) {
    a.Message? == b.Message? && (a.Message? ==> SameParts(a.parts, b.parts, r))
  }

  ghost predicate Same(a: Messages, b: Messages, r: Change) {
    |a| == |b| && forall i :: 0 <= i < |a| ==> SameMessage(a[i], b[i], r)
  }

  ghost predicate Reflexive(r: Change) { forall x :: r(x, x) }

  ghost predicate Composes(r: Change, r': Change, r'': Change) { forall x, y, z :: r(x, y) && r'(y, z) ==> r''(x, z) }

  lemma SameRefl(a: Messages, r: Change)
    requires Reflexive(r)
    ensures Same(a, a, r)
  {
  }

  lemma SamePartTrans(p: Part, q: Part, s: Part, r: Change, r': Change, r'': Change)
    requires SamePart(p, q, r) && SamePart(q, s, r') && Composes(r, r', r'')
    ensures SamePart(p, s, r'')
  {
  }

  lemma SameTrans(a: Messages, b: Messages, c: Messages, r: Change, r': Change, r'': Change)
    requires Same(a, b, r) && Same(b, c, r') && Composes(r, r', r'')
    ensures Same(a, c, r'')
  {
    hide SamePart, Composes;
    forall i | 0 <= i < |a| ensures SameMessage(a[i], c[i], r'') {
      assert SameMessage(a[i], b[i], r) && SameMessage(b[i], c[i], r');
      if a[i].Message? {
        forall j | 0 <= j < |a[i].parts| ensures SamePart(a[i].parts[j], c[i].parts[j], r'') {
          SamePartTrans(a[i].parts[j], b[i].parts[j], c[i].parts[j], r, r', r'');
        }
      }
    }
  }

  lemma SameField(p: Part, q: Part, r: Change)
    requires SamePart(p, q, r)
    ensures Field(p) == Field(q)
  {
  }

  lemma {:induction false} SamePartSlots(i: nat, a: seq<Part>, b: seq<Part>, r: Change)
    requires SameParts(a, b, r)
    ensures PartSlots(i, a) == PartSlots(i, b)
  {
    hide Field, SamePart;
    if a != [] {
      SameField(a[|a| - 1], b[|a| - 1], r);
      SamePartSlots(i, a[..|a| - 1], b[..|b| - 1], r);
    }
  }

  /** The list of observations does not move. */
  lemma {:induction false} SameSlots(a: Messages, b: Messages, r: Change)
    requires Same(a, b, r)
    ensures Slots(a) == Slots(b)
  {
    hide PartSlots, SameParts;
    if a != [] {
      var n := |a| - 1;
      SameSlots(a[..n], b[..n], r);
      assert SameMessage(a[n], b[n], r);
      if a[n].Message? {
        SamePartSlots(n, a[n].parts, b[n].parts, r);
      }
    }
  }

  lemma PutChanges(a: Messages, msgs: Messages, s: Slot, v: string, r: Change)
    requires Sound(a, s) && Sound(msgs, s) && Same(a, msgs, r) && r(Output(a, s), v)
    ensures Same(a, Put(msgs, s, v), r)
  {
    var now := Put(msgs, s, v);
    assert SameMessage(a[s.msg], msgs[s.msg], r);
    assert SamePart(a[s.msg].parts[s.part], msgs[s.msg].parts[s.part], r);
    assert SamePart(a[s.msg].parts[s.part], now[s.msg].parts[s.part], r);
    hide SamePart, Sound;
    assert SameMessage(a[s.msg], now[s.msg], r);
    hide SameMessage;
  }

  /** Rewriting observations changes nothing but their outputs, each from what it was to what is written. */
  lemma {:induction false} PutAllChanges(msgs: Messages, slots: seq<Slot>, vs: seq<string>, r: Change)
    requires AllSound(msgs, slots) && |slots| == |vs| && Reflexive(r)
    requires forall k :: 0 <= k < |vs| ==> r(Outputs(msgs, slots)[k], vs[k])
    ensures Same(msgs, PutAll(msgs, slots, vs), r)
    decreases |slots|
  {
    if slots == [] {
      SameRefl(msgs, r);
    } else {
      var n := |slots| - 1;
      PutAllLast(msgs, slots, vs);
      hide Sound, Put, Same, Reflexive, PutAll, Output;
      assert Output(msgs, slots[n]) == Outputs(msgs, slots)[n];
      assert Outputs(msgs, slots[..n]) == Outputs(msgs, slots)[..n];
      PutAllChanges(msgs, slots[..n], vs[..n], r);
      PutChanges(msgs, PutAll(msgs, slots[..n], vs[..n]), slots[n], vs[n], r);
    }
  }

  ghost predicate Anyhow(x: string, y: string) { true }

  /** Kept as it was, or masked. */
  ghost predicate KeptOrMasked(x: string, y: string) { y == x || y == SUPERSEDED || y == ELIDED }

  /** Dedupe, then elide. */
  ghost function PrunedCalls(msgs: Messages): Messages {
    SlotsShape(msgs);
    var slots := Slots(msgs);
    var deduped := PutAll(msgs, slots, Deduped(Keys(msgs, slots), Outputs(msgs, slots)));
    assert AllSound(deduped, slots) by { PutAllOutputs(msgs, slots, Deduped(Keys(msgs, slots), Outputs(msgs, slots))); }
    PutAll(deduped, slots, Elided(Outputs(deduped, slots)))
  }

  /** Every observation ends as Pruned says; the list itself, and every key, stay. */
  lemma PrunedCallsOutputs(msgs: Messages)
    ensures Slots(PrunedCalls(msgs)) == Slots(msgs) && AllSound(msgs, Slots(msgs))
            && AllSound(PrunedCalls(msgs), Slots(msgs))
    ensures Keys(PrunedCalls(msgs), Slots(msgs)) == Keys(msgs, Slots(msgs))
    ensures Outputs(PrunedCalls(msgs), Slots(msgs)) == Pruned(Keys(msgs, Slots(msgs)), Outputs(msgs, Slots(msgs)))
  {
    SlotsShape(msgs);
    hide Sound, Put, Outputs, Keys, Deduped, Elided, Slots, Same;
    var slots := Slots(msgs);
    var d := Deduped(Keys(msgs, slots), Outputs(msgs, slots));
    var deduped := PutAll(msgs, slots, d);
    PutAllOutputs(msgs, slots, d);
    PutAllChanges(msgs, slots, d, Anyhow);
    SameSlots(msgs, deduped, Anyhow);
    var e := Elided(d);
    PutAllOutputs(deduped, slots, e);
    PutAllChanges(deduped, slots, e, Anyhow);
    SameSlots(deduped, PutAll(deduped, slots, e), Anyhow);
  }

  /** Nothing but outputs changes, and an output is kept or masked. */
  lemma PrunedCallsChange(msgs: Messages)
    ensures Same(msgs, PrunedCalls(msgs), KeptOrMasked)
  {
    SlotsShape(msgs);
    var slots := Slots(msgs);
    var outputs := Outputs(msgs, slots);
    var d := Deduped(Keys(msgs, slots), outputs);
    assert forall k :: 0 <= k < |d| ==> KeptOrMasked(outputs[k], d[k]);
    assert forall k :: 0 <= k < |d| ==> KeptOrMasked(d[k], Elided(d)[k]);
    hide Slots, Deduped, Elided, Outputs, Keys, Sound, Same;
    var deduped := PutAll(msgs, slots, d);
    PutAllOutputs(msgs, slots, d);
    PutAllChanges(msgs, slots, d, KeptOrMasked);
    PutAllChanges(deduped, slots, Elided(d), KeptOrMasked);
    SameTrans(msgs, deduped, PrunedCalls(msgs), KeptOrMasked, KeptOrMasked, KeptOrMasked);
  }

  /** A second dedupe and elide change nothing. */
  lemma PruningCallsTwice(msgs: Messages)
    ensures PrunedCalls(PrunedCalls(msgs)) == PrunedCalls(msgs)
  {
    PrunedCallsOutputs(msgs);
    var once, slots := PrunedCalls(msgs), Slots(msgs);
    var keys := Keys(msgs, slots);
    PruningIsIdempotent(keys, Outputs(msgs, slots));
    hide Sound, Put, Outputs, Keys, Deduped, Elided, Slots, Pruned;
    PutAllSame(once, slots, Outputs(once, slots));
    assert Deduped(keys, Outputs(once, slots)) == Outputs(once, slots);
    assert Elided(Outputs(once, slots)) == Outputs(once, slots);
    PrunedCallsUnfolds(once, slots);
  }

  lemma PrunedCallsUnfolds(msgs: Messages, slots: seq<Slot>)
    requires slots == Slots(msgs) && AllSound(msgs, slots)
    requires Deduped(Keys(msgs, slots), Outputs(msgs, slots)) == Outputs(msgs, slots)
    requires Elided(Outputs(msgs, slots)) == Outputs(msgs, slots)
    ensures PrunedCalls(msgs) == msgs
  {
    hide Sound, Put, Outputs, Keys, Deduped, Elided, Slots;
    PutAllSame(msgs, slots, Outputs(msgs, slots));
  }
}
