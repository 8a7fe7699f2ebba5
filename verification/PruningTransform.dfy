/** The transform itself, and what it promises about whole message lists. */
module PruningTransform {
  import opened Lists
  import opened Pruning
  import opened PruningPass

  /** The message list the model sees. */
  ghost function Transformed(msgs: Messages): Messages { PrunedCalls(Shortened(msgs)) }

  class Transform {
    var msgs: Messages

    constructor (msgs: Messages)
      ensures this.msgs == msgs
    {
      this.msgs := msgs;
    }

    method ReasoningMessages() returns (r: seq<nat>)
      ensures r == ReasoningAt(msgs)
    {
      r := [];
      for i := 0 to |msgs|
        invariant r == ReasoningAt(msgs[..i])
      {
        assert msgs[..i + 1][..i] == msgs[..i];
        if HasReasoning(msgs[i]) {
          r := r + [i];
        }
      }
      assert msgs[..|msgs|] == msgs;
    }

    /** Strip reasoning from the messages before the window, and bound every output. */
    method StripAndBound()
      modifies this
      ensures msgs == Shortened(old(msgs))
    {
      hide HasReasoning, BoundParts, Strip, TrimFrom;
      ghost var was := msgs;
      var reasoning := ReasoningMessages();
      var keepFrom := if |reasoning| > KEEP_REASONING then reasoning[|reasoning| - KEEP_REASONING] else -1;
      assert keepFrom == KeepFrom(was);
      hide KeepFrom, ReasoningAt, TrimMessage;
      ghost var done: Messages := [];
      TrimNone(was, keepFrom);
      for i := 0 to |msgs|
        invariant |done| == i && done == TrimFrom(was[..i], keepFrom)
        invariant |msgs| == |was| && msgs == done + was[i..]
      {
        ghost var out := TrimMessage(was[i], i < keepFrom);
        TrimOne(was, keepFrom, i);
        Splice(done, was[i..], out);
        TrimMessageIs(was[i], i < keepFrom);
        done := done + [out];
        if msgs[i].Opaque? {
          continue;
        }
        BoundMessage(i, if i < keepFrom then Strip(msgs[i].parts) else msgs[i].parts);
      }
      assert was[..|was|] == was && done + was[|was|..] == done;
    }

    /** One message's parts, cut to size one by one. */
    method BoundMessage(i: nat, parts: seq<Part>)
      requires i < |msgs|
      modifies this
      ensures msgs == old(msgs)[i := Message(BoundParts(parts))]
    {
      hide BoundPart, BoundParts;
      ghost var was := msgs;
      ghost var done: seq<Part> := [];
      msgs := msgs[i := Message(parts)];
      BoundNone(parts);
      for j := 0 to |parts|
        invariant |done| == j && done == BoundParts(parts[..j])
        invariant msgs == was[i := Message(done + parts[j..])]
      {
        ghost var out := BoundPart(parts[j]);
        BoundOne(parts, j);
        Splice(done, parts[j..], out);
        var now := msgs[i].parts;
        msgs := msgs[i := Message(now[j := BoundPart(now[j])])];
        done := done + [out];
      }
      assert parts[..|parts|] == parts && done + parts[|parts|..] == done;
    }

    /** Collect the observations in order. */
    method Collect() returns (slots: seq<Slot>, keys: seq<string>)
      ensures slots == Slots(msgs) && AllSound(msgs, slots) && keys == Keys(msgs, slots)
    {
      slots := [];
      for i := 0 to |msgs|
        invariant slots == Slots(msgs[..i])
      {
        assert msgs[..i + 1][..i] == msgs[..i];
        if msgs[i].Message? {
          var found := CollectParts(i, msgs[i].parts);
          slots := slots + found;
        }
      }
      assert msgs[..|msgs|] == msgs;
      SlotsShape(msgs);
      keys := seq(|slots|, k requires 0 <= k < |slots| && AllSound(msgs, slots) reads this =>
                    KeyOf(CallAt(msgs, slots[k])));
    }

    /** Mask all but the last of identical calls. */
    method MaskRepeats(slots: seq<Slot>, keys: seq<string>)
      requires slots == Slots(msgs) && AllSound(msgs, slots) && keys == Keys(msgs, slots)
      modifies this
      ensures AllSound(old(msgs), slots)
      ensures msgs == PutAll(old(msgs), slots, Deduped(keys, Outputs(old(msgs), slots)))
      ensures AllSound(msgs, slots) && forall i :: 0 <= i < |slots| ==>
                Outputs(msgs, slots)[i]
                == if exists j :: i < j < |keys| && keys[j] == keys[i]
                   then "[aegis: superseded by a later identical call]"
                   else Outputs(old(msgs), slots)[i]
    {
      ghost var was := msgs;
      SlotsShape(was);
      hide Sound, Put, CallAt, Slots, RepeatedLater, Outputs;
      ghost var target := Deduped(keys, Outputs(was, slots));
      var last := LastPositions(keys);
      for i := 0 to |slots|
        invariant AllSound(was, slots[..i])
        invariant msgs == PutAll(was, slots[..i], target[..i])
      {
        Advance(was, slots, target, i);
        OutputsAt(was, slots, i);
        assert target[i] == if RepeatedLater(keys, i) then SUPERSEDED else Output(was, slots[i]);
        if last[keys[i]] != i {
          msgs := Put(msgs, slots[i], SUPERSEDED);
        } else {
          PutSame(msgs, slots[i]);
        }
      }
      assert slots[..|slots|] == slots && target[..|slots|] == target;
      PutAllOutputs(was, slots, target);
      DedupedMeans(keys, Outputs(was, slots));
    }

    /** Elide the stale middle. */
    method ElideMiddle(slots: seq<Slot>)
      requires AllSound(msgs, slots) && Distinct(slots)
      modifies this
      ensures AllSound(old(msgs), slots)
      ensures msgs == PutAll(old(msgs), slots, Elided(Outputs(old(msgs), slots)))
      ensures AllSound(msgs, slots) && forall i :: 0 <= i < |slots| ==>
                var out := Outputs(old(msgs), slots)[i];
                Outputs(msgs, slots)[i]
                == if |slots| > 8 && 2 <= i < |slots| - 6 && out != "" && !("[aegis:" <= out)
                   then "[aegis: elided stale observation]" else out
    {
      hide AllSound, Distinct, Sound, Put, Output, ElidedTo, PutAll, Elided, Outputs;
      ghost var was := msgs;
      ElidedEnds(was, slots);
      if |slots| > KEEP_FIRST + KEEP_RECENT {
        for i := KEEP_FIRST to |slots| - KEEP_RECENT
          invariant msgs == ElidedTo(was, slots, i)
        {
          ElideOne(was, slots, i);
          var cur := Output(msgs, slots[i]);
          if cur != "" && !(MASK <= cur) {
            msgs := Put(msgs, slots[i], ELIDED);
          }
        }
      }
      PutAllOutputs(was, slots, Elided(Outputs(was, slots)));
      ElidedMeans(Outputs(was, slots));
    }

    method Run()
      modifies this
      ensures msgs == Transformed(old(msgs))
    {
      StripAndBound();
      ghost var trimmed := msgs;
      var slots, keys := Collect();
      SlotsShape(msgs);
      MaskRepeats(slots, keys);
      PutAllOutputs(trimmed, slots, Deduped(keys, Outputs(trimmed, slots)));
      hide Sound, Put, CallAt, Slots, Deduped, Elided;
      ElideMiddle(slots);
    }
  }

  lemma BoundNone(parts: seq<Part>)
    ensures BoundParts(parts[..0]) == [] && [] + parts[0..] == parts
  {
  }

  lemma BoundOne(parts: seq<Part>, j: nat)
    requires j < |parts|
    ensures BoundParts(parts[..j + 1]) == BoundParts(parts[..j]) + [BoundPart(parts[j])]
            && parts[j..][1..] == parts[j + 1..]
  {
    hide BoundPart;
    assert parts[..j + 1][..j] == parts[..j];
  }

  lemma TrimMessageIs(m: Message, stale: bool)
    ensures TrimMessage(m, stale)
            == if m.Opaque? then m else Message(BoundParts(if stale then Strip(m.parts) else m.parts))
  {
  }

  lemma TrimNone(msgs: Messages, k: int)
    ensures TrimFrom(msgs[..0], k) == [] && [] + msgs[0..] == msgs
  {
  }

  lemma TrimOne(msgs: Messages, k: int, i: nat)
    requires i < |msgs|
    ensures TrimFrom(msgs[..i + 1], k) == TrimFrom(msgs[..i], k) + [TrimMessage(msgs[i], i < k)]
            && msgs[i..][1..] == msgs[i + 1..]
  {
    hide TrimMessage;
    assert msgs[..i + 1][..i] == msgs[..i];
  }

  method CollectParts(i: nat, parts: seq<Part>) returns (slots: seq<Slot>)
    ensures slots == PartSlots(i, parts)
  {
    slots := [];
    for j := 0 to |parts|
      invariant slots == PartSlots(i, parts[..j])
    {
      assert parts[..j + 1][..j] == parts[..j];
      match Field(parts[j]) {
        case Some(b) => slots := slots + [Slot(i, j, b)];
        case None =>
      }
    }
    assert parts[..|parts|] == parts;
  }

  /** The map from each key to its last position. */
  method LastPositions(keys: seq<string>) returns (last: map<string, nat>)
    ensures forall i :: 0 <= i < |keys| ==> keys[i] in last
    ensures forall i :: 0 <= i < |keys| ==> (last[keys[i]] != i <==> RepeatedLater(keys, i))
  {
    last := map[];
    for i := 0 to |keys|
      invariant forall k :: k in last <==> exists j :: 0 <= j < i && keys[j] == k
      invariant forall k ::
                  k in last ==> last[k] < i && keys[last[k]] == k && forall j :: last[k] < j < i ==> keys[j] != k
    {
      last := last[keys[i] := i];
    }
  }

  /** One more slot of a list that is being rewritten from the front. */
  lemma Advance(was: Messages, slots: seq<Slot>, target: seq<string>, i: nat)
    requires AllSound(was, slots) && Distinct(slots) && |target| == |slots| && i < |slots|
    ensures AllSound(was, slots[..i]) && AllSound(was, slots[..i + 1])
    ensures var now := PutAll(was, slots[..i], target[..i]);
            Sound(now, slots[i]) && Sound(was, slots[i]) && Output(now, slots[i]) == Output(was, slots[i])
            && Put(now, slots[i], target[i]) == PutAll(was, slots[..i + 1], target[..i + 1])
  {
    assert Sound(was, slots[i]);
    PutAllCalls(was, slots[..i], target[..i], slots[i]);
    assert slots[..i + 1][..i] == slots[..i] && target[..i + 1][..i] == target[..i];
    hide Sound, Put;
  }

  /** The list when the elide pass has reached slot i. */
  ghost function ElidedTo(was: Messages, slots: seq<Slot>, i: nat): Messages
    requires AllSound(was, slots) && i <= |slots|
  {
    PutAll(was, slots[..i], Elided(Outputs(was, slots))[..i])
  }

  lemma OutsideKept(was: Messages, slots: seq<Slot>)
    requires AllSound(was, slots)
    ensures forall i ::
              0 <= i < |slots| && !InMiddle(i, |slots|) ==> Elided(Outputs(was, slots))[i] == Outputs(was, slots)[i]
  {
    hide Outputs;
  }

  /** Nothing changes before the stale middle or after it. */
  lemma ElidedEnds(was: Messages, slots: seq<Slot>)
    requires AllSound(was, slots) && Distinct(slots)
    ensures var all := PutAll(was, slots, Elided(Outputs(was, slots)));
            if |slots| > KEEP_FIRST + KEEP_RECENT then
              ElidedTo(was, slots, KEEP_FIRST) == was && ElidedTo(was, slots, |slots| - KEEP_RECENT) == all
            else all == was
  {
    hide Outputs, Elided, Sound, AllSound, Distinct, PutAll;
    var target := Elided(Outputs(was, slots));
    OutsideKept(was, slots);
    if |slots| > KEEP_FIRST + KEEP_RECENT {
      KeepsAll(was, slots, target, KEEP_FIRST);
      KeepsRest(was, slots, target, |slots| - KEEP_RECENT);
    } else {
      KeepsAll(was, slots, target, |slots|);
      assert slots[..|slots|] == slots && target[..|slots|] == target;
    }
  }

  lemma OutputsAt(msgs: Messages, slots: seq<Slot>, i: nat)
    requires AllSound(msgs, slots) && i < |slots|
    ensures Outputs(msgs, slots)[i] == Output(msgs, slots[i])
  {
  }

  lemma DedupedMeans(keys: seq<string>, outputs: seq<string>)
    requires |keys| == |outputs|
    ensures forall i :: 0 <= i < |outputs| ==>
              Deduped(keys, outputs)[i]
              == if exists j :: i < j < |keys| && keys[j] == keys[i]
                 then "[aegis: superseded by a later identical call]"
                 else outputs[i]
  {
  }

  lemma ElidedMeans(outputs: seq<string>)
    ensures forall i :: 0 <= i < |outputs| ==>
              Elided(outputs)[i]
              == if |outputs| > 8 && 2 <= i < |outputs| - 6 && outputs[i] != "" && !("[aegis:" <= outputs[i])
                 then "[aegis: elided stale observation]" else outputs[i]
  {
  }

  /** One more slot of the stale middle. */
  lemma ElideOne(was: Messages, slots: seq<Slot>, i: nat)
    requires AllSound(was, slots) && Distinct(slots) && i < |slots| && InMiddle(i, |slots|)
    ensures var now := ElidedTo(was, slots, i);
            Sound(now, slots[i])
            && var cur := Output(now, slots[i]);
               (if cur != "" && !(MASK <= cur) then Put(now, slots[i], ELIDED) else now) == ElidedTo(was, slots, i + 1)
  {
    var target := Elided(Outputs(was, slots));
    Advance(was, slots, target, i);
    var now := ElidedTo(was, slots, i);
    var cur := Output(now, slots[i]);
    assert target[i] == if cur != "" && !(MASK <= cur) then ELIDED else cur;
    PutSame(now, slots[i]);
  }

  /** A prefix whose targets are what is there already. */
  lemma KeepsAll(was: Messages, slots: seq<Slot>, target: seq<string>, n: nat)
    requires AllSound(was, slots) && |target| == |slots| && n <= |slots|
    requires forall i :: 0 <= i < n ==> target[i] == Outputs(was, slots)[i]
    ensures AllSound(was, slots[..n]) && PutAll(was, slots[..n], target[..n]) == was
  {
    assert AllSound(was, slots[..n]);
    assert target[..n] == Outputs(was, slots[..n]);
    PutAllSame(was, slots[..n], target[..n]);
  }

  /** A suffix whose targets are what is there already. */
  lemma {:induction false} KeepsRest(was: Messages, slots: seq<Slot>, target: seq<string>, n: nat)
    requires AllSound(was, slots) && Distinct(slots) && |target| == |slots| && n <= |slots|
    requires forall i :: n <= i < |slots| ==> target[i] == Outputs(was, slots)[i]
    ensures AllSound(was, slots[..n]) && PutAll(was, slots[..n], target[..n]) == PutAll(was, slots, target)
    decreases |slots| - n
  {
    hide Sound, Put;
    if n < |slots| {
      Advance(was, slots, target, n);
      PutSame(PutAll(was, slots[..n], target[..n]), slots[n]);
      KeepsRest(was, slots, target, n + 1);
    } else {
      assert slots[..n] == slots && target[..n] == target;
    }
  }
}
