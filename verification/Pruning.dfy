/** Deterministic pruning of the message list before a model call. */
module Pruning {
  import opened Lists
  import opened Text

  /** A tool call's name, its arguments as JSON text, and its output when that is a string. */
  datatype Call = Call(tool: string, args: string, output: Option<string>)

  /**
   * A message part: a missing one, or one that may be reasoning and may carry an invocation, a state, and other
   * content.
   */
  datatype Part = Missing | Part(reasoning: bool, inv: Option<Call>, state: Option<Call>, content: string)

  datatype Message = Opaque | Message(parts: seq<Part>)

  type Messages = seq<Message>

  const MAX := 8000
  const KEEP_FIRST := 2
  const KEEP_RECENT := 6
  const KEEP_REASONING := 3
  const SUPERSEDED := "[aegis: superseded by a later identical call]"
  const ELIDED := "[aegis: elided stale observation]"
  const MASK := "[aegis:"

  // ---------------------------------------------------------------- stale reasoning and oversized outputs

  function Decimal(n: nat): string {
    (if n < 10 then "" else Decimal(n / 10)) + ["0123456789"[n % 10]]
  }

  function Marker(
          dropped: nat): string { "\n... [aegis: truncated " + Decimal(dropped) + " chars to preserve context]" }

  function Truncated(s: string): string { if |s| > MAX then s[..MAX] + Marker(|s| - MAX) else s }

  function BoundCall(c: Option<Call>): Option<Call> {
    if c.Some? && c.value.output.Some? then Some(c.value.(output := Some(Truncated(c.value.output.value)))) else c
  }

  function BoundPart(p: Part): Part {
    if p.Missing? then p else p.(inv := BoundCall(p.inv), state := BoundCall(p.state))
  }

  function BoundParts(parts: seq<Part>): seq<Part> {
    if parts == [] then [] else BoundParts(parts[..|parts| - 1]) + [BoundPart(parts[|parts| - 1])]
  }

  predicate IsReasoning(p: Part) { p.Part? && p.reasoning }

  /** What the filter on a stale message keeps. */
  predicate Stays(p: Part) { p.Part? && !p.reasoning }

  function Strip(parts: seq<Part>): seq<Part> {
    if parts == [] then []
    else
      var p := parts[|parts| - 1];
      Strip(parts[..|parts| - 1]) + (if Stays(p) then [p] else [])
  }

  predicate HasReasoning(m: Message) { m.Message? && exists p :: p in m.parts && IsReasoning(p) }

  /** The positions of the reasoning-bearing messages, in order. */
  function ReasoningAt(msgs: Messages): (r: seq<nat>)
    ensures forall k :: 0 <= k < |r| ==> r[k] < |msgs|
  {
    if msgs == [] then []
    else ReasoningAt(msgs[..|msgs| - 1]) + (if HasReasoning(msgs[|msgs| - 1]) then [|msgs| - 1] else [])
  }

  function KeepFrom(msgs: Messages): int {
    var r := ReasoningAt(msgs);
    if |r| > KEEP_REASONING then r[|r| - KEEP_REASONING] else -1
  }

  function TrimMessage(m: Message, stale: bool): Message {
    if m.Opaque? then m else Message(BoundParts(if stale then Strip(m.parts) else m.parts))
  }

  function TrimFrom(msgs: Messages, keepFrom: int): Messages {
    if msgs == [] then []
    else
      var n := |msgs| - 1;
      TrimFrom(msgs[..n], keepFrom) + [TrimMessage(msgs[n], n < keepFrom)]
  }

  function Shortened(msgs: Messages): Messages { TrimFrom(msgs, KeepFrom(msgs)) }

  lemma {:induction false} BoundEach(parts: seq<Part>)
    ensures |BoundParts(parts)| == |parts|
    ensures forall j :: 0 <= j < |parts| ==> BoundParts(parts)[j] == BoundPart(parts[j])
  {
    hide BoundPart;
    if parts != [] {
      BoundEach(parts[..|parts| - 1]);
    }
  }

  lemma {:induction false} TrimEach(msgs: Messages, k: int)
    ensures |TrimFrom(msgs, k)| == |msgs|
    ensures forall i :: 0 <= i < |msgs| ==> TrimFrom(msgs, k)[i] == TrimMessage(msgs[i], i < k)
  {
    hide TrimMessage;
    if msgs != [] {
      TrimEach(msgs[..|msgs| - 1], k);
    }
  }

  // ---------------------------------------------------------------- the observation list

  /** Where an observation lives: message, part, and whether in the invocation or in the state. */
  datatype Slot = Slot(msg: nat, part: nat, inInv: bool)

  /** The field of a part that the list takes: the invocation's result before the state's output. */
  function Field(p: Part): Option<bool> {
    if p.Missing? then None
    else if p.inv.Some? && p.inv.value.output.Some? then Some(true)
    else if p.state.Some? && p.state.value.output.Some? then Some(false)
    else None
  }

  predicate Sound(msgs: Messages, s: Slot) {
    && s.msg < |msgs| && msgs[s.msg].Message? && s.part < |msgs[s.msg].parts|
    && Field(msgs[s.msg].parts[s.part]) == Some(s.inInv)
  }

  function PartSlots(i: nat, parts: seq<Part>): seq<Slot> {
    if parts == [] then []
    else
      var j := |parts| - 1;
      PartSlots(i, parts[..j]) + (match Field(parts[j]) case Some(b) => [Slot(i, j, b)] case None => [])
  }

  function Slots(msgs: Messages): seq<Slot> {
    if msgs == [] then []
    else
      var n := |msgs| - 1;
      Slots(msgs[..n]) + (if msgs[n].Message? then PartSlots(n, msgs[n].parts) else [])
  }

  function CallAt(msgs: Messages, s: Slot): Call
    requires Sound(msgs, s)
  {
    var p := msgs[s.msg].parts[s.part];
    if s.inInv then p.inv.value else p.state.value
  }

  function Output(msgs: Messages, s: Slot): string
    requires Sound(msgs, s)
  {
    CallAt(msgs, s).output.value
  }

  function KeyOf(c: Call): string { c.tool + "\0" + c.args }

  /** The setter of one observation. */
  function Put(msgs: Messages, s: Slot, v: string): Messages
    requires Sound(msgs, s)
  {
    var p := msgs[s.msg].parts[s.part];
    var c := Some(CallAt(msgs, s).(output := Some(v)));
    var p' := if s.inInv then p.(inv := c) else p.(state := c);
    msgs[s.msg := Message(msgs[s.msg].parts[s.part := p'])]
  }

  ghost predicate AllSound(msgs: Messages, slots: seq<Slot>) { forall k :: 0 <= k < |slots| ==> Sound(msgs, slots[k]) }

  lemma PutSound(msgs: Messages, s: Slot, v: string, s': Slot)
    requires Sound(msgs, s) && Sound(msgs, s')
    ensures Sound(Put(msgs, s, v), s')
    ensures CallAt(Put(msgs, s, v), s') == if s' == s then CallAt(msgs, s).(output := Some(v)) else CallAt(msgs, s')
  {
  }

  lemma PutSame(msgs: Messages, s: Slot)
    requires Sound(msgs, s)
    ensures Put(msgs, s, Output(msgs, s)) == msgs
  {
    var parts := msgs[s.msg].parts;
    assert parts[s.part := parts[s.part]] == parts;
  }

  lemma {:induction false} PartSlotsShape(i: nat, parts: seq<Part>)
    ensures forall k :: 0 <= k < |PartSlots(i, parts)| ==>
              var s := PartSlots(i, parts)[k]; s.msg == i && s.part < |parts| && Field(parts[s.part]) == Some(s.inInv)
    ensures Distinct(PartSlots(i, parts))
  {
    hide Field;
    if parts != [] {
      var j := |parts| - 1;
      PartSlotsShape(i, parts[..j]);
    }
  }

  lemma {:induction false} SlotsShape(msgs: Messages)
    ensures AllSound(msgs, Slots(msgs)) && Distinct(Slots(msgs))
  {
    if msgs != [] {
      var n := |msgs| - 1;
      var front, more := Slots(msgs[..n]), if msgs[n].Message? then PartSlots(n, msgs[n].parts) else [];
      SlotsShape(msgs[..n]);
      if msgs[n].Message? {
        PartSlotsShape(n, msgs[n].parts);
      }
      hide Field, PartSlots;
      forall k | 0 <= k < |front| ensures Sound(msgs, front[k]) && front[k].msg < n {
        assert Sound(msgs[..n], front[k]);
      }
      forall k | 0 <= k < |more| ensures Sound(msgs, more[k]) && more[k].msg == n {
      }
      assert Slots(msgs) == front + more;
      hide Sound, Slots;
    }
  }

  // ---------------------------------------------------------------- dedupe and elide, on the list of outputs

  predicate RepeatedLater(keys: seq<string>, i: nat)
    requires i < |keys|
  {
    exists j :: i < j < |keys| && keys[j] == keys[i]
  }

  /** All but the last of identical calls are masked. */
  function Deduped(keys: seq<string>, outputs: seq<string>): (r: seq<string>)
    requires |keys| == |outputs|
    ensures |r| == |outputs|
  {
    seq(|outputs|, i requires 0 <= i < |outputs| => if RepeatedLater(keys, i) then SUPERSEDED else outputs[i])
  }

  /** The stale middle of a long list. */
  predicate InMiddle(i: int, n: nat) { n > KEEP_FIRST + KEEP_RECENT && KEEP_FIRST <= i < n - KEEP_RECENT }

  function Elided(outputs: seq<string>): (r: seq<string>)
    ensures |r| == |outputs|
  {
    seq(|outputs|, i requires 0 <= i < |outputs| =>
      if InMiddle(i, |outputs|) && outputs[i] != "" && !(MASK <= outputs[i]) then ELIDED else outputs[i])
  }

  function Pruned(keys: seq<string>, outputs: seq<string>): (r: seq<string>)
    requires |keys| == |outputs|
    ensures |r| == |outputs|
  {
    Elided(Deduped(keys, outputs))
  }

  lemma MasksAreMasks()
    ensures MASK <= SUPERSEDED && MASK <= ELIDED && SUPERSEDED != "" && ELIDED != "" && |SUPERSEDED| <= MAX
            && |ELIDED| <= MAX
  {
  }

  /**
   * What becomes of each observation: masked if repeated later; masked if in the stale middle and not empty; else kept.
   */
  lemma PrunedObservation(keys: seq<string>, outputs: seq<string>, i: nat)
    requires |keys| == |outputs| && i < |outputs|
    ensures RepeatedLater(keys, i) ==> Pruned(keys, outputs)[i] == SUPERSEDED
    ensures InMiddle(i, |outputs|) ==> Pruned(keys, outputs)[i] == "" || MASK <= Pruned(keys, outputs)[i]
    ensures !RepeatedLater(keys, i) && !InMiddle(i, |outputs|) ==> Pruned(keys, outputs)[i] == outputs[i]
    ensures Pruned(keys, outputs)[i] != outputs[i]
            ==> Pruned(keys, outputs)[i] == SUPERSEDED || Pruned(keys, outputs)[i] == ELIDED
  {
    MasksAreMasks();
  }

  lemma PrunedExactly(keys: seq<string>, outputs: seq<string>, i: nat)
    requires |keys| == |outputs| && i < |outputs|
    ensures Pruned(keys, outputs)[i] ==
            if RepeatedLater(keys, i) then SUPERSEDED
            else if InMiddle(i, |outputs|) && outputs[i] != "" && !(MASK <= outputs[i]) then ELIDED
            else outputs[i]
  {
    MasksAreMasks();
  }

  /** Two calls with one key. */
  ghost predicate Alike(c: Call, d: Call) { c.tool + "\0" + c.args == d.tool + "\0" + d.args }

  /** Pruning leaves nothing for a second dedupe or a second elide to do. */
  lemma PruningIsIdempotent(keys: seq<string>, outputs: seq<string>)
    requires |keys| == |outputs|
    ensures Deduped(keys, Pruned(keys, outputs)) == Pruned(keys, outputs)
    ensures Elided(Pruned(keys, outputs)) == Pruned(keys, outputs)
  {
    var once := Pruned(keys, outputs);
    forall i | 0 <= i < |outputs| ensures Deduped(keys, once)[i] == once[i] && Elided(once)[i] == once[i] {
      PrunedObservation(keys, outputs, i);
      hide RepeatedLater;
    }
  }

  ghost function DigitValue(s: string): nat {
    if s == "" then 0
    else 10 * DigitValue(s[..|s| - 1]) + (if '0' <= s[|s| - 1] <= '9' then s[|s| - 1] as int - '0' as int else 0)
  }

  lemma {:induction false} DecimalReads(n: nat)
    ensures DigitValue(Decimal(n)) == n && (n > 0 ==> Decimal(n)[0] != '0')
    ensures forall c :: c in Decimal(n) ==> '0' <= c <= '9'
  {
    var s := Decimal(n);
    var digits := "0123456789";
    assert s[|s| - 1] == digits[n % 10];
    assert digits[n % 10] as int == '0' as int + n % 10;
    if n >= 10 {
      DecimalReads(n / 10);
      assert s[..|s| - 1] == Decimal(n / 10);
    } else {
      assert s[..|s| - 1] == "";
    }
  }

  /** What cutting to size does: nothing up to 8000 characters, else the first 8000 and how many were dropped. */
  lemma TruncatedReads(s: string)
    ensures |s| <= 8000 ==> Truncated(s) == s
    ensures |s| > 8000 ==>
              exists digits ::
                && DigitValue(digits) == |s| - 8000 && (forall c :: c in digits ==> '0' <= c <= '9')
                && Truncated(s) == s[..8000] + ("\n... [aegis: truncated " + digits + " chars to preserve context]")
  {
    if |s| > 8000 {
      DecimalReads(|s| - 8000);
      hide Decimal, DigitValue;
    }
  }

  /** JSON text holds no NUL, so equal keys mean the same tool and the same arguments, whatever the tool is called. */
  lemma KeysIdentifyCalls(c: Call, d: Call)
    requires NoNul(c.args) && NoNul(d.args)
    ensures KeyOf(c) == KeyOf(d) <==> c.tool == d.tool && c.args == d.args
  {
    if KeyOf(c) == KeyOf(d) {
      var s, m, n := KeyOf(c), |c.tool|, |d.tool|;
      assert s[m] == '\0' && s[n] == '\0';
      assert forall i :: m < i < |s| ==> s[i] == c.args[i - m - 1];
      assert forall i :: n < i < |s| ==> s[i] == d.args[i - n - 1];
      assert m == n;
      assert c.tool == s[..m] && d.tool == s[..n] && c.args == s[m + 1..] && d.args == s[n + 1..];
    }
  }
}
