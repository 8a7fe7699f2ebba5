/** The stuck detector over an agent's trajectory. */
module Stuck {
  import opened Text

  datatype Step = Step(tool: string, args: string, obs: string, err: bool, kind: string)

  datatype Reason = NotStuck | RepeatedAction | RepeatedError | Monologue | PingPong | Condensing

  datatype Thresholds = Thresholds(repeatedAction: int, repeatedError: int, monologue: int, pingPongCycles: int,
                                   condensations: int)

  const DEFAULTS := Thresholds(4, 3, 3, 3, 10)

  function Key(s: Step): string { s.tool + "\0" + s.args + "\0" + s.obs }

  function Act(s: Step): string { s.tool + "\0" + s.args }

  // ---------------------------------------------------------------- specification

  function CondenseCount(steps: seq<Step>): nat {
    if steps == [] then 0
    else CondenseCount(steps[..|steps| - 1]) + (if steps[|steps| - 1].kind == "condense" then 1 else 0)
  }

  predicate IsCondensing(steps: seq<Step>, n: int) { n > 0 && CondenseCount(steps) >= n }

  /** The last n steps are one and the same action, erring each time. */
  predicate IsRepeatedError(steps: seq<Step>, n: int) {
    && 0 < n <= |steps|
    && forall i :: |steps| - n <= i < |steps| ==> steps[i].err && Act(steps[i]) == Act(steps[|steps| - n])
  }

  /** The last n steps are the same action with the same observation, the oldest not a condensation. */
  predicate IsRepeatedAction(steps: seq<Step>, n: int) {
    0 < n <= |steps| && steps[|steps| - n].kind != "condense"
    && forall i :: |steps| - n <= i < |steps| ==> Key(steps[i]) == Key(steps[|steps| - n])
  }

  /** The last 2c steps alternate between two different keys. */
  predicate IsPingPong(steps: seq<Step>, c: int) {
    2 <= c && 2 * c <= |steps|
    && Key(steps[|steps| - 2 * c]) != Key(steps[|steps| - 2 * c + 1])
    && forall i :: |steps| - 2 * c <= i < |steps| ==>
         Key(steps[i]) == Key(steps[|steps| - 2 * c + (if (i - |steps|) % 2 == 0 then 0 else 1)])
  }

  predicate IsMonologue(steps: seq<Step>, n: int) {
    0 < n <= |steps| && forall i :: |steps| - n <= i < |steps| ==> steps[i].tool == ""
  }

  /** The first pattern that matches, in the detector's order. */
  function Verdict(steps: seq<Step>, t: Thresholds): Reason {
    if IsCondensing(steps, t.condensations) then Condensing
    else if IsRepeatedError(steps, t.repeatedError) then RepeatedError
    else if IsRepeatedAction(steps, t.repeatedAction) then RepeatedAction
    else if IsPingPong(steps, t.pingPongCycles) then PingPong
    else if IsMonologue(steps, t.monologue) then Monologue
    else NotStuck
  }

  // ---------------------------------------------------------------- the detector

  method CountCondense(steps: seq<Step>) returns (n: nat)
    ensures n == CondenseCount(steps)
  {
    n := 0;
    for i := 0 to |steps|
      invariant n == CondenseCount(steps[..i])
    {
      assert steps[..i + 1][..i] == steps[..i];
      if steps[i].kind == "condense" {
        n := n + 1;
      }
    }
    assert steps[..|steps|] == steps;
  }

  method SameErrors(steps: seq<Step>, n: int) returns (same: bool)
    ensures same == IsRepeatedError(steps, n)
  {
    if !(n > 0 && |steps| >= n) {
      return false;
    }
    var last := steps[|steps| - n..];
    var k0 := Act(last[0]);
    same := true;
    for i := 0 to |last|
      invariant same ==> forall j :: 0 <= j < i ==> last[j].err && Act(last[j]) == k0
      invariant same
    {
      if !last[i].err || Act(last[i]) != k0 {
        assert last[i] == steps[|steps| - n + i];
        return false;
      }
    }
    forall i | |steps| - n <= i < |steps| ensures steps[i].err && Act(steps[i]) == Act(steps[|steps| - n]) {
      assert steps[i] == last[i - (|steps| - n)];
    }
  }

  method SameActions(steps: seq<Step>, n: int) returns (same: bool)
    ensures same == IsRepeatedAction(steps, n)
  {
    if !(n > 0 && |steps| >= n) {
      return false;
    }
    var last := steps[|steps| - n..];
    var k0 := Key(last[0]);
    same := last[0].kind != "condense";
    for i := 1 to |last|
      invariant same == (last[0].kind != "condense")
      invariant forall j :: 0 <= j < i ==> Key(last[j]) == k0
    {
      if Key(last[i]) != k0 {
        assert last[i] == steps[|steps| - n + i];
        return false;
      }
    }
    forall i | |steps| - n <= i < |steps| ensures Key(steps[i]) == Key(steps[|steps| - n]) {
      assert steps[i] == last[i - (|steps| - n)];
    }
  }

  function Alternate(j: nat, ka: string, kb: string): string { if j % 2 == 1 then kb else ka }

  /** IsPingPong, counted from the start of the tail. */
  predicate AlternatesFromStart(last: seq<Step>, ka: string, kb: string) {
    ka != kb && forall j :: 0 <= j < |last| ==> Key(last[j]) == Alternate(j, ka, kb)
  }

  lemma PingPongFromStart(steps: seq<Step>, c: int)
    requires 2 <= c && 2 * c <= |steps|
    ensures var last := steps[|steps| - 2 * c..];
            IsPingPong(steps, c) == AlternatesFromStart(last, Key(last[0]), Key(last[1]))
  {
    hide Key;
    var last := steps[|steps| - 2 * c..];
    var m := |steps| - 2 * c;
    if AlternatesFromStart(last, Key(last[0]), Key(last[1])) {
      forall i | m <= i < |steps| ensures Key(steps[i]) == Key(steps[m + (if (i - |steps|) % 2 == 0 then 0 else 1)]) {
        Parity(|steps|, c, i - m);
        assert steps[i] == last[i - m];
      }
    }
    if IsPingPong(steps, c) {
      PingPongToStart(steps, c);
    }
  }

  lemma PingPongToStart(steps: seq<Step>, c: int)
    requires IsPingPong(steps, c)
    ensures var last := steps[|steps| - 2 * c..]; AlternatesFromStart(last, Key(last[0]), Key(last[1]))
  {
    hide Key;
    var last := steps[|steps| - 2 * c..];
    var m := |steps| - 2 * c;
    forall j | 0 <= j < |last| ensures Key(last[j]) == Alternate(j, Key(last[0]), Key(last[1])) {
      Parity(|steps|, c, j);
      assert Key(steps[m + j]) == Key(steps[m + (if (m + j - |steps|) % 2 == 0 then 0 else 1)]);
    }
  }

  lemma Parity(n: nat, c: nat, j: nat)
    ensures (n - 2 * c + j - n) % 2 == 0 <==> j % 2 != 1
  {
  }

  method Alternates(steps: seq<Step>, c: int) returns (ok: bool)
    ensures ok == IsPingPong(steps, c)
  {
    if !(c >= 2 && |steps| >= 2 * c) {
      return false;
    }
    PingPongFromStart(steps, c);
    hide IsPingPong, Key, Alternate;
    var last := steps[|steps| - 2 * c..];
    var ka, kb := Key(last[0]), Key(last[1]);
    if ka == kb {
      return false;
    }
    for i := 0 to |last|
      invariant forall j :: 0 <= j < i ==> Key(last[j]) == Alternate(j, ka, kb)
    {
      var want := Alternate(i, ka, kb);
      if Key(last[i]) != want {
        return false;
      }
    }
    ok := true;
  }

  method NoTools(steps: seq<Step>, n: int) returns (mono: bool)
    ensures mono == IsMonologue(steps, n)
  {
    if !(n > 0 && |steps| >= n) {
      return false;
    }
    var last := steps[|steps| - n..];
    for i := 0 to |last|
      invariant forall j :: 0 <= j < i ==> last[j].tool == ""
    {
      if last[i].tool != "" {
        assert last[i] == steps[|steps| - n + i];
        return false;
      }
    }
    forall i | |steps| - n <= i < |steps| ensures steps[i].tool == "" {
      assert steps[i] == last[i - (|steps| - n)];
    }
    mono := true;
  }

  method DetectStuck(steps: seq<Step>, t: Thresholds) returns (r: Reason)
    ensures r == Verdict(steps, t)
  {
    if t.condensations > 0 {
      var n := CountCondense(steps);
      if n >= t.condensations {
        return Condensing;
      }
    }
    var hit := SameErrors(steps, t.repeatedError);
    if hit {
      return RepeatedError;
    }
    hit := SameActions(steps, t.repeatedAction);
    if hit {
      return RepeatedAction;
    }
    hit := Alternates(steps, t.pingPongCycles);
    if hit {
      return PingPong;
    }
    hit := NoTools(steps, t.monologue);
    if hit {
      return Monologue;
    }
    r := NotStuck;
  }

  // ---------------------------------------------------------------- properties

  lemma {:induction false} NulSplits(a: string, x: string, b: string, y: string)
    requires NoNul(a) && NoNul(b) && a + "\0" + x == b + "\0" + y
    ensures a == b && x == y
  {
    var s := a + "\0" + x;
    assert s[|a|] == '\0' && s[|b|] == '\0';
    assert forall i :: 0 <= i < |a| ==> s[i] == a[i] && s[i] != '\0';
    assert forall i :: 0 <= i < |b| ==> s[i] == b[i] && s[i] != '\0';
    assert |a| == |b|;
    assert a == s[..|a|] && b == s[..|b|] && x == s[|a| + 1..] && y == s[|b| + 1..];
  }

  /** Steps whose tool and arguments hold no NUL have equal keys only when they agree on all three parts. */
  lemma KeyInjective(s: Step, u: Step)
    requires NoNul(s.tool) && NoNul(s.args) && NoNul(u.tool) && NoNul(u.args)
    ensures Key(s) == Key(u) <==> s.tool == u.tool && s.args == u.args && s.obs == u.obs
    ensures Act(s) == Act(u) <==> s.tool == u.tool && s.args == u.args
  {
    if Key(s) == Key(u) {
      assert Key(s) == s.tool + "\0" + (s.args + "\0" + s.obs);
      assert Key(u) == u.tool + "\0" + (u.args + "\0" + u.obs);
      NulSplits(s.tool, s.args + "\0" + s.obs, u.tool, u.args + "\0" + u.obs);
      NulSplits(s.args, s.obs, u.args, u.obs);
    }
    if Act(s) == Act(u) {
      NulSplits(s.tool, s.args, u.tool, u.args);
    }
  }

  function Max(a: int, b: int): int { if a >= b then a else b }

  /** The longest tail any of the four tail patterns looks at. */
  function Window(t: Thresholds): int {
    Max(Max(t.repeatedError, t.repeatedAction), Max(2 * t.pingPongCycles, t.monologue))
  }

  /** Apart from the condensation count, what came before the window makes no difference. */
  lemma OnlyTheTailMatters(before: seq<Step>, steps: seq<Step>, t: Thresholds)
    requires |steps| >= Window(t)
    ensures IsCondensing(before + steps, t.condensations) == IsCondensing(steps, t.condensations) ==>
              Verdict(before + steps, t) == Verdict(steps, t)
  {
    var all := before + steps;
    SameTail(before, steps);
    assert IsRepeatedError(all, t.repeatedError) == IsRepeatedError(steps, t.repeatedError) by {
      ErrorTail(before, steps, t.repeatedError);
    }
    assert IsRepeatedAction(all, t.repeatedAction) == IsRepeatedAction(steps, t.repeatedAction) by {
      ActionTail(before, steps, t.repeatedAction);
    }
    assert IsPingPong(all, t.pingPongCycles) == IsPingPong(steps, t.pingPongCycles) by {
      PingPongTail(before, steps, t.pingPongCycles);
    }
    assert IsMonologue(all, t.monologue) == IsMonologue(steps, t.monologue) by {
      MonologueTail(before, steps, t.monologue);
    }
    hide IsRepeatedError, IsRepeatedAction, IsPingPong, IsMonologue;
  }

  lemma SameTail(before: seq<Step>, steps: seq<Step>)
    ensures forall i :: 0 <= i < |steps| ==> (before + steps)[|before| + i] == steps[i]
  {
  }

  lemma ErrorTail(before: seq<Step>, steps: seq<Step>, n: int)
    requires n <= |steps|
    ensures IsRepeatedError(before + steps, n) == IsRepeatedError(steps, n)
  {
    if IsRepeatedError(before + steps, n) {
      forall i | |steps| - n <= i < |steps| ensures steps[i].err && Act(steps[i]) == Act(steps[|steps| - n]) {
        assert (before + steps)[|before| + i] == steps[i];
      }
    }
  }

  lemma ActionTail(before: seq<Step>, steps: seq<Step>, n: int)
    requires n <= |steps|
    ensures IsRepeatedAction(before + steps, n) == IsRepeatedAction(steps, n)
  {
    if IsRepeatedAction(before + steps, n) {
      forall i | |steps| - n <= i < |steps| ensures Key(steps[i]) == Key(steps[|steps| - n]) {
        assert (before + steps)[|before| + i] == steps[i];
      }
    }
  }

  lemma PingPongTail(before: seq<Step>, steps: seq<Step>, c: int)
    requires 2 * c <= |steps|
    ensures IsPingPong(before + steps, c) == IsPingPong(steps, c)
  {
    var all, n := before + steps, |before|;
    if 2 <= c {
      if IsPingPong(all, c) {
        forall i | |steps| - 2 * c <= i < |steps|
          ensures Key(steps[i]) == Key(steps[|steps| - 2 * c + (if (i - |steps|) % 2 == 0 then 0 else 1)])
        {
          assert all[n + i] == steps[i] && (n + i) - |all| == i - |steps|;
        }
      }
      if IsPingPong(steps, c) {
        forall i | |all| - 2 * c <= i < |all|
          ensures Key(all[i]) == Key(all[|all| - 2 * c + (if (i - |all|) % 2 == 0 then 0 else 1)])
        {
          assert all[i] == steps[i - n] && i - |all| == (i - n) - |steps|;
        }
      }
    }
  }

  lemma MonologueTail(before: seq<Step>, steps: seq<Step>, n: int)
    requires n <= |steps|
    ensures IsMonologue(before + steps, n) == IsMonologue(steps, n)
  {
    if IsMonologue(before + steps, n) {
      forall i | |steps| - n <= i < |steps| ensures steps[i].tool == "" {
        assert (before + steps)[|before| + i] == steps[i];
      }
    }
  }

  /** t is no laxer than u anywhere, and every pattern of t is switched on. */
  predicate Raises(t: Thresholds, u: Thresholds) {
    && 0 < t.repeatedAction <= u.repeatedAction && 0 < t.repeatedError <= u.repeatedError
    && 0 < t.monologue <= u.monologue && 2 <= t.pingPongCycles <= u.pingPongCycles
    && 0 < t.condensations <= u.condensations
  }

  /** The oldest step of t's repeated-action window is not a condensation. */
  predicate WindowOpensClean(steps: seq<Step>, t: Thresholds)
    requires 0 < t.repeatedAction
  {
    t.repeatedAction <= |steps| ==> steps[|steps| - t.repeatedAction].kind != "condense"
  }

  lemma FewerCycles(steps: seq<Step>, c: int, d: int)
    requires 2 <= c <= d && IsPingPong(steps, d)
    ensures IsPingPong(steps, c)
  {
    var n := |steps|;
    assert Key(steps[n - 2 * c]) == Key(steps[n - 2 * d]);
    assert Key(steps[n - 2 * c + 1]) == Key(steps[n - 2 * d + 1]);
    forall i | n - 2 * c <= i < n ensures Key(steps[i]) == Key(steps[n - 2 * c + (if (i - n) % 2 == 0 then 0 else 1)]) {
      assert Key(steps[i]) == Key(steps[n - 2 * d + (if (i - n) % 2 == 0 then 0 else 1)]);
    }
  }

  lemma FewerErrors(steps: seq<Step>, n: int, m: int)
    requires 0 < n <= m && IsRepeatedError(steps, m)
    ensures IsRepeatedError(steps, n)
  {
    forall i | |steps| - n <= i < |steps| ensures steps[i].err && Act(steps[i]) == Act(steps[|steps| - n]) {
      assert Act(steps[i]) == Act(steps[|steps| - m]) == Act(steps[|steps| - n]);
    }
  }

  lemma FewerActions(steps: seq<Step>, n: int, m: int)
    requires 0 < n <= m && IsRepeatedAction(steps, m) && steps[|steps| - n].kind != "condense"
    ensures IsRepeatedAction(steps, n)
  {
    forall i | |steps| - n <= i < |steps| ensures Key(steps[i]) == Key(steps[|steps| - n]) {
      assert Key(steps[i]) == Key(steps[|steps| - m]) == Key(steps[|steps| - n]);
    }
  }

  lemma OnlyActionsStick(steps: seq<Step>, t: Thresholds, u: Thresholds)
    requires Raises(t, u) && Verdict(steps, t) == NotStuck && Verdict(steps, u) != NotStuck
    ensures IsRepeatedAction(steps, u.repeatedAction)
  {
    if IsPingPong(steps, u.pingPongCycles) {
      FewerCycles(steps, t.pingPongCycles, u.pingPongCycles);
    }
    if IsRepeatedError(steps, u.repeatedError) {
      FewerErrors(steps, t.repeatedError, u.repeatedError);
    }
  }

  /** Raising thresholds can make a run look stuck exactly when a longer repeated action hides behind a condensation. */
  lemma RaisingSticksExactly(steps: seq<Step>, t: Thresholds)
    requires Raises(t, t) && Verdict(steps, t) == NotStuck
    ensures (exists u :: Raises(t, u) && Verdict(steps, u) != NotStuck)
       <==> (exists m :: t.repeatedAction < m && IsRepeatedAction(steps, m))
  {
    forall u | Raises(t, u) && Verdict(steps, u) != NotStuck
      ensures t.repeatedAction < u.repeatedAction && IsRepeatedAction(steps, u.repeatedAction)
    {
      OnlyActionsStick(steps, t, u);
    }
    forall m | t.repeatedAction < m && IsRepeatedAction(steps, m)
      ensures exists u :: Raises(t, u) && Verdict(steps, u) != NotStuck
    {
      assert Raises(t, t.(repeatedAction := m)) && Verdict(steps, t.(repeatedAction := m)) == RepeatedAction;
    }
  }

  /** So it never does on a run whose window opens on anything else, a run with no condensation in particular. */
  lemma RaisingNeverSticks(steps: seq<Step>, t: Thresholds, u: Thresholds)
    requires Raises(t, u) && WindowOpensClean(steps, t)
    requires Verdict(steps, t) == NotStuck
    ensures Verdict(steps, u) == NotStuck
  {
    if Verdict(steps, u) != NotStuck {
      OnlyActionsStick(steps, t, u);
      FewerActions(steps, t.repeatedAction, u.repeatedAction);
    }
  }

  /** A concrete run that is not stuck at one threshold and stuck at a higher one. */
  lemma RaisingSticksOnCondense()
    ensures exists steps, t, u :: Raises(t, u) && Verdict(steps, t) == NotStuck && Verdict(steps, u) == RepeatedAction
  {
    var a, b := Step("read", "a", "x", false, ""), Step("read", "a", "x", false, "condense");
    var steps := [a, b];
    var t, u := Thresholds(1, 3, 3, 3, 10), Thresholds(2, 3, 3, 3, 10);
    assert steps[..1][..0] == [] && steps[..1] == [a];
    assert CondenseCount(steps) == CondenseCount([a]) + 1 == 1;
    assert !IsRepeatedAction(steps, 1);
    assert IsRepeatedAction(steps, 2);
    assert Verdict(steps, t) == NotStuck;
    assert Verdict(steps, u) == RepeatedAction;
  }
}
