/** The stuck verdict in terms of the fields of the steps. */
module StuckMeaning {
  import opened Text
  import opened Stuck

  /** Tool names and JSON arguments hold no NUL. */
  ghost predicate Plain(steps: seq<Step>) {
    forall i :: 0 <= i < |steps| ==> NoNul(steps[i].tool) && NoNul(steps[i].args)
  }

  ghost predicate SameAct(a: Step, b: Step) { a.tool == b.tool && a.args == b.args }

  ghost predicate SameStep(a: Step, b: Step) { a.tool == b.tool && a.args == b.args && a.obs == b.obs }

  /** At least n condensations in all. */
  ghost predicate Condenses(steps: seq<Step>, n: int) {
    n > 0 && |Condensations(steps)| >= n
  }

  /** The last n steps all err, with the tool and arguments of the last. */
  ghost predicate Errs(steps: seq<Step>, n: int) {
    && 0 < n <= |steps|
    && forall i :: |steps| - n <= i < |steps| ==> steps[i].err && SameAct(steps[i], steps[|steps| - 1])
  }

  /** The last n steps have the tool, arguments and observation of the last; the first of them is no condensation. */
  ghost predicate Repeats(steps: seq<Step>, n: int) {
    && 0 < n <= |steps| && steps[|steps| - n].kind != "condense"
    && forall i :: |steps| - n <= i < |steps| ==> SameStep(steps[i], steps[|steps| - 1])
  }

  /** The last 2c steps begin with two different ones, and each later one is that of two before. */
  ghost predicate Alternates(steps: seq<Step>, c: int) {
    && 2 <= c && 2 * c <= |steps|
    && !SameStep(steps[|steps| - 2 * c], steps[|steps| - 2 * c + 1])
    && forall i :: |steps| - 2 * c + 2 <= i < |steps| ==> SameStep(steps[i], steps[i - 2])
  }

  /** The last n steps use no tool. */
  ghost predicate OnlyTalks(steps: seq<Step>, n: int) {
    0 < n <= |steps| && forall i :: |steps| - n <= i < |steps| ==> steps[i].tool == ""
  }

  ghost function Reads(steps: seq<Step>, action: int, error: int, talk: int, cycles: int, condense: int): Reason {
    if Condenses(steps, condense) then Condensing
    else if Errs(steps, error) then RepeatedError
    else if Repeats(steps, action) then RepeatedAction
    else if Alternates(steps, cycles) then PingPong
    else if OnlyTalks(steps, talk) then Monologue
    else NotStuck
  }

  ghost function Condensations(steps: seq<Step>): set<int> {
    set i | 0 <= i < |steps| && steps[i].kind == "condense"
  }

  lemma CondensationsSnoc(steps: seq<Step>)
    requires steps != []
    ensures var n := |steps| - 1;
            |Condensations(steps)| == |Condensations(steps[..n])| + (if steps[n].kind == "condense" then 1 else 0)
  {
    var n := |steps| - 1;
    var a := Condensations(steps[..n]);
    assert n !in a;
    assert Condensations(steps) == if steps[n].kind == "condense" then a + {n} else a;
  }

  lemma {:induction false} CountIsSize(steps: seq<Step>)
    ensures CondenseCount(steps) == |Condensations(steps)|
  {
    hide Condensations;
    if steps == [] {
      NoCondensations();
    } else {
      CountIsSize(steps[..|steps| - 1]);
      CondensationsSnoc(steps);
    }
  }

  lemma NoCondensations()
    ensures Condensations([]) == {}
  {
  }

  lemma KeysAre(steps: seq<Step>)
    requires Plain(steps)
    ensures forall i, j :: 0 <= i < |steps| && 0 <= j < |steps| ==>
              && (Key(steps[i]) == Key(steps[j]) <==> SameStep(steps[i], steps[j]))
              && (Act(steps[i]) == Act(steps[j]) <==> SameAct(steps[i], steps[j]))
  {
    hide Key, Act, NoNul;
    forall i, j | 0 <= i < |steps| && 0 <= j < |steps|
      ensures Key(steps[i]) == Key(steps[j]) <==> SameStep(steps[i], steps[j])
      ensures Act(steps[i]) == Act(steps[j]) <==> SameAct(steps[i], steps[j])
    {
      KeyInjective(steps[i], steps[j]);
    }
  }

  lemma ErrsMeans(steps: seq<Step>, n: int)
    requires Plain(steps)
    ensures IsRepeatedError(steps, n) <==> Errs(steps, n)
  {
    KeysAre(steps);
    hide Key, Act, NoNul;
    if IsRepeatedError(steps, n) {
      var last := steps[|steps| - 1];
      assert Act(last) == Act(steps[|steps| - n]);
    }
  }

  lemma RepeatsMeans(steps: seq<Step>, n: int)
    requires Plain(steps)
    ensures IsRepeatedAction(steps, n) <==> Repeats(steps, n)
  {
    KeysAre(steps);
    hide Key, Act, NoNul;
    if IsRepeatedAction(steps, n) {
      var last := steps[|steps| - 1];
      assert Key(last) == Key(steps[|steps| - n]);
    }
  }

  lemma {:induction false} SameParity(steps: seq<Step>, m: nat, i: nat)
    requires m + 1 < |steps| && m <= i < |steps|
    requires forall j :: m + 2 <= j < |steps| ==> Key(steps[j]) == Key(steps[j - 2])
    ensures Key(steps[i]) == Key(steps[m + (if (i - m) % 2 == 0 then 0 else 1)])
  {
    hide Key;
    if i >= m + 2 {
      SameParity(steps, m, i - 2);
    }
  }

  /** IsPingPong, each key compared to that of two before. */
  ghost predicate TwoBefore(steps: seq<Step>, m: nat) {
    forall i :: m + 2 <= i < |steps| ==> Key(steps[i]) == Key(steps[i - 2])
  }

  lemma PingPongTwoBefore(steps: seq<Step>, c: int)
    requires IsPingPong(steps, c)
    ensures TwoBefore(steps, |steps| - 2 * c)
  {
    hide Key;
    var n := |steps|;
    forall i | n - 2 * c + 2 <= i < n ensures Key(steps[i]) == Key(steps[i - 2]) {
      assert (i - n) % 2 == (i - 2 - n) % 2;
    }
  }

  lemma TwoBeforePingPong(steps: seq<Step>, c: int)
    requires 2 <= c && 2 * c <= |steps| && TwoBefore(steps, |steps| - 2 * c)
    requires Key(steps[|steps| - 2 * c]) != Key(steps[|steps| - 2 * c + 1])
    ensures IsPingPong(steps, c)
  {
    hide Key;
    var n := |steps|;
    var m := n - 2 * c;
    forall i | m <= i < n ensures Key(steps[i]) == Key(steps[m + (if (i - n) % 2 == 0 then 0 else 1)]) {
      SameParity(steps, m, i);
      SameRemainder(i, n, c);
    }
  }

  lemma SameRemainder(i: int, n: int, c: int)
    ensures (i - (n - 2 * c)) % 2 == (i - n) % 2
  {
  }

  lemma AlternatesMeans(steps: seq<Step>, c: int)
    requires Plain(steps)
    ensures IsPingPong(steps, c) <==> Alternates(steps, c)
  {
    KeysAre(steps);
    assert 2 <= c && 2 * c <= |steps| ==>
        (Alternates(steps, c) <==> TwoBefore(steps, |steps| - 2 * c)
                                   && Key(steps[|steps| - 2 * c]) != Key(steps[|steps| - 2 * c + 1])) by {
      hide Key, NoNul, SameStep, SameAct, IsPingPong, Plain;
    }
    assert IsPingPong(steps, c) ==> 2 <= c && 2 * c <= |steps|
                                    && Key(steps[|steps| - 2 * c]) != Key(steps[|steps| - 2 * c + 1]);
    hide Key, NoNul, SameStep, SameAct, Plain, TwoBefore, IsPingPong;
    if IsPingPong(steps, c) {
      PingPongTwoBefore(steps, c);
    } else if Alternates(steps, c) {
      TwoBeforePingPong(steps, c);
    }
  }

  /** The verdict is the first of the five patterns, in this order, that the fields of the steps show. */
  lemma VerdictReads(steps: seq<Step>, t: Thresholds)
    requires Plain(steps)
    ensures Verdict(steps, t)
            == Reads(steps, t.repeatedAction, t.repeatedError, t.monologue, t.pingPongCycles, t.condensations)
  {
    CountIsSize(steps);
    ErrsMeans(steps, t.repeatedError);
    RepeatsMeans(steps, t.repeatedAction);
    AlternatesMeans(steps, t.pingPongCycles);
    hide CondenseCount, IsRepeatedError, IsRepeatedAction, IsPingPong, Errs, Repeats, Alternates, Plain;
  }

  /** By default: four equal steps, three equal errors, three steps of talk, three cycles, ten condensations. */
  lemma DefaultVerdictReads(steps: seq<Step>)
    requires Plain(steps)
    ensures Verdict(steps, DEFAULTS) == Reads(steps, 4, 3, 3, 3, 10)
  {
    hide Verdict, Reads, Plain;
    VerdictReads(steps, DEFAULTS);
  }
}
