/** The recommendation: largest-first picks, and re-picking after a measurement. */
module Recommend {
  import opened Lists
  import opened Profile
  import opened FitMeaning

  type Origins = string -> bool

  /** The first id whose row passes; a row with an empty id cannot be picked. */
  function FirstPick(fits: seq<ModelFit>, passes: ModelFit -> bool): string {
    if fits == [] then ""
    else
      var before := FirstPick(fits[..|fits| - 1], passes);
      if before == "" && passes(fits[|fits| - 1]) then fits[|fits| - 1].id else before
  }

  function Interactive(f: ModelFit): bool { f.fitsInteractive }

  function Unattended(f: ModelFit): bool { f.fitsUnattended }

  /** The rows of the allowed models, in the given order. */
  function Rows(specs: seq<ModelSpec>, allowed: Origins, p: Host, ctx: int, fl: Floors): seq<ModelFit> {
    if specs == [] then []
    else
      var s := specs[|specs| - 1];
      Rows(specs[..|specs| - 1], allowed, p, ctx, fl)
          + (if allowed(s.origin) then [Fit(s, p, ctx, fl).(originAllowed := true)] else [])
  }

  class Recommendation {
    var floors: Floors
    var fits: seq<ModelFit>
    var interactive: string
    var unattended: string

    /** Recommend: sort a copy, then one pass. */
    constructor (specs: seq<ModelSpec>, allowed: Origins, p: Host, ctx: int, fl: Floors)
      ensures floors == fl && fits == Rows(SortDesc(specs), allowed, p, ctx, fl)
      ensures interactive == FirstPick(fits, Interactive) && unattended == FirstPick(fits, Unattended)
      ensures IsBest(specs, allowed, p, ctx, fl.interactive, interactive)
      ensures IsBest(specs, allowed, p, ctx, fl.unattended, unattended)
      ensures RowsRead(SortDesc(specs), allowed, p, ctx, fl, fits)
    {
      floors, fits, interactive, unattended := fl, [], "", "";
      new;
      hide Fit, SortDesc, Rows, FirstPick, IsBest, RowsRead;
      PicksRead(specs, allowed, p, ctx, fl);
      RowsAre(SortDesc(specs), allowed, p, ctx, fl);
      NoRows(allowed, p, ctx, fl);
      var ordered := new ModelSpec[|specs|](i requires 0 <= i < |specs| => specs[i]);
      assert ordered[..] == specs;
      SortBySizeDesc(ordered);
      ghost var sorted := ordered[..];
      for i := 0 to ordered.Length
        invariant ordered[..] == sorted && floors == fl
        invariant fits == Rows(sorted[..i], allowed, p, ctx, fl)
        invariant interactive == FirstPick(fits, Interactive) && unattended == FirstPick(fits, Unattended)
      {
        var s := ordered[i];
        assert sorted[..i + 1] == sorted[..i] + [s];
        RowsSnoc(sorted[..i], s, allowed, p, ctx, fl);
        if !allowed(s.origin) {
          continue;
        }
        var fit := Fit(s, p, ctx, fl).(originAllowed := true);
        PickSnoc(fits, fit, Interactive);
        PickSnoc(fits, fit, Unattended);
        fits := fits + [fit];
        if interactive == "" && fit.fitsInteractive {
          interactive := fit.id;
        }
        if unattended == "" && fit.fitsUnattended {
          unattended := fit.id;
        }
      }
      assert sorted[..|sorted|] == sorted;
    }

    /** ApplyMeasurement: rewrite the matching rows, then pick again. */
    method ApplyMeasurement(id: string, tps: real)
      modifies this
      ensures floors == old(floors) && fits == Measured(old(fits), id, tps, floors)
      ensures interactive == FirstPick(fits, Interactive) && unattended == FirstPick(fits, Unattended)
      ensures MeasuredReads(old(fits), fits, id, tps, floors)
      ensures IsFirst(fits, true, interactive) && IsFirst(fits, false, unattended)
    {
      for i := 0 to |fits|
        invariant |fits| == |old(fits)| && floors == old(floors)
        invariant forall k :: 0 <= k < i ==> fits[k] == MeasuredRow(old(fits)[k], id, tps, floors)
        invariant forall k :: i <= k < |fits| ==> fits[k] == old(fits)[k]
      {
        if fits[i].id == id {
          fits := fits[i := fits[i].(tokPerSec := tps, measured := true,
                                     fitsInteractive := fits[i].fitsCapacity && tps >= floors.interactive,
                                     fitsUnattended := fits[i].fitsCapacity && tps >= floors.unattended)];
        }
      }
      interactive, unattended := "", "";
      for i := 0 to |fits|
        invariant floors == old(floors) && fits == Measured(old(fits), id, tps, floors)
        invariant interactive == FirstPick(fits[..i], Interactive) && unattended == FirstPick(fits[..i], Unattended)
      {
        assert fits[..i + 1][..i] == fits[..i];
        var f := fits[i];
        if interactive == "" && f.fitsInteractive {
          interactive := f.id;
        }
        if unattended == "" && f.fitsUnattended {
          unattended := f.id;
        }
      }
      assert fits[..|fits|] == fits;
      FirstReads(fits);
    }
  }

  lemma NoRows(allowed: Origins, p: Host, ctx: int, fl: Floors)
    ensures Rows([], allowed, p, ctx, fl) == [] && FirstPick([], Interactive) == FirstPick([], Unattended) == ""
  {
  }

  lemma RowsSnoc(specs: seq<ModelSpec>, s: ModelSpec, allowed: Origins, p: Host, ctx: int, fl: Floors)
    ensures var rows := Rows(specs, allowed, p, ctx, fl);
            Rows(specs + [s], allowed, p, ctx, fl)
            == if allowed(s.origin) then rows + [Fit(s, p, ctx, fl).(originAllowed := true)] else rows
  {
    hide Fit;
    assert (specs + [s])[..|specs|] == specs;
    assert Rows(specs, allowed, p, ctx, fl) + [] == Rows(specs, allowed, p, ctx, fl);
  }

  lemma PickSnoc(fits: seq<ModelFit>, f: ModelFit, passes: ModelFit -> bool)
    ensures FirstPick(fits + [f], passes) ==
            if FirstPick(fits, passes) == "" && passes(f) then f.id else FirstPick(fits, passes)
  {
    assert (fits + [f])[..|fits|] == fits;
  }

  function MeasuredRow(f: ModelFit, id: string, tps: real, fl: Floors): ModelFit {
    if f.id != id then f
    else f.(tokPerSec := tps, measured := true, fitsInteractive := f.fitsCapacity && tps >= fl.interactive,
            fitsUnattended := f.fitsCapacity && tps >= fl.unattended)
  }

  function Measured(fits: seq<ModelFit>, id: string, tps: real, fl: Floors): (r: seq<ModelFit>)
    ensures |r| == |fits|
  {
    seq(|fits|, k requires 0 <= k < |fits| => MeasuredRow(fits[k], id, tps, fl))
  }

  // ---------------------------------------------------------------- picks

  /** FirstPick names the first passing row with a non-empty id. */
  lemma {:induction false} FirstPickMeaning(fits: seq<ModelFit>, passes: ModelFit -> bool)
    ensures FirstPick(fits, passes) == "" <==> forall k :: 0 <= k < |fits| ==> !passes(fits[k]) || fits[k].id == ""
    ensures FirstPick(fits, passes) != "" ==>
              exists k :: 0 <= k < |fits| && passes(fits[k]) && fits[k].id == FirstPick(fits, passes)
                          && forall j :: 0 <= j < k ==> !passes(fits[j]) || fits[j].id == ""
  {
    if fits != [] {
      var n := |fits| - 1;
      var front := fits[..n];
      FirstPickMeaning(front, passes);
      assert forall k :: 0 <= k < n ==> front[k] == fits[k];
      if FirstPick(front, passes) != "" {
        var k :| 0 <= k < n && passes(front[k]) && front[k].id == FirstPick(front, passes)
                 && forall j :: 0 <= j < k ==> !passes(front[j]) || front[j].id == "";
        assert passes(fits[k]) && fits[k].id == FirstPick(fits, passes);
      }
    }
  }

  /** An allowed model that passes and can be named. */
  predicate Candidate(s: ModelSpec, allowed: Origins, p: Host, ctx: int, fl: Floors, passes: ModelFit -> bool) {
    allowed(s.origin) && s.id != "" && passes(Fit(s, p, ctx, fl).(originAllowed := true))
  }

  ghost predicate IsPick(specs: seq<ModelSpec>, allowed: Origins, p: Host, ctx: int, fl: Floors,
          passes: ModelFit -> bool, s: ModelSpec) {
    s in specs && Candidate(s, allowed, p, ctx, fl, passes)
    && forall t :: t in specs && Candidate(t, allowed, p, ctx, fl, passes) ==> t.size <= s.size
  }

  /** On a list in descending order, the pick names a largest candidate, and there is one unless there are none. */
  lemma {:induction false} PickIsLargest(specs: seq<ModelSpec>, allowed: Origins, p: Host, ctx: int, fl: Floors,
          passes: ModelFit -> bool)
    requires Descending(specs)
    ensures var pick := FirstPick(Rows(specs, allowed, p, ctx, fl), passes);
            if pick == "" then forall s :: s in specs ==> !Candidate(s, allowed, p, ctx, fl, passes)
            else exists s :: IsPick(specs, allowed, p, ctx, fl, passes, s) && s.id == pick
  {
    if specs == [] {
    } else {
      var n := |specs| - 1;
      var front, last := specs[..n], specs[n];
      PickIsLargest(front, allowed, p, ctx, fl, passes);
      assert specs == front + [last];
      PickStep(front, last, allowed, p, ctx, fl, passes);
      var before := FirstPick(Rows(front, allowed, p, ctx, fl), passes);
      hide Candidate, Rows, FirstPick;
      if before != "" {
        var s :| IsPick(front, allowed, p, ctx, fl, passes, s) && s.id == before;
        PickStays(front, last, allowed, p, ctx, fl, passes, s);
      } else if Candidate(last, allowed, p, ctx, fl, passes) {
        assert IsPick(specs, allowed, p, ctx, fl, passes, last);
        CandidateHasId(last, allowed, p, ctx, fl, passes);
      }
    }
  }

  lemma PickStays(front: seq<ModelSpec>, last: ModelSpec, allowed: Origins, p: Host, ctx: int, fl: Floors,
          passes: ModelFit -> bool, s: ModelSpec)
    requires Descending(front + [last]) && IsPick(front, allowed, p, ctx, fl, passes, s)
    ensures IsPick(front + [last], allowed, p, ctx, fl, passes, s)
  {
    hide Candidate;
    var i :| 0 <= i < |front| && front[i] == s;
    assert (front + [last])[i].size >= (front + [last])[|front|].size;
  }

  lemma CandidateHasId(s: ModelSpec, allowed: Origins, p: Host, ctx: int, fl: Floors, passes: ModelFit -> bool)
    requires Candidate(s, allowed, p, ctx, fl, passes)
    ensures s.id != ""
  {
  }

  lemma PickStep(front: seq<ModelSpec>, last: ModelSpec, allowed: Origins, p: Host, ctx: int, fl: Floors,
          passes: ModelFit -> bool)
    ensures var before := FirstPick(Rows(front, allowed, p, ctx, fl), passes);
            FirstPick(Rows(front + [last], allowed, p, ctx, fl), passes)
            == if before == "" && Candidate(last, allowed, p, ctx, fl, passes) then last.id else before
  {
    FitKeepsId(last, p, ctx, fl);
    hide Fit, Rows, FirstPick;
    RowsSnoc(front, last, allowed, p, ctx, fl);
    PickSnoc(Rows(front, allowed, p, ctx, fl), Fit(last, p, ctx, fl).(originAllowed := true), passes);
  }

  lemma FitKeepsId(s: ModelSpec, p: Host, ctx: int, fl: Floors)
    ensures Fit(s, p, ctx, fl).id == s.id
  {
  }

  /** Each pick of a recommendation is a largest allowed model clearing that floor; no pick means no such model. */
  lemma RecommendPicksLargest(specs: seq<ModelSpec>, allowed: Origins, p: Host, ctx: int, fl: Floors,
          passes: ModelFit -> bool)
    ensures var pick := FirstPick(Rows(SortDesc(specs), allowed, p, ctx, fl), passes);
            if pick == "" then forall s :: s in specs ==> !Candidate(s, allowed, p, ctx, fl, passes)
            else exists s :: IsPick(specs, allowed, p, ctx, fl, passes, s) && s.id == pick
  {
    hide Rows, FirstPick, SortDesc, Candidate;
    SortIsStable(specs, 0);
    PickIsLargest(SortDesc(specs), allowed, p, ctx, fl, passes);
    forall s ensures s in SortDesc(specs) <==> s in specs {
      SortMembers(specs, s);
    }
    var pick := FirstPick(Rows(SortDesc(specs), allowed, p, ctx, fl), passes);
    if pick != "" {
      var s :| IsPick(SortDesc(specs), allowed, p, ctx, fl, passes, s) && s.id == pick;
      assert IsPick(specs, allowed, p, ctx, fl, passes, s);
    }
  }

  lemma ScaleAtMost(x: real, y: real, c: real)
    requires x <= y && c >= 0.0
    ensures x * c <= y * c
  {
  }

  lemma SpeedGrows(s: ModelSpec, p: Host, q: Host)
    requires p.bandwidth <= q.bandwidth
    ensures Speed(s, p) <= Speed(s, q)
  {
    var bpp := BytesPerParam(s.file);
    var d := ActiveParams(s, TotalParams(s.size, bpp)) as real * bpp;
    hide BytesPerParam, ActiveParams, TotalParams;
    if d > 0.0 {
      ScaleAtMost(p.bandwidth as real, q.bandwidth as real, EFFICIENCY);
      QuotientAtMost(p.bandwidth as real * EFFICIENCY, q.bandwidth as real * EFFICIENCY, d);
      if p.bandwidth == 0 && q.bandwidth > 0 {
        QuotientAtMost(0.0, q.bandwidth as real * EFFICIENCY, d);
      }
    }
  }

  /** More memory and more bandwidth never shrink a pick. */
  lemma BetterHostPicksNoSmaller(specs: seq<ModelSpec>, allowed: Origins, p: Host, q: Host, ctx: int, fl: Floors,
          s: ModelSpec, t: ModelSpec)
    requires p.available <= q.available && p.bandwidth <= q.bandwidth
    ensures IsPick(specs, allowed, p, ctx, fl, Interactive, s) && IsPick(specs, allowed, q, ctx, fl, Interactive, t)
            ==> s.size <= t.size
    ensures IsPick(specs, allowed, p, ctx, fl, Unattended, s) && IsPick(specs, allowed, q, ctx, fl, Unattended, t)
            ==> s.size <= t.size
    ensures Candidate(s, allowed, p, ctx, fl, Interactive) ==> Candidate(s, allowed, q, ctx, fl, Interactive)
    ensures Candidate(s, allowed, p, ctx, fl, Unattended) ==> Candidate(s, allowed, q, ctx, fl, Unattended)
  {
    SpeedGrows(s, p, q);
    hide Speed, Required;
    assert Usable(p) <= Usable(q);
  }

  /** A listed model's row. */
  ghost predicate RowReads(s: ModelSpec, p: Host, ctx: int, fl: Floors, f: ModelFit) {
    && f.id == s.id && f.originAllowed && !f.measured && f.required == Takes(s, ctx) && IsPace(s, p, f.tokPerSec)
    && (f.fitsCapacity <==> Runs(s, p, ctx))
    && (f.fitsInteractive <==> Runs(s, p, ctx) && f.tokPerSec >= fl.interactive)
    && (f.fitsUnattended <==> Runs(s, p, ctx) && f.tokPerSec >= fl.unattended)
  }

  ghost predicate AreRows(specs: seq<ModelSpec>, allowed: Origins, p: Host, ctx: int, fl: Floors, fits: seq<ModelFit>,
          at: seq<nat>) {
    && Ascending(at) && |at| == |fits|
    && (forall i :: i in at <==> 0 <= i < |specs| && allowed(specs[i].origin))
    && forall k :: 0 <= k < |fits| ==> at[k] < |specs| && RowReads(specs[at[k]], p, ctx, fl, fits[k])
  }

  /** Every allowed model has its row, and no other, in the models' order. */
  ghost predicate RowsRead(specs: seq<ModelSpec>, allowed: Origins, p: Host, ctx: int, fl: Floors,
          fits: seq<ModelFit>) {
    exists at :: AreRows(specs, allowed, p, ctx, fl, fits, at)
  }

  lemma {:induction false} RowsAre(specs: seq<ModelSpec>, allowed: Origins, p: Host, ctx: int, fl: Floors)
    ensures RowsRead(specs, allowed, p, ctx, fl, Rows(specs, allowed, p, ctx, fl))
  {
    hide Fit, RowReads;
    if specs == [] {
      assert AreRows(specs, allowed, p, ctx, fl, [], []);
    } else {
      var n := |specs| - 1;
      var front, last := specs[..n], specs[n];
      RowsAre(front, allowed, p, ctx, fl);
      var fits := Rows(front, allowed, p, ctx, fl);
      var at :| AreRows(front, allowed, p, ctx, fl, fits, at);
      OneRowReads(last, p, ctx, fl);
      RowsMore(front, last, allowed, p, ctx, fl, fits, at);
      assert specs == front + [last];
      RowsSnoc(front, last, allowed, p, ctx, fl);
    }
  }

  lemma OneRowReads(s: ModelSpec, p: Host, ctx: int, fl: Floors)
    ensures RowReads(s, p, ctx, fl, Fit(s, p, ctx, fl).(originAllowed := true))
  {
    hide Fit, Runs, IsPace, Takes;
    FitReads(s, p, ctx, fl);
  }

  lemma RowsMore(specs: seq<ModelSpec>, s: ModelSpec, allowed: Origins, p: Host, ctx: int, fl: Floors,
          fits: seq<ModelFit>, at: seq<nat>)
    requires AreRows(specs, allowed, p, ctx, fl, fits, at)
    requires RowReads(s, p, ctx, fl, Fit(s, p, ctx, fl).(originAllowed := true))
    ensures var more := fits + [Fit(s, p, ctx, fl).(originAllowed := true)];
            if allowed(s.origin) then AreRows(specs + [s], allowed, p, ctx, fl, more, at + [|specs|])
            else AreRows(specs + [s], allowed, p, ctx, fl, fits, at)
  {
    hide Fit, RowReads;
    var n := |specs|;
    forall i ensures i in at + [n] <==> i in at || i == n {
    }
  }

  /** Each pick is the best model for its own floor. */
  lemma PicksRead(specs: seq<ModelSpec>, allowed: Origins, p: Host, ctx: int, fl: Floors)
    ensures var fits := Rows(SortDesc(specs), allowed, p, ctx, fl);
            && IsBest(specs, allowed, p, ctx, fl.interactive, FirstPick(fits, Interactive))
            && IsBest(specs, allowed, p, ctx, fl.unattended, FirstPick(fits, Unattended))
  {
    forall s
      ensures Candidate(s, allowed, p, ctx, fl, Interactive) <==> Good(s, allowed, p, ctx, fl.interactive)
      ensures Candidate(s, allowed, p, ctx, fl, Unattended) <==> Good(s, allowed, p, ctx, fl.unattended)
    {
      hide Fit, Good;
      GoodMeans(s, allowed, p, ctx, fl);
    }
    hide Candidate, Rows, FirstPick, SortDesc, Good;
    RecommendPicksLargest(specs, allowed, p, ctx, fl, Interactive);
    RecommendPicksLargest(specs, allowed, p, ctx, fl, Unattended);
  }

  /** The first named row that clears the floor, the interactive one or the other, or none. */
  ghost predicate IsFirst(fits: seq<ModelFit>, interactive: bool, pick: string) {
    if pick == "" then forall k :: 0 <= k < |fits| ==> !Clears(fits[k], interactive)
    else exists k :: && 0 <= k < |fits| && fits[k].id == pick && Clears(fits[k], interactive)
                     && forall j :: 0 <= j < k ==> !Clears(fits[j], interactive)
  }

  ghost predicate Clears(f: ModelFit, interactive: bool) {
    f.id != "" && if interactive then f.fitsInteractive else f.fitsUnattended
  }

  lemma FirstReads(fits: seq<ModelFit>)
    ensures IsFirst(fits, true, FirstPick(fits, Interactive)) && IsFirst(fits, false, FirstPick(fits, Unattended))
  {
    FirstPickMeaning(fits, Interactive);
    FirstPickMeaning(fits, Unattended);
    hide FirstPick;
    assert forall f: ModelFit :: Interactive(f) == f.fitsInteractive && Unattended(f) == f.fitsUnattended;
  }

  // ---------------------------------------------------------------- measurements

  /** The rows after a measurement: the model's own take the pace and each floor against it, and the rest stay. */
  ghost predicate MeasuredReads(was: seq<ModelFit>, fits: seq<ModelFit>, id: string, tps: real, fl: Floors) {
    && |fits| == |was|
    && forall k :: 0 <= k < |was| ==>
         var f, r := was[k], fits[k];
         if f.id != id then r == f
         else && r.id == id && r.required == f.required && r.fitsCapacity == f.fitsCapacity && r.measured
              && r.originAllowed == f.originAllowed && r.tokPerSec == tps
              && (r.fitsInteractive <==> f.fitsCapacity && tps >= fl.interactive)
              && (r.fitsUnattended <==> f.fitsCapacity && tps >= fl.unattended)
  }

  /** Only the matching rows change; measurements of different models commute; of one model, the last counts. */
  lemma MeasurementsCommute(fits: seq<ModelFit>, a: string, x: real, b: string, y: real, fl: Floors)
    ensures forall k :: 0 <= k < |fits| && fits[k].id != a ==> Measured(fits, a, x, fl)[k] == fits[k]
    ensures a != b ==> Measured(Measured(fits, a, x, fl), b, y, fl) == Measured(Measured(fits, b, y, fl), a, x, fl)
    ensures Measured(Measured(fits, a, x, fl), a, y, fl) == Measured(fits, a, y, fl)
  {
  }

  /** A model that measured below a floor is no longer that floor's pick. */
  lemma SlowModelStepsDown(fits: seq<ModelFit>, id: string, tps: real, fl: Floors)
    requires id != ""
    ensures tps < fl.interactive ==> FirstPick(Measured(fits, id, tps, fl), Interactive) != id
    ensures tps < fl.unattended ==> FirstPick(Measured(fits, id, tps, fl), Unattended) != id
  {
    var m := Measured(fits, id, tps, fl);
    FirstPickMeaning(m, Interactive);
    FirstPickMeaning(m, Unattended);
    hide FirstPick;
    assert forall k :: 0 <= k < |m| && m[k].id == id ==> m[k] == MeasuredRow(fits[k], id, tps, fl) && fits[k].id == id;
  }
}
