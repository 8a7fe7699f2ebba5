/** When a closed requirement stays closed with several loops over one store. */
module Offers {
  import opened Requirements
  import opened Claims
  import opened LostUpdates

  /** The row SetStatus writes for id is there and open. */
  ghost predicate OpenRow(t: Table, id: string) {
    var r := FirstIndex(t, id); r < |t| && t[r].Status() == Open
  }

  /** What Next offers is such a row, if open rows are the first with their id. */
  lemma OfferIsOpen(t: Table, claims: set<string>)
    requires OpenFirst(t) && NextFrom(t, claims, 0) < |t|
    ensures OpenRow(t, t[NextFrom(t, claims, 0)].id)
  {
    OpenIsFirst(t, NextFrom(t, claims, 0));
    hide StatusFromCell, FirstIndex;
  }

  /** Each loop chooses what the table it saw offered. */
  ghost predicate Offered(ws: seq<World>, ls: seq<Label>) {
    |ws| == |ls| + 1 && forall k :: 0 <= k < |ls| && ls[k].Choose? ==> OpenRow(ws[k].rows, ls[k].id)
  }

  /** Only settled statuses are written, as the loop does. */
  ghost predicate Settling(ls: seq<Label>) {
    forall k :: 0 <= k < |ls| && ls[k].Load? ==> ls[k].st == Closed || ls[k].st == Blocked
  }

  /** Loop i chooses id at step a and claims it at step b, as its next step. */
  ghost predicate ChooseClaim(ls: seq<Label>, a: nat, b: nat, i: nat, id: string) {
    a < b < |ls| && ls[a] == Choose(i, id) && ls[b] == ClaimOk(i, id) && forall k :: a < k < b ==> ls[k].loop != i
  }

  /** The status of id is written at no step from a up to b. */
  ghost predicate Untouched(ws: seq<World>, ls: seq<Label>, a: nat, b: nat, id: string) {
    forall c: nat :: a <= c < b ==> !WritesFor(ws, ls, c, id)
  }

  /** No loop claims what was settled after it was offered. */
  ghost predicate Prompt(ws: seq<World>, ls: seq<Label>) {
    forall a: nat, b: nat, i: nat, id :: ChooseClaim(ls, a, b, i, id) ==> Untouched(ws, ls, a, b, id)
  }

  // ---------------------------------------------------------------- where a phase comes from

  lemma {:induction false} ChosenAt(ws: seq<World>, ls: seq<Label>, k: nat, i: nat) returns (a: nat)
    requires IsRun(ws, ls) && Fresh(ws[0]) && k < |ws| && At(ws[k], i).Chosen?
    ensures a < k && ls[a] == Choose(i, At(ws[k], i).id) && forall j :: a < j < k ==> ls[j].loop != i
  {
    if k > 0 {
      assert Step(ws[k - 1], ls[k - 1], ws[k]);
      if ls[k - 1].loop == i {
        a := k - 1;
      } else {
        a := ChosenAt(ws, ls, k - 1, i);
      }
    }
  }

  lemma {:induction false} ClaimedAt(ws: seq<World>, ls: seq<Label>, k: nat, i: nat) returns (b: nat)
    requires IsRun(ws, ls) && Fresh(ws[0]) && k < |ws| && At(ws[k], i).Holding?
    ensures b < k && ls[b] == ClaimOk(i, At(ws[k], i).id) && forall j :: b < j < k ==> ls[j].loop != i
  {
    if k > 0 {
      assert Step(ws[k - 1], ls[k - 1], ws[k]);
      if ls[k - 1].loop == i {
        b := k - 1;
      } else {
        b := ClaimedAt(ws, ls, k - 1, i);
      }
    }
  }

  /** Every claim was chosen. */
  lemma EveryClaimWasChosen(ws: seq<World>, ls: seq<Label>, b: nat) returns (a: nat)
    requires IsRun(ws, ls) && Fresh(ws[0]) && b < |ls| && ls[b].ClaimOk?
    ensures ChooseClaim(ls, a, b, ls[b].loop, ls[b].id)
  {
    assert Step(ws[b], ls[b], ws[b + 1]);
    a := ChosenAt(ws, ls, b, ls[b].loop);
  }

  /** Loop i claims id at step b, reads at step a and writes at step c, with no other step of its own. */
  ghost predicate Attempted(ws: seq<World>, ls: seq<Label>, b: nat, a: nat, c: nat, i: nat, id: string, st: Status) {
    ReadWrite(ws, ls, a, c, i, id, st) && b < a && ls[b] == ClaimOk(i, id) && forall k :: b < k < a ==> ls[k].loop != i
  }

  /** Every write was claimed for. */
  lemma EveryWriteWasClaimed(ws: seq<World>, ls: seq<Label>, c: nat) returns (b: nat, a: nat, id: string, st: Status)
    requires IsRun(ws, ls) && Fresh(ws[0]) && c < |ls| && ls[c].Write?
    ensures Attempted(ws, ls, b, a, c, ls[c].loop, id, st)
  {
    a, id, st := EveryWriteHasARead(ws, ls, c);
    b := ClaimedAt(ws, ls, a, ls[c].loop);
  }

  // ---------------------------------------------------------------- the row from the claim to the write

  lemma HeldAlong(ws: seq<World>, ls: seq<Label>, b: nat, a: nat, c: nat, i: nat, id: string, st: Status, k: nat)
    requires Attempted(ws, ls, b, a, c, i, id, st) && Fresh(ws[0]) && b < k <= c
    ensures Holds(ws[k], i, id)
  {
    assert Step(ws[b], ls[b], ws[b + 1]) && Step(ws[a], ls[a], ws[a + 1]);
    if k <= a {
      LoadedStays(ws, ls, i, b + 1, k);
    } else {
      LoadedStays(ws, ls, i, a + 1, k);
    }
  }

  /** From its claim to its write a loop is alone in writing for its requirement. */
  lemma UntouchedWhileHeld(ws: seq<World>, ls: seq<Label>, b: nat, a: nat, c: nat, i: nat, id: string, st: Status)
    requires Attempted(ws, ls, b, a, c, i, id, st) && Fresh(ws[0])
    ensures Untouched(ws, ls, b, c, id)
  {
    forall k: nat | b <= k < c ensures !WritesFor(ws, ls, k, id) {
      if b < k && k != a {
        HeldAlong(ws, ls, b, a, c, i, id, st, k);
        hide ReadWrite;
        OnlyTheHolderWrites(ws, ls, k, i, id);
      }
    }
  }

  /** In an overlap-free run a stretch without a write for id leaves its row alone. */
  lemma UntouchedRow(ws: seq<World>, ls: seq<Label>, a: nat, b: nat, id: string)
    requires IsRun(ws, ls) && Fresh(ws[0]) && NoOverlap(ls) && a <= b < |ws| && Untouched(ws, ls, a, b, id)
    ensures FirstIndex(ws[b].rows, id) == FirstIndex(ws[a].rows, id) && |ws[b].rows| == |ws[a].rows|
    ensures var r := FirstIndex(ws[a].rows, id); r < |ws[a].rows| ==> ws[b].rows[r] == ws[a].rows[r]
  {
    RunKeepsShape(ws, ls, a);
    RunKeepsShape(ws, ls, b);
    ShapeFirstIndex(ws[0].rows, ws[a].rows, id);
    ShapeFirstIndex(ws[0].rows, ws[b].rows, id);
    var r := FirstIndex(ws[a].rows, id);
    hide IsRun, FirstIndex, NoOverlap;
    if r < |ws[a].rows| {
      OverlapFreeRun(ws, ls, a, b, r);
    }
  }

  // ---------------------------------------------------------------- when a claim lands on an open row

  /** The last step before k that writes for id. */
  ghost predicate LastWrite(ws: seq<World>, ls: seq<Label>, a: nat, c: nat, k: nat, id: string) {
    a <= c < k && WritesFor(ws, ls, c, id) && Untouched(ws, ls, c + 1, k, id)
  }

  lemma {:induction false} LastWriteBefore(ws: seq<World>, ls: seq<Label>, a: nat, k: nat, id: string) returns (c: nat)
    requires a <= k && !Untouched(ws, ls, a, k, id)
    ensures LastWrite(ws, ls, a, c, k, id)
    decreases k - a
  {
    if a < k {
      c := k - 1;
      if !WritesFor(ws, ls, k - 1, id) {
        c := LastWriteBefore(ws, ls, a, k - 1, id);
      }
    }
  }

  /** A write for id leaves its row settled. */
  lemma WrittenIsSettled(ws: seq<World>, ls: seq<Label>, c: nat, id: string)
    requires IsRun(ws, ls) && Fresh(ws[0]) && Settling(ls) && WritesFor(ws, ls, c, id)
    ensures !OpenRow(ws[c + 1].rows, id)
  {
    var a, id', st := EveryWriteHasARead(ws, ls, c);
    WriteOfWhatWasRead(ws, ls, a, c, ls[c].loop, id', st);
    assert id' == id;
    RunKeepsShape(ws, ls, a);
    RunKeepsShape(ws, ls, c + 1);
    ShapeFirstIndex(ws[0].rows, ws[a].rows, id);
    ShapeFirstIndex(ws[0].rows, ws[c + 1].rows, id);
    StatusRoundTrip(st);
    hide IsRun, FirstIndex, StatusFromCell, StatusToCell;
  }

  /** A claim lands on an open row exactly when nobody wrote for the requirement since it was chosen. */
  lemma ClaimLandsOpen(ws: seq<World>, ls: seq<Label>, a: nat, b: nat, i: nat, id: string)
    requires IsRun(ws, ls) && Fresh(ws[0]) && NoOverlap(ls) && Offered(ws, ls) && Settling(ls)
    requires ChooseClaim(ls, a, b, i, id)
    ensures OpenRow(ws[b].rows, id) <==> Untouched(ws, ls, a, b, id)
  {
    assert OpenRow(ws[a].rows, id);
    hide IsRun, NoOverlap, FirstIndex, StatusFromCell, Settling;
    if Untouched(ws, ls, a, b, id) {
      UntouchedRow(ws, ls, a, b, id);
    } else {
      var c := LastWriteBefore(ws, ls, a, b, id);
      WrittenIsSettled(ws, ls, c, id);
      UntouchedRow(ws, ls, c + 1, b, id);
    }
  }

  // ---------------------------------------------------------------- when a closed row is taken back

  /** In an overlap-free run, the write at step c changes the row only from what it was when it was claimed. */
  lemma WriteSeesClaimedRow(ws: seq<World>, ls: seq<Label>, b: nat, a: nat, c: nat, i: nat, id: string, st: Status)
    requires Attempted(ws, ls, b, a, c, i, id, st) && Fresh(ws[0]) && NoOverlap(ls)
    ensures FirstIndex(ws[c].rows, id) == FirstIndex(ws[b].rows, id) && |ws[c].rows| == |ws[b].rows|
    ensures var r := FirstIndex(ws[b].rows, id); r < |ws[b].rows| ==> ws[c].rows[r] == ws[b].rows[r]
  {
    UntouchedWhileHeld(ws, ls, b, a, c, i, id, st);
    hide NoOverlap, Untouched;
    UntouchedRow(ws, ls, b, c, id);
  }

  /** In an overlap-free run a row changes only at a step that writes for its id as the first row of it. */
  lemma ChangedRowIsWritten(ws: seq<World>, ls: seq<Label>, c: nat, r: nat)
    requires IsRun(ws, ls) && Fresh(ws[0]) && NoOverlap(ls) && c < |ls| && r < |ws[c].rows|
    requires r < |ws[c + 1].rows| ==> ws[c + 1].rows[r] != ws[c].rows[r]
    ensures ls[c].Write? && Holds(ws[c], ls[c].loop, ws[c].rows[r].id) && r == FirstIndex(ws[c].rows, ws[c].rows[r].id)
  {
    if ls[c].Write? {
      OverlapFreeWrite(ws, ls, c);
    } else {
      NoWrite(ws[c], ls[c], ws[c + 1]);
    }
  }

  /**
   * If moreover every loop claims what it was offered before anyone settled it, a closed row never changes again,
   * and no more does a blocked or a proposed one.
   */
  lemma SettledStaysSettled(ws: seq<World>, ls: seq<Label>, c: nat, r: nat)
    requires IsRun(ws, ls) && Fresh(ws[0]) && NoOverlap(ls) && Offered(ws, ls) && Prompt(ws, ls)
    requires c < |ls| && r < |ws[c].rows| && ws[c].rows[r].Status() != Open
    ensures r < |ws[c + 1].rows| && ws[c + 1].rows[r] == ws[c].rows[r]
  {
    hide IsRun, NoOverlap, FirstIndex, StatusFromCell, Prompt;
    if !(r < |ws[c + 1].rows| && ws[c + 1].rows[r] == ws[c].rows[r]) {
      ChangedRowIsWritten(ws, ls, c, r);
      ClaimedRowWasOpen(ws, ls, c);
    }
  }

  /** So over any stretch of such a run. */
  lemma {:induction false} SettledForGood(ws: seq<World>, ls: seq<Label>, c: nat, k: nat, r: nat)
    requires IsRun(ws, ls) && Fresh(ws[0]) && NoOverlap(ls) && Offered(ws, ls) && Prompt(ws, ls)
    requires c <= k < |ws| && r < |ws[c].rows| && ws[c].rows[r].Status() != Open
    ensures r < |ws[k].rows| && ws[k].rows[r] == ws[c].rows[r]
  {
    hide Fresh, NoOverlap, Offered, Prompt, StatusFromCell;
    if c < k {
      SettledForGood(ws, ls, c, k - 1, r);
      SettledStaysSettled(ws, ls, k - 1, r);
    }
  }

  /** The row that a write settles was open until then. */
  lemma ClaimedRowWasOpen(ws: seq<World>, ls: seq<Label>, c: nat)
    requires IsRun(ws, ls) && Fresh(ws[0]) && NoOverlap(ls) && Offered(ws, ls) && Prompt(ws, ls)
    requires c < |ls| && ls[c].Write?
    ensures forall id :: Holds(ws[c], ls[c].loop, id) ==> OpenRow(ws[c].rows, id)
  {
    var i := ls[c].loop;
    var b, a, id, st := EveryWriteWasClaimed(ws, ls, c);
    var o := EveryClaimWasChosen(ws, ls, b);
    HeldAlong(ws, ls, b, a, c, i, id, st, c);
    assert Untouched(ws, ls, o, b, id) && OpenRow(ws[o].rows, id);
    hide IsRun, NoOverlap, FirstIndex, StatusFromCell, Prompt, Untouched;
    UntouchedRow(ws, ls, o, b, id);
    WriteSeesClaimedRow(ws, ls, b, a, c, i, id, st);
  }

  /**
   * In an overlap-free run a step takes a closed row back exactly when the row was closed when it was claimed for that
   * step.
   */
  lemma TakenBackExactly(ws: seq<World>, ls: seq<Label>, c: nat, r: nat)
    requires IsRun(ws, ls) && Fresh(ws[0]) && NoOverlap(ls)
    requires c < |ls| && r < |ws[c].rows| && ws[c].rows[r].Status() == Closed
    ensures r < |ws[c + 1].rows|
    ensures ws[c + 1].rows[r].Status() != Closed <==> ClaimedClosed(ws, ls, c, r)
  {
    RunKeepsShape(ws, ls, c);
    RunKeepsShape(ws, ls, c + 1);
    hide IsRun, NoOverlap, StatusFromCell, StatusToCell, FirstIndex;
    if ls[c].Write? {
      var b, a, id, st := EveryWriteWasClaimed(ws, ls, c);
      forall b: nat, a: nat, i: nat, id, st | Attempted(ws, ls, b, a, c, i, id, st)
        ensures r == FirstIndex(ws[b].rows, id) ==>
                  r < |ws[b].rows| && ws[b].rows[r] == ws[c].rows[r] && ws[c + 1].rows[r].cell == StatusToCell(st)
        ensures r != FirstIndex(ws[b].rows, id) ==> ws[c + 1].rows[r] == ws[c].rows[r]
      {
        WriteSeesClaimedRow(ws, ls, b, a, c, i, id, st);
        WriteOfWhatWasRead(ws, ls, a, c, i, id, st);
        OverlapFreeWrite(ws, ls, c);
      }
    } else {
      NoWrite(ws[c], ls[c], ws[c + 1]);
    }
  }

  /** Step c writes for a claim that found row r closed, and writes something else. */
  ghost predicate ClaimedClosed(ws: seq<World>, ls: seq<Label>, c: nat, r: nat) {
    exists b: nat, a: nat, i: nat, id, st ::
      Attempted(ws, ls, b, a, c, i, id, st) && b < |ws| && r == FirstIndex(ws[b].rows, id) && r < |ws[b].rows|
      && ws[b].rows[r].Status() == Closed && StatusFromCell(StatusToCell(st)) != Closed
  }

  // ---------------------------------------------------------------- a late claim

  function OneRow(cell: string): Table { [Row("A", cell, [])] }

  function Two(t: Table, claims: set<string>, p: Phase, q: Phase): World { World(t, claims, map[0 := p, 1 := q]) }

  function LateRun(t: Table, u: Table, v: Table): seq<World> {
    var a := "A";
    [ Two(t, {}, Idle, Idle), Two(t, {}, Chosen(a), Idle), Two(t, {}, Chosen(a), Chosen(a)),
      Two(t, {a}, Holding(a), Chosen(a)), Two(t, {a}, Loaded(a, t, Closed), Chosen(a)),
      Two(u, {a}, Written(a), Chosen(a)), Two(u, {}, Idle, Chosen(a)), Two(u, {a}, Idle, Holding(a)),
      Two(u, {a}, Idle, Loaded(a, u, Blocked)), Two(v, {a}, Idle, Written(a)) ]
  }

  function LateSteps(): seq<Label> {
    [ Choose(0, "A"), Choose(1, "A"), ClaimOk(0, "A"), Load(0, Closed), Write(0), ReleaseOk(0, "A"),
      ClaimOk(1, "A"), Load(1, Blocked), Write(1) ]
  }

  lemma LateRunIsRun(t: Table, u: Table, v: Table)
    requires u == WithStatus(t, "A", Closed) && v == WithStatus(u, "A", Blocked)
    ensures IsRun(LateRun(t, u, v), LateSteps())
  {
    hide WithStatus;
    var ws, ls := LateRun(t, u, v), LateSteps();
    forall k | 0 <= k < 9 ensures Step(ws[k], ls[k], ws[k + 1]) {
      if k < 2 {
        LateRunOffers(t, u, v, k);
      } else if k < 5 {
        LateRunSettles(t, u, v, k);
      } else {
        LateRunEnds(t, u, v, k);
      }
    }
  }

  lemma LateRunOffers(t: Table, u: Table, v: Table, k: nat)
    requires k < 2
    ensures Step(LateRun(t, u, v)[k], LateSteps()[k], LateRun(t, u, v)[k + 1])
  {
    hide WithStatus;
  }

  lemma LateRunSettles(t: Table, u: Table, v: Table, k: nat)
    requires u == WithStatus(t, "A", Closed) && 2 <= k < 5
    ensures Step(LateRun(t, u, v)[k], LateSteps()[k], LateRun(t, u, v)[k + 1])
  {
    hide WithStatus;
  }

  lemma LateRunEnds(t: Table, u: Table, v: Table, k: nat)
    requires v == WithStatus(u, "A", Blocked) && 5 <= k < 9
    ensures Step(LateRun(t, u, v)[k], LateSteps()[k], LateRun(t, u, v)[k + 1])
  {
    hide WithStatus;
  }

  lemma OneRowWritten(cell: string, st: Status)
    ensures WithStatus(OneRow(cell), "A", st) == OneRow(StatusToCell(st))
    ensures StatusFromCell(cell) == Open ==> NextFrom(OneRow(cell), {}, 0) == 0 && OpenRow(OneRow(cell), "A")
  {
    hide StatusFromCell, StatusToCell;
    var t := OneRow(cell);
    assert FirstIndex(t, "A") == 0;
    assert t[0].Status() == Open ==> Ready(t, {}, t[0]);
  }

  lemma LateStepsInOrder()
    ensures NoOverlap(LateSteps()) && Settling(LateSteps())
  {
    var ls := LateSteps();
    assert forall a: nat, b: nat :: Pair(ls, a, b) ==> b == a + 1;
  }

  lemma LateRunRows(t: Table, u: Table, v: Table)
    ensures var ws, ls := LateRun(t, u, v), LateSteps();
            && |ws| == 10 && |ls| == 9 && Fresh(ws[0]) && ws[0].rows == t && ws[8].rows == u && ws[9].rows == v
            && forall k: nat :: k < 9 && ls[k].Choose? ==> ws[k].rows == t && ws[k].claims == {} && ls[k].id == "A"
  {
  }

  /**
   * Two loops are offered the one open row; the second claims it after the first has closed it and let go, and parks
   * it.
   * Reads and writes do not overlap, and yet the closed row ends blocked.
   */
  lemma SettledAfterOffered() returns (ws: seq<World>, ls: seq<Label>)
    ensures IsRun(ws, ls) && Fresh(ws[0]) && NoOverlap(ls) && Offered(ws, ls) && Settling(ls) && !Prompt(ws, ls)
    ensures forall k: nat :: k < |ls| && ls[k].Choose? ==> NextFrom(ws[k].rows, ws[k].claims, 0) == 0
    ensures |ls| == 9 && |ws| == 10 && ws[0].rows == OneRow("OPEN")
    ensures ws[8].rows == OneRow("COMPLETE") && ws[8].rows[0].Status() == Closed
    ensures ws[9].rows == OneRow("BLOCKED") && ws[9].rows[0].Status() == Blocked
  {
    var t, u, v := OneRow("OPEN"), OneRow("COMPLETE"), OneRow("BLOCKED");
    OneRowWritten("OPEN", Closed);
    OneRowWritten("COMPLETE", Blocked);
    StatusRoundTrip(Open);
    StatusRoundTrip(Closed);
    StatusRoundTrip(Blocked);
    hide IsRun, NoOverlap, StatusFromCell, WithStatus, NextFrom, Prompt, OpenRow, LateRun, LateSteps, Fresh;
    ws, ls := LateRun(t, u, v), LateSteps();
    LateRunIsRun(t, u, v);
    LateStepsInOrder();
    LateRunRows(t, u, v);
    if Prompt(ws, ls) {
      SettledStaysSettled(ws, ls, 8, 0);
    }
  }
}
