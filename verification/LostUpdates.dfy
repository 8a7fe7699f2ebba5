/** Which table writes survive when several loops share one store. */
module LostUpdates {
  import opened Requirements
  import opened Claims

  /** Loop i reads the table at step a, for the id it holds, and writes it back at step b as its next step. */
  ghost predicate ReadWrite(ws: seq<World>, ls: seq<Label>, a: nat, b: nat, i: nat, id: string, st: Status) {
    && IsRun(ws, ls) && a < b < |ls|
    && ls[a] == Load(i, st) && ls[b] == Write(i) && At(ws[a], i) == Holding(id)
    && forall k :: a < k < b ==> ls[k].loop != i
  }

  // ---------------------------------------------------------------- a write is of the table that was read

  lemma {:induction false} LoadedStays(ws: seq<World>, ls: seq<Label>, i: nat, from: nat, k: nat)
    requires IsRun(ws, ls) && from <= k < |ws|
    requires forall j :: from <= j < k ==> ls[j].loop != i
    ensures At(ws[k], i) == At(ws[from], i)
  {
    if from < k {
      LoadedStays(ws, ls, i, from, k - 1);
      assert Step(ws[k - 1], ls[k - 1], ws[k]);
    }
  }

  /** The table after the write is the one read at step a with one cell changed, whatever was written in between. */
  lemma WriteOfWhatWasRead(ws: seq<World>, ls: seq<Label>, a: nat, b: nat, i: nat, id: string, st: Status)
    requires ReadWrite(ws, ls, a, b, i, id, st)
    ensures ws[b + 1].rows == WithStatus(ws[a].rows, id, st)
    ensures At(ws[b], i) == Loaded(id, ws[a].rows, st) && Holds(ws[b + 1], i, id)
  {
    assert Step(ws[a], ls[a], ws[a + 1]) && Step(ws[b], ls[b], ws[b + 1]);
    LoadedStays(ws, ls, i, a + 1, b);
  }

  /** A loop that has a table in hand read it at some earlier step, and has done nothing since. */
  lemma {:induction false} LoadedFrom(ws: seq<World>, ls: seq<Label>, k: nat, i: nat) returns (a: nat)
    requires IsRun(ws, ls) && Fresh(ws[0]) && k < |ws| && At(ws[k], i).Loaded?
    ensures a < k && ls[a] == Load(i, At(ws[k], i).st) && At(ws[a], i) == Holding(At(ws[k], i).id)
    ensures forall j :: a < j < k ==> ls[j].loop != i
  {
    if k > 0 {
      assert Step(ws[k - 1], ls[k - 1], ws[k]);
      if ls[k - 1].loop == i {
        a := k - 1;
      } else {
        a := LoadedFrom(ws, ls, k - 1, i);
      }
    }
  }

  /** Every write of a run has its read. */
  lemma EveryWriteHasARead(ws: seq<World>, ls: seq<Label>, b: nat) returns (a: nat, id: string, st: Status)
    requires IsRun(ws, ls) && Fresh(ws[0]) && b < |ls| && ls[b].Write?
    ensures ReadWrite(ws, ls, a, b, ls[b].loop, id, st)
  {
    assert Step(ws[b], ls[b], ws[b + 1]);
    var p := At(ws[b], ls[b].loop);
    a := LoadedFrom(ws, ls, b, ls[b].loop);
    id, st := p.id, p.st;
  }

  // ---------------------------------------------------------------- every table of a run has the same rows

  ghost predicate ShapeKept(t: Table, w: World) {
    SameShape(t, w.rows) && forall i: nat :: At(w, i).Loaded? ==> SameShape(t, At(w, i).table)
  }

  lemma ShapeStep(t: Table, w: World, l: Label, w': World)
    requires ShapeKept(t, w) && Step(w, l, w')
    ensures ShapeKept(t, w')
  {
    assert forall i: nat :: i != l.loop ==> At(w', i) == At(w, i);
    assert ShapeKept(t, w) && At(w, l.loop).Loaded? ==> SameShape(t, At(w, l.loop).table);
    hide StatusToCell;
  }

  lemma {:induction false} RunKeepsShape(ws: seq<World>, ls: seq<Label>, k: nat)
    requires IsRun(ws, ls) && Fresh(ws[0]) && k < |ws|
    ensures ShapeKept(ws[0].rows, ws[k])
  {
    if k > 0 {
      RunKeepsShape(ws, ls, k - 1);
      ShapeStep(ws[0].rows, ws[k - 1], ls[k - 1], ws[k]);
    }
  }

  // ---------------------------------------------------------------- when a write loses another one

  /** Two tables give the same table with id's status set exactly when they agree on every other cell. */
  lemma SameWithStatus(t: Table, u: Table, id: string, st: Status)
    requires SameShape(t, u)
    ensures WithStatus(t, id, st) == WithStatus(u, id, st) <==>
            forall r :: 0 <= r < |t| && r != FirstIndex(t, id) ==> t[r].cell == u[r].cell
  {
    ShapeFirstIndex(t, u, id);
    var t', u' := WithStatus(t, id, st), WithStatus(u, id, st);
    hide StatusToCell, FirstIndex;
    if t' == u' {
      forall r | 0 <= r < |t| && r != FirstIndex(t, id) ensures t[r].cell == u[r].cell {
        assert t'[r] == t[r] && u'[r] == u[r];
      }
    }
  }

  /**
   * A write does what it would have done on the table it overwrites exactly when nobody has changed another cell since
   * it read.
   * Otherwise every changed cell but its own goes back to what it read.
   */
  lemma WriteSurvivesExactly(ws: seq<World>, ls: seq<Label>, a: nat, b: nat, i: nat, id: string, st: Status)
    requires ReadWrite(ws, ls, a, b, i, id, st) && Fresh(ws[0])
    ensures SameShape(ws[a].rows, ws[b].rows) && SameShape(ws[b].rows, ws[b + 1].rows)
    ensures ws[b + 1].rows == WithStatus(ws[b].rows, id, st) <==>
            forall r ::
              0 <= r < |ws[b].rows| && r != FirstIndex(ws[b].rows, id) ==> ws[a].rows[r].cell == ws[b].rows[r].cell
    ensures forall r ::
              0 <= r < |ws[b].rows| && r != FirstIndex(ws[b].rows, id) ==> ws[b + 1].rows[r].cell == ws[a].rows[r].cell
  {
    RunKeepsShape(ws, ls, a);
    RunKeepsShape(ws, ls, b);
    RunKeepsShape(ws, ls, b + 1);
    WriteOfWhatWasRead(ws, ls, a, b, i, id, st);
    ShapeFirstIndex(ws[a].rows, ws[b].rows, id);
    SameWithStatus(ws[a].rows, ws[b].rows, id, st);
    hide IsRun, StatusToCell, FirstIndex;
  }

  /**
   * When one step takes a closed requirement back: a late write of a table in which it was not closed yet, and not for
   * its own row.
   */
  lemma ReopensExactly(ws: seq<World>, ls: seq<Label>, k: nat, r: nat)
    requires IsRun(ws, ls) && Fresh(ws[0]) && k < |ls| && r < |ws[k].rows| && ws[k].rows[r].Status() == Closed
    ensures r < |ws[k + 1].rows|
    ensures ws[k + 1].rows[r].Status() != Closed <==>
            exists a: nat, i: nat, id, st :: ReadWrite(ws, ls, a, k, i, id, st)
              && if r == FirstIndex(ws[k].rows, id) then StatusFromCell(StatusToCell(st)) != Closed
                 else r < |ws[a].rows| && ws[a].rows[r].Status() != Closed
  {
    hide StatusFromCell, StatusToCell;
    if ls[k].Write? {
      var a, id, st := EveryWriteHasARead(ws, ls, k);
      forall a: nat, i: nat, id, st | ReadWrite(ws, ls, a, k, i, id, st)
        ensures r < |ws[a].rows| == |ws[k + 1].rows|
        ensures ws[k + 1].rows[r].cell
                == if r == FirstIndex(ws[k].rows, id) then StatusToCell(st) else ws[a].rows[r].cell
      {
        WriteSurvivesExactly(ws, ls, a, k, i, id, st);
        WriteOfWhatWasRead(ws, ls, a, k, i, id, st);
        ShapeFirstIndex(ws[a].rows, ws[k].rows, id);
      }
    } else {
      NoWrite(ws[k], ls[k], ws[k + 1]);
    }
  }

  // ---------------------------------------------------------------- runs whose reads and writes do not overlap

  lemma NoWrite(w: World, l: Label, w': World)
    requires Step(w, l, w') && !l.Write?
    ensures w'.rows == w.rows
  {
  }

  lemma {:induction false} NoWriteNoChange(ws: seq<World>, ls: seq<Label>, from: nat, k: nat)
    requires IsRun(ws, ls) && from <= k < |ws|
    requires forall c :: from <= c < k ==> !ls[c].Write?
    ensures ws[k].rows == ws[from].rows
  {
    if from < k {
      NoWriteNoChange(ws, ls, from, k - 1);
      NoWrite(ws[k - 1], ls[k - 1], ws[k]);
    }
  }

  /** Nothing is lost when no other write comes between the read and the write. */
  lemma QuietWriteSurvives(ws: seq<World>, ls: seq<Label>, a: nat, b: nat, i: nat, id: string, st: Status)
    requires ReadWrite(ws, ls, a, b, i, id, st)
    requires forall c :: a < c < b ==> !ls[c].Write?
    ensures ws[b + 1].rows == WithStatus(ws[b].rows, id, st)
  {
    NoWriteNoChange(ws, ls, a, b);
    WriteOfWhatWasRead(ws, ls, a, b, i, id, st);
  }

  /** Step b writes back what its loop read at step a. */
  ghost predicate Pair(ls: seq<Label>, a: nat, b: nat) {
    a < b < |ls| && ls[a].Load? && ls[b] == Write(ls[a].loop) && forall k :: a < k < b ==> ls[k].loop != ls[a].loop
  }

  /**
   * No write comes between another loop's read and the write that follows it: a condition on the order of steps alone.
   */
  ghost predicate NoOverlap(ls: seq<Label>) {
    forall a: nat, b: nat, c: nat :: Pair(ls, a, b) && a < c < b ==> !ls[c].Write?
  }

  /** Step k writes the status of id. */
  ghost predicate WritesFor(ws: seq<World>, ls: seq<Label>, k: nat, id: string) {
    k < |ls| && k < |ws| && ls[k].Write? && Holds(ws[k], ls[k].loop, id)
  }

  /** In such a run every write is one indivisible status update. */
  lemma OverlapFreeWrite(ws: seq<World>, ls: seq<Label>, b: nat)
    requires IsRun(ws, ls) && Fresh(ws[0]) && NoOverlap(ls) && b < |ls| && ls[b].Write?
    ensures var p := At(ws[b], ls[b].loop); p.Loaded? && ws[b + 1].rows == WithStatus(ws[b].rows, p.id, p.st)
  {
    var a, id, st := EveryWriteHasARead(ws, ls, b);
    assert Pair(ls, a, b);
    hide IsRun, WithStatus, FirstIndex;
    WriteOfWhatWasRead(ws, ls, a, b, ls[b].loop, id, st);
    QuietWriteSurvives(ws, ls, a, b, ls[b].loop, id, st);
  }

  /** In such a run a step that writes for one id changes no row of another id. */
  lemma OverlapFreeStep(ws: seq<World>, ls: seq<Label>, k: nat, r: nat)
    requires IsRun(ws, ls) && Fresh(ws[0]) && NoOverlap(ls) && k < |ls| && r < |ws[k].rows|
    requires !WritesFor(ws, ls, k, ws[k].rows[r].id)
    ensures r < |ws[k + 1].rows| && ws[k + 1].rows[r] == ws[k].rows[r]
  {
    if ls[k].Write? {
      OverlapFreeWrite(ws, ls, k);
    } else {
      NoWrite(ws[k], ls[k], ws[k + 1]);
    }
  }

  /**
   * So over any stretch of such a run a row keeps its status, closed above all, unless a write for its own id comes.
   */
  lemma {:induction false} OverlapFreeRun(ws: seq<World>, ls: seq<Label>, from: nat, k: nat, r: nat)
    requires IsRun(ws, ls) && Fresh(ws[0]) && NoOverlap(ls) && from <= k < |ws| && r < |ws[from].rows|
    requires forall c: nat :: from <= c < k ==> !WritesFor(ws, ls, c, ws[from].rows[r].id)
    ensures r < |ws[k].rows| && ws[k].rows[r] == ws[from].rows[r]
  {
    if from < k {
      OverlapFreeRun(ws, ls, from, k - 1, r);
      OverlapFreeStep(ws, ls, k - 1, r);
    }
  }

  /** While it holds a requirement, a loop is the only one to write for it. */
  lemma OnlyTheHolderWrites(ws: seq<World>, ls: seq<Label>, k: nat, i: nat, id: string)
    requires IsRun(ws, ls) && Fresh(ws[0]) && k < |ls| && Holds(ws[k], i, id) && ls[k].loop != i
    ensures !WritesFor(ws, ls, k, id)
  {
    AtMostOneHolder(ws, ls, k);
  }

  /** A status written by a loop is still there at its next step, which for a write that went well is the release. */
  lemma HeldStatusLasts(ws: seq<World>, ls: seq<Label>, a: nat, b: nat, k: nat, i: nat, id: string, st: Status)
    requires ReadWrite(ws, ls, a, b, i, id, st) && Fresh(ws[0]) && NoOverlap(ls) && b < k < |ws|
    requires forall c :: b < c < k ==> ls[c].loop != i
    ensures var r := FirstIndex(ws[0].rows, id);
            r < |ws[0].rows| ==> r < |ws[k].rows| && ws[k].rows[r] == ws[0].rows[r].(cell := StatusToCell(st))
  {
    RunKeepsShape(ws, ls, a);
    ShapeFirstIndex(ws[0].rows, ws[a].rows, id);
    WriteOfWhatWasRead(ws, ls, a, b, i, id, st);
    var r := FirstIndex(ws[0].rows, id);
    if r < |ws[0].rows| {
      forall c: nat | b < c < k ensures !WritesFor(ws, ls, c, id) {
        LoadedStays(ws, ls, i, b + 1, c);
        OnlyTheHolderWrites(ws, ls, c, i, id);
      }
      OverlapFreeRun(ws, ls, b + 1, k, r);
    }
  }

  /** The table after k steps if every write had been one indivisible status update, in the order of the writes. */
  ghost function Replay(ws: seq<World>, ls: seq<Label>, k: nat): Table
    requires k <= |ls| && k < |ws|
  {
    if k == 0 then ws[0].rows
    else
      var t, p := Replay(ws, ls, k - 1), At(ws[k - 1], ls[k - 1].loop);
      if ls[k - 1].Write? && p.Loaded? then WithStatus(t, p.id, p.st) else t
  }

  lemma ReplayStep(ws: seq<World>, ls: seq<Label>, b: nat)
    requires b < |ls| && b + 1 < |ws|
    ensures var t, p := Replay(ws, ls, b), At(ws[b], ls[b].loop);
            Replay(ws, ls, b + 1) == if ls[b].Write? && p.Loaded? then WithStatus(t, p.id, p.st) else t
  {
    hide WithStatus, At;
  }

  /** Without overlap the separate reads and writes amount to indivisible updates. */
  lemma {:induction false} OverlapFreeIsSerial(ws: seq<World>, ls: seq<Label>, k: nat)
    requires IsRun(ws, ls) && Fresh(ws[0]) && NoOverlap(ls) && k < |ws|
    ensures ws[k].rows == Replay(ws, ls, k)
  {
    if k > 0 {
      var b: nat := k - 1;
      assert Step(ws[b], ls[b], ws[k]);
      ReplayStep(ws, ls, b);
      hide WithStatus, NoOverlap, IsRun, Step, Fresh, Replay, At;
      OverlapFreeIsSerial(ws, ls, b);
      if ls[b].Write? {
        OverlapFreeWrite(ws, ls, b);
      } else {
        NoWrite(ws[b], ls[b], ws[k]);
      }
    }
  }
}
