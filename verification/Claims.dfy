/** Several drain loops over one store, interleaved step by step. */
module Claims {
  import opened Requirements

  /** Where one loop stands. Reading and writing the table are separate steps. */
  datatype Phase = Idle | Chosen(id: string) | Holding(id: string) | Loaded(id: string, table: Table, st: Status)
                 | Written(id: string) | Ended

  datatype World = World(rows: Table, claims: set<string>, loops: map<nat, Phase>)

  datatype Label = Choose(loop: nat, id: string) | ClaimOk(loop: nat, id: string) | ClaimFails(loop: nat)
                 | Load(loop: nat, st: Status) | Write(loop: nat) | WriteFails(loop: nat)
                 | ReleaseOk(loop: nat, id: string) | ReleaseFails(loop: nat)

  function At(w: World, loop: nat): Phase { if loop in w.loops then w.loops[loop] else Ended }

  function Move(w: World, loop: nat, p: Phase): World { w.(loops := w.loops[loop := p]) }

  /** One step. Next is taken at its weakest: whatever it saw of the table and the claims, it may have chosen any id. */
  ghost predicate Step(w: World, l: Label, w': World) {
    var p := At(w, l.loop);
    match l
    case Choose(i, id) => p == Idle && w' == Move(w, i, Chosen(id))
    case ClaimOk(i, id) =>
      p == Chosen(id) && id !in w.claims && w' == Move(w, i, Holding(id)).(claims := w.claims + {id})
    case ClaimFails(i) => p.Chosen? && w' == Move(w, i, Ended)
    case Load(i, st) => p.Holding? && w' == Move(w, i, Loaded(p.id, w.rows, st))
    case Write(i) => p.Loaded? && w' == Move(w, i, Written(p.id)).(rows := WithStatus(p.table, p.id, p.st))
    case WriteFails(i) => p.Loaded? && w' == Move(w, i, Ended)
    case ReleaseOk(i, id) => p == Written(id) && w' == Move(w, i, Idle).(claims := w.claims - {id})
    case ReleaseFails(i) => p.Written? && w' == Move(w, i, Idle)
  }

  ghost predicate IsRun(ws: seq<World>, ls: seq<Label>) {
    |ws| == |ls| + 1 && forall k :: 0 <= k < |ls| ==> Step(ws[k], ls[k], ws[k + 1])
  }

  ghost predicate Fresh(w: World) { forall i :: i in w.loops ==> w.loops[i] == Idle }

  /** Between its successful claim and its release. */
  predicate Holds(w: World, loop: nat, id: string) {
    match At(w, loop)
    case Holding(x) => x == id
    case Loaded(x, _, _) => x == id
    case Written(x) => x == id
    case _ => false
  }

  ghost predicate Exclusive(w: World) {
    && (forall i: nat, id :: Holds(w, i, id) ==> id in w.claims)
    && (forall i: nat, j: nat, id :: Holds(w, i, id) && Holds(w, j, id) ==> i == j)
  }

  lemma StepHolds(w: World, l: Label, w': World, i: nat, id: string)
    requires Step(w, l, w') && Holds(w', i, id) && !Holds(w, i, id)
    ensures l == ClaimOk(i, id)
  {
  }

  lemma StepClaims(w: World, l: Label, w': World, id: string)
    requires Step(w, l, w') && id in w.claims && id !in w'.claims
    ensures l.ReleaseOk? && l.id == id && Holds(w, l.loop, id) && !Holds(w', l.loop, id)
  {
  }

  lemma ExclusiveStep(w: World, l: Label, w': World)
    requires Exclusive(w) && Step(w, l, w')
    ensures Exclusive(w')
  {
    forall i: nat, id | Holds(w', i, id) ensures id in w'.claims {
      if !Holds(w, i, id) {
        StepHolds(w, l, w', i, id);
      } else if id !in w'.claims {
        StepClaims(w, l, w', id);
      }
    }
    forall i: nat, j: nat, id | Holds(w', i, id) && Holds(w', j, id) ensures i == j {
      if !Holds(w, i, id) {
        StepHolds(w, l, w', i, id);
      }
      if !Holds(w, j, id) {
        StepHolds(w, l, w', j, id);
      }
    }
  }

  /** Mutual exclusion: at every point of every run of any number of loops, at most one holds a given requirement. */
  lemma {:induction false} AtMostOneHolder(ws: seq<World>, ls: seq<Label>, k: nat)
    requires IsRun(ws, ls) && Fresh(ws[0]) && k < |ws|
    ensures Exclusive(ws[k])
  {
    if k > 0 {
      AtMostOneHolder(ws, ls, k - 1);
      ExclusiveStep(ws[k - 1], ls[k - 1], ws[k]);
    }
  }

  /** id is claimed, and nobody but loop i can be holding it. */
  ghost predicate OnlyHolder(w: World, i: nat, id: string) {
    id in w.claims && forall j: nat :: j != i ==> !Holds(w, j, id)
  }

  lemma OnlyHolderStep(w: World, l: Label, w': World, i: nat, id: string)
    requires OnlyHolder(w, i, id) && Step(w, l, w') && l != ReleaseOk(i, id)
    ensures OnlyHolder(w', i, id)
  {
    if id !in w'.claims {
      StepClaims(w, l, w', id);
    }
    forall j: nat | j != i ensures !Holds(w', j, id) {
      if Holds(w', j, id) {
        StepHolds(w, l, w', j, id);
      }
    }
  }

  lemma {:induction false} OnlyHolderLasts(ws: seq<World>, ls: seq<Label>, i: nat, id: string, from: nat, until: nat)
    requires IsRun(ws, ls) && from <= until < |ws| && OnlyHolder(ws[from], i, id)
    requires forall k :: from <= k < until ==> ls[k] != ReleaseOk(i, id)
    ensures OnlyHolder(ws[until], i, id)
    decreases until - from
  {
    if from < until {
      OnlyHolderStep(ws[from], ls[from], ws[from + 1], i, id);
      OnlyHolderLasts(ws, ls, i, id, from + 1, until);
    }
  }

  /** A requirement is claimed a second time, by anyone, only after the loop that claimed it has itself released it. */
  lemma ReclaimNeedsOwnRelease(ws: seq<World>, ls: seq<Label>, a: nat, b: nat, i: nat, j: nat, id: string)
    requires IsRun(ws, ls) && Fresh(ws[0]) && a < b < |ls|
    requires ls[a] == ClaimOk(i, id) && ls[b] == ClaimOk(j, id)
    ensures exists k :: a < k < b && ls[k] == ReleaseOk(i, id)
  {
    AtMostOneHolder(ws, ls, a + 1);
    assert Step(ws[a], ls[a], ws[a + 1]);
    assert Holds(ws[a + 1], i, id);
    assert OnlyHolder(ws[a + 1], i, id);
    assert Step(ws[b], ls[b], ws[b + 1]) && id !in ws[b].claims;
    if forall k :: a < k < b ==> ls[k] != ReleaseOk(i, id) {
      OnlyHolderLasts(ws, ls, i, id, a + 1, b);
    }
  }

  function Backlog(): Table { [Row("A", "OPEN", []), Row("B", "OPEN", [])] }

  function BothHolding(): World { World(Backlog(), {"A", "B"}, map[0 := Holding("A"), 1 := Holding("B")]) }

  /** A run in which requirement A is closed at one point and open again at the end. */
  ghost predicate Reverts(ws: seq<World>, ls: seq<Label>) {
    && IsRun(ws, ls) && Fresh(ws[0]) && |ws| > 1
    && (var r := ws[|ws| - 2].rows; |r| > 0 && r[0].id == "A" && r[0].Status() == Closed)
    && (var r := ws[|ws| - 1].rows; |r| > 0 && r[0].id == "A" && r[0].Status() == Open)
  }

  lemma RunSnoc(ws: seq<World>, ls: seq<Label>, l: Label, w: World)
    requires IsRun(ws, ls) && Step(ws[|ls|], l, w)
    ensures IsRun(ws + [w], ls + [l]) && (ws + [w])[|ls + [l]|] == w && (ws + [w])[0] == ws[0]
  {
    hide Step;
  }

  /** One loop claims A, the other B. */
  lemma BothHold() returns (ws: seq<World>, ls: seq<Label>)
    ensures IsRun(ws, ls) && |ws| == |ls| + 1 && Fresh(ws[0])
    ensures ws[|ls|] == BothHolding()
  {
    var w0 := World(Backlog(), {}, map[0 := Idle, 1 := Idle]);
    var w1 := World(Backlog(), {}, map[0 := Chosen("A"), 1 := Idle]);
    var w2 := World(Backlog(), {"A"}, map[0 := Holding("A"), 1 := Idle]);
    var w3 := World(Backlog(), {"A"}, map[0 := Holding("A"), 1 := Chosen("B")]);
    var w4 := World(Backlog(), {"A", "B"}, map[0 := Holding("A"), 1 := Holding("B")]);
    assert Step(w0, Choose(0, "A"), w1) && Step(w1, ClaimOk(0, "A"), w2);
    assert Step(w2, Choose(1, "B"), w3) && Step(w3, ClaimOk(1, "B"), w4);
    hide Step;
    ws, ls := [w0], [];
    RunSnoc(ws, ls, Choose(0, "A"), w1);
    ws, ls := ws + [w1], ls + [Choose(0, "A")];
    RunSnoc(ws, ls, ClaimOk(0, "A"), w2);
    ws, ls := ws + [w2], ls + [ClaimOk(0, "A")];
    RunSnoc(ws, ls, Choose(1, "B"), w3);
    ws, ls := ws + [w3], ls + [Choose(1, "B")];
    RunSnoc(ws, ls, ClaimOk(1, "B"), w4);
    ws, ls := ws + [w4], ls + [ClaimOk(1, "B")];
  }

  /** Both read the table, then both write it. */
  lemma LateSteps(w4: World) returns (l: seq<Label>, w5: World, w6: World, w7: World, w8: World)
    requires w4 == BothHolding()
    ensures |l| == 4 && Step(w4, l[0], w5) && Step(w5, l[1], w6) && Step(w6, l[2], w7) && Step(w7, l[3], w8)
    ensures w7.rows == WithStatus(Backlog(), "A", Closed) && w8.rows == WithStatus(Backlog(), "B", Closed)
  {
    hide WithStatus;
    var t, c := Backlog(), w4.claims;
    l := [Load(0, Closed), Load(1, Closed), Write(0), Write(1)];
    w5 := World(t, c, map[0 := Loaded("A", t, Closed), 1 := Holding("B")]);
    w6 := World(t, c, map[0 := Loaded("A", t, Closed), 1 := Loaded("B", t, Closed)]);
    w7 := World(WithStatus(t, "A", Closed), c, map[0 := Written("A"), 1 := Loaded("B", t, Closed)]);
    w8 := World(WithStatus(t, "B", Closed), c, map[0 := Written("A"), 1 := Written("B")]);
  }

  /** What claims do not give: two loops on different requirements can undo each other's status writes. */
  lemma StatusCanRevert()
    ensures exists ws: seq<World>, ls: seq<Label> :: Reverts(ws, ls)
  {
    hide Step, WithStatus, IsRun, Fresh, Reverts, Backlog, BothHolding;
    var ws, ls := BothHold();
    var l, w5, w6, w7, w8 := LateSteps(ws[|ls|]);
    RunFour(ws, ls, l, w5, w6, w7, w8);
    RevertsAtEnd(ws, [w5, w6, w7, w8], ls + l);
  }

  lemma RunFour(ws: seq<World>, ls: seq<Label>, l: seq<Label>, w1: World, w2: World, w3: World, w4: World)
    requires |l| == 4 && IsRun(ws, ls)
    requires Step(ws[|ls|], l[0], w1) && Step(w1, l[1], w2) && Step(w2, l[2], w3) && Step(w3, l[3], w4)
    ensures IsRun(ws + [w1, w2, w3, w4], ls + l)
  {
    hide Step;
    RunSnoc(ws, ls, l[0], w1);
    RunSnoc(ws + [w1], ls + [l[0]], l[1], w2);
    RunSnoc(ws + [w1] + [w2], ls + [l[0]] + [l[1]], l[2], w3);
    RunSnoc(ws + [w1] + [w2] + [w3], ls + [l[0]] + [l[1]] + [l[2]], l[3], w4);
    hide IsRun;
    assert ws + [w1] + [w2] + [w3] + [w4] == ws + [w1, w2, w3, w4];
    assert ls + [l[0]] + [l[1]] + [l[2]] + [l[3]] == ls + l;
  }

  lemma RevertsAtEnd(ws: seq<World>, last: seq<World>, ls: seq<Label>)
    requires |ws| > 0 && |last| == 4 && IsRun(ws + last, ls) && Fresh(ws[0])
    requires last[2].rows == WithStatus(Backlog(), "A", Closed) && last[3].rows == WithStatus(Backlog(), "B", Closed)
    ensures Reverts(ws + last, ls)
  {
    LostUpdateTable(Backlog());
    StatusRoundTrip(Closed);
    StatusRoundTrip(Open);
    hide IsRun, StatusFromCell, WithStatus;
  }

  lemma LostUpdateTable(t: Table)
    requires t == Backlog()
    ensures WithStatus(t, "A", Closed) == t[0 := Row("A", "COMPLETE", [])]
    ensures WithStatus(t, "B", Closed) == t[1 := Row("B", "COMPLETE", [])]
  {
    assert FirstIndex(t, "A") == 0;
    assert FirstIndex(t, "B") == 1;
  }
}
