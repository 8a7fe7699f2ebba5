/** When the backlog reads as drained, what can still be open, and why. */
module DrainCompleteness {
  import opened Text
  import opened Requirements
  import opened Drain
  import DrainLaws

  /** a depends on b. */
  ghost predicate DependsOn(t: Table, a: string, b: string) {
    exists i :: 0 <= i < |t| && t[i].id == a && b in t[i].deps
  }

  ghost predicate IsPath(t: Table, p: seq<string>) {
    forall k :: 0 <= k < |p| - 1 ==> DependsOn(t, p[k], p[k + 1])
  }

  ghost predicate Acyclic(t: Table) {
    !exists p :: |p| > 1 && IsPath(t, p) && p[0] == p[|p| - 1]
  }

  /** Some row of id is open, and id is not claimed. */
  ghost predicate Waiting(t: Table, claims: set<string>, id: string) {
    id !in claims && exists i :: 0 <= i < |t| && t[i].id == id && t[i].Status() == Open
  }

  /** Missing, blocked, proposed, or open but claimed: what a waiting requirement can be held up by. */
  ghost predicate Stopper(t: Table, claims: set<string>, id: string) {
    match LastStatus(t, id)
    case None => true
    case Some(st) => st == Blocked || st == Proposed || (st == Open && id in claims)
  }

  /** A dependency path of waiting requirements that ends at a stopper. */
  ghost predicate HeldUp(t: Table, claims: set<string>, p: seq<string>) {
    && |p| > 1 && IsPath(t, p)
    && (forall k :: 0 <= k < |p| - 1 ==> Waiting(t, claims, p[k]))
    && Stopper(t, claims, p[|p| - 1])
  }

  lemma {:induction false} DistinctFits(p: seq<string>, s: set<string>)
    requires forall i, j :: 0 <= i < j < |p| ==> p[i] != p[j]
    requires forall i :: 0 <= i < |p| ==> p[i] in s
    ensures |p| <= |s|
  {
    if p != [] {
      var n := |p| - 1;
      DistinctFits(p[..n], s - {p[n]});
    }
  }

  lemma AcyclicPathIsDistinct(t: Table, p: seq<string>)
    requires Acyclic(t) && IsPath(t, p)
    ensures forall i, j :: 0 <= i < j < |p| ==> p[i] != p[j]
  {
    forall i, j | 0 <= i < j < |p| ensures p[i] != p[j] {
      var q := SubPath(t, p, i, j);
      hide IsPath;
    }
  }

  lemma SubPath(t: Table, p: seq<string>, i: nat, j: nat) returns (q: seq<string>)
    requires IsPath(t, p) && i < j < |p|
    ensures |q| > 1 && q[0] == p[i] && q[|q| - 1] == p[j] && IsPath(t, q)
  {
    hide DependsOn;
    q := p[i..j + 1];
    forall k | 0 <= k < |q| - 1 ensures DependsOn(t, q[k], q[k + 1]) {
      assert DependsOn(t, p[i + k], p[i + k + 1]);
    }
  }

  /** A stored status is never Claimed: claims are files, not cells. */
  lemma CellsAreNeverClaimed(t: Table, id: string)
    ensures LastStatus(t, id) != Some(Claimed)
  {
    LastStatusIsARow(t, id);
  }

  /** When Next finds nothing, a waiting requirement has a dependency that is not closed. */
  lemma WaitingHasOpenDependency(t: Table, claims: set<string>, id: string) returns (d: string)
    requires NextFrom(t, claims, 0) == |t| && Waiting(t, claims, id)
    ensures DependsOn(t, id, d) && (Waiting(t, claims, d) || Stopper(t, claims, d))
  {
    var i :| 0 <= i < |t| && t[i].id == id && t[i].Status() == Open;
    assert !Ready(t, claims, t[i]);
    d :| d in t[i].deps && LastStatus(t, d) != Some(Closed);
    CellsAreNeverClaimed(t, d);
    LastStatusIsARow(t, d);
  }

  lemma PathSnoc(t: Table, p: seq<string>, d: string)
    requires |p| > 0 && IsPath(t, p) && DependsOn(t, p[|p| - 1], d)
    ensures IsPath(t, p + [d])
  {
    hide DependsOn;
    var p' := p + [d];
    forall k | 0 <= k < |p'| - 1 ensures DependsOn(t, p'[k], p'[k + 1]) {
      if k < |p| - 1 {
        assert DependsOn(t, p[k], p[k + 1]);
      }
    }
  }

  lemma PathFits(t: Table, claims: set<string>, p: seq<string>)
    requires Acyclic(t) && IsPath(t, p) && forall k :: 0 <= k < |p| ==> Waiting(t, claims, p[k])
    ensures |p| <= |Ids(t)|
  {
    AcyclicPathIsDistinct(t, p);
    forall k | 0 <= k < |p| ensures p[k] in Ids(t) {
      assert Waiting(t, claims, p[k]);
    }
    DistinctFits(p, Ids(t));
  }

  /** Walking dependencies from a waiting requirement must end at a stopper, for want of distinct ids. */
  lemma {:induction false} WalkEnds(t: Table, claims: set<string>, p: seq<string>) returns (q: seq<string>)
    requires NextFrom(t, claims, 0) == |t| && Acyclic(t)
    requires |p| > 0 && IsPath(t, p) && forall k :: 0 <= k < |p| ==> Waiting(t, claims, p[k])
    ensures HeldUp(t, claims, q) && q[0] == p[0]
    decreases |Ids(t)| + 1 - |p|
  {
    hide Waiting, Stopper, Acyclic, NextFrom, DependsOn, IsPath, Ids;
    PathFits(t, claims, p);
    var d := WaitingHasOpenDependency(t, claims, p[|p| - 1]);
    PathSnoc(t, p, d);
    if Stopper(t, claims, d) {
      q := p + [d];
    } else {
      q := WalkEnds(t, claims, p + [d]);
    }
  }

  /** On an acyclic table with nothing left to offer, every open unclaimed requirement is held up through open ones. */
  lemma NothingToOffer(t: Table, claims: set<string>, i: nat)
    requires NextFrom(t, claims, 0) == |t| && Acyclic(t)
    requires i < |t| && t[i].Status() == Open && t[i].id !in claims
    ensures exists p :: HeldUp(t, claims, p) && p[0] == t[i].id
  {
    assert Waiting(t, claims, t[i].id);
    var p := WalkEnds(t, claims, [t[i].id]);
  }

  /** The run's drained stop: what is still open and unclaimed is held up by something the loop may not work on. */
  lemma DrainedRun(cfg: Config, once: bool, world: World, rows: Table, claims: set<string>, i: nat)
    requires Halts(cfg, once, world, Start(rows, claims)) && Acyclic(rows)
    ensures var (f, stop) := RunFrom(cfg, once, world, Start(rows, claims));
            stop.Drained? && i < |f.rows| && f.rows[i].Status() == Open && f.rows[i].id !in f.claims ==>
              exists p :: HeldUp(f.rows, f.claims, p) && p[0] == f.rows[i].id
  {
    DrainLaws.EveryRun(cfg, once, world, rows, claims);
    var (f, stop) := RunFrom(cfg, once, world, Start(rows, claims));
    hide RunFrom;
    SameShapeSamePaths(rows, f.rows);
    if stop.Drained? && i < |f.rows| && f.rows[i].Status() == Open && f.rows[i].id !in f.claims {
      NothingToOffer(f.rows, f.claims, i);
    }
  }

  lemma SameShapeSamePaths(t: Table, u: Table)
    requires SameShape(t, u) && Acyclic(t)
    ensures Acyclic(u)
  {
    forall p | |p| > 1 && IsPath(u, p) && p[0] == p[|p| - 1] ensures IsPath(t, p) {
      forall k | 0 <= k < |p| - 1 ensures DependsOn(t, p[k], p[k + 1]) {
        assert DependsOn(u, p[k], p[k + 1]);
        var i :| 0 <= i < |u| && u[i].id == p[k] && p[k + 1] in u[i].deps;
        assert t[i].id == p[k] && p[k + 1] in t[i].deps;
      }
    }
  }

  // ---------------------------------------------------------------- a clean backlog empties

  /** Row by row, either untouched or settled; settled means closed if nothing was parked. */
  ghost predicate OnlySettled(rows: Table, s: State) {
    && |s.rows| == |rows|
    && forall i :: 0 <= i < |rows| ==>
         || s.rows[i].Status() == rows[i].Status() || s.rows[i].Status() == Closed
         || (s.rows[i].Status() == Blocked && s.res.parked > 0)
  }

  lemma SettleOnlySettles(rows: Table, s: State, k: nat, w: Work, releaseOk: bool)
    requires OnlySettled(rows, s) && k < |s.rows|
    ensures OnlySettled(rows, Settle(s, s.rows[k].id, w, releaseOk))
  {
    StatusRoundTrip(EndStatus(w.end));
    hide StatusFromCell, StatusToCell;
  }

  lemma {:induction false} RunOnlySettles(cfg: Config, once: bool, world: World, rows: Table, s: State)
    requires OnlySettled(rows, s) && Halts(cfg, once, world, s)
    ensures OnlySettled(rows, RunFrom(cfg, once, world, s).0)
    decreases TurnsLeft(cfg, once, world, s)
  {
    hide Halts, TurnsLeft, WorkFrom, WithStatus, NextFrom, Ready, Settle, StatusFromCell;
    var turn := world(|s.blocks|);
    var k := NextFrom(s.rows, s.claims, 0);
    if k < |s.rows| {
      SettleOnlySettles(rows, s, k, WorkFrom(cfg, turn.attempts, 0, [], 0), turn.releaseOk);
    }
    match TakeTurn(cfg, once, turn, s)
    case Halt(_, _) =>
    case Go(s') =>
      OneTurnLess(cfg, once, world, s);
      RunOnlySettles(cfg, once, world, rows, s');
  }

  /** A backlog the loop is allowed to work on in full: open or closed rows, known dependencies, no cycle. */
  ghost predicate Workable(rows: Table) {
    && OpenFirst(rows) && Acyclic(rows)
    && (forall i :: 0 <= i < |rows| ==> rows[i].Status() == Open || rows[i].Status() == Closed)
    && (forall i, d :: 0 <= i < |rows| && d in rows[i].deps ==> d in Ids(rows))
  }

  /** No open row is claimed, by this loop or by anyone. */
  ghost predicate OpenUnclaimed(t: Table, claims: set<string>) {
    forall i :: 0 <= i < |t| && t[i].Status() == Open ==> t[i].id !in claims
  }

  lemma SettleOpenUnclaimed(s: State, k: nat, w: Work, releaseOk: bool)
    requires OpenUnclaimed(s.rows, s.claims) && OpenFirst(s.rows)
    requires k < |s.rows| && Ready(s.rows, s.claims, s.rows[k])
    ensures var t := Settle(s, s.rows[k].id, w, releaseOk); OpenUnclaimed(t.rows, t.claims)
  {
    SettlingLowersOpenCount(s.rows, s.claims, k, EndStatus(w.end));
    StatusRoundTrip(EndStatus(w.end));
    hide Ready, WithStatus, OpenCount, StatusFromCell, StatusToCell;
  }

  /** A claim this loop could not release is on a requirement it has settled, so it holds nothing up. */
  lemma {:induction false} RunOpenUnclaimed(cfg: Config, once: bool, world: World, s: State)
    requires OpenUnclaimed(s.rows, s.claims) && OpenFirst(s.rows) && Halts(cfg, once, world, s)
    ensures var (f, stop) := RunFrom(cfg, once, world, s); stop.Drained? ==> OpenUnclaimed(f.rows, f.claims)
    decreases TurnsLeft(cfg, once, world, s)
  {
    hide OpenFirst, OpenCount, Halts, TurnsLeft, WorkFrom, NextFrom, Ready, Settle, OpenUnclaimed;
    var turn := world(|s.blocks|);
    var k := NextFrom(s.rows, s.claims, 0);
    if k < |s.rows| {
      SettleOpenUnclaimed(s, k, WorkFrom(cfg, turn.attempts, 0, [], 0), turn.releaseOk);
    }
    match TakeTurn(cfg, once, turn, s)
    case Halt(_, _) =>
    case Go(s') =>
      TurnMakesProgress(cfg, once, turn, s);
      OneTurnLess(cfg, once, world, s);
      RunOpenUnclaimed(cfg, once, world, s');
  }

  ghost predicate AllClosed(t: Table) { forall i :: 0 <= i < |t| ==> t[i].Status() == Closed }

  /**
   * A run that drains a workable backlog, of which nobody else holds an open row, has closed everything unless it
   * parked something.
   */
  lemma DrainedMeansClosed(cfg: Config, once: bool, world: World, rows: Table, claims: set<string>)
    requires Workable(rows) && OpenUnclaimed(rows, claims) && Halts(cfg, once, world, Start(rows, claims))
    ensures var (f, stop) := RunFrom(cfg, once, world, Start(rows, claims));
            stop.Drained? && f.res.parked == 0 ==> AllClosed(f.rows)
  {
    var s0 := Start(rows, claims);
    var (f, stop) := RunFrom(cfg, once, world, s0);
    DrainLaws.EveryRun(cfg, once, world, rows, claims);
    RunOpenUnclaimed(cfg, once, world, s0);
    RunOnlySettles(cfg, once, world, rows, s0);
    SameShapeSamePaths(rows, f.rows);
    hide RunFrom, Acyclic, StatusFromCell, NextFrom;
    if stop.Drained? && f.res.parked == 0 {
      forall i | 0 <= i < |f.rows| ensures f.rows[i].Status() == Closed {
        if f.rows[i].Status() != Closed {
          NothingToOffer(f.rows, f.claims, i);
          var p :| HeldUp(f.rows, f.claims, p) && p[0] == f.rows[i].id;
          NoStopper(rows, f, p[|p| - 2], p[|p| - 1]);
        }
      }
    }
  }

  lemma NoStopper(rows: Table, f: State, a: string, b: string)
    requires Workable(rows) && OnlySettled(rows, f) && SameShape(rows, f.rows) && f.res.parked == 0
    requires OpenUnclaimed(f.rows, f.claims) && DependsOn(f.rows, a, b)
    ensures !Stopper(f.rows, f.claims, b)
  {
    hide OpenFirst, Acyclic, StatusFromCell, LastStatus;
    var i :| 0 <= i < |f.rows| && f.rows[i].id == a && b in f.rows[i].deps;
    assert b in rows[i].deps && b in Ids(rows);
    var j :| 0 <= j < |rows| && rows[j].id == b;
    assert f.rows[j].id == b;
    LastStatusIsARow(f.rows, b);
  }

  // ---------------------------------------------------------------- said of the inputs alone

  /** The run is never cut short from outside: no budget spent, no cancellation, no failure but of releases. */
  ghost predicate Undisturbed(cfg: Config, world: World) {
    && cfg.maxRequirements <= 0
    && forall n: nat ::
         var turn := world(n);
         !OutOfTime(cfg, turn) && !turn.cancelled && turn.nextOk && turn.claimOk && turn.writeOk
  }

  ghost predicate OutOfTime(cfg: Config, turn: Turn) { cfg.wallClock > 0 && turn.elapsed >= cfg.wallClock }

  /** Every requirement the world is asked to work on passes. */
  ghost predicate AllPass(cfg: Config, world: World) {
    forall n: nat :: WorkFrom(cfg, world(n).attempts, 0, [], 0).end == ReleasedClosed
  }

  /**
   * Parks or not, an undisturbed run goes on until it has drained, while it is short of enough requirements to trip the
   * breaker.
   */
  lemma {:induction false} UndisturbedRunDrains(cfg: Config, world: World, s: State)
    requires Undisturbed(cfg, world) && OpenFirst(s.rows)
    requires OpenCount(s.rows) + s.failures < cfg.breakAfter
    ensures Halts(cfg, false, world, s) && RunFrom(cfg, false, world, s).1.Drained?
    decreases OpenCount(s.rows)
  {
    hide OpenFirst, OpenCount, WorkFrom, NextFrom, WithStatus, TurnsLeft;
    var turn := world(|s.blocks|);
    match TakeTurn(cfg, false, turn, s)
    case Halt(_, _) =>
      TurnShortOfBreaker(cfg, turn, s);
      assert HaltsWithin(cfg, false, world, s, 1);
    case Go(s') =>
      TurnMakesProgress(cfg, false, turn, s);
      UndisturbedRunDrains(cfg, world, s');
      HaltsBefore(cfg, world, s);
  }

  lemma TurnShortOfBreaker(cfg: Config, turn: Turn, s: State)
    requires OpenFirst(s.rows) && OpenCount(s.rows) + s.failures < cfg.breakAfter && TakeTurn(cfg, false, turn, s).Halt?
    ensures !TakeTurn(cfg, false, turn, s).stop.Tripped?
  {
    hide OpenFirst, OpenCount, WorkFrom;
    var k := NextFrom(s.rows, s.claims, 0);
    if k < |s.rows| {
      SettlingLowersOpenCount(s.rows, s.claims, k, Closed);
    }
  }

  lemma HaltsBefore(cfg: Config, world: World, s: State)
    requires var next := TakeTurn(cfg, false, world(|s.blocks|), s); next.Go? && Halts(cfg, false, world, next.s)
    ensures Halts(cfg, false, world, s)
  {
    hide TakeTurn;
    var n: nat :| HaltsWithin(cfg, false, world, TakeTurn(cfg, false, world(|s.blocks|), s).s, n);
    assert HaltsWithin(cfg, false, world, s, n + 1);
  }

  /** When everything passes nothing is parked, and any positive breaker limit will do. */
  lemma {:induction false} PassingRunDrains(cfg: Config, world: World, s: State)
    requires Undisturbed(cfg, world) && AllPass(cfg, world) && cfg.breakAfter > 0
    requires OpenFirst(s.rows) && s.failures == 0 && s.res.parked == 0
    ensures Halts(cfg, false, world, s) && RunFrom(cfg, false, world, s).1.Drained?
            && RunFrom(cfg, false, world, s).0.res.parked == 0
    decreases OpenCount(s.rows)
  {
    hide OpenFirst, OpenCount, WorkFrom, NextFrom, WithStatus, TurnsLeft;
    var turn := world(|s.blocks|);
    match TakeTurn(cfg, false, turn, s)
    case Halt(_, _) =>
      assert HaltsWithin(cfg, false, world, s, 1);
    case Go(s') =>
      TurnMakesProgress(cfg, false, turn, s);
      PassingRunDrains(cfg, world, s');
      HaltsBefore(cfg, world, s);
  }

  /** A workable backlog, no budget, no disturbance, work that passes: the run ends with every row closed. */
  lemma BacklogCloses(cfg: Config, world: World, rows: Table, claims: set<string>)
    requires Undisturbed(cfg, world) && AllPass(cfg, world) && cfg.breakAfter > 0
    requires Workable(rows) && OpenUnclaimed(rows, claims)
    ensures var s := Start(rows, claims);
            Halts(cfg, false, world, s) && RunFrom(cfg, false, world, s).1.Drained?
            && AllClosed(RunFrom(cfg, false, world, s).0.rows)
  {
    PassingRunDrains(cfg, world, Start(rows, claims));
    DrainedMeansClosed(cfg, false, world, rows, claims);
  }
}
