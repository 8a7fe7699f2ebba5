/** When a run of the drain loop comes to an end. */
module DrainTermination {
  import opened Requirements
  import opened Stalling
  import opened Drain
  import opened DrainCompleteness

  lemma HaltsNow(cfg: Config, once: bool, world: World, s: State)
    requires TakeTurn(cfg, once, world(|s.blocks|), s).Halt?
    ensures Halts(cfg, once, world, s)
  {
    hide TakeTurn;
    assert HaltsWithin(cfg, once, world, s, 1);
  }

  lemma HaltsOneTurnOn(cfg: Config, once: bool, world: World, s: State)
    requires TakeTurn(cfg, once, world(|s.blocks|), s).Go?
    ensures Halts(cfg, once, world, s) <==> Halts(cfg, once, world, TakeTurn(cfg, once, world(|s.blocks|), s).s)
  {
    hide TakeTurn;
    var s' := TakeTurn(cfg, once, world(|s.blocks|), s).s;
    if Halts(cfg, once, world, s) {
      var n: nat :| HaltsWithin(cfg, once, world, s, n);
      assert HaltsWithin(cfg, once, world, s', n - 1);
    }
    if Halts(cfg, once, world, s') {
      var n: nat :| HaltsWithin(cfg, once, world, s', n);
      assert HaltsWithin(cfg, once, world, s, n + 1);
    }
  }

  /** Whatever the world answers, a turn keeps a table that cannot stall so, and settles one open requirement. */
  lemma UnstallableTurn(cfg: Config, once: bool, turn: Turn, s: State)
    requires !CanStall(s.rows, s.claims) && TakeTurn(cfg, once, turn, s).Go?
    ensures var t := TakeTurn(cfg, once, turn, s).s;
            !CanStall(t.rows, t.claims) && OpenCount(t.rows) < OpenCount(s.rows)
  {
    TurnMakesProgress(cfg, once, turn, s);
    TurnGoesOn(cfg, once, turn, s);
    hide TakeTurn, Settle, CanStall, FirstIndex, OpenCount, StatusFromCell, WithStatus, WorkFrom, StatusToCell;
    var k := NextFrom(s.rows, s.claims, 0);
    var st := EndStatus(WorkFrom(cfg, turn.attempts, 0, [], 0).end);
    OfferedStalls(s.rows, s.claims);
    WrittenRow(s.rows, k, st);
    StatusRoundTrip(st);
    CannotStallLasts(s.rows, s.claims, k, s.rows[k].(cell := StatusToCell(st)), TakeTurn(cfg, once, turn, s).s.claims);
  }

  /** What a turn that goes on has done to the table and the claims. */
  lemma TurnGoesOn(cfg: Config, once: bool, turn: Turn, s: State)
    requires TakeTurn(cfg, once, turn, s).Go?
    ensures NextFrom(s.rows, s.claims, 0) < |s.rows|
    ensures var t, id := TakeTurn(cfg, once, turn, s).s, s.rows[NextFrom(s.rows, s.claims, 0)].id;
            && t.rows == WithStatus(s.rows, id, EndStatus(WorkFrom(cfg, turn.attempts, 0, [], 0).end))
            && s.claims <= t.claims && (turn.releaseOk ==> t.claims == s.claims)
  {
    hide WithStatus, WorkFrom, EndStatus;
  }

  /** With every budget at zero and whatever the world answers, a run over a table that cannot stall ends. */
  lemma {:induction false} UnstallableRunHalts(cfg: Config, once: bool, world: World, s: State)
    requires !CanStall(s.rows, s.claims)
    ensures Halts(cfg, once, world, s)
    decreases OpenCount(s.rows)
  {
    hide CanStall, OpenCount, TakeTurn, Halts;
    match TakeTurn(cfg, once, world(|s.blocks|), s)
    case Halt(_, _) =>
      HaltsNow(cfg, once, world, s);
    case Go(s') =>
      UnstallableTurn(cfg, once, world(|s.blocks|), s);
      UnstallableRunHalts(cfg, once, world, s');
      HaltsOneTurnOn(cfg, once, world, s);
  }

  /** So does one in which each open row is the first with its id. */
  lemma OpenFirstHalts(cfg: Config, once: bool, world: World, s: State)
    requires OpenFirst(s.rows)
    ensures Halts(cfg, once, world, s)
  {
    OpenFirstCannotStall(s.rows, s.claims);
    UnstallableRunHalts(cfg, once, world, s);
  }

  /** The run is cut short whatever the table: --once, a requirement budget, or a breaker that must trip. */
  predicate Bounded(cfg: Config, once: bool) {
    once || cfg.maxRequirements > 0 || cfg.breakAfter <= 0 || cfg.retries < 0
  }

  /** Without a single attempt every requirement is parked, so the breaker trips. */
  lemma {:induction false} BoundedRunHalts(cfg: Config, once: bool, world: World, s: State)
    requires Bounded(cfg, once)
    ensures Halts(cfg, once, world, s)
    decreases if cfg.retries < 0 then cfg.breakAfter - s.failures else cfg.maxRequirements - s.res.attempted
  {
    hide WithStatus, NextFrom, Halts, Stuck.Verdict;
    match TakeTurn(cfg, once, world(|s.blocks|), s)
    case Halt(_, _) =>
      HaltsNow(cfg, once, world, s);
    case Go(s') =>
      BoundedRunHalts(cfg, once, world, s');
      HaltsOneTurnOn(cfg, once, world, s);
  }

  // ---------------------------------------------------------------- repeated ids

  /** The offered row is not the row SetStatus will write. */
  ghost predicate Stalled(t: Table, claims: set<string>) {
    var k := NextFrom(t, claims, 0);
    k < |t| && FirstIndex(t, t[k].id) < k
  }

  /** Closing the requirement that a stalled table offers makes the table offer the same row again. */
  lemma ClosingStalls(t: Table, claims: set<string>)
    requires Stalled(t, claims)
    ensures var k := NextFrom(t, claims, 0);
            var u := WithStatus(t, t[k].id, Closed);
            && NextFrom(u, claims, 0) == k && |u| == |t| && u[k] == t[k]
            && FirstIndex(u, t[k].id) == FirstIndex(t, t[k].id)
  {
    var k := NextFrom(t, claims, 0);
    var j := FirstIndex(t, t[k].id);
    var u := WithStatus(t, t[k].id, Closed);
    StatusRoundTrip(Closed);
    hide StatusFromCell, StatusToCell, LastStatus;
    forall d ensures LastStatus(u, d) == LastStatus(t, d) {
      SettledStatus(t, claims, k, Closed, d);
    }
    assert forall x :: 0 <= x < |t| ==> u[x].id == t[x].id;
    assert FirstIndex(u, t[k].id) == j;
    hide FirstIndex, WithStatus;
    forall x | 0 <= x < k ensures !Ready(u, claims, u[x]) {
      if x != j {
        assert u[x] == t[x];
        assert !Ready(t, claims, t[x]);
      }
    }
    assert Ready(u, claims, u[k]);
  }

  /** Closing a requirement twice is closing it once. */
  lemma ClosingAgain(t: Table, id: string)
    ensures WithStatus(WithStatus(t, id, Closed), id, Closed) == WithStatus(t, id, Closed)
  {
    var k := FirstIndex(t, id);
    var u := WithStatus(t, id, Closed);
    hide StatusToCell;
    assert forall x :: 0 <= x < |t| ==> u[x].id == t[x].id;
    assert FirstIndex(u, id) == k;
  }

  /** A world in which nothing fails, releases included, and everything passes. */
  ghost predicate Smooth(cfg: Config, world: World) {
    Undisturbed(cfg, world) && AllPass(cfg, world) && forall n: nat :: world(n).releaseOk
  }

  /**
   * One smooth turn on a stalled table: the loop goes on with the same claims, and from the second turn on with the
   * same table.
   */
  lemma StalledTurn(cfg: Config, world: World, s: State)
    requires Smooth(cfg, world) && cfg.breakAfter > 0 && Stalled(s.rows, s.claims)
    ensures var id := s.rows[NextFrom(s.rows, s.claims, 0)].id;
            var next := TakeTurn(cfg, false, world(|s.blocks|), s);
            next.Go? && next.s.rows == WithStatus(s.rows, id, Closed) && next.s.claims == s.claims
            && Stalled(next.s.rows, next.s.claims) && next.s.rows[NextFrom(next.s.rows, next.s.claims, 0)].id == id
            && WithStatus(next.s.rows, id, Closed) == next.s.rows
  {
    ClosingStalls(s.rows, s.claims);
    ClosingAgain(s.rows, s.rows[NextFrom(s.rows, s.claims, 0)].id);
    hide WorkFrom, WithStatus, FirstIndex;
  }

  lemma {:induction false} StalledNeverHaltsWithin(cfg: Config, world: World, s: State, n: nat)
    requires Smooth(cfg, world) && cfg.breakAfter > 0 && Stalled(s.rows, s.claims)
    ensures !HaltsWithin(cfg, false, world, s, n)
    decreases n
  {
    hide TakeTurn, Smooth, Stalled, WithStatus;
    if n > 0 {
      StalledTurn(cfg, world, s);
      StalledNeverHaltsWithin(cfg, world, TakeTurn(cfg, false, world(|s.blocks|), s).s, n - 1);
    }
  }

  /** A smooth turn over a table that can stall goes on, and the table still can. */
  lemma StallableTurn(cfg: Config, world: World, s: State)
    requires Smooth(cfg, world) && cfg.breakAfter > 0 && CanStall(s.rows, s.claims) && !Stalled(s.rows, s.claims)
    ensures var next := TakeTurn(cfg, false, world(|s.blocks|), s); next.Go? && CanStall(next.s.rows, next.s.claims)
  {
    hide TakeTurn, CanStall, StatusFromCell, WithStatus, StatusToCell, Smooth, FirstIndex;
    var turn, k := world(|s.blocks|), NextFrom(s.rows, s.claims, 0);
    if k == |s.rows| {
      NothingOfferedCannotStall(s.rows, s.claims);
    }
    SmoothTurnGoesOn(cfg, world, s);
    TurnGoesOn(cfg, false, turn, s);
    SmoothTurnCloses(cfg, world, s);
    hide WorkFrom;
    WrittenRow(s.rows, k, Closed);
    StatusRoundTrip(Closed);
    CanStallLasts(s.rows, s.claims, k, s.rows[k].(cell := StatusToCell(Closed)));
  }

  lemma SmoothTurnCloses(cfg: Config, world: World, s: State)
    requires Smooth(cfg, world)
    ensures var turn := world(|s.blocks|);
            WorkFrom(cfg, turn.attempts, 0, [], 0).end == ReleasedClosed && turn.releaseOk
  {
    hide WorkFrom;
  }

  lemma SmoothTurnGoesOn(cfg: Config, world: World, s: State)
    requires Smooth(cfg, world) && cfg.breakAfter > 0 && NextFrom(s.rows, s.claims, 0) < |s.rows|
    ensures TakeTurn(cfg, false, world(|s.blocks|), s).Go?
  {
    hide WithStatus, WorkFrom;
  }

  lemma {:induction false} StallableNeverHaltsWithin(cfg: Config, world: World, s: State, n: nat)
    requires Smooth(cfg, world) && cfg.breakAfter > 0 && CanStall(s.rows, s.claims)
    ensures !HaltsWithin(cfg, false, world, s, n)
    decreases n
  {
    hide TakeTurn, Smooth, Stalled, CanStall;
    if Stalled(s.rows, s.claims) {
      StalledNeverHaltsWithin(cfg, world, s, n);
    } else if n > 0 {
      StallableTurn(cfg, world, s);
      StallableNeverHaltsWithin(cfg, world, TakeTurn(cfg, false, world(|s.blocks|), s).s, n - 1);
    }
  }

  /** When nothing cuts the run short and everything passes, it ends exactly if the table cannot stall. */
  lemma SmoothRunHaltsExactly(cfg: Config, world: World, s: State)
    requires Smooth(cfg, world) && cfg.breakAfter > 0
    ensures Halts(cfg, false, world, s) <==> !CanStall(s.rows, s.claims)
  {
    hide Smooth, HaltsWithin, CanStall;
    if CanStall(s.rows, s.claims) {
      forall m: nat ensures !HaltsWithin(cfg, false, world, s, m) {
        StallableNeverHaltsWithin(cfg, world, s, m);
      }
    } else {
      UnstallableRunHalts(cfg, false, world, s);
    }
  }

  // ---------------------------------------------------------------- over all worlds

  function PassingAttempt(): Attempt { Attempt([], 0, false, Pass, 0) }

  /** Nothing fails, no time passes, and the first attempt passes. */
  function SmoothWorld(): World {
    n => Turn(0, false, true, true, i => PassingAttempt(), true, true)
  }

  lemma NoStepsNotStuck()
    ensures Stuck.Verdict([], Stuck.DEFAULTS) == Stuck.NotStuck
  {
  }

  lemma FirstAttemptPasses(cfg: Config, attempts: nat -> Attempt)
    requires cfg.retries >= 0 && attempts(0) == PassingAttempt()
    ensures WorkFrom(cfg, attempts, 0, [], 0) == Work([Pass], ReleasedClosed)
  {
    hide Stuck.Verdict;
    NoStepsNotStuck();
    assert [] + attempts(0).steps == [];
  }

  /** There is a smooth world whenever any attempt is allowed. */
  lemma SmoothWorldIsSmooth(cfg: Config)
    requires cfg.retries >= 0 && cfg.maxRequirements <= 0
    ensures Smooth(cfg, SmoothWorld())
  {
    forall n: nat ensures WorkFrom(cfg, SmoothWorld()(n).attempts, 0, [], 0).end == ReleasedClosed {
      FirstAttemptPasses(cfg, SmoothWorld()(n).attempts);
    }
    hide WorkFrom;
  }

  /**
   * Every run over a table ends, whatever the world answers, exactly if the run is bounded or the table cannot stall.
   */
  lemma EveryRunHaltsExactly(cfg: Config, once: bool, rows: Table, claims: set<string>)
    ensures (forall world: World :: Halts(cfg, once, world, Start(rows, claims)))
            <==> Bounded(cfg, once) || !CanStall(rows, claims)
  {
    hide Halts, CanStall, Smooth;
    var s := Start(rows, claims);
    if Bounded(cfg, once) {
      forall world: World ensures Halts(cfg, once, world, s) {
        BoundedRunHalts(cfg, once, world, s);
      }
    } else if CanStall(rows, claims) {
      SmoothWorldIsSmooth(cfg);
      SmoothRunHaltsExactly(cfg, SmoothWorld(), s);
    } else {
      forall world: World ensures Halts(cfg, once, world, s) {
        UnstallableRunHalts(cfg, once, world, s);
      }
    }
  }

  /** Two rows with one id, of which the first is closed: such a run goes on for ever. */
  lemma RepeatedIdStalls(cfg: Config, world: World)
    requires Smooth(cfg, world) && cfg.breakAfter > 0
    ensures !Halts(cfg, false, world, Start([Row("A", "COMPLETE", []), Row("A", "OPEN", [])], {}))
  {
    var t := [Row("A", "COMPLETE", []), Row("A", "OPEN", [])];
    OpenReads();
    hide StatusFromCell, Smooth;
    assert FirstIndex(t, "A") == 0;
    assert StallsAt(t, {}, 1, 0);
    SmoothRunHaltsExactly(cfg, world, Start(t, {}));
  }
}
