/** What every run of the drain loop keeps, and what its audit log says. */
module DrainLaws {
  import opened Requirements
  import opened Drain

  // ---------------------------------------------------------------- the language of one block

  /** At most limit verifies; a pass closes and is the last; a park holds no pass. */
  ghost predicate GoodWork(w: Work, limit: int) {
    var vs, n := w.verdicts, |w.verdicts|;
    && (n == 0 || n <= limit)
    && (w.end.ReleasedClosed? <==> n > 0 && vs[n - 1] == Pass)
    && (forall j :: 0 <= j < n - 1 ==> vs[j] != Pass)
    && (w.end.ParkedFor? && w.end.detail.OverBudget? ==> n > 0)
    && (w.end.ParkedFor? && w.end.detail.Looping? ==> n < limit && w.end.detail.reason != Stuck.NotStuck)
  }

  lemma GoodPrepend(v: Verdict, w: Work, limit: int)
    requires v != Pass && GoodWork(w, limit) && limit >= 0
    ensures GoodWork(Prepend([v], w), limit + 1)
  {
    var u := Prepend([v], w);
    assert forall j :: 0 < j < |u.verdicts| ==> u.verdicts[j] == w.verdicts[j - 1];
  }

  lemma {:induction false} WorkIsGood(cfg: Config, attempts: nat -> Attempt, i: nat, trace: seq<Stuck.Step>,
          tokens: int)
    ensures GoodWork(WorkFrom(cfg, attempts, i, trace, tokens), cfg.retries + 1 - i)
    decreases cfg.retries + 1 - i
  {
    hide Stuck.Verdict, OverTaskBudget;
    if i < cfg.retries + 1 {
      var a := attempts(i);
      var trace', tokens' := trace + a.steps, tokens + a.tokens;
      var w, rest := WorkFrom(cfg, attempts, i, trace, tokens), WorkFrom(cfg, attempts, i + 1, trace', tokens');
      WorkIsGood(cfg, attempts, i + 1, trace', tokens');
      if w.end == rest.end && a.verdict != Pass && w == Prepend([a.verdict], rest) {
        hide WorkFrom;
        GoodPrepend(a.verdict, rest, cfg.retries - i);
      }
    }
  }

  /** The verdicts of the attempts from i up to k whose drive succeeded, in order. */
  ghost function Answers(attempts: nat -> Attempt, i: nat, k: nat): seq<Verdict>
    decreases k - i
  {
    if i >= k then []
    else (if attempts(i).driveFailed then [] else [attempts(i).verdict]) + Answers(attempts, i + 1, k)
  }

  lemma AnswersFirst(attempts: nat -> Attempt, i: nat, k: nat)
    requires i < k
    ensures Answers(attempts, i, k)
            == (if attempts(i).driveFailed then [] else [attempts(i).verdict]) + Answers(attempts, i + 1, k)
    ensures k == i + 1 ==> Answers(attempts, i, k) == if attempts(i).driveFailed then [] else [attempts(i).verdict]
  {
  }

  /**
   * The recorded verdicts are the verifier's answers to the first k attempts; only a full k counts as retries
   * exhausted.
   */
  lemma {:induction false} VerdictsAreAnswers(cfg: Config, attempts: nat -> Attempt, i: nat, trace: seq<Stuck.Step>,
          tokens: int)
    returns (k: nat)
    requires i <= cfg.retries + 1
    ensures i <= k <= cfg.retries + 1
    ensures var w := WorkFrom(cfg, attempts, i, trace, tokens);
            w.verdicts == Answers(attempts, i, k)
            && (w.end == ParkedFor(RetriesExhausted) ==> k == cfg.retries + 1)
    decreases cfg.retries + 1 - i
  {
    hide Stuck.Verdict, OverTaskBudget;
    k := i;
    if i < cfg.retries + 1 {
      var a := attempts(i);
      var trace', tokens' := trace + a.steps, tokens + a.tokens;
      var w := WorkFrom(cfg, attempts, i, trace, tokens);
      if Stuck.Verdict(trace', Stuck.DEFAULTS) != Stuck.NotStuck {
      } else if !a.driveFailed && (a.verdict == Pass || OverTaskBudget(cfg, tokens', a)) {
        k := i + 1;
        assert w.verdicts == [a.verdict] && w.end != ParkedFor(RetriesExhausted);
        hide WorkFrom, Answers;
        AnswersFirst(attempts, i, k);
      } else {
        var rest := WorkFrom(cfg, attempts, i + 1, trace', tokens');
        assert w == if a.driveFailed then rest else Prepend([a.verdict], rest);
        hide WorkFrom, Answers;
        k := VerdictsAreAnswers(cfg, attempts, i + 1, trace', tokens');
        AnswersFirst(attempts, i, k);
        assert [] + rest.verdicts == rest.verdicts;
      }
    }
  }

  // ---------------------------------------------------------------- tallies, conservation and replay

  ghost function ClosedBlocks(bs: seq<Block>): nat {
    if bs == [] then 0 else ClosedBlocks(bs[..|bs| - 1]) + (if bs[|bs| - 1].work.end.ReleasedClosed? then 1 else 0)
  }

  ghost predicate IsLooping(b: Block) { b.work.end.ParkedFor? && b.work.end.detail.Looping? }

  ghost function LoopingBlocks(bs: seq<Block>): nat {
    if bs == [] then 0 else LoopingBlocks(bs[..|bs| - 1]) + (if IsLooping(bs[|bs| - 1]) then 1 else 0)
  }

  /** The length of the run of parks at the end. */
  ghost function TrailingParks(bs: seq<Block>): nat {
    if bs == [] || bs[|bs| - 1].work.end.ReleasedClosed? then 0 else 1 + TrailingParks(bs[..|bs| - 1])
  }

  /** The table the blocks lead to. */
  ghost function Replay(rows: Table, bs: seq<Block>): Table {
    if bs == [] then rows
    else WithStatus(Replay(rows, bs[..|bs| - 1]), bs[|bs| - 1].id, EndStatus(bs[|bs| - 1].work.end))
  }

  ghost predicate AllGood(bs: seq<Block>, cfg: Config) {
    forall i :: 0 <= i < |bs| ==> GoodWork(bs[i].work, cfg.retries + 1)
  }

  ghost predicate Tallied(cfg: Config, s: State) {
    && s.res.attempted == |s.blocks| == s.res.closed + s.res.parked
    && s.res.closed == ClosedBlocks(s.blocks)
    && s.res.stuck == LoopingBlocks(s.blocks) <= s.res.parked
    && s.failures == TrailingParks(s.blocks)
    && AllGood(s.blocks, cfg)
    && (cfg.maxRequirements > 0 ==> s.res.attempted <= cfg.maxRequirements)
  }

  ghost predicate Conserved(rows: Table, s: State) {
    && SameShape(rows, s.rows) && s.rows == Replay(rows, s.blocks)
    && (OpenFirst(rows) ==> OpenFirst(s.rows) && OpenCount(s.rows) + |s.blocks| == OpenCount(rows))
  }

  lemma SettleTallied(cfg: Config, s: State, id: string, w: Work, releaseOk: bool)
    requires Tallied(cfg, s) && GoodWork(w, cfg.retries + 1)
    requires cfg.maxRequirements > 0 ==> s.res.attempted < cfg.maxRequirements
    ensures Tallied(cfg, Settle(s, id, w, releaseOk))
  {
    hide GoodWork, WithStatus;
    var bs := s.blocks + [Block(id, w)];
    assert bs[..|bs| - 1] == s.blocks;
  }

  lemma ReplaySnoc(rows: Table, bs: seq<Block>, b: Block)
    ensures Replay(rows, bs + [b]) == WithStatus(Replay(rows, bs), b.id, EndStatus(b.work.end))
  {
    hide WithStatus;
    assert (bs + [b])[..|bs|] == bs;
  }

  lemma SettleConserved(rows: Table, s: State, k: nat, w: Work, releaseOk: bool)
    requires Conserved(rows, s) && k < |s.rows| && Ready(s.rows, s.claims, s.rows[k])
    ensures Conserved(rows, Settle(s, s.rows[k].id, w, releaseOk))
  {
    var id, st := s.rows[k].id, EndStatus(w.end);
    assert s.rows[k].Status() == Open;
    hide WithStatus, OpenCount, OpenFirst, Ready, Replay;
    ReplaySnoc(rows, s.blocks, Block(id, w));
    WithStatusShape(s.rows, id, st);
    SettlingLowersOpenCount(s.rows, s.claims, k, st);
    hide SameShape, EndStatus;
    SettledShape(rows, s.rows, WithStatus(s.rows, id, st));
  }

  lemma SettledShape(a: Table, b: Table, c: Table)
    requires SameShape(a, b) && SameShape(b, c)
    ensures SameShape(a, c)
  {
  }

  // ---------------------------------------------------------------- the circuit breaker

  /** The last m outcomes are all parks. */
  ghost predicate Trips(bs: seq<Block>, m: int) {
    |bs| > 0 && m <= |bs| && forall i :: |bs| - m <= i < |bs| && 0 <= i ==> bs[i].work.end.ParkedFor?
  }

  ghost predicate NeverTrips(bs: seq<Block>, m: int) { forall k :: 0 < k <= |bs| ==> !Trips(bs[..k], m) }

  lemma {:induction false} TrailingParksMeaning(bs: seq<Block>, m: int)
    requires |bs| > 0
    ensures TrailingParks(bs) >= m <==> Trips(bs, m)
  {
    var front := bs[..|bs| - 1];
    if m > 0 && !bs[|bs| - 1].work.end.ReleasedClosed? {
      if front == [] {
      } else {
        TrailingParksMeaning(front, m - 1);
        assert forall i :: 0 <= i < |front| ==> bs[i] == front[i];
        if Trips(bs, m) {
          assert Trips(front, m - 1);
        }
      }
    }
  }

  ghost predicate BreakerExact(cfg: Config, s: State) {
    (s.res.breakerTripped <==> Trips(s.blocks, cfg.breakAfter))
    && NeverTrips(if s.blocks == [] then [] else s.blocks[..|s.blocks| - 1], cfg.breakAfter)
  }

  lemma NeverTripsGrows(bs: seq<Block>, m: int)
    requires |bs| > 0 && NeverTrips(bs[..|bs| - 1], m) && !Trips(bs, m)
    ensures NeverTrips(bs, m)
  {
    forall k | 0 < k <= |bs| ensures !Trips(bs[..k], m) {
      if k < |bs| {
        assert bs[..k] == bs[..|bs| - 1][..k];
      } else {
        assert bs[..k] == bs;
      }
    }
  }

  lemma SettleBreaker(cfg: Config, s: State, id: string, w: Work, releaseOk: bool)
    requires NeverTrips(s.blocks, cfg.breakAfter) && s.failures == TrailingParks(s.blocks)
    ensures var t := Settle(s, id, w, releaseOk);
            (t.failures >= cfg.breakAfter <==> Trips(t.blocks, cfg.breakAfter))
            && NeverTrips(t.blocks[..|t.blocks| - 1], cfg.breakAfter)
            && (t.failures < cfg.breakAfter ==> NeverTrips(t.blocks, cfg.breakAfter))
  {
    var bs := s.blocks + [Block(id, w)];
    assert bs[..|bs| - 1] == s.blocks;
    TrailingParksMeaning(bs, cfg.breakAfter);
    if !Trips(bs, cfg.breakAfter) {
      NeverTripsGrows(bs, cfg.breakAfter);
    }
    hide Trips, NeverTrips, WithStatus;
  }

  // ---------------------------------------------------------------- over whole runs

  /** What holds between turns. */
  ghost predicate Between(cfg: Config, rows: Table, s: State) {
    && Tallied(cfg, s) && Conserved(rows, s) && NeverTrips(s.blocks, cfg.breakAfter)
    && !s.res.breakerTripped && !s.res.budgetExhausted
  }

  /** What holds when the run returns, whichever way. */
  ghost predicate Final(cfg: Config, rows: Table, s: State, stop: Stop) {
    && Tallied(cfg, s) && Conserved(rows, s) && BreakerExact(cfg, s)
    && (s.res.breakerTripped <==> stop.Tripped?) && (s.res.budgetExhausted <==> stop.BudgetSpent?)
    && (stop.Drained? ==> NextFrom(s.rows, s.claims, 0) == |s.rows|)
  }

  lemma ShortOfTripping(cfg: Config, s: State)
    requires NeverTrips(s.blocks, cfg.breakAfter)
    ensures !Trips(s.blocks, cfg.breakAfter)
    ensures NeverTrips(if s.blocks == [] then [] else s.blocks[..|s.blocks| - 1], cfg.breakAfter)
  {
    var bs := s.blocks;
    if bs != [] {
      assert bs[..|bs|] == bs;
      var front := bs[..|bs| - 1];
      assert forall k :: 0 < k <= |front| ==> front[..k] == bs[..k];
    }
  }

  lemma SameTally(cfg: Config, s: State, t: State)
    requires Tallied(cfg, s) && t.blocks == s.blocks && t.failures == s.failures
    requires t.res == s.res.(breakerTripped := t.res.breakerTripped, budgetExhausted := t.res.budgetExhausted)
    ensures Tallied(cfg, t)
  {
    hide AllGood, ClosedBlocks, LoopingBlocks, TrailingParks;
  }

  lemma SameConserved(rows: Table, s: State, t: State)
    requires Conserved(rows, s) && t.rows == s.rows && t.blocks == s.blocks
    ensures Conserved(rows, t)
  {
    hide OpenCount, OpenFirst, SameShape, Replay;
  }

  /** Stopping before or during a requirement's work leaves every tally as it was. */
  lemma StopsShort(cfg: Config, rows: Table, s: State, claims: set<string>, stop: Stop)
    requires Between(cfg, rows, s) && !stop.Tripped? && !stop.BudgetSpent?
    requires stop.Drained? ==> NextFrom(s.rows, claims, 0) == |s.rows|
    ensures Final(cfg, rows, s.(claims := claims), stop)
    ensures Final(cfg, rows, s.(res := s.res.(budgetExhausted := true)), BudgetSpent)
  {
    hide Tallied, Conserved, Trips, NeverTrips, NextFrom;
    ShortOfTripping(cfg, s);
    var t, u := s.(claims := claims), s.(res := s.res.(budgetExhausted := true));
    SameTally(cfg, s, t);
    SameTally(cfg, s, u);
    SameConserved(rows, s, t);
    SameConserved(rows, s, u);
  }

  lemma SettleKeeps(cfg: Config, rows: Table, s: State, k: nat, w: Work, releaseOk: bool)
    requires Between(cfg, rows, s) && GoodWork(w, cfg.retries + 1)
    requires k < |s.rows| && Ready(s.rows, s.claims, s.rows[k])
    requires cfg.maxRequirements > 0 ==> s.res.attempted < cfg.maxRequirements
    ensures var t := Settle(s, s.rows[k].id, w, releaseOk);
            if t.failures >= cfg.breakAfter then Final(cfg, rows, t.(res := t.res.(breakerTripped := true)), Tripped)
            else Between(cfg, rows, t) && Final(cfg, rows, t, OnceDone)
  {
    var id := s.rows[k].id;
    var t := Settle(s, id, w, releaseOk);
    var tripped := t.(res := t.res.(breakerTripped := true));
    SettleConserved(rows, s, k, w, releaseOk);
    SettleTallied(cfg, s, id, w, releaseOk);
    SettleBreaker(cfg, s, id, w, releaseOk);
    SettleFlags(s, id, w, releaseOk);
    hide Settle, Trips, NeverTrips, NextFrom, Conserved, AllGood, ClosedBlocks, LoopingBlocks, TrailingParks, Ready,
        GoodWork;
    SameConserved(rows, t, tripped);
    SameTally(cfg, t, tripped);
    hide Tallied;
  }

  lemma SettleFlags(s: State, id: string, w: Work, releaseOk: bool)
    ensures var t := Settle(s, id, w, releaseOk);
            && |t.blocks| > 0 && t.res.breakerTripped == s.res.breakerTripped
            && t.res.budgetExhausted == s.res.budgetExhausted
  {
    hide WithStatus;
  }

  lemma TurnKeeps(cfg: Config, once: bool, turn: Turn, rows: Table, s: State)
    requires Between(cfg, rows, s)
    ensures var next := TakeTurn(cfg, once, turn, s);
            if next.Go? then Between(cfg, rows, next.s) else Final(cfg, rows, next.s, next.stop)
  {
    hide Between, Final, WorkFrom, Ready, Settle;
    var k := NextFrom(s.rows, s.claims, 0);
    var w := WorkFrom(cfg, turn.attempts, 0, [], 0);
    StopsShort(cfg, rows, s, s.claims, Cancelled);
    StopsShort(cfg, rows, s, s.claims, NextFailed);
    if k == |s.rows| {
      StopsShort(cfg, rows, s, s.claims, Drained);
    } else {
      var id := s.rows[k].id;
      StopsShort(cfg, rows, s, s.claims, ClaimFailed(id));
      StopsShort(cfg, rows, s, s.claims + {id}, WriteFailed(id, w.verdicts));
      WorkIsGood(cfg, turn.attempts, 0, [], 0);
      if !(cfg.maxRequirements > 0 && s.res.attempted >= cfg.maxRequirements) {
        SettleKeeps(cfg, rows, s, k, w, turn.releaseOk);
      }
    }
  }

  lemma {:induction false} RunKeeps(cfg: Config, once: bool, world: World, rows: Table, s: State)
    requires Between(cfg, rows, s) && Halts(cfg, once, world, s)
    ensures var (f, stop) := RunFrom(cfg, once, world, s); Final(cfg, rows, f, stop)
    decreases TurnsLeft(cfg, once, world, s)
  {
    hide Between, TakeTurn, Final, Halts, TurnsLeft;
    var turn := world(|s.blocks|);
    TurnKeeps(cfg, once, turn, rows, s);
    match TakeTurn(cfg, once, turn, s)
    case Halt(_, _) =>
    case Go(s') =>
      OneTurnLess(cfg, once, world, s);
      RunKeeps(cfg, once, world, rows, s');
  }

  lemma StartBetween(cfg: Config, rows: Table, claims: set<string>)
    ensures Between(cfg, rows, Start(rows, claims))
  {
  }

  /**
   * Every run, whatever the world answers: the tallies add up, the table is the replay of the blocks, the breaker is
   * exact.
   */
  lemma EveryRun(cfg: Config, once: bool, world: World, rows: Table, claims: set<string>)
    requires Halts(cfg, once, world, Start(rows, claims))
    ensures var (f, stop) := RunFrom(cfg, once, world, Start(rows, claims)); Final(cfg, rows, f, stop)
  {
    StartBetween(cfg, rows, claims);
    RunKeeps(cfg, once, world, rows, Start(rows, claims));
  }

  // ---------------------------------------------------------------- dependency order at every turn

  /** The state after n turns, or where the run stopped if that came first. */
  ghost function StateAfter(cfg: Config, once: bool, world: World, s: State, n: nat): State
    decreases n
  {
    if n == 0 then s
    else
      match TakeTurn(cfg, once, world(|s.blocks|), s)
      case Halt(s', _) => s'
      case Go(s') => StateAfter(cfg, once, world, s', n - 1)
  }

  lemma TurnRows(cfg: Config, once: bool, turn: Turn, s: State)
    ensures var k, t := NextFrom(s.rows, s.claims, 0), TakeTurn(cfg, once, turn, s).s.rows;
            t == s.rows
            || (k < |s.rows|
                && t == WithStatus(s.rows, s.rows[k].id, EndStatus(WorkFrom(cfg, turn.attempts, 0, [], 0).end)))
  {
    hide NextFrom, WorkFrom, WithStatus, EndStatus;
  }

  lemma TurnKeepsOrder(cfg: Config, once: bool, turn: Turn, s: State)
    requires OpenFirst(s.rows) && DependencyClosed(s.rows)
    ensures DependencyClosed(TakeTurn(cfg, once, turn, s).s.rows) && OpenFirst(TakeTurn(cfg, once, turn, s).s.rows)
  {
    TurnRows(cfg, once, turn, s);
    hide TakeTurn, WorkFrom, DependencyClosed, OpenFirst, WithStatus, OpenCount, StatusFromCell, FirstIndex;
    var k := NextFrom(s.rows, s.claims, 0);
    if k < |s.rows| {
      var st := EndStatus(WorkFrom(cfg, turn.attempts, 0, [], 0).end);
      OpenIsFirst(s.rows, k);
      SettlingKeepsOrder(s.rows, s.claims, k, st);
      SettlingLowersOpenCount(s.rows, s.claims, k, st);
    }
  }

  /** A closed set that starts dependency-closed stays so in every state the run passes through. */
  lemma {:induction false} OrderAtEveryTurn(cfg: Config, once: bool, world: World, s: State, n: nat)
    requires OpenFirst(s.rows) && DependencyClosed(s.rows)
    ensures DependencyClosed(StateAfter(cfg, once, world, s, n).rows)
    decreases n
  {
    hide DependencyClosed, OpenFirst, TakeTurn;
    if n > 0 {
      TurnKeepsOrder(cfg, once, world(|s.blocks|), s);
      match TakeTurn(cfg, once, world(|s.blocks|), s)
      case Halt(_, _) =>
      case Go(s') => OrderAtEveryTurn(cfg, once, world, s', n - 1);
    }
  }

  /** The run's last state is one of those. */
  lemma {:induction false} RunIsReached(cfg: Config, once: bool, world: World, s: State)
    requires Halts(cfg, once, world, s)
    ensures exists n: nat :: StateAfter(cfg, once, world, s, n) == RunFrom(cfg, once, world, s).0
    decreases TurnsLeft(cfg, once, world, s)
  {
    hide TakeTurn, Halts, TurnsLeft;
    match TakeTurn(cfg, once, world(|s.blocks|), s)
    case Halt(s', _) =>
      assert StateAfter(cfg, once, world, s, 1) == s';
    case Go(s') =>
      OneTurnLess(cfg, once, world, s);
      RunIsReached(cfg, once, world, s');
      var n: nat :| StateAfter(cfg, once, world, s', n) == RunFrom(cfg, once, world, s').0;
      assert StateAfter(cfg, once, world, s, n + 1) == StateAfter(cfg, once, world, s', n);
  }

  // ---------------------------------------------------------------- claims

  /** The claims a run leaves behind: failed releases, and the claim of a failed status write. */
  ghost function Leaked(world: World, bs: seq<Block>, from: nat): set<string>
    requires from <= |bs|
    decreases |bs| - from
  {
    if from == |bs| then {} else (if world(from).releaseOk then {} else {bs[from].id}) + Leaked(world, bs, from + 1)
  }

  lemma {:induction false} LeakedSnoc(world: World, bs: seq<Block>, b: Block, from: nat)
    requires from <= |bs|
    ensures Leaked(world, bs + [b], from) == Leaked(world, bs, from) + (if world(|bs|).releaseOk then {} else {b.id})
    decreases |bs| - from
  {
    if from < |bs| {
      LeakedSnoc(world, bs, b, from + 1);
    } else {
      assert Leaked(world, bs + [b], from + 1) == {};
    }
  }

  /**
   * Nobody else's claim is touched, and each requirement the run worked is released unless a write or a release failed.
   */
  lemma {:induction false} ClaimsLeft(cfg: Config, once: bool, world: World, claims: set<string>, s: State)
    requires Halts(cfg, once, world, s) && s.claims == claims + Leaked(world, s.blocks, 0)
    ensures var (f, stop) := RunFrom(cfg, once, world, s);
            f.claims == claims + Leaked(world, f.blocks, 0) + (if stop.WriteFailed? then {stop.id} else {})
    decreases TurnsLeft(cfg, once, world, s)
  {
    hide Halts, TurnsLeft, WorkFrom, WithStatus, Leaked, NextFrom, Ready;
    var turn := world(|s.blocks|);
    var k := NextFrom(s.rows, s.claims, 0);
    if k < |s.rows| {
      NextIsClaimable(s.rows, s.claims);
      LeakedSnoc(world, s.blocks, Block(s.rows[k].id, WorkFrom(cfg, turn.attempts, 0, [], 0)), 0);
    }
    match TakeTurn(cfg, once, turn, s)
    case Halt(_, _) =>
    case Go(s') =>
      OneTurnLess(cfg, once, world, s);
      ClaimsLeft(cfg, once, world, claims, s');
  }

  // ---------------------------------------------------------------- reading the audit log

  datatype Reader = Idle(done: seq<Block>) | Working(done: seq<Block>, id: string, verdicts: seq<Verdict>)
                  | Escalated(done: seq<Block>, id: string, verdicts: seq<Verdict>, detail: Detail) | Broken

  function ReadEntry(r: Reader, e: Entry): Reader {
    match (r, e)
    case (Idle(done), ClaimEntry(id)) => Working(done, id, [])
    case (Working(done, id, vs), VerifyEntry(id', v)) => if id == id' then Working(done, id, vs + [v]) else Broken
    case (Working(done, id, vs), ReleaseEntry(id')) =>
      if id == id' then Idle(done + [Block(id, Work(vs, ReleasedClosed))]) else Broken
    case (Working(done, id, vs), EscalateEntry(id', d)) => if id == id' then Escalated(done, id, vs, d) else Broken
    case (Escalated(done, id, vs, d), ParkEntry(id')) =>
      if id == id' then Idle(done + [Block(id, Work(vs, ParkedFor(d)))]) else Broken
    case _ => Broken
  }

  /** A reader of the log that knows nothing but its entries. */
  function ReadLog(r: Reader, log: seq<Entry>): Reader {
    if log == [] then r else ReadEntry(ReadLog(r, log[..|log| - 1]), log[|log| - 1])
  }

  lemma {:induction false} ReadAppend(r: Reader, a: seq<Entry>, b: seq<Entry>)
    ensures ReadLog(r, a + b) == ReadLog(ReadLog(r, a), b)
    decreases |b|
  {
    if b == [] {
      assert a + b == a;
    } else {
      var n := |b| - 1;
      ReadAppend(r, a, b[..n]);
      assert (a + b)[..|a + b| - 1] == a + b[..n];
      assert (a + b)[|a + b| - 1] == b[n];
    }
  }

  lemma ReadOne(r: Reader, e: Entry)
    ensures ReadLog(r, [e]) == ReadEntry(r, e)
  {
    assert [e][..0] == [];
  }

  lemma {:induction false} ReadVerifies(done: seq<Block>, id: string, us: seq<Verdict>, vs: seq<Verdict>)
    ensures ReadLog(Working(done, id, us), Verifies(id, vs)) == Working(done, id, us + vs)
    decreases |vs|
  {
    if vs == [] {
      assert us + vs == us;
    } else {
      var n := |vs| - 1;
      ReadVerifies(done, id, us, vs[..n]);
      ReadAppend(Working(done, id, us), Verifies(id, vs[..n]), [VerifyEntry(id, vs[n])]);
      ReadOne(Working(done, id, us + vs[..n]), VerifyEntry(id, vs[n]));
      assert us + vs[..n] + [vs[n]] == us + vs;
    }
  }

  lemma ReadOpening(done: seq<Block>, id: string, vs: seq<Verdict>)
    ensures ReadLog(Idle(done), Opening(id, vs)) == Working(done, id, vs)
  {
    ReadAppend(Idle(done), [ClaimEntry(id)], Verifies(id, vs));
    ReadOne(Idle(done), ClaimEntry(id));
    ReadVerifies(done, id, [], vs);
    assert [] + vs == vs;
  }

  lemma ReadBlock(done: seq<Block>, b: Block)
    ensures ReadLog(Idle(done), Print(b)) == Idle(done + [b])
  {
    var id, vs := b.id, b.work.verdicts;
    ReadOpening(done, id, vs);
    ReadAppend(Idle(done), Opening(id, vs), Closing(id, b.work.end));
    match b.work.end
    case ReleasedClosed =>
      ReadOne(Working(done, id, vs), ReleaseEntry(id));
    case ParkedFor(d) =>
      assert Closing(id, b.work.end) == [EscalateEntry(id, d)] + [ParkEntry(id)];
      ReadAppend(Working(done, id, vs), [EscalateEntry(id, d)], [ParkEntry(id)]);
      ReadOne(Working(done, id, vs), EscalateEntry(id, d));
      ReadOne(Escalated(done, id, vs, d), ParkEntry(id));
  }

  lemma {:induction false} ReadBlocks(bs: seq<Block>)
    ensures ReadLog(Idle([]), PrintAll(bs)) == Idle(bs)
  {
    if bs == [] {
    } else {
      var n := |bs| - 1;
      assert PrintAll(bs) == PrintAll(bs[..n]) + Print(bs[n]);
      hide Print, ReadLog, PrintAll;
      var front := bs[..n];
      ReadBlocks(front);
      assert front + [bs[n]] == bs;
      ReadAppend(Idle([]), PrintAll(front), Print(bs[n]));
      ReadBlock(front, bs[n]);
    }
  }

  /** The audit log of a run tells, unambiguously, every block it worked and where a failed write cut it short. */
  lemma AuditIsReadable(s: State, stop: Stop)
    ensures ReadLog(Idle([]), Audit(s, stop))
            == if stop.WriteFailed? then Working(s.blocks, stop.id, stop.verdicts) else Idle(s.blocks)
  {
    ReadBlocks(s.blocks);
    if stop.WriteFailed? {
      ReadAppend(Idle([]), PrintAll(s.blocks), Opening(stop.id, stop.verdicts));
      ReadOpening(s.blocks, stop.id, stop.verdicts);
    } else {
      assert PrintAll(s.blocks) + [] == PrintAll(s.blocks);
    }
  }

  /** Hence the log alone accounts for the result and for the table the run leaves behind. */
  lemma AuditAccountsForTheRun(cfg: Config, once: bool, world: World, rows: Table, claims: set<string>)
    requires Halts(cfg, once, world, Start(rows, claims))
    ensures var (f, stop) := RunFrom(cfg, once, world, Start(rows, claims));
            var r := ReadLog(Idle([]), Audit(f, stop));
            r != Broken && (r.Idle? <==> !stop.WriteFailed?) && !r.Escalated?
            && f.rows == Replay(rows, r.done) && f.res.closed == ClosedBlocks(r.done) && f.res.attempted == |r.done|
            && f.res.stuck == LoopingBlocks(r.done) && AllGood(r.done, cfg)
  {
    EveryRun(cfg, once, world, rows, claims);
    var (f, stop) := RunFrom(cfg, once, world, Start(rows, claims));
    AuditIsReadable(f, stop);
    hide RunFrom, ReadLog, Audit, Replay, AllGood;
  }
}
