/** Every turn of a run, and what ends it, said of the world's answers and the configuration alone. */
module DrainTurns {
  import opened Text
  import opened Requirements
  import opened Drain
  import opened DrainLaws

  // ---------------------------------------------------------------- the work on one requirement

  /** The trajectory after the first k attempts. */
  ghost function TraceTo(attempts: nat -> Attempt, k: nat): seq<Stuck.Step> {
    if k == 0 then [] else TraceTo(attempts, k - 1) + attempts(k - 1).steps
  }

  /** The tokens spent in the first k attempts. */
  ghost function TokensTo(attempts: nat -> Attempt, k: nat): int {
    if k == 0 then 0 else TokensTo(attempts, k - 1) + attempts(k - 1).tokens
  }

  /** The stuck verdict on the trajectory after the first k attempts. */
  ghost function StuckAfter(attempts: nat -> Attempt, k: nat): Stuck.Reason {
    Stuck.Verdict(TraceTo(attempts, k), Stuck.DEFAULTS)
  }

  /** After attempt j the task has used up its tokens or its time. */
  ghost predicate Overspent(cfg: Config, attempts: nat -> Attempt, j: nat) {
    || (cfg.perTaskTokens > 0 && TokensTo(attempts, j + 1) >= cfg.perTaskTokens)
    || (cfg.perTaskWallClock > 0 && attempts(j).taskElapsed >= cfg.perTaskWallClock)
  }

  /** Attempt j leaves the work to be tried again. */
  ghost predicate TriesAgain(cfg: Config, attempts: nat -> Attempt, j: nat) {
    && StuckAfter(attempts, j + 1) == Stuck.NotStuck
    && (attempts(j).driveFailed || (attempts(j).verdict != Pass && !Overspent(cfg, attempts, j)))
  }

  lemma AnswersJoin(attempts: nat -> Attempt, i: nat, k: nat)
    requires i <= k
    ensures Answers(attempts, i, k + 1)
            == Answers(attempts, i, k) + (if attempts(k).driveFailed then [] else [attempts(k).verdict])
    decreases k - i
  {
    if i < k {
      AnswersJoin(attempts, i + 1, k);
    }
  }

  /** What the work comes to when attempt k ends it, or no attempt is left. */
  ghost predicate EndsAt(cfg: Config, attempts: nat -> Attempt, from: nat, k: nat, w: Work) {
    var before := Answers(attempts, from, k);
    if k >= cfg.retries + 1 then w == Work(before, ParkedFor(RetriesExhausted))
    else if StuckAfter(attempts, k + 1) != Stuck.NotStuck then
      w == Work(before, ParkedFor(Looping(StuckAfter(attempts, k + 1))))
    else
      && !attempts(k).driveFailed && w.verdicts == before + [attempts(k).verdict]
      && (if attempts(k).verdict == Pass then w.end == ReleasedClosed
          else Overspent(cfg, attempts, k) && w.end == ParkedFor(OverBudget))
  }

  lemma {:induction false} WorkEndsFrom(cfg: Config, attempts: nat -> Attempt, i: nat) returns (k: nat)
    ensures i <= k && (k <= cfg.retries + 1 || k == i) && forall j :: i <= j < k ==> TriesAgain(cfg, attempts, j)
    ensures EndsAt(cfg, attempts, i, k, WorkFrom(cfg, attempts, i, TraceTo(attempts, i), TokensTo(attempts, i)))
    decreases cfg.retries + 1 - i
  {
    hide Stuck.Verdict;
    k := i;
    if i < cfg.retries + 1 && TriesAgain(cfg, attempts, i) {
      k := WorkEndsFrom(cfg, attempts, i + 1);
      var rest := WorkFrom(cfg, attempts, i + 1, TraceTo(attempts, i + 1), TokensTo(attempts, i + 1));
      var w := WorkFrom(cfg, attempts, i, TraceTo(attempts, i), TokensTo(attempts, i));
      var a := attempts(i);
      assert w == if a.driveFailed then rest else Prepend([a.verdict], rest);
      hide WorkFrom, Answers, StuckAfter, Overspent, TraceTo, TokensTo;
      AnswersFirst(attempts, i, k);
      assert rest.verdicts == Answers(attempts, i + 1, k) + rest.verdicts[|Answers(attempts, i + 1, k)|..];
      Regrouped(if a.driveFailed then [] else [a.verdict], Answers(attempts, i + 1, k),
                if k < cfg.retries + 1 then [attempts(k).verdict] else []);
    }
  }

  lemma Regrouped(a: seq<Verdict>, b: seq<Verdict>, c: seq<Verdict>)
    ensures a + (b + c) == a + b + c && [] + b == b && [] + (b + c) == b + c
  {
  }

  /**
   * The work on a requirement: attempts go on while none is stuck, passes, or has overspent; the one that does ends it,
   * or their number does. The recorded verdicts are the verifier's answers until then.
   */
  lemma WorkEndsExactly(cfg: Config, attempts: nat -> Attempt) returns (k: nat)
    ensures (k <= cfg.retries + 1 || k == 0) && forall j :: 0 <= j < k ==> TriesAgain(cfg, attempts, j)
    ensures EndsAt(cfg, attempts, 0, k, WorkFrom(cfg, attempts, 0, [], 0))
  {
    k := WorkEndsFrom(cfg, attempts, 0);
  }

  // ---------------------------------------------------------------- the turns of a run

  /** The last row of the id is closed. */
  ghost predicate LastIsClosed(t: Table, id: string) {
    exists r :: && 0 <= r < |t| && t[r].id == id && t[r].Status() == Closed
                && forall j :: r < j < |t| ==> t[j].id != id
  }

  lemma {:induction false} LastIsClosedMeans(t: Table, id: string)
    ensures LastStatus(t, id) == Some(Closed) <==> LastIsClosed(t, id)
  {
    hide StatusFromCell;
    if t != [] {
      var n := |t| - 1;
      var front := t[..n];
      LastIsClosedMeans(front, id);
      if t[n].id != id {
        assert LastIsClosed(front, id) ==> LastIsClosed(t, id) by {
          if LastIsClosed(front, id) {
            var r :| 0 <= r < n && front[r].id == id && front[r].Status() == Closed
                     && forall j :: r < j < n ==> front[j].id != id;
            assert t[r].id == id;
          }
        }
      }
    }
  }

  /** Row i is the first that Next may offer: open, unclaimed, its dependencies closed. */
  ghost predicate FirstReady(t: Table, claims: set<string>, i: nat) {
    && i < |t| && t[i].Status() == Open && t[i].id !in claims
    && (forall d :: d in t[i].deps ==> LastIsClosed(t, d))
    && forall j :: 0 <= j < i && t[j].Status() == Open && t[j].id !in claims ==>
         exists d :: d in t[j].deps && !LastIsClosed(t, d)
  }

  ghost predicate Offers(t: Table, claims: set<string>, id: string) {
    exists i: nat :: FirstReady(t, claims, i) && i < |t| && t[i].id == id
  }

  lemma NextIsFirstReady(t: Table, claims: set<string>)
    ensures var k := NextFrom(t, claims, 0);
            if k < |t| then FirstReady(t, claims, k) else forall i: nat :: !FirstReady(t, claims, i)
  {
    forall d ensures LastStatus(t, d) == Some(Closed) <==> LastIsClosed(t, d) {
      LastIsClosedMeans(t, d);
    }
    hide LastStatus, LastIsClosed, StatusFromCell;
    var k := NextFrom(t, claims, 0);
    forall j | 0 <= j < k && t[j].Status() == Open && t[j].id !in claims
      ensures exists d :: d in t[j].deps && !LastIsClosed(t, d)
    {
      assert !Ready(t, claims, t[j]);
    }
    if k == |t| {
      forall i: nat ensures !FirstReady(t, claims, i) {
        assert i < |t| ==> !Ready(t, claims, t[i]);
      }
    }
  }

  lemma FirstReadyIsUnique(t: Table, claims: set<string>, i: nat, j: nat)
    requires FirstReady(t, claims, i) && FirstReady(t, claims, j)
    ensures i == j
  {
    hide LastIsClosed, StatusFromCell;
  }

  /** The table and the claims when turn k begins. */
  ghost function TableAt(rows: Table, bs: seq<Block>, k: nat): Table
    requires k <= |bs|
  {
    Replay(rows, bs[..k])
  }

  ghost function ClaimsAt(claims: set<string>, world: World, bs: seq<Block>, k: nat): set<string>
    requires k <= |bs|
  {
    claims + set i | 0 <= i < k && !world(i).releaseOk :: bs[i].id
  }

  /** Nothing keeps turn k from a requirement: no budget is spent, the run is not cancelled, the table can be read. */
  ghost predicate Looks(cfg: Config, world: World, k: nat) {
    && !(cfg.maxRequirements > 0 && k >= cfg.maxRequirements)
    && !(cfg.wallClock > 0 && world(k).elapsed >= cfg.wallClock)
    && !world(k).cancelled && world(k).nextOk
  }

  /** Turn k went all the way: what it worked on, and how that ended. */
  ghost predicate Worked(cfg: Config, world: World, rows: Table, claims: set<string>, bs: seq<Block>, k: nat)
    requires k < |bs|
  {
    && Looks(cfg, world, k) && world(k).claimOk && world(k).writeOk
    && Offers(TableAt(rows, bs, k), ClaimsAt(claims, world, bs, k), bs[k].id)
    && bs[k].work == WorkFrom(cfg, world(k).attempts, 0, [], 0)
  }

  /** The loop goes on: the last breakAfter were not all parked, and it is not to stop at one. */
  ghost predicate GoesOn(cfg: Config, once: bool, bs: seq<Block>) { !Trips(bs, cfg.breakAfter) && (once ==> |bs| == 0) }

  /** Every turn so far went all the way, and the loop went on after each but perhaps the last. */
  ghost predicate AllWorked(cfg: Config, once: bool, world: World, rows: Table, claims: set<string>, bs: seq<Block>) {
    forall k :: 0 <= k < |bs| ==> Worked(cfg, world, rows, claims, bs, k) && GoesOn(cfg, once, bs[..k])
  }

  ghost predicate BudgetGone(cfg: Config, world: World, n: nat) {
    (cfg.maxRequirements > 0 && n >= cfg.maxRequirements) || (cfg.wallClock > 0 && world(n).elapsed >= cfg.wallClock)
  }

  /** Which stop ends a run that worked these blocks, in the loop's order. */
  ghost predicate StopsFor(cfg: Config, once: bool, world: World, rows: Table, claims: set<string>, bs: seq<Block>,
          stop: Stop) {
    var n, turn, on := |bs|, world(|bs|), GoesOn(cfg, once, bs);
    var t, c := TableAt(rows, bs, n), ClaimsAt(claims, world, bs, n);
    && (stop == Tripped <==> Trips(bs, cfg.breakAfter))
    && (stop == OnceDone <==> !Trips(bs, cfg.breakAfter) && once && n > 0)
    && (stop == BudgetSpent <==> on && BudgetGone(cfg, world, n))
    && (stop == Cancelled <==> on && !BudgetGone(cfg, world, n) && turn.cancelled)
    && (stop == NextFailed <==> on && !BudgetGone(cfg, world, n) && !turn.cancelled && !turn.nextOk)
    && (stop == Drained <==> on && Looks(cfg, world, n) && forall i: nat :: !FirstReady(t, c, i))
    && (forall id :: stop == ClaimFailed(id) <==> on && Looks(cfg, world, n) && Offers(t, c, id) && !turn.claimOk)
    && (forall id, vs :: stop == WriteFailed(id, vs) <==>
          && on && Looks(cfg, world, n) && Offers(t, c, id) && turn.claimOk && !turn.writeOk
          && vs == WorkFrom(cfg, turn.attempts, 0, [], 0).verdicts)
  }

  /** What holds of the state when a turn begins. */
  ghost predicate Begins(cfg: Config, once: bool, world: World, rows: Table, claims: set<string>, s: State) {
    && s.rows == TableAt(rows, s.blocks, |s.blocks|) && s.claims == ClaimsAt(claims, world, s.blocks, |s.blocks|)
    && s.res.attempted == |s.blocks| && s.failures == TrailingParks(s.blocks)
    && GoesOn(cfg, once, s.blocks) && AllWorked(cfg, once, world, rows, claims, s.blocks)
  }

  /** What holds of the state when the run returns. */
  ghost predicate Ends(cfg: Config, once: bool, world: World, rows: Table, claims: set<string>, f: State, stop: Stop) {
    && f.rows == TableAt(rows, f.blocks, |f.blocks|)
    && f.claims == ClaimsAt(claims, world, f.blocks, |f.blocks|) + (if stop.WriteFailed? then {stop.id} else {})
    && AllWorked(cfg, once, world, rows, claims, f.blocks) && StopsFor(cfg, once, world, rows, claims, f.blocks, stop)
  }

  lemma OfferIsUnique(t: Table, claims: set<string>, id: string, id': string)
    requires Offers(t, claims, id) && Offers(t, claims, id')
    ensures id == id'
  {
    hide FirstReady;
    var i: nat :| FirstReady(t, claims, i) && i < |t| && t[i].id == id;
    var j: nat :| FirstReady(t, claims, j) && j < |t| && t[j].id == id';
    FirstReadyIsUnique(t, claims, i, j);
  }

  /** One more block leaves what was said of the earlier ones. */
  lemma WorkedLonger(cfg: Config, once: bool, world: World, rows: Table, claims: set<string>, bs: seq<Block>, b: Block)
    requires AllWorked(cfg, once, world, rows, claims, bs) && GoesOn(cfg, once, bs)
    requires Worked(cfg, world, rows, claims, bs + [b], |bs|)
    ensures AllWorked(cfg, once, world, rows, claims, bs + [b])
  {
    hide GoesOn, Offers, Replay;
    var more := bs + [b];
    forall k | 0 <= k < |more| ensures Worked(cfg, world, rows, claims, more, k) && GoesOn(cfg, once, more[..k]) {
      if k < |bs| {
        assert more[..k] == bs[..k];
        assert Worked(cfg, world, rows, claims, bs, k);
        assert ClaimsAt(claims, world, more, k) == ClaimsAt(claims, world, bs, k);
      } else {
        assert more[..k] == bs;
      }
    }
  }

  lemma TableSnoc(rows: Table, bs: seq<Block>, b: Block)
    ensures TableAt(rows, bs + [b], |bs|) == TableAt(rows, bs, |bs|)
    ensures TableAt(rows, bs + [b], |bs| + 1) == WithStatus(TableAt(rows, bs, |bs|), b.id, EndStatus(b.work.end))
  {
    hide WithStatus;
    assert (bs + [b])[..|bs|] == bs[..|bs|] == bs && (bs + [b])[..|bs| + 1] == bs + [b];
  }

  lemma ClaimsSnoc(claims: set<string>, world: World, bs: seq<Block>, b: Block)
    ensures ClaimsAt(claims, world, bs + [b], |bs|) == ClaimsAt(claims, world, bs, |bs|)
    ensures ClaimsAt(claims, world, bs + [b], |bs| + 1)
            == ClaimsAt(claims, world, bs, |bs|) + (if world(|bs|).releaseOk then {} else {b.id})
  {
  }

  lemma SettleFields(s: State, id: string, w: Work, releaseOk: bool)
    requires s.failures == TrailingParks(s.blocks) && id !in s.claims
    ensures var t := Settle(s, id, w, releaseOk);
            && t.rows == WithStatus(s.rows, id, EndStatus(w.end)) && t.blocks == s.blocks + [Block(id, w)]
            && t.claims == s.claims + (if releaseOk then {} else {id})
            && t.res.attempted == s.res.attempted + 1 && t.failures == TrailingParks(t.blocks)
  {
    hide WithStatus, EndStatus;
    var t := Settle(s, id, w, releaseOk);
    assert t.blocks[..|t.blocks| - 1] == s.blocks;
  }

  lemma OfferIsWorked(cfg: Config, world: World, rows: Table, claims: set<string>, s: State, b: Block)
    requires s.rows == TableAt(rows, s.blocks, |s.blocks|) && s.claims == ClaimsAt(claims, world, s.blocks, |s.blocks|)
    requires Looks(cfg, world, |s.blocks|) && world(|s.blocks|).claimOk && world(|s.blocks|).writeOk
    requires Offers(s.rows, s.claims, b.id) && b.work == WorkFrom(cfg, world(|s.blocks|).attempts, 0, [], 0)
    ensures Worked(cfg, world, rows, claims, s.blocks + [b], |s.blocks|)
  {
    hide WorkFrom, Offers, TableAt, ClaimsAt, Looks;
    TableSnoc(rows, s.blocks, b);
    ClaimsSnoc(claims, world, s.blocks, b);
  }

  /** A turn that works a requirement to the end. */
  lemma SettledTurn(cfg: Config, once: bool, world: World, rows: Table, claims: set<string>, s: State, b: Block)
    requires Begins(cfg, once, world, rows, claims, s)
    requires Looks(cfg, world, |s.blocks|) && world(|s.blocks|).claimOk && world(|s.blocks|).writeOk
    requires Offers(s.rows, s.claims, b.id) && b.id !in s.claims
    requires b.work == WorkFrom(cfg, world(|s.blocks|).attempts, 0, [], 0)
    ensures var t := Settle(s, b.id, b.work, world(|s.blocks|).releaseOk);
            && t.rows == TableAt(rows, t.blocks, |t.blocks|)
            && t.claims == ClaimsAt(claims, world, t.blocks, |t.blocks|)
            && t.res.attempted == |t.blocks| == |s.blocks| + 1 && t.failures == TrailingParks(t.blocks)
            && AllWorked(cfg, once, world, rows, claims, t.blocks)
            && (t.failures >= cfg.breakAfter <==> Trips(t.blocks, cfg.breakAfter))
  {
    hide WorkFrom, WithStatus, Offers, EndStatus, Trips, GoesOn, TableAt, ClaimsAt, Looks, Settle, AllWorked, Worked;
    var t := Settle(s, b.id, b.work, world(|s.blocks|).releaseOk);
    SettleFields(s, b.id, b.work, world(|s.blocks|).releaseOk);
    OfferIsWorked(cfg, world, rows, claims, s, b);
    WorkedLonger(cfg, once, world, rows, claims, s.blocks, b);
    TableSnoc(rows, s.blocks, b);
    ClaimsSnoc(claims, world, s.blocks, b);
    TrailingParksMeaning(t.blocks, cfg.breakAfter);
  }

  /** A stop before anything is worked to the end. */
  lemma StopsNow(cfg: Config, once: bool, world: World, rows: Table, claims: set<string>, s: State)
    requires Begins(cfg, once, world, rows, claims, s)
    requires var stop := TakeTurn(cfg, once, world(|s.blocks|), s);
             stop.Halt? && !stop.stop.Tripped? && !stop.stop.OnceDone?
    ensures StopsFor(cfg, once, world, rows, claims, s.blocks, TakeTurn(cfg, once, world(|s.blocks|), s).stop)
  {
    hide WorkFrom, FirstReady, Trips, TableAt, ClaimsAt, AllWorked, Settle, Offers, NextFrom;
    var k := NextFrom(s.rows, s.claims, 0);
    OffersNext(s.rows, s.claims);
  }

  lemma OffersNext(t: Table, claims: set<string>)
    ensures var k := NextFrom(t, claims, 0);
            if k < |t| then t[k].id !in claims && forall id :: Offers(t, claims, id) <==> id == t[k].id
            else (forall id :: !Offers(t, claims, id)) && forall i: nat :: !FirstReady(t, claims, i)
    ensures NextFrom(t, claims, 0) < |t| ==> exists i: nat :: FirstReady(t, claims, i)
  {
    NextIsFirstReady(t, claims);
    var k := NextFrom(t, claims, 0);
    if k < |t| {
      assert t[k].id !in claims && Offers(t, claims, t[k].id);
      hide FirstReady;
      forall id | Offers(t, claims, id) ensures id == t[k].id {
        OfferIsUnique(t, claims, id, t[k].id);
      }
    }
  }

  lemma StopsAfter(cfg: Config, once: bool, world: World, rows: Table, claims: set<string>, bs: seq<Block>)
    requires bs != []
    ensures Trips(bs, cfg.breakAfter) ==> StopsFor(cfg, once, world, rows, claims, bs, Tripped)
    ensures !Trips(bs, cfg.breakAfter) && once ==> StopsFor(cfg, once, world, rows, claims, bs, OnceDone)
    ensures !Trips(bs, cfg.breakAfter) && !once ==> GoesOn(cfg, once, bs)
  {
    hide Trips, TableAt, ClaimsAt, Looks, Offers, FirstReady, WorkFrom, BudgetGone;
  }

  /** How a turn goes that is neither cut short nor refused. */
  lemma TurnSettles(cfg: Config, once: bool, turn: Turn, s: State)
    requires s.res.attempted == |s.blocks|
    requires !(cfg.maxRequirements > 0 && |s.blocks| >= cfg.maxRequirements)
    requires !(cfg.wallClock > 0 && turn.elapsed >= cfg.wallClock)
    requires !turn.cancelled && turn.nextOk && turn.claimOk && turn.writeOk && NextFrom(s.rows, s.claims, 0) < |s.rows|
    ensures var next, id := TakeTurn(cfg, once, turn, s), s.rows[NextFrom(s.rows, s.claims, 0)].id;
            var t := Settle(s, id, WorkFrom(cfg, turn.attempts, 0, [], 0), turn.releaseOk);
            if t.failures >= cfg.breakAfter then next == Halt(t.(res := t.res.(breakerTripped := true)), Tripped)
            else if once then next == Halt(t, OnceDone)
            else next == Go(t)
  {
    hide WorkFrom, NextFrom, Settle;
  }

  lemma TurnHalts(cfg: Config, once: bool, turn: Turn, s: State)
    requires s.res.attempted == |s.blocks|
    requires || (cfg.maxRequirements > 0 && |s.blocks| >= cfg.maxRequirements)
             || (cfg.wallClock > 0 && turn.elapsed >= cfg.wallClock)
             || turn.cancelled || !turn.nextOk || !turn.claimOk || !turn.writeOk
             || NextFrom(s.rows, s.claims, 0) == |s.rows|
    ensures var next := TakeTurn(cfg, once, turn, s);
            && next.Halt? && !next.stop.Tripped? && !next.stop.OnceDone?
            && next.s.rows == s.rows && next.s.blocks == s.blocks
            && next.s.claims == s.claims + (if next.stop.WriteFailed? then {next.stop.id} else {})
  {
    hide WorkFrom, NextFrom, Settle;
  }

  lemma TurnEnds(cfg: Config, once: bool, world: World, rows: Table, claims: set<string>, s: State)
    requires Begins(cfg, once, world, rows, claims, s)
    ensures var next := TakeTurn(cfg, once, world(|s.blocks|), s);
            if next.Go? then Begins(cfg, once, world, rows, claims, next.s)
            else Ends(cfg, once, world, rows, claims, next.s, next.stop)
  {
    hide WorkFrom, NextFrom, TableAt, ClaimsAt, AllWorked, Trips, TrailingParks, Offers, StopsFor, Settle, TakeTurn,
        GoesOn;
    var n, turn, k := |s.blocks|, world(|s.blocks|), NextFrom(s.rows, s.claims, 0);
    OffersNext(s.rows, s.claims);
    if Looks(cfg, world, n) && k < |s.rows| && turn.claimOk && turn.writeOk {
      var b := Block(s.rows[k].id, WorkFrom(cfg, turn.attempts, 0, [], 0));
      SettledTurn(cfg, once, world, rows, claims, s, b);
      TurnSettles(cfg, once, turn, s);
      StopsAfter(cfg, once, world, rows, claims, Settle(s, b.id, b.work, turn.releaseOk).blocks);
    } else {
      TurnHalts(cfg, once, turn, s);
      StopsNow(cfg, once, world, rows, claims, s);
    }
  }

  lemma {:induction false} RunEnds(cfg: Config, once: bool, world: World, rows: Table, claims: set<string>, s: State)
    requires Begins(cfg, once, world, rows, claims, s) && Halts(cfg, once, world, s)
    ensures var (f, stop) := RunFrom(cfg, once, world, s); Ends(cfg, once, world, rows, claims, f, stop)
    decreases TurnsLeft(cfg, once, world, s)
  {
    hide Begins, Ends, TakeTurn, RunFrom, Halts, TurnsLeft;
    TurnEnds(cfg, once, world, rows, claims, s);
    RunUnfolds(cfg, once, world, s);
    var next := TakeTurn(cfg, once, world(|s.blocks|), s);
    if next.Go? {
      RunEnds(cfg, once, world, rows, claims, next.s);
    }
  }

  /**
   * A run in terms of its inputs: each turn that went all the way found no budget spent, no cancellation and no
   * failure, and worked the first ready row of the table and claims it found; the stop is the first of the loop's
   * conditions that holds after the last of these turns; table and claims are what these turns leave.
   */
  lemma RunIsItsTurns(cfg: Config, once: bool, world: World, rows: Table, claims: set<string>)
    requires Halts(cfg, once, world, Start(rows, claims))
    ensures var (f, stop) := RunFrom(cfg, once, world, Start(rows, claims));
            Ends(cfg, once, world, rows, claims, f, stop)
  {
    assert Begins(cfg, once, world, rows, claims, Start(rows, claims));
    RunEnds(cfg, once, world, rows, claims, Start(rows, claims));
  }

  // ---------------------------------------------------------------- what the table says afterwards

  /** Block k is the last that settled the requirement whose first row is r. */
  ghost predicate LastFor(bs: seq<Block>, id: string, k: nat) {
    k < |bs| && bs[k].id == id && forall j :: k < j < |bs| ==> bs[j].id != id
  }

  lemma {:induction false} ReplayKeepsShape(rows: Table, bs: seq<Block>)
    ensures SameShape(rows, Replay(rows, bs))
  {
    hide WithStatus;
    if bs != [] {
      var front, b := bs[..|bs| - 1], bs[|bs| - 1];
      ReplayKeepsShape(rows, front);
      WithStatusShape(Replay(rows, front), b.id, EndStatus(b.work.end));
    }
  }

  /**
   * Afterwards the first row of a requirement that was worked reads closed if the last work on it passed, and blocked
   * if that was parked; every other row is as it was.
   */
  lemma {:induction false} WhatIsWritten(rows: Table, bs: seq<Block>, r: nat)
    requires r < |rows|
    ensures |Replay(rows, bs)| == |rows|
    ensures forall k: nat :: LastFor(bs, rows[r].id, k) && FirstIndex(rows, rows[r].id) == r ==>
              Replay(rows, bs)[r].Status() == if bs[k].work.end.ReleasedClosed? then Closed else Blocked
    ensures FirstIndex(rows, rows[r].id) != r || (forall k: nat :: !LastFor(bs, rows[r].id, k)) ==>
              Replay(rows, bs)[r] == rows[r]
  {
    hide StatusFromCell, StatusToCell, FirstIndex;
    ReplayKeepsShape(rows, bs);
    if bs != [] {
      var n := |bs| - 1;
      var front, b := bs[..n], bs[n];
      ReplayKeepsShape(rows, front);
      WhatIsWritten(rows, front, r);
      ShapeFirstIndex(rows, Replay(rows, front), b.id);
      ShapeFirstIndex(rows, Replay(rows, front), rows[r].id);
      StatusRoundTrip(EndStatus(b.work.end));
      if b.id != rows[r].id {
        assert forall k: nat :: LastFor(bs, rows[r].id, k) <==> LastFor(front, rows[r].id, k);
      } else {
        assert LastFor(bs, rows[r].id, n);
      }
    }
  }
}
