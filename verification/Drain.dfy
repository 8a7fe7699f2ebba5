/** The unattended drain loop: next, claim, drive and verify up to N+1 times, close or park, release. */
module Drain {
  import opened Text
  import opened Requirements
  import Stuck

  datatype Config = Config(retries: int, breakAfter: int, maxRequirements: int, wallClock: int, perTaskTokens: int,
                           perTaskWallClock: int)

  datatype Verdict = Pass | Fail | Error

  /** What the harness, the verifier and the clock answer during one attempt. */
  datatype Attempt = Attempt(steps: seq<Stuck.Step>, tokens: int, driveFailed: bool, verdict: Verdict, taskElapsed: int)

  /** What the world answers during one turn of the loop. */
  datatype Turn = Turn(elapsed: int, cancelled: bool, nextOk: bool, claimOk: bool, attempts: nat -> Attempt,
                       writeOk: bool, releaseOk: bool)

  type World = nat -> Turn

  datatype Detail = RetriesExhausted | Looping(reason: Stuck.Reason) | OverBudget

  datatype End = ReleasedClosed | ParkedFor(detail: Detail)

  datatype Work = Work(verdicts: seq<Verdict>, end: End)

  datatype Block = Block(id: string, work: Work)

  datatype Entry = ClaimEntry(id: string) | VerifyEntry(id: string, verdict: Verdict) | ReleaseEntry(id: string)
                 | EscalateEntry(id: string, detail: Detail) | ParkEntry(id: string)

  datatype Result = Result(attempted: nat, closed: nat, parked: nat, breakerTripped: bool, budgetExhausted: bool,
                           stuck: nat)

  // ---------------------------------------------------------------- specification of one requirement's work

  predicate OverTaskBudget(cfg: Config, tokens: int, a: Attempt) {
    || (cfg.perTaskTokens > 0 && tokens >= cfg.perTaskTokens)
    || (cfg.perTaskWallClock > 0 && a.taskElapsed >= cfg.perTaskWallClock)
  }

  function Prepend(vs: seq<Verdict>, w: Work): Work { Work(vs + w.verdicts, w.end) }

  /** The attempts from the i-th on, with the trajectory and token count so far. */
  function WorkFrom(cfg: Config, attempts: nat -> Attempt, i: nat, trace: seq<Stuck.Step>, tokens: int): Work
    decreases cfg.retries + 1 - i
  {
    if i >= cfg.retries + 1 then Work([], ParkedFor(RetriesExhausted))
    else
      var a := attempts(i);
      var trace', tokens' := trace + a.steps, tokens + a.tokens;
      var reason := Stuck.Verdict(trace', Stuck.DEFAULTS);
      if reason != Stuck.NotStuck then Work([], ParkedFor(Looping(reason)))
      else if a.driveFailed then WorkFrom(cfg, attempts, i + 1, trace', tokens')
      else if a.verdict == Pass then Work([Pass], ReleasedClosed)
      else if OverTaskBudget(cfg, tokens', a) then Work([a.verdict], ParkedFor(OverBudget))
      else Prepend([a.verdict], WorkFrom(cfg, attempts, i + 1, trace', tokens'))
  }

  function Verifies(id: string, vs: seq<Verdict>): seq<Entry> {
    if vs == [] then [] else Verifies(id, vs[..|vs| - 1]) + [VerifyEntry(id, vs[|vs| - 1])]
  }

  /** What a requirement's work leaves in the audit log before it ends. */
  function Opening(id: string, vs: seq<Verdict>): seq<Entry> { [ClaimEntry(id)] + Verifies(id, vs) }

  function Closing(id: string, end: End): seq<Entry> {
    match end
    case ReleasedClosed => [ReleaseEntry(id)]
    case ParkedFor(detail) => [EscalateEntry(id, detail), ParkEntry(id)]
  }

  function Print(b: Block): seq<Entry> { Opening(b.id, b.work.verdicts) + Closing(b.id, b.work.end) }

  function PrintAll(bs: seq<Block>): seq<Entry> {
    if bs == [] then [] else PrintAll(bs[..|bs| - 1]) + Print(bs[|bs| - 1])
  }

  // ---------------------------------------------------------------- specification of the run

  datatype State = State(rows: Table, claims: set<string>, blocks: seq<Block>, res: Result, failures: nat)

  datatype Stop = BudgetSpent | Cancelled | NextFailed | Drained | ClaimFailed(id: string)
                | WriteFailed(id: string, verdicts: seq<Verdict>) | Tripped | OnceDone
  {
    predicate IsError() { Cancelled? || NextFailed? || ClaimFailed? || WriteFailed? }
  }

  datatype Next = Go(s: State) | Halt(s: State, stop: Stop)

  function Start(rows: Table, claims: set<string>): State {
    State(rows, claims, [], Result(0, 0, 0, false, false, 0), 0)
  }

  function EndStatus(end: End): Status { if end.ReleasedClosed? then Closed else Blocked }

  function Tally(res: Result, end: End): Result {
    match end
    case ReleasedClosed => res.(attempted := res.attempted + 1, closed := res.closed + 1)
    case ParkedFor(detail) =>
      res.(attempted := res.attempted + 1, parked := res.parked + 1,
           stuck := res.stuck + (if detail.Looping? then 1 else 0))
  }

  /** The state after one requirement's work went all the way. */
  function Settle(s: State, id: string, w: Work, releaseOk: bool): State {
    State(WithStatus(s.rows, id, EndStatus(w.end)), if releaseOk then s.claims - {id} else s.claims + {id},
          s.blocks + [Block(id, w)], Tally(s.res, w.end), if w.end.ReleasedClosed? then 0 else s.failures + 1)
  }

  function TakeTurn(cfg: Config, once: bool, turn: Turn, s: State): Next {
    if cfg.maxRequirements > 0 && s.res.attempted >= cfg.maxRequirements then
      Halt(s.(res := s.res.(budgetExhausted := true)), BudgetSpent)
    else if cfg.wallClock > 0 && turn.elapsed >= cfg.wallClock then
      Halt(s.(res := s.res.(budgetExhausted := true)), BudgetSpent)
    else if turn.cancelled then Halt(s, Cancelled)
    else if !turn.nextOk then Halt(s, NextFailed)
    else
      var k := NextFrom(s.rows, s.claims, 0);
      if k == |s.rows| then Halt(s, Drained)
      else
        var id := s.rows[k].id;
        if !turn.claimOk then Halt(s, ClaimFailed(id))
        else
          var w := WorkFrom(cfg, turn.attempts, 0, [], 0);
          if !turn.writeOk then Halt(s.(claims := s.claims + {id}), WriteFailed(id, w.verdicts))
          else
            var s' := Settle(s, id, w, turn.releaseOk);
            if s'.failures >= cfg.breakAfter then Halt(s'.(res := s'.res.(breakerTripped := true)), Tripped)
            else if once then Halt(s', OnceDone)
            else Go(s')
  }

  /** A turn that goes on has settled one open requirement, exactly if the first row with the offered id is open. */
  lemma TurnMakesProgress(cfg: Config, once: bool, turn: Turn, s: State)
    requires TakeTurn(cfg, once, turn, s).Go?
    ensures NextFrom(s.rows, s.claims, 0) < |s.rows|
    ensures var t, j := TakeTurn(cfg, once, turn, s).s, FirstIndex(s.rows, s.rows[NextFrom(s.rows, s.claims, 0)].id);
            && OpenCount(t.rows) == OpenCount(s.rows) - (if s.rows[j].Status() == Open then 1 else 0)
            && (OpenFirst(s.rows) ==> OpenFirst(t.rows) && OpenCount(t.rows) == OpenCount(s.rows) - 1)
  {
    hide OpenFirst, WorkFrom, OpenCount, WithStatus, FirstIndex, StatusFromCell;
    var k := NextFrom(s.rows, s.claims, 0);
    SettlingLowersOpenCount(s.rows, s.claims, k, EndStatus(WorkFrom(cfg, turn.attempts, 0, [], 0).end));
  }

  ghost predicate HaltsWithin(cfg: Config, once: bool, world: World, s: State, n: nat)
    decreases n
  {
    && n > 0
    && var next := TakeTurn(cfg, once, world(|s.blocks|), s);
       next.Go? ==> HaltsWithin(cfg, once, world, next.s, n - 1)
  }

  /** The run from s comes to an end. DrainTermination says when it does. */
  ghost predicate Halts(cfg: Config, once: bool, world: World, s: State) {
    exists n: nat :: HaltsWithin(cfg, once, world, s, n)
  }

  lemma {:induction false} HaltsLater(cfg: Config, once: bool, world: World, s: State, m: nat, n: nat)
    requires HaltsWithin(cfg, once, world, s, m) && m <= n
    ensures HaltsWithin(cfg, once, world, s, n)
    decreases m
  {
    hide TakeTurn;
    match TakeTurn(cfg, once, world(|s.blocks|), s)
    case Halt(_, _) =>
    case Go(s') => HaltsLater(cfg, once, world, s', m - 1, n - 1);
  }

  lemma NoFewerTurns(cfg: Config, once: bool, world: World, s: State, n: nat)
    requires n > 0 ==> !HaltsWithin(cfg, once, world, s, n - 1)
    ensures forall j: nat :: HaltsWithin(cfg, once, world, s, j) ==> n <= j
  {
    hide HaltsWithin;
    forall j: nat | HaltsWithin(cfg, once, world, s, j) ensures n <= j {
      if j < n {
        HaltsLater(cfg, once, world, s, j, n - 1);
      }
    }
  }

  ghost function FewestTurns(cfg: Config, once: bool, world: World, s: State, n: nat): (m: nat)
    requires HaltsWithin(cfg, once, world, s, n)
    ensures HaltsWithin(cfg, once, world, s, m) && forall j: nat :: HaltsWithin(cfg, once, world, s, j) ==> m <= j
  {
    NoFewerTurns(cfg, once, world, s, if n > 0 && HaltsWithin(cfg, once, world, s, n - 1) then 0 else n);
    if n > 0 && HaltsWithin(cfg, once, world, s, n - 1) then FewestTurns(cfg, once, world, s, n - 1) else n
  }

  /** How many turns the run from s takes. */
  ghost function TurnsLeft(cfg: Config, once: bool, world: World, s: State): (m: nat)
    requires Halts(cfg, once, world, s)
    ensures HaltsWithin(cfg, once, world, s, m) && forall j: nat :: HaltsWithin(cfg, once, world, s, j) ==> m <= j
  {
    var n: nat :| HaltsWithin(cfg, once, world, s, n);
    FewestTurns(cfg, once, world, s, n)
  }

  lemma OneTurnLess(cfg: Config, once: bool, world: World, s: State)
    requires Halts(cfg, once, world, s) && TakeTurn(cfg, once, world(|s.blocks|), s).Go?
    ensures var t := TakeTurn(cfg, once, world(|s.blocks|), s).s;
            Halts(cfg, once, world, t) && TurnsLeft(cfg, once, world, t) < TurnsLeft(cfg, once, world, s)
  {
    hide TakeTurn;
    var t := TakeTurn(cfg, once, world(|s.blocks|), s).s;
    assert HaltsWithin(cfg, once, world, t, TurnsLeft(cfg, once, world, s) - 1);
  }

  /** The whole run, when it comes to an end. */
  ghost function RunFrom(cfg: Config, once: bool, world: World, s: State): (State, Stop)
    requires Halts(cfg, once, world, s)
    decreases TurnsLeft(cfg, once, world, s)
  {
    var next := TakeTurn(cfg, once, world(|s.blocks|), s);
    if next.Halt? then (next.s, next.stop)
    else
      OneTurnLess(cfg, once, world, s);
      RunFrom(cfg, once, world, next.s)
  }

  lemma RunUnfolds(cfg: Config, once: bool, world: World, s: State)
    requires Halts(cfg, once, world, s)
    ensures var next, run := TakeTurn(cfg, once, world(|s.blocks|), s), RunFrom(cfg, once, world, s);
            if next.Halt? then run == (next.s, next.stop)
            else
              && Halts(cfg, once, world, next.s)
              && TurnsLeft(cfg, once, world, next.s) < TurnsLeft(cfg, once, world, s)
              && run == RunFrom(cfg, once, world, next.s)
  {
    hide TakeTurn, TurnsLeft, Halts;
    if TakeTurn(cfg, once, world(|s.blocks|), s).Go? {
      OneTurnLess(cfg, once, world, s);
    }
  }

  function Audit(s: State, stop: Stop): seq<Entry> {
    PrintAll(s.blocks) + (if stop.WriteFailed? then Opening(stop.id, stop.verdicts) else [])
  }

  lemma NoVerifies(id: string)
    ensures Verifies(id, []) == []
  {
  }

  lemma VerifiesSnoc(id: string, vs: seq<Verdict>, v: Verdict)
    ensures Verifies(id, vs + [v]) == Verifies(id, vs) + [VerifyEntry(id, v)]
  {
    assert (vs + [v])[..|vs|] == vs;
  }

  lemma PrependSnoc(vs: seq<Verdict>, v: Verdict, w: Work)
    ensures Prepend(vs, Prepend([v], w)) == Prepend(vs + [v], w)
  {
    assert vs + ([v] + w.verdicts) == vs + [v] + w.verdicts;
  }

  // ---------------------------------------------------------------- the loop itself

  /** Why a requirement is parked. */
  function Reason(stuck: Stuck.Reason, overBudget: bool): Detail {
    if stuck != Stuck.NotStuck then Looping(stuck) else if overBudget then OverBudget else RetriesExhausted
  }

  class Loop {
    const cfg: Config
    const store: Store
    var audit: seq<Entry>

    constructor (cfg: Config, store: Store)
      ensures this.cfg == cfg && this.store == store && audit == []
    {
      this.cfg, this.store, this.audit := cfg, store, [];
    }

    method Record(e: Entry)
      modifies this`audit
      ensures audit == old(audit) + [e]
    {
      audit := audit + [e];
    }

    /** The attempts on one claimed requirement. */
    method Attempts(id: string, attempts: nat -> Attempt)
      returns (closed: bool, stuck: Stuck.Reason, overBudget: bool, ghost w: Work)
      modifies this`audit
      ensures w == WorkFrom(cfg, attempts, 0, [], 0)
      ensures audit == old(audit) + Verifies(id, w.verdicts)
      ensures w.end == if closed then ReleasedClosed
                       else ParkedFor(Reason(stuck, overBudget))
      ensures closed ==> stuck == Stuck.NotStuck
    {
      hide Stuck.Verdict, OverTaskBudget, Verifies;
      closed, stuck, overBudget := false, Stuck.NotStuck, false;
      NoVerifies(id);
      var trace: seq<Stuck.Step>, tokens := [], 0;
      ghost var vs: seq<Verdict> := [];
      var i := 0;
      while i < cfg.retries + 1
        invariant 0 <= i && !closed && stuck == Stuck.NotStuck && !overBudget
        invariant Prepend(vs, WorkFrom(cfg, attempts, i, trace, tokens)) == WorkFrom(cfg, attempts, 0, [], 0)
        invariant audit == old(audit) + Verifies(id, vs)
      {
        var a := attempts(i);
        ghost var rest := WorkFrom(cfg, attempts, i, trace, tokens);
        tokens := tokens + a.tokens;
        trace := trace + a.steps;
        stuck := Stuck.DetectStuck(trace, Stuck.DEFAULTS);
        if stuck != Stuck.NotStuck {
          w := Prepend(vs, rest);
          assert vs + [] == vs;
          return;
        }
        if a.driveFailed {
          i := i + 1;
          continue;
        }
        Record(VerifyEntry(id, a.verdict));
        VerifiesSnoc(id, vs, a.verdict);
        if a.verdict == Pass {
          closed := true;
          w := Prepend(vs, rest);
          return;
        }
        if OverTaskBudget(cfg, tokens, a) {
          overBudget := true;
          w := Prepend(vs, rest);
          return;
        }
        PrependSnoc(vs, a.verdict, WorkFrom(cfg, attempts, i + 1, trace, tokens));
        vs := vs + [a.verdict];
        i := i + 1;
      }
      w := WorkFrom(cfg, attempts, 0, [], 0);
      assert vs + [] == vs;
    }

    /** work: claim, attempt, then close or park. The claim is released on these two returns only. */
    method WorkOn(id: string, turn: Turn) returns (ok: bool, parked: bool, stuck: Stuck.Reason, ghost w: Work)
      requires id !in store.claims && FirstIndex(store.rows, id) < |store.rows|
      modifies this`audit, store
      ensures w == WorkFrom(cfg, turn.attempts, 0, [], 0)
      ensures ok == (turn.claimOk && turn.writeOk)
      ensures !turn.claimOk ==> store.claims == old(store.claims) && audit == old(audit)
      ensures turn.claimOk && !turn.writeOk ==>
                store.claims == old(store.claims) + {id} && audit == old(audit) + Opening(id, w.verdicts)
      ensures ok ==> store.claims == (if turn.releaseOk then old(store.claims) - {id} else old(store.claims) + {id})
      ensures ok ==> audit == old(audit) + Print(Block(id, w))
      ensures store.rows == if ok then WithStatus(old(store.rows), id, EndStatus(w.end)) else old(store.rows)
      ensures ok ==> parked == w.end.ParkedFor? && (stuck != Stuck.NotStuck <==> parked && w.end.detail.Looping?)
    {
      hide WorkFrom, FirstIndex, WithStatus, Verifies;
      w := WorkFrom(cfg, turn.attempts, 0, [], 0);
      parked, stuck := false, Stuck.NotStuck;
      ok := store.Claim(id, turn.claimOk);
      if !ok {
        return;
      }
      Record(ClaimEntry(id));
      var closed, reason, overBudget;
      closed, reason, overBudget, w := Attempts(id, turn.attempts);
      assert audit == old(audit) + Opening(id, w.verdicts);
      if closed {
        ok := store.SetStatus(id, Closed, turn.writeOk);
        if !ok {
          return;
        }
        var _ := store.Release(id, turn.releaseOk);
        Record(ReleaseEntry(id));
        assert old(store.claims) + {id} - {id} == old(store.claims) - {id};
        return;
      }
      ok := store.SetStatus(id, Blocked, turn.writeOk);
      if !ok {
        return;
      }
      parked, stuck := true, reason;
      Record(EscalateEntry(id, Reason(reason, overBudget)));
      var _ := store.Release(id, turn.releaseOk);
      Record(ParkEntry(id));
      assert old(store.claims) + {id} - {id} == old(store.claims) - {id};
      assert audit == old(audit) + Print(Block(id, w));
    }

    /** One pass of Run's loop body, up to the next stop condition. */
    method TurnOnce(once: bool, turn: Turn, res0: Result, failures0: nat, ghost s: State)
      returns (res: Result, failures: nat, halted: bool, failed: bool, ghost next: Next)
      requires s == State(store.rows, store.claims, s.blocks, res0, failures0)
      modifies this`audit, store
      ensures next == TakeTurn(cfg, once, turn, s)
      ensures halted == next.Halt? && failed == (next.Halt? && next.stop.IsError())
      ensures next.s == State(store.rows, store.claims, next.s.blocks, res, failures)
      ensures audit == old(audit) + NewEntries(s, next)
    {
      hide WorkFrom, WithStatus, Print, Opening, FirstIndex, NextFrom, Ready, StatusFromCell, EndStatus;
      res, failures := res0, failures0;
      halted, failed, next := true, false, TakeTurn(cfg, once, turn, s);
      if cfg.maxRequirements > 0 && res.attempted >= cfg.maxRequirements {
        res := res.(budgetExhausted := true);
        return;
      }
      if cfg.wallClock > 0 && turn.elapsed >= cfg.wallClock {
        res := res.(budgetExhausted := true);
        return;
      }
      if turn.cancelled || !turn.nextOk {
        failed := true;
        return;
      }
      var req := store.Next();
      if req == None {
        return;
      }
      NextIsClaimable(store.rows, store.claims);
      var ok, parked, stuck;
      ghost var w;
      ok, parked, stuck, w := WorkOn(req.value.id, turn);
      if !ok {
        failed := true;
        return;
      }
      res := res.(attempted := res.attempted + 1);
      if parked {
        res := res.(parked := res.parked + 1);
        failures := failures + 1;
        if stuck != Stuck.NotStuck {
          res := res.(stuck := res.stuck + 1);
        }
      } else {
        res := res.(closed := res.closed + 1);
        failures := 0;
      }
      if failures >= cfg.breakAfter {
        res := res.(breakerTripped := true);
        return;
      }
      halted := once;
    }

    /** Run is its specification, state by state, whatever the world answers and whatever the table holds. */
    method Run(once: bool, world: World) returns (res: Result, failed: bool, ghost stop: Stop, ghost final: State)
      requires Halts(cfg, once, world, Start(store.rows, store.claims))
      modifies this`audit, store
      ensures (final, stop) == RunFrom(cfg, once, world, Start(old(store.rows), old(store.claims)))
      ensures res == final.res && failed == stop.IsError()
      ensures store.rows == final.rows && store.claims == final.claims
      ensures audit == old(audit) + Audit(final, stop)
    {
      hide TakeTurn, PrintAll, Print, Opening, Halts, TurnsLeft, RunFrom, NewEntries;
      res := Result(0, 0, 0, false, false, 0);
      var consecutiveFailures := 0;
      ghost var s := Start(store.rows, store.claims);
      var n := 0;
      PrintAllNone();
      while true
        invariant Halts(cfg, once, world, s) && Halts(cfg, once, world, Start(old(store.rows), old(store.claims)))
        invariant RunFrom(cfg, once, world, s) == RunFrom(cfg, once, world, Start(old(store.rows), old(store.claims)))
        invariant s == State(store.rows, store.claims, s.blocks, res, consecutiveFailures) && n == |s.blocks|
        invariant audit == old(audit) + PrintAll(s.blocks)
        decreases TurnsLeft(cfg, once, world, s)
      {
        var halted;
        ghost var next;
        res, consecutiveFailures, halted, failed, next := TurnOnce(once, world(n), res, consecutiveFailures, s);
        NewEntriesExtend(cfg, once, world(n), s);
        RunUnfolds(cfg, once, world, s);
        if halted {
          return res, failed, next.stop, next.s;
        }
        TurnCounts(cfg, once, world(n), s);
        s := next.s;
        n := n + 1;
      }
    }
  }

  lemma NextIsClaimable(t: Table, claims: set<string>)
    ensures var k := NextFrom(t, claims, 0); k < |t| ==> t[k].id !in claims && FirstIndex(t, t[k].id) < |t|
  {
  }

  /** What one turn adds to the audit log. */
  function NewEntries(s: State, next: Next): seq<Entry> {
    if next.Halt? && next.stop.WriteFailed? then Opening(next.stop.id, next.stop.verdicts)
    else if |next.s.blocks| > |s.blocks| then Print(next.s.blocks[|next.s.blocks| - 1])
    else []
  }

  lemma NewEntriesExtend(cfg: Config, once: bool, turn: Turn, s: State)
    ensures var next := TakeTurn(cfg, once, turn, s);
            PrintAll(s.blocks) + NewEntries(s, next)
            == if next.Halt? then Audit(next.s, next.stop) else PrintAll(next.s.blocks)
  {
    hide Print, Opening, PrintAll, WorkFrom, WithStatus;
    var k := NextFrom(s.rows, s.claims, 0);
    var id := if k < |s.rows| then s.rows[k].id else "";
    PrintAllSnoc(s.blocks, Block(id, WorkFrom(cfg, turn.attempts, 0, [], 0)));
  }

  lemma TurnCounts(cfg: Config, once: bool, turn: Turn, s: State)
    requires TakeTurn(cfg, once, turn, s).Go?
    ensures |TakeTurn(cfg, once, turn, s).s.blocks| == |s.blocks| + 1
  {
  }

  lemma PrintAllNone()
    ensures PrintAll([]) == []
  {
  }

  lemma PrintAllSnoc(bs: seq<Block>, b: Block)
    ensures PrintAll(bs + [b]) == PrintAll(bs) + Print(b)
  {
    assert (bs + [b])[..|bs|] == bs;
  }
}
