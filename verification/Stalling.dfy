/** Which open rows a run can come to be offered without being able to settle them. */
module Stalling {
  import opened Lists
  import opened Text
  import opened Requirements

  ghost predicate OnlyRow(t: Table, i: nat) {
    i < |t| && forall j :: 0 <= j < |t| && t[j].id == t[i].id ==> j == i
  }

  /** Read as closed, or to be closed within n rounds. */
  ghost predicate Closes(t: Table, claims: set<string>, d: string, n: nat)
    decreases n, 1
  {
    LastStatus(t, d) == Some(Closed) || (d !in claims && exists i: nat :: Waits(t, claims, d, i, n))
  }

  /** The one row of d is open, and waits only for what closes within n - 1 rounds. */
  ghost predicate Waits(t: Table, claims: set<string>, d: string, i: nat, n: nat)
    decreases n, 0
  {
    n > 0 && OnlyRow(t, i) && t[i].id == d && t[i].Status() == Open && AllClose(t, claims, t[i].deps, n - 1)
  }

  ghost predicate AllClose(t: Table, claims: set<string>, deps: seq<string>, n: nat)
    decreases n, 2
  {
    forall d :: d in deps ==> Closes(t, claims, d, n)
  }

  /** Row i is open and unclaimed, SetStatus would write an earlier row, and after n rounds of closing it is ready. */
  ghost predicate StallsAt(t: Table, claims: set<string>, i: nat, n: nat) {
    && i < |t| && t[i].Status() == Open && t[i].id !in claims
    && FirstIndex(t, t[i].id) < i && AllClose(t, claims, t[i].deps, n)
  }

  ghost predicate CanStall(t: Table, claims: set<string>) { exists i: nat, n: nat :: StallsAt(t, claims, i, n) }

  lemma OpenFirstCannotStall(t: Table, claims: set<string>)
    requires OpenFirst(t)
    ensures !CanStall(t, claims)
  {
    hide AllClose;
    forall i: nat, n: nat | StallsAt(t, claims, i, n) ensures false {
      OpenIsFirst(t, i);
    }
  }

  lemma {:induction false} ClosesLater(t: Table, claims: set<string>, d: string, m: nat, n: nat)
    requires Closes(t, claims, d, m) && m <= n
    ensures Closes(t, claims, d, n)
    decreases m
  {
    hide OnlyRow, LastStatus;
    if LastStatus(t, d) != Some(Closed) {
      var i: nat :| Waits(t, claims, d, i, m);
      InRange(t, i);
      assert AllClose(t, claims, t[i].deps, m - 1);
      forall e | e in t[i].deps ensures Closes(t, claims, e, n - 1) {
        ClosesLater(t, claims, e, m - 1, n - 1);
      }
      assert Waits(t, claims, d, i, n);
    }
  }

  /** What Next offers now it offers without further rounds. */
  lemma OfferedStalls(t: Table, claims: set<string>)
    requires !CanStall(t, claims) && NextFrom(t, claims, 0) < |t|
    ensures var k := NextFrom(t, claims, 0); FirstIndex(t, t[k].id) == k
  {
    hide FirstIndex, LastStatus;
    var k := NextFrom(t, claims, 0);
    assert AllClose(t, claims, t[k].deps, 0);
    assert !StallsAt(t, claims, k, 0);
  }

  // ---------------------------------------------------------------- settling a row, seen from before and from after

  /** An offered row that is the first with its id, about to be settled. */
  ghost predicate Settles(t: Table, claims: set<string>, k: nat, r: Row) {
    && k < |t| && Ready(t, claims, t[k]) && FirstIndex(t, t[k].id) == k
    && r.id == t[k].id && r.deps == t[k].deps && (r.Status() == Closed || r.Status() == Blocked)
  }

  /** Settling changes what Next sees of an id only if the row is the one row with it. */
  lemma SettledChangesOnlyRow(t: Table, claims: set<string>, k: nat, r: Row, d: string)
    requires Settles(t, claims, k, r) && LastStatus(t[k := r], d) != LastStatus(t, d)
    ensures d == t[k].id && OnlyRow(t, k)
  {
    hide StatusFromCell, LastStatus, Ready;
    if d != t[k].id {
      OtherIdUnseen(t, k, r, d);
    } else {
      forall j | 0 <= j < |t| && t[j].id == d ensures j == k {
        if k < j {
          EarlierRowUnseen(t, k, j, r, d);
        }
      }
    }
  }

  lemma SameOnlyRow(t: Table, k: nat, r: Row, i: nat)
    requires k < |t| && r.id == t[k].id && i < |t|
    ensures OnlyRow(t[k := r], i) <==> OnlyRow(t, i)
  {
    var u := t[k := r];
    assert forall j :: 0 <= j < |t| ==> u[j].id == t[j].id;
  }

  /** What closes afterwards closed before, one round later at most. */
  lemma {:induction false} ClosedBefore(t: Table, claims: set<string>, k: nat, r: Row, claims': set<string>, d: string,
          n: nat)
    requires Settles(t, claims, k, r) && claims <= claims' && Closes(t[k := r], claims', d, n)
    ensures Closes(t, claims, d, n + 1)
    decreases n
  {
    hide OnlyRow, LastStatus, StatusFromCell, FirstIndex;
    var u := t[k := r];
    if LastStatus(u, d) == Some(Closed) {
      if LastStatus(t, d) != Some(Closed) {
        SettledChangesOnlyRow(t, claims, k, r, d);
        assert AllClose(t, claims, t[k].deps, n);
        assert Waits(t, claims, d, k, n + 1);
      }
    } else {
      var i: nat :| Waits(u, claims', d, i, n);
      InRange(u, i);
      assert AllClose(u, claims', u[i].deps, n - 1);
      SameOnlyRow(t, k, r, i);
      assert u[i] == t[i];
      forall e | e in t[i].deps ensures Closes(t, claims, e, n) {
        ClosedBefore(t, claims, k, r, claims', e, n - 1);
      }
      assert Waits(t, claims, d, i, n + 1);
    }
  }

  lemma InRange(t: Table, i: nat)
    requires OnlyRow(t, i)
    ensures i < |t|
  {
  }

  lemma StalledBefore(t: Table, claims: set<string>, k: nat, r: Row, claims': set<string>, i: nat, n: nat)
    requires Settles(t, claims, k, r) && claims <= claims' && StallsAt(t[k := r], claims', i, n)
    ensures StallsAt(t, claims, i, n + 1)
  {
    var u := t[k := r];
    assert u[i] == t[i];
    SameFirst(t, k, r, t[i].id);
    hide Closes, Ready, StatusFromCell, FirstIndex;
    forall d | d in t[i].deps ensures Closes(t, claims, d, n + 1) {
      assert Closes(u, claims', d, n);
      ClosedBefore(t, claims, k, r, claims', d, n);
    }
  }

  /** A table that cannot stall still cannot once an offered row is settled, whatever claims are left behind. */
  lemma CannotStallLasts(t: Table, claims: set<string>, k: nat, r: Row, claims': set<string>)
    requires !CanStall(t, claims) && Settles(t, claims, k, r) && claims <= claims'
    ensures !CanStall(t[k := r], claims')
  {
    hide StallsAt;
    assert k < |t|;
    hide Settles;
    if CanStall(t[k := r], claims') {
      var i: nat, n: nat :| StallsAt(t[k := r], claims', i, n);
      StalledBefore(t, claims, k, r, claims', i, n);
    }
  }

  lemma SameFirst(t: Table, k: nat, r: Row, id: string)
    requires k < |t| && r.id == t[k].id
    ensures FirstIndex(t[k := r], id) == FirstIndex(t, id)
  {
    var u := t[k := r];
    var i, j := FirstIndex(u, id), FirstIndex(t, id);
    assert forall x :: 0 <= x < |t| ==> u[x].id == t[x].id;
    assert i < |t| ==> t[i].id == id;
    assert j < |t| ==> u[j].id == id;
  }

  /** What closes before closes afterwards, if the row is closed and the claims are the same. */
  lemma {:induction false} ClosedAfter(t: Table, claims: set<string>, k: nat, r: Row, d: string, n: nat)
    requires Settles(t, claims, k, r) && r.Status() == Closed && Closes(t, claims, d, n)
    ensures Closes(t[k := r], claims, d, n)
    decreases n
  {
    hide OnlyRow, LastStatus, StatusFromCell, FirstIndex, Ready;
    var u := t[k := r];
    if LastStatus(t, d) == Some(Closed) {
      StaysClosed(t, claims, k, r, d);
    } else {
      var i: nat :| Waits(t, claims, d, i, n);
      InRange(t, i);
      assert AllClose(t, claims, t[i].deps, n - 1);
      SameOnlyRow(t, k, r, i);
      if i == k {
        OnlyRowStatus(u, k);
      } else {
        forall e | e in t[i].deps ensures Closes(u, claims, e, n - 1) {
          ClosedAfter(t, claims, k, r, e, n - 1);
        }
        assert u[i] == t[i] && Waits(u, claims, d, i, n);
      }
    }
  }

  lemma StaysClosed(t: Table, claims: set<string>, k: nat, r: Row, d: string)
    requires Settles(t, claims, k, r) && LastStatus(t, d) == Some(Closed)
    ensures LastStatus(t[k := r], d) == Some(Closed)
  {
    assert t[k].Status() == Open;
    hide StatusFromCell, LastStatus, Ready;
    ClosedStays(t, k, r, d);
  }

  lemma OnlyRowStatus(t: Table, i: nat)
    requires OnlyRow(t, i)
    ensures LastStatus(t, t[i].id) == Some(t[i].Status())
  {
    hide StatusFromCell;
    LastStatusIsARow(t, t[i].id);
  }

  /** A table that can stall still can once an offered row is closed. */
  lemma CanStallLasts(t: Table, claims: set<string>, k: nat, r: Row)
    requires CanStall(t, claims) && Settles(t, claims, k, r) && r.Status() == Closed
    ensures CanStall(t[k := r], claims)
  {
    hide Closes, Ready, StatusFromCell, FirstIndex;
    var u := t[k := r];
    var i: nat, n: nat :| StallsAt(t, claims, i, n);
    SameFirst(t, k, r, t[i].id);
    assert u[i] == t[i];
    forall d | d in t[i].deps ensures Closes(u, claims, d, n) {
      assert Closes(t, claims, d, n);
      ClosedAfter(t, claims, k, r, d, n);
    }
    assert AllClose(u, claims, t[i].deps, n);
    assert StallsAt(u, claims, i, n);
  }

  // ---------------------------------------------------------------- when nothing is offered

  lemma {:induction false} NothingMoreCloses(t: Table, claims: set<string>, d: string, n: nat)
    requires NextFrom(t, claims, 0) == |t| && Closes(t, claims, d, n)
    ensures LastStatus(t, d) == Some(Closed)
    decreases n
  {
    hide OnlyRow, LastStatus, StatusFromCell, Ready;
    if LastStatus(t, d) != Some(Closed) {
      var i: nat :| Waits(t, claims, d, i, n);
      InRange(t, i);
      assert AllClose(t, claims, t[i].deps, n - 1);
      forall e | e in t[i].deps ensures LastStatus(t, e) == Some(Closed) {
        NothingMoreCloses(t, claims, e, n - 1);
      }
      NotReady(t, claims, i);
    }
  }

  lemma NotReady(t: Table, claims: set<string>, i: nat)
    requires NextFrom(t, claims, 0) == |t| && i < |t| && t[i].Status() == Open && t[i].id !in claims
    ensures exists d :: d in t[i].deps && LastStatus(t, d) != Some(Closed)
  {
    assert !Ready(t, claims, t[i]);
  }

  lemma NothingOfferedCannotStall(t: Table, claims: set<string>)
    requires NextFrom(t, claims, 0) == |t|
    ensures !CanStall(t, claims)
  {
    hide Closes, LastStatus, StatusFromCell, FirstIndex, Ready;
    forall i: nat, n: nat | StallsAt(t, claims, i, n) ensures false {
      forall d | d in t[i].deps ensures LastStatus(t, d) == Some(Closed) {
        assert Closes(t, claims, d, n);
        NothingMoreCloses(t, claims, d, n);
      }
      NotReady(t, claims, i);
    }
  }

  // ---------------------------------------------------------------- as many rounds as rows are enough

  ghost function Reached(t: Table, claims: set<string>, n: nat): set<string> {
    set d | d in Ids(t) && Closes(t, claims, d, n)
  }

  lemma ClosesIsAnId(t: Table, claims: set<string>, d: string, n: nat)
    requires Closes(t, claims, d, n)
    ensures d in Reached(t, claims, n)
  {
    if LastStatus(t, d) == Some(Closed) {
      LastStatusIsARow(t, d);
    } else {
      var i: nat :| Waits(t, claims, d, i, n);
      InRange(t, i);
    }
  }

  /** Once a round adds nothing, no later one does. */
  lemma {:induction false} StaysReached(t: Table, claims: set<string>, k: nat, d: string, n: nat)
    requires Reached(t, claims, k) == Reached(t, claims, k + 1) && Closes(t, claims, d, n)
    ensures Closes(t, claims, d, k)
    decreases n
  {
    hide OnlyRow, LastStatus, StatusFromCell, Reached;
    if LastStatus(t, d) != Some(Closed) {
      var i: nat :| Waits(t, claims, d, i, n);
      InRange(t, i);
      assert AllClose(t, claims, t[i].deps, n - 1);
      forall e | e in t[i].deps ensures Closes(t, claims, e, k) {
        StaysReached(t, claims, k, e, n - 1);
      }
      assert Waits(t, claims, d, i, k + 1);
      ClosesIsAnId(t, claims, d, k + 1);
      ReachedCloses(t, claims, d, k);
    }
  }

  lemma ReachedCloses(t: Table, claims: set<string>, d: string, n: nat)
    requires d in Reached(t, claims, n)
    ensures Closes(t, claims, d, n)
  {
    hide Closes;
  }

  lemma ReachedGrows(t: Table, claims: set<string>, n: nat)
    ensures Reached(t, claims, n) <= Reached(t, claims, n + 1) <= Ids(t)
  {
    forall d | d in Reached(t, claims, n) ensures d in Reached(t, claims, n + 1) {
      ClosesLater(t, claims, d, n, n + 1);
    }
  }

  lemma {:induction false} SomeRoundAddsNothing(t: Table, claims: set<string>, n: nat)
    ensures n <= |Reached(t, claims, n)| || exists k: nat :: k < n && Reached(t, claims, k) == Reached(t, claims, k + 1)
  {
    hide Reached, Ids;
    if n > 0 {
      SomeRoundAddsNothing(t, claims, n - 1);
      var a, b := Reached(t, claims, n - 1), Reached(t, claims, n);
      ReachedGrows(t, claims, n - 1);
      if a != b {
        assert b == a + (b - a) && |b - a| > 0;
      }
    }
  }

  /** What closes at all closes within as many rounds as there are rows. */
  lemma RowsAreEnough(t: Table, claims: set<string>, d: string, n: nat)
    requires Closes(t, claims, d, n)
    ensures Closes(t, claims, d, |t|)
  {
    var m := |t| + 1;
    SomeRoundAddsNothing(t, claims, m);
    IdCount(t);
    hide Closes;
    ReachedGrows(t, claims, m);
    SubsetCount(Reached(t, claims, m), Ids(t));
    hide Reached, Ids;
    var k: nat :| k < m && Reached(t, claims, k) == Reached(t, claims, k + 1);
    StaysReached(t, claims, k, d, n);
    ClosesLater(t, claims, d, k, |t|);
  }

  lemma {:induction false} IdCount(t: Table)
    ensures |Ids(t)| <= |t|
  {
    if t != [] {
      var n := |t| - 1;
      IdCount(t[..n]);
      assert Ids(t) == Ids(t[..n]) + {t[n].id};
    }
  }

  /** So whether a table can stall is found by looking at each row after |t| rounds. */
  lemma CanStallWithin(t: Table, claims: set<string>)
    ensures CanStall(t, claims) <==> exists i: nat :: i < |t| && StallsAt(t, claims, i, |t|)
  {
    if CanStall(t, claims) {
      var i: nat, n: nat :| StallsAt(t, claims, i, n);
      hide Closes, FirstIndex, StatusFromCell;
      forall d | d in t[i].deps ensures Closes(t, claims, d, |t|) {
        assert Closes(t, claims, d, n);
        RowsAreEnough(t, claims, d, n);
      }
      assert AllClose(t, claims, t[i].deps, |t|);
      assert StallsAt(t, claims, i, |t|);
    }
  }
}
