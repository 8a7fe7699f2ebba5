/** The requirements store: a table of rows, and a directory of claims. */
module Requirements {
  import opened Text

  datatype Status = Open | Claimed | Closed | Blocked | Proposed

  /** unicode.ToUpper, for the characters whose upper case is an ASCII letter. */
  function Upper(c: char): char {
    if 'a' <= c <= 'z' then (c as int - 32) as char
    else if c == '\U{0131}' then 'I'
    else if c == '\U{017F}' then 'S'
    else c
  }

  function ToUpper(s: string): string { seq(|s|, i requires 0 <= i < |s| => Upper(s[i])) }

  /** statusFromCSV: anything but the three named states reads as open. */
  function StatusFromCell(cell: string): Status {
    var s := ToUpper(TrimSpace(cell));
    if s == "COMPLETE" then Closed
    else if s == "BLOCKED" then Blocked
    else if s == "PROPOSED" then Proposed
    else Open
  }

  /** statusToCSV. */
  function StatusToCell(s: Status): string {
    match s
    case Closed => "COMPLETE"
    case Blocked => "BLOCKED"
    case Proposed => "PROPOSED"
    case Open => "OPEN"
    case Claimed => "OPEN"
  }

  lemma CompleteReads()
    ensures StatusFromCell("COMPLETE") == Closed
  {
    TrimIdentity("COMPLETE");
    assert ToUpper("COMPLETE") == "COMPLETE";
  }

  lemma BlockedReads()
    ensures StatusFromCell("BLOCKED") == Blocked
  {
    TrimIdentity("BLOCKED");
    assert ToUpper("BLOCKED") == "BLOCKED";
  }

  lemma ProposedReads()
    ensures StatusFromCell("PROPOSED") == Proposed
  {
    TrimIdentity("PROPOSED");
    assert ToUpper("PROPOSED") == "PROPOSED";
  }

  lemma OpenReads()
    ensures StatusFromCell("OPEN") == Open
  {
    TrimIdentity("OPEN");
    assert |ToUpper("OPEN")| == 4;
  }

  /** A status written to the table reads back as itself, except that a claim is not a column: it reads back as open. */
  lemma StatusRoundTrip(s: Status)
    ensures StatusFromCell(StatusToCell(s)) == if s == Claimed then Open else s
    ensures StatusToCell(Closed) == "COMPLETE" && StatusToCell(Blocked) == "BLOCKED"
    ensures StatusToCell(Proposed) == "PROPOSED" && StatusToCell(Open) == StatusToCell(Claimed) == "OPEN"
  {
    CompleteReads();
    BlockedReads();
    ProposedReads();
    OpenReads();
    hide StatusFromCell;
  }

  /** The same word, small letters read as capitals: the dotless i and the long s count as i and s. */
  ghost predicate Spells(s: string, word: string) {
    && |s| == |word|
    && forall i :: 0 <= i < |s| ==>
         || s[i] == word[i]
         || ('A' <= word[i] <= 'Z' && s[i] as int == word[i] as int + 32)
         || (word[i] == 'I' && s[i] == '\U{0131}') || (word[i] == 'S' && s[i] == '\U{017F}')
  }

  ghost predicate Capitals(word: string) { forall i :: 0 <= i < |word| ==> 'A' <= word[i] <= 'Z' }

  lemma UpperSpells(s: string, word: string)
    requires Capitals(word)
    ensures ToUpper(s) == word <==> Spells(s, word)
  {
    var u := ToUpper(s);
    if u == word {
      forall i | 0 <= i < |s| ensures u[i] == word[i] && Upper(s[i]) == word[i] {
      }
    }
    if Spells(s, word) {
      assert forall i :: 0 <= i < |s| ==> u[i] == word[i];
    }
  }

  /** A cell that spells the word, whatever space stands around it. */
  ghost predicate CellSpells(cell: string, word: string) {
    exists pre, s, post :: Blank(pre) && Blank(post) && Spells(s, word) && cell == pre + s + post
  }

  lemma TrimmedSpells(cell: string, word: string)
    requires Capitals(word) && word != ""
    ensures ToUpper(TrimSpace(cell)) == word <==> CellSpells(cell, word)
  {
    UpperSpells(TrimSpace(cell), word);
    if Spells(TrimSpace(cell), word) {
      var pre, post := TrimSpaceParts(cell);
      assert Blank(pre) && Blank(post);
    }
    forall pre, s, post | Blank(pre) && Blank(post) && Spells(s, word) && cell == pre + s + post
      ensures Spells(TrimSpace(cell), word)
    {
      SpelledIsTrimmed(s, word);
      hide IsSpace, TrimSpace, Trimmed, Spells;
      TrimUnique(pre, s, post);
    }
  }

  lemma SpelledIsTrimmed(s: string, word: string)
    requires Spells(s, word) && Capitals(word) && word != ""
    ensures Trimmed(s)
  {
  }

  /** What a cell reads as: its word, whatever its case and the space around it; any other text is open. */
  lemma StatusExactly(cell: string)
    ensures StatusFromCell(cell) == Closed <==> CellSpells(cell, "COMPLETE")
    ensures StatusFromCell(cell) == Blocked <==> CellSpells(cell, "BLOCKED")
    ensures StatusFromCell(cell) == Proposed <==> CellSpells(cell, "PROPOSED")
    ensures StatusFromCell(cell) == Open <==>
            !CellSpells(cell, "COMPLETE") && !CellSpells(cell, "BLOCKED") && !CellSpells(cell, "PROPOSED")
  {
    hide CellSpells, TrimSpace, ToUpper;
    TrimmedSpells(cell, "COMPLETE");
    TrimmedSpells(cell, "BLOCKED");
    TrimmedSpells(cell, "PROPOSED");
  }

  datatype Row = Row(id: string, cell: string, deps: seq<string>) {
    function Status(): Status { StatusFromCell(cell) }
  }

  type Table = seq<Row>

  ghost predicate UniqueIds(t: Table) {
    forall i, j :: 0 <= i < j < |t| ==> t[i].id != t[j].id
  }

  ghost function Ids(t: Table): set<string> { set i | 0 <= i < |t| :: t[i].id }

  /** Every open row is the first with its id: the row SetStatus writes. */
  ghost predicate OpenFirst(t: Table) {
    forall j, i :: 0 <= j < i < |t| && t[i].Status() == Open ==> t[j].id != t[i].id
  }

  /** The status Next sees for an id: the last row with that id wins. */
  function LastStatus(t: Table, id: string): Option<Status> {
    if t == [] then None
    else if t[|t| - 1].id == id then Some(t[|t| - 1].Status())
    else LastStatus(t[..|t| - 1], id)
  }

  predicate Ready(t: Table, claims: set<string>, r: Row) {
    r.Status() == Open && r.id !in claims && forall d :: d in r.deps ==> LastStatus(t, d) == Some(Closed)
  }

  /** The first ready row at or after i, or |t|. */
  function NextFrom(t: Table, claims: set<string>, i: nat): (k: nat)
    requires i <= |t|
    ensures i <= k <= |t|
    ensures k < |t| ==> Ready(t, claims, t[k])
    ensures forall j :: i <= j < k ==> !Ready(t, claims, t[j])
    decreases |t| - i
  {
    hide Ready;
    if i == |t| || Ready(t, claims, t[i]) then i else NextFrom(t, claims, i + 1)
  }

  /** The row SetStatus writes: the first with that id. */
  function FirstIndex(t: Table, id: string): (k: nat)
    ensures k <= |t|
    ensures k < |t| ==> t[k].id == id
    ensures forall j :: 0 <= j < k ==> t[j].id != id
  {
    if t == [] || t[0].id == id then 0
    else
      var k := FirstIndex(t[1..], id);
      assert forall j :: 0 < j < k + 1 ==> t[j] == t[1..][j - 1];
      k + 1
  }

  function WithStatus(t: Table, id: string, st: Status): Table {
    var k := FirstIndex(t, id);
    if k < |t| then t[k := t[k].(cell := StatusToCell(st))] else t
  }

  class Store {
    var rows: Table
    var claims: set<string>

    constructor (rows: Table, claims: set<string>)
      ensures this.rows == rows && this.claims == claims
    {
      this.rows, this.claims := rows, claims;
    }

    /** isClaimed, then readiness, in file order. */
    method Next() returns (r: Option<Row>)
      ensures var k := NextFrom(rows, claims, 0); r == if k < |rows| then Some(rows[k]) else None
    {
      var status: map<string, Status> := map[];
      for i := 0 to |rows|
        invariant forall id :: (if id in status then Some(status[id]) else None) == LastStatus(rows[..i], id)
      {
        assert rows[..i + 1][..i] == rows[..i];
        status := status[rows[i].id := rows[i].Status()];
      }
      assert rows[..|rows|] == rows;
      for i := 0 to |rows|
        invariant NextFrom(rows, claims, 0) == NextFrom(rows, claims, i)
      {
        if rows[i].Status() != Open || rows[i].id in claims {
          continue;
        }
        var ready := DepsClosed(rows[i].deps, status);
        if ready {
          return Some(rows[i]);
        }
      }
      r := None;
    }

    /** Rewrites one cell; a failed write leaves the old file, which is replaced by a rename. */
    method SetStatus(id: string, st: Status, writeOk: bool) returns (ok: bool)
      modifies this`rows
      ensures ok == (writeOk && FirstIndex(old(rows), id) < |old(rows)|)
      ensures rows == if ok then WithStatus(old(rows), id, st) else old(rows)
    {
      var db := rows;
      var found := false;
      var i := 0;
      while i < |rows|
        invariant 0 <= i <= |rows| && db == rows && !found
        invariant forall j :: 0 <= j < i ==> rows[j].id != id
      {
        if db[i].id == id {
          db := db[i := db[i].(cell := StatusToCell(st))];
          found := true;
          break;
        }
        i := i + 1;
      }
      if !found || !writeOk {
        return false;
      }
      rows := db;
      ok := true;
    }

    /** Exclusive creation of the claim file. */
    method Claim(id: string, ioOk: bool) returns (ok: bool)
      modifies this`claims
      ensures ok == (ioOk && id !in old(claims))
      ensures claims == if ok then old(claims) + {id} else old(claims)
    {
      if !ioOk || id in claims {
        return false;
      }
      claims := claims + {id};
      ok := true;
    }

    /** Removes the claim file; an absent file is not an error. */
    method Release(id: string, ioOk: bool) returns (ok: bool)
      modifies this`claims
      ensures ok == ioOk
      ensures claims == if ok then old(claims) - {id} else old(claims)
    {
      if ioOk {
        claims := claims - {id};
      }
      ok := ioOk;
    }
  }

  method DepsClosed(deps: seq<string>, status: map<string, Status>) returns (ready: bool)
    ensures ready == forall d :: d in deps ==> d in status && status[d] == Closed
  {
    ready := true;
    for i := 0 to |deps|
      invariant ready
      invariant forall j :: 0 <= j < i ==> deps[j] in status && status[deps[j]] == Closed
    {
      if !(deps[i] in status && status[deps[i]] == Closed) {
        return false;
      }
    }
  }

  // ---------------------------------------------------------------- facts about the table

  lemma UniqueIsOpenFirst(t: Table)
    requires UniqueIds(t)
    ensures OpenFirst(t)
  {
  }

  lemma {:induction false} LastStatusIsARow(t: Table, id: string)
    ensures LastStatus(t, id) == None <==> forall i :: 0 <= i < |t| ==> t[i].id != id
    ensures LastStatus(t, id) != None
            ==> exists i :: 0 <= i < |t| && t[i].id == id && LastStatus(t, id) == Some(t[i].Status())
  {
    if t != [] {
      var front := t[..|t| - 1];
      LastStatusIsARow(front, id);
      if t[|t| - 1].id != id {
        assert forall i :: 0 <= i < |front| ==> t[i] == front[i];
        if LastStatus(front, id) != None {
          var i :| 0 <= i < |front| && front[i].id == id && LastStatus(front, id) == Some(front[i].Status());
          assert t[i].id == id;
        }
      }
    }
  }

  function OpenCount(t: Table): nat {
    if t == [] then 0 else OpenCount(t[..|t| - 1]) + (if t[|t| - 1].Status() == Open then 1 else 0)
  }

  lemma {:induction false} OpenCountUpdate(t: Table, i: nat, r: Row)
    requires i < |t|
    ensures OpenCount(t[i := r]) + (if t[i].Status() == Open then 1 else 0)
            == OpenCount(t) + (if r.Status() == Open then 1 else 0)
  {
    hide StatusFromCell;
    var n := |t| - 1;
    if i == n {
      assert t[i := r][..n] == t[..n];
    } else {
      OpenCountUpdate(t[..n], i, r);
      assert t[i := r][..n] == t[..n][i := r];
    }
  }

  /** Same ids and dependencies, row by row. */
  ghost predicate SameShape(t: Table, u: Table) {
    |t| == |u| && forall i :: 0 <= i < |t| ==> t[i].id == u[i].id && t[i].deps == u[i].deps
  }

  lemma OpenIsFirst(t: Table, i: nat)
    requires OpenFirst(t) && i < |t| && t[i].Status() == Open
    ensures FirstIndex(t, t[i].id) == i
  {
    hide StatusFromCell;
    var k := FirstIndex(t, t[i].id);
    assert k <= i;
  }

  lemma SettledRowKeepsOpenFirst(t: Table, i: nat, r: Row)
    requires OpenFirst(t) && i < |t| && r.id == t[i].id && r.Status() != Open
    ensures OpenFirst(t[i := r])
  {
    hide StatusFromCell;
    var u := t[i := r];
    forall j, k | 0 <= j < k < |u| && u[k].Status() == Open ensures u[j].id != u[k].id {
      assert u[k] == t[k];
      assert u[j].id == t[j].id;
    }
  }

  /**
   * Settling a ready row lowers the open count by one if the first row with its id is open, and not at all otherwise.
   */
  lemma SettlingLowersOpenCount(t: Table, claims: set<string>, i: nat, st: Status)
    requires i < |t| && Ready(t, claims, t[i]) && (st == Closed || st == Blocked)
    ensures var k, u := FirstIndex(t, t[i].id), WithStatus(t, t[i].id, st);
            && k <= i && u == t[k := t[k].(cell := StatusToCell(st))] && SameShape(t, u)
            && OpenCount(u) == OpenCount(t) - (if t[k].Status() == Open then 1 else 0)
            && (OpenFirst(t) ==> k == i && OpenFirst(u))
  {
    assert t[i].Status() == Open;
    hide StatusToCell, StatusFromCell, OpenCount, FirstIndex, WithStatus, OpenFirst, SameShape, Ready;
    WrittenRow(t, i, st);
    WithStatusShape(t, t[i].id, st);
    var k := FirstIndex(t, t[i].id);
    var r := t[k].(cell := StatusToCell(st));
    StatusRoundTrip(st);
    OpenCountUpdate(t, k, r);
    if OpenFirst(t) {
      OpenIsFirst(t, i);
      SettledRowKeepsOpenFirst(t, i, r);
    }
  }

  /** Whatever the ids: settling the row Next returned makes progress exactly when the first row of that id was open. */
  lemma SettlingProgress(t: Table, claims: set<string>, st: Status)
    requires NextFrom(t, claims, 0) < |t| && (st == Closed || st == Blocked)
    ensures var id := t[NextFrom(t, claims, 0)].id;
            OpenCount(WithStatus(t, id, st)) < OpenCount(t) <==> t[FirstIndex(t, id)].Status() == Open
    ensures var id := t[NextFrom(t, claims, 0)].id;
            t[FirstIndex(t, id)].Status() != Open ==> OpenCount(WithStatus(t, id, st)) == OpenCount(t)
  {
    hide WithStatus, OpenCount, StatusFromCell, FirstIndex;
    SettlingLowersOpenCount(t, claims, NextFrom(t, claims, 0), st);
  }

  lemma {:induction false} ShapeFirstIndex(t: Table, u: Table, id: string)
    requires SameShape(t, u)
    ensures FirstIndex(t, id) == FirstIndex(u, id)
  {
    var j := FirstIndex(t, id);
    assert j < |u| ==> u[j].id == t[j].id;
    assert forall i :: 0 <= i < j ==> u[i].id == t[i].id;
  }

  lemma WithStatusShape(t: Table, id: string, st: Status)
    ensures SameShape(t, WithStatus(t, id, st))
  {
  }

  // ---------------------------------------------------------------- dependency order

  /** Every closed requirement has all its dependencies closed. */
  ghost predicate DependencyClosed(t: Table) {
    forall i :: 0 <= i < |t| && t[i].Status() == Closed ==> DepsAreClosed(t, t[i].deps)
  }

  ghost predicate DepsAreClosed(t: Table, deps: seq<string>) {
    forall d :: d in deps ==> LastStatus(t, d) == Some(Closed)
  }

  /** A row that is not the last with its id does not decide what Next sees. */
  lemma {:induction false} EarlierRowUnseen(t: Table, k: nat, i: nat, r: Row, d: string)
    requires k < i < |t| && t[k].id == t[i].id == r.id
    ensures LastStatus(t[k := r], d) == LastStatus(t, d)
  {
    var n := |t| - 1;
    if i < n {
      assert t[k := r][..n] == t[..n][k := r];
      EarlierRowUnseen(t[..n], k, i, r, d);
    } else if d != t[n].id {
      assert t[k := r][..n] == t[..n][k := r];
      OtherIdUnseen(t[..n], k, r, d);
    }
  }

  lemma {:induction false} OtherIdUnseen(t: Table, k: nat, r: Row, d: string)
    requires k < |t| && t[k].id == r.id != d
    ensures LastStatus(t[k := r], d) == LastStatus(t, d)
  {
    var n := |t| - 1;
    if k < n {
      assert t[k := r][..n] == t[..n][k := r];
      OtherIdUnseen(t[..n], k, r, d);
    } else {
      assert t[k := r][..n] == t[..n];
    }
  }

  /** An id whose last row is closed stays closed when an earlier row of it changes, or a row of another id. */
  lemma ClosedStays(t: Table, k: nat, r: Row, d: string)
    requires k < |t| && r.id == t[k].id && t[k].Status() == Open && LastStatus(t, d) == Some(Closed)
    requires forall j :: 0 <= j < k ==> t[j].id != t[k].id
    ensures LastStatus(t[k := r], d) == Some(Closed)
  {
    hide StatusFromCell;
    if d != t[k].id {
      OtherIdUnseen(t, k, r, d);
    } else {
      LastStatusIsARow(t, d);
      hide LastStatus;
      var j :| 0 <= j < |t| && t[j].id == d && LastStatus(t, d) == Some(t[j].Status());
      EarlierRowUnseen(t, k, j, r, d);
    }
  }

  lemma WrittenRow(t: Table, i: nat, st: Status)
    requires i < |t|
    ensures var k := FirstIndex(t, t[i].id);
            k <= i && t[k].id == t[i].id && WithStatus(t, t[i].id, st) == t[k := t[k].(cell := StatusToCell(st))]
  {
    hide StatusToCell;
  }

  /** Settling an offered row takes no closed status away, and gives none if the row written is not the one offered. */
  lemma SettledStatus(t: Table, claims: set<string>, i: nat, st: Status, d: string)
    requires i < |t| && Ready(t, claims, t[i]) && (st == Closed || st == Blocked)
    ensures LastStatus(t, d) == Some(Closed) ==> LastStatus(WithStatus(t, t[i].id, st), d) == Some(Closed)
    ensures FirstIndex(t, t[i].id) < i ==> LastStatus(WithStatus(t, t[i].id, st), d) == LastStatus(t, d)
  {
    assert t[i].Status() == Open;
    WrittenRow(t, i, st);
    hide StatusFromCell, StatusToCell, LastStatus, WithStatus, Ready;
    var id, k := t[i].id, FirstIndex(t, t[i].id);
    var r := t[k].(cell := StatusToCell(st));
    if k == i {
      if LastStatus(t, d) == Some(Closed) {
        ClosedStays(t, k, r, d);
      }
    } else if d != id {
      OtherIdUnseen(t, k, r, d);
    } else {
      EarlierRowUnseen(t, k, i, r, d);
    }
  }

  /**
   * Settling an offered row keeps the order exactly when the row written is blocked or has its own dependencies closed.
   */
  lemma SettlingKeepsOrder(t: Table, claims: set<string>, i: nat, st: Status)
    requires i < |t| && Ready(t, claims, t[i]) && (st == Closed || st == Blocked)
    requires DependencyClosed(t)
    ensures DependencyClosed(WithStatus(t, t[i].id, st))
            <==> st == Blocked || DepsAreClosed(t, t[FirstIndex(t, t[i].id)].deps)
  {
    var k := FirstIndex(t, t[i].id);
    var u := WithStatus(t, t[i].id, st);
    StatusRoundTrip(st);
    assert u == t[k := t[k].(cell := StatusToCell(st))];
    hide StatusFromCell, StatusToCell, LastStatus, FirstIndex;
    forall d ensures LastStatus(t, d) == Some(Closed) ==> LastStatus(u, d) == Some(Closed)
             ensures k < i ==> LastStatus(u, d) == LastStatus(t, d)
    {
      SettledStatus(t, claims, i, st, d);
    }
    if st == Blocked || DepsAreClosed(t, t[k].deps) {
      hide WithStatus, Ready;
      forall j | 0 <= j < |u| && u[j].Status() == Closed ensures DepsAreClosed(u, u[j].deps) {
        assert j != k ==> u[j] == t[j];
        assert DepsAreClosed(t, t[j].deps);
      }
    } else {
      assert u[k].Status() == Closed;
    }
  }
}
