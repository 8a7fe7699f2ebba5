/** What any history of emits leaves in the working-memory store. */
module MemoryHistory {
  import opened Lists
  import opened Memory

  /** The store after a history of emits from empty; the i-th emit stamps i + 1. */
  ghost function EntriesAfter(h: seq<Op>, caps: Caps): seq<Entry> {
    if h == [] then []
    else Emitted(EntriesAfter(h[..|h| - 1], caps), h[|h| - 1], |h|, caps.For(h[|h| - 1].kind))
  }

  /** The distinct keys of the same kind emitted after the i-th emit. */
  ghost function LaterKeys(h: seq<Op>, i: nat): set<string>
    requires i < |h|
  {
    set j | i < j < |h| && h[j].kind == h[i].kind :: h[j].key
  }

  ghost predicate LastOfItsKey(h: seq<Op>, i: nat)
    requires i < |h|
  {
    forall j :: i < j < |h| ==> !(h[j].kind == h[i].kind && h[j].key == h[i].key)
  }

  /** The i-th emit is the latest of its key, and fewer than cap other keys of its kind came after it. */
  ghost predicate Survives(h: seq<Op>, i: nat, cap: int)
    requires i < |h|
  {
    LastOfItsKey(h, i) && |LaterKeys(h, i)| < cap
  }

  ghost predicate Recorded(h: seq<Op>, e: Entry) {
    1 <= e.stamp <= |h| && h[e.stamp - 1] == Op(e.kind, e.key, e.text)
  }

  /** e is the record of a surviving emit: snippets have their own cap, every other kind that of facts. */
  ghost predicate Remembered(h: seq<Op>, caps: Caps, e: Entry) {
    Recorded(h, e) && Survives(h, e.stamp - 1, if e.kind == "snippet" then caps.snippet else caps.fact)
  }

  /** The last emit of a key after i. */
  lemma {:induction false} LatestOf(h: seq<Op>, i: nat, key: string) returns (j: nat)
    requires i < |h| && key in LaterKeys(h, i)
    ensures i < j < |h| && h[j].kind == h[i].kind && h[j].key == key && LastOfItsKey(h, j)
    decreases |h|
  {
    var n := |h| - 1;
    if h[n].kind == h[i].kind && h[n].key == key {
      j := n;
    } else {
      var g := h[..n];
      var k :| i < k < |h| && h[k].kind == h[i].kind && h[k].key == key;
      assert g[k] == h[k];
      j := LatestOf(g, i, key);
    }
  }

  /** A later last emit survives whenever an earlier one does. */
  lemma LaterSurvives(h: seq<Op>, i: nat, j: nat, cap: int)
    requires i < j < |h| && h[i].kind == h[j].kind
    requires |LaterKeys(h, i)| < cap && LastOfItsKey(h, j)
    ensures Survives(h, j, cap)
  {
    SubsetCount(LaterKeys(h, j), LaterKeys(h, i));
  }

  lemma LaterKeysSnoc(g: seq<Op>, op: Op, i: nat)
    requires i < |g|
    ensures LaterKeys(g + [op], i) == LaterKeys(g, i) + (if op.kind == g[i].kind then {op.key} else {})
    ensures LastOfItsKey(g + [op], i) <==> LastOfItsKey(g, i) && !(op.kind == g[i].kind && op.key == g[i].key)
  {
    var h := g + [op];
    forall k | k in LaterKeys(g, i) ensures k in LaterKeys(h, i) {
      var j :| i < j < |g| && g[j].kind == g[i].kind && g[j].key == k;
      assert h[j] == g[j];
    }
    if op.kind == g[i].kind {
      assert h[|g|].key == op.key;
    }
    forall j | i < j < |g| ensures h[j] == g[j] {
    }
  }

  /** What the specification says the store holds. */
  ghost predicate Agrees(es: seq<Entry>, h: seq<Op>, caps: Caps) {
    WellKept(es, |h|) && forall e :: e in es <==> Remembered(h, caps, e)
  }

  lemma UpsertMembers(es: seq<Entry>, op: Op, counter: int, e: Entry)
    requires WellKept(es, counter)
    ensures e in Upsert(es, op, counter + 1) <==>
            e == Entry(op.kind, op.key, op.text, counter + 1) || (e in es && !(e.kind == op.kind && e.key == op.key))
  {
    var k := Find(es, op.kind, op.key);
    var u := Upsert(es, op, counter + 1);
    if k < |es| {
      if e in es && !(e.kind == op.kind && e.key == op.key) {
        var i :| 0 <= i < |es| && es[i] == e;
        assert u[i] == e;
      }
      assert u[k] == Entry(op.kind, op.key, op.text, counter + 1);
    } else {
      assert u[|es|] == Entry(op.kind, op.key, op.text, counter + 1);
    }
  }

  lemma NewerIsLater(es: seq<Entry>, g: seq<Op>, op: Op, caps: Caps, e: Entry, r: Entry)
    requires Agrees(es, g, caps) && e in es && e.kind == op.kind
    requires r in Upsert(es, op, |g| + 1) && r.kind == op.kind && r.stamp > e.stamp
    ensures r.key in LaterKeys(g, e.stamp - 1) + {op.key}
  {
    UpsertMembers(es, op, |g|, r);
    hide Upsert, Survives;
    assert Remembered(g, caps, e);
    if r in es {
      assert Remembered(g, caps, r);
      assert g[r.stamp - 1].key == r.key;
    }
  }

  lemma LaterIsNewer(es: seq<Entry>, g: seq<Op>, op: Op, caps: Caps, e: Entry, k: string) returns (r: Entry)
    requires Agrees(es, g, caps) && e in es && e.kind == op.kind && k in LaterKeys(g, e.stamp - 1) + {op.key}
    ensures r in Upsert(es, op, |g| + 1) && r.kind == op.kind && r.stamp > e.stamp && r.key == k
  {
    assert Remembered(g, caps, e);
    if k == op.key {
      r := Entry(op.kind, op.key, op.text, |g| + 1);
    } else {
      var j := LatestOf(g, e.stamp - 1, k);
      LaterSurvives(g, e.stamp - 1, j, caps.For(op.kind));
      r := Entry(g[j].kind, g[j].key, g[j].text, j + 1);
      assert Remembered(g, caps, r);
    }
    UpsertMembers(es, op, |g|, r);
  }

  /** For an entry that is still held, the newer keys in the store are the keys emitted later. */
  lemma NewerAreLater(es: seq<Entry>, g: seq<Op>, op: Op, caps: Caps, e: Entry)
    requires Agrees(es, g, caps) && e in es && e.kind == op.kind
    ensures NewerKeys(Upsert(es, op, |g| + 1), op.kind, e.stamp) == LaterKeys(g, e.stamp - 1) + {op.key}
  {
    assert Remembered(g, caps, e);
    hide Upsert, Agrees, LaterKeys, Survives;
    var u := Upsert(es, op, |g| + 1);
    forall k | k in NewerKeys(u, op.kind, e.stamp) ensures k in LaterKeys(g, e.stamp - 1) + {op.key} {
      var y :| 0 <= y < |u| && u[y].kind == op.kind && u[y].stamp > e.stamp && u[y].key == k;
      NewerIsLater(es, g, op, caps, e, u[y]);
    }
    forall k | k in LaterKeys(g, e.stamp - 1) + {op.key} ensures k in NewerKeys(u, op.kind, e.stamp) {
      var r := LaterIsNewer(es, g, op, caps, e, k);
      var y :| 0 <= y < |u| && u[y] == r;
    }
  }

  /** The entry just emitted has nothing newer. */
  lemma NewestIsKept(es: seq<Entry>, g: seq<Op>, op: Op, caps: Caps)
    requires Agrees(es, g, caps) && caps.Positive()
    ensures var u := Upsert(es, op, |g|
                            + 1); Kept(u, Entry(op.kind, op.key, op.text, |g| + 1), op.kind, caps.For(op.kind))
    ensures Survives(g + [op], |g|, caps.For(op.kind))
  {
    UpsertWellKept(es, |g|, op);
    assert NewerKeys(Upsert(es, op, |g| + 1), op.kind, |g| + 1) == {};
    assert LaterKeys(g + [op], |g|) == {};
  }

  lemma EmittedMember(es: seq<Entry>, g: seq<Op>, op: Op, caps: Caps, e: Entry)
    requires Agrees(es, g, caps) && caps.Positive()
    ensures e in Emitted(es, op, |g| + 1, caps.For(op.kind)) <==> Remembered(g + [op], caps, e)
  {
    var u, h, cap := Upsert(es, op, |g| + 1), g + [op], caps.For(op.kind);
    RetainMember(u, u, op.kind, cap, e);
    UpsertMembers(es, op, |g|, e);
    if 1 <= e.stamp <= |g| {
      assert h[e.stamp - 1] == g[e.stamp - 1];
      LaterKeysSnoc(g, op, e.stamp - 1);
      OldEntry(es, g, op, caps, e);
    } else if e.stamp == |g| + 1 {
      NewestIsKept(es, g, op, caps);
      assert Recorded(h, e) <==> e == Entry(op.kind, op.key, op.text, |g| + 1);
      assert e !in es by {
        hide Survives;
        assert !Remembered(g, caps, e);
      }
    } else {
      assert !Remembered(g, caps, e);
    }
  }

  lemma RememberedMeans(h: seq<Op>, caps: Caps, e: Entry)
    ensures Remembered(h, caps, e) <==> Recorded(h, e) && Survives(h, e.stamp - 1, caps.For(e.kind))
  {
  }

  lemma SurvivesSnoc(g: seq<Op>, op: Op, i: nat, cap: int)
    requires i < |g|
    ensures Survives(g + [op], i, cap) <==>
            && Survives(g, i, cap) && !(op.kind == g[i].kind && op.key == g[i].key)
            && (op.kind == g[i].kind ==> |LaterKeys(g, i) + {op.key}| < cap)
  {
    LaterKeysSnoc(g, op, i);
    hide LaterKeys, LastOfItsKey;
    assert LaterKeys(g, i) + {} == LaterKeys(g, i);
    SubsetCount(LaterKeys(g, i), LaterKeys(g + [op], i));
  }

  lemma StaysKept(es: seq<Entry>, g: seq<Op>, op: Op, caps: Caps, e: Entry)
    requires Agrees(es, g, caps) && e in es && e.kind == op.kind && 1 <= e.stamp <= |g|
    ensures Kept(Upsert(es, op, |g| + 1), e, op.kind, caps.For(op.kind))
            <==> |LaterKeys(g, e.stamp - 1) + {op.key}| < caps.For(op.kind)
  {
    hide Agrees, Upsert, NewerKeys, LaterKeys;
    NewerAreLater(es, g, op, caps, e);
  }

  lemma OldEntry(es: seq<Entry>, g: seq<Op>, op: Op, caps: Caps, e: Entry)
    requires Agrees(es, g, caps) && caps.Positive() && 1 <= e.stamp <= |g|
    ensures var u := Upsert(es, op, |g| + 1);
            (e in es && !(e.kind == op.kind && e.key == op.key) && Kept(u, e, op.kind, caps.For(op.kind)))
            <==> Remembered(g + [op], caps, e)
  {
    hide Upsert, NewerKeys, LaterKeys, WellKept, Survives, Remembered;
    var u, h, i := Upsert(es, op, |g| + 1), g + [op], e.stamp - 1;
    assert h[i] == g[i];
    assert e in es <==> Remembered(g, caps, e);
    RememberedMeans(g, caps, e);
    RememberedMeans(h, caps, e);
    if Recorded(g, e) {
      SurvivesSnoc(g, op, i, caps.For(e.kind));
      if e in es && e.kind == op.kind {
        StaysKept(es, g, op, caps, e);
      }
    }
  }

  lemma EmittedWellKept(es: seq<Entry>, counter: int, op: Op, cap: int)
    requires WellKept(es, counter)
    ensures WellKept(Emitted(es, op, counter + 1, cap), counter + 1)
  {
    UpsertWellKept(es, counter, op);
    RetainWellKept(Upsert(es, op, counter + 1), op.kind, cap, counter + 1);
  }

  lemma AgreesAfter(es: seq<Entry>, g: seq<Op>, op: Op, caps: Caps)
    requires Agrees(es, g, caps) && caps.Positive()
    ensures Agrees(Emitted(es, op, |g| + 1, caps.For(op.kind)), g + [op], caps)
  {
    EmittedWellKept(es, |g|, op, caps.For(op.kind));
    hide Emitted, Remembered, WellKept;
    var next := Emitted(es, op, |g| + 1, caps.For(op.kind));
    forall e ensures e in next <==> Remembered(g + [op], caps, e) {
      EmittedMember(es, g, op, caps, e);
    }
  }

  lemma {:induction false} HistoryAgrees(h: seq<Op>, caps: Caps)
    requires caps.Positive()
    ensures Agrees(EntriesAfter(h, caps), h, caps)
  {
    hide Emitted, Survives;
    if h != [] {
      hide Agrees;
      var n := |h| - 1;
      HistoryAgrees(h[..n], caps);
      AgreesAfter(EntriesAfter(h[..n], caps), h[..n], h[n], caps);
      assert h[..n] + [h[n]] == h;
    }
  }

  /**
   * After any history the store holds exactly the cap most recently emitted keys of each kind, with their latest texts.
   */
  lemma HistoryRemembered(h: seq<Op>, caps: Caps)
    requires caps.Positive()
    ensures WellKept(EntriesAfter(h, caps), |h|)
    ensures forall e :: e in EntriesAfter(h, caps) <==> Remembered(h, caps, e)
  {
    HistoryAgrees(h, caps);
    hide WellKept, Remembered, EntriesAfter;
  }

  lemma {:induction false} MaxStampBounds(es: seq<Entry>)
    ensures MaxStamp(es) >= 0
    ensures forall e :: e in es ==> e.stamp <= MaxStamp(es)
    ensures MaxStamp(es) == 0 || exists e :: e in es && e.stamp == MaxStamp(es)
  {
    if es != [] {
      MaxStampBounds(es[..|es| - 1]);
      assert es == es[..|es| - 1] + [es[|es| - 1]];
    }
  }

  /** The counter can be recovered from the entries, so a reopened store goes on as the old one would have. */
  lemma CounterIsLargestStamp(h: seq<Op>, caps: Caps)
    requires caps.Positive()
    ensures MaxStamp(EntriesAfter(h, caps)) == |h|
  {
    HistoryRemembered(h, caps);
    MaxStampBounds(EntriesAfter(h, caps));
    if h == [] {
    } else {
      var op := h[|h| - 1];
      NewestIsRemembered(h, caps);
      hide EntriesAfter, MaxStamp, Survives;
      assert Entry(op.kind, op.key, op.text, |h|) in EntriesAfter(h, caps);
    }
  }

  lemma NewestIsRemembered(h: seq<Op>, caps: Caps)
    requires h != [] && caps.Positive()
    ensures var op := h[|h| - 1]; Remembered(h, caps, Entry(op.kind, op.key, op.text, |h|))
  {
    assert LaterKeys(h, |h| - 1) == {};
  }

  /** A store that has followed history h. */
  ghost predicate Follows(s: Store, h: seq<Op>)
    reads s
  {
    s.caps.Positive() && s.entries == EntriesAfter(h, s.caps) && s.counter == |h|
  }

  /** The next Open will see what history h leaves. */
  ghost predicate Stored(f: File, h: seq<Op>, caps: Caps) { Load(f) == EntriesAfter(h, caps) }

  /** What a save leaves stored: the whole new history, the one stored before, or nothing. */
  ghost function StoredAfter(h: seq<Op>, was: seq<Op>, w: Save): seq<Op> {
    match w
    case Done => h
    case NotStarted => was
    case CutShort => []
    case DoneButReported => h
  }

  /**
   * Emitting follows the longer history whatever the save does; the file holds that history, the one before, or none.
   */
  method EmitFollows(s: Store, ghost h: seq<Op>, ghost was: seq<Op>, op: Op, w: Save)
    requires Follows(s, h) && Stored(s.file, was, s.caps)
    modifies s
    ensures Follows(s, h + [op]) && Stored(s.file, StoredAfter(h + [op], was, w), s.caps)
  {
    hide WellKept, Emitted, Evicted, Survives;
    HistoryRemembered(h, s.caps);
    assert (h + [op])[..|h|] == h;
    var _ := s.Emit(op.kind, op.key, op.text, w);
    assert EntriesAfter([], s.caps) == [];
  }

  /** Opening again with the same caps, at any point, gives a store that follows the history the file holds. */
  method ReopenFollows(s: Store, ghost h: seq<Op>, caps: Caps) returns (t: Store)
    requires s.caps.Positive() && Stored(s.file, h, s.caps) && caps.Resolved() == s.caps
    ensures fresh(t) && Follows(t, h) && Stored(t.file, h, t.caps)
  {
    CounterIsLargestStamp(h, s.caps);
    t := new Store.Open(s.file, caps);
  }
}
