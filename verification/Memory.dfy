/** The working-memory store: keyed entries, update in place, oldest-first eviction per kind. */
module Memory {
  import opened Lists

  type Kind = string

  const SNIPPET: Kind := "snippet"
  const DEFAULT_MAX_FACTS := 50
  const DEFAULT_MAX_SNIPPETS := 35

  datatype Entry = Entry(kind: Kind, key: string, text: string, stamp: int)

  /** One call of Emit. */
  datatype Op = Op(kind: Kind, key: string, text: string)

  datatype Caps = Caps(fact: int, snippet: int) {
    /** A cap that is not positive means the default. */
    function Resolved(): Caps {
      Caps(if fact <= 0 then DEFAULT_MAX_FACTS else fact, if snippet <= 0 then DEFAULT_MAX_SNIPPETS else snippet)
    }

    function For(kind: Kind): int { if kind == SNIPPET then snippet else fact }

    predicate Positive() { fact > 0 && snippet > 0 }
  }

  // ---------------------------------------------------------------- specification of one Emit

  /** The first entry with this kind and key, or |es|. */
  function Find(es: seq<Entry>, kind: Kind, key: string): (k: nat)
    ensures k <= |es|
    ensures k < |es| ==> es[k].kind == kind && es[k].key == key
    ensures forall j :: 0 <= j < k ==> !(es[j].kind == kind && es[j].key == key)
  {
    if es == [] || (es[0].kind == kind && es[0].key == key) then 0
    else
      var k := Find(es[1..], kind, key);
      assert forall j :: 0 < j < k + 1 ==> es[j] == es[1..][j - 1];
      k + 1
  }

  function Upsert(es: seq<Entry>, op: Op, stamp: int): seq<Entry> {
    var k := Find(es, op.kind, op.key);
    if k < |es| then es[k := Entry(op.kind, op.key, op.text, stamp)] else es + [Entry(op.kind, op.key, op.text, stamp)]
  }

  /** The keys of this kind stamped later. */
  ghost function NewerKeys(es: seq<Entry>, kind: Kind, stamp: int): set<string> {
    set i | 0 <= i < |es| && es[i].kind == kind && es[i].stamp > stamp :: es[i].key
  }

  ghost predicate Kept(all: seq<Entry>, e: Entry, kind: Kind, cap: int) {
    e.kind == kind ==> |NewerKeys(all, kind, e.stamp)| < cap
  }

  /** es without the entries of the kind that have cap newer keys in all. */
  ghost function Retain(all: seq<Entry>, es: seq<Entry>, kind: Kind, cap: int): seq<Entry> {
    if es == [] then [] else
      Retain(all, es[..|es| - 1], kind, cap) + (if Kept(all, es[|es| - 1], kind, cap) then [es[|es| - 1]] else [])
  }

  ghost function Emitted(es: seq<Entry>, op: Op, stamp: int, cap: int): seq<Entry> {
    var u := Upsert(es, op, stamp);
    Retain(u, u, op.kind, cap)
  }

  /** Keys are distinct within a kind, stamps are distinct, and none exceeds the counter. */
  ghost predicate WellKept(es: seq<Entry>, counter: int) {
    && (forall i, j :: 0 <= i < j < |es| ==> !(es[i].kind == es[j].kind && es[i].key == es[j].key))
    && (forall i, j :: 0 <= i < j < |es| ==> es[i].stamp != es[j].stamp)
    && (forall i :: 0 <= i < |es| ==> es[i].stamp <= counter)
  }

  function MaxStamp(es: seq<Entry>): int {
    if es == [] then 0
    else
      var m := MaxStamp(es[..|es| - 1]);
      if es[|es| - 1].stamp > m then es[|es| - 1].stamp else m
  }

  // ---------------------------------------------------------------- eviction, with no assumption on keys or stamps

  ghost function Of(es: seq<Entry>, kind: Kind): set<nat> { set i: nat | i < |es| && es[i].kind == kind }

  /** A choice of entries to drop: just enough of the kind, none of them newer than one that stays. */
  ghost predicate Oldest(es: seq<Entry>, drop: set<nat>, kind: Kind, cap: int) {
    var all := Of(es, kind);
    && drop <= all
    && |drop| == (if |all| > cap then |all| - cap else 0)
    && forall i, j :: i in drop && j in all - drop ==> es[i].stamp <= es[j].stamp
  }

  ghost function Dropping(es: seq<Entry>, drop: set<nat>): seq<Entry> {
    if es == [] then []
    else
      var n := |es| - 1;
      Dropping(es[..n], drop) + (if n in drop then [] else [es[n]])
  }

  /** Whichever of equally old entries the sort puts first. */
  ghost predicate Evicted(es: seq<Entry>, kept: seq<Entry>, kind: Kind, cap: int) {
    exists drop :: Oldest(es, drop, kind, cap) && kept == Dropping(es, drop)
  }

  ghost predicate ByStamp(es: seq<Entry>, idx: seq<nat>) {
    && (forall i :: 0 <= i < |idx| ==> idx[i] < |es|)
    && (forall i, j :: 0 <= i < j < |idx| ==> es[idx[i]].stamp <= es[idx[j]].stamp)
  }

  /** The first elements of a list sorted by stamp are an oldest choice. */
  lemma OldestFirst(es: seq<Entry>, sorted: seq<nat>, kind: Kind, cap: int)
    requires ByStamp(es, sorted) && Distinct(sorted) && Elements(sorted) == Of(es, kind) && 0 < cap < |sorted|
    ensures Oldest(es, Elements(sorted[..|sorted| - cap]), kind, cap)
  {
    var over := |sorted| - cap;
    var drop := Elements(sorted[..over]);
    ElementCount(sorted);
    ElementCount(sorted[..over]);
    assert forall k :: 0 <= k < over ==> sorted[..over][k] == sorted[k];
    forall i, j | i in drop && j in Of(es, kind) - drop ensures es[i].stamp <= es[j].stamp {
      var p :| 0 <= p < over && sorted[p] == i;
      assert j in Elements(sorted);
      var q :| 0 <= q < |sorted| && sorted[q] == j;
      assert forall k :: 0 <= k < over ==> sorted[k] in drop;
      assert q >= over;
    }
    forall y | y in drop ensures y in Of(es, kind) {
      assert y in Elements(sorted);
    }
  }

  lemma NothingOver(es: seq<Entry>, kind: Kind, cap: int)
    requires |Of(es, kind)| <= cap
    ensures Evicted(es, es, kind, cap)
  {
    DroppingNone(es);
    assert Oldest(es, {}, kind, cap);
  }

  lemma {:induction false} DroppingNone(es: seq<Entry>)
    ensures Dropping(es, {}) == es
  {
    if es != [] {
      var n := |es| - 1;
      DroppingNone(es[..n]);
      assert es == es[..n] + [es[n]];
    }
  }

  // ---------------------------------------------------------------- eviction when keys and stamps are distinct

  ghost function NewerThan(es: seq<Entry>, kind: Kind,
          stamp: int): set<nat> { set i | i in Of(es, kind) && es[i].stamp > stamp }

  ghost function KeysAt(es: seq<Entry>, at: set<nat>): set<string>
    requires forall i :: i in at ==> i < |es|
  {
    set i | i in at :: es[i].key
  }

  lemma {:induction false} KeyCount(es: seq<Entry>, kind: Kind, at: set<nat>, counter: int)
    requires WellKept(es, counter) && at <= Of(es, kind)
    ensures |KeysAt(es, at)| == |at|
    decreases |at|
  {
    if at != {} {
      var i :| i in at;
      var rest := at - {i};
      KeyCount(es, kind, rest, counter);
      forall j | j in rest ensures es[j].key != es[i].key {
        DistinctEntries(es, counter, i, j);
      }
      assert KeysAt(es, at) == KeysAt(es, rest) + {es[i].key};
      assert es[i].key !in KeysAt(es, rest);
      assert |at| == |rest| + 1;
    }
  }

  lemma DistinctEntries(es: seq<Entry>, counter: int, i: nat, j: nat)
    requires WellKept(es, counter) && i < |es| && j < |es| && i != j && es[i].kind == es[j].kind
    ensures es[i].key != es[j].key && es[i].stamp != es[j].stamp
  {
  }

  lemma NewerCount(es: seq<Entry>, kind: Kind, stamp: int, counter: int)
    requires WellKept(es, counter)
    ensures |NewerKeys(es, kind, stamp)| == |NewerThan(es, kind, stamp)|
  {
    var at := NewerThan(es, kind, stamp);
    KeyCount(es, kind, at, counter);
    forall k | k in NewerKeys(es, kind, stamp) ensures k in KeysAt(es, at) {
      var i :| 0 <= i < |es| && es[i].kind == kind && es[i].stamp > stamp && es[i].key == k;
      assert i in at;
    }
    assert NewerKeys(es, kind, stamp) == KeysAt(es, at);
  }

  /** Then the choice is forced: an entry goes exactly when cap distinct keys of its kind are newer. */
  lemma OldestIsForced(es: seq<Entry>, drop: set<nat>, kind: Kind, cap: int, counter: int, i: nat)
    requires WellKept(es, counter) && Oldest(es, drop, kind, cap) && i < |es|
    ensures i in drop <==> !Kept(es, es[i], kind, cap)
  {
    if es[i].kind == kind {
      NewerCount(es, kind, es[i].stamp, counter);
      SubsetCount(drop, Of(es, kind));
      if i in drop {
        DroppedHasNewer(es, drop, kind, cap, counter, i);
      } else {
        StayingHasFewer(es, drop, kind, cap, i);
      }
      hide Of, NewerThan, NewerKeys, WellKept;
    }
  }

  lemma DroppedHasNewer(es: seq<Entry>, drop: set<nat>, kind: Kind, cap: int, counter: int, i: nat)
    requires WellKept(es, counter) && Oldest(es, drop, kind, cap) && i in drop
    ensures i < |es| && |NewerThan(es, kind, es[i].stamp)| >= |Of(es, kind) - drop|
  {
    var newer := NewerThan(es, kind, es[i].stamp);
    forall j | j in Of(es, kind) - drop ensures j in newer {
      DistinctEntries(es, counter, i, j);
    }
    hide WellKept;
    SubsetCount(Of(es, kind) - drop, newer);
  }

  lemma StayingHasFewer(es: seq<Entry>, drop: set<nat>, kind: Kind, cap: int, i: nat)
    requires Oldest(es, drop, kind, cap) && i in Of(es, kind) - drop
    ensures |NewerThan(es, kind, es[i].stamp)| < |Of(es, kind) - drop|
  {
    var newer, stay := NewerThan(es, kind, es[i].stamp), Of(es, kind) - drop;
    assert forall j :: j in newer ==> j in stay - {i};
    SubsetCount(newer, stay - {i});
    assert |stay - {i}| == |stay| - 1;
  }

  lemma {:induction false} ForcedDropping(all: seq<Entry>, es: seq<Entry>, drop: set<nat>, kind: Kind, cap: int)
    requires |es| <= |all| && es == all[..|es|]
    requires forall i :: 0 <= i < |all| ==> (i in drop <==> !Kept(all, all[i], kind, cap))
    ensures Dropping(es, drop) == Retain(all, es, kind, cap)
    decreases |es|
  {
    hide Kept;
    if es != [] {
      ForcedDropping(all, es[..|es| - 1], drop, kind, cap);
    }
  }

  lemma EvictedIsRetained(es: seq<Entry>, kept: seq<Entry>, kind: Kind, cap: int, counter: int)
    requires WellKept(es, counter) && Evicted(es, kept, kind, cap)
    ensures kept == Retain(es, es, kind, cap)
  {
    hide WellKept, Oldest, Kept;
    var drop :| Oldest(es, drop, kind, cap) && kept == Dropping(es, drop);
    forall i | 0 <= i < |es| ensures i in drop <==> !Kept(es, es[i], kind, cap) {
      OldestIsForced(es, drop, kind, cap, counter, i);
    }
    ForcedDropping(es, es, drop, kind, cap);
  }

  // ---------------------------------------------------------------- the store

  /** What a save does to the file: all of it, nothing, a cut-short file, or all of it but reported as an error. */
  datatype Save = Done | NotStarted | CutShort | DoneButReported

  /** What the next Open will see: no file, one whose JSON cannot be read, or entries. */
  datatype File = Absent | Broken | Readable(entries: seq<Entry>)

  function Load(f: File): seq<Entry> { if f.Readable? then f.entries else [] }

  function FileAfter(f: File, es: seq<Entry>, w: Save): File {
    match w
    case Done => Readable(es)
    case NotStarted => f
    case CutShort => Broken
    case DoneButReported => Readable(es)
  }

  class Store {
    const caps: Caps
    var counter: int
    var entries: seq<Entry>
    var file: File

    ghost predicate Valid()
      reads this
    {
      caps.Positive()
    }

    /** Open: the counter is the largest stamp in the file. */
    constructor Open(file: File, caps: Caps)
      ensures this.caps == caps.Resolved() && this.file == file && Valid()
      ensures this.caps.fact == if caps.fact <= 0 then 50 else caps.fact
      ensures this.caps.snippet == if caps.snippet <= 0 then 35 else caps.snippet
      ensures entries == Load(file) && counter == MaxStamp(entries)
    {
      var es := Load(file);
      var max := 0;
      for i := 0 to |es|
        invariant max == MaxStamp(es[..i])
      {
        assert es[..i + 1][..i] == es[..i];
        if es[i].stamp > max {
          max := es[i].stamp;
        }
      }
      assert es[..|es|] == es;
      this.caps := caps.Resolved();
      this.file := file;
      counter, entries := max, es;
    }

    /** Emit: an existing key is updated in place, otherwise appended; then the kind is cut to its cap. */
    method Emit(kind: Kind, key: string, text: string, w: Save) returns (ok: bool)
      requires Valid()
      modifies this
      ensures ok == w.Done? && counter == old(counter) + 1
      ensures Evicted(Upsert(old(entries), Op(kind, key, text), counter), entries, kind, caps.For(kind))
      ensures WellKept(old(entries), old(counter)) ==>
                entries == Emitted(old(entries), Op(kind, key, text), counter, caps.For(kind))
                && WellKept(entries, counter)
      ensures file == FileAfter(old(file), entries, w)
    {
      hide WellKept, Retain, Evicted;
      var i := 0;
      while i < |entries|
        invariant 0 <= i <= |entries| && unchanged(this)
        invariant forall j :: 0 <= j < i ==> !(entries[j].kind == kind && entries[j].key == key)
      {
        if entries[i].kind == kind && entries[i].key == key {
          counter := counter + 1;
          entries := entries[i := entries[i].(text := text, stamp := counter)];
          assert entries == Upsert(old(entries), Op(kind, key, text), counter);
          ok := GcAndSave(kind, w);
          EmittedIsRetained(old(entries), old(counter), Op(kind, key, text), entries, caps.For(kind));
          return;
        }
        i := i + 1;
      }
      counter := counter + 1;
      entries := entries + [Entry(kind, key, text, counter)];
      assert entries == Upsert(old(entries), Op(kind, key, text), counter);
      ok := GcAndSave(kind, w);
      EmittedIsRetained(old(entries), old(counter), Op(kind, key, text), entries, caps.For(kind));
    }

    method GcAndSave(kind: Kind, w: Save) returns (ok: bool)
      requires Valid()
      modifies this
      ensures ok == w.Done? && counter == old(counter)
      ensures Evicted(old(entries), entries, kind, caps.For(kind))
      ensures file == FileAfter(old(file), entries, w)
    {
      hide Oldest;
      var idx := IndicesOf(entries, kind);
      ElementCount(idx);
      var over := |idx| - caps.For(kind);
      if over > 0 {
        assert forall k :: 0 <= k < |idx| ==> idx[k] in Elements(idx);
        var sorted := SortByStamp(entries, idx);
        ElementCount(sorted);
        OldestFirst(entries, sorted, kind, caps.For(kind));
        var drop := {};
        for i := 0 to over
          invariant drop == Elements(sorted[..i])
        {
          assert sorted[..i + 1] == sorted[..i] + [sorted[i]];
          drop := drop + {sorted[i]};
        }
        entries := Without(entries, drop);
      } else {
        NothingOver(entries, kind, caps.For(kind));
      }
      file := FileAfter(file, entries, w);
      ok := w.Done?;
    }
  }

  lemma EmittedIsRetained(es: seq<Entry>, counter: int, op: Op, kept: seq<Entry>, cap: int)
    requires Evicted(Upsert(es, op, counter + 1), kept, op.kind, cap)
    ensures WellKept(es, counter) ==> kept == Emitted(es, op, counter + 1, cap) && WellKept(kept, counter + 1)
  {
    hide Evicted, WellKept;
    if WellKept(es, counter) {
      UpsertWellKept(es, counter, op);
      EvictedIsRetained(Upsert(es, op, counter + 1), kept, op.kind, cap, counter + 1);
      RetainWellKept(Upsert(es, op, counter + 1), op.kind, cap, counter + 1);
    }
  }

  method IndicesOf(es: seq<Entry>, kind: Kind) returns (idx: seq<nat>)
    ensures Distinct(idx) && Elements(idx) == Of(es, kind)
  {
    idx := [];
    for i := 0 to |es|
      invariant forall k :: 0 <= k < |idx| ==> idx[k] < i
      invariant Distinct(idx)
      invariant forall y: nat :: y in idx <==> y < i && es[y].kind == kind
    {
      if es[i].kind == kind {
        idx := idx + [i];
      }
    }
  }

  /** sort.Slice by stamp, on indices. Callers may rely on no order among equal stamps. */
  method SortByStamp(es: seq<Entry>, idx: seq<nat>) returns (r: seq<nat>)
    requires Distinct(idx) && forall k :: 0 <= k < |idx| ==> idx[k] < |es|
    ensures ByStamp(es, r) && Distinct(r) && Elements(r) == Elements(idx)
  {
    r := [];
    for i := 0 to |idx|
      invariant ByStamp(es, r) && Distinct(r)
      invariant Elements(r) == Elements(idx[..i])
    {
      var p := |r|;
      while p > 0 && es[r[p - 1]].stamp > es[idx[i]].stamp
        invariant 0 <= p <= |r|
        invariant forall q :: p <= q < |r| ==> es[idx[i]].stamp < es[r[q]].stamp
      {
        p := p - 1;
      }
      InsertedByStamp(es, r, p, idx[i]);
      InsertedElements(r, p, idx[i]);
      assert idx[..i + 1] == idx[..i] + [idx[i]];
      assert idx[i] !in Elements(idx[..i]) && Elements(idx[..i + 1]) == Elements(idx[..i]) + {idx[i]};
      r := Inserted(r, p, idx[i]);
    }
    assert idx[..|idx|] == idx;
  }

  lemma InsertedByStamp(es: seq<Entry>, r: seq<nat>, p: nat, x: nat)
    requires ByStamp(es, r) && p <= |r| && x < |es|
    requires forall q :: p <= q < |r| ==> es[x].stamp < es[r[q]].stamp
    requires p > 0 ==> es[r[p - 1]].stamp <= es[x].stamp
    ensures ByStamp(es, Inserted(r, p, x))
  {
    assert forall q :: 0 <= q < p ==> es[r[q]].stamp <= es[x].stamp;
  }

  /** The entries whose index is not dropped, in place order. */
  method Without(es: seq<Entry>, drop: set<nat>) returns (kept: seq<Entry>)
    ensures kept == Dropping(es, drop)
  {
    kept := [];
    for i := 0 to |es|
      invariant kept == Dropping(es[..i], drop)
    {
      assert es[..i + 1][..i] == es[..i];
      if i !in drop {
        kept := kept + [es[i]];
      }
    }
    assert es[..|es|] == es;
  }

  lemma UpsertWellKept(es: seq<Entry>, counter: int, op: Op)
    requires WellKept(es, counter)
    ensures WellKept(Upsert(es, op, counter + 1), counter + 1)
  {
  }

  lemma RetainMore(all: seq<Entry>, es: seq<Entry>, kind: Kind, cap: int)
    requires es != []
    ensures var n := |es| - 1;
            Retain(all, es, kind, cap)
            == Retain(all, es[..n], kind, cap) + (if Kept(all, es[n], kind, cap) then [es[n]] else [])
  {
    hide Kept;
  }

  /** Retain is a subsequence: strictly increasing positions pick its entries. */
  lemma {:induction false} RetainPositions(all: seq<Entry>, es: seq<Entry>, kind: Kind, cap: int)
    returns (pos: seq<nat>)
    ensures Ascending(pos) && Chosen(es, pos, Retain(all, es, kind, cap))
  {
    if es == [] {
      pos := [];
    } else {
      hide Kept, Retain, Chosen, Ascending;
      var n: nat := |es| - 1;
      var front := es[..n];
      pos := RetainPositions(all, front, kind, cap);
      RetainMore(all, es, kind, cap);
      ChosenMore(front, es[n], pos, Retain(all, front, kind, cap));
      assert front + [es[n]] == es;
      pos := if Kept(all, es[n], kind, cap) then pos + [n] else pos;
    }
  }

  lemma RetainWellKept(es: seq<Entry>, kind: Kind, cap: int, counter: int)
    requires WellKept(es, counter)
    ensures WellKept(Retain(es, es, kind, cap), counter)
  {
    var pos := RetainPositions(es, es, kind, cap);
    hide Retain, Kept;
  }

  /** Membership in Retain. */
  lemma {:induction false} RetainMember(all: seq<Entry>, es: seq<Entry>, kind: Kind, cap: int, e: Entry)
    ensures e in Retain(all, es, kind, cap) <==> e in es && Kept(all, e, kind, cap)
  {
    hide Kept;
    if es != [] {
      var n := |es| - 1;
      RetainMember(all, es[..n], kind, cap, e);
      assert es == es[..n] + [es[n]];
    }
  }
}
