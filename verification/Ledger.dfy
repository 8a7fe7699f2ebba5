/** The on-disk checklist of one requirement. */
module Ledger {
  import opened Text

  datatype Item = Item(done: bool, text: string)

  const OPEN := "- [ ] "
  const DONE := "- [x] "

  // ---------------------------------------------------------------- reading

  function ItemOf(line: string): Option<Item> {
    var t := TrimSpace(line);
    if OPEN <= t then Some(Item(false, t[|OPEN|..]))
    else if DONE <= t then Some(Item(true, t[|DONE|..]))
    else None
  }

  function ItemsOf(lines: seq<string>): seq<Item> {
    if lines == [] then []
    else ItemsOf(lines[..|lines| - 1]) + (match ItemOf(lines[|lines| - 1]) case Some(item) => [item] case None => [])
  }

  function Items(s: string): seq<Item> { ItemsOf(Split(s)) }

  /** The line of the idx-th item, or |lines|. */
  function ItemLine(lines: seq<string>, idx: int): (k: nat)
    ensures k <= |lines|
    ensures k < |lines| ==> ItemOf(lines[k]).Some? && |ItemsOf(lines[..k])| == idx
    ensures k == |lines| <==> idx < 0 || idx >= |ItemsOf(lines)|
  {
    hide ItemOf;
    if lines == [] then 0
    else
      var n := |lines| - 1;
      var front := lines[..n];
      var k := ItemLine(front, idx);
      if k < n then
        assert front[..k] == lines[..k] && front[k] == lines[k];
        assert |ItemsOf(lines)| >= |ItemsOf(front)|;
        k
      else if ItemOf(lines[n]).Some? && |ItemsOf(front)| == idx then n
      else |lines|
  }

  // ---------------------------------------------------------------- writing

  function FirstAt(s: string, pat: string): (k: Option<nat>)
    ensures k.Some? ==> k.value + |pat| <= |s| && s[k.value..k.value + |pat|] == pat
    ensures k.Some? ==> forall j :: 0 <= j < k.value ==> !(pat <= s[j..])
    ensures k.None? ==> forall j :: 0 <= j <= |s| ==> !(pat <= s[j..])
  {
    if pat <= s then Some(0)
    else if s == [] then None
    else
      var k := FirstAt(s[1..], pat);
      assert forall j :: 0 < j <= |s| ==> s[j..] == s[1..][j - 1..];
      if k.Some? then Some(k.value + 1) else None
  }

  /** strings.Replace of the first open box by a ticked one. */
  function Mark(line: string): string {
    match FirstAt(line, OPEN)
    case Some(k) => line[..k] + DONE + line[k + |OPEN|..]
    case None => line
  }

  function Checked(s: string, idx: int): string {
    var lines := Split(s);
    var k := ItemLine(lines, idx);
    Join(if k < |lines| then lines[k := Mark(lines[k])] else lines)
  }

  function NewLine(text: string): string { OPEN + text + "\n" }

  function Added(s: string, text: string): string { s + NewLine(text) }

  /** How a write ends: all of it, nothing at all, or an error after the first n characters. */
  datatype Io = Done | Fails | Torn(n: nat)

  /** What of a text a write that was begun has left in the file. */
  function Landed(text: string, io: Io): string { if io.Torn? && io.n < |text| then text[..io.n] else text }

  function Header(title: string, id: string): string {
    Top(title, id) + OPEN + Step1() + "\n" + OPEN + Step2() + "\n" + OPEN + Step3() + "\n"
  }

  function Step1(): string { "Understand the requirement" + " and its linked test" }

  function Step2(): string { "Implement the change" }

  function Step3(): string { "Make the linked test pass" }

  function PathOf(id: string): string {
    seq(|id|, i requires 0 <= i < |id| => if id[i] == '/' then '_' else id[i]) + ".md"
  }

  class Ledger {
    var files: map<string, string>

    constructor ()
      ensures files == map[]
    {
      files := map[];
    }

    /** Seed: an existing ledger, whatever is in it, is left alone. */
    method Seed(id: string, title: string, io: Io) returns (ok: bool)
      modifies this
      ensures ok == (PathOf(id) in old(files) || io.Done?)
      ensures files == if PathOf(id) in old(files) || io.Fails? then old(files)
                       else old(files)[PathOf(id) := Landed(Header(title, id), io)]
    {
      if PathOf(id) in files {
        return true;
      }
      if !io.Fails? {
        files := files[PathOf(id) := Landed(Header(title, id), io)];
      }
      ok := io.Done?;
    }

    method ReadItems(id: string, readOk: bool) returns (r: Option<seq<Item>>)
      ensures r == if PathOf(id) in files && readOk then Some(Items(files[PathOf(id)])) else None
    {
      if PathOf(id) !in files || !readOk {
        return None;
      }
      hide TrimSpace, Split;
      var lines := Split(files[PathOf(id)]);
      var items := [];
      for i := 0 to |lines|
        invariant items == ItemsOf(lines[..i])
      {
        assert lines[..i + 1][..i] == lines[..i];
        var t := TrimSpace(lines[i]);
        if OPEN <= t {
          items := items + [Item(false, t[|OPEN|..])];
        } else if DONE <= t {
          items := items + [Item(true, t[|DONE|..])];
        }
      }
      assert lines[..|lines|] == lines;
      r := Some(items);
    }

    /** Appends one line to an existing ledger. */
    method Add(id: string, text: string, io: Io) returns (ok: bool)
      modifies this
      ensures ok == (PathOf(id) in old(files) && io.Done?)
      ensures files == if PathOf(id) !in old(files) || io.Fails? then old(files)
                       else old(files)[PathOf(id) := old(files)[PathOf(id)] + Landed(NewLine(text), io)]
    {
      if PathOf(id) !in files || io.Fails? {
        return false;
      }
      files := files[PathOf(id) := files[PathOf(id)] + Landed(NewLine(text), io)];
      ok := io.Done?;
    }

    /** Reads the ledger, marks one item, and writes the whole ledger over the old one. */
    method Check(id: string, idx: int, readOk: bool, io: Io) returns (ok: bool)
      modifies this
      ensures ok == (PathOf(id) in old(files) && readOk && io.Done?)
      ensures files == if PathOf(id) !in old(files) || !readOk || io.Fails? then old(files)
                       else old(files)[PathOf(id) := Landed(Checked(old(files)[PathOf(id)], idx), io)]
    {
      if PathOf(id) !in files || !readOk {
        return false;
      }
      hide Mark;
      var lines := Split(files[PathOf(id)]);
      ghost var was := lines;
      var seen := -1;
      for i := 0 to |lines|
        invariant lines == was && seen == |ItemsOf(was[..i])| - 1
        invariant ItemLine(was[..i], idx) == i
      {
        assert was[..i + 1][..i] == was[..i];
        var t := TrimSpace(lines[i]);
        if OPEN <= t || DONE <= t {
          seen := seen + 1;
          if seen == idx {
            ItemLinePrefix(was, i, idx);
            lines := lines[i := Mark(lines[i])];
            ok := Rewrite(id, Join(lines), io);
            return;
          }
        }
      }
      assert was[..|was|] == was;
      ok := Rewrite(id, Join(lines), io);
    }

    /** os.WriteFile. */
    method Rewrite(id: string, text: string, io: Io) returns (ok: bool)
      modifies this
      ensures ok == io.Done?
      ensures files == if io.Fails? then old(files) else old(files)[PathOf(id) := Landed(text, io)]
    {
      if !io.Fails? {
        files := files[PathOf(id) := Landed(text, io)];
      }
      ok := io.Done?;
    }
  }

  lemma ItemLinePrefix(lines: seq<string>, k: nat, idx: int)
    requires k < |lines| && ItemOf(lines[k]).Some? && |ItemsOf(lines[..k])| == idx
    ensures ItemLine(lines, idx) == k
  {
    hide ItemOf;
    var j := ItemLine(lines, idx);
    ItemsMonotone(lines, k + 1);
    assert lines[..k + 1][..k] == lines[..k];
    if j < k {
      CountBefore(lines, j, k);
    } else if k < j < |lines| {
      CountBefore(lines, k, j);
    }
  }

  lemma {:induction false} ItemsMonotone(lines: seq<string>, k: nat)
    requires k <= |lines|
    ensures |ItemsOf(lines[..k])| <= |ItemsOf(lines)|
    decreases |lines|
  {
    hide ItemOf;
    if k < |lines| {
      var n := |lines| - 1;
      ItemsMonotone(lines[..n], k);
      assert lines[..n][..k] == lines[..k];
    } else {
      assert lines[..k] == lines;
    }
  }

  /** An item at line j counts towards every later line. */
  lemma CountBefore(lines: seq<string>, j: nat, k: nat)
    requires j < k <= |lines| && ItemOf(lines[j]).Some?
    ensures |ItemsOf(lines[..j])| < |ItemsOf(lines[..k])|
  {
    hide ItemOf;
    ItemsMonotone(lines[..k], j + 1);
    assert lines[..k][..j + 1] == lines[..j + 1];
    assert lines[..j + 1][..j] == lines[..j];
  }

  lemma {:induction false} ItemsAppend(a: seq<string>, b: seq<string>)
    ensures ItemsOf(a + b) == ItemsOf(a) + ItemsOf(b)
    decreases |b|
  {
    hide ItemOf;
    if b == [] {
      assert a + b == a;
    } else {
      var n := |b| - 1;
      ItemsAppend(a, b[..n]);
      assert (a + b)[..|a + b| - 1] == a + b[..n];
    }
  }

  lemma ItemsOne(line: string)
    ensures ItemsOf([line]) == match ItemOf(line) case Some(item) => [item] case None => []
  {
    assert [line][..0] == [];
  }

  lemma ItemsAround(a: seq<string>, line: string, b: seq<string>)
    requires ItemOf(line).Some?
    ensures ItemsOf(a + [line] + b) == ItemsOf(a) + [ItemOf(line).value] + ItemsOf(b)
  {
    ItemsOne(line);
    hide ItemOf, ItemsOf;
    ItemsAppend(a + [line], b);
    ItemsAppend(a, [line]);
  }

  /** Rewriting one item line rewrites that item. */
  lemma ItemsUpdate(lines: seq<string>, k: nat, line: string)
    requires k < |lines| && ItemOf(lines[k]).Some? && ItemOf(line).Some?
    ensures |ItemsOf(lines[..k])| < |ItemsOf(lines)|
    ensures ItemsOf(lines[k := line]) == ItemsOf(lines)[|ItemsOf(lines[..k])| := ItemOf(line).value]
    ensures ItemsOf(lines)[|ItemsOf(lines[..k])|] == ItemOf(lines[k]).value
  {
    var a, b := lines[..k], lines[k + 1..];
    hide ItemOf, ItemsOf;
    assert lines == a + [lines[k]] + b && lines[k := line] == a + [line] + b;
    ItemsAround(a, lines[k], b);
    ItemsAround(a, line, b);
    Replaced(ItemsOf(a), ItemOf(lines[k]).value, ItemOf(line).value, ItemsOf(b));
  }

  lemma Replaced(p: seq<Item>, x: Item, y: Item, q: seq<Item>)
    ensures (p + [x] + q)[|p| := y] == p + [y] + q && (p + [x] + q)[|p|] == x
  {
  }

  // ---------------------------------------------------------------- one line

  /** The first box on an item line is the item's own: only space stands before it. */
  lemma OwnBoxFirst(pre: string, rest: string)
    requires forall c :: c in pre ==> IsSpace(c)
    ensures FirstAt(pre + OPEN + rest, OPEN) == Some(|pre|)
  {
    var s := pre + OPEN + rest;
    assert s[|pre|..] == OPEN + rest;
    assert OPEN <= s[|pre|..];
    forall j | 0 <= j < |pre| ensures !(OPEN <= s[j..]) {
      assert s[j..][0] == pre[j] && pre[j] in pre && IsSpace(pre[j]);
    }
    match FirstAt(s, OPEN)
    case None =>
    case Some(k) =>
      assert s[k..][..|OPEN|] == s[k..k + |OPEN|];
  }

  // ---------------------------------------------------------------- one line, in characters

  /** The line is this item: a box, a blank and the text, which does not end in space, amid space. */
  ghost predicate Shows(line: string, done: bool, text: string) {
    && text != "" && !IsSpace(text[|text| - 1])
    && exists pre, post :: Blank(pre) && Blank(post)
                           && line == pre + ((if done then "- [x] " else "- [ ] ") + text) + post
  }

  lemma ShowsReads(line: string, done: bool, text: string)
    ensures Shows(line, done, text) <==> ItemOf(line) == Some(Item(done, text))
  {
    var box := if done then "- [x] " else "- [ ] ";
    var t := TrimSpace(line);
    TrimSpaceTrimmed(line);
    BoxedItem(line, done, text);
    if text != "" && !IsSpace(text[|text| - 1]) {
      assert (box + text)[0] == '-' && (box + text)[|box + text| - 1] == text[|text| - 1];
      TrimMeans(line, box + text);
    }
    hide TrimSpace, IsSpace, Blank;
    assert t == box + text ==> Trimmed(t) && t[|t| - 1] == (if text == "" then ' ' else text[|text| - 1]);
  }

  lemma BoxedItem(line: string, done: bool, text: string)
    ensures ItemOf(line) == Some(Item(done, text))
       <==> TrimSpace(line) == (if done then "- [x] " else "- [ ] ") + text
  {
    hide TrimSpace;
    var t := TrimSpace(line);
    assert OPEN[3] != DONE[3];
    if OPEN <= t {
      assert t == OPEN + t[|OPEN|..];
      assert t[3] == ' ';
    }
    if DONE <= t {
      assert t == DONE + t[|DONE|..];
      assert t[3] == 'x';
    }
    assert ("- [ ] " + text)[|OPEN|..] == text && ("- [x] " + text)[|DONE|..] == text;
  }

  /** Marking ticks the first open box, wherever it stands, and changes nothing without one. */
  lemma MarkReads(line: string)
    ensures (forall a, b :: line != a + "- [ ] " + b) ==> Mark(line) == line
    ensures forall a, b :: line == a + "- [ ] " + b && (forall a', b' :: line == a' + "- [ ] " + b' ==> |a| <= |a'|)
                           ==> Mark(line) == a + "- [x] " + b
  {
    hide Mark, FirstAt;
    if FirstAt(line, OPEN).None? {
      NoBox(line);
    } else {
      var k := FirstAt(line, OPEN).value;
      FirstBox(line, k);
      forall a, b | line == a + "- [ ] " + b && (forall a', b' :: line == a' + "- [ ] " + b' ==> |a| <= |a'|)
        ensures Mark(line) == a + "- [x] " + b
      {
        AtBox(line, a, b);
      }
    }
  }

  lemma NoBox(line: string)
    requires FirstAt(line, OPEN) == None
    ensures Mark(line) == line && forall a, b :: line != a + "- [ ] " + b
  {
    forall a, b ensures line != a + "- [ ] " + b {
      assert (a + "- [ ] " + b)[|a|..] == OPEN + b;
    }
  }

  lemma FirstBox(line: string, k: nat)
    requires FirstAt(line, OPEN) == Some(k)
    ensures line == line[..k] + "- [ ] " + line[k + |OPEN|..]
    ensures Mark(line) == line[..k] + "- [x] " + line[k + |OPEN|..]
  {
    hide FirstAt;
  }

  lemma AtBox(line: string, a: string, b: string)
    requires FirstAt(line, OPEN).Some? && FirstAt(line, OPEN).value >= |a| && line == a + "- [ ] " + b
    ensures Mark(line) == a + "- [x] " + b
  {
    hide FirstAt;
    assert line[|a|..] == OPEN + b;
    assert OPEN <= line[|a|..];
    assert line[..|a|] == a && line[|a| + |OPEN|..] == b;
  }

  /** The file of a requirement: its id with each slash made an underscore, and ".md". */
  lemma PathReads(id: string)
    ensures |PathOf(id)| == |id| + 3 && PathOf(id)[|id|..] == ".md"
    ensures forall i :: 0 <= i < |id| ==> PathOf(id)[i] == if id[i] == '/' then '_' else id[i]
  {
  }

  /** Ticking an open item's line ticks the item and keeps its text. */
  lemma MarkOpen(line: string)
    requires OPEN <= TrimSpace(line)
    ensures ItemOf(Mark(line)) == Some(Item(true, TrimSpace(line)[|OPEN|..]))
    ensures OneLine(line) ==> OneLine(Mark(line))
  {
    var pre, m, post := OpenLineParts(line);
    hide Mark, TrimSpace, IsSpace, ItemOf;
    MarkParts(pre, m, post);
    DoneAmidSpace(pre, m, post);
    if OneLine(line) {
      MarkOneLine(line);
    }
  }

  lemma OpenLineParts(line: string) returns (pre: string, m: string, post: string)
    requires OPEN <= TrimSpace(line)
    ensures line == pre + (OPEN + m) + post && m == TrimSpace(line)[|OPEN|..]
    ensures m != "" && !IsSpace(m[|m| - 1])
    ensures forall c :: c in pre || c in post ==> IsSpace(c)
  {
    var t := TrimSpace(line);
    m := t[|OPEN|..];
    TrimSpaceTrimmed(line);
    assert t[|t| - 1] == ' ' || |t| > |OPEN|;
    assert t == OPEN + m;
    pre, post := TrimSpaceParts(line);
  }

  lemma MarkAt(pre: string, rest: string)
    requires FirstAt(pre + OPEN + rest, OPEN) == Some(|pre|)
    ensures Mark(pre + OPEN + rest) == pre + DONE + rest
  {
    hide FirstAt;
    var line := pre + OPEN + rest;
    assert line[..|pre|] == pre && line[|pre| + |OPEN|..] == rest;
  }

  lemma Regroup(a: string, b: string, c: string, d: string)
    ensures a + (b + c) + d == a + b + (c + d)
  {
  }

  lemma MarkParts(pre: string, m: string, post: string)
    requires forall c :: c in pre ==> IsSpace(c)
    ensures Mark(pre + (OPEN + m) + post) == pre + (DONE + m) + post
  {
    OwnBoxFirst(pre, m + post);
    MarkAt(pre, m + post);
    hide *;
    Regroup(pre, OPEN, m, post);
    Regroup(pre, DONE, m, post);
  }

  lemma DoneAmidSpace(pre: string, m: string, post: string)
    requires m != "" && !IsSpace(m[|m| - 1])
    requires forall c :: c in pre || c in post ==> IsSpace(c)
    ensures ItemOf(pre + (DONE + m) + post) == Some(Item(true, m))
  {
    var t := DONE + m;
    assert t[|t| - 1] == m[|m| - 1];
    TrimUnique(pre, t, post);
    assert t[3] == 'x' && OPEN[3] == ' ';
    assert t[|DONE|..] == m;
  }

  /** Ticking a ticked line changes it exactly when an open box stands somewhere in it. */
  lemma MarkIdentity(line: string)
    ensures Mark(line) == line <==> FirstAt(line, OPEN) == None
  {
    hide Mark, FirstAt;
    if FirstAt(line, OPEN).None? {
      NoBox(line);
    } else {
      var k := FirstAt(line, OPEN).value;
      FirstBox(line, k);
      BoxesDiffer(line[..k], line[k + |OPEN|..]);
    }
  }

  lemma BoxesDiffer(a: string, b: string)
    ensures a + "- [ ] " + b != a + "- [x] " + b
  {
    assert (a + "- [ ] " + b)[|a| + 3] == ' ' && (a + "- [x] " + b)[|a| + 3] == 'x';
  }

  // ---------------------------------------------------------------- the checklist laws

  /** Check of an open item flips that item, and no other line. */
  lemma CheckOpenItem(s: string, idx: nat)
    requires idx < |Items(s)| && !Items(s)[idx].done
    ensures Items(Checked(s, idx)) == Items(s)[idx := Item(true, Items(s)[idx].text)]
    ensures var k := ItemLine(Split(s), idx);
            k < |Split(s)| && Split(Checked(s, idx)) == Split(s)[k := Mark(Split(s)[k])]
  {
    var lines := Split(s);
    var k := ItemLine(lines, idx);
    SplitOneLine(s);
    hide Mark, ItemsOf, FirstAt;
    ItemsUpdate(lines, k, lines[k]);
    MarkOpen(lines[k]);
    ItemsUpdate(lines, k, Mark(lines[k]));
    SplitJoin(lines[k := Mark(lines[k])]);
  }

  /** A number that names no item changes nothing. */
  lemma CheckOutOfRange(s: string, idx: int)
    requires idx < 0 || idx >= |Items(s)|
    ensures Checked(s, idx) == s
  {
    JoinSplit(s);
  }

  /** Check of a done item changes nothing exactly when its line holds no open box. */
  lemma CheckDoneItem(s: string, idx: nat)
    requires idx < |Items(s)|
    ensures ItemLine(Split(s), idx) < |Split(s)|
    ensures Items(s)[idx].done ==>
              (Checked(s, idx) == s <==> FirstAt(Split(s)[ItemLine(Split(s), idx)], OPEN) == None)
  {
    var lines := Split(s);
    var k := ItemLine(lines, idx);
    assert k < |lines|;
    hide ItemsOf, ItemOf, FirstAt, Mark;
    JoinSplit(s);
    SplitOneLine(s);
    MarkIdentity(lines[k]);
    if Checked(s, idx) == s {
      MarkOneLine(lines[k]);
      SplitJoin(lines[k := Mark(lines[k])]);
      assert lines[k := Mark(lines[k])][k] == Mark(lines[k]);
    } else {
      assert lines[k := lines[k]] == lines;
    }
  }

  lemma MarkOneLine(line: string)
    requires OneLine(line)
    ensures OneLine(Mark(line))
  {
  }

  /** Done items on which Check is not the identity: any whose text has an open box in it. */
  lemma CheckDoneCanChange(a: string, b: string)
    requires OneLine(a) && OneLine(b) && b != "" && !IsSpace(b[|b| - 1])
    ensures var s := DONE + (a + OPEN + b); Items(s) == [Item(true, a + OPEN + b)] && Checked(s, 0) != s
  {
    var m := a + OPEN + b;
    var s := DONE + m;
    assert OneLine(s);
    assert m[|m| - 1] == b[|b| - 1];
    DoneAmidSpace("", m, "");
    assert "" + (DONE + m) + "" == s;
    BoxInside(a, b);
    hide *;
    OneDoneLine(s, m);
  }

  lemma OneDoneLine(s: string, m: string)
    requires OneLine(s) && ItemOf(s) == Some(Item(true, m)) && FirstAt(s, OPEN) != None
    ensures Items(s) == [Item(true, m)] && Checked(s, 0) != s
  {
    SplitLine(s);
    ItemsOne(s);
    hide Checked, FirstAt, ItemLine, ItemOf;
    CheckDoneItem(s, 0);
  }

  lemma BoxInside(a: string, b: string)
    ensures FirstAt(DONE + (a + OPEN + b), OPEN) != None
  {
    var s := DONE + (a + OPEN + b);
    assert s[|DONE| + |a|..] == OPEN + b;
    assert OPEN <= s[|DONE| + |a|..];
  }

  ghost predicate EndsInNewline(s: string) { s != "" && s[|s| - 1] == '\n' }

  lemma {:induction false} LastLineEmpty(s: string)
    requires EndsInNewline(s)
    ensures |Split(s)| > 1 && Split(s)[|Split(s)| - 1] == ""
    ensures Split(s)[..|Split(s)| - 1] == Split(s[..|s| - 1])
  {
    var front := s[..|s| - 1];
    assert s == front + "\n" + "";
    SplitNewline(front, "");
  }

  lemma JoinEndsInNewline(lines: seq<string>)
    requires |lines| > 1 && lines[|lines| - 1] == ""
    ensures EndsInNewline(Join(lines))
  {
    var front := lines[..|lines| - 1];
    assert lines == front + [""];
    JoinAppend(front, [""]);
  }

  lemma CheckKeepsNewline(s: string, idx: int)
    requires EndsInNewline(s)
    ensures EndsInNewline(Checked(s, idx))
  {
    hide Mark, ItemsOf, ItemOf, Split, FirstAt, ItemLine;
    var lines := Split(s);
    var k := ItemLine(lines, idx);
    LastLineEmpty(s);
    JoinSplit(s);
    EmptyLine();
    if k < |lines| {
      var marked := lines[k := Mark(lines[k])];
      assert marked[|marked| - 1] == "";
      hide Join, EndsInNewline;
      JoinEndsInNewline(marked);
    }
  }

  /** The ledger always ends in a newline: seeded so, and kept so by Add and by Check. */
  lemma NewlineKept(s: string, text: string, idx: int, title: string, id: string)
    ensures EndsInNewline(Header(title, id)) && EndsInNewline(Added(s, text))
    ensures EndsInNewline(s) ==> EndsInNewline(Checked(s, idx))
  {
    hide Checked, Step1, Step2, Step3;
    if EndsInNewline(s) {
      CheckKeepsNewline(s, idx);
    }
  }

  /** Whatever is appended to a ledger, all of an item or a part, its lines are read after the items already there. */
  lemma AppendKeepsItems(s: string, more: string)
    requires s == "" || EndsInNewline(s)
    ensures Items(s + more) == Items(s) + Items(more)
  {
    hide ItemsOf;
    SplitLine("");
    EmptyLine();
    if s == "" {
      assert s + more == more;
    } else {
      var front := s[..|s| - 1];
      LastLineEmpty(s);
      assert s + more == front + "\n" + more;
      SplitNewline(front, more);
      ItemsAppend(Split(front), Split(more));
      assert Split(s) == Split(front) + [""];
      ItemsAppend(Split(front), [""]);
    }
  }

  /** Add to a ledger appends the items of its text's lines; the rest is read as before. */
  lemma AddAppends(s: string, text: string)
    requires s == "" || EndsInNewline(s)
    ensures Items(Added(s, text)) == Items(s) + ItemsOf(Split(OPEN + text))
  {
    hide ItemsOf, Items, Split;
    AppendKeepsItems(s, NewLine(text));
    NewlineAddsNothing(OPEN + text);
  }

  lemma NewlineAddsNothing(s: string)
    ensures Items(s + "\n") == ItemsOf(Split(s))
  {
    hide ItemsOf;
    SplitLine("");
    EmptyLine();
    assert s + "\n" == s + "\n" + "";
    SplitNewline(s, "");
    ItemsAppend(Split(s), [""]);
  }

  /** Where a text is cut after its last whole line. */
  lemma {:induction false} LastNewline(s: string) returns (u: string, v: string)
    ensures s == u + v && OneLine(v) && (u == "" || EndsInNewline(u))
    decreases |s|
  {
    if s == "" {
      u, v := "", "";
    } else if s[|s| - 1] == '\n' {
      u, v := s, "";
    } else {
      var n := |s| - 1;
      u, v := LastNewline(s[..n]);
      v := v + [s[n]];
      assert s == u + v;
    }
  }

  ghost predicate PrefixButOne(some: seq<Item>, all: seq<Item>, m: nat) {
    m <= |some| <= m + 1 && m <= |all| && some[..m] == all[..m]
  }

  /**
   * A ledger torn off anywhere holds its first items as they were, and at most one more, cut from the line it ends in.
   */
  lemma TornKeepsAPrefix(s: string, n: nat)
    requires n <= |s|
    ensures exists m: nat :: PrefixButOne(Items(s[..n]), Items(s), m)
  {
    var u, v := LastNewline(s[..n]);
    assert s == u + (v + s[n..]);
    hide EndsInNewline;
    AppendKeepsItems(u, v);
    AppendKeepsItems(u, v + s[n..]);
    SplitLine(v);
    ItemsOne(v);
    hide Items, OneLine;
    assert PrefixButOne(Items(s[..n]), Items(s), |Items(u)|);
  }

  lemma EmptyLine()
    ensures ItemOf("") == None && ItemsOf([""]) == []
  {
    ItemsOne("");
  }

  /** One line of text becomes one open item, right-trimmed; a blank one becomes none. */
  lemma AddOneItem(s: string, text: string)
    requires (s == "" || EndsInNewline(s)) && OneLine(text)
    ensures Items(Added(s, text)) == Items(s) + (if TrimSpace(text) == "" then [] else [Item(false, TrimRight(text))])
  {
    AddAppends(s, text);
    var line := OPEN + text;
    SplitLine(line);
    ItemsOne(line);
    hide ItemsOf, Items;
    NewLineItem(text);
  }

  lemma NewLineItem(text: string)
    ensures ItemOf(OPEN + text) == if TrimSpace(text) == "" then None else Some(Item(false, TrimRight(text)))
  {
    hide IsSpace, ItemOf, TrimSpace, TrimRight;
    var j := TrimRightShape(text);
    if j == 0 {
      AllSpaceTrims(text);
      BlankItem(text);
    } else {
      NotAllSpace(text, j - 1);
      TextItem(text, j);
    }
  }

  lemma BlankItem(text: string)
    requires forall i :: 0 <= i < |text| ==> IsSpace(text[i])
    ensures ItemOf(OPEN + text) == None
  {
    var box := "- [ ]";
    var post := " " + text;
    assert OPEN + text == "" + box + post;
    assert forall c :: c in post ==> IsSpace(c);
    TrimUnique("", box, post);
  }

  lemma TextItem(text: string, j: nat)
    requires 0 < j <= |text| && !IsSpace(text[j - 1]) && TrimRight(text) == text[..j]
    requires forall i :: j <= i < |text| ==> IsSpace(text[i])
    ensures ItemOf(OPEN + text) == Some(Item(false, TrimRight(text)))
  {
    TextItemTrims(text, j);
    hide TrimSpace, TrimRight, IsSpace;
    var mid := OPEN + text[..j];
    assert OPEN <= mid && mid[|OPEN|..] == text[..j];
  }

  lemma TextItemTrims(text: string, j: nat)
    requires 0 < j <= |text| && !IsSpace(text[j - 1])
    requires forall i :: j <= i < |text| ==> IsSpace(text[i])
    ensures TrimSpace(OPEN + text) == OPEN + text[..j]
  {
    var mid, post := OPEN + text[..j], text[j..];
    assert OPEN + text == "" + mid + post;
    assert mid[|mid| - 1] == text[j - 1] && mid[0] == '-';
    assert forall c :: c in post ==> IsSpace(c);
    TrimUnique("", mid, post);
  }

  lemma AllSpaceTrims(text: string)
    requires forall i :: 0 <= i < |text| ==> IsSpace(text[i])
    ensures TrimSpace(text) == ""
  {
    var k := TrimLeftShape(text);
  }

  lemma NotAllSpace(text: string, i: nat)
    requires i < |text| && !IsSpace(text[i])
    ensures TrimSpace(text) != ""
  {
    var pre, post := TrimSpaceParts(text);
    var cut := |pre| + |TrimSpace(text)|;
    assert forall j :: 0 <= j < |pre| ==> text[j] == pre[j] && pre[j] in pre;
    assert forall j :: cut <= j < |text| ==> text[j] == post[j - cut] && post[j - cut] in post;
    assert |pre| <= i < cut;
  }

  ghost predicate Plain(text: string) { OneLine(text) && text != "" && Text.Trimmed(text) }

  lemma StepsArePlain()
    ensures Plain(Step1()) && Plain(Step2()) && Plain(Step3())
  {
    var a, b := "Understand the requirement", " and its linked test";
    assert OneLine(a) && OneLine(b);
    assert Step1() == a + b;
    assert a[0] == 'U' && b[|b| - 1] == 't';
    assert OneLine(Step2());
    assert OneLine(Step3());
  }

  function Title(title: string, id: string): string { "# " + title + " (" + id + ")" }

  /** A fresh ledger holds the three standard open items, after whatever the lines of its title are read as. */
  lemma SeededItems(title: string, id: string)
    ensures Items(Header(title, id))
            == Items("# " + title + " (" + id + ")")
               + [Item(false, "Understand the requirement" + " and its linked test"),
                  Item(false, "Implement the change"), Item(false, "Make the linked test pass")]
    ensures "# " + title + " (" + id + ")" + "\n\n" <= Header(title, id)
    ensures OneLine(title) && OneLine(id) ==> Items("# " + title + " (" + id + ")") == []
  {
    TopItems(title, id);
    StepsArePlain();
    Steps();
    hide Step1, Step2, Step3, Items, Plain, Added;
    HeaderIsThreeAdds(title, id);
    ThreePlain(Top(title, id), Step1(), Step2(), Step3());
  }

  lemma Steps()
    ensures Step1() == "Understand the requirement" + " and its linked test"
    ensures Step2() == "Implement the change" && Step3() == "Make the linked test pass"
  {
  }

  function Top(title: string, id: string): string { Title(title, id) + "\n\n" }

  lemma HeaderIsThreeAdds(title: string, id: string)
    ensures Header(title, id) == Added(Added(Added(Top(title, id), Step1()), Step2()), Step3())
            && EndsInNewline(Top(title, id))
  {
    hide Step1, Step2, Step3;
  }

  lemma ThreePlain(s: string, a: string, b: string, c: string)
    requires EndsInNewline(s) && Plain(a) && Plain(b) && Plain(c)
    ensures Items(Added(Added(Added(s, a), b), c)) == Items(s) + [Item(false, a), Item(false, b), Item(false, c)]
  {
    hide Items, Plain, Added, EndsInNewline;
    AddPlain(s, a);
    AddPlain(Added(s, a), b);
    AddPlain(Added(Added(s, a), b), c);
  }

  lemma AddPlain(s: string, text: string)
    requires EndsInNewline(s) && Plain(text)
    ensures Items(Added(s, text)) == Items(s) + [Item(false, text)]
    ensures EndsInNewline(Added(s, text))
  {
    AddOneItem(s, text);
    TrimIdentity(text);
  }

  lemma TopItems(title: string, id: string)
    ensures Items(Top(title, id)) == Items(Title(title, id))
    ensures OneLine(title) && OneLine(id) ==> Items(Title(title, id)) == []
  {
    var top := Title(title, id);
    assert Top(title, id) == top + "\n" + "\n";
    NewlineAddsNothing(top + "\n");
    NewlineAddsNothing(top);
    if OneLine(title) && OneLine(id) {
      TopLine(title, id);
      SplitLine(top);
      ItemsOne(top);
    }
  }

  lemma TopLine(title: string, id: string)
    requires OneLine(title) && OneLine(id)
    ensures OneLine(Title(title, id)) && ItemOf(Title(title, id)) == None
  {
    var top := Title(title, id);
    TrimIdentity(top);
    assert top[0] == '#' && OPEN[0] == '-' && DONE[0] == '-';
  }
}
