/** The order of the repo map, and how much of it fits the budget. */
module RepoRender {
  import opened Lists
  import opened Sorting
  import opened PageRank
  import opened Text
  import RepoGraph
  import RepoScan

  // ---------------------------------------------------------------- the order

  /** Higher ranks first, ties by name. */
  predicate IsAhead(rank: Weights, a: string, b: string) {
    At(rank, a) > At(rank, b) || (At(rank, a) == At(rank, b) && Before(a, b))
  }

  function Ahead(rank: Weights): Less { (a, b) => IsAhead(rank, a, b) }

  lemma AheadIsStrict(rank: Weights)
    ensures StrictOrder(Ahead(rank))
  {
    hide Before, At;
    BeforeIsStrict();
  }

  // ---------------------------------------------------------------- the text

  type Defs = map<string, seq<string>>

  function Sigs(defs: Defs, f: string): seq<string> { if f in defs then defs[f] else [] }

  function Header(f: string): string { f + ":\n" }

  function SigLine(sig: string): string { "  " + sig + "\n" }

  /** A file's header and one line for each definition; nothing for a file without any. */
  function FileLines(f: string, sigs: seq<string>): seq<string> {
    if sigs == [] then [] else [Header(f)] + seq(|sigs|, i requires 0 <= i < |sigs| => SigLine(sigs[i]))
  }

  function Lines(order: seq<string>, defs: Defs): seq<string> {
    if order == [] then []
    else
      var n := |order| - 1;
      Lines(order[..n], defs) + FileLines(order[n], Sigs(defs, order[n]))
  }

  function Concat(lines: seq<string>): string {
    if lines == [] then "" else Concat(lines[..|lines| - 1]) + lines[|lines| - 1]
  }

  /** n lines fit the budget, and one more does not. */
  ghost predicate Fits(lines: seq<string>, budget: int, n: nat) {
    && n <= |lines|
    && (n > 0 ==> Bytes(Concat(lines[..n])) <= budget)
    && (n < |lines| ==> Bytes(Concat(lines[..n + 1])) > budget)
  }

  lemma ConcatOne(lines: seq<string>, n: nat)
    requires n < |lines|
    ensures Concat(lines[..n + 1]) == Concat(lines[..n]) + lines[n]
    ensures Bytes(Concat(lines[..n + 1])) == Bytes(Concat(lines[..n])) + Bytes(lines[n])
  {
    assert lines[..n + 1][..n] == lines[..n];
    BytesAppend(Concat(lines[..n]), lines[n]);
    hide Bytes;
  }

  lemma {:induction false} ConcatGrows(lines: seq<string>, m: nat, n: nat)
    requires m <= n <= |lines|
    ensures Bytes(Concat(lines[..m])) <= Bytes(Concat(lines[..n]))
    decreases n
  {
    hide Bytes, Concat;
    if m < n {
      ConcatGrows(lines, m, n - 1);
      ConcatOne(lines, n - 1);
    }
  }

  /** How many lines fit is determined by the lines and the budget. */
  lemma FittingIsUnique(lines: seq<string>, budget: int, m: nat, n: nat)
    requires Fits(lines, budget, m) && Fits(lines, budget, n)
    ensures m == n
  {
    hide Bytes, Concat;
    if m < n {
      ConcatGrows(lines, m + 1, n);
    } else if n < m {
      ConcatGrows(lines, n + 1, m);
    }
  }

  lemma {:induction false} LinesPrefix(order: seq<string>, defs: Defs, i: nat)
    requires i <= |order|
    ensures Lines(order[..i], defs) <= Lines(order, defs)
    decreases |order|
  {
    hide FileLines;
    if i < |order| {
      var n := |order| - 1;
      LinesPrefix(order[..n], defs, i);
      assert order[..n][..i] == order[..i];
    } else {
      assert order[..i] == order;
    }
  }

  lemma LinesSnoc(order: seq<string>, defs: Defs, i: nat)
    requires i < |order|
    ensures Lines(order[..i + 1], defs) == Lines(order[..i], defs) + FileLines(order[i], Sigs(defs, order[i]))
  {
    hide FileLines;
    assert order[..i + 1][..i] == order[..i];
  }

  /** The lines of the i-th file, amid all lines. */
  lemma LinesOfFile(order: seq<string>, defs: Defs, i: nat)
    requires i < |order|
    ensures var all, n, sigs := Lines(order, defs), |Lines(order[..i], defs)|, Sigs(defs, order[i]);
            && |Lines(order[..i + 1], defs)| == (if sigs == [] then n else n + 1 + |sigs|) <= |all|
            && (sigs != [] ==> all[n] == Header(order[i]))
            && (forall j :: 0 <= j < |sigs| ==> all[n + 1 + j] == SigLine(sigs[j]))
  {
    hide Lines, SigLine, Header, FileLines, Sigs;
    LinesPrefix(order, defs, i + 1);
    LinesSnoc(order, defs, i);
    var sigs := Sigs(defs, order[i]);
    OwnLines(order[i], sigs);
    SigsAmid(Lines(order[..i], defs), FileLines(order[i], sigs), Lines(order, defs), sigs);
  }

  lemma SigsAmid(before: seq<string>, own: seq<string>, all: seq<string>, sigs: seq<string>)
    requires before + own <= all && |own| == (if sigs == [] then 0 else 1 + |sigs|)
    requires forall j :: 0 <= j < |sigs| ==> own[1 + j] == SigLine(sigs[j])
    ensures |before| + |own| <= |all|
    ensures forall j :: 0 <= j < |sigs| ==> all[|before| + 1 + j] == SigLine(sigs[j])
    ensures own != [] ==> all[|before|] == own[0]
  {
    hide SigLine;
    LinesAmid(before, own, all);
    forall j | 0 <= j < |sigs| ensures all[|before| + 1 + j] == SigLine(sigs[j]) {
      assert own[1 + j] == all[|before| + (1 + j)];
    }
  }

  lemma OwnLines(f: string, sigs: seq<string>)
    ensures var own := FileLines(f, sigs);
            && |own| == (if sigs == [] then 0 else 1 + |sigs|)
            && (sigs != [] ==> own[0] == Header(f))
            && forall j :: 0 <= j < |sigs| ==> own[1 + j] == SigLine(sigs[j])
  {
    hide Header, SigLine;
  }

  lemma LinesAmid(before: seq<string>, own: seq<string>, all: seq<string>)
    requires before + own <= all
    ensures |before| + |own| <= |all|
    ensures forall j :: 0 <= j < |own| ==> own[j] == all[|before| + j]
  {
    forall j | 0 <= j < |own| ensures all[|before| + j] == own[j] {
      assert (before + own)[|before| + j] == own[j];
    }
  }

  /** The longest run of whole lines, in order, that fits. */
  ghost predicate IsText(order: seq<string>, defs: Defs, budget: int, out: string) {
    exists n: nat :: Fits(Lines(order, defs), budget, n) && out == Concat(Lines(order, defs)[..n])
  }

  /** render: whole lines, in order, up to the first that does not fit. */
  method Render(order: seq<string>, defs: Defs, budget: int) returns (out: string)
    ensures IsText(order, defs, budget, out)
  {
    hide Bytes, Concat, Lines, SigLine, Header, Sigs;
    ghost var all := Lines(order, defs);
    ghost var n: nat := 0;
    out := "";
    NothingRendered(order, defs);
    for i := 0 to |order|
      invariant n == |Lines(order[..i], defs)| <= |all| && out == Concat(all[..n])
      invariant n > 0 ==> Bytes(out) <= budget
    {
      var sigs := Sigs(defs, order[i]);
      LinesOfFile(order, defs, i);
      if |sigs| == 0 {
        continue;
      }
      ConcatOne(all, n);
      if Bytes(out) + Bytes(Header(order[i])) > budget {
        assert Fits(all, budget, n);
        return;
      }
      out := out + Header(order[i]);
      n := n + 1;
      for j := 0 to |sigs|
        invariant n == |Lines(order[..i], defs)| + 1 + j <= |all| && out == Concat(all[..n]) && Bytes(out) <= budget
      {
        ConcatOne(all, n);
        if Bytes(out) + Bytes(SigLine(sigs[j])) > budget {
          assert Fits(all, budget, n);
          return;
        }
        out := out + SigLine(sigs[j]);
        n := n + 1;
      }
    }
    assert order[..|order|] == order;
    assert Fits(all, budget, n);
  }

  lemma NothingRendered(order: seq<string>, defs: Defs)
    ensures Lines(order[..0], defs) == [] && Concat(Lines(order, defs)[..0]) == ""
  {
  }

  // ---------------------------------------------------------------- the whole map

  const DEFAULT_BUDGET := 4000

  function Budget(tokenBudget: int): int { if tokenBudget <= 0 then DEFAULT_BUDGET else tokenBudget }

  /** The higher rank first; of equal ranks, the name first in code-point order. */
  ghost predicate ByRankThenName(rank: Weights, order: seq<string>) {
    forall i, j :: 0 <= i < j < |order| ==>
      var u, v := At(rank, order[i]), At(rank, order[j]);
      u > v || (u == v && exists k: nat :: PartAt(order[i], order[j], k))
  }

  lemma AheadMeans(rank: Weights, order: seq<string>)
    ensures ByRankThenName(rank, order) <==> SortedBy(Ahead(rank), order)
  {
    hide Before, PartAt, At;
    forall i, j | 0 <= i < j < |order|
      ensures Before(order[i], order[j]) <==> exists k: nat :: PartAt(order[i], order[j], k)
    {
      BeforeMeans(order[i], order[j]);
    }
  }

  /** The files with definitions, ranked, and as much of them as fits. */
  ghost predicate IsMap(rank: Weights, defs: Defs, budget: int, order: seq<string>, out: string) {
    ByRankThenName(rank, order) && Elements(order) == defs.Keys && IsText(order, defs, budget, out)
  }

  /** Build, from the scanned definitions and identifiers. */
  method Build(defFileOf: map<string, string>, defs: Defs, goWords: RepoGraph.Words, textWords: RepoGraph.Words,
          mentions: seq<string>, tokenBudget: int)
    returns (out: string)
    ensures var budget := if tokenBudget <= 0 then 4000 else tokenBudget;
            && Bytes(out) <= budget
            && exists rank, order ::
                 && RepoScan.IsRanking(defFileOf, defs.Keys, goWords, textWords, mentions, rank)
                 && IsMap(rank, defs, budget, order, out)
  {
    hide Bytes, Concat, IsText, ByRankThenName, RepoScan.IsRanking, RepoScan.ScanRanks, RepoScan.AboveShare, SortedBy;
    var ranked := [];
    var rest := defs.Keys;
    while rest != {}
      invariant rest <= defs.Keys && Distinct(ranked) && Elements(ranked) == defs.Keys - rest
      decreases rest
    {
      var f :| f in rest;
      ghost var was := ranked;
      ranked := ranked + [f];
      assert Elements(ranked) == Elements(was) + {f};
      rest := rest - {f};
    }
    var rank := RepoScan.RankFiles(defFileOf, defs.Keys, goWords, textWords, mentions);
    AheadIsStrict(rank);
    ranked := Sort(Ahead(rank), ranked);
    out := Render(ranked, defs, Budget(tokenBudget));
    TextFits(ranked, defs, Budget(tokenBudget), out);
    AheadMeans(rank, ranked);
    assert IsMap(rank, defs, Budget(tokenBudget), ranked, out);
  }

  lemma TextFits(order: seq<string>, defs: Defs, budget: int, out: string)
    requires IsText(order, defs, budget, out) && budget >= 0
    ensures Bytes(out) <= budget
  {
  }

  /** The map is determined by the ranks, the definitions and the budget, in whatever order the files were walked. */
  lemma MapIsDetermined(rank: Weights, defs: Defs, budget: int, a: seq<string>, x: string, b: seq<string>, y: string)
    requires IsMap(rank, defs, budget, a, x) && IsMap(rank, defs, budget, b, y)
    ensures a == b && x == y
  {
    AheadIsStrict(rank);
    AheadMeans(rank, a);
    AheadMeans(rank, b);
    hide Bytes, Concat, Lines, SortedBy, StrictOrder, ByRankThenName;
    SortedIsUnique(Ahead(rank), a, b);
    var m: nat :| Fits(Lines(a, defs), budget, m) && x == Concat(Lines(a, defs)[..m]);
    var n: nat :| Fits(Lines(a, defs), budget, n) && y == Concat(Lines(a, defs)[..n]);
    FittingIsUnique(Lines(a, defs), budget, m, n);
  }

  /** The text of one file and its definitions, in full. */
  lemma OneFileText(f: string, sigs: seq<string>)
    requires sigs != []
    ensures var lines := Lines([f], map[f := sigs]);
            && |lines| == 1 + |sigs| && lines[0] == f + ":\n"
            && forall i :: 0 <= i < |sigs| ==> lines[1 + i] == "  " + sigs[i] + "\n"
  {
    OwnLines(f, sigs);
    hide FileLines;
    OneFileLines(f, map[f := sigs]);
  }

  lemma OneFileLines(f: string, defs: Defs)
    ensures Lines([f], defs) == FileLines(f, Sigs(defs, f))
  {
    hide FileLines, Sigs;
    assert [f][..0] == [];
  }

  /** With n lines shown, a file of which anything is shown has every file ahead of it shown in full. */
  lemma AheadIsShownFirst(rank: Weights, defs: Defs, order: seq<string>, n: nat, i: nat, j: nat)
    requires ByRankThenName(rank, order) && i < |order| && j < |order| && At(rank, order[i]) > At(rank, order[j])
    requires |Lines(order[..j], defs)| < n
    ensures |Lines(order[..i + 1], defs)| < n
  {
    hide Lines;
    assert i < j;
    LinesPrefix(order[..j], defs, i + 1);
    assert order[..j][..i + 1] == order[..i + 1];
  }
}
