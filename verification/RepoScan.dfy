/** The ranking of a whole scan, in terms of its definitions, words and mentions. */
module RepoScan {
  import opened SetSums
  import opened Markov
  import opened PageRank
  import opened Text
  import RepoMap
  import opened RepoGraph

  /** What a scan promises of its ranks: a distribution, close to every stationary one, of the graph the scan found. */
  ghost predicate Ranked(nodes: set<string>, g: Graph, pv: Vector, rank: Weights) {
    && RepoMap.Represents(rank, Iterate(nodes, g, pv, 0.85, 20), nodes)
    && Distribution(Entries(rank), nodes)
    && (forall id :: id in nodes ==> 0.15 * pv(id) <= rank[id])
    && (forall pi :: Stationary(nodes, g, pv, 0.85, pi) ==> L1(Entries(rank), pi, nodes) <= 2.0 * Power(0.85, 20))
  }

  ghost predicate EdgesCounted(defFileOf: map<string, string>, goWords: Words, textWords: Words, g: Graph) {
    forall src, dst ::
      Weight(g, src, dst)
          == (References(goWords, src, defFileOf, dst) + References(textWords, src, defFileOf, dst)) as real
  }

  ghost predicate InterestCounted(defFileOf: map<string, string>, files: set<string>, mentions: seq<string>,
          personal: Weights)
  {
    forall f :: At(personal, f) == Interest(files, defFileOf, mentions, f)
  }

  /** What a scan finds: the edges and the interest it counts, and the ranks these give. */
  ghost predicate IsScan(defFileOf: map<string, string>, files: set<string>, goWords: Words, textWords: Words,
          mentions: seq<string>, g: Graph, personal: Weights, rank: Weights) {
    var nodes := defFileOf.Values + files;
    && WellFormed(g, nodes)
    && EdgesCounted(defFileOf, goWords, textWords, g) && InterestCounted(defFileOf, files, mentions, personal)
    && (if nodes == {} then rank == map[] else Ranked(nodes, g, Teleport(nodes, personal), rank))
  }

  /** The ranks of a scan. */
  ghost predicate ScanRanks(defFileOf: map<string, string>, files: set<string>, goWords: Words, textWords: Words,
          mentions: seq<string>, rank: Weights) {
    exists g, personal :: IsScan(defFileOf, files, goWords, textWords, mentions, g, personal, rank)
  }

  lemma BothCounted(defFileOf: map<string, string>, goWords: Words, textWords: Words, goEdges: Graph, g: Graph)
    requires forall src, dst :: Weight(goEdges, src, dst) == References(goWords, src, defFileOf, dst) as real
    requires forall src, dst ::
               Weight(g, src, dst) == Weight(goEdges, src, dst) + References(textWords, src, defFileOf, dst) as real
    ensures EdgesCounted(defFileOf, goWords, textWords, g)
  {
    hide References, Weight;
  }

  lemma EmptyGraph(nodes: set<string>)
    ensures WellFormed(map[], nodes) && forall src, dst :: Weight(map[], src, dst) == 0.0
  {
  }

  lemma DestinationsAreNodes(g: Graph, nodes: set<string>)
    requires WellFormed(g, nodes)
    ensures forall src :: src in g ==> g[src].Keys <= nodes
  {
    forall src | src in g ensures g[src].Keys <= nodes {
      assert GoodRow(g[src], nodes);
    }
  }

  lemma RanksAreRanked(nodes: set<string>, g: Graph, pv: Vector, rank: Weights)
    requires nodes != {} && WellFormed(g, nodes) && Distribution(pv, nodes)
    requires RepoMap.Represents(rank, Iterate(nodes, g, pv, 0.85, 20), nodes)
    ensures Ranked(nodes, g, pv, rank)
  {
    hide WellFormed, Step, Iterate, Power, Stationary;
    var x := Iterate(nodes, g, pv, 0.85, 20);
    IterateIsDistribution(nodes, g, pv, 0.85, 20);
    SumEqual(x, Entries(rank), nodes);
    forall id | id in nodes ensures 0.15 * pv(id) <= rank[id] {
      IterateAtLeast(nodes, g, pv, 0.85, 20, id);
    }
    forall pi | Stationary(nodes, g, pv, 0.85, pi) ensures L1(Entries(rank), pi, nodes) <= 2.0 * Power(0.85, 20) {
      IterateNearStationary(nodes, g, pv, 0.85, pi, 20);
      L1Agrees(pi, x, Entries(rank), nodes);
    }
  }

  /** After any iteration a file keeps at least its teleport share. */
  lemma IterateAtLeast(nodes: set<string>, g: Graph, pv: Vector, d: real, k: nat, id: string)
    requires id in nodes && WellFormed(g, nodes) && Distribution(pv, nodes) && 0.0 <= d <= 1.0 && 0 < k
    ensures (1.0 - d) * pv(id) <= Iterate(nodes, g, pv, d, k)(id)
  {
    var x := Iterate(nodes, g, pv, d, k - 1);
    IterateIsDistribution(nodes, g, pv, d, k - 1);
    SurferIsStochastic(nodes, g, pv);
    PushNonNegative(Surfer(g, pv), nodes, x, id);
    ProductNonNegative(d, Push(Surfer(g, pv), nodes, x)(id));
    RepoMap.StepValue(nodes, g, pv, d, x, id);
  }

  // ---------------------------------------------------------------- what is counted

  /** How many words of the list name something that f defines. */
  ghost function Named(words: seq<string>, defFileOf: map<string, string>, f: string): nat {
    |set i | 0 <= i < |words| && words[i] in defFileOf && defFileOf[words[i]] == f|
  }

  /** How many mentions occur in the path f. */
  ghost function InPath(mentions: seq<string>, f: string): nat {
    |set i | 0 <= i < |mentions| && Contains(f, mentions[i])|
  }

  ghost function NamedBy(words: Words, src: string, defFileOf: map<string, string>, dst: string): nat {
    if src in words && src != dst then Named(words[src], defFileOf, dst) else 0
  }

  /** The weight of an edge: the words of the one file that name something the other defines. */
  ghost function WeightOf(defFileOf: map<string, string>, goWords: Words, textWords: Words): Kernel {
    (src, dst) => (NamedBy(goWords, src, defFileOf, dst) + NamedBy(textWords, src, defFileOf, dst)) as real
  }

  /** The interest in a file: one for each mention of what it defines, two for each in its path. */
  ghost function InterestOf(defFileOf: map<string, string>, files: set<string>, mentions: seq<string>): Vector {
    f => Named(mentions, defFileOf, f) as real + (if f in files then 2.0 * InPath(mentions, f) as real else 0.0)
  }

  lemma RefsOne(words: seq<string>, defFileOf: map<string, string>, f: string)
    requires words != []
    ensures var n := |words| - 1;
            Refs(words, defFileOf, f)
            == Refs(words[..n], defFileOf, f) + (if words[n] in defFileOf && defFileOf[words[n]] == f then 1 else 0)
  {
  }

  lemma {:induction false} RefsAreNamed(words: seq<string>, defFileOf: map<string, string>, f: string)
    ensures Refs(words, defFileOf, f) == Named(words, defFileOf, f)
  {
    if words != [] {
      var n := |words| - 1;
      var front := words[..n];
      RefsAreNamed(front, defFileOf, f);
      hide Refs;
      RefsOne(words, defFileOf, f);
      var a := set i | 0 <= i < |front| && front[i] in defFileOf && defFileOf[front[i]] == f;
      var b := set i | 0 <= i < |words| && words[i] in defFileOf && defFileOf[words[i]] == f;
      assert b == a + (if words[n] in defFileOf && defFileOf[words[n]] == f then {n} else {});
    }
  }

  lemma {:induction false} PathMentionsAreInPath(mentions: seq<string>, f: string)
    ensures PathMentions(mentions, f) == InPath(mentions, f)
  {
    if mentions != [] {
      var n := |mentions| - 1;
      var front := mentions[..n];
      PathMentionsAreInPath(front, f);
      hide Contains;
      var a := set i | 0 <= i < |front| && Contains(f, front[i]);
      var b := set i | 0 <= i < |mentions| && Contains(f, mentions[i]);
      assert b == a + (if Contains(f, mentions[n]) then {n} else {});
    }
  }

  // ---------------------------------------------------------------- what the ranks are

  /** Interest in proportion, or evenly when there is none. */
  ghost predicate InProportion(pv: Vector, nodes: set<string>, interest: Vector) {
    var total := Sum(interest, nodes);
    forall f :: f in nodes ==> if total > 0.0 then pv(f) * total == interest(f) else pv(f) * |nodes| as real == 1.0
  }

  /** From a file with outgoing weight along its edges in proportion to theirs, from any other as pv says. */
  ghost predicate AlongEdges(move: Kernel, pv: Vector, nodes: set<string>, weight: Kernel) {
    forall src, dst :: src in nodes && dst in nodes ==>
      var out := Sum(Row(weight, src), nodes);
      if out > 0.0 then move(src, dst) * out == weight(src, dst) else move(src, dst) == pv(dst)
  }

  /** What arrives at a file from each source. */
  ghost function Arriving(x: Vector, move: Kernel, dst: string): Vector { src => x(src) * move(src, dst) }

  ghost predicate IsRound(x: Vector, next: Vector, move: Kernel, pv: Vector, nodes: set<string>) {
    forall f :: f in nodes ==> next(f) == 0.15 * pv(f) + 0.85 * Sum(Arriving(x, move, f), nodes)
  }

  /** Twenty rounds from even ranks. */
  ghost predicate TwentyRounds(xs: seq<Vector>, move: Kernel, pv: Vector, nodes: set<string>) {
    && |xs| == 21 && (forall f :: f in nodes ==> xs[0](f) * |nodes| as real == 1.0)
    && forall k :: 0 <= k < 20 ==> IsRound(xs[k], xs[k + 1], move, pv, nodes)
  }

  ghost predicate RanksOf(defFileOf: map<string, string>, files: set<string>, goWords: Words, textWords: Words,
          mentions: seq<string>, pv: Vector, move: Kernel, xs: seq<Vector>, rank: Weights) {
    var nodes := defFileOf.Values + files;
    && InProportion(pv, nodes, InterestOf(defFileOf, files, mentions))
    && AlongEdges(move, pv, nodes, WeightOf(defFileOf, goWords, textWords))
    && TwentyRounds(xs, move, pv, nodes)
    && rank.Keys == nodes && forall f :: f in nodes ==> rank[f] == xs[20](f)
  }

  /** The ranks in terms of the scan alone. */
  ghost predicate IsRanking(defFileOf: map<string, string>, files: set<string>, goWords: Words, textWords: Words,
          mentions: seq<string>, rank: Weights) {
    if defFileOf.Values + files == {} then rank == map[]
    else exists pv, move, xs :: RanksOf(defFileOf, files, goWords, textWords, mentions, pv, move, xs, rank)
  }

  lemma Share(x: real, t: real)
    requires t > 0.0
    ensures x / t * t == x
  {
  }

  lemma TeleportInProportion(nodes: set<string>, personal: Weights, interest: Vector)
    requires nodes != {} && forall f :: At(personal, f) == interest(f)
    ensures InProportion(Teleport(nodes, personal), nodes, interest)
  {
    SumEqual(Entries(personal), interest, nodes);
    var total := Sum(interest, nodes);
    forall f | f in nodes
      ensures var p := Teleport(nodes, personal)(f);
              if total > 0.0 then p * total == interest(f) else p * |nodes| as real == 1.0
    {
      hide At;
      if total > 0.0 {
        Share(interest(f), total);
      } else {
        Share(1.0, |nodes| as real);
      }
    }
  }

  lemma OutIsSum(g: Graph, nodes: set<string>, weight: Kernel, src: string)
    requires WellFormed(g, nodes) && forall s, d :: Weight(g, s, d) == weight(s, d)
    ensures OutWeight(g, src) == Sum(Row(weight, src), nodes) >= 0.0
  {
    if src in g {
      var row := g[src];
      assert GoodRow(row, nodes) && row.Keys <= nodes;
      forall d ensures Entries(row)(d) == Row(weight, src)(d) {
        assert Weight(g, src, d) == weight(src, d);
      }
      SumSupport(Entries(row), nodes, row.Keys);
      SumEqual(Entries(row), Row(weight, src), nodes);
      SumNonNegative(Entries(row), row.Keys);
    } else {
      forall d ensures Row(weight, src)(d) == 0.0 {
        assert Weight(g, src, d) == weight(src, d);
      }
      SumSupport(Row(weight, src), nodes, {});
    }
  }

  lemma SurferMove(g: Graph, pv: Vector, nodes: set<string>, weight: Kernel, src: string, dst: string)
    requires WellFormed(g, nodes) && forall s, d :: Weight(g, s, d) == weight(s, d)
    ensures var out := Sum(Row(weight, src), nodes);
            if out > 0.0 then Surfer(g, pv)(src, dst) * out == weight(src, dst) else Surfer(g, pv)(src, dst) == pv(dst)
  {
    hide OutWeight, WellFormed, Sum, At, Row;
    OutIsSum(g, nodes, weight, src);
    var out := OutWeight(g, src);
    SurferShare(g, pv, src, dst);
    hide Surfer;
    assert Weight(g, src, dst) == weight(src, dst);
    hide Weight;
    if out > 0.0 {
      Share(weight(src, dst), out);
    }
  }

  lemma SurferAlongEdges(g: Graph, pv: Vector, nodes: set<string>, weight: Kernel)
    requires WellFormed(g, nodes) && forall s, d :: Weight(g, s, d) == weight(s, d)
    ensures AlongEdges(Surfer(g, pv), pv, nodes, weight)
  {
    hide WellFormed, Sum, Surfer, Row, Weight;
    forall src, dst | src in nodes && dst in nodes
      ensures var out := Sum(Row(weight, src), nodes);
              if out > 0.0 then Surfer(g, pv)(src, dst) * out == weight(src, dst)
              else Surfer(g, pv)(src, dst) == pv(dst)
    {
      SurferMove(g, pv, nodes, weight, src, dst);
    }
  }

  lemma SurferShare(g: Graph, pv: Vector, src: string, dst: string)
    ensures Surfer(g, pv)(src, dst)
            == if OutWeight(g, src) == 0.0 then pv(dst) else Weight(g, src, dst) / OutWeight(g, src)
  {
    hide At;
  }

  ghost function Iterates(nodes: set<string>, g: Graph, pv: Vector): seq<Vector> {
    seq(21, k requires 0 <= k < 21 => Iterate(nodes, g, pv, 0.85, k))
  }

  lemma PushIsArriving(nodes: set<string>, move: Kernel, x: Vector, f: string)
    ensures Push(move, nodes, x)(f) == Sum(Arriving(x, move, f), nodes)
  {
    SumEqual(Column(Moved(move, x), f), Arriving(x, move, f), nodes);
    hide Sum;
  }

  lemma MixWith(p: real, u: real, v: real)
    requires u == v
    ensures (1.0 - 0.85) * p + 0.85 * u == 0.15 * p + 0.85 * v
  {
  }

  lemma StepAt(nodes: set<string>, g: Graph, pv: Vector, x: Vector, f: string)
    ensures Step(nodes, g, pv, 0.85, x)(f) == 0.15 * pv(f) + 0.85 * Sum(Arriving(x, Surfer(g, pv), f), nodes)
  {
    hide *;
    RepoMap.StepValue(nodes, g, pv, 0.85, x, f);
    PushIsArriving(nodes, Surfer(g, pv), x, f);
    MixWith(pv(f), Push(Surfer(g, pv), nodes, x)(f), Sum(Arriving(x, Surfer(g, pv), f), nodes));
  }

  lemma StepIsRound(nodes: set<string>, g: Graph, pv: Vector, x: Vector)
    ensures IsRound(x, Step(nodes, g, pv, 0.85, x), Surfer(g, pv), pv, nodes)
  {
    hide Step, Surfer, Sum, Arriving;
    forall f | f in nodes
      ensures Step(nodes, g, pv, 0.85, x)(f) == 0.15 * pv(f) + 0.85 * Sum(Arriving(x, Surfer(g, pv), f), nodes)
    {
      StepAt(nodes, g, pv, x, f);
    }
  }

  lemma IteratesAreRounds(nodes: set<string>, g: Graph, pv: Vector)
    requires nodes != {}
    ensures TwentyRounds(Iterates(nodes, g, pv), Surfer(g, pv), pv, nodes)
  {
    var xs := Iterates(nodes, g, pv);
    Share(1.0, |nodes| as real);
    forall k | 0 <= k < 20 ensures IsRound(xs[k], xs[k + 1], Surfer(g, pv), pv, nodes) {
      StepIsRound(nodes, g, pv, xs[k]);
      hide Step, IsRound, Surfer;
      assert xs[k + 1] == Step(nodes, g, pv, 0.85, xs[k]);
    }
  }

  lemma CountsAgree(defFileOf: map<string, string>, files: set<string>, goWords: Words, textWords: Words,
          mentions: seq<string>, g: Graph, personal: Weights)
    requires EdgesCounted(defFileOf, goWords, textWords, g) && InterestCounted(defFileOf, files, mentions, personal)
    ensures forall s, d :: Weight(g, s, d) == WeightOf(defFileOf, goWords, textWords)(s, d)
    ensures forall f :: At(personal, f) == InterestOf(defFileOf, files, mentions)(f)
  {
    hide Weight, At, Refs, PathMentions, Named, InPath;
    forall s, d ensures Weight(g, s, d) == WeightOf(defFileOf, goWords, textWords)(s, d) {
      if s in goWords {
        RefsAreNamed(goWords[s], defFileOf, d);
      }
      if s in textWords {
        RefsAreNamed(textWords[s], defFileOf, d);
      }
    }
    forall f ensures At(personal, f) == InterestOf(defFileOf, files, mentions)(f) {
      RefsAreNamed(mentions, defFileOf, f);
      PathMentionsAreInPath(mentions, f);
    }
  }

  /** The ranks of a scan are those of twenty rounds over its own counts. */
  lemma ScanMeans(defFileOf: map<string, string>, files: set<string>, goWords: Words, textWords: Words,
          mentions: seq<string>, g: Graph, personal: Weights, rank: Weights)
    requires IsScan(defFileOf, files, goWords, textWords, mentions, g, personal, rank)
    ensures IsRanking(defFileOf, files, goWords, textWords, mentions, rank)
  {
    var nodes := defFileOf.Values + files;
    if nodes != {} {
      CountsAgree(defFileOf, files, goWords, textWords, mentions, g, personal);
      hide EdgesCounted, InterestCounted, WellFormed, Weight, At, WeightOf, InterestOf, Teleport, Surfer, Stationary;
      var pv := Teleport(nodes, personal);
      TeleportInProportion(nodes, personal, InterestOf(defFileOf, files, mentions));
      SurferAlongEdges(g, pv, nodes, WeightOf(defFileOf, goWords, textWords));
      IteratesAreRounds(nodes, g, pv);
      hide InProportion, AlongEdges, TwentyRounds, Iterate, Distribution;
      assert RanksOf(defFileOf, files, goWords, textWords, mentions, pv, Surfer(g, pv), Iterates(nodes, g, pv), rank);
    }
  }

  lemma Bounded(x: real, t: real, p: real, r: real)
    requires 0.0 <= t && 0.15 * p <= r && p * t == x
    ensures 0.15 * x <= t * r
  {
    assert 0.15 * p * t <= r * t;
  }

  /** Each rank is at least the file's share of the interest, by the teleport probability. */
  ghost predicate AboveShare(nodes: set<string>, interest: Vector, rank: Weights) {
    var total := Sum(interest, nodes);
    total > 0.0 ==> forall f :: f in nodes ==> f in rank && 0.15 * interest(f) <= total * rank[f]
  }

  lemma RankedAboveShare(nodes: set<string>, g: Graph, pv: Vector, rank: Weights, interest: Vector)
    requires Ranked(nodes, g, pv, rank) && InProportion(pv, nodes, interest)
    ensures AboveShare(nodes, interest, rank)
  {
    hide Sum, Iterate, Distribution, Stationary;
    var total := Sum(interest, nodes);
    if total > 0.0 {
      forall f | f in nodes ensures f in rank && 0.15 * interest(f) <= total * rank[f] {
        assert pv(f) * total == interest(f);
        hide InProportion;
        Bounded(interest(f), total, pv(f), rank[f]);
      }
    }
  }

  lemma ScanAboveShare(defFileOf: map<string, string>, files: set<string>, goWords: Words, textWords: Words,
          mentions: seq<string>, g: Graph, personal: Weights, rank: Weights)
    requires IsScan(defFileOf, files, goWords, textWords, mentions, g, personal, rank)
    ensures AboveShare(defFileOf.Values + files, InterestOf(defFileOf, files, mentions), rank)
  {
    hide EdgesCounted, InterestCounted, WellFormed, At, InterestOf, Teleport, Ranked, Sum, InProportion;
    var nodes, interest := defFileOf.Values + files, InterestOf(defFileOf, files, mentions);
    if nodes != {} {
      CountsAgree(defFileOf, files, goWords, textWords, mentions, g, personal);
      TeleportInProportion(nodes, personal, interest);
      RankedAboveShare(nodes, g, Teleport(nodes, personal), rank, interest);
    }
  }

  /** Build's ranking, from the scanned definitions and identifiers, with no assumption on either. */
  method RankFiles(defFileOf: map<string, string>, files: set<string>, goWords: Words, textWords: Words,
          mentions: seq<string>)
    returns (rank: Weights)
    ensures ScanRanks(defFileOf, files, goWords, textWords, mentions, rank)
    ensures IsRanking(defFileOf, files, goWords, textWords, mentions, rank)
    ensures AboveShare(defFileOf.Values + files, InterestOf(defFileOf, files, mentions), rank)
  {
    hide WellFormed, Iterate, References, Interest, Weight, Ranked, EdgesCounted, IsRanking, AboveShare, InterestOf;
    ghost var all := defFileOf.Values + files;
    EmptyGraph(all);
    var edges := AddEdges(map[], goWords, defFileOf, all);
    ghost var goEdges := edges;
    edges := AddEdges(edges, textWords, defFileOf, all);
    BothCounted(defFileOf, goWords, textWords, goEdges, edges);
    var nodes := Keys(defFileOf, files);
    var personal := Personalize(files, defFileOf, mentions);
    DestinationsAreNodes(edges, all);
    rank := RepoMap.Ranks(nodes, edges, personal, 20, 0.85);
    if all != {} {
      TeleportIsDistribution(all, personal);
      RanksAreRanked(all, edges, Teleport(all, personal), rank);
    }
    assert IsScan(defFileOf, files, goWords, textWords, mentions, edges, personal, rank);
    ScanMeans(defFileOf, files, goWords, textWords, mentions, edges, personal, rank);
    ScanAboveShare(defFileOf, files, goWords, textWords, mentions, edges, personal, rank);
  }
}
