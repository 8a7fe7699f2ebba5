/** Building the def/ref graph and the personalisation. */
module RepoGraph {
  import opened Lists
  import opened PageRank
  import opened Sorting
  import opened Text

  type Words = map<string, seq<string>>

  ghost function Weight(g: Graph, src: string, dst: string): real {
    if src in g then At(g[src], dst) else 0.0
  }

  /** The number of words that name a definition in def. */
  ghost function Refs(words: seq<string>, defFileOf: map<string, string>, def: string): nat {
    if words == [] then 0
    else
      var w := words[|words| - 1];
      Refs(words[..|words| - 1], defFileOf, def) + (if w in defFileOf && defFileOf[w] == def then 1 else 0)
  }

  ghost function References(words: Words, file: string, defFileOf: map<string, string>, def: string): nat {
    if file in words && file != def then Refs(words[file], defFileOf, def) else 0
  }

  /** One file's identifiers: each that resolves to a definition elsewhere adds 1 to that edge. */
  method AddFile(start: Graph, file: string, words: seq<string>, defFileOf: map<string, string>,
          ghost nodes: set<string>)
    returns (edges: Graph)
    requires WellFormed(start, nodes) && defFileOf.Values <= nodes
    ensures WellFormed(edges, nodes)
    ensures forall src, dst ::
              Weight(edges, src, dst)
              == Weight(start, src, dst)
                  + (if src == file && dst != file then Refs(words, defFileOf, dst) as real else 0.0)
  {
    edges := start;
    assert words[..0] == [] && forall dst :: Refs(words[..0], defFileOf, dst) == 0;
    for i := 0 to |words|
      invariant WellFormed(edges, nodes)
      invariant forall src, dst ::
                  Weight(edges, src, dst)
                  == Weight(start, src, dst)
                      + (if src == file && dst != file then Refs(words[..i], defFileOf, dst) as real else 0.0)
    {
      var w := words[i];
      assert words[..i + 1][..i] == words[..i];
      if w in defFileOf && defFileOf[w] != file {
        edges := Increment(edges, file, defFileOf[w], nodes);
      }
    }
    assert words[..|words|] == words;
  }

  method Increment(start: Graph, file: string, def: string, ghost nodes: set<string>) returns (edges: Graph)
    requires WellFormed(start, nodes) && def in nodes
    ensures WellFormed(edges, nodes)
    ensures forall src, dst ::
              Weight(edges, src, dst) == Weight(start, src, dst) + (if src == file && dst == def then 1.0 else 0.0)
  {
    var row := if file in start then start[file] else map[];
    assert GoodRow(row, nodes);
    var row' := row[def := At(row, def) + 1.0];
    assert GoodRow(row', nodes);
    edges := start[file := row'];
  }

  /**
   * buildEdges, and addTextEdges on top of its result: edges from every file to the files whose definitions it names.
   */
  method AddEdges(start: Graph, words: Words, defFileOf: map<string, string>, ghost nodes: set<string>)
    returns (edges: Graph)
    requires WellFormed(start, nodes) && defFileOf.Values <= nodes
    ensures WellFormed(edges, nodes)
    ensures forall src, dst ::
              Weight(edges, src, dst) == Weight(start, src, dst) + References(words, src, defFileOf, dst) as real
  {
    edges := start;
    var files := words.Keys;
    while files != {}
      invariant files <= words.Keys
      invariant WellFormed(edges, nodes)
      invariant forall src, dst ::
                  Weight(edges, src, dst)
                  == Weight(start, src, dst)
                      + (if src in files then 0.0 else References(words, src, defFileOf, dst) as real)
      decreases files
    {
      var file :| file in files;
      edges := AddFile(edges, file, words[file], defFileOf, nodes);
      files := files - {file};
    }
  }

  ghost function PathMentions(mentions: seq<string>, file: string): nat {
    if mentions == [] then 0
    else PathMentions(mentions[..|mentions| - 1], file) + (if Contains(file, mentions[|mentions| - 1]) then 1 else 0)
  }

  ghost function Interest(files: set<string>, defFileOf: map<string, string>, mentions: seq<string>, f: string): real {
    Refs(mentions, defFileOf, f) as real + (if f in files then 2.0 * PathMentions(mentions, f) as real else 0.0)
  }

  /** personalize: one per mentioned symbol a file defines, two per mention found in its path. */
  method Personalize(files: set<string>, defFileOf: map<string, string>, mentions: seq<string>) returns (p: Weights)
    ensures forall f :: At(p, f) == Interest(files, defFileOf, mentions, f)
    ensures NonNegative(p)
  {
    p := map[];
    if |mentions| == 0 {
      return;
    }
    for i := 0 to |mentions|
      invariant NonNegative(p)
      invariant forall f :: At(p, f) == Refs(mentions[..i], defFileOf, f) as real
    {
      var m := mentions[i];
      assert mentions[..i + 1][..i] == mentions[..i];
      if m in defFileOf {
        p := p[defFileOf[m] := At(p, defFileOf[m]) + 1.0];
      }
    }
    assert mentions[..|mentions|] == mentions;
    var rest := files;
    while rest != {}
      invariant rest <= files && NonNegative(p)
      invariant forall f ::
                  At(p, f) == Refs(mentions, defFileOf, f) as real
                            + (if f in files && f !in rest then 2.0 * PathMentions(mentions, f) as real else 0.0)
      decreases rest
    {
      var file :| file in rest;
      p := PersonalizePath(p, file, mentions);
      rest := rest - {file};
    }
  }

  method PersonalizePath(start: Weights, file: string, mentions: seq<string>) returns (p: Weights)
    requires NonNegative(start)
    ensures NonNegative(p)
    ensures forall f ::
              At(p, f) == At(start, f) + (if f == file then 2.0 * PathMentions(mentions, file) as real else 0.0)
  {
    p := start;
    assert mentions[..0] == [] && PathMentions(mentions[..0], file) == 0;
    for i := 0 to |mentions|
      invariant NonNegative(p)
      invariant forall f ::
                  At(p, f)
                  == At(start, f) + (if f == file then 2.0 * PathMentions(mentions[..i], file) as real else 0.0)
    {
      assert mentions[..i + 1][..i] == mentions[..i];
      if Contains(file, mentions[i]) {
        p := p[file := At(p, file) + 2.0];
      }
    }
    assert mentions[..|mentions|] == mentions;
  }

  /** keys: every file that defines something or is to be rendered, once, in sort.Strings order. */
  method Keys(defFileOf: map<string, string>, files: set<string>) returns (nodes: seq<string>)
    ensures SortedBy(Before, nodes) && Distinct(nodes) && Elements(nodes) == defFileOf.Values + files
  {
    var rest := (set name | name in defFileOf :: defFileOf[name]) + files;
    ghost var all := rest;
    nodes := [];
    while rest != {}
      invariant rest <= all && Distinct(nodes) && Elements(nodes) == all - rest
      decreases rest
    {
      var f :| f in rest;
      ghost var was := nodes;
      nodes := nodes + [f];
      assert Elements(nodes) == Elements(was) + {f};
      rest := rest - {f};
    }
    BeforeIsStrict();
    nodes := Sort(Before, nodes);
  }
}
