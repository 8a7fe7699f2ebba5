/** The repo map's ranking code, step by step, against the random surfer of module PageRank. */
module RepoMap {
  import opened Lists
  import opened SetSums
  import opened Markov
  import opened PageRank

  /** m holds exactly the values of x on the nodes. */
  ghost predicate Represents(m: Weights, x: Vector, nodes: set<string>) {
    m.Keys == nodes && forall id :: id in nodes ==> m[id] == x(id)
  }

  lemma PrefixGrows(nodes: seq<string>, i: nat)
    requires i < |nodes| && Distinct(nodes)
    ensures Elements(nodes[..i + 1]) == Elements(nodes[..i]) + {nodes[i]}
    ensures nodes[i] !in Elements(nodes[..i]) && nodes[i] in Elements(nodes)
  {
    assert nodes[..i + 1] == nodes[..i] + [nodes[i]];
    assert nodes[..i + 1] <= nodes;
  }

  lemma RepresentsGrows(m: Weights, x: Vector, nodes: seq<string>, i: nat, v: real)
    requires i < |nodes| && Distinct(nodes)
    requires Represents(m, x, Elements(nodes[..i])) && v == x(nodes[i])
    ensures Represents(m[nodes[i] := v], x, Elements(nodes[..i + 1]))
  {
    PrefixGrows(nodes, i);
  }

  lemma RepresentsNothing(x: Vector)
    ensures Represents(map[], x, {})
  {
  }

  method TeleportTotal(nodes: seq<string>, personal: Weights) returns (psum: real)
    requires Distinct(nodes)
    ensures psum == Sum(Entries(personal), Elements(nodes))
  {
    psum := 0.0;
    assert Elements(nodes[..0]) == {};
    for i := 0 to |nodes|
      invariant psum == Sum(Entries(personal), Elements(nodes[..i]))
    {
      PrefixGrows(nodes, i);
      SumInsert(Entries(personal), Elements(nodes[..i]), nodes[i]);
      psum := psum + At(personal, nodes[i]);
    }
    assert nodes[..|nodes|] == nodes;
  }

  method Teleportation(nodes: seq<string>, personal: Weights) returns (pv: Weights)
    requires nodes != [] && Distinct(nodes)
    ensures Represents(pv, Teleport(Elements(nodes), personal), Elements(nodes))
  {
    hide Represents, Elements, Distinct;
    var psum := TeleportTotal(nodes, personal);
    ElementCount(nodes);
    pv := map[];
    RepresentsNothing(Teleport(Elements(nodes), personal));
    NoElements(nodes);
    for i := 0 to |nodes|
      invariant Represents(pv, Teleport(Elements(nodes), personal), Elements(nodes[..i]))
    {
      var v := if psum > 0.0 then At(personal, nodes[i]) / psum else 1.0 / |nodes| as real;
      RepresentsGrows(pv, Teleport(Elements(nodes), personal), nodes, i, v);
      pv := pv[nodes[i] := v];
    }
    assert nodes[..|nodes|] == nodes;
  }

  lemma NoElements(nodes: seq<string>)
    ensures Elements(nodes[..0]) == {}
  {
  }

  method OutWeights(edges: Graph) returns (out: Weights)
    ensures forall id :: At(out, id) == OutWeight(edges, id)
  {
    out := map[];
    var srcs := edges.Keys;
    while srcs != {}
      invariant srcs <= edges.Keys
      invariant forall id :: At(out, id) == if id in srcs then 0.0 else OutWeight(edges, id)
      decreases srcs
    {
      var src :| src in srcs;
      out := AddRow(edges[src], src, out);
      srcs := srcs - {src};
    }
  }

  method AddRow(row: Weights, src: string, start: Weights) returns (out: Weights)
    requires At(start, src) == 0.0
    ensures At(out, src) == Sum(Entries(row), row.Keys)
    ensures forall id :: id != src ==> At(out, id) == At(start, id)
  {
    out := start;
    var dsts := row.Keys;
    while dsts != {}
      invariant dsts <= row.Keys
      invariant At(out, src) == Sum(Entries(row), row.Keys - dsts)
      invariant forall id :: id != src ==> At(out, id) == At(start, id)
      decreases dsts
    {
      var dst :| dst in dsts;
      SumInsert(Entries(row), row.Keys - dsts, dst);
      assert row.Keys - dsts + {dst} == row.Keys - (dsts - {dst});
      out := out[src := At(out, src) + row[dst]];
      dsts := dsts - {dst};
    }
    assert row.Keys - dsts == row.Keys;
  }

  /** The rank held by files with no outgoing weight. */
  ghost function DanglingMass(g: Graph, x: Vector): Vector {
    id => if OutWeight(g, id) == 0.0 then x(id) else 0.0
  }

  /** What each source passes on to dst along its edges. */
  ghost function Inflow(g: Graph, x: Vector, dst: string): Vector {
    src => if src !in g || OutWeight(g, src) == 0.0 then 0.0 else x(src) * (At(g[src], dst) / OutWeight(g, src))
  }

  method Seed(nodes: seq<string>, ghost edges: Graph, pv: Weights, out: Weights, damping: real, rank: Weights)
    returns (next: Weights, dangling: real)
    requires Distinct(nodes) && pv.Keys == rank.Keys == Elements(nodes)
    requires forall id :: At(out, id) == OutWeight(edges, id)
    ensures Represents(next, Scaled(1.0 - damping, Entries(pv)), Elements(nodes))
    ensures dangling == Sum(DanglingMass(edges, Entries(rank)), Elements(nodes))
  {
    hide Represents, Elements, Distinct, Scaled, DanglingMass, Sum;
    ghost var first, mass := Scaled(1.0 - damping, Entries(pv)), DanglingMass(edges, Entries(rank));
    next, dangling := map[], 0.0;
    RepresentsNothing(first);
    NoElements(nodes);
    NoSum(mass);
    for i := 0 to |nodes|
      invariant Represents(next, first, Elements(nodes[..i]))
      invariant dangling == Sum(mass, Elements(nodes[..i]))
    {
      var id := nodes[i];
      PrefixGrows(nodes, i);
      SumInsert(mass, Elements(nodes[..i]), id);
      SeedValues(edges, pv, damping, rank, id);
      RepresentsGrows(next, first, nodes, i, (1.0 - damping) * pv[id]);
      next := next[id := (1.0 - damping) * pv[id]];
      if At(out, id) == 0.0 {
        dangling := dangling + rank[id];
      }
    }
    assert nodes[..|nodes|] == nodes;
  }

  lemma NoSum(x: Vector)
    ensures Sum(x, {}) == 0.0
  {
  }

  lemma SeedValues(edges: Graph, pv: Weights, damping: real, rank: Weights, id: string)
    requires id in pv && id in rank
    ensures Scaled(1.0 - damping, Entries(pv))(id) == (1.0 - damping) * pv[id]
    ensures DanglingMass(edges, Entries(rank))(id) == if OutWeight(edges, id) == 0.0 then rank[id] else 0.0
  {
  }

  method SpreadFrom(src: string, row: Weights, outSrc: real, damping: real, rankSrc: real, start: Weights)
    returns (next: Weights)
    requires outSrc != 0.0 && row.Keys <= start.Keys
    ensures next.Keys == start.Keys
    ensures forall id :: id in start ==> next[id] == start[id] + Passed(row, outSrc, damping, rankSrc, id)
  {
    hide Passed;
    next := start;
    var dsts := row.Keys;
    while dsts != {}
      invariant dsts <= row.Keys && next.Keys == start.Keys
      invariant forall id :: id in start && (id in dsts || id !in row) ==> next[id] == start[id]
      invariant forall id ::
                  id in row && id !in dsts ==> next[id] == start[id] + Passed(row, outSrc, damping, rankSrc, id)
      decreases dsts
    {
      var dst :| dst in dsts;
      PassedValue(row, outSrc, damping, rankSrc, dst);
      next := next[dst := next[dst] + damping * rankSrc * (row[dst] / outSrc)];
      dsts := dsts - {dst};
    }
    forall id | id in start && id !in row ensures Passed(row, outSrc, damping, rankSrc, id) == 0.0 {
      PassedValue(row, outSrc, damping, rankSrc, id);
    }
  }

  /** What a source with rank x passes to id. */
  ghost function Passed(row: Weights, out: real, d: real, x: real, id: string): real
    requires out != 0.0
  {
    d * (x * (At(row, id) / out))
  }

  lemma PassedValue(row: Weights, out: real, d: real, x: real, id: string)
    requires out != 0.0
    ensures id in row ==> Passed(row, out, d, x, id) == d * x * (row[id] / out)
    ensures id !in row ==> Passed(row, out, d, x, id) == 0.0
  {
    Associate(d, x, At(row, id) / out);
  }

  lemma Associate(a: real, b: real, c: real)
    ensures a * b * c == a * (b * c)
  {
  }

  lemma InflowGrows(g: Graph, x: Vector, dst: string, done: set<string>, src: string, d: real)
    requires src !in done
    ensures d * Sum(Inflow(g, x, dst), done + {src}) == d * Sum(Inflow(g, x, dst), done) + d * Inflow(g, x, dst)(src)
  {
    hide Inflow;
    SumInsert(Inflow(g, x, dst), done, src);
    Distribute(d, Sum(Inflow(g, x, dst), done), Inflow(g, x, dst)(src));
  }

  /** start plus what has flowed in from the sources in done. */
  ghost function Received(g: Graph, x: Vector, d: real, done: set<string>, start: Weights): Vector {
    id => At(start, id) + d * Sum(Inflow(g, x, id), done)
  }

  method Spread(edges: Graph, out: Weights, damping: real, rank: Weights, start: Weights) returns (next: Weights)
    requires forall src :: src in edges ==> edges[src].Keys <= start.Keys
    requires forall id :: At(out, id) == OutWeight(edges, id)
    ensures Represents(next, Received(edges, Entries(rank), damping, edges.Keys, start), start.Keys)
  {
    hide Represents, Received, OutWeight, At;
    ghost var x := Entries(rank);
    next := start;
    var srcs := edges.Keys;
    ReceivedNothing(edges, x, damping, start);
    assert edges.Keys - srcs == {};
    while srcs != {}
      invariant srcs <= edges.Keys
      invariant Represents(next, Received(edges, x, damping, edges.Keys - srcs, start), start.Keys)
      decreases srcs
    {
      var src :| src in srcs;
      ghost var was, done := next, edges.Keys - srcs;
      RepresentsKeys(next, Received(edges, x, damping, done, start), start.Keys);
      if At(out, src) != 0.0 {
        next := SpreadFrom(src, edges[src], At(out, src), damping, At(rank, src), next);
      }
      ReceivedFrom(edges, rank, damping, done, start, src, was, next);
      srcs := srcs - {src};
      assert edges.Keys - srcs == done + {src};
    }
    assert edges.Keys - srcs == edges.Keys;
  }

  lemma RepresentsKeys(m: Weights, x: Vector, nodes: set<string>)
    requires Represents(m, x, nodes)
    ensures m.Keys == nodes
  {
  }

  lemma ReceivedNothing(edges: Graph, x: Vector, damping: real, start: Weights)
    ensures Represents(start, Received(edges, x, damping, {}, start), start.Keys)
  {
  }

  lemma InflowValue(edges: Graph, rank: Weights, src: string, id: string)
    requires src in edges
    ensures Inflow(edges, Entries(rank), id)(src)
         == if OutWeight(edges, src) == 0.0 then 0.0 else At(rank, src) * (At(edges[src], id) / OutWeight(edges, src))
  {
    hide OutWeight, At;
  }

  lemma ReceivedFrom(edges: Graph, rank: Weights, damping: real, done: set<string>, start: Weights, src: string,
          was: Weights, next: Weights)
    requires src in edges && src !in done
    requires Represents(was, Received(edges, Entries(rank), damping, done, start), start.Keys)
    requires next.Keys == was.Keys
    requires OutWeight(edges, src) == 0.0 ==> next == was
    requires OutWeight(edges, src) != 0.0 ==> forall id :: id in was ==>
      next[id] == was[id] + Passed(edges[src], OutWeight(edges, src), damping, At(rank, src), id)
    ensures Represents(next, Received(edges, Entries(rank), damping, done + {src}, start), start.Keys)
  {
    hide Inflow, OutWeight, At, Sum;
    forall id | id in start ensures next[id] == Received(edges, Entries(rank), damping, done + {src}, start)(id) {
      InflowGrows(edges, Entries(rank), id, done, src, damping);
      InflowValue(edges, rank, src, id);
      assert damping * Inflow(edges, Entries(rank), id)(src) == next[id] - was[id];
    }
  }

  method TopUp(nodes: seq<string>, pv: Weights, damping: real, dangling: real, start: Weights) returns (next: Weights)
    requires Distinct(nodes) && pv.Keys == start.Keys == Elements(nodes)
    ensures next.Keys == start.Keys
    ensures forall id :: id in start ==> next[id] == start[id] + damping * dangling * pv[id]
  {
    hide Elements, Distinct, Scaled, Entries;
    NoElements(nodes);
    next := start;
    ghost var share := Scaled(damping * dangling, Entries(pv));
    for i := 0 to |nodes|
      invariant next.Keys == start.Keys
      invariant forall id :: id in start && id in Elements(nodes[..i]) ==> next[id] == start[id] + share(id)
      invariant forall id :: id in start && id !in Elements(nodes[..i]) ==> next[id] == start[id]
    {
      PrefixGrows(nodes, i);
      ScaledValue(damping * dangling, pv, nodes[i]);
      next := next[nodes[i] := next[nodes[i]] + damping * dangling * pv[nodes[i]]];
    }
    assert nodes[..|nodes|] == nodes;
    forall id | id in start ensures next[id] == start[id] + damping * dangling * pv[id] {
      ScaledValue(damping * dangling, pv, id);
    }
  }

  lemma ScaledValue(c: real, m: Weights, id: string)
    requires id in m
    ensures Scaled(c, Entries(m))(id) == c * m[id]
  {
  }

  method Iteration(nodes: seq<string>, edges: Graph, pv: Weights, out: Weights, damping: real, rank: Weights)
    returns (next: Weights)
    requires Distinct(nodes) && pv.Keys == rank.Keys == Elements(nodes)
    requires forall src :: src in edges ==> edges[src].Keys <= Elements(nodes)
    requires forall id :: At(out, id) == OutWeight(edges, id)
    ensures Represents(next, Step(Elements(nodes), edges, Entries(pv), damping, Entries(rank)), Elements(nodes))
  {
    hide Represents, Elements, Distinct, Step, Entries, Scaled, DanglingMass, Received, Sum, OutWeight, At;
    ghost var all := Elements(nodes);
    var start, dangling := Seed(nodes, edges, pv, out, damping, rank);
    RepresentsKeys(start, Scaled(1.0 - damping, Entries(pv)), all);
    var spread := Spread(edges, out, damping, rank, start);
    RepresentsKeys(spread, Received(edges, Entries(rank), damping, edges.Keys, start), all);
    next := TopUp(nodes, pv, damping, dangling, spread);
    LoopsMakeStep(all, edges, pv, damping, rank, start, dangling, spread, next);
  }

  lemma Mix(d: real, base: real, flow: real, stuck: real, p: real, push: real)
    requires push == flow + stuck * p
    ensures base + d * flow + d * stuck * p == base + d * push
  {
    Associate(d, stuck, p);
    Distribute(d, flow, stuck * p);
  }

  /** What the three loops accumulate is one move of the random surfer. */
  lemma LoopsMakeStep(nodes: set<string>, g: Graph, pv: Weights, d: real, rank: Weights, start: Weights, dangling: real,
          spread: Weights, next: Weights)
    requires pv.Keys == rank.Keys == next.Keys == nodes
    requires Represents(start, Scaled(1.0 - d, Entries(pv)), nodes)
    requires Represents(spread, Received(g, Entries(rank), d, g.Keys, start), nodes)
    requires dangling == Sum(DanglingMass(g, Entries(rank)), nodes)
    requires forall id :: id in nodes ==> next[id] == spread[id] + d * dangling * pv[id]
    ensures Represents(next, Step(nodes, g, Entries(pv), d, Entries(rank)), nodes)
  {
    hide Step, Inflow, DanglingMass, Surfer, Push, Sum, OutWeight;
    var x, p := Entries(rank), Entries(pv);
    forall id | id in nodes ensures next[id] == Step(nodes, g, p, d, x)(id) {
      PushSplits(nodes, g, p, rank, id);
      Mix(d, start[id], Sum(Inflow(g, x, id), g.Keys), dangling, pv[id], Push(Surfer(g, p), nodes, x)(id));
      StepValue(nodes, g, p, d, x, id);
    }
  }

  lemma StepValue(nodes: set<string>, g: Graph, pv: Vector, d: real, x: Vector, id: string)
    ensures Step(nodes, g, pv, d, x)(id) == (1.0 - d) * pv(id) + d * Push(Surfer(g, pv), nodes, x)(id)
  {
  }

  ghost function Teleported(g: Graph, x: Vector, c: real): Vector { src => c * DanglingMass(g, x)(src) }

  lemma SurferShare(g: Graph, pv: Vector, x: Vector, id: string, src: string)
    ensures Column(Moved(Surfer(g, pv), x), id)(src) == Inflow(g, x, id)(src) + Teleported(g, x, pv(id))(src)
  {
    var c, m := pv(id), DanglingMass(g, x)(src);
    assert Teleported(g, x, c)(src) == c * m;
    if OutWeight(g, src) == 0.0 {
      assert Surfer(g, pv)(src, id) == c && m == x(src);
    } else {
      assert m == 0.0 && c * m == 0.0;
    }
  }

  lemma InflowNeedsNode(g: Graph, rank: Weights, id: string, src: string)
    requires src !in rank || src !in g
    ensures Inflow(g, Entries(rank), id)(src) == 0.0
  {
  }

  /** The mass arriving at id came along an edge, or by teleport from a dangling file. */
  lemma PushSplits(nodes: set<string>, g: Graph, pv: Vector, rank: Weights, id: string)
    requires rank.Keys == nodes
    ensures Push(Surfer(g, pv), nodes, Entries(rank))(id)
         == Sum(Inflow(g, Entries(rank), id), g.Keys) + Sum(DanglingMass(g, Entries(rank)), nodes) * pv(id)
  {
    var x := Entries(rank);
    var flow, tele := Inflow(g, x, id), Teleported(g, x, pv(id));
    TeleportedSum(g, x, pv(id), nodes);
    hide Inflow, Teleported, DanglingMass, Surfer, Sum, OutWeight, Column, Moved, Entries;
    forall src | src in nodes ensures Column(Moved(Surfer(g, pv), x), id)(src) == flow(src) + tele(src) {
      SurferShare(g, pv, x, id, src);
    }
    SumAdd(flow, tele, Column(Moved(Surfer(g, pv), x), id), nodes);
    forall src | src !in rank || src !in g ensures flow(src) == 0.0 {
      InflowNeedsNode(g, rank, id, src);
    }
    SumSupport(flow, nodes, nodes * g.Keys);
    SumSupport(flow, g.Keys, nodes * g.Keys);
  }

  lemma TeleportedSum(g: Graph, x: Vector, c: real, nodes: set<string>)
    ensures Sum(Teleported(g, x, c), nodes) == Sum(DanglingMass(g, x), nodes) * c
  {
    SumScale(DanglingMass(g, x), Teleported(g, x, c), c, nodes);
  }

  ghost function Rounds(iters: int): nat { if iters < 0 then 0 else iters }

  method UniformRanks(nodes: seq<string>) returns (rank: Weights)
    requires nodes != [] && Distinct(nodes)
    ensures Represents(rank, Uniform(Elements(nodes)), Elements(nodes))
  {
    hide Represents, Elements, Distinct;
    ElementCount(nodes);
    rank := map[];
    RepresentsNothing(Uniform(Elements(nodes)));
    NoElements(nodes);
    for i := 0 to |nodes|
      invariant Represents(rank, Uniform(Elements(nodes)), Elements(nodes[..i]))
    {
      RepresentsGrows(rank, Uniform(Elements(nodes)), nodes, i, 1.0 / |nodes| as real);
      rank := rank[nodes[i] := 1.0 / |nodes| as real];
    }
    assert nodes[..|nodes|] == nodes;
  }

  /** pageRank computes the iterates of the random surfer, whatever order the maps are walked in. */
  method Ranks(nodes: seq<string>, edges: Graph, personal: Weights, iters: int, damping: real) returns (rank: Weights)
    requires Distinct(nodes)
    requires forall src :: src in edges ==> edges[src].Keys <= Elements(nodes)
    ensures nodes == [] ==> rank == map[]
    ensures nodes != [] ==>
      Represents(rank, Iterate(Elements(nodes), edges, Teleport(Elements(nodes), personal), damping, Rounds(iters)),
                 Elements(nodes))
  {
    hide Represents, Elements, Distinct, Step, Teleport, Uniform, OutWeight, At;
    if |nodes| == 0 {
      return map[];
    }
    ghost var all := Elements(nodes);
    ghost var tele := Teleport(all, personal);
    var pv := Teleportation(nodes, personal);
    RepresentsKeys(pv, tele, all);
    var out := OutWeights(edges);
    rank := UniformRanks(nodes);
    var it := 0;
    while it < iters
      invariant 0 <= it <= Rounds(iters)
      invariant Represents(rank, Iterate(all, edges, tele, damping, it), all)
    {
      ghost var x := Iterate(all, edges, tele, damping, it);
      ghost var was := rank;
      RepresentsKeys(rank, x, all);
      rank := Iteration(nodes, edges, pv, out, damping, rank);
      StepRepresented(all, edges, pv, tele, damping, was, x, rank);
      it := it + 1;
    }
  }

  lemma StepRepresented(nodes: set<string>, g: Graph, pv: Weights, tele: Vector, d: real, was: Weights, x: Vector,
          next: Weights)
    requires Represents(pv, tele, nodes) && Represents(was, x, nodes)
    requires Represents(next, Step(nodes, g, Entries(pv), d, Entries(was)), nodes)
    ensures Represents(next, Step(nodes, g, tele, d, x), nodes)
  {
    forall id | id in nodes ensures next[id] == Step(nodes, g, tele, d, x)(id) {
      hide Step;
      StepAgrees(nodes, g, Entries(pv), tele, d, Entries(was), x, id);
    }
  }

  /** A step reads its vectors only on the nodes. */
  lemma StepAgrees(nodes: set<string>, g: Graph, pv: Vector, pv': Vector, d: real, x: Vector, x': Vector, id: string)
    requires id in nodes
    requires forall k :: k in nodes ==> pv(k) == pv'(k) && x(k) == x'(k)
    ensures Step(nodes, g, pv, d, x)(id) == Step(nodes, g, pv', d, x')(id)
  {
    hide *;
    PushAgrees(nodes, g, pv, pv', x, x', id);
    StepValue(nodes, g, pv, d, x, id);
    StepValue(nodes, g, pv', d, x', id);
    SameMix(d, pv(id), pv'(id), Push(Surfer(g, pv), nodes, x)(id), Push(Surfer(g, pv'), nodes, x')(id));
  }

  lemma SameMix(d: real, p: real, p': real, u: real, u': real)
    requires p == p' && u == u'
    ensures (1.0 - d) * p + d * u == (1.0 - d) * p' + d * u'
  {
  }

  lemma PushAgrees(nodes: set<string>, g: Graph, pv: Vector, pv': Vector, x: Vector, x': Vector, id: string)
    requires id in nodes
    requires forall k :: k in nodes ==> pv(k) == pv'(k) && x(k) == x'(k)
    ensures Push(Surfer(g, pv), nodes, x)(id) == Push(Surfer(g, pv'), nodes, x')(id)
  {
    var f, f' := Column(Moved(Surfer(g, pv), x), id), Column(Moved(Surfer(g, pv'), x'), id);
    forall src | src in nodes ensures f(src) == f'(src) {
      MoveAgrees(g, pv, pv', x, x', id, src);
    }
    hide Surfer, Moved, Column;
    SumEqual(f, f', nodes);
  }

  lemma MoveAgrees(g: Graph, pv: Vector, pv': Vector, x: Vector, x': Vector, id: string, src: string)
    requires pv(id) == pv'(id) && x(src) == x'(src)
    ensures Column(Moved(Surfer(g, pv), x), id)(src) == Column(Moved(Surfer(g, pv'), x'), id)(src)
  {
    assert Surfer(g, pv)(src, id) == Surfer(g, pv')(src, id);
  }
}
