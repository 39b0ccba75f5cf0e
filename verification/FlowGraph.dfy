/** The control flow graph and its pruning (ps3tool-core/GraphTools.cpp:12-50,
    ps3tool-core/Rewriter.cpp:104-155). */
module FlowGraph {
  import opened Branches
  import opened BasicBlocks

  datatype Edge = Edge(src: nat, dst: nat, weight: nat)

  /** A bidirectional adjacency list: vertices are numbered, parallel edges are kept. */
  datatype Graph = Graph(blocks: seq<Block>, edges: seq<Edge>)

  ghost predicate ValidGraph(g: Graph) {
    forall k :: 0 <= k < |g.edges| ==> g.edges[k].src < |g.blocks| && g.edges[k].dst < |g.blocks|
  }

  ghost predicate HasEdge(g: Graph, u: nat, w: nat) {
    exists k :: 0 <= k < |g.edges| && g.edges[k].src == u && g.edges[k].dst == w
  }

  // ---------------------------------------------------------------- building

  /** Where control can go from the end of a block without an indirect register. */
  function Targets(block: Block, analyze: Analysis): (r: seq<nat>)
    requires block.len >= 4
  {
    var last := block.start + block.len - 4;
    var info := analyze(last);
    (if info.flow && info.target.Some? then [info.target.value] else [])
      + (if info.flow && info.passthrough then [last + 4] else [])
  }

  predicate DistinctStarts(blocks: seq<Block>) {
    forall i, j :: 0 <= i < j < |blocks| ==> blocks[i].start != blocks[j].start
  }

  ghost predicate GoodBlocks(blocks: seq<Block>) {
    DistinctStarts(blocks) && forall i :: 0 <= i < |blocks| ==> blocks[i].len >= 4
  }

  /** There is an edge exactly where a block of the graph starts at a target, and it weighs 5 when
      it is the fallthrough and 1 otherwise. */
  ghost predicate EdgesAre(g: Graph, analyze: Analysis, vertices: nat)
    requires GoodBlocks(g.blocks) && vertices <= |g.blocks|
  {
    && (forall k :: 0 <= k < |g.edges| ==> EdgeOk(g, analyze, g.edges[k]))
    && (forall u :: 0 <= u < vertices ==> HasEdgesTo(g, u, Targets(g.blocks[u], analyze)))
  }

  ghost predicate HasEdgesTo(g: Graph, u: nat, targets: seq<nat>) {
    forall w :: 0 <= w < |g.blocks| && g.blocks[w].start in targets ==> HasEdge(g, u, w)
  }

  ghost predicate EdgeOk(g: Graph, analyze: Analysis, e: Edge)
    requires GoodBlocks(g.blocks)
  {
    && e.src < |g.blocks| && e.dst < |g.blocks|
    && g.blocks[e.dst].start in Targets(g.blocks[e.src], analyze)
    && e.weight == if g.blocks[e.dst].start == g.blocks[e.src].start + g.blocks[e.src].len then 5 else 1
  }

  predicate StartMapOf(startMap: map<nat, nat>, blocks: seq<Block>, n: nat)
    requires n <= |blocks|
  {
    && (forall va :: va in startMap ==> startMap[va] < n && blocks[startMap[va]].start == va)
    && (forall u :: 0 <= u < n ==> blocks[u].start in startMap)
  }

  function WeightOf(blocks: seq<Block>, u: nat, w: nat): nat
    requires u < |blocks| && w < |blocks|
  {
    if blocks[w].start == blocks[u].start + blocks[u].len then 5 else 1
  }

  /** From `u` to each block there are as many edges as targets where the block starts. */
  ghost predicate EdgeCounts(g: Graph, u: nat, targets: seq<nat>) {
    u < |g.blocks| && forall w :: 0 <= w < |g.blocks| ==> CountIs(g, u, w, targets)
  }

  ghost predicate CountIs(g: Graph, u: nat, w: nat, targets: seq<nat>)
    requires u < |g.blocks| && w < |g.blocks|
  {
    multiset(g.edges)[Edge(u, w, WeightOf(g.blocks, u, w))] == multiset(targets)[g.blocks[w].start]
  }

  /** Only edges from `v` were added. */
  ghost predicate SameBut(g: Graph, r: Graph, v: nat) {
    g.blocks == r.blocks && forall e: Edge :: e.src != v ==> multiset(r.edges)[e] == multiset(g.edges)[e]
  }

  lemma NoEdges(g: Graph, u: nat)
    requires g.edges == [] && u < |g.blocks|
    ensures EdgeCounts(g, u, [])
  {
    forall w | 0 <= w < |g.blocks| ensures CountIs(g, u, w, []) {}
  }

  lemma SameEdgeCounts(g: Graph, r: Graph, u: nat, targets: seq<nat>)
    requires EdgeCounts(g, u, targets) && g.blocks == r.blocks
    requires forall e: Edge :: e.src == u ==> multiset(r.edges)[e] == multiset(g.edges)[e]
    ensures EdgeCounts(r, u, targets)
  {
    forall w | 0 <= w < |r.blocks| ensures CountIs(r, u, w, targets) {
      assert CountIs(g, u, w, targets);
    }
  }

  lemma CountingTarget(g: Graph, e: Edge, done: seq<nat>)
    requires GoodBlocks(g.blocks) && e.src < |g.blocks| && e.dst < |g.blocks|
    requires e.weight == WeightOf(g.blocks, e.src, e.dst)
    requires EdgeCounts(g, e.src, done)
    ensures EdgeCounts(g.(edges := g.edges + [e]), e.src, done + [g.blocks[e.dst].start])
  {
    var more := g.(edges := g.edges + [e]);
    forall w | 0 <= w < |g.blocks| ensures CountIs(more, e.src, w, done + [g.blocks[e.dst].start]) {
      assert CountIs(g, e.src, w, done);
      assert w != e.dst ==> g.blocks[w].start != g.blocks[e.dst].start;
    }
  }

  lemma NoSuchBlock(g: Graph, u: nat, done: seq<nat>, target: nat)
    requires EdgeCounts(g, u, done) && forall w :: 0 <= w < |g.blocks| ==> g.blocks[w].start != target
    ensures EdgeCounts(g, u, done + [target])
  {
    forall w | 0 <= w < |g.blocks| ensures CountIs(g, u, w, done + [target]) {
      assert CountIs(g, u, w, done);
    }
  }

  method BuildGraph(blocks: seq<Block>, analyze: Analysis) returns (g: Graph)
    requires GoodBlocks(blocks)
    ensures g.blocks == blocks && EdgesAre(g, analyze, |blocks|)
    ensures forall u :: 0 <= u < |blocks| ==> EdgeCounts(g, u, Targets(blocks[u], analyze))
  {
    var startMap: map<nat, nat> := map[];
    for v := 0 to |blocks|
      invariant StartMapOf(startMap, blocks, v)
    {
      startMap := startMap[blocks[v].start := v];
    }
    g := Graph(blocks, []);
    forall u | 0 <= u < |blocks| ensures EdgeCounts(g, u, []) {
      NoEdges(g, u);
    }
    for v := 0 to |blocks|
      invariant g.blocks == blocks && EdgesAre(g, analyze, v)
      invariant forall u :: 0 <= u < |blocks| ==> EdgeCounts(g, u, if u < v then Targets(blocks[u], analyze) else [])
    {
      ghost var before := g;
      g := AddTargets(g, v, analyze, startMap);
      forall u | 0 <= u < |blocks| ensures EdgeCounts(g, u, if u < v + 1 then Targets(blocks[u], analyze) else []) {
        assert EdgeCounts(before, u, if u < v then Targets(blocks[u], analyze) else []);
        if u != v {
          SameEdgeCounts(before, g, u, if u < v then Targets(blocks[u], analyze) else []);
        }
      }
    }
  }

  /** `r` is `g` with edges from `v` for the targets `done`. */
  ghost predicate Adding(g: Graph, r: Graph, v: nat, analyze: Analysis, done: seq<nat>) {
    && GoodBlocks(r.blocks) && v < |r.blocks| && SameBut(g, r, v)
    && EdgesAre(r, analyze, v) && HasEdgesTo(r, v, done) && EdgeCounts(r, v, done)
  }

  method AddTargets(g: Graph, v: nat, analyze: Analysis, startMap: map<nat, nat>) returns (r: Graph)
    requires GoodBlocks(g.blocks) && v < |g.blocks| && EdgesAre(g, analyze, v)
    requires StartMapOf(startMap, g.blocks, |g.blocks|) && EdgeCounts(g, v, [])
    ensures r.blocks == g.blocks && EdgesAre(r, analyze, v + 1) && EdgeCounts(r, v, Targets(g.blocks[v], analyze))
    ensures SameBut(g, r, v)
  {
    r := AddEach(g, v, analyze, Targets(g.blocks[v], analyze), startMap);
  }

  method AddEach(g: Graph, v: nat, analyze: Analysis, targets: seq<nat>, startMap: map<nat, nat>) returns (r: Graph)
    requires Adding(g, g, v, analyze, []) && targets == Targets(g.blocks[v], analyze)
    requires StartMapOf(startMap, g.blocks, |g.blocks|)
    ensures Adding(g, r, v, analyze, targets)
  {
    r := g;
    for i := 0 to |targets|
      invariant Adding(g, r, v, analyze, targets[..i])
    {
      ghost var before := r;
      if targets[i] in startMap {
        var weight := if targets[i] == g.blocks[v].start + g.blocks[v].len then 5 else 1;
        r := r.(edges := r.edges + [Edge(v, startMap[targets[i]], weight)]);
      }
      TargetDone(g, before, r, v, analyze, targets[..i], targets[i], startMap);
      assert targets[..i + 1] == targets[..i] + [targets[i]];
    }
    assert targets[..|targets|] == targets;
  }

  lemma TargetDone(g: Graph, before: Graph, r: Graph, v: nat, analyze: Analysis, done: seq<nat>, target: nat,
                   startMap: map<nat, nat>)
    requires Adding(g, before, v, analyze, done) && StartMapOf(startMap, before.blocks, |before.blocks|)
    requires target in Targets(before.blocks[v], analyze)
    requires r == if target in startMap
      then before.(edges := before.edges + [Edge(v, startMap[target], WeightOf(before.blocks, v, startMap[target]))])
      else before
    ensures Adding(g, r, v, analyze, done + [target])
  {
    if target in startMap {
      var e := Edge(v, startMap[target], WeightOf(before.blocks, v, startMap[target]));
      AddingTarget(before, e, analyze, v, done);
      CountingTarget(before, e, done);
    } else {
      NoSuchBlock(before, v, done, target);
    }
  }

  lemma AddingTarget(g: Graph, e: Edge, analyze: Analysis, v: nat, done: seq<nat>)
    requires GoodBlocks(g.blocks) && v < |g.blocks| && EdgesAre(g, analyze, v)
    requires EdgeOk(g, analyze, e) && e.src == v && HasEdgesTo(g, v, done)
    ensures var more := g.(edges := g.edges + [e]);
      EdgesAre(more, analyze, v) && HasEdgesTo(more, v, done + [g.blocks[e.dst].start])
  {
    var more := g.(edges := g.edges + [e]);
    AddingEdge(g, e);
    forall k | 0 <= k < |more.edges| ensures EdgeOk(more, analyze, more.edges[k]) {
      assert k < |g.edges| ==> EdgeOk(g, analyze, g.edges[k]);
    }
    forall u | 0 <= u < v ensures HasEdgesTo(more, u, Targets(g.blocks[u], analyze)) {
      assert HasEdgesTo(g, u, Targets(g.blocks[u], analyze));
    }
    forall w | 0 <= w < |g.blocks| && g.blocks[w].start in done + [g.blocks[e.dst].start]
      ensures HasEdge(more, v, w)
    {
      if w != e.dst {
        assert g.blocks[w].start != g.blocks[e.dst].start;
      }
    }
  }

  lemma AddingEdge(g: Graph, e: Edge)
    ensures forall u: nat, w: nat :: HasEdge(g.(edges := g.edges + [e]), u, w) <==>
      HasEdge(g, u, w) || (e.src == u && e.dst == w)
  {
    var more := g.(edges := g.edges + [e]);
    forall u: nat, w: nat
      ensures HasEdge(more, u, w) <==> HasEdge(g, u, w) || (e.src == u && e.dst == w)
    {
      if HasEdge(g, u, w) {
        var k :| 0 <= k < |g.edges| && g.edges[k].src == u && g.edges[k].dst == w;
        assert more.edges[k] == g.edges[k];
      }
      assert more.edges[|g.edges|] == e;
    }
  }

  // ---------------------------------------------------------------- reachability

  ghost predicate IsPath(g: Graph, path: seq<nat>) {
    path != [] && forall i :: 0 < i < |path| ==> HasEdge(g, path[i - 1], path[i])
  }

  ghost predicate PathFromTo(g: Graph, path: seq<nat>, u: nat, w: nat) {
    IsPath(g, path) && path[0] == u && path[|path| - 1] == w
  }

  ghost predicate Reaches(g: Graph, u: nat, w: nat) {
    exists path :: PathFromTo(g, path, u, w)
  }

  lemma ReachesItself(g: Graph, u: nat)
    ensures Reaches(g, u, u)
  {
    assert PathFromTo(g, [u], u, u);
  }

  lemma EdgeThenReaches(g: Graph, x: nat, u: nat, w: nat)
    requires HasEdge(g, x, u) && Reaches(g, u, w)
    ensures Reaches(g, x, w)
  {
    var path :| PathFromTo(g, path, u, w);
    assert PathFromTo(g, [x] + path, x, w);
  }

  /** A set that is closed under predecessors and holds `w` holds everything that reaches `w`. */
  lemma {:induction false} ClosedHoldsReaching(g: Graph, marks: seq<bool>, path: seq<nat>, u: nat, w: nat)
    requires PathFromTo(g, path, u, w) && ValidGraph(g) && |marks| == |g.blocks|
    requires w < |marks| && marks[w]
    requires forall x: nat, y: nat :: x < |marks| && y < |marks| && HasEdge(g, x, y) && marks[y] ==> marks[x]
    ensures u < |marks| && marks[u]
    decreases |path|
  {
    if |path| > 1 {
      assert HasEdge(g, path[0], path[1]);
      assert PathFromTo(g, path[1..], path[1], w);
      ClosedHoldsReaching(g, marks, path[1..], path[1], w);
    }
  }

  // ---------------------------------------------------------------- the reverse depth-first visit

  /** Every marked vertex outside the stack has all its predecessors marked. */
  ghost predicate ClosedExcept(g: Graph, marks: seq<bool>, stack: seq<nat>) {
    forall k :: 0 <= k < |g.edges| ==> ClosedAt(marks, stack, g.edges[k])
  }

  ghost predicate ClosedAt(marks: seq<bool>, stack: seq<nat>, e: Edge) {
    e.src < |marks| && e.dst < |marks| && (marks[e.dst] && e.dst !in stack ==> marks[e.src])
  }

  function White(color: seq<bool>): nat {
    if color == [] then 0 else White(color[1..]) + (if color[0] then 0 else 1)
  }

  lemma {:induction false} WhiteDrops(color: seq<bool>, x: nat)
    requires x < |color| && !color[x]
    ensures White(color[x := true]) == White(color) - 1
  {
    if x == 0 {
      assert color[x := true][1..] == color[1..];
    } else {
      assert color[x := true][1..] == color[1..][x - 1 := true];
      WhiteDrops(color[1..], x - 1);
    }
  }

  /** What the visit from `v` keeps: the coloured vertices reach `v` and hold the stack. */
  ghost predicate Visiting(g: Graph, v: nat, color: seq<bool>, stack: seq<nat>) {
    && v < |color| == |g.blocks| && color[v]
    && (forall x: nat :: x < |color| && color[x] ==> Reaches(g, x, v))
    && (forall x :: x in stack ==> x < |color| && color[x])
  }

  predicate MarkedAlso(invalid: seq<bool>, was: seq<bool>, color: seq<bool>)
    requires |invalid| == |was| == |color|
  {
    forall u :: 0 <= u < |was| ==> (invalid[u] <==> was[u] || color[u])
  }

  /** `depth_first_visit` on the reversed graph from `v`, with all colours white at the start. */
  method MarkReaching(g: Graph, v: nat, invalid: array<bool>)
    requires ValidGraph(g) && v < |g.blocks| == invalid.Length
    modifies invalid
    ensures forall u :: 0 <= u < invalid.Length ==> (invalid[u] <==> old(invalid[u]) || Reaches(g, u, v))
  {
    var color := new bool[|g.blocks|](_ => false);
    ghost var was := invalid[..];
    color[v], invalid[v] := true, true;
    ReachesItself(g, v);
    var stack: seq<nat> := [v];
    while stack != []
      invariant Visiting(g, v, color[..], stack)
      invariant ClosedExcept(g, color[..], stack)
      invariant MarkedAlso(invalid[..], was, color[..])
      decreases 2 * White(color[..]) + |stack|
    {
      ghost var full := stack;
      var u := stack[|stack| - 1];
      stack := stack[..|stack| - 1];
      assert u in full && full == stack + [u];
      assert forall x :: x in stack ==> x in full;
      stack := Discover(g, v, u, stack, color, invalid, was);
    }
    forall u: nat | u < |g.blocks| && Reaches(g, u, v) ensures color[u] {
      var path :| PathFromTo(g, path, u, v);
      ClosedHoldsReaching(g, color[..], path, u, v);
    }
    assert forall u :: 0 <= u < invalid.Length ==> invalid[..][u] == invalid[u] && color[..][u] == color[u];
  }

  /** Colour, mark and push the white predecessors of `u`. */
  method Discover(g: Graph, v: nat, u: nat, rest: seq<nat>, color: array<bool>, invalid: array<bool>,
                  ghost was: seq<bool>) returns (stack: seq<nat>)
    requires ValidGraph(g) && color.Length == invalid.Length == |was| && color != invalid
    requires Visiting(g, v, color[..], rest) && u < color.Length && color[u]
    requires ClosedExcept(g, color[..], rest + [u]) && MarkedAlso(invalid[..], was, color[..])
    modifies color, invalid
    ensures Visiting(g, v, color[..], stack) && ClosedExcept(g, color[..], stack)
    ensures MarkedAlso(invalid[..], was, color[..])
    ensures 2 * White(color[..]) + |stack| <= 2 * old(White(color[..])) + |rest|
  {
    stack := rest;
    for k := 0 to |g.edges|
      invariant Visiting(g, v, color[..], stack) && color[u]
      invariant ClosedExcept(g, color[..], stack + [u])
      invariant forall j :: 0 <= j < k && g.edges[j].dst == u ==> color[g.edges[j].src]
      invariant MarkedAlso(invalid[..], was, color[..])
      invariant 2 * White(color[..]) + |stack| <= 2 * old(White(color[..])) + |rest|
    {
      var e := g.edges[k];
      if e.dst == u && !color[e.src] {
        assert HasEdge(g, e.src, u) && color[..][u];
        EdgeThenReaches(g, e.src, u, v);
        ghost var before := color[..];
        WhiteDrops(before, e.src);
        PushingKeepsClosed(g, before, stack, u, e.src);
        color[e.src], invalid[e.src] := true, true;
        assert color[..] == before[e.src := true];
        stack := stack + [e.src];
      }
    }
    forall k | 0 <= k < |g.edges| ensures ClosedAt(color[..], stack, g.edges[k]) {
      assert ClosedAt(color[..], stack + [u], g.edges[k]);
    }
  }

  lemma PushingKeepsClosed(g: Graph, marks: seq<bool>, stack: seq<nat>, u: nat, x: nat)
    requires ClosedExcept(g, marks, stack + [u]) && x < |marks|
    ensures ClosedExcept(g, marks[x := true], stack + [x] + [u])
  {
    forall k | 0 <= k < |g.edges| ensures ClosedAt(marks[x := true], stack + [x] + [u], g.edges[k]) {
      assert ClosedAt(marks, stack + [u], g.edges[k]);
    }
  }

  // ---------------------------------------------------------------- removing

  /** `v` reaches a vertex whose block is to be removed. */
  ghost predicate Condemned(g: Graph, removeIf: Block -> bool, v: nat, upTo: nat) {
    exists w :: 0 <= w < upTo && w < |g.blocks| && removeIf(g.blocks[w]) && Reaches(g, v, w)
  }

  /** The number of surviving vertices before `v`. */
  function Rank(invalid: seq<bool>, v: nat): (r: nat)
    requires v <= |invalid|
    ensures r <= v
  {
    if v == 0 then 0 else Rank(invalid, v - 1) + (if invalid[v - 1] then 0 else 1)
  }

  function KeptBlocks(blocks: seq<Block>, invalid: seq<bool>): (r: seq<Block>)
    requires |blocks| == |invalid|
    ensures |r| == Rank(invalid, |invalid|)
  {
    if blocks == [] then []
    else
      var last := |blocks| - 1;
      assert Rank(invalid, last) == Rank(invalid[..last], last) by { RankOfPrefix(invalid, last, last); }
      KeptBlocks(blocks[..last], invalid[..last]) + (if invalid[last] then [] else [blocks[last]])
  }

  lemma {:induction false} RankOfPrefix(invalid: seq<bool>, n: nat, v: nat)
    requires v <= n <= |invalid|
    ensures Rank(invalid[..n], v) == Rank(invalid, v)
  {
    if v > 0 {
      RankOfPrefix(invalid, n, v - 1);
    }
  }

  function KeptEdges(edges: seq<Edge>, invalid: seq<bool>): seq<Edge>
    requires forall k :: 0 <= k < |edges| ==> edges[k].src < |invalid| && edges[k].dst < |invalid|
  {
    if edges == [] then []
    else
      var last := |edges| - 1;
      KeptEdges(edges[..last], invalid) +
        (if invalid[edges[last].src] || invalid[edges[last].dst] then []
         else [edges[last].(src := Rank(invalid, edges[last].src), dst := Rank(invalid, edges[last].dst))])
  }

  /** `removeInvalidVertices`: a copy of the graph restricted to the vertices not marked. */
  method RemoveInvalid(g: Graph, invalid: array<bool>) returns (r: Graph)
    requires ValidGraph(g) && invalid.Length == |g.blocks|
    ensures r == Graph(KeptBlocks(g.blocks, invalid[..]), KeptEdges(g.edges, invalid[..]))
  {
    var blocks, index := KeepBlocks(g.blocks, invalid);
    var edges := CopyEdges(g, invalid, index);
    r := Graph(blocks, edges);
  }

  method KeepBlocks(all: seq<Block>, invalid: array<bool>) returns (blocks: seq<Block>, index: array<nat>)
    requires invalid.Length == |all|
    ensures blocks == KeptBlocks(all, invalid[..]) && fresh(index) && index.Length == |all|
    ensures forall u {:trigger index[u]} :: 0 <= u < |all| ==> index[u] == Rank(invalid[..], u)
  {
    var n := |all|;
    index := new nat[n];
    blocks := [];
    for v := 0 to n
      invariant blocks == KeptBlocks(all[..v], invalid[..v])
      invariant forall u {:trigger index[u]} :: 0 <= u < v ==> index[u] == Rank(invalid[..], u)
    {
      RankOfPrefix(invalid[..], v, v);
      index[v] := |blocks|;
      KeptBlocksStep(all, invalid[..], v);
      if !invalid[v] {
        blocks := blocks + [all[v]];
      }
    }
    assert all[..n] == all && invalid[..n] == invalid[..];
  }

  method CopyEdges(g: Graph, invalid: array<bool>, index: array<nat>) returns (edges: seq<Edge>)
    requires ValidGraph(g) && invalid.Length == index.Length == |g.blocks|
    requires forall u {:trigger index[u]} :: 0 <= u < index.Length ==> index[u] == Rank(invalid[..], u)
    ensures edges == KeptEdges(g.edges, invalid[..])
  {
    edges := [];
    for k := 0 to |g.edges|
      invariant edges == KeptEdges(g.edges[..k], invalid[..])
    {
      var e := g.edges[k];
      assert g.edges[..k + 1][..k] == g.edges[..k];
      if !invalid[e.src] && !invalid[e.dst] {
        edges := edges + [e.(src := index[e.src], dst := index[e.dst])];
      }
    }
    assert g.edges[..|g.edges|] == g.edges;
  }

  lemma KeptBlocksStep(blocks: seq<Block>, invalid: seq<bool>, v: nat)
    requires v < |blocks| == |invalid|
    ensures KeptBlocks(blocks[..v + 1], invalid[..v + 1]) ==
      KeptBlocks(blocks[..v], invalid[..v]) + (if invalid[v] then [] else [blocks[v]])
  {
    assert blocks[..v + 1][..v] == blocks[..v] && invalid[..v + 1][..v] == invalid[..v];
  }

  /** `removeVertices`: exactly the vertices from which some vertex with a block to be removed can
      be reached are marked, and the marked ones are gone from the result. */
  method RemoveVertices(g: Graph, removeIf: Block -> bool) returns (r: Graph, invalid: array<bool>)
    requires ValidGraph(g)
    ensures fresh(invalid) && invalid.Length == |g.blocks|
    ensures forall u :: 0 <= u < |g.blocks| ==> (invalid[u] <==> Condemned(g, removeIf, u, |g.blocks|))
    ensures r == Graph(KeptBlocks(g.blocks, invalid[..]), KeptEdges(g.edges, invalid[..]))
  {
    invalid := new bool[|g.blocks|](_ => false);
    for v := 0 to |g.blocks|
      invariant forall u :: 0 <= u < |g.blocks| ==> (invalid[u] <==> Condemned(g, removeIf, u, v))
    {
      if removeIf(g.blocks[v]) {
        MarkReaching(g, v, invalid);
      }
      forall u | 0 <= u < |g.blocks|
        ensures Condemned(g, removeIf, u, v + 1) <==>
          Condemned(g, removeIf, u, v) || (removeIf(g.blocks[v]) && Reaches(g, u, v))
      {
      }
    }
    r := RemoveInvalid(g, invalid);
  }

  // ---------------------------------------------------------------- what pruning leaves

  lemma {:induction false} RankIsMonotone(invalid: seq<bool>, u: nat, w: nat)
    requires u < w <= |invalid| && !invalid[u]
    ensures Rank(invalid, u) < Rank(invalid, w)
    decreases w
  {
    if u < w - 1 {
      RankIsMonotone(invalid, u, w - 1);
    }
  }

  /** A surviving vertex keeps its block, at its rank. */
  lemma {:induction false} SurvivorKeepsBlock(blocks: seq<Block>, invalid: seq<bool>, v: nat)
    requires v < |blocks| == |invalid| && !invalid[v]
    ensures Rank(invalid, v) < |KeptBlocks(blocks, invalid)|
    ensures KeptBlocks(blocks, invalid)[Rank(invalid, v)] == blocks[v]
  {
    var last := |blocks| - 1;
    RankOfPrefix(invalid, last, last);
    if v < last {
      SurvivorKeepsBlock(blocks[..last], invalid[..last], v);
      RankOfPrefix(invalid, last, v);
    }
  }

  /** Every vertex of the result is a survivor. */
  lemma {:induction false} SurvivorOfRank(blocks: seq<Block>, invalid: seq<bool>, i: nat) returns (v: nat)
    requires |blocks| == |invalid| && i < |KeptBlocks(blocks, invalid)|
    ensures v < |blocks| && !invalid[v] && Rank(invalid, v) == i
  {
    var last := |blocks| - 1;
    RankOfPrefix(invalid, last, last);
    if i < |KeptBlocks(blocks[..last], invalid[..last])| {
      v := SurvivorOfRank(blocks[..last], invalid[..last], i);
      RankOfPrefix(invalid, last, v);
    } else {
      v := last;
    }
  }

  /** The result has the edges of the original between survivors, and no others. */
  lemma {:induction false} SurvivorsKeepEdges(g: Graph, invalid: seq<bool>, u: nat, w: nat)
    requires ValidGraph(g) && |invalid| == |g.blocks| && u < |invalid| && w < |invalid| && !invalid[u] && !invalid[w]
    ensures HasEdge(Graph([], KeptEdges(g.edges, invalid)), Rank(invalid, u), Rank(invalid, w)) <==> HasEdge(g, u, w)
    decreases |g.edges|
  {
    if g.edges != [] {
      var last := |g.edges| - 1;
      var e, rest := g.edges[last], g.(edges := g.edges[..last]);
      SurvivorsKeepEdges(rest, invalid, u, w);
      AddingEdge(rest, e);
      assert g.edges == rest.edges + [e] && g == rest.(edges := rest.edges + [e]);
      var before := Graph([], KeptEdges(rest.edges, invalid));
      if !invalid[e.src] && !invalid[e.dst] {
        var kept := e.(src := Rank(invalid, e.src), dst := Rank(invalid, e.dst));
        AddingEdge(before, kept);
        assert Graph([], KeptEdges(g.edges, invalid)) == before.(edges := before.edges + [kept]);
        RankIsInjective(invalid, e.src, u);
        RankIsInjective(invalid, e.dst, w);
      } else {
        assert Graph([], KeptEdges(g.edges, invalid)) == before;
      }
    }
  }

  lemma RankIsInjective(invalid: seq<bool>, u: nat, w: nat)
    requires u < |invalid| && w < |invalid| && !invalid[u] && !invalid[w]
    ensures Rank(invalid, u) == Rank(invalid, w) <==> u == w
  {
    if u < w {
      RankIsMonotone(invalid, u, w);
    } else if w < u {
      RankIsMonotone(invalid, w, u);
    }
  }

  /** The marks `RemoveVertices` leaves. */
  ghost predicate Pruned(g: Graph, removeIf: Block -> bool, invalid: seq<bool>) {
    |invalid| == |g.blocks| &&
    forall u :: 0 <= u < |g.blocks| ==> (invalid[u] <==> Condemned(g, removeIf, u, |g.blocks|))
  }

  /** No survivor is to be removed itself or has an edge to a vertex that was removed. */
  lemma SurvivorsAreClosed(g: Graph, removeIf: Block -> bool, invalid: seq<bool>, u: nat, w: nat)
    requires ValidGraph(g) && Pruned(g, removeIf, invalid) && u < |g.blocks| && !invalid[u]
    ensures !removeIf(g.blocks[u])
    ensures HasEdge(g, u, w) ==> w < |g.blocks| && !invalid[w]
  {
    ReachesItself(g, u);
    if HasEdge(g, u, w) && w < |g.blocks| && invalid[w] {
      var bad :| 0 <= bad < |g.blocks| && removeIf(g.blocks[bad]) && Reaches(g, w, bad);
      EdgeThenReaches(g, u, w, bad);
    }
  }

  function LastOf(block: Block): nat
    requires block.len >= 4
  {
    block.start + block.len - 4
  }

  /** Control leaves `block` by a branch that does not go through a register. */
  predicate LeavesDirectly(block: Block, code: nat -> nat, s: BranchState)
    requires block.len >= 4
  {
    var cia := LastOf(block);
    IsBranch(code(cia)) && (!Taken(code(cia), s) || Analyze(code(cia), cia).target.Some?)
  }

  function NextFrom(block: Block, code: nat -> nat, s: BranchState): nat
    requires block.len >= 4 && IsBranch(code(LastOf(block)))
  {
    Execute(code(LastOf(block)), LastOf(block), s).nip
  }

  lemma DirectTargetIsListed(block: Block, code: nat -> nat, s: BranchState)
    requires block.len >= 4 && LeavesDirectly(block, code, s)
    ensures NextFrom(block, code, s) in Targets(block, AnalysisOf(code))
  {
    AnalyzeIsSound(code(LastOf(block)), LastOf(block), s);
  }

  /** Some state makes the branch at the end of `block` go to `va` without a register, or the branch
      links and a return from what it calls comes to `va`. */
  ghost predicate CanLeadTo(block: Block, code: nat -> nat, va: nat)
    requires block.len >= 4
  {
    CanJumpTo(code(LastOf(block)), LastOf(block), va) || CanPassTo(code(LastOf(block)), LastOf(block), va)
  }

  /** In how many of the two ways. */
  ghost function Ways(block: Block, code: nat -> nat, va: nat): nat
    requires block.len >= 4
  {
    var cia := LastOf(block);
    (if CanJumpTo(code(cia), cia, va) then 1 else 0) + (if CanPassTo(code(cia), cia, va) then 1 else 0)
  }

  /** The targets are the places the branch can lead to in some state, each as often as there are ways. */
  lemma TargetsAreWays(block: Block, code: nat -> nat, va: nat)
    requires block.len >= 4
    ensures multiset(Targets(block, AnalysisOf(code)))[va] == Ways(block, code, va)
    ensures va in Targets(block, AnalysisOf(code)) <==> CanLeadTo(block, code, va)
  {
    AnalyzeIsExact(code(LastOf(block)), LastOf(block), va);
  }

  /** The graph has an edge exactly where the branch at the end of the one block can lead to the start
      of the other: none is missing and none is there in vain. */
  lemma EdgesAreBranches(g: Graph, code: nat -> nat, u: nat, w: nat)
    requires GoodBlocks(g.blocks) && EdgesAre(g, AnalysisOf(code), |g.blocks|) && u < |g.blocks| && w < |g.blocks|
    ensures HasEdge(g, u, w) <==> CanLeadTo(g.blocks[u], code, g.blocks[w].start)
  {
    TargetsAreWays(g.blocks[u], code, g.blocks[w].start);
    assert HasEdgesTo(g, u, Targets(g.blocks[u], AnalysisOf(code)));
    if HasEdge(g, u, w) {
      var k :| 0 <= k < |g.edges| && g.edges[k].src == u && g.edges[k].dst == w;
      assert EdgeOk(g, AnalysisOf(code), g.edges[k]);
    }
  }

  /** And it has as many edges as there are ways. */
  lemma EdgeForEachWay(g: Graph, code: nat -> nat, u: nat, w: nat)
    requires u < |g.blocks| && w < |g.blocks| && g.blocks[u].len >= 4
    requires EdgeCounts(g, u, Targets(g.blocks[u], AnalysisOf(code)))
    ensures multiset(g.edges)[Edge(u, w, WeightOf(g.blocks, u, w))] == Ways(g.blocks[u], code, g.blocks[w].start)
  {
    TargetsAreWays(g.blocks[u], code, g.blocks[w].start);
    assert CountIs(g, u, w, Targets(g.blocks[u], AnalysisOf(code)));
  }

  lemma TargetIsStart(blocks: seq<Block>, start: nat, len: nat, leads: set<nat>, analyze: Analysis, u: nat, va: nat)
    requires Segment(start, len) && Discovered(blocks, start, len, leads, analyze)
    requires u < |blocks| && blocks[u].len >= 4 && va in Targets(blocks[u], analyze) && InSegment(start, len, va)
    ensures IsStart(blocks, va)
  {
    Aligned(blocks, start, start + len, u);
    assert Breaks(analyze, LastOf(blocks[u]), va);
  }

  lemma SurvivorAtTarget(g: Graph, analyze: Analysis, removeIf: Block -> bool, invalid: seq<bool>, u: nat, w: nat)
    requires GoodBlocks(g.blocks) && EdgesAre(g, analyze, |g.blocks|) && Pruned(g, removeIf, invalid)
    requires u < |g.blocks| && !invalid[u] && w < |g.blocks| && g.blocks[w].start in Targets(g.blocks[u], analyze)
    ensures !invalid[w] && !removeIf(g.blocks[w])
  {
    assert HasEdgesTo(g, u, Targets(g.blocks[u], analyze));
    forall k | 0 <= k < |g.edges| ensures g.edges[k].src < |g.blocks| && g.edges[k].dst < |g.blocks| {
      assert EdgeOk(g, analyze, g.edges[k]);
    }
    SurvivorsAreClosed(g, removeIf, invalid, u, w);
    SurvivorsAreClosed(g, removeIf, invalid, w, w);
  }

  /** From the last instruction of a surviving block a branch that does not go through a register
      either leaves the segment or lands on the start of a surviving block. */
  lemma PrunedCodeIsClosed(start: nat, len: nat, leads: set<nat>, code: nat -> nat, g: Graph, removeIf: Block -> bool,
                           invalid: seq<bool>, u: nat, s: BranchState)
      returns (w: nat)
    requires Segment(start, len) && Discovered(g.blocks, start, len, leads, AnalysisOf(code))
    requires GoodBlocks(g.blocks) && EdgesAre(g, AnalysisOf(code), |g.blocks|) && Pruned(g, removeIf, invalid)
    requires u < |g.blocks| && !invalid[u] && LeavesDirectly(g.blocks[u], code, s)
    requires InSegment(start, len, NextFrom(g.blocks[u], code, s))
    ensures w < |g.blocks| && !invalid[w] && !removeIf(g.blocks[w])
    ensures g.blocks[w].start == NextFrom(g.blocks[u], code, s)
  {
    DirectTargetIsListed(g.blocks[u], code, s);
    var nip := NextFrom(g.blocks[u], code, s);
    TargetIsStart(g.blocks, start, len, leads, AnalysisOf(code), u, nip);
    w :| 0 <= w < |g.blocks| && g.blocks[w].start == nip;
    SurvivorAtTarget(g, AnalysisOf(code), removeIf, invalid, u, w);
  }

  /** A block that ends only because the next address is a break gets no edge, so it survives even
      when it runs straight into a block that is removed: the graph follows branches alone. */
  lemma StraightFallthroughHasNoEdge(g: Graph, analyze: Analysis, u: nat, w: nat)
    requires GoodBlocks(g.blocks) && EdgesAre(g, analyze, |g.blocks|) && u < |g.blocks|
    requires !analyze(g.blocks[u].start + g.blocks[u].len - 4).flow
    ensures !HasEdge(g, u, w) && (forall removeIf: Block -> bool ::
      Condemned(g, removeIf, u, |g.blocks|) <==> removeIf(g.blocks[u]))
  {
    forall v: nat ensures !HasEdge(g, u, v) {
    }
    ReachesItself(g, u);
    forall removeIf: Block -> bool
      ensures Condemned(g, removeIf, u, |g.blocks|) <==> removeIf(g.blocks[u])
    {
      if Condemned(g, removeIf, u, |g.blocks|) {
        var v :| 0 <= v < |g.blocks| && removeIf(g.blocks[v]) && Reaches(g, u, v);
        ReachesOnlyItself(g, u, v);
      }
    }
  }

  lemma FirstStep(g: Graph, path: seq<nat>, u: nat, v: nat)
    requires PathFromTo(g, path, u, v) && u != v
    ensures |path| > 1 && HasEdge(g, u, path[1])
  {
    assert path[0] == u;
  }

  lemma ReachesOnlyItself(g: Graph, u: nat, v: nat)
    requires Reaches(g, u, v) && forall w: nat :: !HasEdge(g, u, w)
    ensures u == v
  {
    var path :| PathFromTo(g, path, u, v);
    if u != v {
      FirstStep(g, path, u, v);
    }
  }

  lemma ReachesThrough(g: Graph, u: nat, v: nat, w: nat)
    requires Reaches(g, u, v) && Reaches(g, v, w)
    ensures Reaches(g, u, w)
  {
    var a :| PathFromTo(g, a, u, v);
    var b :| PathFromTo(g, b, v, w);
    JoinedPath(g, a, b, u, v, w);
  }

  lemma JoinedPath(g: Graph, a: seq<nat>, b: seq<nat>, u: nat, v: nat, w: nat)
    requires PathFromTo(g, a, u, v) && PathFromTo(g, b, v, w)
    ensures PathFromTo(g, a + b[1..], u, w)
  {
    var path := a + b[1..];
    forall i | 0 < i < |path| ensures HasEdge(g, path[i - 1], path[i]) {
      if i >= |a| {
        assert path[i] == b[i - |a| + 1] && path[i - 1] == b[i - |a|];
      }
    }
    assert |b| > 1 ==> path[|path| - 1] == b[|b| - 1];
  }

  /** The survival of `u` guarantees that of `w`, whatever is to be removed, exactly if the graph has a
      path from `u` to `w`. For the block that `u` falls into, that takes an edge the graph lacks when
      `u` runs straight on. */
  lemma SurvivalCarriesOverIff(g: Graph, u: nat, w: nat)
    requires GoodBlocks(g.blocks) && u < |g.blocks| && w < |g.blocks|
    ensures (forall removeIf: Block -> bool ::
        !Condemned(g, removeIf, u, |g.blocks|) ==> !Condemned(g, removeIf, w, |g.blocks|))
      <==> Reaches(g, u, w)
  {
    if Reaches(g, u, w) {
      forall removeIf: Block -> bool | Condemned(g, removeIf, w, |g.blocks|)
        ensures Condemned(g, removeIf, u, |g.blocks|)
      {
        var bad :| 0 <= bad < |g.blocks| && removeIf(g.blocks[bad]) && Reaches(g, w, bad);
        ReachesThrough(g, u, w, bad);
      }
    } else {
      var removeIf := (b: Block) => b == g.blocks[w];
      ReachesItself(g, w);
      assert Condemned(g, removeIf, w, |g.blocks|);
      forall bad: nat | bad < |g.blocks| && removeIf(g.blocks[bad]) ensures !Reaches(g, u, bad) {
        assert bad == w;
      }
      assert !Condemned(g, removeIf, u, |g.blocks|);
    }
  }

  lemma NoFlowNoEdges(g: Graph, analyze: Analysis)
    requires GoodBlocks(g.blocks) && g.edges == []
    requires forall u :: 0 <= u < |g.blocks| ==> !analyze(g.blocks[u].start + g.blocks[u].len - 4).flow
    ensures EdgesAre(g, analyze, |g.blocks|)
  {
    forall u | 0 <= u < |g.blocks| ensures HasEdgesTo(g, u, Targets(g.blocks[u], analyze)) {
      assert Targets(g.blocks[u], analyze) == [];
    }
  }

  lemma OnlyItselfCondemns(g: Graph, removeIf: Block -> bool, u: nat)
    requires g.edges == [] && u < |g.blocks|
    ensures Condemned(g, removeIf, u, |g.blocks|) <==> removeIf(g.blocks[u])
  {
    ReachesItself(g, u);
    forall v: nat | Reaches(g, u, v) ensures v == u {
      ReachesOnlyItself(g, u, v);
    }
  }

  /** Two blocks of one instruction each; the first is no branch, so it runs into the second. With the
      second removed the first stays. */
  lemma FallsIntoRemoved(analyze: Analysis, removeIf: Block -> bool)
    requires !analyze(0).flow && !analyze(4).flow && forall b: Block :: removeIf(b) <==> b.start == 4
    ensures var g := Graph([Block(0, 4), Block(4, 4)], []);
      GoodBlocks(g.blocks) && EdgesAre(g, analyze, 2) &&
      !Condemned(g, removeIf, 0, 2) && Condemned(g, removeIf, 1, 2)
  {
    var g := Graph([Block(0, 4), Block(4, 4)], []);
    assert g.blocks[0] == Block(0, 4) && g.blocks[1] == Block(4, 4);
    NoFlowNoEdges(g, analyze);
    OnlyItselfCondemns(g, removeIf, 0);
    OnlyItselfCondemns(g, removeIf, 1);
  }
}
