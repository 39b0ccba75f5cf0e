/** The whole way from a segment of machine code to emitted parts (`discoverBasicBlocks` without the
    confidence pass, ps3tool-core/Rewriter.cpp:208-300, and ps3tool/rewrite.cpp:414-450). */
module RewrittenSegment {
  import opened Common
  import opened BitFields
  import opened Branches
  import MB = MergedBlocks
  import opened BasicBlocks
  import opened FlowGraph
  import opened CsrGraph
  import opened EmittedCode
  import opened EmittedSimulation
  import opened Partition

  /** `METIS_PartGraphRecursive`: from the rows of the graph and the number of parts to part numbers. */
  type Partitioner = (seq<nat>, seq<nat>, seq<nat>, nat) -> seq<nat>

  ghost predicate AssignsParts(metis: Partitioner) {
    forall vs, es, ews, n {:trigger metis(vs, es, ews, n)} :: vs != [] && n > 1 ==>
      |metis(vs, es, ews, n)| == |vs| - 1 &&
      forall v :: 0 <= v < |vs| - 1 ==> metis(vs, es, ews, n)[v] < n
  }

  /** No load the rewriter merges in the block is unsafe. */
  ghost predicate SafeBlock<U>(m: Model<U>, b: Block) {
    MB.SafeLoads(MB.Transformed(m.fetch, b.start, b.len / 4))
  }

  ghost predicate SafePart<U>(m: Model<U>, part: seq<Block>) {
    forall i :: 0 <= i < |part| ==> SafeBlock(m, part[i])
  }

  /** What is known of a discovered block, as a function so that it can be handed on from block list to
      block list. */
  ghost function IsSound<U>(m: Model<U>): Block -> bool {
    (b: Block) => b.len >= 4 && b.len % 4 == 0 && (SafeBlock(m, b) ==> GoodBlock(m, b))
  }

  ghost predicate Each(ok: Block -> bool, blocks: seq<Block>) {
    forall i :: 0 <= i < |blocks| ==> ok(blocks[i])
  }

  // ---------------------------------------------------------------- which blocks survive

  /** Control can go from the end of one block to the other without an indirect register. */
  predicate FlowsTo(blocks: seq<Block>, analyze: Analysis, u: nat, w: nat) {
    u < |blocks| && w < |blocks| && blocks[u].len >= 4 && blocks[w].start in Targets(blocks[u], analyze)
  }

  ghost predicate IsFlow(blocks: seq<Block>, analyze: Analysis, path: seq<nat>, u: nat, w: nat) {
    path != [] && path[0] == u && path[|path| - 1] == w &&
    forall i :: 0 < i < |path| ==> FlowsTo(blocks, analyze, path[i - 1], path[i])
  }

  /** Some way leads from block `u` to a block that is to be removed. */
  ghost predicate IsDoomed(blocks: seq<Block>, analyze: Analysis, illegal: Block -> bool, u: nat) {
    exists w: nat, path: seq<nat> :: w < |blocks| && illegal(blocks[w]) && IsFlow(blocks, analyze, path, u, w)
  }

  ghost function Doomed(blocks: seq<Block>, analyze: Analysis, illegal: Block -> bool): (r: seq<bool>)
    ensures |r| == |blocks| && forall u :: 0 <= u < |blocks| ==> (r[u] <==> IsDoomed(blocks, analyze, illegal, u))
  {
    seq(|blocks|, u requires 0 <= u < |blocks| => IsDoomed(blocks, analyze, illegal, u))
  }

  /** The blocks from which no way leads to one that is to be removed. */
  ghost function Survivors(blocks: seq<Block>, analyze: Analysis, illegal: Block -> bool): seq<Block> {
    KeptBlocks(blocks, Doomed(blocks, analyze, illegal))
  }

  lemma EdgesAreFlows(g: Graph, analyze: Analysis, u: nat, w: nat)
    requires GoodBlocks(g.blocks) && EdgesAre(g, analyze, |g.blocks|)
    ensures HasEdge(g, u, w) <==> FlowsTo(g.blocks, analyze, u, w)
  {
    if HasEdge(g, u, w) {
      var k :| 0 <= k < |g.edges| && g.edges[k].src == u && g.edges[k].dst == w;
      assert EdgeOk(g, analyze, g.edges[k]);
    }
    if FlowsTo(g.blocks, analyze, u, w) {
      assert HasEdgesTo(g, u, Targets(g.blocks[u], analyze));
    }
  }

  lemma PathsAreFlows(g: Graph, analyze: Analysis, path: seq<nat>, u: nat, w: nat)
    requires GoodBlocks(g.blocks) && EdgesAre(g, analyze, |g.blocks|)
    ensures PathFromTo(g, path, u, w) <==> IsFlow(g.blocks, analyze, path, u, w)
  {
    forall i | 0 < i < |path|
      ensures HasEdge(g, path[i - 1], path[i]) <==> FlowsTo(g.blocks, analyze, path[i - 1], path[i])
    {
      EdgesAreFlows(g, analyze, path[i - 1], path[i]);
    }
  }

  lemma CondemnedIsDoomed(g: Graph, analyze: Analysis, illegal: Block -> bool, u: nat)
    requires GoodBlocks(g.blocks) && EdgesAre(g, analyze, |g.blocks|)
    ensures Condemned(g, illegal, u, |g.blocks|) <==> IsDoomed(g.blocks, analyze, illegal, u)
  {
    if Condemned(g, illegal, u, |g.blocks|) {
      var w :| 0 <= w < |g.blocks| && illegal(g.blocks[w]) && Reaches(g, u, w);
      var path :| PathFromTo(g, path, u, w);
      PathsAreFlows(g, analyze, path, u, w);
    }
    if IsDoomed(g.blocks, analyze, illegal, u) {
      var w: nat, path: seq<nat> :| w < |g.blocks| && illegal(g.blocks[w]) && IsFlow(g.blocks, analyze, path, u, w);
      PathsAreFlows(g, analyze, path, u, w);
      assert Reaches(g, u, w);
    }
  }

  /** A block flows to another exactly if its last branch can lead to the start of the other. */
  lemma FlowsAreBranches(blocks: seq<Block>, code: nat -> nat, u: nat, w: nat)
    requires u < |blocks| && w < |blocks| && blocks[u].len >= 4
    ensures FlowsTo(blocks, AnalysisOf(code), u, w) <==> CanLeadTo(blocks[u], code, blocks[w].start)
  {
    TargetsAreWays(blocks[u], code, blocks[w].start);
  }

  /** A block is doomed exactly if it is illegal itself or its last branch can lead to a doomed block. */
  lemma DoomedIff(blocks: seq<Block>, code: nat -> nat, illegal: Block -> bool, u: nat)
    requires u < |blocks| && blocks[u].len >= 4
    ensures IsDoomed(blocks, AnalysisOf(code), illegal, u) <==>
      illegal(blocks[u]) || exists w: nat :: LeadsToDoomed(blocks, code, illegal, u, w)
  {
    if IsDoomed(blocks, AnalysisOf(code), illegal, u) && !illegal(blocks[u]) {
      var w := DoomedByNext(blocks, code, illegal, u);
    }
    if illegal(blocks[u]) {
      assert IsFlow(blocks, AnalysisOf(code), [u], u, u);
    }
    if w: nat :| LeadsToDoomed(blocks, code, illegal, u, w) {
      DoomedThrough(blocks, code, illegal, u, w);
    }
  }

  lemma DoomedByNext(blocks: seq<Block>, code: nat -> nat, illegal: Block -> bool, u: nat) returns (w: nat)
    requires u < |blocks| && blocks[u].len >= 4 && IsDoomed(blocks, AnalysisOf(code), illegal, u) && !illegal(blocks[u])
    ensures LeadsToDoomed(blocks, code, illegal, u, w)
  {
    var analyze := AnalysisOf(code);
    var x: nat, path: seq<nat> :| x < |blocks| && illegal(blocks[x]) && IsFlow(blocks, analyze, path, u, x);
    w := path[1];
    assert FlowsTo(blocks, analyze, path[0], path[1]);
    FlowsAreBranches(blocks, code, u, w);
    assert IsFlow(blocks, analyze, path[1..], w, x);
  }

  lemma DoomedThrough(blocks: seq<Block>, code: nat -> nat, illegal: Block -> bool, u: nat, w: nat)
    requires u < |blocks| && blocks[u].len >= 4 && LeadsToDoomed(blocks, code, illegal, u, w)
    ensures IsDoomed(blocks, AnalysisOf(code), illegal, u)
  {
    var analyze := AnalysisOf(code);
    FlowsAreBranches(blocks, code, u, w);
    var x: nat, path: seq<nat> :| x < |blocks| && illegal(blocks[x]) && IsFlow(blocks, analyze, path, w, x);
    assert IsFlow(blocks, analyze, [u] + path, u, x);
  }

  ghost predicate LeadsToDoomed(blocks: seq<Block>, code: nat -> nat, illegal: Block -> bool, u: nat, w: nat)
    requires u < |blocks| && blocks[u].len >= 4
  {
    w < |blocks| && CanLeadTo(blocks[u], code, blocks[w].start) && IsDoomed(blocks, AnalysisOf(code), illegal, w)
  }

  /** So code that ends in a branch that is always taken survives in front of data. */
  lemma SurvivesInFrontOfData(blocks: seq<Block>, code: nat -> nat, illegal: Block -> bool, u: nat)
    requires u < |blocks| && blocks[u].len >= 4 && !illegal(blocks[u])
    requires Form(code(LastOf(blocks[u])), 18) && !Links(code(LastOf(blocks[u])))
    requires forall w :: 0 <= w < |blocks| && IsDoomed(blocks, AnalysisOf(code), illegal, w) ==>
      blocks[w].start != DirectTarget(code(LastOf(blocks[u])), LastOf(blocks[u]))
    ensures !IsDoomed(blocks, AnalysisOf(code), illegal, u)
  {
    var word, cia := code(LastOf(blocks[u])), LastOf(blocks[u]);
    FieldsOfBranch(word);
    forall w: nat ensures !LeadsToDoomed(blocks, code, illegal, u, w) {
      if w < |blocks| {
        AnalyzeIsExact(word, cia, blocks[w].start);
      }
    }
    DoomedIff(blocks, code, illegal, u);
  }

  // ---------------------------------------------------------------- handing on

  lemma EachKept(ok: Block -> bool, blocks: seq<Block>, invalid: seq<bool>)
    requires |blocks| == |invalid| && Each(ok, blocks)
    ensures Each(ok, KeptBlocks(blocks, invalid))
  {
    var kept := KeptBlocks(blocks, invalid);
    forall i | 0 <= i < |kept| ensures ok(kept[i]) {
      var v := SurvivorOfRank(blocks, invalid, i);
      SurvivorKeepsBlock(blocks, invalid, v);
    }
  }

  lemma EachChosen(ok: Block -> bool, blocks: seq<Block>, numbers: seq<nat>, p: nat)
    requires |blocks| == |numbers| && Each(ok, blocks)
    ensures Each(ok, Chosen(blocks, numbers, p, |blocks|))
  {
    var part := Chosen(blocks, numbers, p, |blocks|);
    forall i | 0 <= i < |part| ensures ok(part[i]) {
      var v := ChosenFrom(blocks, numbers, p, |blocks|, i);
    }
  }

  lemma EachDiscovered<U>(m: Model<U>, blocks: seq<Block>, start: nat, len: nat, leads: set<nat>)
    requires ReadsSoundly(m) && Segment(start, len) && Discovered(blocks, start, len, leads, m.analyze)
    ensures Each(IsSound(m), blocks) && InOrder(blocks)
  {
    TilesInOrder(blocks, start, start + len);
    forall i | 0 <= i < |blocks| ensures IsSound(m)(blocks[i]) {
      if SafeBlock(m, blocks[i]) {
        DiscoveredIsGood(m, blocks, start, len, leads, i);
      }
    }
  }

  lemma InOrderIsGood(blocks: seq<Block>)
    requires InOrder(blocks)
    ensures GoodBlocks(blocks)
  {
    forall i, j | 0 <= i < j < |blocks| ensures blocks[i].start != blocks[j].start {
      assert Before(blocks, i, j);
    }
  }

  lemma BranchTargetsAreGood(code: nat -> nat)
    ensures GoodTargets(AnalysisOf(code))
  {
    forall cia: nat | cia % 4 == 0 && AnalysisOf(code)(cia).target.Some?
      ensures AnalysisOf(code)(cia).target.value % 4 == 0 && AnalysisOf(code)(cia).target.value < WORD
    {
      TargetIsAligned(code(cia), cia);
    }
  }

  // ---------------------------------------------------------------- the stages

  /** The rest of `discoverBasicBlocks`: the graph, its pruning, and the blocks in order. */
  method PruneBlocks(all: seq<Block>, analyze: Analysis, illegal: Block -> bool, ghost ok: Block -> bool)
    returns (blocks: seq<Block>)
    requires InOrder(all) && Each(ok, all)
    ensures InOrder(blocks) && Each(ok, blocks) && blocks == Survivors(all, analyze, illegal)
  {
    InOrderIsGood(all);
    var graph := BuildGraph(all, analyze);
    assert forall k :: 0 <= k < |graph.edges| ==> EdgeOk(graph, analyze, graph.edges[k]);
    var pruned, invalid := RemoveVertices(graph, illegal);
    forall u | 0 <= u < |all| ensures invalid[u] == Doomed(all, analyze, illegal)[u] {
      CondemnedIsDoomed(graph, analyze, illegal, u);
    }
    assert invalid[..] == Doomed(all, analyze, illegal);
    KeptInOrder(all, invalid[..]);
    EachKept(ok, all, invalid[..]);
    InOrderIsSorted(pruned.blocks);
    blocks := SortBlocks(pruned.blocks);
  }

  /** `partitionBasicBlocks` with the call of the partitioner. */
  method DivideBlocks(blocks: seq<Block>, analyze: Analysis, metis: Partitioner, partSize: nat, ghost ok: Block -> bool)
    returns (parts: seq<seq<Block>>)
    requires InOrder(blocks) && Each(ok, blocks) && partSize > 0 && AssignsParts(metis)
    ensures forall p :: 0 <= p < |parts| ==> InOrder(parts[p]) && Each(ok, parts[p])
    ensures Together(parts, |parts|) == multiset(blocks)
  {
    var nparts := |blocks| / partSize;
    var vs, es, ews := RowsOf(blocks, analyze);
    var numbers := metis(vs, es, ews, nparts);
    assert nparts > 1 ==> |numbers| == |blocks|;
    parts := PartitionBasicBlocks(blocks, numbers, nparts);
    EachInParts(ok, blocks, numbers, nparts, parts);
  }

  lemma EachInParts(ok: Block -> bool, blocks: seq<Block>, numbers: seq<nat>, nparts: nat, parts: seq<seq<Block>>)
    requires Each(ok, blocks) && (nparts <= 1 ==> parts == [blocks])
    requires nparts > 1 ==> |parts| == nparts && |numbers| == |blocks|
    requires nparts > 1 ==> forall p :: 0 <= p < nparts ==> parts[p] == Chosen(blocks, numbers, p, |blocks|)
    ensures forall p :: 0 <= p < |parts| ==> Each(ok, parts[p])
  {
    forall p | 0 <= p < |parts| ensures Each(ok, parts[p]) {
      if nparts > 1 {
        EachChosen(ok, blocks, numbers, p);
      }
    }
  }

  /** The rows of the graph of the blocks. */
  method RowsOf(blocks: seq<Block>, analyze: Analysis) returns (vs: seq<nat>, es: seq<nat>, ews: seq<nat>)
    requires InOrder(blocks)
    ensures |vs| == |blocks| + 1
  {
    InOrderIsGood(blocks);
    var graph := BuildGraph(blocks, analyze);
    assert forall k :: 0 <= k < |graph.edges| ==> EdgeOk(graph, analyze, graph.edges[k]);
    var rowStarts, neighbours, weights := ToCSR(|blocks|, graph.edges);
    vs, es, ews := rowStarts[..], neighbours[..], weights[..];
  }

  /** The texts are those of the blocks of the part; if its loads are safe, it simulates the
      interpreter. */
  ghost predicate IsSafelyEmitted<U>(m: Model<U>, part: seq<Block>, texts: seq<Text>, minSize: nat) {
    InOrder(part) && |texts| == |part| && AreTextsOf(texts, m.fetch, m.analyze, part, minSize, |part|) &&
    (SafePart(m, part) ==> IsEmitted(m, part, texts, minSize))
  }

  /** The same as a function, so that nothing looks inside while it is handed on from part to part. */
  type Verdict = (seq<Block>, seq<Text>) -> bool

  ghost function SafelyEmitted<U>(m: Model<U>, minSize: nat): Verdict {
    (part, texts) => IsSafelyEmitted(m, part, texts, minSize)
  }

  ghost predicate Decides<U>(ok: Verdict, m: Model<U>, minSize: nat) {
    forall part: seq<Block>, texts: seq<Text> {:trigger IsSafelyEmitted(m, part, texts, minSize)} ::
      ok(part, texts) <==> IsSafelyEmitted(m, part, texts, minSize)
  }

  /** A part of sound blocks, emitted. */
  method EmitSoundPart<U>(ghost m: Model<U>, code: nat -> nat, part: seq<Block>, minSize: nat, ghost ok: Verdict)
    returns (texts: seq<Text>)
    requires Decides(ok, m, minSize)
    requires m.fetch == MB.Fetch(code) && m.analyze == AnalysisOf(code) && InOrder(part) && Each(IsSound(m), part)
    ensures |texts| == |part| && ok(part, texts)
  {
    assert forall i :: 0 <= i < |part| ==> IsSound(m)(part[i]);
    texts := EmitPart(part, code, AnalysisOf(code), minSize);
    assert IsSafelyEmitted(m, part, texts, minSize);
  }

  /** The texts of the first `n` parts. */
  ghost predicate EmittedUpTo(ok: Verdict, parts: seq<seq<Block>>, texts: seq<seq<Text>>, n: nat) {
    n <= |parts| && n <= |texts| &&
    (n == 0 || (ok(parts[n - 1], texts[n - 1]) && EmittedUpTo(ok, parts, texts, n - 1)))
  }

  lemma {:induction false} OneMoreEmitted(ok: Verdict, parts: seq<seq<Block>>, texts: seq<seq<Text>>, more: seq<Text>,
                                          n: nat)
    requires EmittedUpTo(ok, parts, texts, n)
    ensures EmittedUpTo(ok, parts, texts + [more], n)
    ensures n == |texts| < |parts| && ok(parts[n], more) ==> EmittedUpTo(ok, parts, texts + [more], n + 1)
  {
    if n > 0 {
      OneMoreEmitted(ok, parts, texts, more, n - 1);
    }
  }

  lemma {:induction false} EmittedAt(ok: Verdict, parts: seq<seq<Block>>, texts: seq<seq<Text>>, n: nat, p: nat)
    requires EmittedUpTo(ok, parts, texts, n) && p < n
    ensures ok(parts[p], texts[p])
  {
    if p < n - 1 {
      EmittedAt(ok, parts, texts, n - 1, p);
    }
  }

  method EmitParts<U>(ghost m: Model<U>, code: nat -> nat, parts: seq<seq<Block>>, minSize: nat, ghost ok: Verdict)
    returns (texts: seq<seq<Text>>)
    requires m.fetch == MB.Fetch(code) && m.analyze == AnalysisOf(code) && Decides(ok, m, minSize)
    requires forall p :: 0 <= p < |parts| ==> InOrder(parts[p]) && Each(IsSound(m), parts[p])
    ensures |texts| == |parts| && EmittedUpTo(ok, parts, texts, |parts|)
  {
    texts := [];
    for p := 0 to |parts|
      invariant |texts| == p && EmittedUpTo(ok, parts, texts, p)
    {
      var emitted := EmitSoundPart(m, code, parts[p], minSize, ok);
      OneMoreEmitted(ok, parts, texts, emitted, p);
      texts := texts + [emitted];
    }
  }

  /** The result of the cutting: an error exactly for bad leads, otherwise the blocks of the code. */
  ghost predicate IsCutOf(cut: CutResult, kept: nat, start: nat, len: nat, leads: set<nat>, analyze: Analysis,
                          read: Option<nat -> nat>)
  {
    && Segment(start, kept) && IsKept(read, start, len, kept)
    && (cut.LeadOutside? <==> exists lead :: lead in leads && !LeadInside(start, len, lead))
    && (cut.Cut? <==> forall lead :: lead in leads ==> LeadInside(start, len, lead) && InSegment(start, kept, lead))
    && (cut.Cut? ==> cut.len == kept && Discovered(cut.blocks, start, kept, leads, analyze))
  }

  /** `discoverBasicBlocks` as a whole. */
  method DiscoverBlocks<U>(ghost m: Model<U>, code: nat -> nat, start: nat, len: nat, leads: set<nat>,
                           read: Option<nat -> nat>, illegal: Block -> bool)
    returns (cut: CutResult, ghost kept: nat, blocks: seq<Block>)
    requires Segment(start, len) && m.analyze == AnalysisOf(code) && ReadsSoundly(m)
    ensures IsCutOf(cut, kept, start, len, leads, AnalysisOf(code), read)
    ensures blocks == if cut.Cut? then Survivors(cut.blocks, AnalysisOf(code), illegal) else []
    ensures InOrder(blocks) && Each(IsSound(m), blocks)
  {
    BranchTargetsAreGood(code);
    cut, kept := CutSegment(start, len, leads, AnalysisOf(code), read);
    blocks := [];
    if cut.Cut? {
      EachDiscovered(m, cut.blocks, start, kept, leads);
      blocks := PruneBlocks(cut.blocks, AnalysisOf(code), illegal, IsSound(m));
    }
  }

  /** From a segment to its parts, whatever the leads, the pruning and the partitioner. If the leads are
      good, the blocks of all parts together are exactly the blocks of the segment from which no way
      leads to an illegal one, each in one part. Every part meets the hypotheses of
      EmittedSimulation.PartSimulates, as long as the merged loads of its own blocks are safe. */
  method RewriteSegment<U>(ghost w: World<U>, code: nat -> nat, start: nat, len: nat, leads: set<nat>,
                           read: Option<nat -> nat>, illegal: Block -> bool, metis: Partitioner, partSize: nat,
                           minSize: nat)
    returns (cut: CutResult, ghost kept: nat, parts: seq<seq<Block>>, texts: seq<seq<Text>>)
    requires Segment(start, len) && w.code == code && partSize > 0 && AssignsParts(metis)
    ensures IsCutOf(cut, kept, start, len, leads, AnalysisOf(code), read)
    ensures cut.Cut? ==> InOrder(Survivors(cut.blocks, AnalysisOf(code), illegal))
    ensures cut.Cut? ==> Together(parts, |parts|) == multiset(Survivors(cut.blocks, AnalysisOf(code), illegal))
    ensures !cut.Cut? ==> parts == []
    ensures |texts| == |parts|
    ensures forall p :: 0 <= p < |parts| ==> IsSafelyEmitted(ModelOf(w), parts[p], texts[p], minSize)
  {
    ghost var m := ModelOf(w);
    ModelReadsSoundly(w);
    var blocks;
    cut, kept, blocks := DiscoverBlocks(m, code, start, len, leads, read, illegal);
    parts, texts := [], [];
    if cut.Cut? {
      parts := DivideBlocks(blocks, AnalysisOf(code), metis, partSize, IsSound(m));
      ghost var ok := SafelyEmitted(m, minSize);
      texts := EmitParts(m, code, parts, minSize, ok);
      forall p | 0 <= p < |parts| ensures IsSafelyEmitted(m, parts[p], texts[p], minSize) {
        EmittedAt(ok, parts, texts, |parts|, p);
      }
    }
  }

  /** Every block of the segment from which no way leads to an illegal one is a label of exactly one
      part, and every label is such a block. */
  lemma SurvivorIsLabel(blocks: seq<Block>, analyze: Analysis, illegal: Block -> bool, parts: seq<seq<Block>>, u: nat)
    requires InOrder(blocks) && InOrder(Survivors(blocks, analyze, illegal)) && u < |blocks|
    requires Together(parts, |parts|) == multiset(Survivors(blocks, analyze, illegal))
    requires forall q :: 0 <= q < |parts| ==> InOrder(parts[q])
    ensures !IsDoomed(blocks, analyze, illegal, u) <==> exists p: nat, i: nat :: IsLabelOf(parts, p, i, blocks[u])
    ensures forall p: nat, i: nat, q: nat, j: nat ::
      IsLabelOf(parts, p, i, blocks[u]) && IsLabelOf(parts, q, j, blocks[u]) ==> p == q && i == j
  {
    var kept, doomed := Survivors(blocks, analyze, illegal), Doomed(blocks, analyze, illegal);
    if !doomed[u] {
      SurvivorKeepsBlock(blocks, doomed, u);
      var p, i := LabelOfOnePart(kept, parts, Rank(doomed, u));
      assert IsLabelOf(parts, p, i, blocks[u]);
    } else {
      forall p: nat, i: nat | IsLabelOf(parts, p, i, blocks[u]) ensures false {
        LabelSurvives(blocks, doomed, parts, p, i, u);
      }
    }
  }

  predicate IsLabelOf(parts: seq<seq<Block>>, p: nat, i: nat, b: Block) {
    p < |parts| && i < |parts[p]| && parts[p][i] == b
  }

  lemma LabelSurvives(blocks: seq<Block>, doomed: seq<bool>, parts: seq<seq<Block>>, p: nat, i: nat, u: nat)
    requires InOrder(blocks) && |doomed| == |blocks| && u < |blocks| && IsLabelOf(parts, p, i, blocks[u])
    requires Together(parts, |parts|) == multiset(KeptBlocks(blocks, doomed))
    ensures !doomed[u]
  {
    OnceTogether(parts, |parts|, p, i);
    var kept := KeptBlocks(blocks, doomed);
    var k: nat :| k < |kept| && kept[k] == blocks[u];
    var v := SurvivorOfRank(blocks, doomed, k);
    SurvivorKeepsBlock(blocks, doomed, v);
    SameStartSameBlock(blocks, u, v);
  }
}
