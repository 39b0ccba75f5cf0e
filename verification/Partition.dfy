/** From discovered blocks to emitted parts (`partitionBasicBlocks`,
    ps3tool-core/GraphTools.cpp:72-108). */
module Partition {
  import opened Branches
  import LS = LoadStores
  import MB = MergedBlocks
  import opened BasicBlocks
  import opened FlowGraph
  import opened EmittedCode
  import opened EmittedSimulation

  /** The first `n` blocks that the partitioner put into part `p`, in their order. */
  function Chosen(blocks: seq<Block>, numbers: seq<nat>, p: nat, n: nat): seq<Block>
    requires n <= |blocks| == |numbers|
  {
    if n == 0 then []
    else Chosen(blocks, numbers, p, n - 1) + (if numbers[n - 1] == p then [blocks[n - 1]] else [])
  }

  predicate Less(a: Block, b: Block) {
    a.start < b.start || (a.start == b.start && a.len < b.len)
  }

  predicate SortedBlocks(part: seq<Block>) {
    forall i, j :: 0 <= i < j < |part| ==> !Less(part[j], part[i])
  }

  /** `std::sort`; nothing moves when the blocks are in order already. */
  method SortBlocks(part: seq<Block>) returns (r: seq<Block>)
    ensures multiset(r) == multiset(part) && SortedBlocks(r)
    ensures SortedBlocks(part) ==> r == part
  {
    r := [];
    for n := 0 to |part|
      invariant multiset(r) == multiset(part[..n]) && SortedBlocks(r)
      invariant SortedBlocks(part) ==> r == part[..n]
    {
      assert part[..n + 1] == part[..n] + [part[n]];
      InsertKeeps(r, part[n]);
      InsertSorts(r, part[n]);
      r := InsertBlock(r, part[n]);
    }
    assert part[..|part|] == part;
  }

  /** `b` behind all blocks that are not greater. */
  function InsertBlock(part: seq<Block>, b: Block): (r: seq<Block>)
    ensures |r| == |part| + 1
  {
    if part != [] && Less(b, part[|part| - 1]) then InsertBlock(part[..|part| - 1], b) + [part[|part| - 1]]
    else part + [b]
  }

  lemma {:induction false} InsertKeeps(part: seq<Block>, b: Block)
    ensures multiset(InsertBlock(part, b)) == multiset(part) + multiset{b}
    decreases |part|
  {
    if part != [] && Less(b, part[|part| - 1]) {
      InsertKeeps(part[..|part| - 1], b);
      assert part == part[..|part| - 1] + [part[|part| - 1]];
    }
  }

  lemma {:induction false} InsertSorts(part: seq<Block>, b: Block)
    requires SortedBlocks(part)
    ensures SortedBlocks(InsertBlock(part, b))
    ensures InsertBlock(part, b)[|part|] == if part != [] && Less(b, part[|part| - 1]) then part[|part| - 1] else b
    decreases |part|
  {
    if part != [] && Less(b, part[|part| - 1]) {
      InsertSorts(part[..|part| - 1], b);
    }
  }

  lemma InOrderIsSorted(part: seq<Block>)
    requires InOrder(part)
    ensures SortedBlocks(part)
  {
    forall i, j | 0 <= i < j < |part| ensures !Less(part[j], part[i]) {
      assert Before(part, i, j);
    }
  }

  lemma {:induction false} ChosenFrom(blocks: seq<Block>, numbers: seq<nat>, p: nat, n: nat, i: nat) returns (v: nat)
    requires n <= |blocks| == |numbers| && i < |Chosen(blocks, numbers, p, n)|
    ensures v < n && numbers[v] == p && Chosen(blocks, numbers, p, n)[i] == blocks[v]
  {
    if i < |Chosen(blocks, numbers, p, n - 1)| {
      v := ChosenFrom(blocks, numbers, p, n - 1, i);
    } else {
      v := n - 1;
    }
  }

  /** A part has exactly the blocks with its number. */
  lemma {:induction false} ChosenIsExact(blocks: seq<Block>, numbers: seq<nat>, p: nat, n: nat, b: Block)
    requires n <= |blocks| == |numbers|
    ensures b in Chosen(blocks, numbers, p, n) <==> exists v :: 0 <= v < n && numbers[v] == p && blocks[v] == b
  {
    if n > 0 {
      ChosenIsExact(blocks, numbers, p, n - 1, b);
    }
  }

  lemma {:induction false} ChosenInOrder(blocks: seq<Block>, numbers: seq<nat>, p: nat, n: nat)
    requires n <= |blocks| == |numbers| && InOrder(blocks)
    ensures InOrder(Chosen(blocks, numbers, p, n))
  {
    if n > 0 {
      ChosenInOrder(blocks, numbers, p, n - 1);
      var front, r := Chosen(blocks, numbers, p, n - 1), Chosen(blocks, numbers, p, n);
      forall i, j | 0 <= i < j < |r| ensures Before(r, i, j) {
        if j < |front| {
          assert Before(front, i, j);
        } else {
          var v := ChosenFrom(blocks, numbers, p, n - 1, i);
          assert Before(blocks, v, n - 1);
        }
      }
    }
  }

  /** All blocks of the first `n` parts. */
  function Together(parts: seq<seq<Block>>, n: nat): multiset<Block>
    requires n <= |parts|
  {
    if n == 0 then multiset{} else Together(parts, n - 1) + multiset(parts[n - 1])
  }

  /** The parts when the first `n` blocks have been put into them. */
  function Parted(blocks: seq<Block>, numbers: seq<nat>, nparts: nat, n: nat): seq<seq<Block>>
    requires n <= |blocks| == |numbers|
  {
    seq(nparts, p requires 0 <= p < nparts => Chosen(blocks, numbers, p, n))
  }

  /** Part `q` grows by one block. */
  lemma {:induction false} OneMoreBlock(before: seq<seq<Block>>, after: seq<seq<Block>>, q: nat, b: Block, k: nat)
    requires k <= |before| == |after|
    requires forall p :: 0 <= p < k ==> after[p] == if p == q then before[p] + [b] else before[p]
    ensures Together(after, k) == Together(before, k) + (if q < k then multiset{b} else multiset{})
  {
    if k > 0 {
      OneMoreBlock(before, after, q, b, k - 1);
    }
  }

  lemma {:induction false} NothingTogether(parts: seq<seq<Block>>, n: nat)
    requires n <= |parts| && forall p :: 0 <= p < n ==> parts[p] == []
    ensures Together(parts, n) == multiset{}
  {
    if n > 0 {
      NothingTogether(parts, n - 1);
    }
  }

  lemma PartedGrows(blocks: seq<Block>, numbers: seq<nat>, nparts: nat, n: nat, before: seq<seq<Block>>,
                    after: seq<seq<Block>>)
    requires n < |blocks| == |numbers|
    requires before == Parted(blocks, numbers, nparts, n) && after == Parted(blocks, numbers, nparts, n + 1)
    ensures |before| == |after| == nparts
    ensures forall p :: 0 <= p < nparts ==> after[p] == if p == numbers[n] then before[p] + [blocks[n]] else before[p]
  {
    forall p | 0 <= p < nparts ensures after[p] == if p == numbers[n] then before[p] + [blocks[n]] else before[p] {
      assert before[p] == Chosen(blocks, numbers, p, n) && after[p] == Chosen(blocks, numbers, p, n + 1);
    }
  }

  lemma {:induction false} PartedTogether(blocks: seq<Block>, numbers: seq<nat>, nparts: nat, n: nat,
                                          parts: seq<seq<Block>>)
    requires n <= |blocks| == |numbers| && forall v :: 0 <= v < |numbers| ==> numbers[v] < nparts
    requires parts == Parted(blocks, numbers, nparts, n)
    ensures |parts| == nparts && Together(parts, nparts) == multiset(blocks[..n])
  {
    if n == 0 {
      NothingTogether(parts, nparts);
    } else {
      var before := Parted(blocks, numbers, nparts, n - 1);
      PartedTogether(blocks, numbers, nparts, n - 1, before);
      OneMoreParted(blocks, numbers, nparts, n - 1, before, parts);
      OneMoreOf(blocks, n);
    }
  }

  lemma OneMoreParted(blocks: seq<Block>, numbers: seq<nat>, nparts: nat, n: nat, before: seq<seq<Block>>,
                      after: seq<seq<Block>>)
    requires n < |blocks| == |numbers| && numbers[n] < nparts
    requires before == Parted(blocks, numbers, nparts, n) && after == Parted(blocks, numbers, nparts, n + 1)
    ensures |before| == |after| == nparts
    ensures Together(after, nparts) == Together(before, nparts) + multiset{blocks[n]}
  {
    PartedGrows(blocks, numbers, nparts, n, before, after);
    OneMoreBlock(before, after, numbers[n], blocks[n], nparts);
  }

  lemma OneMoreOf(blocks: seq<Block>, n: nat)
    requires 0 < n <= |blocks|
    ensures multiset(blocks[..n]) == multiset(blocks[..n - 1]) + multiset{blocks[n - 1]}
  {
    assert blocks[..n] == blocks[..n - 1] + [blocks[n - 1]];
  }

  lemma {:induction false} InTogether(parts: seq<seq<Block>>, n: nat, b: Block) returns (p: nat, i: nat)
    requires n <= |parts| && b in Together(parts, n)
    ensures p < n && i < |parts[p]| && parts[p][i] == b
  {
    if b in multiset(parts[n - 1]) {
      p := n - 1;
      i :| i < |parts[p]| && parts[p][i] == b;
    } else {
      p, i := InTogether(parts, n - 1, b);
    }
  }

  lemma {:induction false} TwiceTogether(parts: seq<seq<Block>>, n: nat, p: nat, i: nat, q: nat, j: nat)
    requires p < q < n <= |parts| && i < |parts[p]| && j < |parts[q]| && parts[p][i] == parts[q][j]
    ensures Together(parts, n)[parts[p][i]] >= 2
    decreases n
  {
    if q < n - 1 {
      TwiceTogether(parts, n - 1, p, i, q, j);
    } else {
      OnceTogether(parts, n - 1, p, i);
      assert parts[p][i] in multiset(parts[q]);
    }
  }

  lemma {:induction false} OnceTogether(parts: seq<seq<Block>>, n: nat, p: nat, i: nat)
    requires p < n <= |parts| && i < |parts[p]|
    ensures parts[p][i] in Together(parts, n)
    decreases n
  {
    if p < n - 1 {
      OnceTogether(parts, n - 1, p, i);
    } else {
      assert parts[p][i] in multiset(parts[p]);
    }
  }

  /** A block of the whole is the label of exactly one part, and no other block of the parts has its
      address. */
  lemma LabelOfOnePart(blocks: seq<Block>, parts: seq<seq<Block>>, v: nat) returns (p: nat, i: nat)
    requires InOrder(blocks) && v < |blocks| && Together(parts, |parts|) == multiset(blocks)
    requires forall q :: 0 <= q < |parts| ==> InOrder(parts[q])
    ensures p < |parts| && i < |parts[p]| && parts[p][i] == blocks[v]
    ensures forall q: nat, j: nat ::
      q < |parts| && j < |parts[q]| && parts[q][j].start == blocks[v].start ==> q == p && j == i
  {
    assert blocks[v] in multiset(blocks);
    p, i := InTogether(parts, |parts|, blocks[v]);
    forall q: nat, j: nat | q < |parts| && j < |parts[q]| && parts[q][j].start == blocks[v].start
      ensures q == p && j == i
    {
      OnceTogether(parts, |parts|, q, j);
      var u: nat :| u < |blocks| && blocks[u] == parts[q][j];
      SameStartSameBlock(blocks, u, v);
      OnlyOnce(blocks, v);
      if q < p {
        TwiceTogether(parts, |parts|, q, j, p, i);
      } else if p < q {
        TwiceTogether(parts, |parts|, p, i, q, j);
      } else {
        SameStartSameBlock(parts[p], j, i);
      }
    }
  }

  lemma SameStartSameBlock(blocks: seq<Block>, u: nat, v: nat)
    requires InOrder(blocks) && u < |blocks| && v < |blocks| && blocks[u].start == blocks[v].start
    ensures u == v
  {
    assert u < v ==> Before(blocks, u, v);
    assert v < u ==> Before(blocks, v, u);
  }

  lemma OnlyOnce(blocks: seq<Block>, v: nat)
    requires InOrder(blocks) && v < |blocks|
    ensures multiset(blocks)[blocks[v]] == 1
  {
    var b := blocks[v];
    assert blocks == blocks[..v] + [b] + blocks[v + 1..];
    if b in blocks[..v] {
      var u: nat :| u < v && blocks[u] == b;
      SameStartSameBlock(blocks, u, v);
    }
    if b in blocks[v + 1..] {
      var u: nat :| v < u < |blocks| && blocks[u] == b;
      SameStartSameBlock(blocks, u, v);
    }
  }

  /** Every block is in the part its number says and in no other, in its place; each part is in
      ascending order and disjoint, as the emission needs it. */
  method PartitionBasicBlocks(blocks: seq<Block>, numbers: seq<nat>, nparts: nat) returns (res: seq<seq<Block>>)
    requires InOrder(blocks)
    requires nparts > 1 ==> |numbers| == |blocks| && forall v :: 0 <= v < |numbers| ==> numbers[v] < nparts
    ensures nparts <= 1 ==> res == [blocks]
    ensures nparts > 1 ==> |res| == nparts
    ensures nparts > 1 ==> forall p :: 0 <= p < nparts ==> res[p] == Chosen(blocks, numbers, p, |blocks|)
    ensures forall p :: 0 <= p < |res| ==> InOrder(res[p])
    ensures Together(res, |res|) == multiset(blocks)
  {
    if nparts <= 1 {
      assert Together([blocks], 0) == multiset{} && Together([blocks], 1) == multiset(blocks);
      return [blocks];
    }
    res := ChooseParts(blocks, numbers, nparts);
    assert res == Parted(blocks, numbers, nparts, |blocks|) && blocks[..|blocks|] == blocks;
    PartedTogether(blocks, numbers, nparts, |blocks|, res);
  }

  method ChooseParts(blocks: seq<Block>, numbers: seq<nat>, nparts: nat) returns (res: seq<seq<Block>>)
    requires InOrder(blocks)
    requires |numbers| == |blocks| && forall v :: 0 <= v < |numbers| ==> numbers[v] < nparts
    ensures |res| == nparts && forall p :: 0 <= p < nparts ==> res[p] == Chosen(blocks, numbers, p, |blocks|)
    ensures forall p :: 0 <= p < |res| ==> InOrder(res[p])
  {
    res := seq(nparts, _ => []);
    for i := 0 to |blocks|
      invariant |res| == nparts && forall p :: 0 <= p < nparts ==> res[p] == Chosen(blocks, numbers, p, i)
    {
      res := res[numbers[i] := res[numbers[i]] + [blocks[i]]];
    }
    for p := 0 to nparts
      invariant |res| == nparts && forall q :: 0 <= q < nparts ==> res[q] == Chosen(blocks, numbers, q, |blocks|)
    {
      ChosenInOrder(blocks, numbers, p, |blocks|);
      InOrderIsSorted(res[p]);
      var comp := SortBlocks(res[p]);
      res := res[p := comp];
    }
    forall p | 0 <= p < nparts ensures InOrder(res[p]) {
      ChosenInOrder(blocks, numbers, p, |blocks|);
    }
  }

  // ---------------------------------------------------------------- the blocks are good

  lemma TilesInOrder(blocks: seq<Block>, start: nat, end: nat)
    requires Tiles(blocks, start, end) && start % 4 == 0
    ensures InOrder(blocks)
  {
    forall i | 0 <= i < |blocks| ensures blocks[i].len >= 4 {
      Aligned(blocks, start, end, i);
    }
    forall i, j | 0 <= i < j < |blocks| ensures Before(blocks, i, j) {
      Ascending(blocks, start, end, i, j);
    }
  }

  /** Pruning keeps the order. */
  lemma KeptInOrder(blocks: seq<Block>, invalid: seq<bool>)
    requires |blocks| == |invalid| && InOrder(blocks)
    ensures InOrder(KeptBlocks(blocks, invalid))
  {
    var kept := KeptBlocks(blocks, invalid);
    forall i | 0 <= i < |kept| ensures kept[i].len >= 4 {
      var v := SurvivorOfRank(blocks, invalid, i);
      SurvivorKeepsBlock(blocks, invalid, v);
    }
    forall i, j | 0 <= i < j < |kept| ensures Before(kept, i, j) {
      var v, w := TwoSurvivors(blocks, invalid, i, j);
      assert Before(blocks, v, w);
    }
  }

  lemma TwoSurvivors(blocks: seq<Block>, invalid: seq<bool>, i: nat, j: nat) returns (v: nat, w: nat)
    requires |blocks| == |invalid| && i < j < |KeptBlocks(blocks, invalid)|
    ensures v < w < |blocks|
    ensures KeptBlocks(blocks, invalid)[i] == blocks[v] && KeptBlocks(blocks, invalid)[j] == blocks[w]
  {
    v := SurvivorOfRank(blocks, invalid, i);
    w := SurvivorOfRank(blocks, invalid, j);
    SurvivorKeepsBlock(blocks, invalid, v);
    SurvivorKeepsBlock(blocks, invalid, w);
    if w < v {
      RankIsMonotone(invalid, w, v);
    }
  }

  /** What leaves is a flow instruction, and every instruction is a statement by itself. */
  ghost predicate ReadsSoundly<U>(m: Model<U>) {
    (forall cia: nat :: m.mayLeave(m.fetch(cia)) ==> m.analyze(cia).flow) &&
    forall start: nat, n: nat :: SinglesOnly(MB.Transformed(m.fetch, start, n))
  }

  predicate SinglesOnly(plain: seq<LS.Statement>) {
    MB.Singles(plain, true) && MB.Singles(plain, false)
  }

  lemma ModelReadsSoundly<U>(w: World<U>)
    ensures ReadsSoundly(ModelOf(w))
  {
    var m := ModelOf(w);
    forall cia: nat | m.mayLeave(m.fetch(cia)) ensures m.analyze(cia).flow {
      FlowMeansFlow(w.code(cia), cia);
    }
    forall start: nat, n: nat ensures SinglesOnly(MB.Transformed(m.fetch, start, n)) {
      MB.TransformedIsSingle(w.code, start, n, true);
      MB.TransformedIsSingle(w.code, start, n, false);
    }
  }

  lemma FlowMeansFlow(word: nat, cia: nat)
    requires MayLeave(LS.Transform(cia, word))
    ensures Analyze(word, cia).flow
  {
    LS.TransformIsSingle(cia, word);
    AnalyzeIsSound(word, cia, BranchState(0, 0, 0, 0));
  }

  /** A block that block discovery cuts leaves only at its end. */
  lemma DiscoveredIsGood<U>(m: Model<U>, blocks: seq<Block>, start: nat, len: nat, leads: set<nat>, i: nat)
    requires ReadsSoundly(m) && Segment(start, len) && Discovered(blocks, start, len, leads, m.analyze) && i < |blocks|
    requires MB.SafeLoads(MB.Transformed(m.fetch, blocks[i].start, blocks[i].len / 4))
    ensures GoodBlock(m, blocks[i])
  {
    Aligned(blocks, start, start + len, i);
    assert SinglesOnly(MB.Transformed(m.fetch, blocks[i].start, blocks[i].len / 4));
    InsideStays(m, blocks, start, len, leads, i, blocks[i].len / 4 - 1);
  }

  lemma {:induction false} InsideStays<U>(m: Model<U>, blocks: seq<Block>, start: nat, len: nat, leads: set<nat>,
                                          i: nat, n: nat)
    requires ReadsSoundly(m) && Segment(start, len) && Discovered(blocks, start, len, leads, m.analyze) && i < |blocks|
    requires n <= blocks[i].len / 4 - 1
    ensures NoneLeave(m.mayLeave, MB.Transformed(m.fetch, blocks[i].start, blocks[i].len / 4), n)
  {
    if n > 0 {
      InsideStays(m, blocks, start, len, leads, i, n - 1);
      StaysInBlock(m, blocks, start, len, leads, i, blocks[i].start + 4 * (n - 1));
      MB.TransformedAt(m.fetch, blocks[i].start, blocks[i].len / 4, n - 1);
    }
  }

  lemma StaysInBlock<U>(m: Model<U>, blocks: seq<Block>, start: nat, len: nat, leads: set<nat>, i: nat, cia: nat)
    requires ReadsSoundly(m) && Segment(start, len) && Discovered(blocks, start, len, leads, m.analyze) && i < |blocks|
    requires blocks[i].start <= cia < blocks[i].start + blocks[i].len - 4 && (cia - blocks[i].start) % 4 == 0
    ensures !m.mayLeave(m.fetch(cia))
  {
    BlockInside(blocks, start, len, i, cia);
    if m.analyze(cia).flow {
      OnlyLastInstructionFlows(blocks, start, len, leads, m.analyze, i, cia);
    }
  }

  lemma BlockInside(blocks: seq<Block>, start: nat, len: nat, i: nat, cia: nat)
    requires Segment(start, len) && Tiles(blocks, start, start + len) && i < |blocks|
    requires blocks[i].start <= cia < blocks[i].start + blocks[i].len && (cia - blocks[i].start) % 4 == 0
    ensures InSegment(start, len, cia)
  {
    Aligned(blocks, start, start + len, i);
    StartsBelowEnd(blocks, start, start + len);
  }
}
