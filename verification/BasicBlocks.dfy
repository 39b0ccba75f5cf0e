/** Discovery of breaks and cutting of basic blocks (ps3tool-core/Rewriter.cpp:19-102). */
module BasicBlocks {
  import opened Common
  import opened BitFields
  import opened Branches

  type Analysis = nat -> Info

  datatype Block = Block(start: nat, len: nat)

  /** A segment of whole instructions that does not wrap round the address space. */
  predicate Segment(start: nat, len: nat) {
    start % 4 == 0 && len % 4 == 0 && start + len < WORD
  }

  predicate InSegment(start: nat, len: nat, cia: nat) {
    start <= cia < start + len && cia % 4 == 0
  }

  class CodeMap {
    const marks: array<bool>
    const start: nat

    constructor (start: nat, len: nat)
      ensures this.start == start && fresh(marks) && marks.Length == len / 4
      ensures forall i :: 0 <= i < len / 4 ==> !marks[i]
    {
      this.start := start;
      marks := new bool[len / 4](_ => false);
    }

    /** `inrange`, with the subtraction wrapping as it does on 32 bits. */
    predicate InRange(va: nat) {
      (va - start) % WORD / 4 < marks.Length
    }

    predicate Get(va: nat)
      requires start <= va && InRange(va) && va < WORD
      reads marks
    {
      marks[(va - start) / 4]
    }

    method Mark(va: nat)
      requires start <= va < WORD && InRange(va) && start % 4 == va % 4 == 0
      modifies marks
      ensures forall i :: 0 <= i < marks.Length ==> marks[i] == (start + 4 * i == va || old(marks[i]))
    {
      marks[(va - start) / 4] := true;
    }

    /** Despite the wrapping, in range means inside the segment. */
    lemma InRangeMeansInside(len: nat, va: nat)
      requires Segment(start, len) && marks.Length == len / 4 && va < WORD
      ensures InRange(va) <==> start <= va < start + len
    {
      if va < start {
        assert (va - start) % WORD == va - start + WORD;
      } else {
        assert (va - start) % WORD == va - start;
      }
    }
  }

  /** Some instruction of the segment before `limit` makes `va` the start of a block. */
  ghost predicate IsBreak(analyze: Analysis, start: nat, limit: nat, va: nat) {
    exists cia :: start <= cia < limit && cia % 4 == 0 && Breaks(analyze, cia, va)
  }

  predicate Breaks(analyze: Analysis, cia: nat, va: nat) {
    analyze(cia).target == Some(va) || (analyze(cia).flow && cia + 4 == va)
  }

  ghost predicate GoodTargets(analyze: Analysis) {
    forall cia :: cia % 4 == 0 && analyze(cia).target.Some? ==>
      analyze(cia).target.value % 4 == 0 && analyze(cia).target.value < WORD
  }

  /** The map has exactly the breaks made by the instructions before `limit`. */
  ghost predicate HasBreaks(marks: seq<bool>, analyze: Analysis, start: nat, limit: nat) {
    forall i :: 0 <= i < |marks| ==> (marks[i] <==> IsBreak(analyze, start, limit, start + 4 * i))
  }

  method DiscoverBreaks(start: nat, len: nat, analyze: Analysis) returns (breaks: CodeMap)
    requires Segment(start, len) && GoodTargets(analyze)
    ensures fresh(breaks) && fresh(breaks.marks) && breaks.start == start && breaks.marks.Length == len / 4
    ensures HasBreaks(breaks.marks[..], analyze, start, start + len)
  {
    breaks := new CodeMap(start, len);
    var cia := start;
    while cia != start + len
      invariant start <= cia <= start + len && cia % 4 == 0
      invariant HasBreaks(breaks.marks[..], analyze, start, cia)
      decreases start + len - cia
    {
      MarkBreaks(breaks, cia, start, len, analyze);
      cia := cia + 4;
    }
  }

  /** The body of the loop: the breaks made by the instruction at `cia`. */
  method MarkBreaks(breaks: CodeMap, cia: nat, start: nat, len: nat, analyze: Analysis)
    requires Segment(start, len) && GoodTargets(analyze) && InSegment(start, len, cia)
    requires breaks.start == start && breaks.marks.Length == len / 4
    requires HasBreaks(breaks.marks[..], analyze, start, cia)
    modifies breaks.marks
    ensures HasBreaks(breaks.marks[..], analyze, start, cia + 4)
  {
    var info := analyze(cia);
    if info.target.Some? {
      breaks.InRangeMeansInside(len, info.target.value);
      if breaks.InRange(info.target.value) {
        breaks.Mark(info.target.value);
      }
    }
    breaks.InRangeMeansInside(len, cia + 4);
    if info.flow && breaks.InRange(cia + 4) {
      breaks.Mark(cia + 4);
    }
    forall i | 0 <= i < len / 4
      ensures breaks.marks[i] <==> IsBreak(analyze, start, cia + 4, start + 4 * i)
    {
      OneMoreBreak(analyze, start, cia, start + 4 * i);
    }
  }

  lemma OneMoreBreak(analyze: Analysis, start: nat, cia: nat, va: nat)
    requires start <= cia && cia % 4 == 0
    ensures IsBreak(analyze, start, cia + 4, va) <==>
      IsBreak(analyze, start, cia, va) || Breaks(analyze, cia, va)
  {
    if IsBreak(analyze, start, cia + 4, va) && !Breaks(analyze, cia, va) {
      var at :| start <= at < cia + 4 && at % 4 == 0 && Breaks(analyze, at, va);
      assert at < cia;
    }
  }

  // ---------------------------------------------------------------- cutting

  function End(blocks: seq<Block>, start: nat): nat {
    if blocks == [] then start else blocks[|blocks| - 1].start + blocks[|blocks| - 1].len
  }

  /** The blocks tile the addresses from `start` up to `end`, in ascending order. */
  ghost predicate Tiles(blocks: seq<Block>, start: nat, end: nat) {
    && (forall i :: 0 <= i < |blocks| ==> blocks[i].len > 0 && blocks[i].len % 4 == 0)
    && (blocks != [] ==> blocks[0].start == start)
    && (forall i, j :: 0 <= i && j == i + 1 < |blocks| ==> blocks[j].start == blocks[i].start + blocks[i].len)
    && End(blocks, start) == end
  }

  ghost predicate IsStart(blocks: seq<Block>, va: nat) {
    exists i :: 0 <= i < |blocks| && blocks[i].start == va
  }

  /** The blocks are those of the segment cut at `start` and at every marked address. A
      `std::set<BasicBlock>` is given by its elements in ascending order. */
  method MakeBasicBlocks(start: nat, len: nat, breaks: CodeMap) returns (blocks: seq<Block>)
    requires Segment(start, len) && breaks.start == start && breaks.marks.Length == len / 4
    ensures Tiles(blocks, start, start + len)
    ensures forall i: nat :: i < len / 4 ==> (StartsAt(blocks, start, i) <==> i == 0 || breaks.marks[i])
  {
    blocks := [];
    var block := Block(start, 0);
    var i: nat := 0;
    while i < len / 4
      invariant CutSoFar(blocks, block, start, breaks.marks[..], i)
    {
      assert breaks.marks[..][i] == breaks.marks[i];
      CuttingStep(blocks, block, start, breaks.marks[..], i);
      if breaks.marks[i] && block.len != 0 {
        blocks := blocks + [block];
        block := Block(start + 4 * i, 0);
      }
      block := block.(len := block.len + 4);
      i := i + 1;
    }
    if block.len != 0 {
      Appending(blocks, block, start);
      blocks := blocks + [block];
    }
  }

  /** The first `i` instructions are cut: `blocks` are closed and `block` is open. */
  ghost predicate CutSoFar(blocks: seq<Block>, block: Block, start: nat, marks: seq<bool>, i: nat) {
    && i <= |marks| && Tiles(blocks, start, block.start)
    && block.start + block.len == start + 4 * i && block.len % 4 == 0 && (i > 0 ==> block.len > 0)
    && forall j: nat :: j < i ==>
         (StartsAt(blocks, start, j) || block.start == start + 4 * j <==> j == 0 || marks[j])
  }

  lemma CuttingStep(blocks: seq<Block>, block: Block, start: nat, marks: seq<bool>, i: nat)
    requires CutSoFar(blocks, block, start, marks, i) && i < |marks|
    ensures marks[i] && block.len != 0 ==>
      CutSoFar(blocks + [block], Block(start + 4 * i, 4), start, marks, i + 1)
    ensures !(marks[i] && block.len != 0) ==>
      CutSoFar(blocks, block.(len := block.len + 4), start, marks, i + 1)
  {
    StartsBelowEnd(blocks, start, block.start);
    assert !StartsAt(blocks, start, i);
    if marks[i] && block.len != 0 {
      Appending(blocks, block, start);
    }
  }

  ghost predicate StartsAt(blocks: seq<Block>, start: nat, i: nat) {
    IsStart(blocks, start + 4 * i)
  }

  lemma {:induction false} StartsBelowEnd(blocks: seq<Block>, start: nat, end: nat)
    requires Tiles(blocks, start, end)
    ensures start <= end
    ensures forall va: nat :: IsStart(blocks, va) ==> start <= va < end
  {
    if blocks != [] {
      var last := |blocks| - 1;
      StartsBelowEnd(blocks[..last], start, blocks[last].start);
      forall va: nat | IsStart(blocks, va) ensures start <= va < end {
        assert va != blocks[last].start ==> IsStart(blocks[..last], va);
      }
    }
  }

  lemma Appending(blocks: seq<Block>, block: Block, start: nat)
    requires Tiles(blocks, start, block.start) && block.len > 0 && block.len % 4 == 0
    ensures Tiles(blocks + [block], start, block.start + block.len)
    ensures forall va: nat :: IsStart(blocks + [block], va) <==> IsStart(blocks, va) || va == block.start
    ensures forall i: nat :: StartsAt(blocks + [block], start, i) <==>
      StartsAt(blocks, start, i) || start + 4 * i == block.start
  {
    var longer := blocks + [block];
    forall va: nat ensures IsStart(longer, va) <==> IsStart(blocks, va) || va == block.start {
      if IsStart(blocks, va) {
        var i :| 0 <= i < |blocks| && blocks[i].start == va;
        assert longer[i].start == va;
      }
      assert longer[|blocks|].start == block.start;
    }
  }

  predicate ZeroPair(read: nat -> nat, start: nat, va: nat) {
    start + 4 <= va && (va - start) % 4 == 0 && read(va - 4) == 0 && read(va) == 0
  }

  /** The second word of the first two adjacent zero words, or the end. */
  ghost predicate IsCutoff(read: nat -> nat, start: nat, end: nat, cutoff: nat) {
    && start <= cutoff <= end && (cutoff < end ==> ZeroPair(read, start, cutoff))
    && forall va :: start <= va < cutoff ==> !ZeroPair(read, start, va)
  }

  method FindDataCutoff(start: nat, len: nat, read: nat -> nat) returns (cutoff: nat)
    requires Segment(start, len)
    ensures IsCutoff(read, start, start + len, cutoff)
  {
    var lastZero := WORD - 1;
    var i := start;
    while i < start + len
      invariant start <= i <= start + len && (i - start) % 4 == 0
      invariant forall va :: start <= va < i ==> !ZeroPair(read, start, va)
      invariant lastZero + 4 == i <==> i >= start + 4 && read(i - 4) == 0
      invariant lastZero == WORD - 1 || 0 <= lastZero <= i - 4
    {
      if read(i) == 0 {
        assert (lastZero + 4) % WORD == if lastZero == WORD - 1 then 3 else lastZero + 4;
        if (lastZero + 4) % WORD == i {
          return i;
        }
        lastZero := i;
      }
      i := i + 4;
    }
    return start + len;
  }

  /** The blocks of a segment with extra break points `leads`. */
  ghost predicate Discovered(blocks: seq<Block>, start: nat, len: nat, leads: set<nat>, analyze: Analysis) {
    && Tiles(blocks, start, start + len)
    && forall va :: InSegment(start, len, va) ==>
         (IsStart(blocks, va) <==> va == start || va in leads || IsBreak(analyze, start, start + len, va))
  }

  /** The blocks of what is left of the segment, or one of the two ways to fail. */
  datatype CutResult =
    | Cut(blocks: seq<Block>, len: nat)
    | LeadOutside     // the exception
    | AssertionFails  // of CodeMap, for a lead that is not aligned or lies in the data

  predicate LeadInside(start: nat, len: nat, lead: nat) {
    lead >= start && lead + 4 <= start + len
  }

  /** The segment ends at `start + kept`, where its data begins; without a reader it is all code. */
  ghost predicate IsKept(read: Option<nat -> nat>, start: nat, len: nat, kept: nat) {
    if read.Some? then IsCutoff(read.value, start, start + len, start + kept) else kept == len
  }

  /** The first half of `discoverBasicBlocks` (Rewriter.cpp:219-235). */
  method CutSegment(start: nat, len: nat, leads: set<nat>, analyze: Analysis, read: Option<nat -> nat>)
    returns (r: CutResult, ghost kept: nat)
    requires Segment(start, len) && GoodTargets(analyze)
    ensures Segment(start, kept) && IsKept(read, start, len, kept)
    ensures r.LeadOutside? <==> exists lead :: lead in leads && !LeadInside(start, len, lead)
    ensures r.Cut? <==> forall lead :: lead in leads ==> LeadInside(start, len, lead) && InSegment(start, kept, lead)
    ensures r.Cut? ==> r.len == kept && Discovered(r.blocks, start, kept, leads, analyze)
  {
    kept := len;
    var length := len;
    if read.Some? {
      var cutoff := FindDataCutoff(start, len, read.value);
      length := cutoff - start;
      kept := length;
    }
    if exists lead :: lead in leads && !LeadInside(start, len, lead) {
      return LeadOutside, kept;
    }
    if exists lead :: lead in leads && !InSegment(start, length, lead) {
      return AssertionFails, kept;
    }
    var blocks := CutAtLeads(start, length, leads, analyze);
    r := Cut(blocks, length);
  }

  method CutAtLeads(start: nat, len: nat, leads: set<nat>, analyze: Analysis) returns (made: seq<Block>)
    requires Segment(start, len) && GoodTargets(analyze)
    requires forall lead :: lead in leads ==> InSegment(start, len, lead)
    ensures Discovered(made, start, len, leads, analyze)
  {
    var breaks := DiscoverBreaks(start, len, analyze);
    ghost var found := breaks.marks[..];
    var rest := leads;
    while rest != {}
      invariant rest <= leads
      invariant forall i :: 0 <= i < len / 4 ==>
        (breaks.marks[i] <==> found[i] || start + 4 * i in leads - rest)
      decreases |rest|
    {
      var lead :| lead in rest;
      breaks.InRangeMeansInside(len, lead);
      breaks.Mark(lead);
      rest := rest - {lead};
    }
    made := MakeBasicBlocks(start, len, breaks);
    forall va: nat | InSegment(start, len, va)
      ensures IsStart(made, va) <==> va == start || va in leads || IsBreak(analyze, start, start + len, va)
    {
      var i := (va - start) / 4;
      assert va == start + 4 * i && (IsStart(made, va) <==> StartsAt(made, start, i));
      assert found[i] <==> IsBreak(analyze, start, start + len, va);
    }
  }

  // ---------------------------------------------------------------- what the cut is good for

  lemma StartInsideBlock(blocks: seq<Block>, start: nat, end: nat, i: nat, va: nat)
    requires Tiles(blocks, start, end) && i < |blocks| && IsStart(blocks, va)
    requires blocks[i].start <= va < blocks[i].start + blocks[i].len
    ensures va == blocks[i].start
  {
    var j :| 0 <= j < |blocks| && blocks[j].start == va;
    if j < i {
      Ascending(blocks, start, end, j, i);
    } else if i < j {
      Ascending(blocks, start, end, i, j);
    }
  }

  lemma {:induction false} Ascending(blocks: seq<Block>, start: nat, end: nat, i: nat, j: nat)
    requires Tiles(blocks, start, end) && i < j < |blocks|
    ensures blocks[i].start + blocks[i].len <= blocks[j].start
    decreases j - i
  {
    if i + 1 < j {
      Ascending(blocks, start, end, i, j - 1);
    }
  }

  /** Every address of the segment is in exactly one block. */
  lemma {:induction false} FindBlock(blocks: seq<Block>, start: nat, end: nat, va: nat) returns (i: nat)
    requires Tiles(blocks, start, end) && start <= va < end
    ensures i < |blocks| && blocks[i].start <= va < blocks[i].start + blocks[i].len
    ensures forall j :: 0 <= j < |blocks| && blocks[j].start <= va < blocks[j].start + blocks[j].len ==> j == i
    ensures start <= blocks[i].start && blocks[i].start + blocks[i].len <= end
  {
    var last := |blocks| - 1;
    StartsBelowEnd(blocks[..last], start, blocks[last].start);
    if va >= blocks[last].start {
      i := last;
      forall j | 0 <= j < last ensures blocks[j].start + blocks[j].len <= va {
        Ascending(blocks, start, end, j, last);
      }
    } else {
      i := FindBlock(blocks[..last], start, blocks[last].start, va);
      assert blocks[i] == blocks[..last][i];
    }
  }

  /** Only the last instruction of a block can divert control. */
  lemma OnlyLastInstructionFlows(blocks: seq<Block>, start: nat, len: nat, leads: set<nat>, analyze: Analysis, i: nat,
                                 cia: nat)
    requires Segment(start, len) && Discovered(blocks, start, len, leads, analyze)
    requires i < |blocks| && blocks[i].start <= cia < blocks[i].start + blocks[i].len && InSegment(start, len, cia)
    requires analyze(cia).flow
    ensures cia + 4 >= blocks[i].start + blocks[i].len
  {
    if cia + 4 < blocks[i].start + blocks[i].len {
      var at := FindBlock(blocks, start, start + len, cia);
      assert Breaks(analyze, cia, cia + 4) && InSegment(start, len, cia + 4);
      assert IsStart(blocks, cia + 4);
      StartInsideBlock(blocks, start, start + len, i, cia + 4);
    }
  }

  function AnalysisOf(code: nat -> nat): Analysis {
    (cia: nat) => Analyze(code(cia), cia)
  }

  /** Wherever a branch of the segment goes without an indirect register, and wherever the link it
      leaves behind points, there is the start of a block, as long as it is in the segment. */
  lemma BranchesLandOnStarts(blocks: seq<Block>, start: nat, len: nat, leads: set<nat>, code: nat -> nat, cia: nat,
                             s: BranchState)
    requires Segment(start, len) && Discovered(blocks, start, len, leads, AnalysisOf(code))
    requires InSegment(start, len, cia) && IsBranch(code(cia))
    ensures var after := Execute(code(cia), cia, s); var info := Analyze(code(cia), cia);
      && (InSegment(start, len, after.nip) && (!Taken(code(cia), s) || info.target.Some?) ==>
            IsStart(blocks, after.nip))
      && (InSegment(start, len, after.lr) && after.lr != s.lr ==> IsStart(blocks, after.lr))
  {
    var analyze, after := AnalysisOf(code), Execute(code(cia), cia, s);
    AnalyzeIsSound(code(cia), cia, s);
    if InSegment(start, len, after.nip) && (!Taken(code(cia), s) || analyze(cia).target.Some?) {
      assert Breaks(analyze, cia, after.nip);
    }
    if InSegment(start, len, after.lr) && after.lr != s.lr {
      assert Breaks(analyze, cia, after.lr);
    }
  }

  /** The instruction at `cia` can jump to `va` without a register, or it diverts control and `va` follows
      it. */
  ghost predicate Cuts(code: nat -> nat, cia: nat, va: nat) {
    CanJumpTo(code(cia), cia, va) || ((IsBranch(code(cia)) || IsNCall(code(cia))) && va == cia + 4)
  }

  /** There is no start of a block but the start of the segment, the leads, and the addresses some
      instruction of the segment cuts at. */
  lemma StartsAreExact(blocks: seq<Block>, start: nat, len: nat, leads: set<nat>, code: nat -> nat, va: nat)
    requires Segment(start, len) && Discovered(blocks, start, len, leads, AnalysisOf(code)) && InSegment(start, len, va)
    ensures IsStart(blocks, va) <==>
      va == start || va in leads || exists cia :: InSegment(start, len, cia) && Cuts(code, cia, va)
  {
    forall cia: nat ensures Breaks(AnalysisOf(code), cia, va) <==> Cuts(code, cia, va) {
      AnalyzeIsExact(code(cia), cia, va);
    }
    if IsBreak(AnalysisOf(code), start, start + len, va) {
      var cia :| start <= cia < start + len && cia % 4 == 0 && Breaks(AnalysisOf(code), cia, va);
      assert InSegment(start, len, cia) && Cuts(code, cia, va);
    }
    if cia :| InSegment(start, len, cia) && Cuts(code, cia, va) {
      assert Breaks(AnalysisOf(code), cia, va);
    }
  }

  // ---------------------------------------------------------------- splitting

  /** `SplitBlocks`: cut the block that holds `at`, if it does not start there. */
  method SplitBlocks(blocks: seq<Block>, at: nat, ghost start: nat, ghost end: nat) returns (r: seq<Block>)
    requires Tiles(blocks, start, end) && start % 4 == at % 4 == 0
    ensures Tiles(r, start, end)
    ensures forall va: nat :: IsStart(r, va) <==> IsStart(blocks, va) || (va == at && start <= at < end)
  {
    for i := 0 to |blocks|
      invariant forall j :: 0 <= j < i ==> !Intersects(blocks[j].start, blocks[j].len, at, 4)
    {
      Aligned(blocks, start, end, i);
      if Intersects(blocks[i].start, blocks[i].len, at, 4) {
        if blocks[i].start == at {
          assert IsStart(blocks, at);
          StartsBelowEnd(blocks, start, end);
          return blocks;
        }
        r := SplitAt(blocks, i, at, start, end);
        return;
      }
    }
    if start <= at < end {
      var i := FindBlock(blocks, start, end, at);
    }
    return blocks;
  }

  lemma {:induction false} Aligned(blocks: seq<Block>, start: nat, end: nat, i: nat)
    requires Tiles(blocks, start, end) && start % 4 == 0 && i < |blocks|
    ensures blocks[i].start % 4 == 0
    ensures start <= blocks[i].start && blocks[i].start + blocks[i].len <= end
  {
    if i > 0 {
      Aligned(blocks, start, end, i - 1);
      assert blocks[i].start == blocks[i - 1].start + blocks[i - 1].len;
    }
    if i < |blocks| - 1 {
      Ascending(blocks, start, end, i, |blocks| - 1);
    }
  }

  /** Block `i` of `blocks` is two blocks in `r`. */
  ghost predicate Splits(blocks: seq<Block>, r: seq<Block>, i: nat, left: Block, right: Block) {
    && i < |blocks| && |r| == |blocks| + 1 && r[i] == left && r[i + 1] == right
    && left.start == blocks[i].start && left.len > 0 && left.len % 4 == 0
    && right.start == left.start + left.len && right.len > 0 && right.len % 4 == 0
    && right.start + right.len == blocks[i].start + blocks[i].len
    && (forall j {:trigger r[j]} :: 0 <= j < i ==> r[j] == blocks[j])
    && (forall j {:trigger r[j]} :: i + 1 < j < |r| ==> r[j] == blocks[j - 1])
  }

  lemma SplittingTiles(blocks: seq<Block>, r: seq<Block>, start: nat, end: nat, i: nat, left: Block, right: Block)
    requires Tiles(blocks, start, end) && Splits(blocks, r, i, left, right)
    ensures Tiles(r, start, end)
  {
    forall k, j | 0 <= k && j == k + 1 < |r| ensures r[j].start == r[k].start + r[k].len {
      if k > i {
        assert blocks[k].start == blocks[k - 1].start + blocks[k - 1].len;
      } else if j <= i {
        assert blocks[j].start == blocks[k].start + blocks[k].len;
      }
    }
  }

  lemma SplittingStarts(blocks: seq<Block>, r: seq<Block>, i: nat, left: Block, right: Block, va: nat)
    requires Splits(blocks, r, i, left, right)
    ensures IsStart(r, va) <==> IsStart(blocks, va) || va == right.start
  {
    if IsStart(blocks, va) {
      var j :| 0 <= j < |blocks| && blocks[j].start == va;
      assert r[if j <= i then j else j + 1].start == va;
    }
    assert r[i + 1].start == right.start;
    if IsStart(r, va) && va != right.start {
      var j :| 0 <= j < |r| && r[j].start == va;
      assert blocks[if j <= i then j else j - 1].start == va;
    }
  }

  method SplitAt(blocks: seq<Block>, i: nat, at: nat, ghost start: nat, ghost end: nat) returns (r: seq<Block>)
    requires Tiles(blocks, start, end) && i < |blocks|
    requires blocks[i].start < at < blocks[i].start + blocks[i].len && (at - blocks[i].start) % 4 == 0
    ensures Tiles(r, start, end)
    ensures forall va: nat :: IsStart(r, va) <==> IsStart(blocks, va) || va == at
  {
    var left := Block(blocks[i].start, at - blocks[i].start);
    var right := Block(at, blocks[i].len - left.len);
    r := blocks[..i] + [left, right] + blocks[i + 1..];
    assert Splits(blocks, r, i, left, right);
    SplittingTiles(blocks, r, start, end, i, left, right);
    forall va: nat ensures IsStart(r, va) <==> IsStart(blocks, va) || va == at {
      SplittingStarts(blocks, r, i, left, right, va);
    }
  }
}
