# A model of ps3emu's concurrency, rewriter and integer core

This project models five parts of ps3emu, a PlayStation 3 emulator, and proves what each of them is
for. `dafny verify dfyconfig.toml` checks all of it.

1. **Guest memory with lock-line reservations.** Every 128-byte line of guest memory has a lock and a
   vector of the threads that hold a reservation on it; stores revoke the reservations of other
   threads. `ReservationProtocol` is a step machine in which every lock acquisition and every region
   under the locks is one step and any thread may move at any time; `ReservationInvariants`,
   `ReservationTheorems` and `LostUpdates` prove that load-reserve and conditional store are sound and
   complete in every interleaving, that the locks cannot deadlock and that read-modify-write loops lose
   no update. `ReservedMemory` ties that to the bytes: every byte that changes is accounted for. `ReservationMap` and `MainMemory` are the same operations as objects that update vectors,
   granules, pages and bytes in place, proved against the functions on values of `Slots` and
   `ReservationTable`. The intended meaning is section 1.7.3.1 of the PowerPC Virtual Environment Architecture (Book II).
2. **The static binary rewriter.** `Branches`, `BasicBlocks`, `FlowGraph`, `CsrGraph` and `Partition`
   find the blocks of a program, prune the ones that lead to bad code and divide the rest into parts;
   `LoadStores`, `MergedRuns`, `LoadStoreMerging` and `MergedBlocks` merge neighbouring loads and
   stores; `EmittedCode` and `EmittedSimulation` emit labels and gotos. `RewrittenSegment` joins the
   stages: every part emitted for a segment, entered at any label, does what the one-instruction
   interpreter does until it is left, as long as the loads merged in it are safe to merge. `Dispatch`
   adds the loop around the parts: the whole program, rewritten in part, does what the interpreter
   does alone.
3. **Guest and host calls.** Host functions call guest functions by suspending a coroutine and patching
   NIP and LR. `CallProtocol` models two stacks and the call stubs, as functions and as an object;
   `CallRefinement` and `CallCompleteness` prove that the protocol and an interpreter that simply calls
   itself do the same.
4. **PPU integer instructions.** `BitFields`, `Words`, `Rotates`, `ArithmeticShifts`, `CarryChain` and
   `BBCall`: masks, rotates, shifts with carry, subtraction of long numbers and instruction fields,
   against their arithmetic meaning (sections 3.3.8 and 3.3.12 of the PowerPC User Instruction Set
   Architecture, Book I, version 2.02).
5. **Fast forms against simple ones.** `ConcurrentQueue` against plain sequences, `RsxCache` against
   memory, `TraceReplay` from checkpoints against a replay of everything.

## What the proofs found

- A conditional store to another line fails and leaves an existing reservation standing; the
  architecture ends it (`ReservationTheorems.WriteCondEndsReservationIff`, with a run in
  `FailedStoreKeepsReservation`). So does the unconditional form, which is putlluc, a command of the
  Cell's memory flow controller and not of the PowerPC architecture.
- Merging neighbouring loads is right exactly when no load but the last replaces the shared base and
  every register is loaded last by the same load in both orders. The rewriter tests neither: the pair
  lwz r3,0(r3); lwz r4,4(r3) is merged (`MergedBlocks.MergeIsRightIff`, `BaseReloadIsMerged`). Merging
  stores is always right.
- The list of mergeable mnemonics has "LDZ" where the instruction is named "LD", so doubleword loads
  are never merged (ps3tool/rewrite.cpp:308-312); `LoadStores.AccessSize` follows the code.
- A run of loads or stores that reaches the end of its block is never merged, because it is only
  recorded when another statement follows it. The extraction of blocks into functions depends on that:
  it takes the last printed line to be the last instruction (`MergedBlocks.LastStatementKept`).
- The control flow graph has no edge for a block that just runs on into the next one, so code that
  falls straight into data is not pruned (`FlowGraph.StraightFallthroughHasNoEdge`, with two blocks in
  `FallsIntoRemoved`). That the next block survives with it is guaranteed exactly by a path to it
  (`FlowGraph.SurvivalCarriesOverIff`).
- SUBFIC sets CA to the signed overflow of the difference; the architecture wants the carry
  (`CarryChain.SubficCarryIff`, `SubficCarryIsWrong`). ADDZE leaves CA as it was; that is the carry of
  the architecture exactly if it was zero or the operand is all ones (`ArithmeticShifts.AddzeCarryIff`,
  `AddzeCarryIsWrong`).
- RLWINM does not copy the rotated word to the high-order half; that shows exactly when the mask wraps
  round and the word is not zero (`Rotates.HighWordIff`, with an operand in `HighWordIsLost`), and for
  RLWIMI likewise (`InsertedHighWordIff`).
- A guest function that gets to its call stub with another value in LR has that address freed instead:
  its own stub stays allocated for good (`CallProtocol.StubIsFreedIff`, with a run from a fresh thread
  in `StubIsLost`).
- Clearing the modification pages of the texture cache is right, whatever memory and the updaters are,
  exactly if no clean entry has a marked page (`RsxCache.ResetIsRightIff`). `resetCacheWatch` does not
  test it, so a write between the watch and the reset is lost; `WriteBeforeResetIsLost` is such a run,
  at the end of which a stale value is retrieved. Inserting a key that is in the cache already keeps its
  old updater (`RsxCache.Cache.Insert`).
- A lead that lies in the data of a segment, or is not aligned, is not reported like one outside the
  segment but reaches an assertion (`BasicBlocks.CutSegment`).

## Hypotheses

Memory is flat and in range, and addresses do not wrap. Callbacks of lost reservations take no line
locks, and nothing writes guest memory past the protocol. Guest code does not change. A guest function
called by the host returns through the link register, with its value still there. A host call is the
same function for emitted code and for the interpreter: an emitted NCALL also sets `rewriter_ncall`, so
a host function that uses ps3call does not come back as it does in the interpreter
(ps3emu/ppu/PPUThread.cpp:251-253), and EmittedSimulation.PartSimulates speaks of the host functions
that do not use it. Host functions return to word boundaries, and the map of basic block calls has only
labels of parts that are loaded. Instructions that
take no part in a property are functions the theorems quantify over, and so are the allocator of call
stubs, the part numbers METIS computes and the decoders of cached values.

## Model

| member | source | states |
|---|---|---|
| Slots.InsertAddsOne | ps3emu/ReservationMap.h:30-39 | Inserting into a vector with holes, without a duplicate, adds exactly that element and keeps the elements distinct |
| Slots.ClearExceptKeepsOne | ps3emu/ReservationMap.h:52-67 | Clearing all but one leaves exactly that one, if it was there |
| Slots.ClearOneDropsOne | ps3emu/ReservationMap.h:69-78 | Clearing one removes exactly that one |
| ReservationInvariants.RegionKeepsInv | ps3emu/ReservationMap.h:21-86 | A region under the locks keeps the invariant if every thread's reservation changes as the event it records says |
| ReservationInvariants.StoreKeepsInv | ps3emu/MainMemory.cpp:76-82 | A store of one or two lines revokes the others' reservations there and keeps the invariant |
| ReservationInvariants.ChunkKeepsInv | ps3emu/MainMemory.cpp:96-107 | So does every chunk of writeMemory |
| ReservationInvariants.ReserveKeepsInv | ps3emu/MainMemory.h:180-191 | Taking a line puts the thread in one slot of it and keeps the invariant |
| ReservationInvariants.DropKeepsInv | ps3emu/MainMemory.h:171-178 | Dropping the old reservation, found again under the lock, keeps the invariant |
| ReservationInvariants.CondKeepsInv | ps3emu/MainMemory.h:195-212 | writeCond stores exactly if the thread's reservation is live, and keeps the invariant |
| ReservationInvariants.NextKeepsInv | ps3emu/ReservationMap.h:127-151 | Every step of every thread keeps the invariant on slots, granules, locks, history and callbacks |
| ReservationInvariants.RunKeepsInv | ps3emu/MainMemory.h:154-212 | The invariant holds in every state of every run |
| ReservationTheorems.SlotMeansLiveReservation | ps3emu/MainMemory.h:154-212 | A thread is in a line's slots if and only if it is not between the drop and the insertion of a loadReserve and a loadReserve of its own on the line has not been ended by a reservation, a foreign write, a successful writeCond or a destruction since |
| ReservationTheorems.ConditionalStoreIsExact | ps3emu/MainMemory.h:194-212 | In every interleaving a conditional writeCond succeeds only with a live reservation of its line and fails only without one |
| ReservationTheorems.OneSuccessPerReservation | ps3emu/MainMemory.h:169-212 | Between two successful conditional stores of a thread there is a loadReserve of its own |
| ReservationTheorems.GranuleInOneSlot | ps3emu/ReservationMap.h:30-86 | A granule is in at most one slot of one line, the line it points to |
| ReservationTheorems.CallbacksAreConserved | ps3emu/ReservationMap.h:21-28 | Callbacks handed to loadReserve are, in order, the ones fired and the one still pending |
| ReservationTheorems.WriteCondEndsReservationIff | ps3emu/MainMemory.h:194-212 | After writeCond the thread has no reservation exactly if it had none or had it on the line of the store; the architecture wants none after every conditional store |
| ReservationTheorems.FailedStoreKeepsReservation | ps3emu/MainMemory.h:194-212 | A run in which a failed conditional store to one line leaves a reservation of another that a later store uses |
| ReservationTheorems.HighestHolderMoves | ps3emu/ReservationMap.h:127-151 | The holder of the highest lock taken can move |
| ReservationTheorems.NoDeadlock | ps3emu/ReservationMap.h:127-151 | Whenever a thread waits for a line lock, another thread that holds one can move |
| ReservationTheorems.LocksAscend | ps3emu/ReservationMap.h:127-151 | A thread that waits while holding a lock holds just the line before the one it waits for |
| LostUpdates.UpdateKeepsLoop | ps3emu/ppu/ppu_dasm.cpp:3070-3090 | A successful stwcx. writes the update of the word as it is at that moment |
| LostUpdates.NoUpdateIsLost | ps3emu/ppu/ppu_dasm.cpp:3070-3090 | For any threads, interleaving and other traffic, a word updated by lwarx and stwcx. loops is the fold of the updates in the order of the successful stores |
| ReservedMemory.ByteChangesAreRecorded | ps3emu/MainMemory.cpp:66-108 | In every run, whenever a byte changes, the thread that moves records exactly one write, of the line of the byte, under the locks of an operation that has that byte for that address |
| ReservedMemory.EventsAreTight | ps3emu/MainMemory.cpp:66-108 | Conversely a write of a line is recorded only by a thread under the locks of an operation with a byte on the line, so no reservation is revoked in vain |
| ReservedMemory.RegionWrites | ps3emu/MainMemory.cpp:66-108 | In every run a region under the locks splices in the bytes of a store, of a writeCond that succeeds, or of writeMemory up to the end of the line at most, and nothing else; loadReserve reads its bytes and leaves its granule with the line and the callback |
| ReservedMemory.SoloWriteMemory | ps3emu/MainMemory.cpp:86-108 | writeMemory run to its end alone leaves the whole buffer spliced into memory |
| ReservedMemory.SuccessMeansUntouched | ps3emu/MainMemory.h:154-212 | When a conditional store succeeds, no step of another thread has changed a byte of the line since a loadReserve of its own |
| ReservationMap.ReservationGranule.Lose | ps3emu/ReservationMap.h:21-28 | The callback runs once and the granule loses its line |
| ReservationMap.ReservationLine.Insert | ps3emu/ReservationMap.h:30-39 | The vector becomes the function Slots.Insert of it |
| ReservationMap.ReservationLine.Exists | ps3emu/ReservationMap.h:80-86 | True exactly if the granule is among the members |
| ReservationMap.ReservationLine.Clear | ps3emu/ReservationMap.h:41-50 | The line is empty and every member has lost it, with its callback run once; others are as they were |
| ReservationMap.ReservationLine.ClearExcept | ps3emu/ReservationMap.h:52-67 | All but one have lost the line, with their callbacks run once; the others are as they were |
| ReservationMap.ReservationLine.ClearOne | ps3emu/ReservationMap.h:69-78 | One has lost the line |
| MainMemory.ModificationMap.Mark | ps3emu/ModificationMap.h:33-41 | The pages of the range are marked and no others change |
| MainMemory.ModificationMap.MarkSmall | ps3emu/ModificationMap.h:23-31 | The page and the next are marked |
| MainMemory.ModificationMap.Marked | ps3emu/ModificationMap.h:43-52 | True exactly if some page of the range is marked |
| MainMemory.ModificationMap.Reset | ps3emu/ModificationMap.h:54-60 | The pages of the range are cleared and no others change |
| MainMemory.TouchedPagesAreMarked | ps3emu/ModificationMap.h:33-41 | Every page a written byte falls on is marked |
| MainMemory.MarkedPagesAreExact | ps3emu/ModificationMap.h:33-41 | The pages marked are exactly those that hold an address of the range or the one behind it |
| MainMemory.TouchedLinesAreExact | ps3emu/MainMemory.cpp:86-108 | The lines writeMemory and store revoke are exactly those that hold a byte of the range |
| MainMemory.ChunkOnOneLine | ps3emu/MainMemory.cpp:96-107 | A chunk of writeMemory lies on one line, and the lines done so far are those of the bytes written |
| MainMemory.MainMemory.WriteMemory | ps3emu/MainMemory.cpp:86-108 | Terminates; memory is the old one with the buffer spliced in, exactly the touched lines are revoked for the others, in order, and the pages are marked |
| MainMemory.MainMemory.ReadMemory | ps3emu/MainMemory.cpp:120-133 | Returns the bytes of the range |
| MainMemory.ReadBack | ps3emu/MainMemory.cpp:86-133 | What is written is read back, and a range apart from it reads as before |
| MainMemory.MainMemory.Store | ps3emu/MainMemory.cpp:66-84 | The bytes are spliced in and the others' reservations on the one or two lines are gone |
| MainMemory.MainMemory.DestroyBoth | ps3emu/ReservationMap.h:161-166 | The line, and the next one if there is one, revoked for all but one granule |
| MainMemory.MainMemory.DestroySingleLine | ps3emu/ReservationMap.h:157-159 | The line is empty, everyone on it has lost it with the callback run once, and every other line and granule is unchanged |
| MainMemory.MainMemory.LoadReserve | ps3emu/MainMemory.h:154-191 | Alone: the bytes are read, the old reservation is given up and the new one taken with its callback |
| MainMemory.MainMemory.WriteCond | ps3emu/MainMemory.h:193-212 | Alone: stores exactly if unconditional or reserved; then the bytes are spliced in, nobody is on the line, everyone who was has lost it, and every other line and granule is unchanged |
| ReservationTable.RangeIsRevoked | ps3emu/MainMemory.cpp:96-107 | Revoking the lines of a range one after the other takes the reservations of exactly these lines from everyone else, each callback running once, and changes no other line or granule |
| ReservationTable.RevokeIsSound | ps3emu/ReservationMap.h:52-67 | Revoking a line keeps every granule in one slot of the one line it points to |
| ReservationTable.DropIsSound | ps3emu/MainMemory.h:171-178 | So does dropping a reservation, which empties no other slot |
| ReservationTable.TakeIsSound | ps3emu/MainMemory.h:186-190 | So does taking one, which adds the granule to its line |
| Branches.AnalyzeIsSound | ps3emu/ppu/ppu_dasm.cpp:258-339 | For every CR, CTR and LR the static analysis is right about the branch macros: flow, targets, and that a branch without passthrough is taken and leaves LR alone |
| Branches.BranchEffect | ps3emu/ppu/ppu_dasm.cpp:192-339 | For every word and state, on the fields of the word as numbers: LR is the next address exactly if LK is set and else unchanged, CTR is counted down exactly by a BC or BCLR whose BO says so, the branch is taken exactly if the tests of CTR and CR that BO asks for hold, and the target is the sign-extended displacement, plus the address unless AA is set, or LR or CTR |
| Branches.AnalyzeIsExact | ps3emu/ppu/ppu_dasm.cpp:4813-4844 | The static analysis reports a target or a passthrough exactly if some state makes the interpreter go there or leave it in LR |
| Branches.PassthroughIsExact | ps3emu/ppu/ppu_dasm.cpp:4813-4844 | A branch without link that is said to pass through does so in some state |
| Branches.TargetIsAligned | ps3emu/ppu/ppu_dasm.cpp:190-232 | Direct targets are word-aligned 32-bit addresses |
| BasicBlocks.CodeMap.InRangeMeansInside | ps3tool-core/Rewriter.cpp:38-41 | The wrapping range test is the membership test of the segment |
| BasicBlocks.DiscoverBreaks | ps3tool-core/Rewriter.cpp:45-57 | Exactly the in-range targets and successors of flow instructions are marked |
| BasicBlocks.MakeBasicBlocks | ps3tool-core/Rewriter.cpp:59-75 | The blocks tile the segment and start exactly at its start and the marked addresses |
| BasicBlocks.CutSegment | ps3tool-core/Rewriter.cpp:219-235 | The segment ends at its data, if it is read; a lead outside the segment is an error and one in the data or unaligned an assertion; otherwise the blocks tile the code and start exactly at breaks and leads |
| BasicBlocks.FindDataCutoff | ps3tool-core/Rewriter.cpp:191-206 | The cutoff is the second word of the first two adjacent zero words, or the end |
| BasicBlocks.FindBlock | ps3tool-core/Rewriter.cpp:59-75 | Every address is in exactly one block |
| BasicBlocks.OnlyLastInstructionFlows | ps3tool-core/Rewriter.cpp:45-75 | Only the last instruction of a block is a flow instruction |
| BasicBlocks.BranchesLandOnStarts | ps3tool-core/Rewriter.cpp:45-75 | A step to a direct target, a fallthrough or a link address inside the segment lands on a block start |
| BasicBlocks.StartsAreExact | ps3tool-core/Rewriter.cpp:45-75 | There is no other start of a block than the segment's, the leads, the addresses some instruction can jump to and those behind instructions that divert control |
| BasicBlocks.SplitBlocks | ps3tool-core/Rewriter.cpp:77-96 | The block that holds the address is cut there and the blocks still tile the segment |
| FlowGraph.BuildGraph | ps3tool-core/GraphTools.cpp:12-50 | From a block to each block as many edges as the first has targets where the second starts, weighing 5 for a fallthrough and 1 otherwise, and no others |
| FlowGraph.EdgesAreBranches | ps3tool-core/GraphTools.cpp:27-49 | The graph has an edge exactly where some state makes the last instruction of the block go to the start of the other without a register, or leave it in LR |
| FlowGraph.EdgeForEachWay | ps3tool-core/GraphTools.cpp:27-49 | And as many edges as there are ways: jumping there, passing through to there |
| FlowGraph.MarkReaching | ps3tool-core/Rewriter.cpp:138-143 | The visit of the reversed graph marks exactly what reaches the vertex, and ends |
| FlowGraph.RemoveInvalid | ps3tool-core/Rewriter.cpp:117-129 | The result is the graph restricted to the vertices not marked |
| FlowGraph.RemoveVertices | ps3tool-core/Rewriter.cpp:131-146 | Removes exactly the vertices from which one to be removed is reachable |
| FlowGraph.SurvivorKeepsBlock | ps3tool-core/Rewriter.cpp:117-129 | A surviving vertex keeps its block |
| FlowGraph.SurvivorOfRank | ps3tool-core/Rewriter.cpp:117-129 | Every vertex of the result is a survivor |
| FlowGraph.SurvivorsKeepEdges | ps3tool-core/Rewriter.cpp:117-129 | The result has exactly the edges between survivors |
| FlowGraph.SurvivorsAreClosed | ps3tool-core/Rewriter.cpp:131-146 | No survivor is to be removed or has an edge to a removed vertex |
| FlowGraph.PrunedCodeIsClosed | ps3tool-core/Rewriter.cpp:131-146 | A direct branch out of a surviving block leaves the segment or lands on a surviving block, for every state |
| FlowGraph.StraightFallthroughHasNoEdge | ps3tool-core/GraphTools.cpp:24-47 | A block that runs on without a flow instruction has no edge, so it survives whatever follows it |
| FlowGraph.SurvivalCarriesOverIff | ps3tool-core/Rewriter.cpp:131-146 | Whatever is to be removed, a block survives with another exactly if the graph has a path from the other to it |
| FlowGraph.FallsIntoRemoved | ps3tool-core/GraphTools.cpp:24-47 | A graph in which a surviving block falls into a removed one |
| CsrGraph.DegreeSum | ps3tool-core/GraphTools.cpp:52-71 | The degrees add up to twice the number of edges |
| CsrGraph.OffsetsAscend | ps3tool-core/GraphTools.cpp:52-71 | The offsets are monotone |
| CsrGraph.ToCSR | ps3tool-core/GraphTools.cpp:52-71 | Offsets and rows are those of the graph, end at 2E and fill the arrays exactly, without overrun |
| CsrGraph.RowInFlat | ps3tool-core/GraphTools.cpp:52-71 | The row of a vertex lies between its offset and the next |
| CsrGraph.RowsAreSymmetric | ps3tool-core/GraphTools.cpp:52-71 | The rows are symmetric in multiplicity and weight, with parallel edges and self-loops |
| CsrGraph.RowCounts | ps3tool-core/GraphTools.cpp:52-71 | A row has an entry with the other end and the weight for each end of each edge at the vertex, and no others |
| LoadStores.TransformIsSingle | ps3tool/rewrite.cpp:300-325 | A load or store statement stands for exactly its instruction: the D-form displacement is right for STD too |
| LoadStores.DecodeIsExact | ps3emu/ppu/ppu_dasm.cpp:471-930 | Which words are accesses of what size, and their register, base and sign-extended displacement, on the word as a number |
| LoadStores.StoreThenLoad | ps3emu/ppu/ppu_dasm.cpp:471-930 | A load from where a store stored reads the register modulo the size, register zero as base standing for zero; no other byte and no other register changes |
| LoadStores.StoreIsBigEndian | ps3emu/ppu/ppu_dasm.cpp:790-930 | A store puts the most significant of its bytes at the lowest address |
| LoadStores.BytesOfRead | ps3emu/ppu/ppu_dasm.cpp:471-700 | What a load reads has exactly the bytes of memory |
| MergedRuns.GatheredByte | ps3tool/rewrite.cpp:284-294 | The bytes of the merged store are those of the stores, address by address |
| MergedRuns.ByteAfterPermuted | ps3tool/rewrite.cpp:354-366 | The order of stores that do not overlap is irrelevant |
| MergedRuns.MergedStores | ps3tool/rewrite.cpp:349-373 | Merging a mergeable run of stores changes nothing in any state |
| MergedRuns.ScatteredLoads | ps3tool/rewrite.cpp:276-283 | The registers filled from the one big read are those the loads would fill from the shared base |
| MergedRuns.SafeLoadsMerge | ps3tool/rewrite.cpp:349-373 | Merging a safe run of loads changes nothing in any state |
| MergedRuns.LoadsMergeIff | ps3tool/rewrite.cpp:349-373 | A mergeable run of loads does the same merged in every state if and only if it is safe |
| MergedBlocks.MergeIsRightIff | ps3tool/rewrite.cpp:349-373 | The same, of the emitted statements: merging is right in every state if and only if the base is untouched before the last load and every register has the same last load in both orders |
| MergedBlocks.BaseReloadIsMerged | ps3tool/rewrite.cpp:349-373 | Two loads that pass the tests for merging although they are not safe |
| LoadStoreMerging.RunsAreMaximal | ps3tool/rewrite.cpp:328-348 | The runs found are exactly the maximal ones of length at least two that end before the last statement |
| LoadStoreMerging.SortByDisp | ps3tool/rewrite.cpp:355-357 | A permutation of the run in ascending order |
| LoadStoreMerging.SortingFindsIt | ps3tool/rewrite.cpp:355-364 | If some order of the run has the same base and neighbouring addresses, sorting finds it, and it is the only one |
| LoadStoreMerging.MergeRun | ps3tool/rewrite.cpp:349-371 | Merges if and only if such an order exists, into the access with its sources in that order |
| LoadStoreMerging.ConcreteBasicBlock.FindRuns | ps3tool/rewrite.cpp:328-348 | The first loop collects the runs of the specification |
| LoadStoreMerging.ConcreteBasicBlock.OptimizeAdjacentLoadStores | ps3tool/rewrite.cpp:327-375 | Back-to-front splicing replaces every run found by its merged access and changes nothing else |
| MergedBlocks.PassPreservesMeaning | ps3tool/rewrite.cpp:327-375 | The store pass preserves the meaning of every block, the load pass that of every block whose merged runs are safe |
| MergedBlocks.PassIsWalk | ps3tool/rewrite.cpp:327-375 | A pass over a block puts the merged access in the place of every closed run that can be merged, and copies every other statement |
| MergedBlocks.LastStatementKept | ps3tool/rewrite.cpp:781-793 | The last statement of a block is never merged |
| MergedBlocks.KindStays | ps3tool/rewrite.cpp:327-375 | A pass adds only statements of its own kind, and none moves to or from the end |
| MergedBlocks.StoresStaySingle | ps3tool/rewrite.cpp:423-424 | The load pass leaves the stores for the second pass as they were |
| MergedBlocks.FrontKeepsMeaning | ps3tool/rewrite.cpp:423-424 | After both passes all but the last statement do what all but the last instruction do |
| MergedBlocks.BlockEndsWithItsLastInstruction | ps3tool/rewrite.cpp:423-424 | The last instruction is emitted last and by itself |
| MergedBlocks.TransformedMeaning | ps3tool/rewrite.cpp:300-325 | The statements of a block before the passes do what its instructions do |
| MergedBlocks.BlockKeepsMeaning | ps3tool/rewrite.cpp:300-375 | The emitted statements of a block do what its instructions do, one by one, unless unsafe loads are merged |
| MergedBlocks.RewriteBlock | ps3tool/rewrite.cpp:422-424 | The block holds the statements after transformation, load pass and store pass |
| EmittedCode.OutOfPartTargets | ps3tool/rewrite.cpp:163-183 | The target exactly if it is outside the part, the fallthrough exactly if control can run on to an address outside the part |
| EmittedCode.EmitBlock | ps3tool/rewrite.cpp:420-447 | The text of a block: its statements, whether SET_NIP is redefined, the explicit NIP behind it, whether it is extracted |
| EmittedCode.EmitPart | ps3tool/rewrite.cpp:420-447 | The texts of the blocks in the order of the part |
| EmittedSimulation.MacroMatches | ps3emu/ppu/ppu_dasm.cpp:198-339 | A branch macro in emitted code falls through, goes or returns exactly where the interpreter goes, with the same LR and CTR |
| EmittedCode.InterpretedBranch | ps3emu/ppu/ppu_dasm.cpp:192-339 | The interpreter changes NIP, LR and CTR as the architecture asks for, on the fields of the word, and nothing else |
| EmittedSimulation.LastStatementAgrees | ps3emu/ppu/ppu_dasm.cpp:40-60 | The same for the last statement of any block |
| EmittedSimulation.BodyAgrees | ps3tool/rewrite.cpp:781-793 | The text of a block agrees with the interpreter after as many steps as it has instructions, extracted or not |
| EmittedSimulation.ControlAgrees | ps3tool/rewrite.cpp:163-183 | Every goto finds its label, and falling off a block reaches the label at its end or an explicit NIP |
| EmittedSimulation.BlockSimulates | ps3tool/rewrite.cpp:414-450 | Running one emitted block is running its instructions in the interpreter |
| EmittedSimulation.PartSimulates | ps3tool/rewrite.cpp:414-450 | From any label and for any number of blocks an emitted part is where the interpreter is, at a label or gone with its NIP; it never runs off its end or goes to a missing label |
| Partition.SortBlocks | ps3tool-core/GraphTools.cpp:104-106 | A permutation in ascending order that leaves blocks in order alone |
| Partition.PartitionBasicBlocks | ps3tool-core/GraphTools.cpp:73-108 | With at most one part all blocks are in it; otherwise every block is in exactly the part of its number; each part is ascending and disjoint |
| Partition.ChosenIsExact | ps3tool-core/GraphTools.cpp:72-108 | A part has exactly the blocks with its number |
| Partition.KeptInOrder | ps3tool-core/Rewriter.cpp:117-129 | Pruning keeps the blocks in order |
| Partition.TilesInOrder | ps3tool-core/Rewriter.cpp:59-75 | Discovered blocks are in order |
| Partition.DiscoveredIsGood | ps3tool-core/Rewriter.cpp:45-75 | A discovered block can leave only at its end, which is what emission needs of it |
| RewrittenSegment.PruneBlocks | ps3tool-core/Rewriter.cpp:234-300 | The blocks from which no way leads to an illegal one, in order |
| RewrittenSegment.RewriteSegment | ps3tool/rewrite.cpp:403-450 | From the segment through discovery, graph, pruning and partition to the texts: an error exactly for bad leads; otherwise the blocks of all parts together are the blocks of the code from which no way leads to an illegal one, each once, and every part meets what PartSimulates supposes if its merged loads are safe |
| RewrittenSegment.FlowsAreBranches | ps3tool-core/GraphTools.cpp:27-49 | A block flows to another exactly if some state makes its last instruction go to the start of the other without a register, or leave it in LR |
| RewrittenSegment.DoomedIff | ps3tool-core/Rewriter.cpp:104-155 | A block is pruned exactly if it is illegal or its last instruction can lead to a block that is pruned, so one no branch leads out of to a pruned block survives |
| RewrittenSegment.SurvivesInFrontOfData | ps3tool-core/Rewriter.cpp:104-155 | Code that ends in an unconditional branch without link survives whatever follows it, if its target does |
| RewrittenSegment.SurvivorIsLabel | ps3tool-core/Rewriter.cpp:131-146 | A block of the segment is a label of exactly one part if no way leads from it to an illegal one, and of none otherwise |
| Partition.LabelOfOnePart | ps3tool-core/GraphTools.cpp:98-106 | Every block is in one place of one part, and no other block of the parts has its address |
| Dispatch.CallsEnterParts | ps3emu/ppu/PPUThread.cpp:54-69 | The loop enters a part exactly where the map has a call, with the registers as they are, at the label of the thread's own address, and does one instruction elsewhere |
| Dispatch.TurnSimulates | ps3emu/ppu/PPUThread.cpp:54-69 | One turn of the dispatch loop, or one block of a part, is some instructions of the interpreter, at least one unless it enters a part |
| Dispatch.DispatchSimulates | ps3emu/ppu/PPUThread.cpp:51-70 | The whole program, rewritten in part: after any number of turns the thread is where the interpreter gets to alone, it never goes wrong, and the number of instructions grows with the turns |
| CallProtocol.PPUThread.Ps3CallImpl | ps3emu/ppu/PPUThread.cpp:267-279 | NIP and LR are saved, a fresh stub is allocated and put in LR, NIP is the guest function |
| CallProtocol.PPUThread.NCall | ps3emu/exports/exports.h:115-151 | A host function runs to its end or its first ps3call, and then its coroutine is pushed |
| CallProtocol.PPUThread.Ps3CallThen | ps3emu/ppu/PPUThread.cpp:281-294 | NIP and LR are restored, the top coroutine goes on and is popped at its end, and the stub is freed last |
| CallProtocol.StepKeepsFrames | ps3emu/ppu/PPUThread.cpp:267-294 | Every step keeps saved calls, coroutines and stubs in lockstep, the stubs distinct and exactly the live ones |
| CallProtocol.RunKeepsFrames | ps3emu/ppu/PPUThread.cpp:267-294 | In every state of every run in which guest functions return through the link register the three have equal depth |
| CallProtocol.StacksInLockstep | ps3emu/exports/exports.h:136-141 | Saved calls and coroutines have equal depth whatever the guest does |
| CallProtocol.StubIsFreedIff | ps3emu/ppu/PPUThread.cpp:281-294 | The executed stub is freed exactly if the link register still points to it |
| CallProtocol.StubIsLost | ps3emu/ppu/PPUThread.cpp:281-294 | A run from a fresh thread in which a guest function gets to its stub with another link register, and the stub outlives both stacks |
| CallRefinement.ThenTurn | ps3emu/ppu/PPUThread.cpp:281-294 | A return to a stub is the resumption of the suspended host function with its own NIP and LR |
| CallRefinement.GuestRefines | ps3emu/ppu/PPUThread.cpp:267-294 | A guest function that the recursive interpreter runs to its end returns in the protocol with the same registers, stacks and stubs as they were |
| CallRefinement.HostRefines | ps3emu/exports/exports.h:115-151 | A host function with any number of nested guest calls, likewise; its caller goes on with its NIP and LR |
| CallRefinement.HostCallIsAtomic | ps3emu/exports/ncall.cpp:290-301 | A host call is one step of its caller: the guest goes on behind it with the result of the recursive interpreter and nothing is left behind |
| CallCompleteness.GuestComplete | ps3emu/ppu/PPUThread.cpp:267-294 | Conversely, a guest function that gets back to its stub is run to its end by the recursive interpreter with the same result |
| CallCompleteness.HostComplete | ps3emu/exports/exports.h:115-151 | So is a host function whose call is over |
| CallCompleteness.HostCallReturns | ps3emu/exports/ncall.cpp:290-301 | If the guest is ever no deeper than before a host call, the call returned in between, to its caller, with the result of the recursive interpreter |
| Rotates.MaskIsExact | ps3emu/BitField.h:16-33 | mask(x, y) is exactly the big-endian bits x to y of the width, wrapping round |
| Rotates.RolIsRotation | ps3emu/BitField.h:150-155 | rol is the rotation by the count modulo the width |
| Rotates.DoublewordRotates | ps3emu/ppu/ppu_dasm.cpp:1526-1647 | RLDICL, RLDICR, RLDIC and RLDIMI for all operands: each bit is the rotated bit inside the mask, which may wrap round, and zero or the bit of the target outside |
| Rotates.RldiclIsRemainder | ps3emu/ppu/ppu_dasm.cpp:1526-1534 | RLDICL for all operands is the rotated source modulo a power of two |
| Rotates.RldicrIsMultiple | ps3emu/ppu/ppu_dasm.cpp:1553-1561 | RLDICR for all operands is the rotated source rounded down to a multiple of a power of two |
| Rotates.RldicWraps | ps3emu/ppu/ppu_dasm.cpp:1636-1647 | RLDIC in numbers when its mask wraps round |
| Rotates.RldimiWrapsValue | ps3emu/ppu/ppu_dasm.cpp:1576-1584 | RLDIMI in numbers when its mask wraps round |
| Rotates.ExtractRight | ps3emu/ppu/ppu_dasm.cpp:1516-1534 | The extrdi form of RLDICL, with srdi and clrldi: the field is extracted right-justified |
| Rotates.ExtractLeft | ps3emu/ppu/ppu_dasm.cpp:1538-1561 | The extldi form of RLDICR, with sldi: the field is extracted left-justified |
| Rotates.ClearLeftShiftLeft | ps3emu/ppu/ppu_dasm.cpp:1628-1647 | The clrlsldi form of RLDIC, whose mask does not wrap: bits cleared on the left, the rest shifted left |
| Rotates.InsertRightValue | ps3emu/ppu/ppu_dasm.cpp:1566-1584 | The insrdi form of RLDIMI, whose mask does not wrap: one field of the target replaced |
| Rotates.WordRotates | ps3emu/ppu/ppu_dasm.cpp:1679-1735 | The low-order words of RLWINM and RLWIMI are right for every mask |
| Rotates.HighWordIff | ps3emu/ppu/ppu_dasm.cpp:1679-1708 | The high-order word of RLWINM, and of RLWNM with the count from a register, is right exactly if the mask does not wrap round or the word is zero |
| Rotates.HighWordIsLost | ps3emu/ppu/ppu_dasm.cpp:1679-1687 | An operand whose high-order bits are lost |
| Rotates.InsertedHighWordIff | ps3emu/ppu/ppu_dasm.cpp:1726-1735 | The high-order word of RLWIMI is right exactly if the mask does not wrap round or the word is zero |
| ArithmeticShifts.SradiIsFloor | ps3emu/ppu/ppu_dasm.cpp:1930-1941 | SRADI is division by a power of two rounding down, and CA says that a negative operand lost something |
| ArithmeticShifts.SrawiIsFloor | ps3emu/ppu/ppu_dasm.cpp:1950-1961 | SRAWI likewise, on the low-order word |
| ArithmeticShifts.AddzeAdds | ps3emu/ppu/ppu_dasm.cpp:1085-1090 | ADDZE adds the carry for every operand and CA; only the greatest doubleword wraps |
| ArithmeticShifts.AddzeCarryIff | ps3emu/ppu/ppu_dasm.cpp:1085-1090 | CA as ADDZE leaves it is the carry of the architecture exactly if it was zero or the operand is all ones |
| ArithmeticShifts.AddzeCarryIsWrong | ps3emu/ppu/ppu_dasm.cpp:1085-1090 | An operand for which it is not |
| ArithmeticShifts.SradiAddzeDivides | ps3emu/ppu/ppu_dasm.cpp:1930-1941 | SRADI and ADDZE divide rounding towards zero |
| ArithmeticShifts.SrawiAddzeDivides | ps3emu/ppu/ppu_dasm.cpp:1950-1961 | SRAWI and ADDZE divide the word rounding towards zero |
| CarryChain.FixedPointUnit.SubtractFromCarrying | ps3emu/ppu/ppu_dasm.cpp:1190-1200 | Result and CA together are the difference plus the base |
| CarryChain.FixedPointUnit.SubtractNumbers | ps3emu/ppu/ppu_dasm.cpp:1190-1221 | SUBFC and then SUBFEs over arrays of any length: CA is one exactly if there is no borrow, and the digits are the difference modulo the power of the base |
| CarryChain.FixedPointUnit.SubtractFromExtended | ps3emu/ppu/ppu_dasm.cpp:1211-1221 | Result and CA together are the difference less the borrow plus the base |
| CarryChain.SubtractIsExact | ps3emu/ppu/ppu_dasm.cpp:1190-1221 | SUBFC and any number of SUBFEs: digits and final CA together are the difference |
| CarryChain.NoBorrowIff | ps3emu/ppu/ppu_dasm.cpp:1190-1221 | The final CA is one exactly if there is no borrow, and the digits are the difference modulo the power of the base |
| CarryChain.SubficCarryIff | ps3emu/ppu/ppu_dasm.cpp:1152-1160 | The exact operands for which SUBFIC's CA is the carry of the architecture |
| CarryChain.SubficCarryIsWrong | ps3emu/ppu/ppu_dasm.cpp:1152-1160 | An operand pair for which it is not |
| BBCall.GetIsField | ps3emu/BitField.h:50-68 | Reading a field of the word is quotient and remainder |
| BBCall.SetIsExact | ps3emu/BitField.h:92-95 | Setting a field replaces its bits by the low-order bits of the value and leaves the rest alone, for every geometry narrower than the word; a width of 31 takes (1 << 31) - 1, an overflow of int, to be 0x7fffffff |
| BBCall.SetThenGet | ps3emu/BitField.h:92-95 | Setting and reading a field returns the value |
| BBCall.SetElsewhere | ps3emu/BitField.h:92-95 | A disjoint field reads as before |
| BBCall.AsmBBCall | ps3emu/dasm_utils.h:187-195 | The word has opcode, segment and label in their fields |
| BBCall.DasmBBCall | ps3emu/dasm_utils.h:197-205 | Finds the only segment and label whose call the word is, and fails exactly if it is no call of the opcode |
| BBCall.AsmThenDasm | ps3emu/dasm_utils.h:187-205 | What is assembled is disassembled again |
| BBCall.DasmThenAsm | ps3emu/dasm_utils.h:187-205 | Every word is the call of its fields |
| ConcurrentQueue.ConcurrentQueue.SendNoWait | ps3emu/libs/ConcurrentQueue.h:42-50 | Gives up exactly on a full queue, otherwise the value is the last one queued |
| ConcurrentQueue.ConcurrentQueue.ReceiveStart | ps3emu/libs/ConcurrentQueue.h:52-55 | The receiver joins the waiting ones |
| ConcurrentQueue.ConcurrentQueue.ReceiveFinish | ps3emu/libs/ConcurrentQueue.h:56-62 | The top waiter and the oldest value leave, the rest stays in order, and the value is returned |
| ConcurrentQueue.ConcurrentQueue.TryReceive | ps3emu/libs/ConcurrentQueue.h:64-72 | As many values as fit leave, in order, into the array |
| ConcurrentQueue.ConcurrentQueue.Drain | ps3emu/libs/ConcurrentQueue.h:74-79 | All values leave |
| ConcurrentQueue.StepKeepsInv | ps3emu/libs/ConcurrentQueue.h:42-79 | Every step keeps order, bound and waiting list |
| ConcurrentQueue.QueueIsFaithful | ps3emu/libs/ConcurrentQueue.h:42-79 | Over all runs the values that operations handed out, followed by those queued, are the ones handed in, in order; the bound is kept; receivers served and waiting are those that arrived, with a FIFO queue in that order |
| ConcurrentQueue.ExactlyOneMayFinish | ps3emu/libs/ConcurrentQueue.h:52-62 | With values and receivers exactly one receiver may go on: the first, or one of maximal priority |
| ConcurrentQueue.TakesItsOwnEntry | ps3emu/libs/ConcurrentQueue.h:56-58 | A receiver removes its own entry and no other |
| RsxCache.Cache.Insert | ps3emu/rsx/Cache.h:50-54 | The key is stored unless it was there already, and dirty |
| RsxCache.Cache.Invalidate | ps3emu/rsx/Cache.h:56-65 | Exactly the entries that intersect the range become dirty as well |
| RsxCache.Cache.Sync | ps3emu/rsx/Cache.h:67-76 | A dirty entry becomes the decoding of memory, and clean |
| RsxCache.Cache.SyncAll | ps3emu/rsx/Cache.h:78-85 | All dirty entries do |
| RsxCache.Cache.WatchMarked | ps3emu/rsx/Cache.h:87-97 | Exactly the entries on marked pages become dirty as well |
| RsxCache.Cache.Retrieve | ps3emu/rsx/Cache.h:38-48 | A dirty or up-to-date entry is retrieved as the decoding of the current memory, and a coherent cache stays coherent |
| RsxCache.Cache.ResetWatch | ps3emu/rsx/Rsx.cpp:1804-1811 | Exactly the pages of entries are cleared |
| RsxCache.WriteThenInvalidate | ps3emu/rsx/Cache.h:56-65 | A write and an invalidation of a range that covers it keep the cache coherent |
| RsxCache.WriteKeepsCoherence | ps3emu/ModificationMap.h:33-41 | A write to marked pages keeps the cache coherent but for entries on marked pages |
| RsxCache.ResetIsRightIff | ps3emu/rsx/Rsx.cpp:1804-1811 | Resetting is right for every memory, value and updater the marks allow exactly if no clean entry is on a marked page |
| RsxCache.WriteBeforeResetIsLost | ps3emu/rsx/Rsx.cpp:1797-1811 | A run with a write between watch and reset, after which a clean, unmarked entry is retrieved with the old value |
| RsxCache.MarkedWriteIsSeen | ps3emu/ModificationMap.h:33-60 | A watch sees every write to a range marked since the last reset, in whichever order marking and copying come |
| RsxCache.RunsAreCoherent | ps3emu/rsx/Cache.h:32-97 | In every state of every run, with marking, copying and resetting at any time, dirty keys are stored keys and a retrieved value is the decoding of the current memory unless a write that no watch or invalidation has seen meets the entry |
| RsxCache.PendingIsExact | ps3emu/rsx/Cache.h:56-97 | In every state of every run the writes not seen are exactly those that no invalidation covering them and no watch over their marked pages has followed |
| TraceReplay.MergeState | ps3tool/trace_viz.cpp:135-144 | The registers are those of both; each of the effect has its value and names this change, each other is as it was |
| TraceReplay.MergeIsIdempotent | ps3tool/trace_viz.cpp:135-144 | Merging a change twice is merging it once |
| TraceReplay.MakeKeyChanges | ps3tool/trace_viz.cpp:146-154 | Every fiftieth change gets the replay up to and including it, and nothing else changes |
| TraceReplay.KeyChangesAreKeyed | ps3tool/trace_viz.cpp:146-154 | After that all checkpoints are right and the first change has one |
| TraceReplay.GetState | ps3tool/trace_viz.cpp:156-170 | The state from the nearest checkpoint is the replay of everything, down to who modified each register last |
| TraceReplay.ReplayTo | ps3tool/trace_viz.cpp:146-170 | Making checkpoints in a parsed trace and getting a state from them is replaying the parsed trace: each register has the value of the last change that holds it, and modified names the last change that holds it in either width |

## Left out

- MMIO, raw SPU and other special addresses, memory breakpoints, accesses across a one-megabyte page and the line index at the top of memory.
- Plain unlocked loads, and code that takes a pointer into guest memory: they bypass the protocol.
- Weak memory: the unlocked read of a granule's line is one step of the machine, but relaxed atomics are not modelled.
- Fairness of locks, of the scheduler and of condition variables: deadlock freedom and "exactly one may go on" are proved, progress of a particular thread is not.
- ReservationTheorems.ConditionalStoreIsExact: speaks of reservations per 128-byte line, as the code does, not of the address of the word.
- MergedBlocks.BlockKeepsMeaning: supposes that merged loads are safe; the if-and-only-if is stated for single runs, because what follows a run can hide a wrong register.
- MainMemory.MainMemory.LoadReserve: one thread alone; what other threads do between its regions is the subject of ReservationProtocol.
- MainMemory.MainMemory.WriteCond: one thread alone, likewise.
- EmittedSimulation.LastStatementAgrees: a host call is one function for emitted code and interpreter, as the hypotheses say.
- EmittedSimulation.PartSimulates: NIP inside emitted code is stale and is not part of the state, so host calls are functions that do not read it (EMU register 0 is left out), and they are the same for both sides, as the hypotheses say.
- SPU code: its rewriter, its indirect branches with a position offset, jump tables and the confidence pass of block discovery (ps3tool-core/Rewriter.cpp:239-290).
- The depth-first visit of the graph library is a loop with an explicit stack; the order in which it visits vertices is not modelled.
- `std::sort` is insertion sort; that any sort gives the same merged access is LoadStoreMerging.SortingFindsIt.
- Sets and maps of the standard library that the code iterates in order are sequences or sets of keys here.
- The text of emitted C++ and of disassembly: statements are records of what they do and how many lines they print.
- The path of ps3call that re-enters the dispatch loop for callers that were rewritten themselves (ps3emu/ppu/PPUThread.cpp:251-253): that loop never returns.
- CallRefinement.HostRefines: takes the runs the recursive interpreter finishes; fuel stands for termination, and CallCompleteness shows that every call that returns has enough of it.
- A freed call stub still holds the ncall of ps3call_then until its memory is used again: a guest that jumps there is taken to find guest code.
- Host functions that throw, and the destruction of suspended coroutines at thread exit.
- Exceptions of the dispatch loop, breakpoints and the debugger.
- METIS: any assignment of part numbers is allowed.
- CR0, OV and the record forms of the integer instructions; multiplication, division, logical, string and floating point instructions, AltiVec.
- Setting a field of 32 bits: the shift by the full width is undefined in the code.
- The heap of std::priority_queue: which of several waiters of the highest priority is on top may be any of them after each push and pop.
- Wrap-around of the range sums in the cache's intersection test.
- HeapMemoryAlloc and findGap, CellSemaphore, IDMap, ELF loading, the database, graphics, system calls and the file system.
