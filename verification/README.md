# Verification models of seven components

This project models seven self-contained parts of the repository and proves what
each of them is for. Every file is a Dafny module; `dafny verify dfyconfig.toml`
checks all of them. Code that updates state in the repository is a class or a
method with loops here, tied by its contract to a function or predicate about
which the lemmas speak.

**The reference-count pruner** (`jac/native/custom_passes.cpp`). A function is a list
of blocks of increfs, decrefs, raises and other instructions with successor lists. The
objects that values denote may alias in any way, so counts are kept per object: `Net`
is the change of a count, `Low` the lowest value it takes on the way. Values are fixed
for a whole run, or follow SSA rules (`ControlFlow.Execution`). `Pairing` says when
one incref may be erased together with a decref in each of several blocks; `Subgraph`
derives that from the certificates of the searches; `GraphSearch` and `FanoutWalks`
say exactly what the searches decide; `RefPrune` is the pass. Its fixpoint loop
terminates, preserves the final and the lowest count of every object on every complete
execution, and stops only when no enabled sub-pass has anything left to do;
`FanoutDepth` and `PruneEnds` say what that is on the graph alone, with the limits of
the searches as numbers. `UseCounts` is about the purpose of it all, that an object is
alive where it is used. Four facts deserve a maintainer's attention, each with the
exact condition under which the code is right:

- The diamond prune needs the incref block not to repeat before the decref block,
  which the code does not check (`Diamond.DiamondExact`, `Diamond.LoopingGraphMiscounts`).
- A fan-out or diamond step keeps the counts at the uses if in every decref block no
  use stands between a decref and the erased one, and a block where one does is
  enough to lose it (`UseCounts.ReleaseExact`, `PruneSteps.TwoBlocksExact`).
- The raise mode keeps the counts of a path exactly if the incref and the decref
  blocks pair up on it to the end (`RaisePaths.ExitPathExact`); wherever it forgives
  a raising exit, some complete path miscounts (`RaisePaths.RaiseFanoutMiscounts`).
- The "always fail" marking of incref blocks also gives up increfs that could be
  pruned (`FanoutWalks.BadBlockIsNotAlwaysBad`), though none whose values are
  released in the same blocks (`FanoutWalks.AdmittedInstead`, `FanoutWalks.FailsToo`).

**The JIT section memory manager** (`jac/native/memorymanager.cpp`). The class keeps
the three groups with their free, pending and allocated lists; a ghost history
records the spans, the sections handed out and the page ranges protected. Its
invariant gives the allocator's safety in every reachable state, and
`SectionReserve` gives the reserve-then-allocate guarantee, which
`ReserveThenAllocate` states for one object and any interleaving of the groups;
free whole pages survive finalizing and serve requests again (`FinalizeThenAllocate`).
`SectionWords` says exactly when the same holds of 64-bit words.

**128-bit division** (`jac/bootstrap/python/prepare_native.py`). The IR of
`__udivti3` and `__umodti3`, with bitwise operations on unbounded integers. Each
`nuw`, `disjoint` and `divq` condition is a precondition of the operation that
models it, so it is proved wherever the operation is used.

**TZif** (`jac/js_engine/native/tz_shim/tz_shim.c`). The parser against an encoder
written from sections 3.1 and 3.2 of RFC 8536, the binary search, the offsets
possible for a local time, and in `TzZone` the way from a file's bytes to the offset
at an instant. `TzLayout` says, for any bytes, which are accepted and where each value
stands in them.

**The file-digest cache** (`jac/jaclang/jac0core/cache_paths.py`). The dictionaries of
one process, and a state machine in which any number of processes stat, look up, read
in chunks, check, flush and forget while files are written and deleted. Answers are
right in every run if and only if the delay from stat to check plus the timestamp
granularity is at most the racy window and one tick (`DigestProtocol.DelayExact`), and
what one process has recorded and flushed is not hashed again by others
(`DigestReuse.RecordedIsReused`). `LedgerOrder` adds the order of the dictionaries,
and with it the entries that survive the cap.

**The chess board** (`jac/examples/chess/other_langs/chess.py`). Positions and moves
as values with the Laws of Chess beside them, and the board as mutable pieces and
moves that refine them, up to `play_auto`. `ChessLaws` says square by square where the
men go. `ChessKingTaken` is a game of ten legal
moves in which White castles into a pawn's attack and loses the king.

**Two printer cores.** The Jac0 lexer with `_join_tokens` (`jac/jaclang/jac0.py`), with
the exact condition under which printed tokens read back and with `LexLaws` and
`WrappedStrings` on what texts give what tokens, and the ICU parts emitter
(`jac/js_engine/native/icu_shim/icu_shim.c`), from fields of a UTF-16 string to
labelled bytes.

## Model

| member | source | states |
|---|---|---|
| RefCounts.IncsFirstLow | jac/native/custom_passes.cpp:108-111 | In a block whose increfs come first, any object's count is lowest at one of the two ends. |
| RefCounts.LoweredBlockLow | jac/native/custom_passes.cpp:568-592 | A block entered one lower, with one decref erased, reaches the same lowest count, in normal form. |
| ControlFlow.SameShapeKeeps | jac/native/custom_passes.cpp:255-322 | Erasing refops leaves the paths, the normal form, well-formedness and SSA dominance as they were. |
| RefNormalize.SortedProperties | jac/native/custom_passes.cpp:114-160 | A sorted block is a permutation with its increfs first and its other instructions in order; its net count is the same and its lowest count no lower. |
| RefNormalize.SortedOrder | jac/native/custom_passes.cpp:117-158 | A block without increfs is left alone; in any other, two instructions change their order exactly if the first is a decref and the second is not. |
| RefNormalize.NeverLowerAtUse | jac/native/custom_passes.cpp:114-160 | At every instruction that is no refop, no object's running count is lower after normalising than before. |
| RefNormalize.NormalizePreserves | jac/native/custom_passes.cpp:114-160 | Over every path, normalising keeps each object's net count and never lowers its lowest count. |
| RefNormalize.NormalizeUses | jac/native/custom_passes.cpp:114-160 | On every path, at every use, no object has been lower than it had been before normalising. |
| RefNormalize.NormalizeKeeps | jac/native/custom_passes.cpp:114-160 | Afterwards every block has its increfs before its decrefs; paths and dominance are unchanged. |
| RefNormalize.NormalizeBlock | jac/native/custom_passes.cpp:117-158 | The loop that moves the decrefs leaves the sorted block, and reports a change exactly if the block had both an incref and a decref. |
| RefNormalize.RunOnFunction | jac/native/custom_passes.cpp:114-160 | In place, every block becomes its sorted form, so the whole function is in normal form. |
| BlockPrune.ErasePairKeeps | jac/native/custom_passes.cpp:307-309 | Erasing an incref and a related decref of one block keeps every object's net count and the other instructions in order. |
| BlockPrune.BlockKeepsLow | jac/native/custom_passes.cpp:226-233 | In normal form, per-block pruning also keeps the lowest count, under any aliasing. |
| BlockPrune.DropNulls | jac/native/custom_passes.cpp:261-289 | Exactly the refops on null go, and the counts stay. |
| BlockPrune.FindRelated | jac/native/custom_passes.cpp:296-318 | The scan of the decref list finds a related decref that is still there, if there is one. |
| BlockPrune.PruneBlock | jac/native/custom_passes.cpp:259-320 | A pruned block has no refop on null and no related pair left, keeps every net count, and has fewer refops if it changed. |
| Pairing.CountsTrack | jac/native/custom_passes.cpp:530-606 | If the incref block and the decref blocks take turns and nothing is released between them, then at every point of the path the pruned function owes exactly the pending incref, and has been as low as the original. |
| Pairing.AlternationPreserves | jac/native/custom_passes.cpp:530-606 | On a path that ends with nothing pending, final and lowest counts are the same before and after. |
| Subgraph.FanoutAlternates | jac/native/custom_passes.cpp:628-685 | With both certificates of the search, every path from entry visits the head and the decref blocks in strict alternation starting with the head, runs no decref of any value in between, and does not exit in between. |
| Subgraph.DiamondAlternates | jac/native/custom_passes.cpp:324-366 | The same for the diamond's certificates on paths where the head does not repeat first. |
| Subgraph.TailsNeedHead | jac/native/custom_passes.cpp:872-936 | What the backward walk establishes: every execution of a removed decref has its own execution of the incref since the previous one. |
| Subgraph.OpenInside | jac/native/custom_passes.cpp:772-853 | What the forward walk establishes: while the head is pending, control is at the head or in the enclosed region, though back-edges inside count as done. |
| Subgraph.ExecutionSteady | jac/native/custom_passes.cpp:1017-1029 | The value denotes the same object at the decref as at the incref, by SSA dominance and the backward certificate. |
| Subgraph.FanoutPreserves | jac/native/custom_passes.cpp:530-606 | A fan-out prune preserves every object's final and lowest count on every complete execution that avoids the forgiven blocks. |
| UseCounts.ReleaseExact | jac/native/custom_passes.cpp:568-592 | For a decref block without a related pair: erasing the first related decref, with the block entered one lower, keeps every use at or above the lowest count that the original had reached, for all counts and aliasings, if and only if no use stands between a decref and the erased one. |
| UseCounts.StepUses | jac/native/custom_passes.cpp:530-606 | On every path on which a step pairs up, complete or not, at every use of every block no object has been lower than before, if the decref blocks pass that test. |
| GraphSearch.VerifyFanoutBackward | jac/native/custom_passes.cpp:872-936 | Succeeds exactly if a set of blocks exists behind the tails that is entered from the head only and contains neither the entry nor a way from a tail back to a tail; and returns it. |
| GraphSearch.HasDecrefBetweenGraph | jac/native/custom_passes.cpp:1080-1120 | Finds no decref exactly if a decref-free set holds everything reachable from the head short of the tail; and returns it. |
| PruneEnds.BackwardExact | jac/native/custom_passes.cpp:872-936 | The backward walk succeeds exactly if no walk to a tail that keeps off the head and the forgiven blocks starts at the entry or behind a tail. |
| PruneEnds.QuietExact | jac/native/custom_passes.cpp:1080-1120 | The search between two blocks finds no decref exactly if no walk from the first, short of the second, ends at one. |
| FanoutWalks.StopsHere | jac/native/custom_passes.cpp:777-829 | What the search sees from a block it does not pass: itself, as refused or as noted. |
| FanoutWalks.GoesOn | jac/native/custom_passes.cpp:831-852 | From a block it passes, the walks that are refused or noted are those from its successors. |
| FanoutWalks.BadBlockIsNotAlwaysBad | jac/native/custom_passes.cpp:814-821 | A counterexample to the comment: one incref's search marks a block whose other incref can be fanned out. The next two rows say exactly when. |
| FanoutWalks.AdmittedInstead | jac/native/custom_passes.cpp:814-821 | An incref of another value in the block is admitted if and only if every walk that stops the search for the first value, refused or at a decref of it, ends at a decref of the other. |
| FanoutWalks.FailsToo | jac/native/custom_passes.cpp:814-821 | Marking the block loses nothing if wherever the other value is released the first one is: what fails for the first fails for the other. |
| FanoutSearch.ForwardSearch.WalkChildForDecref | jac/native/custom_passes.cpp:772-853 | The recursive walk succeeds exactly if no walk it follows is refused (or reports the size limit), makes exactly the calls of the unrestricted search when it gets through, collects exactly the decref and raising blocks such walks end at, and yields a closed region. |
| FanoutSearch.ForwardSearch.WalkSuccessors | jac/native/custom_passes.cpp:838-852 | The same for the loop over a terminator's successors; a block without successors is a failure. |
| FanoutSearch.ForwardSearch.FindFanoutDecrefCandidates | jac/native/custom_passes.cpp:720-751 | Succeeds exactly if the incref is admitted and the calls of its search stay within the size limit, with exactly the noted blocks, and a region that control can leave only through them. |
| FanoutDepth.AdmittedExact | jac/native/custom_passes.cpp:720-853 | The forward search gets through exactly if every walk from the incref over distinct blocks without decrefs (and, in the raise mode, without raises) has at most 13 blocks, can go on, and leads only to blocks it has passed, to related decrefs or to blocks without decrefs, never back to the head. |
| FanoutDepth.NotedExact | jac/native/custom_passes.cpp:798-829 | The blocks collected are exactly those with a related decref, or in the raise mode those that raise and release nothing, at the end of a walk with at most 13 distinct decref-free blocks between. |
| FanoutDepth.BinaryInLimit | jac/native/custom_passes.cpp:772-853 | With two-way branches no search exceeds a size limit of 32766 or more. |
| FanoutDepth.LineInLimit | jac/native/custom_passes.cpp:783-788 | Along a straight line of at most 14 blocks the size limit lets the search through exactly if it is no less than their number. |
| PruneEnds.MovableExact | jac/native/custom_passes.cpp:628-685 | An incref can be fanned out exactly if every walk over blocks without decrefs stays clear, some related decref is met (in the raise mode some raising block too), and all of those lie behind the incref alone. |
| Diamond.DiamondPreserves | jac/native/custom_passes.cpp:367-438 | If the incref block lies on no cycle that avoids the decref block, an accepted diamond prune preserves every object's final and lowest count on complete executions. |
| Diamond.DiamondExact | jac/native/custom_passes.cpp:367-438 | For an incref block that some complete path visits, an accepted diamond prune keeps every value's net count on all complete paths if and only if the block lies on no cycle avoiding the decref block. |
| Diamond.LoopingGraphMiscounts | jac/native/custom_passes.cpp:396-431 | A looping function that passes every check of the diamond prune and whose counts change. |
| PruneSteps.FanoutKeeps | jac/native/custom_passes.cpp:530-606 | A fan-out step keeps the promise for all executions and objects at once: final and lowest counts on complete executions, and, in a function where no release can move ahead of a use, the counts at every use on all executions. |
| PruneSteps.DiamondKeeps | jac/native/custom_passes.cpp:396-433 | An accepted diamond step keeps the same promise if the incref block does not repeat before the decref block. |
| PruneSteps.FanoutKeepsUses | jac/native/custom_passes.cpp:530-606 | An accepted fan-out step whose decref blocks pass the test keeps the counts at every use on every execution that avoids the forgiven blocks. |
| PruneSteps.DiamondKeepsUses | jac/native/custom_passes.cpp:396-433 | The same for an accepted diamond whose incref block does not repeat first. |
| PruneSteps.ReleaseMovesAheadOfUse | jac/native/custom_passes.cpp:568-592 | Whatever decref block has a use between a decref and the erased one: behind one incref it makes a function that the fan-out accepts and whose counts at a use are lower afterwards. |
| PruneSteps.TwoBlocksExact | jac/native/custom_passes.cpp:568-592 | For every normalised decref block behind one incref, the fan-out is accepted, and keeps the counts at all uses if and only if the block passes the test. |
| RaisePaths.VisitsExact | jac/native/custom_passes.cpp:755-829 | On any path a fan-out prune keeps the counts if and only if the path visits the incref block and the decref blocks equally often. |
| RaisePaths.ExitPathExact | jac/native/custom_passes.cpp:755-829 | If the raising blocks are exits, a complete path keeps its counts if and only if it ends paired: at a decref block with the incref pending, or elsewhere with nothing pending. |
| RaisePaths.ExitOwes | jac/native/custom_passes.cpp:755-829 | On every complete execution, raising or not, the pruned function ends short of exactly the incref still pending. |
| RaisePaths.RaiseFanoutMiscounts | jac/native/custom_passes.cpp:793-804 | Wherever the raise mode forgives an exit that the search has reached from a reachable incref block, some complete path miscounts. |
| RefPrune.Pruner.RunPerBasicBlockPrune | jac/native/custom_passes.cpp:255-322 | All blocks are clean afterwards, counts are kept on all executions, and refops decrease if anything changed. |
| RefPrune.Pruner.DiamondApplies | jac/native/custom_passes.cpp:388-412 | The tests before a diamond prune succeed exactly if the pair is related, in different blocks, dominated both ways and accepted by both searches. |
| RefPrune.Pruner.RunDiamondPrune | jac/native/custom_passes.cpp:367-438 | Keeps the counts under the diamond condition, lowers the number of refops if it changes anything, and otherwise no pair is left that it would take. |
| RefPrune.Pruner.FindFanout | jac/native/custom_passes.cpp:628-685 | Accepts exactly the increfs that can be fanned out and whose searches stay within the size limit, with exactly their decref blocks and both certificates. |
| RefPrune.Pruner.EraseDecrefs | jac/native/custom_passes.cpp:568-592 | Each decref block loses its first related decref and nothing else. |
| RefPrune.Pruner.RunFanoutPrune | jac/native/custom_passes.cpp:530-606 | Keeps the promise off raising blocks (everywhere without the raise mode), and where those are exits that release nothing lets no count end higher; lowers the number of refops if it changes anything; otherwise, with every search within the size limit, every incref is spent or its block was given up, and the blocks given up lose nothing if their increfs are released in the same blocks. |
| RefPrune.Pruner.GivenUpLosesNothing | jac/native/custom_passes.cpp:530-606 | At the fixpoint, no incref that could be fanned out is left in a block without decrefs whose increfs are released in the same blocks. |
| RefPrune.Pruner.RunOnFunction | jac/native/custom_passes.cpp:201-222 | The fixpoint loop terminates, keeps every object's final and lowest count on complete executions, and ends with nothing left for any enabled sub-pass, which the next three rows say on the graph alone. |
| PruneEnds.NothingMovable | jac/native/custom_passes.cpp:530-606 | With a size limit of at least 32766 and two-way branches, no incref is left, in a block without decrefs whose increfs are released alike, that meets the conditions of `PruneEnds.MovableExact`. |
| PruneEnds.NothingBetween | jac/native/custom_passes.cpp:367-438 | No incref is left with a related decref in another block where the analyses have dominance both ways, no walk from the incref comes to a decref before that block, and every way to that block that keeps off the incref begins after neither the entry nor the block itself. |
| PruneEnds.NothingInBlock | jac/native/custom_passes.cpp:255-322 | When the pass ends, no block holds a refop on null or an incref with a related decref. |
| RefPrune.NormalizeKeepsConditions | jac/native/custom_passes.cpp:1205-1208 | Normalising keeps the analyses sound, the diamond condition and the raising blocks. |
| RefPrune.NormalizeAndPrune | jac/native/custom_passes.cpp:1203-1209 | Both passes in the registered order keep every object's final count, never lower its lowest count, and keep every block in normal form; if no use stands between the decrefs of a block without increfs, no object is lower at any use on any execution; and exits that release nothing never end with a higher count. |
| SectionMemory.FreeEndsOnPage | jac/native/memorymanager.cpp:286-305 | In every reachable state every free block ends on a page boundary. |
| SectionMemory.PurposesApart | jac/native/memorymanager.cpp:217-248 | Memory set aside for different groups never shares a page. |
| SectionMemory.SectionsShareNoPage | jac/native/memorymanager.cpp:217-248 | No page serves sections of two groups. |
| SectionMemory.SealedPagesApart | jac/native/memorymanager.cpp:307-330 | No page of a finalized section holds a byte of a section that is not finalized. |
| SectionReserve.NextAligned | jac/native/memorymanager.cpp:85-88 | However sections of smaller alignments are packed, each uses up at most its size padded to the reserved alignment. |
| SectionReserve.RoomTakes | jac/native/memorymanager.cpp:83-112 | A block with room for a budget satisfies any request within it and keeps room for the rest. |
| SectionReserve.LeftoverHasRoom | jac/native/memorymanager.cpp:175-182 | A leftover block that passes the space test has the promised room, because it ends on a page. |
| SectionReserve.FreshHasRoom | jac/native/memorymanager.cpp:194-229 | So has the part of a fresh mapping. |
| SectionReserve.RoomServes | jac/native/memorymanager.cpp:81-113 | First fit over any free list serves the request and leaves some block with room for the remaining budget, whichever block it takes from. |
| SectionReserve.ReservationSuffices | jac/native/memorymanager.cpp:42-251 | After a reservation, no sequence of requests within its alignment and padded size is refused. |
| MemoryManager.LlvmliteMemoryManager.AllocateSection | jac/native/memorymanager.cpp:42-121 | Keeps the invariant, gives exactly the first-fit section or none, changes no other group, and never touches a page of a finalized section. |
| SectionLaws.ServedExact | jac/native/memorymanager.cpp:52-121 | A request is served exactly if some free block holds its size rounded up to the alignment, or to eight if none is asked for, plus one alignment. |
| SectionLaws.ServedWhere | jac/native/memorymanager.cpp:81-113 | The section starts at the first multiple of the alignment in the first block that is large enough; that block keeps the bytes behind it, and the pending block in front of it grows to the section's end. |
| MemoryManager.LlvmliteMemoryManager.HasSpace | jac/native/memorymanager.cpp:123-130 | True exactly if some free block is large enough. |
| MemoryManager.LlvmliteMemoryManager.ReserveAllocationSpace | jac/native/memorymanager.cpp:132-251 | Leaves everything as it is if the leftover space suffices; otherwise divides the new mapping among the groups in order; either way each group asked for has the room. |
| SectionLaws.ReusedIfServed | jac/native/memorymanager.cpp:155-182 | Leftover space is reused exactly if it would serve the whole request as one section with its alignment raised to eight. |
| SectionLaws.PartIsLeast | jac/native/memorymanager.cpp:158-205 | A group's part of a new mapping is the least number of whole pages that serves its request as one section with its alignment raised to eight. |
| MemoryManager.LlvmliteMemoryManager.ReserveThenAllocate | jac/native/memorymanager.cpp:42-251 | On one object: after a reservation any interleaving of allocations in the three groups, within the reserved alignments and padded sizes, is served without refusal, and the sections handed out are exactly those asked for. |
| MemoryManager.LlvmliteMemoryManager.TrimBlockToPageSize | jac/native/memorymanager.cpp:286-305 | Cuts a block that ends on a page down to its whole pages, without underflow. |
| SectionSteps.TrimAllKeeps | jac/native/memorymanager.cpp:317-327 | Trimming keeps every free block from the least page boundary in it to its end, and nothing else. |
| MemoryManager.LlvmliteMemoryManager.ApplyMemoryGroupPermissions | jac/native/memorymanager.cpp:307-330 | Seals the group's pending sections and protects pages that hold no other section. The free memory left is exactly what each free block had from its first page boundary to its end. |
| MemoryManager.LlvmliteMemoryManager.FinalizeMemory | jac/native/memorymanager.cpp:253-284 | Afterwards every code and read-only section is sealed and lies in a protected page range, nothing of theirs is pending, and their free memory is exactly what it was from each block's first page boundary on; read-write memory is unchanged. |
| MemoryManager.LlvmliteMemoryManager.FinalizeThenAllocate | jac/native/memorymanager.cpp:42-330 | A request that fits the whole pages a block had free before finalizing is served afterwards. |
| SectionWords.RequiredCases | jac/native/memorymanager.cpp:59-60 | On 64-bit words the required size is right exactly for sizes up to two alignments below the top of the address space; beyond it comes out as nothing or as one alignment. |
| SectionWords.AllocationExact | jac/native/memorymanager.cpp:59-112 | The machine's allocation is the proved one if and only if the request stays below that bound or is refused; otherwise the section granted leaves its block. |
| SectionWords.ReservationExact | jac/native/memorymanager.cpp:168-205 | The size asked of the mapper on machine words is the unbounded one if and only if that fits a word. |
| Int128Division.ShortDivision | jac/bootstrap/python/prepare_native.py:66-80 | With a 64-bit divisor the hardware quotient fits 64 bits and both halves and the remainder are right. |
| Int128Division.ShiftFits | jac/bootstrap/python/prepare_native.py:86-97 | The shift is between 0 and 63, the shifted divisor fits 128 bits, and the dividend is below twice the shifted divisor. |
| Int128Division.ReduceStep | jac/bootstrap/python/prepare_native.py:137-145 | One compare-and-subtract step keeps the division invariant one bit further. |
| Int128Division.TwoBits | jac/bootstrap/python/prepare_native.py:141-148 | Both `or disjoint` of a round are disjoint, and append the two quotient bits. |
| Int128Division.LastBit | jac/bootstrap/python/prepare_native.py:121-127 | The tail's `or disjoint` is disjoint, and appends the last bit. |
| Int128Division.DivideLoop | jac/bootstrap/python/prepare_native.py:132-152 | The loop unrolled by two keeps the invariant over its rounds, with the divisor where the tail expects it. |
| Int128Division.DivideShifted | jac/bootstrap/python/prepare_native.py:95-130 | Shifting, looping and the tail give the quotient in two halves. |
| Int128Division.Udivti3 | jac/bootstrap/python/prepare_native.py:54-160 | The quotient of any 128-bit dividend by any non-zero 128-bit divisor. |
| Int128Division.RemainderLoop | jac/bootstrap/python/prepare_native.py:246-268 | The loop unrolled by four keeps the invariant over its rounds. |
| Int128Division.RemainderTail | jac/bootstrap/python/prepare_native.py:228-238 | The tail finishes the remaining one to three bits. |
| Int128Division.RemainderShifted | jac/bootstrap/python/prepare_native.py:201-244 | Shifting, looping and the tail give the remainder in two halves. |
| Int128Division.Umodti3 | jac/bootstrap/python/prepare_native.py:162-276 | The remainder of any 128-bit dividend by any non-zero 128-bit divisor. |
| TzFile.BE32RoundTrip | jac/js_engine/native/tz_shim/tz_shim.c:47-60 | Reading the big-endian bytes of a 32-bit number gives it back. |
| TzFile.BE64RoundTrip | jac/js_engine/native/tz_shim/tz_shim.c:52-56 | The same for 64 bits, through the sign-extended high word. |
| TzFile.ParseTzifBlock | jac/js_engine/native/tz_shim/tz_shim.c:72-161 | The loops that fill the buffers read in bounds and give the parts of the block, or an error exactly if the header, the counts or the length are wrong. |
| TzFile.ParseTzifFile | jac/js_engine/native/tz_shim/tz_shim.c:163-181 | The dispatch on the version, which skips the first block of a version 2 or 3 file. |
| TzLayout.BlockAccepted | jac/js_engine/native/tz_shim/tz_shim.c:74-101 | Exactly those bytes are a block that begin with the magic and six counts that are no negative numbers, with at least one type, and hold the body of 8 or 4 bytes a transition, 1 its type, 6 a type, 8+4 or 4+4 a leap second and so on; and that is how many the parser takes. |
| TzLayout.BlockHolds | jac/js_engine/native/tz_shim/tz_shim.c:72-161 | Every transition, type, offset and designation of a parsed block, read from its own bytes, for any bytes at all. |
| TzLayout.FileHolds | jac/js_engine/native/tz_shim/tz_shim.c:163-181 | The fifth byte decides: zero means one 32-bit block, the digit 2 or 3 that the data stands in the 64-bit block behind a 32-bit one, anything else one 64-bit block; the file parses exactly if those are blocks. |
| TzEncode.BlockRoundTrip | jac/js_engine/native/tz_shim/tz_shim.c:72-161 | Parsing the encoding of any well-formed zone, with anything after it, gives its transitions, types and designations and the number of bytes taken. |
| TzEncode.FileRoundTripV1 | jac/js_engine/native/tz_shim/tz_shim.c:163-181 | A version-1 file reads back. |
| TzEncode.FileRoundTripWide | jac/js_engine/native/tz_shim/tz_shim.c:179-180 | A file of any other version reads back as one 64-bit block. |
| TzEncode.FileRoundTripV2 | jac/js_engine/native/tz_shim/tz_shim.c:163-181 | A version 2 or 3 file reads back from its second block, whatever the first one and the footer are. |
| TzLookup.CountSplits | jac/js_engine/native/tz_shim/tz_shim.c:240-249 | In sorted transitions those at or before an instant are exactly the first so many. |
| TzLookup.OffsetForInstant | jac/js_engine/native/tz_shim/tz_shim.c:231-258 | Whatever the table, the binary search answers for a transition not after the instant whose successor is after it; in a sorted table that is the last transition at or before the instant, or type 0 before the first. |
| TzLookup.PossibleOffsetsForLocal | jac/js_engine/native/tz_shim/tz_shim.c:294-321 | Without duplicates exactly the offsets o whose lookup at local - o gives o, when there is room. |
| TzLookup.HowManyOffsets | jac/js_engine/native/tz_shim/tz_shim.c:294-321 | If transitions are farther apart than the spread of offsets, there are two in an overlap, none in a gap and one elsewhere. |
| TzLookup.NextTransition | jac/js_engine/native/tz_shim/tz_shim.c:323-342 | The nearest transition strictly after or before the instant, or -1. |
| TzZone.OffsetInFile | jac/js_engine/native/tz_shim/tz_shim.c:163-258 | From the bytes of any file to the offset at an instant, or none if it does not parse; sorted tables give the offset in force, others that of a transition with the instant between it and its successor. |
| TzZone.OffsetFromV1 | jac/js_engine/native/tz_shim/tz_shim.c:163-258 | The bytes of any well-formed zone with its transitions in order, as a version-1 file, give at each instant offset and flag of the type set by the last transition not after it, or of type 0 before the first. |
| TzZone.OffsetFromV2 | jac/js_engine/native/tz_shim/tz_shim.c:163-258 | The same for a version 2 or 3 file, whatever its first block and footer hold. |
| DigestCache.DigestModule.DigestShard | jac/jaclang/jac0core/cache_paths.py:254-265 | A shard is loaded once; an unreadable file is an empty shard. |
| DigestCache.DigestModule.FileSha256 | jac/jaclang/jac0core/cache_paths.py:277-302 | One call without interference: the memo's digest of the identity; or else the one that the shared ledger has for it, which is then memoized; or else the hash, recorded exactly if both timestamps are more than two seconds old. |
| DigestCache.DigestModule.Trim | jac/jaclang/jac0core/cache_paths.py:322-323 | What is written is part of what was merged, all of it within the cap; `LedgerOrder` says which part. |
| DigestCache.DigestModule.FlushFileDigests | jac/jaclang/jac0core/cache_paths.py:305-327 | Every dirty shard that can be written is merged into its ledger file with this process's entries winning, no other file changes, and nothing stays dirty. |
| DigestCache.DigestModule.Forget | jac/jaclang/jac0core/cache_paths.py:330-334 | The process forgets everything; the ledger is not touched. |
| DigestProtocol.StepKeeps | jac/jaclang/jac0core/cache_paths.py:277-334 | Every step of any process, and every write or delete, keeps the invariant that recorded entries tell the truth about files that still match. |
| DigestProtocol.InvAlways | jac/jaclang/jac0core/cache_paths.py:166-176 | The invariant holds in every state of every interleaving. |
| DigestProtocol.RecordedEntryOk | jac/jaclang/jac0core/cache_paths.py:293-296 | Under the racy-entry rule an entry from a torn read names an identity that the file no longer has. |
| DigestProtocol.HashIsRight | jac/jaclang/jac0core/cache_paths.py:277-302 | In every run whose delays fit the racy window, a call that no write overlaps returns the digest of the file's contents. |
| DigestProtocol.TornNeverMatches | jac/jaclang/jac0core/cache_paths.py:166-176 | In every run, an entry recorded from a torn read never matches the file again. |
| DigestProtocol.SlowHashLies | jac/jaclang/jac0core/cache_paths.py:178-178 | For every granularity and every delay that together exceed the racy window and one tick, a run in which a slow read records a wrong digest that a later call returns. |
| DigestProtocol.PromptIsHonest | jac/jaclang/jac0core/cache_paths.py:277-302 | Up to that bound every answer that no write overlaps is right, in every run. |
| DigestProtocol.DelayExact | jac/jaclang/jac0core/cache_paths.py:178-302 | All runs with a given granularity and delay answer right if and only if delay plus granularity is at most the racy window and one tick. |
| DigestReuse.LedgerAnswers | jac/jaclang/jac0core/cache_paths.py:288-291 | A process that has not looked at the directory returns, and memoizes, what the ledger has for the identity it took. |
| DigestReuse.RecordedIsReused | jac/jaclang/jac0core/cache_paths.py:277-327 | In every run: a digest that one process records and flushes within the cap answers the first call of any other process whose stat gives the same identity, at once and without a read, as long as no flush of that directory in between drops it. |
| LedgerOrder.UpdateKeeps | jac/jaclang/jac0core/cache_paths.py:316-321 | Merging two ordered shards overlays their contents, leaves the keys on disk in place and appends the new ones in order. |
| LedgerOrder.FlushedIsAllowed | jac/jaclang/jac0core/cache_paths.py:305-327 | What the ordered merge and cut writes is one of the selections of the protocol's flush. |
| LedgerOrder.OldSurvives | jac/jaclang/jac0core/cache_paths.py:321-323 | An entry on disk survives the cap if and only if the entries from it on and the new ones fit, whether or not it was just recorded again. |
| LedgerOrder.NewSurvives | jac/jaclang/jac0core/cache_paths.py:321-323 | A new entry survives if and only if it and the new ones after it fit. |
| LedgerOrder.FreshEntryIsDropped | jac/jaclang/jac0core/cache_paths.py:321-323 | In every full shard the first entry goes as soon as anything is new, even if it has just been hashed again, while a staler one behind it may stay. |
| LedgerOrder.FlushShard | jac/jaclang/jac0core/cache_paths.py:312-324 | The merge of a dirty shard, key order and all. |
| ChessRules.RawMeaning | jac/examples/chess/other_langs/chess.py:167-324 | For all six kinds, the loops list exactly the moves that the Laws' attacks, pushes and captures allow. |
| ChessRules.SlidesReach | jac/examples/chess/other_langs/chess.py:170-189 | A slider reaches exactly the squares on its lines with a clear way and no own man on them. |
| ChessLaws.PawnMoves | jac/examples/chess/other_langs/chess.py:197-240 | A pawn goes one row forward if that is empty, two from its start row if both are, and diagonally onto an enemy or the en passant square, and nowhere else. |
| ChessMoves.UndoRaw | jac/examples/chess/other_langs/chess.py:387-471 | Undoing a raw move restores the position if and only if an en passant move's target square is empty. |
| ChessMoves.UndoCastling | jac/examples/chess/other_langs/chess.py:426-432 | Undoing castling between unmoved men across empty squares restores the position. |
| ChessMoves.UndoRestores | jac/examples/chess/other_langs/chess.py:439-471 | Under the invariant every playable move is undone exactly: men, has-moved flags, en passant square and rights. |
| ChessMoves.EnPassantTakesPawn | jac/examples/chess/other_langs/chess.py:398-400 | En passant always takes the enemy pawn just pushed. |
| ChessMoves.InvKept | jac/examples/chess/other_langs/chess.py:387-437 | Making a playable move keeps the invariant, for the other side. |
| ChessMoves.KeepsRights | jac/examples/chess/other_langs/chess.py:407-420 | An unmoved king and rook never lose their right in the mask. |
| ChessMoves.RightsShrink | jac/examples/chess/other_langs/chess.py:407-420 | A move never adds a castling right. |
| ChessLegal.AttackedMan | jac/examples/chess/other_langs/chess.py:381-385 | A man's square is in the attacked set exactly if an enemy man attacks it under Article 3 of the FIDE Laws. |
| ChessLegal.CheckIsAttack | jac/examples/chess/other_langs/chess.py:552-557 | The check test is true exactly if the king stands attacked. |
| ChessLegal.LegalMeaning | jac/examples/chess/other_langs/chess.py:559-568 | The non-castling legal moves are exactly the raw moves after which the mover's king is not attacked. |
| ChessGame.CastlingPairsOwnMen | jac/examples/chess/other_langs/chess.py:569-625 | A castling move pairs the mover's own unmoved king and rook, although the rook's colour is never tested. |
| ChessGame.CastlingExact | jac/examples/chess/other_langs/chess.py:569-625 | Castling meets Article 3.8 exactly if it is listed and no enemy pawn guards a square the king passes or arrives on. |
| ChessLaws.CastlingMoves | jac/examples/chess/other_langs/chess.py:426-625 | Every castling move listed takes the king from the e-file to the g- or c-file of its row and the rook from that side's corner to the f- or d-file, and changes nothing else. |
| ChessLaws.CastlingLawful | jac/examples/chess/other_langs/chess.py:569-625 | What Article 3.8 allows is exactly what is listed with the king two columns from its square and is not guarded by a pawn. |
| ChessLaws.MoveEffects | jac/examples/chess/other_langs/chess.py:387-437 | What every legal move does: the mover stands on its target, a queen if it was a pawn on a last row; a pawn taken in passing is gone; nothing else has moved; the en passant square is the one a double step passed, or none; and the rights lost are those of a king that moved or a rook that left its corner. |
| ChessGame.EmptyBackSquare | jac/examples/chess/other_langs/chess.py:549-550 | On an empty back-row square the attack test counts pawn pushes and misses pawn attacks. |
| ChessGame.InitialInv | jac/examples/chess/other_langs/chess.py:339-354 | The initial position satisfies the invariant. |
| ChessLaws.FirstPosition | jac/examples/chess/other_langs/chess.py:339-354 | The first position, square by square. |
| ChessGame.LegalPlayable | jac/examples/chess/other_langs/chess.py:559-626 | Every legal move is playable. |
| ChessGame.InvAlways | jac/examples/chess/other_langs/chess.py:715-735 | The invariant holds in every position of every game of legal moves. |
| ChessGame.RightsOnlyLost | jac/examples/chess/other_langs/chess.py:407-420 | Over a game castling rights are only lost. |
| ChessGame.GameUndo | jac/examples/chess/other_langs/chess.py:439-471 | Any move of any game can be undone exactly. |
| ChessKingTaken.ScreenedFrom | jac/examples/chess/other_langs/chess.py:170-324 | A back-row square with the three squares before it taken and no other man within two rows is attacked by no man but a pawn. |
| ChessKingTaken.KingIsTaken | jac/examples/chess/other_langs/chess.py:559-626 | A game of ten legal moves from the initial position in which the ninth castles onto a square that a pawn attacks and the tenth takes the king. |
| ChessBoard.Piece.SlideMoves | jac/examples/chess/other_langs/chess.py:170-189 | The two nested loops give the slides of the position, as new move objects. |
| ChessBoard.Piece.RawMoves | jac/examples/chess/other_langs/chess.py:197-324 | Every kind's method gives the raw moves of the position. |
| ChessBoard.Board.constructor | jac/examples/chess/other_langs/chess.py:335-354 | A new board shows the initial position, each piece on its own square. |
| ChessBoard.Board.MakeMove | jac/examples/chess/other_langs/chess.py:387-437 | On mutable pieces, the position becomes the made one, the move object notes what undoing needs, and every piece's `pos` is its square. |
| ChessBoard.Board.UndoMove | jac/examples/chess/other_langs/chess.py:439-471 | The position and the pieces become those that the move object calls for. |
| ChessBoard.Board.Advance | jac/examples/chess/other_langs/chess.py:387-471 | A playable move, once made, can be undone so that the same pieces stand on the same squares. |
| ChessPlay.Game.FindKing | jac/examples/chess/other_langs/chess.py:541-547 | The first king of the colour, row by row, if any. |
| ChessPlay.Game.AttackedSquares | jac/examples/chess/other_langs/chess.py:381-385 | The loop over the pieces collects the attacked set of the position. |
| ChessPlay.Game.InCheck | jac/examples/chess/other_langs/chess.py:552-557 | The method computes the check test of the position. |
| ChessPlay.Game.CanCastle | jac/examples/chess/other_langs/chess.py:569-589 | The nested tests list castling exactly under the conditions of `MayCastle`, in either direction. |
| ChessPlay.Game.LegalMoves | jac/examples/chess/other_langs/chess.py:559-626 | Making and undoing each move gives exactly the legal moves in order, and leaves the same pieces on the same squares with the same flags. |
| ChessPlay.Game.IsCheckmate | jac/examples/chess/other_langs/chess.py:628-629 | True exactly in check without a legal move; the board is left as found. |
| ChessPlay.Game.IsStalemate | jac/examples/chess/other_langs/chess.py:631-632 | True exactly out of check without a legal move; the board is left as found. |
| ChessPlay.Game.PlayAuto | jac/examples/chess/other_langs/chess.py:715-735 | Plays a game of legal moves of at most 500 moves, whatever is picked, and reports checkmate, stalemate or the move limit truthfully. |
| JoinTokens.JoinParts | jac/jaclang/jac0.py:624-654 | The loop prints the tokens as the specification does, whose blanks `LexLaws.PrintedText` states. |
| LexLaws.PrintedText | jac/jaclang/jac0.py:624-654 | One more token adds its text behind a blank, or behind none in the cases written out. |
| JoinTokens.PunctStays | jac/jaclang/jac0.py:328-385 | Punctuation followed by anything harmless is read with the same length. |
| JoinTokens.NumberStays | jac/jaclang/jac0.py:224-254 | A number ends where it did, unless a point clashes with it. |
| JoinTokens.NumberClashes | jac/jaclang/jac0.py:238-243 | Where a point clashes, the number is read with another length. |
| JoinTokens.ReadString | jac/jaclang/jac0.py:184-222 | A closed string reads back whatever follows that is no quote. |
| LooseStrings.LooseReads | jac/jaclang/jac0.py:184-222 | A string value that is no closed literal never reads back before anything printed behind it. |
| Relex.FirstBack | jac/jaclang/jac0.py:277-385 | The first printed token reads back if it does not clash with the next ones, and does not if it does. |
| Relex.PrintedTokensReadBack | jac/jaclang/jac0.py:620-654 | Relexing the printed text gives back the same types and values if and only if no tokens of the list clash. |
| LexedTokens.ProducedOk | jac/jaclang/jac0.py:277-385 | Every token the lexer makes is of the shape the law needs, a string that is no closed literal, or a backtick name that is no name; there is nothing else. |
| LexedTokens.LexedTokensReadBack | jac/jaclang/jac0.py:151-385 | The law for every list of tokens that the lexer makes: it reads back if and only if no tokens clash, backtick names are names, and a string that is no closed literal stands last and is its own value. |
| LexedTokens.UnclosedReadsBack | jac/jaclang/jac0.py:184-222 | An unclosed string that does read back. |
| LexedTokens.EmptyBacktickIsLost | jac/jaclang/jac0.py:265-275 | A lone backtick makes a token that is lost in print. |
| JacLexer.Lexer.SkipWsAndComments | jac/jaclang/jac0.py:154-173 | The loops skip blanks, line comments and block comments, also unclosed ones. |
| JacLexer.Lexer.IsStringPrefix | jac/jaclang/jac0.py:175-182 | True exactly if prefix letters and a quote follow; the position is restored. |
| JacLexer.Lexer.ReadString | jac/jaclang/jac0.py:184-222 | Takes the literal up to its closing quote or the end, and emits its value with line breaks collapsed where they are. |
| JacLexer.Lexer.ReadNumber | jac/jaclang/jac0.py:224-254 | Takes exactly the number of the specification and emits it at its line and column. |
| JacLexer.Lexer.ReadBacktickName | jac/jaclang/jac0.py:265-275 | Emits the name behind the backtick, marked. |
| JacLexer.Lexer.ReadPunctuation | jac/jaclang/jac0.py:328-385 | Takes the longest of three, two or one characters, and fails exactly if none is known. |
| JacLexer.Lexer.NextToken | jac/jaclang/jac0.py:277-326 | One round skips blanks and comments and reads one token at its own place, or sees the end. |
| JacLexer.Lexer.Tokenize | jac/jaclang/jac0.py:277-385 | Gives exactly the tokens of the text and fails exactly if a character cannot be read. They start one behind the other with nothing but blanks and comments before each, and carry the lines and columns of those places. |
| JacLexer.PlacesCount | jac/jaclang/jac0.py:140-149 | Columns count from one behind the last line break, and lines go up by one at each. |
| LexLaws.KindsAreRight | jac/jaclang/jac0.py:277-385 | In the tokens of every text each kind of punctuation has exactly its own text, and operators exactly the operator texts. |
| LexLaws.LongestMark | jac/jaclang/jac0.py:328-385 | Where an operator or other punctuation stands and no number starts, the token is the longest such text. |
| LexLaws.LineCommentSkipped | jac/jaclang/jac0.py:154-173 | A comment up to the end of its line changes nothing. |
| LexLaws.BlockCommentSkipped | jac/jaclang/jac0.py:154-173 | A block comment up to its first end mark changes nothing. |
| LexLaws.OpenCommentSkipped | jac/jaclang/jac0.py:154-173 | An unclosed block comment hides the rest of the text. |
| LexLaws.NameIsRead | jac/jaclang/jac0.py:256-263 | A run of word characters from a letter or underscore is a name, unless a quote behind it could make it a prefix. |
| LexLaws.BacktickIsRead | jac/jaclang/jac0.py:265-275 | A backtick and a word give a marked name. |
| LexLaws.StringIsRead | jac/jaclang/jac0.py:184-222 | A quoted text on one line, with escapes and prefixes, is one string token as it stands. |
| LexLaws.TripleIsRead | jac/jaclang/jac0.py:184-222 | A triple-quoted text is one string token with its line breaks. |
| LexLaws.DecimalIsRead | jac/jaclang/jac0.py:234-254 | Digits with a fraction, an exponent and an imaginary mark, any of them missing, are one number token. |
| LexLaws.RadixIsRead | jac/jaclang/jac0.py:227-233 | A number in another radix is one token. |
| WrappedStrings.WrappedIsRead | jac/jaclang/jac0.py:184-222 | A quoted text with line breaks gives one string token with its words joined by single blanks, whatever separated them. |
| Utf8Index.IndexMapIsOffset | jac/js_engine/native/icu_shim/icu_shim.c:1107-1129 | For well-formed UTF-16 the map gives each code-point boundary its byte offset in the UTF-8 form of section 3 of RFC 3629. |
| Utf8Index.CodePointBits | jac/js_engine/native/icu_shim/icu_shim.c:1110-1129 | The bytes of a code point, by the length that the map counts, carry its bits as in section 3 of RFC 3629. |
| Utf8Index.FieldBytes | jac/js_engine/native/icu_shim/icu_shim.c:1130-1139 | A field between code points is mapped to exactly the bytes of its part of the string. |
| Utf8Index.BuildMap | jac/js_engine/native/icu_shim/icu_shim.c:1110-1129 | The loop fills the map, both halves of a pair included. |
| Utf8Index.UcharFieldsToUtf8 | jac/js_engine/native/icu_shim/icu_shim.c:1107-1141 | Every field's offsets are clamped and mapped in place. |
| IcuParts.OwnerIsInnermost | jac/js_engine/native/icu_shim/icu_shim.c:1062-1081 | A byte's owner is a covering field of smallest span, the last of those, or none if no field covers it. |
| IcuParts.LayFields | jac/js_engine/native/icu_shim/icu_shim.c:1062-1081 | The nested loops over the owner array give every byte its owner, within the range of a signed byte. |
| IcuParts.PartsMakeString | jac/js_engine/native/icu_shim/icu_shim.c:1082-1105 | The values of the parts concatenate to the formatted string. |
| IcuParts.LabelOfByte | jac/js_engine/native/icu_shim/icu_shim.c:1085-1102 | Each byte lies in a part labelled by the byte's owner. |
| IcuParts.AppendPart | jac/js_engine/native/icu_shim/icu_shim.c:1034-1050 | Appends the separators, type and value with a final zero, exactly if they fit. |
| IcuParts.EmitPartsFromFields | jac/js_engine/native/icu_shim/icu_shim.c:1052-1105 | Succeeds exactly if the whole text and its final zero fit, and then the buffer holds it. |
| IcuParts.PartsReadBack | jac/js_engine/native/icu_shim/icu_shim.c:1034-1050 | Cut at every byte 0x1E, the text gives one piece a part, and each piece, cut at 0x1F, the part's type and value, if none contains either byte. |
| FieldParts.CoversHeld | jac/js_engine/native/icu_shim/icu_shim.c:1062-1141 | A byte is covered by a mapped field exactly if the field begins before the end of the byte's code point in the UTF-16 string and goes on at least to that end. |
| FieldParts.FieldsLabelBytes | jac/js_engine/native/icu_shim/icu_shim.c:1052-1141 | For every well-formed string and any fields, in order and inside it or not: the parts make up its bytes, and each byte's part is labelled by the innermost field that holds its code point, or is a literal if none does. |
| FieldParts.WrittenReadsBack | jac/js_engine/native/icu_shim/icu_shim.c:1034-1105 | For every string and labels without the bytes 0x1E and 0x1F, the written text is cut back at those bytes into parts whose values make up the string. |
| FieldParts.EmitParts | jac/js_engine/native/icu_shim/icu_shim.c:1231-1239 | The end of the formatting functions: fields mapped in place, then the parts written, exactly if they fit. |

## Left out

Pruner:

- Diamond.DiamondPreserves: asks that the incref block lies on no cycle avoiding the decref block, which the code does not check; `Diamond.DiamondExact` proves this to be the exact condition.
- RefPrune.Pruner.RunFanoutPrune: in raise mode the counts are promised for executions that enter no raising block. On the others the code does not keep them in general: `RaisePaths.ExitPathExact` says on which it does when raising blocks are exits, `RaisePaths.VisitsExact` on any path, and `RaisePaths.RaiseFanoutMiscounts` that some complete path miscounts wherever such an exit is forgiven.
- PruneSteps.FanoutKeeps: promises the counts at the uses for functions in which no block without increfs has a use between two decrefs; the test a single step needs is weaker, and exact (`PruneSteps.FanoutKeepsUses`, `PruneSteps.TwoBlocksExact`).
- Dominator trees are not computed; dominance is taken by its definition over paths, and the analyses may report less than holds but nothing false.
- Poison and undefined operands are ordinary values that may denote any object; the terminator is not part of a block's instructions; successor lists are the terminator's successors.
- Pass registration beyond its order, flags as a bit mask, statistics and debug output.

Memory manager:

- MemoryManager.LlvmliteMemoryManager.ReserveAllocationSpace: takes the fresh mapping as a parameter that is page-aligned, large enough and overlaps no earlier one; mapping failures are not modelled.
- MemoryManager.LlvmliteMemoryManager.FinalizeMemory: protection errors and instruction-cache flushing are not modelled.
- SectionReserve.ReservationSuffices: is on unbounded integers; `SectionWords.AllocationExact` and `SectionWords.ReservationExact` say exactly when the source's 64-bit words agree. Masking with `~(a - 1)` is rounding to a multiple of a power of two.
- The destructor and the mapper interface.

Division:

- The build driver around the IR text. `poison` operands are arbitrary values that are never selected.

TZif:

- File opening, `TZDIR`, the slot table of handles and out-of-memory paths.
- TzLookup.OffsetForInstant: in transitions that are not sorted, which the parser accepts, several transitions can have the instant between them and their successor; the answer is for one of those.
- TzLookup.PossibleOffsetsForLocal: the difference of local time and offset is on unbounded integers; signed shifts of the source are taken as two's complement.

Digest cache:

- DigestCache.DigestModule.Trim: keeps any entries up to the cap, because maps here have no order; the protocol's proofs hold for every choice, and `LedgerOrder` has the order and the one that is made.
- DigestProtocol.HashIsRight: assumes that ctime advances on every write up to the timestamp granularity, and that the delay from stat to check plus the granularity is at most the racy window and one tick, which `DigestProtocol.DelayExact` proves to be the exact bound.
- Write-once runtime `site` files, whose identity has no inode or ctime; collisions of SHA-256 and of the 16-digit shard names.
- The lock and the atomic replacement are one step each; cache-root lookup, path resolution, telemetry counters and the exit hook.

Chess:

- ChessGame.CastlingExact: the code lists castling into or through a pawn's diagonal attack, so a king can be captured later (`ChessKingTaken.KingIsTaken`); the invariants therefore do not assume that kings exist.
- ChessPlay.Game.PlayAuto: any move may be picked; the generator's numbers are not modelled, nor the flag `is_over`, which automatic play never sets.
- `pieces_of` and `piece_map` are one listing in row order; long methods of the source are divided into several methods here.
- Display, evaluation, input parsing, interactive play and the benchmark.

Lexer and printer:

- Relex.PrintedTokensReadBack: the backtick mark is not printed, so it does not read back; line and column of the printed tokens are new.
- The character classes of the host language are a parameter, with the few facts about them that the lexer's characters need; the final end-of-input token and error texts are not modelled.
- Keywords, the grammar, decorators and code generation.

ICU parts:

- IcuParts.EmitPartsFromFields: the label of a field is a parameter, any function of the field's code and the bytes of the part; the two label tables are case lists over constants of ICU's headers, which are not part of this model; at most 64 fields, as the callers allow.
- FieldParts.EmitParts: takes the converted string from the caller; a string with a zero character, which the source cuts there, is not covered.
- Calls into ICU and out-of-memory paths.
