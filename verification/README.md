# TinyCLR runtime: a verified model

This project models the memory manager of the TinyCLR runtime, the small .NET virtual machine under
`CLR/Core`, together with the other places of the runtime where a fast or stateful mechanism must agree with
something simple, and proves that it does:

- the clustered heap: allocation, coalescing, the free lists, event blocks and their cache;
- the collector: marking with a bounded stack that drops work when it is full, recovery by rescanning,
  finalizer resurrection, sweeping, and compaction in batches with pointer fix-up;
- the IL to ARM compiler for integer code, against the interpreter;
- the virtual-method cache and its index rings, and the AVL tree of the alternative build;
- monitors and wait handles, as machines of steps over all runs;
- the compiler's branch tables and the UTF-8/UTF-16 converters.

`dafny verify dfyconfig.toml` checks everything.

## How the heap is modelled

Memory is an array of cells, one per `CLR_RT_HeapBlock` (12 bytes). A cell has a data type, the flags alive,
event and pinned, a size, and data that is either a reference or anything else. A block is a header cell and
the cells behind it, as many as its size says. A cluster is a range of addresses that is *tiled*: walking from
header to header by size covers it exactly. A cluster's free list is a sequence of addresses; the invariant
says that it is exactly the list of free blocks met on that walk, and that no two free blocks are adjacent.
Everything the heap does is stated with functions that follow this walk (`Starts`, `Live`, `FreeList`,
`FreeSize`), so that they split at any block boundary. While blocks are moved or given back, a stretch of a
cluster belongs to nobody; that intermediate shape (`HoleOk`) has its own lemmas.

Compaction is specified by the regions it records: a linear scan over them (`Reloc`) says where an address
went. `Preserved` says that every block in use of the old heap is at its relocated address with every cell
the same except for relocated pointers, and that there are no other blocks. What a compaction achieves is said
of the free blocks as intervals (`Gaps`): which one each turn of the loop fills with which blocks, that nothing
else is left to pack when nothing pinned lies above free space, and when nothing moves at all.

Marking is specified by reachability over reference chains. The state of an unfinished mark carries what has
been dropped, which marked blocks a rescan has still to come to, and which root cells have been handed over;
every step of the worklist loop keeps: whatever a marked block refers to is marked, still on the work, or
dropped, and every dropped cell belongs to a marked block that is no event.

Collections and compactions can follow each other in any order: `HeapRuns.Runnable` is what each of them asks
for and what each of them leaves, with the roots, the finalizers and the event cache that go with the heap.

The protocols (wait handles, monitors) and the index rings are given as functions of their state first (`Step`,
`Drain`, `Promoted`); the loops and list walks are proved to compute these functions, and the promises are
proved of the functions, for all runs. Where a queue loses some of its members, `Selection.Picks` says that the
others stay, each once and in their order.

## Where the code and its description differ

- Finalization: an object that is dead before resurrection does not always get its finalizer pending. If an
  object listed earlier refers to it, it is marked before it is looked at. `DoomedNotPended` is the smallest
  instance, a run of `Collector.Mark` over two objects. It does work when no doomed object on the list is
  reachable from an object listed before it (`Independent`), and, with a mark stack of at least two entries more
  than there are blocks (`Ample`), only then: marking cannot overflow on such a stack. What does hold for every
  list and every overflow is that the alive set ends up exact and no finalizer is lost.
- Compiled binary operations: the compiler gives the result the static type of the second operand and chooses
  the instructions by the first. `MixedOperandsDisagree` shows that with operands of different types the two
  sides never agree; `ProgramSimulates` therefore asks for what ECMA-335 (Partition III, section 1.5) asks for,
  operands of one type.
- A branch to the end of a method is accepted by `OffsetToIndex`, which knows the slot behind the last opcode,
  but has no IN slice, because only real opcodes get one.
- Characters outside the basic plane do not survive the two converters, because encoding adds the base of the
  supplementary planes and decoding does not take it off again. `RoundTrip` says what comes back for every
  well-formed string, the string with each high surrogate 0x40 larger, and that this is the string itself if and
  only if all of it is in the basic plane. `SurrogatePair` is an instance: U+10000 comes back as U+20000.
- Field cells that a mark visits keep their alive flag after the sweep, which clears headers only. The heap
  after a collection is therefore the same up to such leftover marks (`InPlace`).

## Model

| member | source | states |
|---|---|---|
| `HeapCluster.Heap.InsertInOrder` | CLR/Core/CLR_RT_HeapCluster.cpp:204-239 | returning a stretch links it in address order and merges it with both free neighbours: the cluster is tiled and coalesced again, its live blocks are the same, its free size grew by exactly the stretch, and the address returned is the block that now holds it |
| `HeapCluster.InsertDone` | CLR/Core/CLR_RT_HeapCluster.cpp:204-239 | whichever neighbours merge, the relinked list is the list of free blocks of the new tiling |
| `ClusterAllocation.ExtractBlocks` | CLR/Core/CLR_RT_HeapCluster.cpp:40-132 | fails exactly when no free block is large enough; otherwise takes from the first that fits in scan direction (from its end for events), disjoint from every live block, reduces free space by exactly the length, and zeroes if asked |
| `ClusterAllocation.CutCluster` | CLR/Core/CLR_RT_HeapCluster.cpp:77-127 | cutting a free block at either end leaves a tiled, coalesced cluster whose list is the updated one |
| `Sweep.RecoverFromGC` | CLR/Core/CLR_RT_HeapCluster.cpp:136-202 | from any tiling, whatever the old list: exactly the alive blocks remain, in place, non-events unmarked, everything else is coalesced free space, and free plus retained is the payload |
| `Sweep.DeadRun` | CLR/Core/CLR_RT_HeapCluster.cpp:153-175 | finds the maximal run of dead blocks, ending at a live one or at the end of the cluster |
| `HeapSetup.AllocateHeaps` | CLR/Core/Execution.cpp:207-236 | every cluster but the last takes exactly the cluster size, the last what remains; each is its record followed by all whole blocks that fit, in ascending, separate ranges; what is left over is no more than a record; none only for a region that holds no more than a record |
| `HeapSetup.InitializeCluster` | CLR/Core/CLR_RT_HeapCluster.cpp:9-38 | a fresh cluster is a single free block of the whole payload |
| `HeapAllocator.Allocator.ExtractHeapBlocks` | CLR/Core/Execution.cpp:1563-1675 | collects, cached blocks included, at most once and only if nothing fits; fails exactly when nothing fits in the heap last scanned; serves from the cluster the rules prefer and remembers it unless for an event; asks for compaction exactly when it fails after a collection with enough bytes free in all; the event cache stays right |
| `HeapAllocator.Scan` | CLR/Core/Execution.cpp:1587-1635 | the shortcut over the cluster used last changes which cluster serves, never whether one does |
| `HeapAllocator.NoFitNoRun` | CLR/Core/Execution.cpp:1563-1675 | because free blocks are coalesced, no block fits exactly when no run of that many free cells exists at all |
| `HeapAllocator.CacheKept` | CLR/Core/Execution.cpp:1587-1635 | an allocation from a cluster leaves every cached block cached |
| `EventCache.Cache.AppendNode` | CLR/Core/Cache.cpp:401-420 | the block becomes cached in the list for its size, the heap's blocks stay the same |
| `EventCache.Cache.ExtractNode` | CLR/Core/Cache.cpp:422-540 | falls through exactly when no cached block has the size, or for 32 cells and more at most a quarter more; gives out the first block of the size, or the best fit among large ones; an unused tail is a block of its own and cached; nothing else leaves or enters the cache, and free space is unchanged |
| `EventCache.NothingServes` | CLR/Core/Cache.cpp:481-540 | the one list that is looked at holds every cached block that may serve |
| `EventCache.FindBest` | CLR/Core/Cache.cpp:425-452 | the first of the smallest blocks with size in n to n*20/16, none exactly when no block is in that window |
| `EventCache.SplitInHeap` | CLR/Core/Cache.cpp:459-468 | cutting a block in two keeps every cluster tiled, coalesced and listed, and adds exactly one block |
| `EventCache.Cache.Cleanup` | CLR/Core/Cache.cpp:373-397 | exactly the cached blocks are marked dead and cleared, the cache is empty, and the total returned is their size |
| `Relocation.RelocatePointer` | CLR/Core/GarbageCollector_Compaction.cpp:390-431 | bounds test and binary search give what a linear scan of the regions gives, for every pointer |
| `Relocation.Bounds` | CLR/Core/GarbageCollector_Compaction.cpp:317-334 | the tightest bounds of all regions |
| `Relocation.AddBlock` | CLR/Core/GarbageCollector_Compaction.cpp:285-309 | a region inserted anywhere keeps the regions sorted and disjoint, and redirects exactly its own addresses |
| `Relocation.RelocCompose` | CLR/Core/GarbageCollector_Compaction.cpp:125-137 | relocating by one batch and then by the next is relocating by both at once |
| `RelocationPass.Relocator.AddBlock` | CLR/Core/GarbageCollector_Compaction.cpp:285-315 | the recorded region redirects exactly its own addresses; a batch that is full is flushed at once: every pointer is relocated by it and the batch is empty, otherwise nothing but the batch changes |
| `RelocationPass.Relocator.HeapRelocate` | CLR/Core/GarbageCollector_Compaction.cpp:317-375 | after a flush every pointer of every block in use and every root is relocated, free blocks and block layout untouched, the batch empty |
| `RelocationPass.PreservedFlush` | CLR/Core/GarbageCollector_Compaction.cpp:317-375 | a flush in the middle of a compaction keeps every block equal to its original up to relocation by all flushed regions |
| `CompactionMoves.SlideDown` | CLR/Core/GarbageCollector_Compaction.cpp:152-219 | moving a run of blocks over the free block before it, overlapping or not, keeps the cluster tiled and coalesced with the same free size and the blocks copied whole |
| `CompactionMoves.FillFree` | CLR/Core/GarbageCollector_Compaction.cpp:203-219 | filling a free block from elsewhere leaves its remainder as a free block in the list |
| `CompactionMoves.Vacate` | CLR/Core/GarbageCollector_Compaction.cpp:221-230 | the space the run leaves is free, coalesced and listed |
| `CompactionSpec.PreservedMove` | CLR/Core/GarbageCollector_Compaction.cpp:84-262 | moving one run and recording it keeps the correspondence between old and new blocks, contents, interior offsets and pinned addresses included |
| `Compaction.StepMove` | CLR/Core/GarbageCollector_Compaction.cpp:139-242 | one turn of the loop records exactly one move: all movable blocks behind an adjacent region, otherwise the longest prefix that fits; the region is given up, and nothing changes, only when the first block does not fit; the region to go on with, the next cursor and all free blocks afterwards are given, and all invariants hold again |
| `CompactionPacking.PackedTurn` | CLR/Core/GarbageCollector_Compaction.cpp:139-242 | with nothing pinned above free space, a turn leaves at most one free block behind the source cursor, right before it |
| `CompactionPacking.RegionPlace` | CLR/Core/GarbageCollector_Compaction.cpp:89-242 | then the free region is always right before the cursor or at the end of an earlier cluster |
| `CompactionPacking.GoesOnAfterCopy` | CLR/Core/GarbageCollector_Compaction.cpp:203-235 | the region after a full one is the next free block, or the vacated space if that has swallowed it |
| `CompactionIdle.TriedNext` | CLR/Core/GarbageCollector_Compaction.cpp:232-262 | a region given up while nothing has moved cannot take in the next movable block |
| `Compaction.CompactFrom` | CLR/Core/GarbageCollector_Compaction.cpp:84-262 | the loop terminates by remaining source, then remaining free regions, although a free region may step back |
| `Compaction.HeapCompact` | CLR/Core/GarbageCollector_Compaction.cpp:36-275 | for every well-formed heap and every batch size: all blocks preserved, unmovable ones in place, regions sorted, disjoint, downward and inside clusters, total free size unchanged, roots relocated, heap well formed; if every block in use above free space may be moved, each cluster ends with its free space in one block at its end; whatever is pinned, nothing moves only if no free block can take in the next movable block |
| `Compaction.GraphPreserved` | CLR/Core/GarbageCollector_Compaction.cpp:36-275 | a slot that held a reference to offset o of block b holds, in the moved block, a reference to offset o of the moved block b |
| `Compaction.RawPreserved` | CLR/Core/GarbageCollector_Compaction.cpp:36-275 | cells without a reference are copied as they are |
| `Compaction.OutsidePointer` | CLR/Core/GarbageCollector_Compaction.cpp:390-431 | references that lead out of the heap are not changed |
| `Compaction.BijectionOnBlocks` | CLR/Core/GarbageCollector_Compaction.cpp:36-275 | no block is lost, invented or merged |
| `CompactedGraph.ReachabilityPreserved` | CLR/Core/GarbageCollector_Compaction.cpp:36-275 | a block is reachable after compaction from the moved roots exactly when the block it was is reachable before |
| `CompactedGraph.EdgeBack` | CLR/Core/GarbageCollector_Compaction.cpp:317-375 | every reference of a moved block comes from a reference of the old block |
| `HeapRuns.CompactedCollectable` | CLR/Core/GarbageCollector_Compaction.cpp:36-275 | what a collection asks of heap, roots and finalizer lists holds after a compaction, for the relocated roots and finalizers |
| `HeapRuns.CacheStays` | CLR/Core/GarbageCollector_Compaction.cpp:36-275 | cached blocks are where they were and still cached |
| `HeapRuns.HeldAgain` | CLR/Core/GarbageCollector.cpp:133-229 | root cells that lay in marked events still do after a collection |
| `HeapRuns.Collect` | CLR/Core/Execution.cpp:350 | a collection of a heap that is fit for a collection or a compaction leaves one that is fit for either, cached blocks given up |
| `HeapRuns.Compact` | CLR/Core/Execution.cpp:351 | so does a compaction: blocks preserved, roots and finalizers relocated with them, cache untouched, free space packed when nothing pinned is above it |
| `HeapRuns.CompactionServes` | CLR/Core/Execution.cpp:1657-1671 | a packed heap of one cluster serves a request exactly when that much space was free in all before the compaction |
| `MarkStack.Marker.Run` | CLR/Core/GarbageCollector_ComputeReachabilityGraph.cpp:54-300 | the worklist loop ends for a stack of any capacity of at least one usable entry, with everything referred to marked or dropped, only reachable blocks marked, dropped cells owned by marked blocks, and a newly raised overflow flag only after a new block was marked; with an entry for every block and two more it never overflows |
| `MarkStack.Marker.Visit` | CLR/Core/GarbageCollector_ComputeReachabilityGraph.cpp:161-293 | marks the cell and gives the list it leads to: an unmarked target, or the fields |
| `MarkStack.Marker.Advance` | CLR/Core/GarbageCollector_ComputeReachabilityGraph.cpp:56-158 | takes the next cell, saving the rest of the list; reports overflow exactly when the stack is full and something would have to be saved |
| `MarkStack.DropStep` | CLR/Core/GarbageCollector_ComputeReachabilityGraph.cpp:135-146 | the list dropped on overflow is the field list of a marked block that is no event |
| `Reachability.EdgeIs` | CLR/Core/GarbageCollector_ComputeReachabilityGraph.cpp:170-281 | a block refers to another exactly by a reference in its header, a field, an element of an array of references, or a delegate |
| `Marking.HeaderStep` | CLR/Core/GarbageCollector_ComputeReachabilityGraph.cpp:161-293 | visiting a header keeps the mark sound and complete, and shrinks the dead set by that block |
| `Marking.ScalarStep` | CLR/Core/GarbageCollector_ComputeReachabilityGraph.cpp:161-175 | visiting a field or root cell keeps the mark sound and complete |
| `Mark.CheckMultipleBlocks` | CLR/Core/GarbageCollector_ComputeReachabilityGraph.cpp:38-300 | a list of root cells is marked from, or what is missing is recorded as dropped |
| `Mark.CheckForce` | CLR/Include/TinyCLR_Runtime.h:2226 | a block is marked and its fields visited even if it was marked before |
| `Mark.CheckSingleBlock` | CLR/Core/GarbageCollector_ComputeReachabilityGraph.cpp:29-35 | a block that is marked already is left alone; otherwise it is marked and visited |
| `Mark.RescanCluster` | CLR/Core/GarbageCollector.cpp:247-260 | after the walk every marked block of the cluster has been accounted for |
| `Mark.MarkSlow` | CLR/Core/GarbageCollector.cpp:233-262 | terminates, because a pass that overflows again has marked a new block; then nothing is dropped, and cells lost on the way have been reached through their owners |
| `Finalization.ExactlyReachable` | CLR/Core/GarbageCollector.cpp:264-422 | a mark with nothing dropped has marked exactly the reachable blocks and the events that were marked before |
| `Finalization.Collector.Resurrect` | CLR/Core/GarbageCollector.cpp:374-402 | which finalizers are made pending: at least those whose object nothing examined earlier reaches, only those whose object the roots do not reach, exactly the former without overflow, which an ample stack rules out; both lists in order |
| `Finalization.Collector.Mark` | CLR/Core/GarbageCollector.cpp:264-422 | whatever the list order and overflow, the alive set is exactly what is reachable from roots, pending finalizers and all finalizer objects, plus marked events; every doomed object gets its finalizer pending if no doomed object is reachable from one listed before it and, with an ample stack, only then |
| `Finalization.ChosenPartition` | CLR/Core/GarbageCollector.cpp:374-402 | every finalizer ends up on exactly one of the two lists |
| `Finalization.ChosenPicks` | CLR/Core/GarbageCollector.cpp:374-402 | and each list has its finalizers once, in the order there was |
| `Finalization.PendedIffIndependent` | CLR/Core/GarbageCollector.cpp:374-402 | for verdicts as `Resurrect` gives them: independence of the list is enough, and with an ample stack also necessary, for every doomed object to be made pending |
| `Finalization.DoomedNotPended` | CLR/Core/GarbageCollector.cpp:374-402 | the marker run on a heap of two objects, the first referring to the second: nothing else reaches the second, and its finalizer is not made pending |
| `Collection.SweepHeap` | CLR/Core/GarbageCollector.cpp:520-529 | every cluster is rebuilt, and the heap is well formed |
| `Collection.CollectionExact` | CLR/Core/GarbageCollector.cpp:133-229 | mark then sweep keeps exactly the reachable blocks and marked events, in place and unchanged up to leftover marks, their references among themselves, no alive mark on non-events, and free plus retained equal to the payload |
| `Collection.CollectableAgain` | CLR/Core/GarbageCollector.cpp:133-229 | what a collection asks of heap, roots and finalizer lists holds again afterwards |
| `Collection.ComputeAliveVsDeadRatio` | CLR/Core/GarbageCollector.cpp:786-809 | the bytes counted over the free lists are the free cells of the tiling, and the total is the payload |
| `Collection.MarkAndSweep` | CLR/Core/GarbageCollector.cpp:162-166 | mark, sweep and count: exact survivors, finalizer verdicts, well-formed heap ready for the next collection, and the free bytes |
| `FullCollection.RetiredCollectable` | CLR/Core/Cache.cpp:373-397 | a heap whose cached blocks have been given up is fit for a collection, for the same roots and finalizers |
| `FullCollection.RetiredReachable` | CLR/Core/Cache.cpp:373-397 | giving up cached blocks changes what is reachable in no way |
| `FullCollection.RetiredSurvivors` | CLR/Core/GarbageCollector.cpp:160-164 | what survives are the reachable blocks and the marked events that were not cached |
| `FullCollection.ExecuteGarbageCollection` | CLR/Core/GarbageCollector.cpp:133-229 | the whole collection, cache cleanup first: no block that was cached and is unreachable survives, the cache is empty, and survivors, verdicts, the heap and the free bytes returned are exact |
| `Words.SumWide` | CLR/Core/Jitter.cpp:1034-1037 | add and add-with-carry on halves is 64-bit addition |
| `Words.DifferenceWide` | CLR/Core/Jitter.cpp:1039-1042 | subtract and subtract-with-carry on halves is 64-bit subtraction |
| `Words.BitsWide` | CLR/Core/Jitter.cpp:1019-1032 | a 64-bit bitwise operation is two 32-bit ones |
| `Words.AndLaws` | CLR/Core/Jitter.cpp:1019-1032 | and with itself or all ones gives the number, with 0 gives 0 |
| `Words.XorLaws` | CLR/Core/Jitter.cpp:1019-1032 | exclusive or with 0 gives the number, with itself 0, with all ones the complement |
| `Words.BitsAndSums` | CLR/Core/Jitter.cpp:1019-1032 | a sum is the exclusive or plus twice the and, and the or plus the and |
| `LongImmediate.EmitLongMove` | CLR/Core/Jitter_Helper.cpp:1282-1320 | the loop emits the move and or instructions of the specification |
| `LongImmediate.ConstantRuns` | CLR/Core/Jitter_Helper.cpp:1282-1320 | executed in any state they leave the constant in the register and nothing else changed, and every immediate is a byte at an even shift, as ARM can encode |
| `JitSimulation.Load2` | CLR/Core/Jitter_Helper.cpp:870-889 | the three forms of a multiple load read the same words |
| `JitSimulation.Store2` | CLR/Core/Jitter_Helper.cpp:905-924 | the three forms of a multiple store write the same words |
| `JitSimulation.PairOperation` | CLR/Core/Jitter.cpp:1011-1043 | the emitted pair computes the 64-bit operation of the interpreter |
| `JitSimulation.PairNegation` | CLR/Core/Jitter.cpp:936-955 | reverse-subtract with carry negates, two complements complement, 64 bits |
| `JitSimulation.InterpretBinary` | CLR/Core/Interpreter.cpp:1497-1609 | the interpreter's operation, which for and, or, xor always works on eight bytes, seen through the operand's type |
| `Interpreter.PushLaws` | CLR/Core/Interpreter.cpp:1183-1206 | a constant is on top with its type and value, nothing below it changes |
| `Interpreter.DupLaws` | CLR/Core/Interpreter.cpp:1497-1609 | a value combined with its duplicate is itself, its double, or 0 |
| `Interpreter.NegNeg` | CLR/Core/Interpreter.cpp:1646-1651 | negation undoes itself |
| `Interpreter.NotNot` | CLR/Core/Interpreter.cpp:1655-1660 | so does the complement |
| `JitSimulation.OpcodeSimulates` | CLR/Core/Jitter.cpp:904-1053 | one opcode, compiled or interpreted, from agreeing stacks: no fault on either side, and the typed stacks agree again |
| `JitSimulation.LoadConstantI8` | CLR/Core/Jitter.cpp:1880-1892 | a 64-bit constant pushed by compiled code is the interpreter's |
| `JitSimulation.Duplicate` | CLR/Core/Jitter.cpp:1415-1423 | the duplicated slot agrees with the interpreter's |
| `JitSimulation.ProgramSimulates` | CLR/Core/Jitter.cpp:904-1053 | every well-typed straight-line program leaves the same typed evaluation stack compiled and interpreted |
| `JitSimulation.MixedOperandsDisagree` | CLR/Core/Jitter_EvalStack.cpp:289-301 | with operands of different types the static type after the operation is never the interpreter's |
| `JitSwitch.SwitchReaches` | CLR/Core/Jitter.cpp:1280-1298 | for a value below n the program counter ends at the code of its target, 16 bytes further exactly when the jump is forward and the target is also jumped to from behind; for every other unsigned value, n included, at the next opcode |
| `LinkRings.MoveEntryToTop` | CLR/Core/Cache.cpp:316-347 | the index links end up as rings in which the entry left wherever it was, or was unused, and is first of the given ring; all other rings unchanged |
| `LinkRings.Unlinked` | CLR/Core/Cache.cpp:327-334 | bypassing an entry leaves every ring well linked without it |
| `LinkRings.Linked` | CLR/Core/Cache.cpp:336-345 | splicing an entry behind a head leaves every ring well linked with it |
| `MethodCache.MethodTable.constructor` | CLR/Core/Cache.cpp:180-211 | empty bucket rings, and all entries in the recency ring |
| `MethodCache.MethodTable.Search` | CLR/Core/Cache.cpp:280-294 | finds the entry with the key in its bucket, or shows that no entry of the bucket has it |
| `MethodCache.MethodTable.FindVirtualMethod` | CLR/Core/Cache.cpp:213-314 | over any sequence of lookups the answer is that of the slow lookup; used entries are in their key's bucket, no key twice, the recency ring is a permutation in order of last use, a miss replaces the least recently used entry |
| `MethodCache.Oldest` | CLR/Core/Cache.cpp:295-305 | the last of the recency ring was used longest ago |
| `AvlTree.LeftGrownBalances` | CLR/Core/AVLTree.cpp:130-184 | rebalancing after growth on the left: skew is the height difference everywhere, and BALANCE exactly when the height grew |
| `AvlTree.RightGrownBalances` | CLR/Core/AVLTree.cpp:191-245 | the same on the right |
| `AvlTree.LeftShrunkBalances` | CLR/Core/AVLTree.cpp:266-332 | rebalancing after shrinking on the left: BALANCE exactly when the height shrank |
| `AvlTree.RightShrunkBalances` | CLR/Core/AVLTree.cpp:339-405 | the same on the right |
| `AvlOperations.Insert` | CLR/Core/AVLTree.cpp:533-569 | the key set grows by exactly the key, search order and balance hold, BALANCE exactly when the height grew, duplicate and failed allocation change nothing |
| `AvlOperations.Remove` | CLR/Core/AVLTree.cpp:598-645 | the key set loses exactly the key, search order and balance hold, BALANCE exactly when the height shrank, an absent key changes nothing |
| `AvlOperations.FindHighest` | CLR/Core/AVLTree.cpp:428-460 | takes out the largest key and keeps balance |
| `AvlOperations.FindLowest` | CLR/Core/AVLTree.cpp:467-502 | takes out the smallest key and keeps balance |
| `AvlOperations.SearchTree.Add` | CLR/Core/AVLTree.cpp:16-20 | the tree gains exactly the key, and stays ordered and balanced |
| `AvlOperations.SearchTree.Delete` | CLR/Core/AVLTree.cpp:22-26 | the tree loses exactly the key, and stays ordered and balanced |
| `AvlOperations.SearchTree.Find` | CLR/Core/AVLTree.cpp:28-50 | finds a node with the key exactly when the tree has it |
| `AvlOperations.HeightLogarithmic` | CLR/Core/AVLTree.cpp:130-645 | the height is at most twice the binary logarithm of the number of keys plus one |
| `WaitHandles.NoLostWakeups` | CLR/Core/CLR_RT_HeapBlock_WaitForObject.cpp:45-174 | after any run of waits, signals, resets and timeouts no waiting thread has its condition satisfied |
| `WaitHandles.Accounted` | CLR/Core/CLR_RT_HeapBlock_WaitForObject.cpp:18-174 | over any run, every wait that did not succeed at once is still on the list, in order of arrival, or was released by a signal that satisfied it, or timed out, exactly one of the three; and a timeout of its thread ends it at the latest |
| `WaitHandles.WaitPromise` | CLR/Core/CLR_RT_HeapBlock_WaitForObject.cpp:145-174 | a satisfied wait takes its signals and joins no list, any other joins the end of the list and takes nothing |
| `WaitHandles.SignalPromise` | CLR/Core/CLR_RT_HeapBlock_WaitForObject.cpp:125-143 | a signal is offered to the waiters in turn: released are exactly those who find it and their condition among what is left, each takes what it uses, the others stay in order |
| `WaitHandles.TimeoutPromise` | CLR/Core/Execution.cpp:2552-2568 | a timeout takes the thread off the list, nobody else, and no signal |
| `WaitHandles.ResetPromise` | CLR/Libraries/CorLib/corlib_native_System_Threading_WaitHandle.cpp:46-54 | taking a signal back releases nobody and takes nothing else |
| `WaitHandles.SignalsConserved` | CLR/Core/CLR_RT_HeapBlock_WaitForObject.cpp:59-143 | over any run no signal is used more often than it was given |
| `WaitHandles.AutoResetReleasesOne` | CLR/Core/CLR_RT_HeapBlock_WaitForObject.cpp:125-143 | one signal of an auto-reset object releases the first waiter it satisfies and nobody else, and stays only if nobody takes it |
| `WaitHandles.Engine.TryWait` | CLR/Core/CLR_RT_HeapBlock_WaitForObject.cpp:59-123 | succeeds exactly when the condition holds; waiting for all takes all auto-reset signals or none, waiting for any takes the first |
| `WaitHandles.Engine.SignalObject` | CLR/Core/CLR_RT_HeapBlock_WaitForObject.cpp:125-143 | the loop carries out the signal step |
| `WaitHandles.Engine.WaitForSignal` | CLR/Core/CLR_RT_HeapBlock_WaitForObject.cpp:145-174 | rejects too many or missing objects without effect; otherwise succeeds with exactly the signals of its condition used up, or puts the thread at the end of the list and uses none |
| `Monitor.FindLockExact` | CLR/Core/Execution.cpp:2273-2320 | finds the lock of a resource exactly when it has one, by field or by search |
| `Monitor.UnexpiredPicks` | CLR/Core/Execution.cpp:2573-2588 | exactly the requests that have not expired stay, each once and in the order they were in |
| `Monitor.ChangeOwnerSafe` | CLR/Core/CLR_RT_HeapBlock_Lock.cpp:68-132 | handing over or retiring a lock restores all invariants |
| `Monitor.StepSafe` | CLR/Core/CLR_RT_HeapBlock_Lock.cpp:9-207 | every step keeps: one lock per resource, each on its owning thread's list once and with at least one owner, owners distinct subthreads of that thread with recursion of at least one, lock fields exact |
| `Monitor.RunSafe` | CLR/Core/Execution.cpp:2631-2662 | so does every run |
| `MonitorSpec.MutualExclusion` | CLR/Core/CLR_RT_HeapBlock_Lock.cpp:134-171 | subthreads that hold a resource belong to one thread |
| `MonitorSpec.LockPromise` | CLR/Core/Execution.cpp:2631-2648 | succeeds unless another thread holds the resource and counts one more, else the request goes to the end of the queue; nothing else changes |
| `MonitorSpec.UnlockPromise` | CLR/Core/Execution.cpp:2650-2662 | succeeds for holders only and counts one less; when nobody holds the resource any more the oldest request gets it, or the lock and the lock field go away |
| `MonitorSpec.DestroyPromise` | CLR/Core/CLR_RT_HeapBlock_Lock.cpp:50-66 | the subthread holds nothing of the lock any more, whatever its recursion, and the lock stays with the others, is handed on, or goes away |
| `MonitorSpec.ExpirePromise` | CLR/Core/Execution.cpp:2573-2588 | exactly the expired requests leave the queue, the rest keep their order and multiplicity, no ownership changes |
| `MonitorEngine.Engine.LockObject` | CLR/Core/Execution.cpp:2631-2648 | the list walks carry out the lock step |
| `MonitorEngine.Engine.UnlockObject` | CLR/Core/Execution.cpp:2650-2662 | the list walks carry out the unlock step |
| `MonitorEngine.Engine.HandOver` | CLR/Core/CLR_RT_HeapBlock_Lock.cpp:68-132 | carries out the change of owner |
| `MonitorEngine.Engine.DestroyOwner` | CLR/Core/CLR_RT_HeapBlock_Lock.cpp:50-66 | carries out the destroy step |
| `MonitorEngine.Engine.ExpireRequests` | CLR/Core/Execution.cpp:2573-2588 | carries out the expiry step |
| `BranchTables.OffsetToIndex` | CLR/Core/Jitter.cpp:429-463 | succeeds exactly for opcode boundaries and the end of the method, with the right index |
| `BranchTables.ConvertBranches` | CLR/Core/Jitter.cpp:601-626 | succeeds exactly when all targets are boundaries and none is the target of more than 255 branches; indexes stand for their offsets, and counts are exact |
| `BranchTables.TransposeBranches` | CLR/Core/Jitter.cpp:628-679 | every opcode's IN slice lists the sources of the branches to it and its flags say from which side; the final count check cannot fail |
| `BranchTables.SourcesCount` | CLR/Core/Jitter.cpp:628-679 | an IN slice names an opcode once for every branch from it |
| `BranchTables.SourcesOrdered` | CLR/Core/Jitter.cpp:628-679 | in source order |
| `UnicodeHelper.CountNumberOfCharacters` | CLR/Core/CLR_RT_UnicodeHelper.cpp:17-73 | -1 exactly when the characters looked at, all or the first max, are ill-formed, else their number of UTF-16 units; nothing behind the terminator is read |
| `UnicodeHelper.CountNumberOfBytes` | CLR/Core/CLR_RT_UnicodeHelper.cpp:75-119 | -1 exactly when there is an unpaired surrogate among the characters looked at, else their number of UTF-8 bytes; nothing behind the terminator is read |
| `UnicodeConvert.ConvertToUTF8` | CLR/Core/CLR_RT_UnicodeHelper.cpp:315-416 | never writes outside the stated window; for well-formed UTF-16, pairs included, succeeds exactly when the encoding and a terminator fit, and writes them |
| `UnicodeConvert.ReadsBmp` | CLR/Core/CLR_RT_UnicodeHelper.cpp:324-392 | a string of the basic plane is read whole when the limit is its length, or when it is larger and a terminator follows |
| `UnicodeConvert.ConvertFromUTF8` | CLR/Core/CLR_RT_UnicodeHelper.cpp:123-313 | never writes outside the stated window; of an encoded well-formed string all units are read, exactly when they and a terminator fit, and the string with its high surrogates moved up is written |
| `UnicodeConvert.RoundTrip` | CLR/Core/CLR_RT_UnicodeHelper.cpp:17-416 | for every well-formed string: buffers sized by the two counts hold the encoding and then the string with its high surrogates moved up, each with its terminator; the string itself if and only if it is all in the basic plane |
| `UnicodeConvert.SurrogatePair` | CLR/Core/CLR_RT_UnicodeHelper.cpp:362-381 | both converters run on D800 DC00: the bytes are F0 90 80 80, and D840 DC00 comes back |
| `UnicodeText.DecodePair` | CLR/Core/CLR_RT_UnicodeHelper.cpp:269-275 | the four bytes of a surrogate pair are decoded to its high half 0x40 too large and its low half |
| `UnicodeText.ShiftedSame` | CLR/Core/CLR_RT_UnicodeHelper.cpp:269-275 | a well-formed string is unchanged by this exactly when it has no surrogate pair |

## Left out

- Addresses: one address is one cell; byte addresses appear only in `AllocateHeaps`. A block's size is a natural number, the 16-bit size field is not modelled, since clusters are limited to what it holds.
- Links of free lists and thread lists: they are sequences of addresses, not pointer fields, except in the method cache, where the index links are modelled. Link bytes inside free blocks are not.
- Mark-stack segments: there is one segment whose extension fails, because the segment-reuse branch saves and reloads the same segment.
- Marking of BYREF interior pointers, weak delegate lists, weak references, AppDomains and forced-alive flags: they need code outside the modelled files.
- Nested value types as field cells: fields are scalar cells. The runtime keeps the fields of a value-type field in a block of its own and stores a reference to it (CLR/Core/Execution.cpp:1726-1736 and 1983-1992).
- Type-specific relocation handlers: a pass patches every reference cell of every block in use.
- Sweep: recovery of event owners (`RecoverEventsFromGC`) and the clearing of dead weak delegates before the clusters are rebuilt are not part of the model.
- InitializeCluster: memory holds nothing to salvage; the scan for objects that survived a restart (`PrepareForRecovery`) is not part of the model.
- ExecuteGarbageCollection: weak references are not marked, and memory pressure is not checked.
- ExtractHeapBlocks: the build that collects before every allocation, the refusal to allocate during a collection and the profiler hooks are not part of the model.
- HeapCompact: when a pinned block lies above free space, what the free space looks like at the end is not stated in closed form; what each turn does is (`StepMove`), and that nothing moves only if nothing can.
- When to collect or compact, apart from a failed allocation: not part of the model. In `HeapRuns`, root cells lie inside marked events, where the runtime keeps stack frames, static fields and the objects waited for (CLR/Core/GarbageCollector.cpp:643-720).
- Suspended threads, thread restart and result fields of waits: a released thread leaves the waiting list.
- FindVirtualMethod: the slow lookup is a parameter, with the assumption the code's own check makes, that a method looked up on its own class is itself; the hash is a parameter.
- The AVL tree: nodes are values, so node identity, the free-node list and the in-use list of the tree build are not captured; a reference parameter is a tree in and a tree out. Keys are integers.
- Monitors: lock-request counts of subthreads, pending-synchronize flags of stack frames and allocation failure are not modelled.
- Instruction encoding: ARM instructions are abstract, addresses in registers are offsets from the evaluation stack, and that an offset can be encoded is assumed; constants are proved encodable.
- JIT thunks, calls, fields, shifts, multiplication, floating point and the rest of the interpreter: they depend on emulation code or headers outside the scope.
- Decoding of byte code into opcodes: branch tables start from opcode lengths and targets.
- ConvertFromUTF8: malformed input whose last character is cut off by the end of the buffer is excluded by `Framed8`, since the code relies on the announced bytes being there.
- Queue, Stack, ArrayList, the scheduler's ready list, exception unwinding, TinyBooter, configuration, cryptography, interop and diagnostics: out of scope.
