# Verified model of Compute Aggregation Layer's memory, negotiation and RPC core

The Compute Aggregation Layer lets client processes share one GPU service. This project models the parts of
it that keep two processes' views of memory and messages in agreement, and proves what they promise.

* **Address ranges** (`Ranges`, `PartitionedRange`, `RangeDestruction`, `AddressPartition`): the sorted,
  nested, disjoint vector `PartitionedAddressRange`. Its specification is plain sets of addresses.
* **Allocators on top** (`RangeAllocator`, `MallocHeap`, `CommandHeap`): first-fit-with-alignment allocation,
  the doubling shared malloc heap, the bump heap for command messages.
* **Memory blocks** (`ServiceMemory`, `MemoryBlocks`, `BlockGrowth`, `BlocksManager`, `BlockRegistration`,
  `PointerStability`, `MappingRecords`, `MemoryBlockObject`, `BlocksManagerObject`): the service's mirror of
  client memory. Service memory is a map from service address to (shared-memory file, offset), with the home
  and size of each file; a fresh mapping lands on unused addresses. `MemoryBlocks` and `BlocksManager` say on values what each operation does;
  `MemoryBlockObject` and `BlocksManagerObject` are the code that updates objects in place, proved equal to
  those functions; `BlockRegistration`, `PointerStability` and `MappingRecords` prove what holds over every run of them.
* **Transfers** (`Transfers`): the descriptors the service emits and the client's replay of them.
* **USM negotiation** (`UsmMemory`, `UsmNegotiation`, `UsmSafety`): both processes' retry loops as one joint
  state machine over a lossless channel each way. Each address space is a set of addresses reserved by the negotiation and
  a set of everybody else's; the latter may change arbitrarily between steps.
* **RPC channel** (`TypedRing`, `RpcChannel`, `RpcCompletion`, `CallSoundness`, `ChannelLayout`): the ring as
  interleaved atomic loads and stores under sequential consistency, the calls, completion stamp, semaphores and command heap around it,
  and the layout of the channel's memory.
* **Buffer recycler** (`BufferRecycler`): size buckets, budget and best-fit search.

Integers are unbounded: addresses and sizes are assumed not to overflow, and sizes are positive where the
callers guarantee it. What the operating system decides (addresses of new mappings, failures of `ftruncate`
and `mmap` in the malloc heap, success of a send) is a parameter of the step, constrained only by what the
system promises. A `std::map` is the ordered sequence of its nodes, its `lower_bound` a scan; a
`std::vector` of structs is a sequence of values.

Where code and documentation disagree the code is followed. Three promises turn out to hold only under a
condition. For each the exact condition is proved:

* `callSynchronous` returning true means the service is finished with the command and with all before it, in
  every reachable state, if and only if the call waits on the semaphore, or no unfinished command carries the
  completion stamp, or the call cannot be submitted at all because the ring is full and will not drain
  (`CallIsSoundExactly`). Such a command is left behind by a polling call that returned false on a stop
  (`GivingUpLeavesTheStamp`); without a stop there is none (`UnstoppedRunsStartClean`).
* every run of a negotiation returns only addresses its client has reserved if and only if the client starts
  without an address of its own, as client/client_connection.cpp does, or its start is refused outright
  (`AlwaysReservesExactly`).
* `RangeAllocator::allocate` with alignments mixed in one heap returns a range that is free if and only if the
  request fits behind the last live range, or the gap the search takes was not misjudged (the first gap by
  aligning up its end, another by a wrapped difference), or aligning up skips ahead into a later gap with room
  (`PickedIsFreeExactly`). It is always so when the alignment divides the base and all live starts
  (`AlignedPickIsFree`).

`dafny verify dfyconfig.toml` checks the whole project.

## Model

| member | source | states |
|---|---|---|
| `Ranges.RangePredicatesMeanSets` | shared/utils.h:437-443 | `contains` and `intersects` mean inclusion and overlap of the sets of addresses |
| `Ranges.AlignUpIsLeast` | shared/utils.h:124-129 | `alignUp` gives the least multiple of the alignment at or above the value |
| `PartitionedRange.InsertSubRange` | shared/utils.h:514-532 | binary-search insertion puts the range at its place in the sorted vector and widens the bounds to hold it |
| `PartitionedRange.InsertedKeepsOrder` | shared/utils.h:514-532 | inserting a range that meets no other keeps all levels sorted, disjoint and inside their parent |
| `PartitionedRange.InsertedCovers` | shared/utils.h:514-532 | insertion adds exactly the addresses of the new range to the coverage |
| `PartitionedRange.LowerBoundByEnd` | shared/utils.h:541 | the binary search finds the first element ending beyond the address |
| `RangeDestruction.IntersectedPos` | shared/utils.h:707-725 | the binary search finds where the elements meeting a range begin |
| `RangeDestruction.DestroySubRange` | shared/utils.h:636-690 | the recursive erase, trim, split and multi-range code computes the cut vector and returns how many elements it met |
| `RangeDestruction.DestroyWithin` | shared/utils.h:646-662 | a removal inside one element erases, trims or splits it, at every nesting level |
| `RangeDestruction.DestroyAcross` | shared/utils.h:664-690 | a removal across elements trims the first and the last and erases those between |
| `RangeDestruction.DestructionIsSetDifference` | shared/utils.h:636-690 | at every nesting level exactly the given addresses leave the coverage, and all levels stay sorted, disjoint and inside their parent |
| `AddressPartition.PartitionedAddressRange.Insert` | shared/utils.h:514-532 | the new vector and bounds |
| `AddressPartition.PartitionedAddressRange.FindSubRange` | shared/utils.h:534-546 | finds an element containing the range exactly when a linear scan would |
| `AddressPartition.PartitionedAddressRange.IntersectsSubRanges` | shared/utils.h:548-555 | true exactly when a linear scan meets an intersecting element |
| `AddressPartition.PartitionedAddressRange.GetIntersectedSubRanges` | shared/utils.h:557-566 | returns exactly the elements that intersect the range, as one stretch of the vector |
| `AddressPartition.PartitionedAddressRange.GetSubRangesDiffFrom` | shared/utils.h:568-596 | returns the gaps of the vector inside the range |
| `AddressPartition.GapsAreTheDifference` | shared/utils.h:568-596 | the gaps are nonempty, separated and ascending, and their union is exactly the range minus the coverage |
| `AddressPartition.PartitionedAddressRange.Destroy` | shared/utils.h:636-690 | removal keeps the object valid and reports the number of elements met |
| `AddressPartition.PartitionedAddressRange.MergeSubranges` | shared/utils.h:598-634 | the object's vector becomes the merged one and the object stays sorted, disjoint and in bounds |
| `AddressPartition.MergeRuns` | shared/utils.h:598-634 | the backwards loop terminates and collapses each maximal run of touching elements |
| `AddressPartition.MergedNestsTheOriginal` | shared/utils.h:598-634 | the merged elements are the maximal runs collapsed, and the runs in order are the original vector |
| `AddressPartition.MergedHoldsTheOriginals` | shared/utils.h:598-634 | the children of the merged elements, or the element itself where it took only one, are in order the original vector |
| `AddressPartition.MergedIsSeparated` | shared/utils.h:598-634 | after merging no two neighbours touch and the vector is sorted and valid |
| `AddressPartition.MergedPreservesCoverage` | shared/utils.h:598-634 | merging changes no address's coverage |
| `RangeAllocator.FindPlace` | shared/allocators.cpp:17-48 | for any alignment, the search picks the tail when the request fits there, otherwise the first gap that passes the source's test, unsigned wrap-around included |
| `RangeAllocator.NothingPickedNoPlacement` | shared/allocators.cpp:28-47 | for any alignment, when nothing is picked there is no free aligned placement |
| `RangeAllocator.PickedIsFreeExactly` | shared/allocators.cpp:28-48 | for any alignment, the picked range is free if and only if, in the heap before the call, the request fits behind the last live range, or the gap the search takes was not misjudged, or aligning up from it skips ahead into a later gap with room |
| `RangeAllocator.TailIsFree` | shared/allocators.cpp:23-28 | for any alignment, a range picked behind the last live range is free |
| `RangeAllocator.MisjudgedIsFreeWhenSkipping` | shared/allocators.cpp:29-37 | a range picked from a misjudged gap is free if and only if it lies behind a later live range and ends before the next |
| `RangeAllocator.PickedIsFreeWhenGapFits` | shared/allocators.cpp:29-37 | special case of the exact condition: when the live range right of the chosen gap is no shorter than the alignment nothing is skipped, and the picked range is free if and only if it fits in the gap |
| `RangeAllocator.MixedAlignmentsOverlap` | shared/allocators.cpp:29-30 | a live range less than one alignment above the base, with no room behind it, gets overlapped |
| `RangeAllocator.ShortNeighbourIsSkipped` | shared/allocators.cpp:36-37 | a live range shorter than the alignment can be skipped by the wrapped difference, the picked range being free although it does not fit in the gap |
| `RangeAllocator.AlignedPickIsFree` | shared/allocators.cpp:17-48 | when the alignment divides the base and all live starts, the picked range is free and is the tail placement or the lowest free one |
| `RangeAllocator.NoRoomNoPlacement` | shared/allocators.cpp:13-15 | when the bytes left are fewer than requested, no free placement exists, so the early exit loses nothing |
| `RangeAllocator.TotalFits` | shared/allocators.h:228-230 | disjoint ranges inside a bound add up to at most its size |
| `RangeAllocator.Allocator.Allocate` | shared/allocators.cpp:12-52 | for any alignment, empty only when no aligned free placement exists, and the returned range was free exactly under the condition above; when the alignment divides the base and all live starts, empty if and only if none exists, otherwise a free aligned range is committed and the invariant kept |
| `RangeAllocator.Allocator.Free` | shared/allocators.h:242-252 | drops the live range holding the address; an unknown address changes nothing |
| `RangeAllocator.AllocKeepsConsistent` | shared/allocators.h:237-240 | allocation keeps live ranges sorted, disjoint, aligned, in bounds and counted |
| `RangeAllocator.FreeKeepsConsistent` | shared/allocators.h:242-252 | so does freeing |
| `RangeAllocator.FreeUndoesAllocate` | shared/allocators.h:237-252 | freeing any address of a range just allocated restores the state exactly |
| `RangeAllocator.RunsStayConsistent` | shared/allocators.cpp:12-52 | over every allocate/free run with one alignment, the live ranges stay sorted, disjoint, aligned and in bounds and `sizeUsed` is their total |
| `MallocHeap.DoublingStaysInRange` | client/client_malloc_override.cpp:155-158 | doubling a heap size below the maximum stays 8 MB times a power of two, at most 4 GB |
| `MallocHeap.ShmemHeap.TryGrow` | client/client_malloc_override.cpp:151-171 | the doubling loop terminates at the first size that suffices; a failure leaves the heap size as it was; the file is untouched when it could not be extended, as large as the heap when the mapping or the restoring truncation succeeded, else left at the size the growth wanted |
| `MallocHeap.ShmemHeap.EnsureMemoryIsMapped` | client/client_malloc_override.cpp:174-184 | afterwards the range is mapped, or growth failed and the heap size is unchanged; the file size follows as above, and is untouched when no growth is needed |
| `MallocHeap.ShmemHeap.MallocNoFallback` | client/client_malloc_override.cpp:187-199 | a returned range was free, aligned and is mapped; null leaves allocator and heap size unchanged, and with a willing system means there was no room |
| `MallocHeap.ShmemHeap.Free` | client/client_malloc_override.cpp:218-225 | frees exactly addresses of the shared heap and keeps it sound |
| `MallocHeap.RunsStaySound` | client/client_malloc_override.cpp:151-225 | over every malloc/free run the heap size is 8 MB times a power of two up to 4 GB and every live range lies in the mapped prefix |
| `MallocHeap.ReturnedRangesStayMapped` | client/client_malloc_override.cpp:187-225 | a range returned by one call lies in the mapped prefix at every later point of the run |
| `MemoryBlocks.TranslateReachesBacking` | shared/shmem.h:615-629 | in a gapless mapped block, the translation of an address reaches the file byte that backs it |
| `MemoryBlocks.RemapKeepsEverything` | shared/shmem.h:582-613 | remapping keeps every earlier mapping and leaves all chunks mapped contiguously |
| `MemoryBlocks.BackingIsUnique` | shared/shmem.h:500-503 | an address is backed by one file byte only |
| `BlockGrowth.AppendGrows` | shared/shmem.h:732-738 | appending keeps the backing of every address and ends at the page boundary after the request |
| `BlockGrowth.PrependGrows` | shared/shmem.h:724-730 | prepending keeps the backing of every address and begins at the requested page |
| `BlockGrowth.MergeGrows` | shared/shmem.h:631-652 | merging a block to the right, filling the hole, keeps the backing and the recorded mappings of both |
| `BlockGrowth.MergeAllGrows` | shared/shmem.h:954-987 | so does merging any number of blocks in order |
| `BlockGrowth.MergedEndsBeforeNext` | shared/shmem.h:635 | while blocks are merged in order the assertion in `merge` holds |
| `MemoryBlockObject.MemoryBlock.constructor` | shared/shmem.h:512-520 | a new block has one page-aligned chunk around the request, mapped at fresh addresses |
| `MemoryBlockObject.MemoryBlock.OverlapsPages` | shared/shmem.h:539-547 | for nonempty ranges and blocks, true exactly when the two have an address in common |
| `MemoryBlockObject.MemoryBlock.AppendChunk` | shared/shmem.h:732-738 | adds one unmapped chunk at the end |
| `MemoryBlockObject.MemoryBlock.PrependChunk` | shared/shmem.h:724-730 | adds one unmapped chunk in front |
| `MemoryBlockObject.MemoryBlock.PreserveExistingMappings` | shared/shmem.h:740-747 | every live mapping moves to the retired list; none is lost, and by the rows of `MappingRecords` none is there twice |
| `MemoryBlockObject.MemoryBlock.RemapChunksAsContiguousMemory` | shared/shmem.h:582-613 | all chunks end up mapped at the same distance from their client addresses, at fresh addresses |
| `MemoryBlockObject.MemoryBlock.ExtendBlockIfRequired` | shared/shmem.h:557-580 | widens to both sides as needed and remaps exactly if it widened |
| `MemoryBlockObject.MemoryBlock.Merge` | shared/shmem.h:631-652 | takes over the other block's chunks and retired mappings, filling the hole between |
| `MemoryBlockObject.MemoryBlock.TranslateAddress` | shared/shmem.h:615-629 | null exactly outside the block |
| `MemoryBlockObject.MemoryBlock.GetCountOfOverlappingChunks` | shared/shmem.h:671-683 | the number of descriptors the range needs |
| `MemoryBlockObject.MemoryBlock.AppendOverlappingChunks` | shared/shmem.h:685-721 | fills in the range's descriptors in order, failing exactly when the room is short, and keeps those before them |
| `MemoryBlockObject.MemoryBlock.Destroy` | shared/shmem.h:522-532 | unmaps the retired mappings, then those of the chunks, and nothing besides |
| `BlocksManager.OverlapStretch` | shared/shmem.h:989-1022 | the blocks meeting a range are exactly a stretch of the map, found from the lower bounds and one neighbour |
| `BlocksManagerObject.Manager.GetOverlappingBlocksBegin` | shared/shmem.h:989-1015 | looking only at the neighbours of the lower bound finds the first block that meets the range |
| `BlocksManagerObject.Manager.FindBlock` | shared/shmem.h:919-952 | the lookup result |
| `PointerStability.LookupFindsTheBlock` | shared/shmem.h:919-952 | a nonempty range is found exactly when one block includes it |
| `BlocksManagerObject.KeyIsNew` | shared/shmem.h:787-794 | without an overlapping block no node has the new key, so the abort on a failed insertion is unreachable |
| `BlocksManagerObject.Manager.RegisterNewBlock` | shared/shmem.h:787-797 | the branch that inserts a new block |
| `BlocksManagerObject.Manager.RegisterOverlapping` | shared/shmem.h:954-987 | the branch that merges the overlapped blocks, erases them and re-keys the survivor |
| `BlocksManagerObject.Manager.Rekey` | shared/shmem.h:1024-1037 | the absorbed nodes go; among those that remain none has the survivor's new first page as key and its place is where it was, so the asserted insertion succeeds; all other nodes stay |
| `BlocksManagerObject.StretchKeyFits` | shared/shmem.h:1031-1037 | the new first page of the merged block lies strictly between the keys before and after the merged stretch |
| `BlocksManagerObject.Manager.RegisterMemoryBlock` | shared/shmem.h:773-797 | one registration step on the map, keeping it valid and every mapped address on record exactly once; the returned block includes the range and is mapped |
| `BlocksManagerObject.Manager.Destroy` | shared/shmem.h:522-532 | destroying all blocks of a map with every mapped address on record once leaves nothing mapped |
| `BlocksManagerObject.Manager.RemapPointer` | service/service.h:275-279 | the returned pointer is the translation in the block that took the range, and never null |
| `BlockRegistration.RegisterKeepsInvariant` | shared/shmem.h:773-797 | registration keeps blocks pairwise disjoint, page-aligned, keyed by first page, gapless and contiguously mapped; the range lies in the returned block; earlier mappings, backings and registered ranges persist; so the re-keyed node's key is new and the assertion on its insertion holds |
| `BlockRegistration.RegisterKeepsAccounted` | shared/shmem.h:740-747 | every mapping stays recorded by some block |
| `PointerStability.RunsStayStable` | shared/shmem.h:773-797 | the invariant holds in every state of every run, and later states keep what earlier ones gave |
| `PointerStability.RunsStayAccounted` | shared/shmem.h:522-532 | at every point of a run each mapped address is on some block's record, so the destructors find it |
| `MappingRecords.RegisterRecordsOnce` | shared/shmem.h:740-747 | registration keeps each mapped address on record exactly once, and no other address, over the live and retired mappings of all blocks |
| `MappingRecords.RecordsAreTheMappings` | shared/shmem.h:522-532 | over every run all mappings on record, live and retired, are pairwise disjoint, and an address is on record if and only if it is mapped |
| `MappingRecords.UnmappingIsExact` | shared/shmem.h:522-532 | each `munmap` of the destructors hits only addresses mapped at that moment, and after the last one nothing is mapped |
| `MappingRecords.DestructionIsExact` | shared/shmem.h:522-532 | so it is at the end of every run |
| `PointerStability.PointersStayValid` | service/service.h:275-279 | every byte of every pointer ever returned stays mapped and aliases the byte that the current translation of its client address reaches, through any later registrations |
| `PointerStability.RegisteredRangesAreFound` | shared/shmem.h:919-952 | every nonempty sub-range of a range registered earlier in the run is found |
| `Transfers.BlockDescsTile` | shared/shmem.h:685-721 | the descriptors of a range tile it without gap or overlap, each inside its file, carrying the size of that file and naming the bytes that back its addresses |
| `BlocksManagerObject.Manager.GetCountOfRequiredTransferDescs` | shared/shmem.h:803-830 | counts exactly the descriptors that fetching fills in; fails exactly when some range is in no block |
| `BlocksManagerObject.Manager.GetRequiredTransferDescs` | shared/shmem.h:838-879 | fills in all descriptors of all ranges in order; fails exactly when some range is in no block or the room is short |
| `Transfers.WriteRequiredMemory` | client/client_platform.h:270-292 | replays the descriptors in order up to the first that names no file or whose file does not open; succeeds exactly when there is none |
| `Transfers.ReplayCopies` | client/client_platform.h:270-292 | after the replay every named byte holds the client's byte, however descriptors overlap |
| `Transfers.ReplayTouchesNothingElse` | client/client_platform.h:270-292 | bytes no descriptor names keep their value |
| `Transfers.TransferDeliversClientBytes` | shared/shmem.h:838-879 | for any list of in-block ranges and a client that can open each file by its id and its true size, descriptors exist, each carries the size of the file it names and all of them open, and after their replay the byte that the current translation of any requested address reaches, the only one backing it, is the client's byte |
| `UsmMemory.Process.TryMergeUsmRegions` | shared/usm.cpp:72-92 | reserves the missing parts in order up to the first failure |
| `UsmMemory.MergeSucceedsIff` | shared/usm.cpp:72-92 | merging succeeds exactly when some reservation meets the range and nothing outside the reservations is mapped in it |
| `UsmMemory.MergeReserves` | shared/usm.cpp:72-92 | merging touches no foreign memory, reserves at most the range, and on success all of it |
| `UsmMemory.Process.CleanupObsoleteAddressReservations` | shared/usm.cpp:123-163 | unmaps exactly the reservations outside the used range and force-maps the used range exactly if it is made of other reservations |
| `UsmMemory.CleanupIsSafe` | shared/usm.cpp:123-163 | when the used range and the reservations are the negotiation's own, the blind unmapping and `MAP_FIXED` touch no foreign page and the used range stays reserved |
| `UsmMemory.Process.Reserve` | shared/usm.h:58-64 | a fixed reservation fails exactly on collision |
| `UsmMemory.Process.ForceReserve` | shared/usm.h:66-72 | a forced one replaces whatever is there |
| `UsmNegotiation.FreshIsElsewhere` | shared/usm.cpp:211-219 | after a collision a hint-free reservation of the same size gets another address |
| `UsmNegotiation.ClientKeepsPhase` | shared/usm.cpp:167-229 | every client step leads from one joint phase to another |
| `UsmNegotiation.ServiceKeepsPhase` | shared/usm.cpp:231-323 | every service step does |
| `UsmNegotiation.RunsStayInPhase` | shared/usm.cpp:167-323 | in every reachable state the two sides and the messages between them are in one of the listed phases |
| `UsmNegotiation.BothSidesAgree` | shared/usm.cpp:167-323 | for all try limits, addresses and interleavings, when both sides have returned they have the same range or both none |
| `UsmNegotiation.RunsKeepSize` | shared/usm.cpp:231-323 | over every run and all interleavings, every proposal, counter-proposal, acknowledgement and result has the size the client's start asks for, or the service's default when it asks for none |
| `UsmNegotiation.NegotiatedSize` | service/service.h:1211 | so does every range that either side returns |
| `UsmNegotiation.SomeoneCanMove` | shared/usm.cpp:94-121 | no deadlock: until both have returned, one side can move |
| `UsmNegotiation.NegotiationTerminates` | shared/usm.cpp:175-221 | no run has more than ten moves per client try and four more |
| `UsmSafety.ReservedIsOk` | shared/usm.cpp:194-202 | recording a reservation of free addresses keeps the record sorted, disjoint and owned |
| `UsmSafety.ClientStepIsSafe` | shared/usm.cpp:194-223 | a client step keeps what the client relies on reserved and changes no foreign memory |
| `UsmSafety.ServiceStepIsSafe` | shared/usm.cpp:246-317 | the same for the service, which owns exactly what it recorded |
| `UsmSafety.RunsStaySafe` | shared/usm.cpp:167-323 | over every run from any start, each side owns what it relies on, a client's own start excepted, and neither side's moves change foreign memory |
| `UsmSafety.ReturnedRangesAreReserved` | shared/usm.cpp:223-229 | over every run of a client that starts from null or whose start is refused, a returned range is reserved by the side that returns it, and the service keeps nothing else |
| `UsmSafety.OwnStartIsNeverReserved` | shared/usm.cpp:187-192 | from every initial state a client whose own start is not refused, size zero included, can return it unreserved |
| `UsmSafety.RefusedRunsReturnNothing` | service/service.h:1205-1216 | a malformed start, a start without size, or no tries on either side ends both sides with none |
| `UsmSafety.AlwaysReservesExactly` | shared/usm.cpp:167-229 | every run from an initial state returns only reserved addresses if and only if the start is null or refused |
| `TypedRing.FailsExactlyWhenFull` | shared/rpc.h:197-238 | a push fails exactly when its snapshot shows capacity - 1 elements, pending ones included |
| `TypedRing.PushFailsOnDrainedRing` | shared/rpc.h:240-245 | on a drained ring a push fails exactly when the batch fills it from its first slot, and the flush that follows is harmless exactly when the batch is empty |
| `TypedRing.WriteTouchesNothingUnread` | shared/rpc.h:197-238 | with however stale a head, the written slot is neither unread nor pending |
| `TypedRing.CommitPublishes` | shared/rpc.h:197-238 | the commit publishes the pending batch and the element, or adds the element to the batch |
| `TypedRing.PopTakesTheOldest` | shared/rpc.h:181-195 | a pop removes exactly the oldest unread element |
| `TypedRing.Buffer.Push` | shared/rpc.h:197-238 | queue, pending batch and success of a push |
| `TypedRing.Buffer.Pop` | shared/rpc.h:181-195 | queue and success of a pop |
| `TypedRing.ProducerKeepsInv` | shared/rpc.h:197-238 | every atomic step of a push keeps the refinement |
| `TypedRing.ConsumerKeepsInv` | shared/rpc.h:163-195 | so does every atomic step of the consumer |
| `TypedRing.RunsAreFifo` | shared/rpc.h:163-238 | under every interleaving what was pushed is what was popped, then what is unread, then what is pending; indices stay in range |
| `CommandHeap.LinearAllocator.Allocate` | shared/allocators.h:186-197 | a granted request gets the first aligned bytes in the heap above all handed out since the reset; it is refused exactly when there is no such place |
| `CommandHeap.LinearAllocator.Free` | shared/allocators.h:199-201 | the reset |
| `CommandHeap.Bumped` | shared/allocators.h:186-191 | the address is aligned and the request lies between the old and the new mark |
| `CommandHeap.BumpIsLeast` | shared/allocators.h:186-197 | the address is the first aligned one above the mark, and the heap grants the request exactly when an aligned place for it, rounded up to whole alignments, exists above the mark |
| `RpcChannel.PushKeepsInv` | shared/rpc.h:853-875 | every step of `submitCommand`, batched or not, keeps the channel invariant |
| `RpcChannel.ClientKeepsInv` | shared/rpc.h:853-924 | so does every step of a call |
| `RpcChannel.ServiceKeepsInv` | service/service.h:1285-1323 | so does every step of the service loop |
| `RpcChannel.RunsKeepInv` | shared/rpc.h:853-924 | the invariant holds in every reachable state |
| `RpcCompletion.ReturnMeansAllFinished` | shared/rpc.h:903-924 | when `callSynchronous` returns true the service has finished that command and all submitted before it, batched ones included: always if the call waits on the semaphore, and if it polls, whenever no unfinished command carried the stamp at its start |
| `RpcCompletion.GivesUpOnlyWhenStopped` | shared/rpc.h:1005-1038 | in every run a published synchronous call ends by returning true or, only when the channel is stopped, by giving up |
| `RpcCompletion.CompletedCallReturns` | shared/rpc.h:903-924 | from every reachable unstopped state in which the waiting call's command is finished and its post, if any, is made, at most three client steps return true with the heap freed |
| `RpcCompletion.RefusedAfterFivePushes` | shared/rpc.h:853-875 | a submission goes on, is published, or is refused after exactly five failed pushes; an asynchronous unbatched call then still signals the service |
| `RpcCompletion.RetriesWaitForTheDrain` | shared/rpc.h:857-865 | the second and the fourth push of a submission start on a ring seen drained |
| `RpcCompletion.AllocationIsFresh` | shared/rpc.h:917-921 | in every run whose polling calls start while no unfinished command carries the stamp, message space handed out never overlaps the message of a command pending, unread or being served |
| `CallSoundness.ResetReusesTheMessage` | shared/rpc.h:917-921 | the return frees the whole heap, and a large enough allocation gets it from its start |
| `CallSoundness.StampedCommandMisleads` | shared/rpc.h:1026-1038 | from every reachable idle state with an unfinished stamped command, and room in the ring or a service that can make some, the next polling call can return true with its own command unfinished |
| `CallSoundness.CallIsSoundExactly` | shared/rpc.h:903-924 | in every reachable state, the next synchronous call can be trusted if and only if it waits on the semaphore, or no unfinished command carries the stamp, or the ring is full and will not drain |
| `CallSoundness.FullRingStaysStuck` | shared/rpc.h:853-875 | a call on a ring that is full and cannot drain never gets to look at the stamp |
| `CallSoundness.MisledCallLosesItsMessage` | shared/rpc.h:917-921 | wherever a call can be misled, a continuation makes an allocation cover the message of its command while that is unfinished |
| `RpcCompletion.GivingUpLeavesTheStamp` | shared/rpc.h:1029-1034 | returning false on a stop with the command unfinished leaves a stamped command behind |
| `RpcCompletion.UnstoppedRunsStartClean` | shared/rpc.h:903-924 | until the channel is stopped every call starts with no unfinished stamped command |
| `RpcChannel.NoLostWakeUp` | shared/rpc.h:1210-1222 | in any run, if the service sleeps with nothing posted and the ring is nonempty, the client is between its publish and its post, or the newest published command is batched, for which the source posts nothing |
| `RpcChannel.NoLostWakeUpUnbatched` | shared/rpc.h:881-915 | without batched calls, the client is then between publish and post of the only unread command |
| `RpcChannel.NoLostCompletion` | shared/rpc.h:1005-1024 | in any run, a call asleep with nothing posted has a command still ahead of the service or the post about to come; once something is posted, everything is finished with and the stamp is set |
| `RpcChannel.FlushReachedExactly` | shared/rpc.h:857-862 | the ladder of retries flushes a nonempty batch exactly when, after the drain, the tail is 0 and the batch holds capacity - 1 elements |
| `ChannelLayout.Layout.constructor` | shared/rpc.h:281-324 | the default offsets |
| `ChannelLayout.Layout.ResizeCommandsRing` | shared/rpc.h:330-357 | the offsets for every number of ring pages, from whatever size the ring had |
| `ChannelLayout.Partition` | shared/rpc.h:435-500 | accepts exactly page-aligned memory of the minimum size and computes the layout sent to the server; the ring has the pages the environment asks for beyond its first, else one when calls are asynchronous, else none |
| `ChannelLayout.CapacitiesAreGreatest` | shared/rpc.h:480-497 | every array of the layout has the greatest capacity its region admits, with at least four stamps for each ring entry |
| `ChannelLayout.IsInBounds` | shared/rpc.h:596-656 | true exactly when all regions are in bounds, aligned and pairwise disjoint |
| `ChannelLayout.ComputedLayoutPasses` | shared/rpc.h:435-500 | for every ring size and page-aligned memory, the client's layout passes the server's check exactly when the memory reaches beyond the client heap start |
| `BufferRecycler.LeadingBitNum` | shared/utils.h:259-267 | the value lies between the two neighbouring powers of two |
| `BufferRecycler.BucketBoundsContainSize` | client/icd/icd_ocl.h:480-493 | every size up to the maximum goes to the one bucket whose bounds contain it |
| `BufferRecycler.EmptyBuckets` | client/icd/icd_ocl.h:315-328 | the constructor loop makes twelve buckets with doubling bounds |
| `BufferRecycler.FindBestFit` | client/icd/icd_ocl.h:386-440 | finds an eligible buffer exactly when there is one, and none better by host pointer match, then waste |
| `BufferRecycler.SwapRemovalConserves` | client/icd/icd_ocl.h:442-448 | removing by swapping with the last element takes out that buffer and nothing else |
| `BufferRecycler.TooSmallTotalMeansNoHit` | client/icd/icd_ocl.h:380-385 | the early exit on the bucket's total never hides an eligible buffer |
| `BufferRecycler.Recycler.TryRecycle` | client/icd/icd_ocl.h:495-536 | takes a buffer exactly when nobody else holds it, its size is positive and within some bucket, and the sizes of all stored buffers plus its own stay within the budget, and files it in its bucket |
| `BufferRecycler.Recycler.TryGet` | client/icd/icd_ocl.h:538-578 | hands out a best fit of the bucket for the size, or none exactly when that bucket has no eligible buffer |
| `BufferRecycler.StepKeepsPoolOk` | client/icd/icd_ocl.h:495-578 | each operation keeps totals equal to sums, buffers in their buckets and the budget |
| `BufferRecycler.TotalIsStored` | client/icd/icd_ocl.h:509-511 | the running total is the sum of the sizes of all stored buffers |
| `BufferRecycler.BucketsReachTheMaximum` | client/icd/icd_ocl.h:505-507 | some bucket admits a size exactly when it is at most the maximum |
| `BufferRecycler.PooledBuffersAreUnheld` | client/icd/icd_ocl.h:495-578 | over every run no pooled buffer has another holder, and none is pooled twice |
| `BufferRecycler.RunsStayWithinBudget` | client/icd/icd_ocl.h:495-578 | so does every run |

## Left out

- `resizeRange`, `resizeOrAllocate` and `realloc`: resizing does not update `sizeUsed`, so conservation is stated for allocate and free.
- RangeAllocator.Allocator.Allocate: requires room after alignment when the heap has no live range, since the source then looks at the first live range without checking that there is one; unsigned differences are taken to wrap to values larger than any request.
- RpcChannel.ClientKeepsInv: the client takes no step after `flushBatched` with a nonempty batch, which publishes without resetting the batch count, so that the next write would fall outside the ring; when that is reached is proved.
- RpcChannel.RunsKeepInv: runs end there for the client, as above.
- ChannelLayout.Partition: negative page counts other than -1, which wrap around, are not modelled. Layouts whose resized ring leaves no client heap are proved to fail the server's check; `minShmemSize` is not recomputed by the resize.
- Leftover reservations after a failed merge: `tryMergeUsmRegions` works on a copy, so what it reserved before failing is not cleaned up; only the service is proved to keep nothing but its result.
- The two negotiation loops as methods: they are steps of the joint state machine, each step one stretch of code between a receive and the next; merging and cleanup are methods with their loops.
- Other threads unmapping memory between a collision and the hint-free request that follows it in the same step of the negotiation; between steps they may map and unmap anything not owned.
- BlocksManagerObject.Manager.GetCountOfRequiredTransferDescs: no USM staging pairs; fetching consumes them, so counting and fetching agree only for ranges backed by blocks.
- BlocksManagerObject.Manager.GetRequiredTransferDescs: no USM staging pairs, as above. The overload that appends to a vector is the same two passes over one range.
- Failures of shared-memory allocation and of `mmap` in the block manager; they are logged and ignored there.
- MemoryBlockObject.MemoryBlock.Destroy: the mappings only; closing and removing the files behind them is not modelled, and neither is a failing `munmap`.
- Recycler cleanup, statistics and the double check around its mutex; waste is an exact ratio rather than a float.
- Weak memory ordering, signals and interrupted waits; stopping of the service's side of the channel.
- OpenCL and Level Zero handlers, generated files, sockets, environment parsing, logging, process spawning and library loading.
- Reference counting, info caches, context mapping tables, page-fault flags, artificial event pools, `ArenaAllocator` and `Barrier`: easy members beside the cores above.
