# zellij core, modelled in Dafny

This project models the integer bookkeeping at the heart of zellij, a
renderer for procedurally generated zellij tile patterns.

**The GPU slot allocator** (`internal/memory`):
- Every cluster's vertex payload (6 floats per vertex) lives in a
  fixed-capacity slot of a shared batch, which stands in for one VBO.
- Batches are grouped in five size buckets: S, M, L, XL, and XXL (one slot
  sized to the payload).
- Each pool keeps a free list of (batch, slot) references.
- The controller keeps:
  - a directory of allocation records, one per cluster;
  - a set of clusters whose data must be uploaded again;
  - a batch-id counter.
- Full batches are grown by doubling.
- Sparse batches are compacted into their siblings and then deleted.

**Smaller cores:**
- The cluster registry (`internal/app/cluster.go`): id assignment, removal,
  the sorted listing and Tab navigation.
- The numeric input buffer of the event handlers (`cmd/events.go`).
- The complexity-to-features mapping and the line-pool bookkeeping of the
  pattern generator (`internal/gen/generator.go`).

**Modules:**
- `Buckets`: size classes.
- `MemoryState`: the data model and the state invariant `Inv`.
  - Go pointers to batches become ids into an arena.
  - A VBO becomes a map from float index to a 32-bit pattern.
- `MemoryPrims`, `MemoryOps`, `Compaction`, `MemoryViews`: every operation
  as a function from the state before to the state (and result) after.
  Lemmas about these functions state what the source promises.
- `MemoryControl`: the `MemoryController` class. Its fields mirror the Go
  struct. Its methods run the source's loops and are proved to reach
  exactly the states those functions describe.
- `ClusterManagement`, `InputEvents`, `Generation`: the smaller cores, as
  classes with in-place updates, following the source.

**Central results:**
- Every operation of the allocator keeps `Inv`. `Inv` is the set of checks
  `ValidateClusterIntegrity` performs, plus the free-list and arena facts
  the code relies on.
- After `EnsureSlot` succeeds, the cluster's record names an active slot it
  owns, and that slot reads back the uploaded floats.
- `EnsureSlot` is idempotent.
- A compaction pass keeps every record and the floats it points at, and
  deletes only batches that were candidates.
- The statistics count one cluster per active slot, and `Draw` issues one
  call per batch with an active slot, each inside its own slot.

**Behaviours of the code shown as written:**
- `addFreeSlot` puts a reference at the front of a list whose entries all
  belong to lower batch ids, so the free list is not always sorted by
  (batch id, slot). The model keeps this behaviour. `AddFreeSlotCanUnsort`
  exhibits it, and sortedness is proved only under the condition that
  excludes it.
- Cluster id 0 doubles as the "cleared owner" value, so ownership is keyed
  on a slot's `active` flag.
- Not every inactive slot is on the free list: `createBatch` does not list
  its slots, and a popped XXL entry that is too small is dropped.
- Any in-place update, in any bucket, changes the slot's vertex count but
  not the record's count.

## Model

| member | source | states |
|---|---|---|
| Buckets.SelectBucket | internal/memory/controller.go:188-202 | the chosen bucket holds the count, XXL exactly above 65536, and every smaller bucket is too small |
| Buckets.SelectBucketMonotone | internal/memory/controller.go:188-202 | a larger vertex count never selects a smaller bucket |
| Buckets.VertexCapacityForBucket | internal/memory/controller.go:205-220 | XXL has capacity 0, the others at least 1024, and a fresh fixed batch can double twice within the 256 MiB ceiling |
| Buckets.SlotsPerBatchForBucket | internal/memory/controller.go:223-238 | every bucket has at least one slot per batch, and only XXL has exactly one |
| Buckets.BucketOrderByRank | internal/memory/controller.go:80 | the bucket order lists S..XXL once each, by size |
| MemoryState.AddFreeSlot | internal/memory/controller.go:269-298 | the list grows by exactly the ref, inserted at one position with the other entries in their order |
| MemoryState.InsertScan | internal/memory/controller.go:275-289 | the insertion index never moves backwards and stays within the list |
| MemoryState.AddFreeSlotKeepsSorted | internal/memory/controller.go:269-298 | a sorted list stays sorted when it is empty or its last entry's batch is not below the ref's |
| MemoryState.InsertScanSplits | internal/memory/controller.go:275-289 | under that condition the scan splits the list into entries not above and not below the ref |
| MemoryState.AddFreeSlotAllLower | internal/memory/controller.go:275-296 | when every entry has a lower batch id, the ref is put at the front |
| MemoryState.AddFreeSlotCanUnsort | internal/memory/controller.go:51-55 | a sorted one-entry list becomes unsorted: the documented order is not kept |
| MemoryState.AddFreeSlotNoDuplicates | internal/memory/controller.go:269-298 | inserting a new ref keeps the list free of duplicates |
| MemoryState.RemoveFromFreeList | internal/memory/controller.go:301-310 | every entry equal to the ref is dropped, and all others keep their multiplicity |
| MemoryState.RemoveFromFreeListNoDuplicates | internal/memory/controller.go:301-310 | the result is duplicate-free and holds exactly the other entries |
| MemoryState.PurgeBatch | internal/memory/controller.go:1104-1114 | every entry naming the batch is dropped, and the others keep their multiplicity |
| MemoryState.PurgeBatchNoDuplicates | internal/memory/controller.go:1104-1114 | the purge keeps the list duplicate-free and drops exactly the batch's entries |
| MemoryState.AddFreeSlots | internal/memory/controller.go:528-538 | repeated insertion adds exactly the new refs |
| MemoryState.AddFreeSlotsNoDuplicates | internal/memory/controller.go:528-538 | inserting new distinct refs keeps the list duplicate-free and adds exactly them |
| MemoryState.FirstInactive | internal/memory/controller.go:395-407 | the lowest-index inactive slot, or none when all are active |
| MemoryState.IndexOf | internal/memory/controller.go:423-431 | the first position holding the value, or none when it is absent |
| MemoryState.SwapRemove | internal/memory/controller.go:422-432 | a listed slot index leaves the active list once and nothing else changes in count; an absent one changes nothing |
| MemoryState.SwapRemoveNoDuplicates | internal/memory/controller.go:422-432 | a swap-remove keeps the active list duplicate-free and drops exactly that index |
| MemoryState.DeleteAt | internal/memory/compactor.go:204-205 | an order-preserving delete removes exactly one entry |
| MemoryState.DeleteAtNoDuplicates | internal/memory/compactor.go:204-205 | the delete keeps a list duplicate-free and drops exactly that entry |
| MemoryState.FreeSlotInBatch | internal/memory/controller.go:412-433 | an in-range slot is cleared (inactive, no owner, no vertices, same offset) and its active-list entry is swap-removed, so the list loses exactly that index; an out-of-range index changes nothing; id, bucket, slot count, buffer, capacity and growth cycles are kept |
| MemoryState.NewSlots | internal/memory/controller.go:526-538 | new slot k is inactive at offset `perSlot * (from + k)` |
| MemoryState.Grown | internal/memory/controller.go:518-538 | growth doubles the slots and the capacity, counts one more growth cycle and starts an empty buffer; the old slots are kept and new slot j is inactive at `perSlot * j` |
| MemoryState.Affected | internal/memory/controller.go:475-478 | one owner per active-list entry |
| MemoryState.Write | internal/memory/controller.go:694-701 | the written range reads back as the data, and the rest of the buffer is unchanged |
| MemoryState.CopyRange | internal/memory/compactor.go:164-175 | the target range reads back as the source range, and the rest of the target is unchanged |
| MemoryState.EmptyMemInv | internal/memory/controller.go:546-564 | a new controller satisfies the invariant |
| MemoryState.SpareSlotExists | internal/memory/controller.go:313-320 | a batch with fewer active entries than slots has an inactive slot |
| MemoryPrims.FindFreeSlotM | internal/memory/controller.go:252-266 | returns none exactly on an empty free list (nothing changes), otherwise pops the head |
| MemoryPrims.FirstWithCapacity | internal/memory/controller.go:313-320 | the first listed batch with a spare slot; none when every batch is full |
| MemoryPrims.FindBatchWithCapacity | internal/memory/controller.go:313-320 | a listed live batch with a spare slot, or none when all are full |
| MemoryPrims.CreateBatchM | internal/memory/controller.go:324-389 | a new empty batch under `nextBatchID`, which is incremented, appended to its pool; its slots are not put on the free list; XXL batches have one slot sized to the payload |
| MemoryPrims.CreateBatchKeepsInv | internal/memory/controller.go:324-389 | creating a batch keeps the invariant |
| MemoryPrims.AllocateSlotInBatchM | internal/memory/controller.go:393-409 | claims the lowest inactive slot: it becomes active for the cluster with its count, joins the end of the active list and leaves the pool's free list, other pools unchanged; fails with nothing changed exactly when every slot is active |
| MemoryPrims.FreeSlotM | internal/memory/controller.go:412-433 | the batch becomes FreeSlotInBatch of itself; pools and records are unchanged |
| MemoryPrims.ClaimRecordKeepsInv | internal/memory/controller.go:393-409 | claiming an unlisted inactive slot for a cluster without a record, and recording it, keeps the invariant |
| MemoryPrims.FreeSlotBatchOk | internal/memory/controller.go:412-433 | freeing an active slot clears exactly that slot and keeps the batch well formed |
| MemoryPrims.MarkReupload | internal/memory/controller.go:980-984 | every listed id joins the pending set, and nothing else changes |
| MemoryPrims.TakeReupload | internal/memory/controller.go:987-999 | returns the pending set and leaves it empty, and nothing else changes |
| MemoryPrims.ReuploadKeepsInv | internal/memory/controller.go:980-999 | the pending set does not affect the invariant |
| MemoryPrims.Upload | internal/memory/controller.go:694-701 | the floats read back from `vertexOffset * 6`, and only the buffer changes |
| MemoryPrims.VboOnlyKeepsInv | internal/memory/controller.go:694-701 | writing a buffer keeps the invariant |
| MemoryPrims.UpdateInPlaceM | internal/memory/controller.go:687-691 | only the slot's vertex count and the batch's buffer change, and the new floats read back from the slot's offset; records and pools are unchanged (the record keeps its old count) |
| MemoryPrims.UpdateInPlaceKeepsInv | internal/memory/controller.go:579-599 | an in-place update that fits keeps the invariant |
| MemoryOps.UpdateHeld | internal/memory/controller.go:579-599 | a cluster whose new payload fits its current slot keeps its slot, every record is unchanged (its own keeps the old count), the slot counts the new vertices and reads back the new payload, and the invariant holds |
| MemoryPrims.RemoveClusterM | internal/memory/controller.go:704-722 | fails with NotFound, changing nothing, exactly for an unknown cluster; otherwise the cluster's slot is freed (FreeSlotInBatch), added to its pool's free list with the other pools unchanged, and only its record is dropped |
| MemoryPrims.RemoveClusterKeepsInv | internal/memory/controller.go:704-722 | removing a cluster keeps the invariant |
| MemoryPrims.FirstGrowable | internal/memory/controller.go:635-644 | the first batch `canGrow` accepts, or none |
| MemoryPrims.PopFree | internal/memory/controller.go:607-629 | pops up to and including a usable entry; an XXL entry whose slot is too small is dropped; none leaves the list empty |
| MemoryPrims.FreeSublistKeepsInv | internal/memory/controller.go:607-629 | shrinking a free list to a duplicate-free selection of its entries keeps the invariant |
| MemoryPrims.GrowBatchM | internal/memory/controller.go:468-543 | refuses with CannotGrow, changing nothing, exactly when canGrow fails; otherwise returns the owners of the active slots in active-list order, grows the batch (Grown: one more cycle) and appends the new slots' refs to its pool's free list, other pools and the records unchanged |
| MemoryPrims.GrowKeepsInv | internal/memory/controller.go:468-543 | growing a fixed-size batch keeps the invariant |
| MemoryPrims.GrownBatchOk | internal/memory/controller.go:448-465 | a batch `canGrow` accepts stays well formed when doubled |
| MemoryPrims.GrownFreeListsOk | internal/memory/controller.go:528-538 | the new slots join the free list as inactive slots of the live batch |
| MemoryPrims.DeleteBatchM | internal/memory/controller.go:1081-1122 | fails with BatchNotEmpty, changing nothing, exactly when active slots remain; otherwise the batch leaves the arena and its pool's batch list, every free-list entry naming it is purged, and the other pools and the records are unchanged |
| MemoryPrims.DeleteBatchKeepsInv | internal/memory/controller.go:1081-1122 | deleting a batch keeps the invariant |
| MemoryOps.GrowFirst | internal/memory/controller.go:634-645 | grows the first growable batch (which then has a free slot) or changes nothing when none can grow; keeps the invariant |
| MemoryOps.PickBatch | internal/memory/controller.go:631-653 | a live batch of the bucket with a free slot, reached by capacity, growth or creation; keeps the invariant and the records |
| MemoryOps.ChooseBatch | internal/memory/controller.go:631-662 | as PickBatch, and an XXL batch is big enough for the payload |
| MemoryOps.ClaimSlot | internal/memory/controller.go:624-627 | only the popped slot is claimed; pools and records are unchanged |
| MemoryOps.StoreRecord | internal/memory/controller.go:670-681 | the payload is uploaded into the slot and the record points at it |
| MemoryOps.PlaceKeepsInv | internal/memory/controller.go:670-681 | claiming, uploading and recording a spare slot keeps the invariant, and the payload reads back |
| MemoryOps.AllocateFresh | internal/memory/controller.go:602-683 | a new cluster gets a record naming a slot that reads back its payload; the other records are unchanged |
| MemoryOps.ReuseFreeSlot | internal/memory/controller.go:607-628 | when the pool's free list yields a slot that fits, the cluster takes it without error and reads back its payload; the other records are unchanged and the invariant holds |
| MemoryOps.AllocateNewSlot | internal/memory/controller.go:631-668 | with no usable free slot, a batch with room, a grown batch or a newly created one takes the cluster without error; it reads back its payload, the other records are unchanged and the invariant holds |
| MemoryOps.Reallocate | internal/memory/controller.go:588-599 | a cluster that does not fit is removed and allocated afresh; the other records are unchanged |
| MemoryOps.EnsureSlotM | internal/memory/controller.go:567-684 | empty and non-stride payloads fail with no change, and every other payload succeeds; success leaves the payload readable through the cluster's record; other records are unchanged; the invariant is kept |
| MemoryOps.EnsureSlotIdempotent | internal/memory/controller.go:579-599 | repeating a successful call with the same payload changes nothing |
| MemoryOps.HoldsFitsInPlace | internal/memory/controller.go:579-599 | a cluster's slot always fits the payload it holds |
| MemoryOps.UpdateSameIsNoop | internal/memory/controller.go:687-691 | an in-place update with the held payload is a no-op |
| MemoryOps.EnsureSlotGrowsFullBatch | internal/memory/controller.go:629-681 | a new cluster whose bucket has one full growable batch and an empty free list takes the first new slot; the old clusters are queued for re-upload; the remaining new slots stay on the free list in order |
| MemoryOps.FreshViaBatch | internal/memory/controller.go:631-681 | with an empty free list, the payload goes where ChooseBatch and allocateSlotInBatch put it |
| MemoryOps.GrowChoice | internal/memory/controller.go:634-645 | in the growth case the pool's only batch is grown and its clusters are queued |
| MemoryOps.AddFreeSlotsNewRefs | internal/memory/controller.go:528-538 | growth into an empty free list leaves the new slots in index order |
| MemoryViews.RecordErrors | internal/memory/controller.go:729-759 | a record fails no check exactly when its batch is listed and it names an active slot it owns; at most two failures |
| MemoryViews.InvImpliesIntegrity | internal/memory/controller.go:726-770 | the integrity check passes on every state the operations keep |
| MemoryViews.IntegrityMeansRecordsOk | internal/memory/controller.go:726-770 | the check passes iff every record is sound and its batch is listed |
| MemoryViews.PoolStatsShape | internal/memory/controller.go:1125-1150 | a pool counts one cluster per active slot, its batches and free entries, and no more active batches than batches |
| MemoryViews.SumPoolsShape | internal/memory/controller.go:832-849 | the summed pools count one cluster per active slot, and the free count is the total free-list length |
| MemoryViews.PerBucketCovers | internal/memory/controller.go:842 | every bucket's counters are in the per-bucket map |
| MemoryViews.StatsConsistent | internal/memory/controller.go:823-850 | under the invariant: total clusters equals active slots; active plus free slots fit within the slots; active batches are at most the batches |
| MemoryViews.BucketStatsConsistent | internal/memory/controller.go:1125-1150 | each bucket's counters count one cluster per active slot, and no more active batches than batches |
| MemoryViews.RecordedAreActive | internal/memory/controller.go:824 | under the invariant, the records name exactly the active slots, one each |
| MemoryViews.ActivePlusFreeWithinSlots | internal/memory/controller.go:1135-1136 | active slots and free-list entries are distinct slots |
| MemoryViews.FreeRefsFacts | internal/memory/controller.go:845-849 | the free entries are distinct inactive slots of live batches |
| MemoryViews.Int32 | internal/memory/controller.go:793-794 | the conversion lands in the int32 range and is exact on it |
| MemoryViews.CallOf | internal/memory/controller.go:788-795 | one range per active slot, for the batch's own id |
| MemoryViews.DrawCountIsActiveBatches | internal/memory/controller.go:778-803 | Draw issues one call per batch with an active slot, the count updateStats reports |
| MemoryViews.DrawCallsMembers | internal/memory/controller.go:778-800 | the calls are exactly those of live batches with an active slot |
| MemoryViews.EveryClusterDrawn | internal/memory/controller.go:778-800 | every cluster's slot is listed in its batch's call |
| MemoryViews.DrawRangesInSlots | internal/memory/controller.go:788-797 | each call's ranges lie within the batch and do not overlap (exact int32 for non-XXL batches) |
| Compaction.PoolCandidates | internal/memory/compactor.go:45-67 | exactly the listed batches with slots and `4*active < slots` |
| Compaction.Collect | internal/memory/compactor.go:39-68 | exactly the candidates of the given buckets' pools |
| Compaction.ScanForCompaction | internal/memory/compactor.go:30-80 | a permutation of the collected candidates |
| Compaction.ScanForCompactionSpec | internal/memory/compactor.go:30-80 | ordered by ascending utilisation, and holding exactly the candidate batches of all pools |
| Compaction.SortByUtilSorted | internal/memory/compactor.go:74-78 | the sort orders by utilisation |
| Compaction.UtilLeTrans | internal/memory/compactor.go:74-78 | the utilisation order is transitive |
| Compaction.ScanCandidatesDistinct | internal/memory/compactor.go:30-80 | each batch appears at most once, and an XXL candidate is empty |
| Compaction.XxlCandidateIsEmpty | internal/memory/compactor.go:53-60 | an XXL batch is a candidate only when empty |
| Compaction.OwnerPos | internal/memory/compactor.go:186-192 | the first active-list position from k whose slot the cluster owns, or none |
| Compaction.Vacate | internal/memory/compactor.go:198-208 | the source slot is cleared, and its active entry deleted in order when found |
| Compaction.CopySlotDataM | internal/memory/compactor.go:146-227 | succeeds iff the target has a free slot and the cluster has a record; no free slot changes nothing; success repoints the record to (target, lowest free slot, count) |
| Compaction.CopyReachesMovedState | internal/memory/compactor.go:146-227 | a move from an active slot to a same-pool target with room succeeds and copies the floats |
| Compaction.OwnerPosOfActive | internal/memory/compactor.go:186-192 | under the invariant the owner search finds the moved slot's own active entry |
| Compaction.MovedKeepsPayloads | internal/memory/compactor.go:146-227 | a move keeps the invariant, the set of records and the floats every record points at |
| Compaction.MovedTotal | internal/memory/compactor.go:146-227 | a move keeps the pool's active-slot total |
| Compaction.CopyStep | internal/memory/compactor.go:115-137 | one move succeeds, keeps the pool compacted, touches only the source slot and the target, and shrinks the source's active list by one |
| Compaction.Targets | internal/memory/compactor.go:96-104 | the other batches of the pool with a spare slot |
| Compaction.MoveSlotsFacts | internal/memory/compactor.go:114-138 | each snapshot slot moves to the first target with room, without error; the moved count matches the source's loss; the source is reported empty exactly when it is; stopping early means every target is full; other batches are untouched |
| Compaction.CompactBatchM | internal/memory/compactor.go:85-142 | never fails, keeps the pool compacted, and counts exactly the moves |
| Compaction.CompactBatchOutcome | internal/memory/compactor.go:85-142 | with no target nothing changes; deletable iff emptied and a target existed; a left-behind slot means every target is full |
| Compaction.DeleteEmptyKept | internal/memory/controller.go:1081-1122 | deleting an empty batch succeeds and keeps every record and its floats |
| Compaction.Step | internal/memory/controller.go:1017-1068 | one candidate adds at most one compaction and keeps records and floats; only that candidate may disappear |
| Compaction.StepEmpty | internal/memory/controller.go:1027-1037 | an empty candidate is deleted and counted |
| Compaction.StepSparse | internal/memory/controller.go:1038-1068 | a sparse candidate is compacted, counted when something moved, and deleted when emptied |
| Compaction.SparseCompacted | internal/memory/controller.go:1040-1052 | compaction of a candidate never touches XXL batches, and deletable implies something moved |
| Compaction.DeleteEmptied | internal/memory/controller.go:1052-1064 | deleting the emptied candidate succeeds |
| Compaction.Process | internal/memory/controller.go:1017-1069 | the loop stops at DefragMaxPerFrame compactions and deletes only candidates |
| Compaction.TryCompactionM | internal/memory/controller.go:1004-1078 | keeps the invariant, every record and its floats; deletes only candidates; at most DefragMaxPerFrame compactions and no more deletions than compactions |
| MemoryControl.InsertFreeRef | internal/memory/controller.go:275-297 | the scan-and-shift loop computes addFreeSlot |
| MemoryControl.FilterFreeList | internal/memory/controller.go:301-310 | the filter loop computes removeFromFreeList |
| MemoryControl.FilterBatchRefs | internal/memory/controller.go:1104-1114 | the filter loop purges the batch's entries |
| MemoryControl.FindWithCapacity | internal/memory/controller.go:313-320 | the loop finds the first batch with a spare slot |
| MemoryControl.FindGrowable | internal/memory/controller.go:635-644 | the loop finds the first growable batch |
| MemoryControl.AffectedClusters | internal/memory/controller.go:475-478 | the loop collects the owners of the active slots |
| MemoryControl.MakeSlots | internal/memory/controller.go:362-371 | the slot loop builds the fresh slots |
| MemoryControl.AppendSlots | internal/memory/controller.go:522-538 | the growth loop appends inactive slots at running offsets |
| MemoryControl.AddNewRefs | internal/memory/controller.go:528-538 | the growth loop adds the new slots to the free list in index order |
| MemoryControl.PoolScan | internal/memory/compactor.go:45-67 | the scan loop over one pool computes its candidates |
| MemoryControl.TargetScan | internal/memory/compactor.go:96-104 | the target loop computes the targets |
| MemoryControl.OwnerIndex | internal/memory/compactor.go:186-192 | the owner loop computes OwnerPos |
| MemoryControl.BatchDrawCall | internal/memory/controller.go:788-795 | the inner Draw loop computes one batch's call |
| MemoryControl.PoolDrawCalls | internal/memory/controller.go:781-799 | the pool loop skips empty batches and computes the calls |
| MemoryControl.CalculateStats | internal/memory/controller.go:1125-1150 | the nested loops compute the pool's counters |
| MemoryControl.AddPoolStats | internal/memory/controller.go:833-842 | one loop turn adds a pool's counters to the totals and stores them under its bucket |
| MemoryControl.PoolTotals | internal/memory/controller.go:832-843 | the loop computes the summed totals and the per-bucket map |
| MemoryControl.ListedIn | internal/memory/controller.go:731-737 | found iff the batch id is listed |
| MemoryControl.MemoryController.constructor | internal/memory/controller.go:546-564 | the new controller is empty and satisfies the invariant |
| MemoryControl.MemoryController.FindFreeSlot | internal/memory/controller.go:252-266 | pops the head of the pool's free list |
| MemoryControl.MemoryController.AddFreeSlot | internal/memory/controller.go:269-298 | the pool's free list becomes addFreeSlot of it |
| MemoryControl.MemoryController.RemoveFromFreeList | internal/memory/controller.go:301-310 | the pool's free list becomes removeFromFreeList of it |
| MemoryControl.MemoryController.FindBatchWithCapacity | internal/memory/controller.go:313-320 | the first batch with a spare slot |
| MemoryControl.MemoryController.CreateBatch | internal/memory/controller.go:324-389 | the state and id CreateBatchM describes |
| MemoryControl.MemoryController.AllocateSlotInBatch | internal/memory/controller.go:393-409 | the claim, active-list append and free-list removal AllocateSlotInBatchM states, or failure with no change |
| MemoryControl.MemoryController.FreeSlot | internal/memory/controller.go:412-433 | the slot is cleared and swap-removed from the active list as FreeSlotInBatch states, or nothing changes for an out-of-range index |
| MemoryControl.MemoryController.GrowBatch | internal/memory/controller.go:468-543 | refusal with no change unless canGrow; otherwise the grown batch, the new free-list refs and the affected owners GrowBatchM states |
| MemoryControl.MemoryController.MarkClustersForReupload | internal/memory/controller.go:980-984 | the listed ids join the pending set |
| MemoryControl.MemoryController.GetAndClearClustersNeedingReupload | internal/memory/controller.go:987-999 | returns each pending id once and empties the set |
| MemoryControl.MemoryController.UploadVertexData | internal/memory/controller.go:694-701 | only the batch's buffer changes, by Upload |
| MemoryControl.MemoryController.UpdateSlotInPlace | internal/memory/controller.go:687-691 | only the slot's count and the batch's buffer change, and the new floats read back (UpdateInPlaceM) |
| MemoryControl.MemoryController.RemoveCluster | internal/memory/controller.go:704-722 | the state and result RemoveClusterM states (slot freed, listed as free, record dropped); the invariant is kept |
| MemoryControl.MemoryController.DeleteBatch | internal/memory/controller.go:1081-1122 | the state and result DeleteBatchM states (batch unlinked from the arena and its pool, its free-list entries purged); the invariant is kept |
| MemoryControl.MemoryController.PopFreeSlot | internal/memory/controller.go:607-629 | the free-list loop reaches PopFree |
| MemoryControl.MemoryController.GrowFirstBatch | internal/memory/controller.go:634-645 | the growth loop reaches GrowFirst |
| MemoryControl.MemoryController.PickBatch | internal/memory/controller.go:631-653 | reaches MemoryOps.PickBatch |
| MemoryControl.MemoryController.ChooseBatch | internal/memory/controller.go:631-662 | reaches MemoryOps.ChooseBatch |
| MemoryControl.MemoryController.AllocateFresh | internal/memory/controller.go:602-683 | reaches MemoryOps.AllocateFresh |
| MemoryControl.MemoryController.ClaimFreeSlot | internal/memory/controller.go:624-627 | the slot becomes active for the cluster with its vertex count and joins the batch's active list; nothing else changes |
| MemoryControl.MemoryController.RecordSlot | internal/memory/controller.go:670-681 | the payload is uploaded into the slot, the cluster's record names the slot and its count, and the pools are unchanged |
| MemoryControl.MemoryController.EnsureSlot | internal/memory/controller.go:567-684 | reaches EnsureSlotM: success exactly on a non-empty whole-vertex payload, which then reads back through the cluster's record; the invariant is kept |
| MemoryControl.MemoryController.ScanForCompaction | internal/memory/compactor.go:30-80 | returns Compaction.ScanForCompaction of the state |
| MemoryControl.MemoryController.CopySlotData | internal/memory/compactor.go:146-227 | the state and result CopySlotDataM describes |
| MemoryControl.MemoryController.CompactBatch | internal/memory/compactor.go:85-142 | the state and results CompactBatchM describes |
| MemoryControl.MemoryController.MoveFirst | internal/memory/compactor.go:117-136 | one turn of the move loop: the first remaining slot goes to the first target with room, and what is left of the loop from the new state is what MoveSlots computes from the old one |
| MemoryControl.MemoryController.MoveSlots | internal/memory/compactor.go:111-141 | the snapshot loop reaches Compaction.MoveSlots |
| MemoryControl.MemoryController.CompactCandidate | internal/memory/controller.go:1017-1068 | one loop turn reaches Compaction.Step |
| MemoryControl.MemoryController.ProcessCandidates | internal/memory/controller.go:1017-1069 | the loop reaches Compaction.Process |
| MemoryControl.MemoryController.TryCompaction | internal/memory/controller.go:1004-1078 | reaches TryCompactionM and keeps the invariant |
| MemoryControl.MemoryController.ValidateClusterIntegrity | internal/memory/controller.go:726-770 | passes iff no record fails a check; a failure counts between 1 and 2 errors per record |
| MemoryControl.MemoryController.UpdateStats | internal/memory/controller.go:823-850 | returns StatsOf the state |
| MemoryControl.MemoryController.Draw | internal/memory/controller.go:773-805 | returns DrawCalls of the state, one per active batch |
| ClusterManagement.WrapInt64 | internal/app/cluster.go:133 | the result is an int64, equal to the input when that already is one |
| ClusterManagement.IncrementWraps | internal/app/cluster.go:132-135 | the seed goes up by one, and only the largest int64 wraps to the smallest |
| ClusterManagement.Cluster.SetComposition | internal/app/cluster.go:24-27 | the composition is replaced and the cluster marked dirty; the seed and complexity are kept |
| ClusterManagement.Ascending | internal/app/cluster.go:81-88 | the ids of a set, once each, strictly ascending |
| ClusterManagement.SortedUnique | internal/app/cluster.go:81-88 | there is exactly one strictly ascending list of a set |
| ClusterManagement.CollectIds | internal/app/cluster.go:150-153 | the map's keys, once each |
| ClusterManagement.SortIds | internal/app/cluster.go:154 | a sorted permutation |
| ClusterManagement.SortedIds | internal/app/cluster.go:150-154 | the keys in ascending order |
| ClusterManagement.PositionOf | internal/app/cluster.go:168-174 | the first position of the id, or none when it is absent |
| ClusterManagement.Cycle | internal/app/cluster.go:180 | `%` on the range it is used on, as a wrap-around step |
| ClusterManagement.IterTarget | internal/app/cluster.go:145-181 | the new current id is always one of the ids |
| ClusterManagement.IterRoundTrip | internal/app/cluster.go:168-183 | from a live cluster, next then previous returns to it |
| ClusterManagement.IterRoundTripBack | internal/app/cluster.go:168-183 | from a live cluster, previous then next returns to it |
| ClusterManagement.IterFromNone | internal/app/cluster.go:156-181 | with no current cluster, next gives the second id and previous the second-to-last |
| ClusterManagement.IterFromRemoved | internal/app/cluster.go:175-181 | a removed current cluster restarts from position 0 |
| ClusterManagement.NextId | internal/app/cluster.go:156-181 | the lookup loop and step compute IterTarget |
| ClusterManagement.InOrder | internal/app/cluster.go:81-88 | every stored cluster once, in ascending id order |
| ClusterManagement.ClusterManager.constructor | internal/app/cluster.go:47-53 | no clusters, no current cluster (-1), the given seed, next id 0 |
| ClusterManagement.ClusterManager.AddCluster | internal/app/cluster.go:56-69 | the new dirty cluster gets the unused id `nextID`, which moves on by one; nothing else changes |
| ClusterManagement.Cluster.constructor | internal/app/cluster.go:57-65 | a new cluster carries the given id, composition, seed and complexity and starts dirty |
| ClusterManagement.ClusterManager.RemoveCluster | internal/app/cluster.go:72-78 | true iff the id was stored; only that id goes |
| ClusterManagement.ClusterManager.GetClusters | internal/app/cluster.go:81-88 | every stored cluster exactly once, by ascending id |
| ClusterManagement.ClusterManager.SetCurrentCluster | internal/app/cluster.go:123-129 | nil gives -1, otherwise the cluster's id |
| ClusterManagement.ClusterManager.IncrementSeed | internal/app/cluster.go:132-135 | the seed goes up by one in int64 arithmetic and is returned |
| ClusterManagement.ClusterManager.IterCluster | internal/app/cluster.go:139-188 | with no clusters, -1 and nil; otherwise the next or previous id in ascending order, with wrap-around, becomes current and its cluster is returned |
| ClusterManagement.StepId | internal/app/cluster.go:150-181 | on a non-empty map, the id one step from the current one in ascending order, wrapping around; it is a key of the map |
| InputEvents.DigitChar | cmd/events.go:97 | a digit key's character is the decimal digit |
| InputEvents.KeyEffect | cmd/events.go:94-118 | only presses edit the buffer: each press appends one character, clears the buffer, or leaves it; the buffer holds only digits and commas |
| InputEvents.TypedKeysFor | cmd/events.go:94-104 | typing the keys of a digit-and-comma string appends exactly that string |
| InputEvents.FirstIndex | cmd/events.go:465 | the first comma, or none when there is none |
| InputEvents.TrimSpaceEnds | cmd/events.go:467 | the trimmed text has no white space at either end |
| InputEvents.TrimSpaceEmpty | cmd/events.go:467 | the trimmed text is empty exactly when the input is all white space |
| InputEvents.Atoi | cmd/events.go:468 | only a signed run of digits that fits in int64 parses |
| InputEvents.AtoiDecimal | cmd/events.go:468 | Atoi reads back a decimal up to the int64 bound and rejects it beyond |
| InputEvents.Parse | cmd/events.go:459-491 | an empty buffer gives (1, nil); without a comma, "d" gives no complexity and other actions give count 1 with a complexity, or (0, nil) |
| InputEvents.CountPart | cmd/events.go:467-471 | the number before the comma, or 0 |
| InputEvents.ComplexityPart | cmd/events.go:472-476 | the number after the comma, or nil |
| InputEvents.ParseNumber | cmd/events.go:477-486 | a lone number is the count for "d" and the complexity with count 1 otherwise |
| InputEvents.ParseOverflow | cmd/events.go:477-486 | a number beyond int64 parses to (0, nil) |
| InputEvents.ParsePair | cmd/events.go:465-476 | "count,complexity" gives both |
| InputEvents.ParseCountOnly | cmd/events.go:465-476 | "count," gives the count and nil |
| InputEvents.ParseComplexityOnly | cmd/events.go:465-476 | ",complexity" gives count 0 and the complexity |
| InputEvents.ParseTypedNonNegative | cmd/events.go:94-104 | whatever was typed, the parsed count and complexity are not negative |
| InputEvents.TypeThenParse | cmd/events.go:94-104 | typing a number and pressing an action key hands the number to that action |
| InputEvents.DeleteCount | cmd/events.go:429-431 | the count is capped at the number of clusters found |
| InputEvents.Firsts | cmd/events.go:432-439 | the ids of the first n closest clusters |
| InputEvents.RemoveFirsts | cmd/events.go:432-439 | the loop removes exactly the first n closest clusters |
| InputEvents.EventHandlers.HandleKey | cmd/events.go:93-118 | the buffer becomes KeyEffect of it |
| InputEvents.EventHandlers.ParseInput | cmd/events.go:459-491 | returns Parse of the buffer and leaves the buffer empty |
| InputEvents.EventHandlers.constructor | cmd/events.go:49-56 | a new handler starts with an empty input buffer |
| InputEvents.EventHandlers.HandleDeleteClusterKey | cmd/events.go:421-440 | removes the first capped-count closest clusters and nothing else; empties the buffer |
| Generation.Truncate | internal/gen/generator.go:497 | Go's `int()` on a float truncates toward zero |
| Generation.ComplexityFeaturesShape | internal/gen/generator.go:90-125 | NumLines is c; the density is 6, 12 or 20 and the grid side 13, 25 or 41 by the thresholds; the focus and shimmer thresholds; the grid side is odd |
| Generation.ComplexityMonotone | internal/gen/generator.go:96-122 | higher complexity never gives a sparser grid, a smaller focus or less shimmer |
| Generation.InitFeaturesShape | internal/gen/generator.go:56-86 | the random path gives a well-formed feature set with one of three densities |
| Generation.Generator.SetFeaturesForComplexity | internal/gen/generator.go:90-125 | no complexity gives initFeatures' features, otherwise the complexity's features; always well formed |
| Generation.Generator.InitFeaturesM | internal/gen/generator.go:56-86 | the features initFeatures assigns for the draws |
| Generation.Generator.constructor | internal/gen/generator.go:51-53 | a new generator starts with zero features |
| Generation.AllLines | internal/gen/generator.go:376-402 | 6n+4 lines |
| Generation.AllLinesIndexed | internal/gen/generator.go:376-402 | each line's position can be recovered from the line |
| Generation.AllLinesDistinct | internal/gen/generator.go:376-402 | no line appears twice in the pool |
| Generation.MakeAllLines | internal/gen/generator.go:376-402 | the six loops append AllLines |
| Generation.AppendHorizontals | internal/gen/generator.go:377-380 | appends the horizontal lines |
| Generation.AppendVerticals | internal/gen/generator.go:382-385 | appends the vertical lines |
| Generation.AppendNorthWest | internal/gen/generator.go:387-390 | appends the north-west lines |
| Generation.AppendSouthEast | internal/gen/generator.go:391-393 | appends the south-east lines |
| Generation.AppendNorthEast | internal/gen/generator.go:395-398 | appends the north-east lines from the left edge |
| Generation.AppendFromBottom | internal/gen/generator.go:399-401 | appends the north-east lines from the bottom edge |
| Generation.RemoveAt | internal/gen/generator.go:535 | the splice drops exactly entry i and shifts the rest |
| Generation.ApplyPlan | internal/gen/generator.go:531-536 | each step removes one line from the pool |
| Generation.ApplyPlanKeeps | internal/gen/generator.go:531-536 | one kept line per keeping step |
| Generation.DescendingPicked | internal/gen/generator.go:531-536 | with descending indices, the kept lines are those originally at the keeping indices |
| Generation.DescendingRemoved | internal/gen/generator.go:531-536 | with descending indices, the pool loses exactly the lines originally at the plan's indices |
| Generation.StarPlan | internal/gen/generator.go:500-529 | 22 steps |
| Generation.StarKeepCount | internal/gen/generator.go:500-529 | eight steps keep their line |
| Generation.StarGroup | internal/gen/generator.go:538-561 | sixteen points |
| Generation.StarGroupDistinct | internal/gen/generator.go:538-561 | the sixteen points are distinct |
| Generation.StarCoordRange | internal/gen/generator.go:497-498 | for n >= 5 the star's coordinates lie in 2..n-3 |
| Generation.StarPlanFits | internal/gen/generator.go:500-536 | on a fresh pool with the star inside the grid, the indices descend and stay in range |
| Generation.MakeRandomStar | internal/gen/generator.go:496-562 | the loop runs the plan on the pool and kept lines, and appends the star's group |
| Generation.RandomStarOnFreshPool | internal/gen/generator.go:496-562 | on makeAllLines' pool, 22 lines leave, the 8 kept are the lines originally at the keeping indices, and nothing else is lost |
| Generation.SelectLines | internal/gen/generator.go:413-421 | `num` less the lines already kept, capped by the pool, move one at a time; the combined multiset is preserved; the loop ends on an empty pool or `num <= 0` |

## Left out

- OpenGL: buffer creation, attribute setup, binding, `cleanup` and `MultiDrawArrays` are left out.
  - A VBO is a map from float index to bits.
  - `BufferSubData` and `GetBufferSubData` are `Write`/`Read`.
  - A grown batch gets an empty map, so no data survives growth. This is why its clusters are queued for re-upload.
- Timing, logging and the statistics counters (`GrowthEvents`, `CompactionEvents`, `SlotsRelocated`, `BatchDeletions`, the `Last*TimeUs` fields) are left out. `PrintStats`, `formatNumber`, `makeUtilizationBar`, `Cleanup` and `Stats` are left out too (I/O and float formatting).
- Float utilisation tests are integer cross-multiplications:
  - `canGrow`: `4*active >= 3*slots`;
  - a compaction candidate: `4*active < slots`;
  - the sort: `active_x*slots_y <= active_y*slots_x`.
- Feature flags that are constants in the source are fixed at their values: `FreeListEnableSorted`, `GrowthEnableDynamic` and `DefragEnableCompaction` are all on. The unsorted free-list branches and the "compaction disabled" early returns are not modelled.
- Compaction.ScanForCompaction: `sort.Slice` is not stable, and the model uses one particular order, a stable insertion sort by utilisation. The proved contract is a permutation sorted by utilisation, which every order `sort.Slice` may produce satisfies; the order among equal utilisations is not captured.
- MemoryControl.MemoryController.UpdateStats: returns the statistics rather than storing them in `mc.stats`. Go ranges over the `buckets` map in random order; the model sums in size order, and the sums do not depend on the order.
- MemoryControl.MemoryController.Draw: returns the calls instead of issuing them; `DrawCallsPerFrame` is the number of calls. `int32` conversions are exact for fixed-size batches. An XXL batch of 2^31 vertices or more would wrap, and `DrawRangesInSlots` says nothing about such a batch.
- MemoryControl.MemoryController.GetAndClearClustersNeedingReupload: Go returns the ids in map order; the model promises each pending id once, in no stated order.
- Error branches that cannot be reached from a state satisfying the invariant are left out:
  - `allocateSlotInBatch` failing inside `EnsureSlot`;
  - `RemoveCluster` failing inside `EnsureSlot`;
  - `copySlotData` failing inside `CompactBatch`;
  - `deleteBatch` failing inside `TryCompaction`.
  They are proved unreachable instead: the model's functions state that these calls succeed. `CopySlotDataM` itself models both of `copySlotData`'s errors, including the partial state when the record is missing.
- `createBatch`'s error return is never produced by the source outside GL and is not modelled.
- The growth loop of `growBatch` is split in the class into one loop over the new slots and one over their free-list entries. The resulting state is the same.
- The scenario of 257 S-size entries into an empty pool is not chained call by call. `EnsureSlotGrowsFullBatch` proves its decisive step, the 257th entry:
  - a full batch of 256 is grown to 512;
  - the new cluster takes slot 256;
  - slots 257..511 (255 entries) stay on the free list in order.
- `FindClosestClusters` (float distances) is left out. `HandleDeleteClusterKey` receives the ids of the closest clusters as a parameter.
- InputEvents.EventHandlers.HandleDeleteClusterKey: the `MemoryController.RemoveCluster` call inside the deletion loop (and its `log.Fatalf`) is not modelled there; the memory side of removal is `MemoryController.RemoveCluster`.
- InputEvents.EventHandlers.HandleKey: only the buffer edits are modelled. Dispatch to the key handlers (regeneration, pan, zoom, reset, navigation) is float view maths and GL and is left out.
- A cluster's grid bounds and canvas position (float geometry), `SetSeed` and `SetComplexity` (plain field stores) are left out of `Cluster`.
- Randomness is a parameter:
  - `rng.Float64()` values are passed as reals in [0, 1);
  - `initFeatures` takes its four draws as a record.
- `makeRandom2x2` ("Eight" focus), `Generate`, the tile pipeline (`getAllTiles`, `groupTiles`, `findNeighbour`, grid marking) and the float positions of lines are left out. Lines are integer lattice pairs.
- Generation.MakeRandomStar: the index plan is proved in range only on a fresh pool with `n >= 5`. For `n < 5`, Go's `rng.Float64()*float64(n-4)` gives other coordinates, and the method requires its plan to fit rather than modelling an out-of-range panic.
