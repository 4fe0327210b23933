/**
 * The operations of MemoryController (internal/memory/controller.go) as
 * functions from the state before to the state after, with what each
 * returns. The class in memory_controller.dfy runs the same steps with the
 * source's loops and is proved to reach exactly these states.
 */
module MemoryPrims {
  import opened Wrappers
  import opened Buckets
  import opened MemoryState

  // ---------------------------------------------------------------------
  // Small state updates

  function WithPool(m: Mem, b: Bucket, p: Pool): (r: Mem)
    ensures r.arena == m.arena && r.clusterSlots == m.clusterSlots && r.reupload == m.reupload
    ensures r.nextBatchID == m.nextBatchID
    ensures r.buckets.Get(b) == p && forall b' :: b' != b ==> r.buckets.Get(b') == m.buckets.Get(b')
  {
    m.(buckets := m.buckets.Set(b, p))
  }

  function WithFree(m: Mem, b: Bucket, free: seq<SlotRef>): (r: Mem)
    ensures r.arena == m.arena && r.clusterSlots == m.clusterSlots && r.reupload == m.reupload
    ensures r.nextBatchID == m.nextBatchID
    ensures r.buckets.Get(b) == m.buckets.Get(b).(freeSlots := free)
    ensures forall b' :: b' != b ==> r.buckets.Get(b') == m.buckets.Get(b')
  {
    WithPool(m, b, m.buckets.Get(b).(freeSlots := free))
  }

  /** Writes a batch back to its place in the arena (Go updates the batch in place through its *Batch). */
  function PutBatch(m: Mem, bt: Batch): (r: Mem)
    ensures r.buckets == m.buckets && r.clusterSlots == m.clusterSlots && r.reupload == m.reupload
    ensures r.nextBatchID == m.nextBatchID && r.arena == m.arena[bt.id := bt]
  {
    m.(arena := m.arena[bt.id := bt])
  }

  /** Every free-list entry of pool b names a slot that exists (Go would index out of range otherwise). */
  ghost predicate FreeResolves(m: Mem, b: Bucket)
  {
    forall r :: r in m.buckets.Get(b).freeSlots ==> r.batch in m.arena && r.slotIndex < |m.arena[r.batch].slots|
  }

  /** Every batch of pool b is live and lists only slots it has. */
  ghost predicate BatchesResolve(m: Mem, b: Bucket)
  {
    forall j :: 0 <= j < |m.buckets.Get(b).batches| ==>
      && m.buckets.Get(b).batches[j] in m.arena
      && ActiveInRange(m.arena[m.buckets.Get(b).batches[j]])
  }

  /** The active list of a batch names only slots it has. */
  ghost predicate ActiveInRange(bt: Batch)
  {
    forall k :: 0 <= k < |bt.activeSlots| ==> bt.activeSlots[k] < |bt.slots|
  }

  lemma InvResolves(m: Mem, b: Bucket)
    requires Inv(m)
    ensures FreeResolves(m, b) && BatchesResolve(m, b)
  {
    forall r | r in m.buckets.Get(b).freeSlots ensures r.batch in m.arena && r.slotIndex < |m.arena[r.batch].slots| {
      assert FreeRefOk(m, b, r);
    }
    forall j | 0 <= j < |m.buckets.Get(b).batches|
      ensures m.buckets.Get(b).batches[j] in m.arena && ActiveInRange(m.arena[m.buckets.Get(b).batches[j]])
    {
      var id := m.buckets.Get(b).batches[j];
      assert id in m.arena;
      assert BatchOk(m.arena[id]);
    }
  }

  // ---------------------------------------------------------------------
  // Pool operations

  /** BucketPool.findFreeSlot with the sorted free list enabled: pops the head. */
  function FindFreeSlotM(m: Mem, b: Bucket): (r: (Mem, Option<SlotRef>))
    ensures m.buckets.Get(b).freeSlots == [] <==> r.1.None?
    ensures r.1.None? ==> r.0 == m
    ensures r.1.Some? ==> m.buckets.Get(b).freeSlots == [r.1.value] + r.0.buckets.Get(b).freeSlots
    ensures r.0 == WithFree(m, b, r.0.buckets.Get(b).freeSlots)
  {
    var free := m.buckets.Get(b).freeSlots;
    if free == [] then (m, None)
    else
      assert free == [free[0]] + free[1..];
      (WithFree(m, b, free[1..]), Some(free[0]))
  }

  /** findBatchWithCapacity's scan from position k of the batch list. */
  function FirstWithCapacity(arena: map<int, Batch>, ids: seq<int>, k: nat): (r: Option<int>)
    requires k <= |ids|
    requires forall j :: k <= j < |ids| ==> ids[j] in arena
    ensures r.Some? ==> exists j :: k <= j < |ids| && ids[j] == r.value &&
                          |arena[r.value].activeSlots| < |arena[r.value].slots| &&
                          forall j' :: k <= j' < j ==> |arena[ids[j']].activeSlots| >= |arena[ids[j']].slots|
    ensures r.None? ==> forall j :: k <= j < |ids| ==> |arena[ids[j]].activeSlots| >= |arena[ids[j]].slots|
    decreases |ids| - k
  {
    if k == |ids| then None
    else if |arena[ids[k]].activeSlots| < |arena[ids[k]].slots| then Some(ids[k])
    else FirstWithCapacity(arena, ids, k + 1)
  }

  /** findBatchWithCapacity: the first batch of the pool with a spare slot. */
  function FindBatchWithCapacity(m: Mem, b: Bucket): (r: Option<int>)
    requires BatchesResolve(m, b)
    ensures r.Some? ==> r.value in m.buckets.Get(b).batches && r.value in m.arena
    ensures r.Some? ==> |m.arena[r.value].activeSlots| < |m.arena[r.value].slots|
    ensures r.None? ==> forall j :: 0 <= j < |m.buckets.Get(b).batches| ==>
      |m.arena[m.buckets.Get(b).batches[j]].activeSlots| >= |m.arena[m.buckets.Get(b).batches[j]].slots|
  {
    FirstWithCapacity(m.arena, m.buckets.Get(b).batches, 0)
  }

  // ---------------------------------------------------------------------
  // Batch lifecycle

  /** The slots of a fresh batch: one slot at offset 0 for XXL, otherwise `slotsPerBatch` slots `perSlot` apart. */
  function FreshSlots(b: Bucket, pool: Pool): seq<Slot>
  {
    if b == XXL then [Slot(false, 0, 0, 0)] else NewSlots(0, pool.slotsPerBatch, pool.vertexCapacityPerSlot)
  }

  /** createBatch: a new empty batch under the next id, appended to its pool; its slots are NOT put on the free list. */
  function CreateBatchM(m: Mem, b: Bucket, vertexCount: nat): (r: (Mem, int))
    ensures r.1 == m.nextBatchID && r.0.nextBatchID == m.nextBatchID + 1
    ensures r.1 in r.0.arena && r.0.arena[r.1].activeSlots == [] && r.0.arena[r.1].bucketSize == b
    ensures r.0.buckets.Get(b).batches == m.buckets.Get(b).batches + [r.1]
    ensures r.0.buckets.Get(b).freeSlots == m.buckets.Get(b).freeSlots
    ensures forall b' :: b' != b ==> r.0.buckets.Get(b') == m.buckets.Get(b')
    ensures r.0.arena == m.arena[r.1 := r.0.arena[r.1]]
    ensures r.0.clusterSlots == m.clusterSlots && r.0.reupload == m.reupload
    ensures b == XXL ==> r.0.arena[r.1].totalVertexCapacity == vertexCount && |r.0.arena[r.1].slots| == 1
    ensures b != XXL ==> |r.0.arena[r.1].slots| == m.buckets.Get(b).slotsPerBatch
    ensures forall i :: 0 <= i < |r.0.arena[r.1].slots| ==> !r.0.arena[r.1].slots[i].active
  {
    var pool := m.buckets.Get(b);
    var id := m.nextBatchID;
    var total := if b == XXL then vertexCount else pool.vertexCapacityPerSlot * pool.slotsPerBatch;
    var bt := Batch(id, total, FreshSlots(b, pool), [], b, 0, total, map[]);
    var m1 := WithPool(m, b, pool.(batches := pool.batches + [id]));
    (m1.(arena := m1.arena[id := bt], nextBatchID := id + 1), id)
  }

  /**
   * Batch.allocateSlotInBatch: claims the lowest-index inactive slot for the
   * cluster and drops that slot from the pool's free list; errors when every
   * slot is active. The pool is the batch's own (both callers pass it).
   */
  function AllocateSlotInBatchM(m: Mem, id: int, clusterID: int, vertexCount: nat): (r: (Mem, Result<nat, Error>))
    requires id in m.arena
    ensures r.1.Err? <==> forall j :: 0 <= j < |m.arena[id].slots| ==> m.arena[id].slots[j].active
    ensures r.1.Err? ==> r.0 == m && r.1.error == NoAvailableSlot
    ensures r.1.Ok? ==> r.1.value < |m.arena[id].slots| && !m.arena[id].slots[r.1.value].active &&
                         forall j :: 0 <= j < r.1.value ==> m.arena[id].slots[j].active
    ensures r.0.clusterSlots == m.clusterSlots && r.0.reupload == m.reupload && r.0.nextBatchID == m.nextBatchID
    ensures r.1.Ok? && m.arena[id].id == id ==>
      && r.0.arena == m.arena[id := Claim(m.arena[id], r.1.value, clusterID, vertexCount)]
      && r.0.arena[id].activeSlots == m.arena[id].activeSlots + [r.1.value]
      && r.0.arena[id].slots[r.1.value] == Slot(true, clusterID, vertexCount, m.arena[id].slots[r.1.value].vertexOffset)
    ensures r.1.Ok? ==>
      var b := m.arena[id].bucketSize;
      && r.0.buckets.Get(b) == m.buckets.Get(b).(freeSlots := RemoveFromFreeList(m.buckets.Get(b).freeSlots, SlotRef(id, r.1.value)))
      && SlotRef(id, r.1.value) !in r.0.buckets.Get(b).freeSlots
      && (forall b' :: b' != b ==> r.0.buckets.Get(b') == m.buckets.Get(b'))
  {
    var bt := m.arena[id];
    match FirstInactive(bt.slots)
    case None => (m, Err(NoAvailableSlot))
    case Some(i) =>
      var b := bt.bucketSize;
      var m1 := WithFree(m, b, RemoveFromFreeList(m.buckets.Get(b).freeSlots, SlotRef(id, i)));
      (PutBatch(m1, Claim(bt, i, clusterID, vertexCount)), Ok(i))
  }

  /** Batch.freeSlot on the batch `id` of the arena. */
  function FreeSlotM(m: Mem, id: int, slotIndex: int): (r: Mem)
    requires id in m.arena
    ensures r.buckets == m.buckets && r.clusterSlots == m.clusterSlots
    ensures r.reupload == m.reupload && r.nextBatchID == m.nextBatchID
    ensures m.arena[id].id == id ==> r.arena == m.arena[id := FreeSlotInBatch(m.arena[id], slotIndex)]
  {
    PutBatch(m, FreeSlotInBatch(m.arena[id], slotIndex))
  }

  /**
   * growBatch: refuses unless canGrow; otherwise returns the owners of the
   * active slots, doubles slots and capacity with a fresh (empty) buffer,
   * and puts every new slot on the pool's free list in index order.
   */
  function GrowBatchM(m: Mem, id: int): (r: (Mem, Result<seq<int>, Error>))
    requires id in m.arena
    requires forall k :: 0 <= k < |m.arena[id].activeSlots| ==> m.arena[id].activeSlots[k] < |m.arena[id].slots|
    ensures r.1.Err? <==> !CanGrow(m.arena[id])
    ensures r.1.Err? ==> r.0 == m && r.1.error == CannotGrow
    ensures r.1.Ok? ==> r.1.value == Affected(m.arena[id])
    ensures r.1.Ok? && m.arena[id].id == id ==>
      var bt := m.arena[id];
      var b := bt.bucketSize;
      var n := |bt.slots|;
      && r.0.arena == m.arena[id := Grown(bt, m.buckets.Get(b).vertexCapacityPerSlot)]
      && r.0.arena[id].growthCycles == bt.growthCycles + 1
      && r.0.buckets.Get(b) == m.buckets.Get(b).(freeSlots := AddFreeSlots(m.buckets.Get(b).freeSlots, NewRefs(id, n, 2 * n)))
      && (forall b' :: b' != b ==> r.0.buckets.Get(b') == m.buckets.Get(b'))
      && r.0.clusterSlots == m.clusterSlots && r.0.reupload == m.reupload && r.0.nextBatchID == m.nextBatchID
  {
    var bt := m.arena[id];
    if !CanGrow(bt) then (m, Err(CannotGrow))
    else
      var b := bt.bucketSize;
      var n := |bt.slots|;
      var m1 := PutBatch(m, Grown(bt, m.buckets.Get(b).vertexCapacityPerSlot));
      (WithFree(m1, b, AddFreeSlots(m1.buckets.Get(b).freeSlots, NewRefs(id, n, 2 * n))), Ok(Affected(bt)))
  }

  /** markClustersForReupload */
  function MarkReupload(m: Mem, ids: seq<int>): (r: Mem)
    ensures r.reupload == m.reupload + set i | i in ids
    ensures r.(reupload := m.reupload) == m
  {
    m.(reupload := m.reupload + set i | i in ids)
  }

  /** GetAndClearClustersNeedingReupload: the pending set, which is then emptied. */
  function TakeReupload(m: Mem): (r: (Mem, set<int>))
    ensures r.1 == m.reupload && r.0.reupload == {}
    ensures r.0.(reupload := m.reupload) == m
  {
    (m.(reupload := {}), m.reupload)
  }

  /** uploadVertexData: the floats are written from float index `vertexOffset * 6` of the batch's buffer. */
  function Upload(bt: Batch, slotIndex: nat, data: seq<Float32>): (r: Batch)
    requires slotIndex < |bt.slots|
    ensures r == bt.(vbo := r.vbo)
    ensures Read(r.vbo, bt.slots[slotIndex].vertexOffset * FloatsPerVertex, |data|) == Defined(data)
  {
    bt.(vbo := Write(bt.vbo, bt.slots[slotIndex].vertexOffset * FloatsPerVertex, data))
  }

  /** updateSlotInPlace: only the slot's count and the buffer change; the record keeps its old count. */
  function UpdateInPlaceM(m: Mem, a: SlotAllocation, data: seq<Float32>, vertexCount: nat): (r: Mem)
    requires a.batch in m.arena && a.slotIndex < |m.arena[a.batch].slots|
    ensures r.clusterSlots == m.clusterSlots && r.buckets == m.buckets
    ensures r.reupload == m.reupload && r.nextBatchID == m.nextBatchID
    ensures m.arena[a.batch].id == a.batch ==>
      var bt := m.arena[a.batch];
      && a.batch in r.arena
      && r.arena == m.arena[a.batch := r.arena[a.batch]]
      && r.arena[a.batch] == bt.(slots := r.arena[a.batch].slots, vbo := r.arena[a.batch].vbo)
      && r.arena[a.batch].slots == bt.slots[a.slotIndex := bt.slots[a.slotIndex].(vertexCount := vertexCount)]
      && Read(r.arena[a.batch].vbo, bt.slots[a.slotIndex].vertexOffset * FloatsPerVertex, |data|) == Defined(data)
  {
    var bt := m.arena[a.batch];
    var bt1 := bt.(slots := bt.slots[a.slotIndex := bt.slots[a.slotIndex].(vertexCount := vertexCount)]);
    PutBatch(m, Upload(bt1, a.slotIndex, data))
  }

  /** EnsureSlot's in-place test: the pool's per-slot capacity, or for XXL what lies past the slot's offset. */
  predicate FitsInPlace(m: Mem, a: SlotAllocation, vertexCount: nat)
    requires a.batch in m.arena && a.slotIndex < |m.arena[a.batch].slots|
  {
    var bt := m.arena[a.batch];
    if bt.bucketSize == XXL then vertexCount <= bt.totalVertexCapacity - bt.slots[a.slotIndex].vertexOffset
    else vertexCount <= m.buckets.Get(bt.bucketSize).vertexCapacityPerSlot
  }

  /** RemoveCluster: errors for an unknown cluster; otherwise frees its slot, lists it as free and drops the record. */
  function RemoveClusterM(m: Mem, clusterID: int): (r: (Mem, Outcome<Error>))
    requires clusterID in m.clusterSlots ==> m.clusterSlots[clusterID].batch in m.arena
    ensures r.1.Fail? <==> clusterID !in m.clusterSlots
    ensures r.1.Fail? ==> r.0 == m && r.1.error == NotFound
    ensures r.1.Pass? ==> r.0.clusterSlots == m.clusterSlots - {clusterID}
    ensures r.1.Pass? ==>
      var a := m.clusterSlots[clusterID];
      var bt := m.arena[a.batch];
      var b := bt.bucketSize;
      && (bt.id == a.batch ==> r.0.arena == m.arena[a.batch := FreeSlotInBatch(bt, a.slotIndex)])
      && r.0.buckets.Get(b) == m.buckets.Get(b).(freeSlots := AddFreeSlot(m.buckets.Get(b).freeSlots, SlotRef(a.batch, a.slotIndex)))
      && (forall b' :: b' != b ==> r.0.buckets.Get(b') == m.buckets.Get(b'))
      && r.0.reupload == m.reupload && r.0.nextBatchID == m.nextBatchID
  {
    if clusterID !in m.clusterSlots then (m, Fail(NotFound))
    else
      var a := m.clusterSlots[clusterID];
      var m1 := FreeSlotM(m, a.batch, a.slotIndex);
      var b := m1.arena[a.batch].bucketSize;
      var m2 := WithFree(m1, b, AddFreeSlot(m1.buckets.Get(b).freeSlots, SlotRef(a.batch, a.slotIndex)));
      (m2.(clusterSlots := m2.clusterSlots - {clusterID}), Pass)
  }

  /** The first batch of `ids` (from position k) that canGrow accepts. */
  function FirstGrowable(arena: map<int, Batch>, ids: seq<int>, k: nat): (r: Option<int>)
    requires k <= |ids|
    requires forall j :: k <= j < |ids| ==> ids[j] in arena
    ensures r.Some? ==> r.value in ids[k..] && CanGrow(arena[r.value])
    ensures r.None? ==> forall j :: k <= j < |ids| ==> !CanGrow(arena[ids[j]])
    decreases |ids| - k
  {
    if k == |ids| then None
    else if CanGrow(arena[ids[k]]) then Some(ids[k])
    else FirstGrowable(arena, ids, k + 1)
  }

  /**
   * The free-list loop of EnsureSlot: pops entries until one is usable. An XXL
   * entry too small for the payload is dropped; other entries are always used.
   */
  function PopFree(m: Mem, b: Bucket, vertexCount: nat): (r: (Mem, Option<SlotRef>))
    requires FreeResolves(m, b)
    ensures r.0.arena == m.arena && r.0.clusterSlots == m.clusterSlots && r.0.reupload == m.reupload
    ensures r.0.nextBatchID == m.nextBatchID
    ensures r.0.buckets.Get(b).batches == m.buckets.Get(b).batches
    ensures forall b' :: b' != b ==> r.0.buckets.Get(b') == m.buckets.Get(b')
    ensures r.0 == WithFree(m, b, r.0.buckets.Get(b).freeSlots)
    ensures r.1.Some? ==>
      exists k :: 0 < k <= |m.buckets.Get(b).freeSlots| &&
        m.buckets.Get(b).freeSlots[k - 1] == r.1.value && r.0.buckets.Get(b).freeSlots == m.buckets.Get(b).freeSlots[k..]
    ensures r.1.Some? ==> b == XXL ==>
      vertexCount <= m.arena[r.1.value.batch].totalVertexCapacity - m.arena[r.1.value.batch].slots[r.1.value.slotIndex].vertexOffset
    ensures r.1.None? ==> r.0.buckets.Get(b).freeSlots == []
    decreases |m.buckets.Get(b).freeSlots|
  {
    var free := m.buckets.Get(b).freeSlots;
    if free == [] then (m, None)
    else
      var ref := free[0];
      var m1 := WithFree(m, b, free[1..]);
      if b == XXL && vertexCount > m.arena[ref.batch].totalVertexCapacity - m.arena[ref.batch].slots[ref.slotIndex].vertexOffset then
        var r := PopFree(m1, b, vertexCount);
        assert r.1.Some? ==> exists k :: 0 < k <= |free| && free[k - 1] == r.1.value && r.0.buckets.Get(b).freeSlots == free[k..] by {
          if r.1.Some? {
            var k :| 0 < k <= |free[1..]| && free[1..][k - 1] == r.1.value && r.0.buckets.Get(b).freeSlots == free[1..][k..];
            assert free[1..][k..] == free[k + 1..];
          }
        }
        r
      else (m1, Some(ref))
  }

  /**
   * deleteBatch: refuses a batch with active slots; otherwise drops it from
   * its pool's batch list and every free-list entry naming it, and releases it.
   */
  function DeleteBatchM(m: Mem, id: int): (r: (Mem, Outcome<Error>))
    requires id in m.arena
    ensures r.1.Fail? <==> |m.arena[id].activeSlots| > 0
    ensures r.1.Fail? ==> r.0 == m && r.1.error == BatchNotEmpty
    ensures r.1.Pass? ==> r.0.arena == m.arena - {id} && r.0.clusterSlots == m.clusterSlots
    ensures r.1.Pass? ==>
      var b := m.arena[id].bucketSize;
      var pool := m.buckets.Get(b);
      && r.0.buckets.Get(b).freeSlots == PurgeBatch(pool.freeSlots, id)
      && (id in pool.batches ==> multiset(r.0.buckets.Get(b).batches) == multiset(pool.batches) - multiset{id})
      && (id !in pool.batches ==> r.0.buckets.Get(b).batches == pool.batches)
      && (forall b' :: b' != b ==> r.0.buckets.Get(b') == m.buckets.Get(b'))
      && r.0.reupload == m.reupload && r.0.nextBatchID == m.nextBatchID
  {
    var bt := m.arena[id];
    if |bt.activeSlots| > 0 then (m, Fail(BatchNotEmpty))
    else
      var b := bt.bucketSize;
      var pool := m.buckets.Get(b);
      var batches := match IndexOf(pool.batches, id)
        case None => pool.batches
        case Some(i) => DeleteAt(pool.batches, i);
      var m1 := WithPool(m, b, pool.(batches := batches, freeSlots := PurgeBatch(pool.freeSlots, id)));
      (m1.(arena := m1.arena - {id}), Pass)
  }

  // ---------------------------------------------------------------------
  // Each step keeps the invariant

  /** Only the buffer of a batch changes: the invariant does not look at buffers. */
  lemma VboOnlyKeepsInv(m: Mem, id: int, vbo: map<int, Float32>)
    requires Inv(m) && id in m.arena
    ensures Inv(PutBatch(m, m.arena[id].(vbo := vbo)))
  {
    var m' := PutBatch(m, m.arena[id].(vbo := vbo));
    assert m.arena[id].id == id;
    assert forall x :: x in m'.arena <==> x in m.arena;
    assert forall x :: x in m.arena ==> m'.arena[x] == m.arena[x].(vbo := m'.arena[x].vbo);
    assert BatchOk(m'.arena[id]) by {
      assert BatchOk(m.arena[id]);
    }
    assert ArenaOk(m');
    assert FreeListsOk(m') && RecordsOk(m');
  }

  lemma CreateBatchKeepsInv(m: Mem, b: Bucket, vertexCount: nat)
    requires Inv(m)
    ensures Inv(CreateBatchM(m, b, vertexCount).0)
  {
    CreatedArenaOk(m, b, vertexCount);
    CreatedListsOk(m, b, vertexCount);
  }

  lemma CreatedBatchOk(m: Mem, b: Bucket, vertexCount: nat)
    requires Inv(m)
    ensures BatchOk(CreateBatchM(m, b, vertexCount).0.arena[CreateBatchM(m, b, vertexCount).1])
  {
    var r := CreateBatchM(m, b, vertexCount);
    var bt := r.0.arena[r.1];
    assert SlotLayout(bt) by {
      if b != XXL {
        var cap := VertexCapacityForBucket(b);
        var n := SlotsPerBatchForBucket(b);
        assert bt.totalVertexCapacity == cap * n;
        assert bt.totalVertexCapacity * FloatsPerVertex * BytesPerFloat == cap * n * FloatsPerVertex * BytesPerFloat;
        forall i | 0 <= i < |bt.slots| ensures bt.slots[i].vertexOffset == cap * i {
          assert bt.slots[i] == NewSlots(0, n, cap)[i];
        }
      }
    }
  }

  lemma CreatedArenaOk(m: Mem, b: Bucket, vertexCount: nat)
    requires Inv(m)
    ensures ArenaOk(CreateBatchM(m, b, vertexCount).0)
  {
    var r := CreateBatchM(m, b, vertexCount);
    var m', id := r.0, r.1;
    var pool := m.buckets.Get(b);
    assert id !in m.arena;
    assert id !in pool.batches;
    CreatedBatchOk(m, b, vertexCount);
    forall x | x in m'.arena
      ensures m'.arena[x].id == x && x < m'.nextBatchID && BatchOk(m'.arena[x])
      ensures x in m'.buckets.Get(m'.arena[x].bucketSize).batches
    {
      if x != id {
        assert x in m.arena && m'.arena[x] == m.arena[x];
        assert x in m.buckets.Get(m.arena[x].bucketSize).batches;
      }
    }
    forall b': Bucket, k | 0 <= k < |m'.buckets.Get(b').batches|
      ensures m'.buckets.Get(b').batches[k] in m'.arena && m'.arena[m'.buckets.Get(b').batches[k]].bucketSize == b'
    {
      if b' != b || k < |pool.batches| {
        assert m'.buckets.Get(b').batches[k] == m.buckets.Get(b').batches[k];
        assert m.buckets.Get(b').batches[k] in m.arena;
      }
    }
    assert NoDuplicates(m'.buckets.Get(b).batches);
  }

  lemma CreatedListsOk(m: Mem, b: Bucket, vertexCount: nat)
    requires Inv(m)
    ensures var m' := CreateBatchM(m, b, vertexCount).0;
            PoolsShaped(m') && FreeListsOk(m') && RecordsOk(m') && OwnersOk(m')
  {
    var r := CreateBatchM(m, b, vertexCount);
    var m' := r.0;
    assert r.1 !in m.arena;
    assert FreeListsOk(m') by {
      forall b': Bucket, x | x in m'.buckets.Get(b').freeSlots ensures FreeRefOk(m', b', x) {
        assert x in m.buckets.Get(b').freeSlots;
        assert FreeRefOk(m, b', x);
      }
    }
    assert RecordsOk(m') by {
      forall c | c in m'.clusterSlots ensures RecordOk(m', c, m'.clusterSlots[c]) {
        assert RecordOk(m, c, m.clusterSlots[c]);
      }
    }
  }

  /** Replacing a pool's free list by a duplicate-free selection of its entries keeps the invariant. */
  lemma FreeSublistKeepsInv(m: Mem, b: Bucket, free: seq<SlotRef>)
    requires Inv(m)
    requires forall x :: x in free ==> x in m.buckets.Get(b).freeSlots
    requires NoDuplicates(free)
    ensures Inv(WithFree(m, b, free))
  {
    var m' := WithFree(m, b, free);
    assert FreeListsOk(m') by {
      forall b': Bucket, x | x in m'.buckets.Get(b').freeSlots ensures FreeRefOk(m', b', x) {
        assert x in m.buckets.Get(b').freeSlots;
        assert FreeRefOk(m, b', x);
      }
    }
    assert ArenaOk(m') by {
      forall x | x in m'.arena ensures x in m'.buckets.Get(m'.arena[x].bucketSize).batches {
        assert x in m.buckets.Get(m.arena[x].bucketSize).batches;
      }
      forall b': Bucket, k | 0 <= k < |m'.buckets.Get(b').batches|
        ensures m'.buckets.Get(b').batches[k] in m'.arena && m'.arena[m'.buckets.Get(b').batches[k]].bucketSize == b'
      {
        assert m'.buckets.Get(b').batches[k] == m.buckets.Get(b').batches[k];
      }
      forall b': Bucket ensures NoDuplicates(m'.buckets.Get(b').batches) {
        assert m'.buckets.Get(b').batches == m.buckets.Get(b').batches;
      }
    }
    assert PoolsShaped(m') by {
      forall b': Bucket ensures m'.buckets.Get(b').size == b' {
        assert m'.buckets.Get(b').size == m.buckets.Get(b').size;
      }
    }
  }

  /** A suffix of a duplicate-free list is duplicate-free. */
  lemma SuffixNoDuplicates<T>(xs: seq<T>, k: nat)
    requires NoDuplicates(xs) && k <= |xs|
    ensures NoDuplicates(xs[k..])
    ensures k > 0 ==> xs[k - 1] !in xs[k..]
  {
    assert forall i, j :: 0 <= i < j < |xs| - k ==> xs[k..][i] == xs[k + i] && xs[k..][j] == xs[k + j];
    if k > 0 {
      forall j | 0 <= j < |xs| - k ensures xs[k..][j] != xs[k - 1] {
        assert xs[k..][j] == xs[k + j];
      }
    }
  }

  /**
   * Claiming an inactive slot that is not on the free list for a cluster
   * without a record, and recording it there, keeps the invariant, whatever
   * is written to the buffer.
   */
  lemma ClaimRecordKeepsInv(x: Mem, id: int, i: nat, c: int, vertexCount: nat, vbo: map<int, Float32>)
    requires Inv(x) && id in x.arena && i < |x.arena[id].slots| && !x.arena[id].slots[i].active
    requires c !in x.clusterSlots
    requires vertexCount <= SlotCapacity(x.arena[id], i)
    requires SlotRef(id, i) !in x.buckets.Get(x.arena[id].bucketSize).freeSlots
    ensures Inv(PutBatch(x, Claim(x.arena[id], i, c, vertexCount).(vbo := vbo))
                  .(clusterSlots := x.clusterSlots[c := SlotAllocation(id, i, vertexCount)]))
  {
    var m' := ClaimedMem(x, id, i, c, vertexCount, vbo);
    ClaimBatchOk(x.arena[id], i, c, vertexCount, vbo);
    assert ArenaOk(m');
    ClaimedRecordsOk(x, id, i, c, vertexCount, vbo);
    ClaimedOwnersOk(x, id, i, c, vertexCount, vbo);
  }

  /** The memory after claiming slot i of batch id for cluster c and recording it. */
  ghost function ClaimedMem(x: Mem, id: int, i: nat, c: int, vertexCount: nat, vbo: map<int, Float32>): Mem
    requires id in x.arena && i < |x.arena[id].slots|
  {
    PutBatch(x, Claim(x.arena[id], i, c, vertexCount).(vbo := vbo))
      .(clusterSlots := x.clusterSlots[c := SlotAllocation(id, i, vertexCount)])
  }

  /** Claiming an inactive slot for a payload that fits keeps a batch well formed, whatever its buffer holds. */
  lemma ClaimBatchOk(bt: Batch, i: nat, c: int, vertexCount: nat, vbo: map<int, Float32>)
    requires BatchOk(bt) && i < |bt.slots| && !bt.slots[i].active
    requires vertexCount <= SlotCapacity(bt, i)
    ensures BatchOk(Claim(bt, i, c, vertexCount).(vbo := vbo))
  {
    var bt' := Claim(bt, i, c, vertexCount).(vbo := vbo);
    assert i !in bt.activeSlots;
    assert SlotLayout(bt') by {
      assert forall j :: 0 <= j < |bt.slots| ==> bt'.slots[j].vertexOffset == bt.slots[j].vertexOffset;
    }
    assert ActiveListOk(bt') by {
      forall j | 0 <= j < |bt'.slots| && bt'.slots[j].active ensures j in bt'.activeSlots {
        if j != i { assert j in bt.activeSlots; }
      }
    }
    assert PayloadsFit(bt') by {
      forall j | 0 <= j < |bt'.slots| && bt'.slots[j].active ensures bt'.slots[j].vertexCount <= SlotCapacity(bt', j) {
        assert SlotCapacity(bt', j) == SlotCapacity(bt, j);
      }
    }
  }

  /** After the claim, the free lists and the records are still well formed. */
  lemma ClaimedRecordsOk(x: Mem, id: int, i: nat, c: int, vertexCount: nat, vbo: map<int, Float32>)
    requires Inv(x) && id in x.arena && i < |x.arena[id].slots| && !x.arena[id].slots[i].active
    requires c !in x.clusterSlots
    requires vertexCount <= SlotCapacity(x.arena[id], i)
    requires SlotRef(id, i) !in x.buckets.Get(x.arena[id].bucketSize).freeSlots
    ensures FreeListsOk(ClaimedMem(x, id, i, c, vertexCount, vbo))
    ensures RecordsOk(ClaimedMem(x, id, i, c, vertexCount, vbo))
  {
    var m' := ClaimedMem(x, id, i, c, vertexCount, vbo);
    assert x.arena[id].id == id && BatchOk(x.arena[id]);
    ClaimBatchOk(x.arena[id], i, c, vertexCount, vbo);
    forall b': Bucket, r | r in m'.buckets.Get(b').freeSlots ensures FreeRefOk(m', b', r) {
      assert FreeRefOk(x, b', r);
    }
    forall c' | c' in m'.clusterSlots ensures RecordOk(m', c', m'.clusterSlots[c']) {
      if c' != c {
        assert RecordOk(x, c', x.clusterSlots[c']);
      }
    }
  }

  /** After the claim, every active slot's owner still has the record pointing at it. */
  lemma ClaimedOwnersOk(x: Mem, id: int, i: nat, c: int, vertexCount: nat, vbo: map<int, Float32>)
    requires Inv(x) && id in x.arena && i < |x.arena[id].slots| && !x.arena[id].slots[i].active
    requires c !in x.clusterSlots
    ensures OwnersOk(ClaimedMem(x, id, i, c, vertexCount, vbo))
  {
    var m' := ClaimedMem(x, id, i, c, vertexCount, vbo);
    forall y, j | y in m'.arena && 0 <= j < |m'.arena[y].slots| && m'.arena[y].slots[j].active
      ensures m'.arena[y].slots[j].clusterID in m'.clusterSlots
      ensures m'.clusterSlots[m'.arena[y].slots[j].clusterID] == SlotAllocation(y, j, m'.clusterSlots[m'.arena[y].slots[j].clusterID].vertexCount)
    {
      if y != id || j != i {
        assert x.arena[y].slots[j] == m'.arena[y].slots[j];
        assert x.arena[y].slots[j].clusterID in x.clusterSlots;
      }
    }
  }

  /** Freeing an active slot keeps the batch well formed and takes exactly that slot off the active list. */
  lemma FreeSlotBatchOk(bt: Batch, i: nat)
    requires BatchOk(bt) && i < |bt.slots| && bt.slots[i].active
    ensures BatchOk(FreeSlotInBatch(bt, i))
    ensures FreeSlotInBatch(bt, i).bucketSize == bt.bucketSize
    ensures FreeSlotInBatch(bt, i).slots == bt.slots[i := Cleared(bt.slots[i])]
  {
    var bt' := FreeSlotInBatch(bt, i);
    SwapRemoveNoDuplicates(bt.activeSlots, i);
    assert SlotLayout(bt') by {
      assert forall j :: 0 <= j < |bt.slots| ==> bt'.slots[j].vertexOffset == bt.slots[j].vertexOffset;
    }
    assert ActiveListOk(bt') by {
      forall k | 0 <= k < |bt'.activeSlots| ensures bt'.activeSlots[k] < |bt'.slots| && bt'.slots[bt'.activeSlots[k]].active {
        assert bt'.activeSlots[k] in bt.activeSlots;
      }
      forall j | 0 <= j < |bt'.slots| && bt'.slots[j].active ensures j in bt'.activeSlots {
        assert j in bt.activeSlots;
      }
    }
    assert PayloadsFit(bt') by {
      forall j | 0 <= j < |bt'.slots| && bt'.slots[j].active ensures bt'.slots[j].vertexCount <= SlotCapacity(bt', j) {
        assert SlotCapacity(bt', j) == SlotCapacity(bt, j);
      }
    }
  }

  /**
   * Pools whose batch lists and shapes are untouched, over an arena with the
   * same batches in the same buckets, keep the arena part of the invariant.
   */
  lemma SameBatchesArenaOk(m: Mem, m': Mem)
    requires ArenaOk(m) && PoolsShaped(m)
    requires forall b: Bucket :: m'.buckets.Get(b).batches == m.buckets.Get(b).batches
    requires forall b: Bucket :: m'.buckets.Get(b).size == m.buckets.Get(b).size
    requires forall b: Bucket :: m'.buckets.Get(b).vertexCapacityPerSlot == m.buckets.Get(b).vertexCapacityPerSlot
    requires forall b: Bucket :: m'.buckets.Get(b).slotsPerBatch == m.buckets.Get(b).slotsPerBatch
    requires m'.nextBatchID == m.nextBatchID
    requires forall x :: x in m'.arena <==> x in m.arena
    requires forall x :: x in m.arena ==>
      m'.arena[x].id == m.arena[x].id && m'.arena[x].bucketSize == m.arena[x].bucketSize && BatchOk(m'.arena[x])
    ensures ArenaOk(m') && PoolsShaped(m')
  {
    forall x | x in m'.arena ensures x in m'.buckets.Get(m'.arena[x].bucketSize).batches {
      assert x in m.buckets.Get(m.arena[x].bucketSize).batches;
    }
    forall b: Bucket, k | 0 <= k < |m'.buckets.Get(b).batches|
      ensures m'.buckets.Get(b).batches[k] in m'.arena && m'.arena[m'.buckets.Get(b).batches[k]].bucketSize == b
    {
      assert m'.buckets.Get(b).batches[k] == m.buckets.Get(b).batches[k];
    }
  }

  lemma RemoveClusterKeepsInv(m: Mem, c: int)
    requires Inv(m)
    ensures Inv(RemoveClusterM(m, c).0)
  {
    if c in m.clusterSlots {
      var a := m.clusterSlots[c];
      assert RecordOk(m, c, a);
      var bt := m.arena[a.batch];
      var b := bt.bucketSize;
      var m' := RemoveClusterM(m, c).0;
      assert m'.arena == m.arena[a.batch := FreeSlotInBatch(bt, a.slotIndex)];
      assert m'.buckets == m.buckets.Set(b, m.buckets.Get(b).(freeSlots := AddFreeSlot(m.buckets.Get(b).freeSlots, SlotRef(a.batch, a.slotIndex))));
      assert RemovedState(m, c, m');
      RemovedKeepsInv(m, c, m');
    }
  }

  /** The state RemoveCluster leaves, described field by field. */
  ghost predicate RemovedState(m: Mem, c: int, m': Mem)
  {
    && c in m.clusterSlots
    && (var a := m.clusterSlots[c];
        && a.batch in m.arena
        && m'.arena == m.arena[a.batch := FreeSlotInBatch(m.arena[a.batch], a.slotIndex)]
        && (var b := m.arena[a.batch].bucketSize;
            m'.buckets == m.buckets.Set(b, m.buckets.Get(b).(freeSlots := AddFreeSlot(m.buckets.Get(b).freeSlots, SlotRef(a.batch, a.slotIndex))))))
    && m'.clusterSlots == m.clusterSlots - {c} && m'.nextBatchID == m.nextBatchID
  }

  lemma RemovedKeepsInv(m: Mem, c: int, m': Mem)
    requires Inv(m) && RemovedState(m, c, m')
    ensures Inv(m')
  {
    var a := m.clusterSlots[c];
    assert RecordOk(m, c, a);
    var bt := m.arena[a.batch];
    assert bt.id == a.batch && BatchOk(bt);
    FreeSlotBatchOk(bt, a.slotIndex);
    SameBatchesArenaOk(m, m');
    RemovedFreeListsOk(m, c, m');
    RemovedOwnersOk(m, c, m');
  }

  lemma RemovedFreeListsOk(m: Mem, c: int, m': Mem)
    requires Inv(m) && RemovedState(m, c, m')
    ensures FreeListsOk(m')
  {
    var a := m.clusterSlots[c];
    var id, i := a.batch, a.slotIndex;
    assert RecordOk(m, c, a);
    var b := m.arena[id].bucketSize;
    assert SlotRef(id, i) in m.buckets.Get(b).freeSlots ==> FreeRefOk(m, b, SlotRef(id, i));
    AddFreeSlotNoDuplicates(m.buckets.Get(b).freeSlots, SlotRef(id, i));
    forall b': Bucket, r | r in m'.buckets.Get(b').freeSlots ensures FreeRefOk(m', b', r) {
      if r != SlotRef(id, i) {
        if b' == b {
          assert m'.buckets.Get(b').freeSlots == AddFreeSlot(m.buckets.Get(b).freeSlots, SlotRef(id, i));
        } else {
          assert m'.buckets.Get(b') == m.buckets.Get(b');
        }
        assert r in m.buckets.Get(b').freeSlots;
        assert FreeRefOk(m, b', r);
      }
    }
  }

  lemma RemovedOwnersOk(m: Mem, c: int, m': Mem)
    requires Inv(m) && RemovedState(m, c, m')
    ensures RecordsOk(m') && OwnersOk(m')
  {
    var a := m.clusterSlots[c];
    assert RecordOk(m, c, a);
    forall c' | c' in m'.clusterSlots ensures RecordOk(m', c', m'.clusterSlots[c']) {
      assert RecordOk(m, c', m.clusterSlots[c']);
    }
    forall y, j | y in m'.arena && 0 <= j < |m'.arena[y].slots| && m'.arena[y].slots[j].active
      ensures m'.arena[y].slots[j].clusterID in m'.clusterSlots
      ensures m'.clusterSlots[m'.arena[y].slots[j].clusterID].batch == y
      ensures m'.clusterSlots[m'.arena[y].slots[j].clusterID].slotIndex == j
    {
      assert m.arena[y].slots[j] == m'.arena[y].slots[j];
      assert m.arena[y].slots[j].clusterID in m.clusterSlots;
    }
  }

  lemma UpdateInPlaceKeepsInv(m: Mem, c: int, data: seq<Float32>, vertexCount: nat)
    requires Inv(m) && c in m.clusterSlots
    requires RecordOk(m, c, m.clusterSlots[c])
    requires FitsInPlace(m, m.clusterSlots[c], vertexCount)
    ensures Inv(UpdateInPlaceM(m, m.clusterSlots[c], data, vertexCount))
  {
    var m' := UpdateInPlaceM(m, m.clusterSlots[c], data, vertexCount);
    UpdatedBatchOk(m, c, data, vertexCount);
    assert ArenaOk(m');
    UpdatedRecordsOk(m, c, data, vertexCount);
  }

  /** Rewriting a slot's count within what fits keeps its batch well formed; no other batch changes. */
  lemma UpdatedBatchOk(m: Mem, c: int, data: seq<Float32>, vertexCount: nat)
    requires Inv(m) && c in m.clusterSlots
    requires RecordOk(m, c, m.clusterSlots[c])
    requires FitsInPlace(m, m.clusterSlots[c], vertexCount)
    ensures var a := m.clusterSlots[c];
      var bt' := UpdateInPlaceM(m, a, data, vertexCount).arena[a.batch];
      && UpdateInPlaceM(m, a, data, vertexCount).arena == m.arena[a.batch := bt']
      && bt'.id == a.batch && bt'.bucketSize == m.arena[a.batch].bucketSize && BatchOk(bt')
  {
    var a := m.clusterSlots[c];
    var id, i := a.batch, a.slotIndex;
    var bt := m.arena[id];
    var bt' := UpdateInPlaceM(m, a, data, vertexCount).arena[id];
    assert bt.id == id && BatchOk(bt);
    assert forall j :: 0 <= j < |bt.slots| ==>
      bt'.slots[j] == (if j == i then bt.slots[j].(vertexCount := vertexCount) else bt.slots[j]);
    assert SlotLayout(bt');
    assert ActiveListOk(bt');
    assert PayloadsFit(bt') by {
      forall j | 0 <= j < |bt'.slots| && bt'.slots[j].active ensures bt'.slots[j].vertexCount <= SlotCapacity(bt', j) {
        assert SlotCapacity(bt', j) == SlotCapacity(bt, j);
      }
    }
  }

  /** After an update in place, the free lists, the records and the owners are still well formed. */
  lemma UpdatedRecordsOk(m: Mem, c: int, data: seq<Float32>, vertexCount: nat)
    requires Inv(m) && c in m.clusterSlots
    requires RecordOk(m, c, m.clusterSlots[c])
    requires FitsInPlace(m, m.clusterSlots[c], vertexCount)
    ensures FreeListsOk(UpdateInPlaceM(m, m.clusterSlots[c], data, vertexCount))
    ensures RecordsOk(UpdateInPlaceM(m, m.clusterSlots[c], data, vertexCount))
    ensures OwnersOk(UpdateInPlaceM(m, m.clusterSlots[c], data, vertexCount))
  {
    var m' := UpdateInPlaceM(m, m.clusterSlots[c], data, vertexCount);
    UpdatedBatchOk(m, c, data, vertexCount);
    forall b': Bucket, r | r in m'.buckets.Get(b').freeSlots ensures FreeRefOk(m', b', r) {
      assert FreeRefOk(m, b', r);
    }
    forall c' | c' in m'.clusterSlots ensures RecordOk(m', c', m'.clusterSlots[c']) {
      assert RecordOk(m, c', m.clusterSlots[c']);
    }
    forall y, j | y in m'.arena && 0 <= j < |m'.arena[y].slots| && m'.arena[y].slots[j].active
      ensures m'.arena[y].slots[j].clusterID in m'.clusterSlots
      ensures m'.clusterSlots[m'.arena[y].slots[j].clusterID].batch == y
      ensures m'.clusterSlots[m'.arena[y].slots[j].clusterID].slotIndex == j
    {
      assert m.arena[y].slots[j].clusterID == m'.arena[y].slots[j].clusterID;
      assert m.arena[y].slots[j].clusterID in m.clusterSlots;
    }
  }

  /** The reupload set is not part of the invariant. */
  lemma ReuploadKeepsInv(m: Mem, ids: set<int>)
    requires Inv(m)
    ensures Inv(m.(reupload := ids))
  {
    var m' := m.(reupload := ids);
    assert forall c :: c in m.clusterSlots ==> RecordOk(m, c, m.clusterSlots[c]) == RecordOk(m', c, m'.clusterSlots[c]);
    assert forall b: Bucket, r :: FreeRefOk(m, b, r) == FreeRefOk(m', b, r);
  }

  /** A grown batch is still well formed: the old slots are kept and the new ones follow at `perSlot` intervals. */
  lemma GrownBatchOk(bt: Batch, perSlot: nat)
    requires BatchOk(bt) && bt.bucketSize != XXL && CanGrow(bt)
    requires perSlot == VertexCapacityForBucket(bt.bucketSize)
    ensures BatchOk(Grown(bt, perSlot))
  {
    var g := Grown(bt, perSlot);
    var n := |bt.slots|;
    var cap := VertexCapacityForBucket(bt.bucketSize);
    assert SlotLayout(g) by {
      assert g.totalVertexCapacity == cap * (2 * n) by {
        assert bt.totalVertexCapacity == cap * n;
      }
    }
    assert ActiveListOk(g);
    assert PayloadsFit(g) by {
      forall j | 0 <= j < |g.slots| && g.slots[j].active ensures g.slots[j].vertexCount <= SlotCapacity(g, j) {
        assert j < n;
      }
    }
  }

  /** The state growBatch leaves when canGrow holds, described field by field. */
  ghost predicate GrownState(m: Mem, id: int, m': Mem)
  {
    && id in m.arena
    && (var bt := m.arena[id];
        var b := bt.bucketSize;
        var n := |bt.slots|;
        && m'.arena == m.arena[id := Grown(bt, m.buckets.Get(b).vertexCapacityPerSlot)]
        && m'.buckets == m.buckets.Set(b, m.buckets.Get(b).(freeSlots := AddFreeSlots(m.buckets.Get(b).freeSlots, NewRefs(id, n, 2 * n)))))
    && m'.clusterSlots == m.clusterSlots && m'.nextBatchID == m.nextBatchID
  }

  lemma GrowKeepsInv(m: Mem, id: int)
    requires Inv(m) && id in m.arena && m.arena[id].bucketSize != XXL
    ensures ActiveInRange(m.arena[id])
    ensures Inv(GrowBatchM(m, id).0)
  {
    var bt := m.arena[id];
    assert BatchOk(bt);
    if CanGrow(bt) {
      var m' := GrowBatchM(m, id).0;
      assert GrownState(m, id, m');
      assert bt.id == id;
      GrownBatchOk(bt, m.buckets.Get(bt.bucketSize).vertexCapacityPerSlot);
      SameBatchesArenaOk(m, m');
      GrownFreeListsOk(m, id, m');
      GrownOwnersOk(m, id, m');
    }
  }

  lemma GrownFreeListsOk(m: Mem, id: int, m': Mem)
    requires Inv(m) && GrownState(m, id, m') && CanGrow(m.arena[id])
    ensures FreeListsOk(m')
  {
    forall b': Bucket, r | r in m'.buckets.Get(b').freeSlots ensures FreeRefOk(m', b', r) {
      GrownFreeRefOk(m, id, m', b', r);
    }
    GrownNoDuplicates(m, id, m');
  }

  /** After a grow, every free-list entry names an inactive slot of a batch of its pool. */
  lemma GrownFreeRefOk(m: Mem, id: int, m': Mem, b': Bucket, r: SlotRef)
    requires FreeListsOk(m) && GrownState(m, id, m')
    requires r in m'.buckets.Get(b').freeSlots
    ensures FreeRefOk(m', b', r)
  {
    var bt := m.arena[id];
    var b := bt.bucketSize;
    var n := |bt.slots|;
    var refs := NewRefs(id, n, 2 * n);
    var free := m.buckets.Get(b).freeSlots;
    if b' == b {
      assert multiset(m'.buckets.Get(b').freeSlots)[r] > 0;
      if r in multiset(refs) {
        GrownNewRefOk(m, id, m', r);
      } else {
        assert r in free;
        GrownOldRefOk(m, id, m', b, r);
      }
    } else {
      assert m'.buckets.Get(b') == m.buckets.Get(b');
      GrownOldRefOk(m, id, m', b', r);
    }
  }

  /** A grow keeps every slot that was free before it free. */
  lemma GrownOldRefOk(m: Mem, id: int, m': Mem, b: Bucket, r: SlotRef)
    requires GrownState(m, id, m') && FreeRefOk(m, b, r)
    ensures FreeRefOk(m', b, r)
  {
  }

  /** The slots a grow adds to its pool's free list are inactive slots of the grown batch. */
  lemma GrownNewRefOk(m: Mem, id: int, m': Mem, r: SlotRef)
    requires GrownState(m, id, m')
    requires r in NewRefs(id, |m.arena[id].slots|, 2 * |m.arena[id].slots|)
    ensures FreeRefOk(m', m.arena[id].bucketSize, r)
  {
    var refs := NewRefs(id, |m.arena[id].slots|, 2 * |m.arena[id].slots|);
    var k :| 0 <= k < |refs| && refs[k] == r;
  }

  /** After a grow, no free list holds an entry twice. */
  lemma GrownNoDuplicates(m: Mem, id: int, m': Mem)
    requires Inv(m) && GrownState(m, id, m') && CanGrow(m.arena[id])
    ensures forall b': Bucket :: NoDuplicates(m'.buckets.Get(b').freeSlots)
  {
    var bt := m.arena[id];
    var b := bt.bucketSize;
    var n := |bt.slots|;
    var refs := NewRefs(id, n, 2 * n);
    var free := m.buckets.Get(b).freeSlots;
    assert forall x :: x in refs ==> x.batch == id && n <= x.slotIndex < 2 * n;
    assert forall x :: x in refs ==> x !in free by {
      forall x | x in refs ensures x !in free {
        assert x in free ==> FreeRefOk(m, b, x);
      }
    }
    assert NoDuplicates(refs) by {
      forall i, j | 0 <= i < j < |refs| ensures refs[i] != refs[j] {
        assert refs[i].slotIndex == n + i && refs[j].slotIndex == n + j;
      }
    }
    AddFreeSlotsNoDuplicates(free, refs);
    forall b': Bucket ensures NoDuplicates(m'.buckets.Get(b').freeSlots) {
      if b' != b {
        assert m'.buckets.Get(b') == m.buckets.Get(b');
      }
    }
  }

  lemma GrownOwnersOk(m: Mem, id: int, m': Mem)
    requires Inv(m) && GrownState(m, id, m')
    ensures RecordsOk(m') && OwnersOk(m')
  {
    var bt := m.arena[id];
    var n := |bt.slots|;
    var g := m'.arena[id];
    assert forall j :: 0 <= j < n ==> g.slots[j] == bt.slots[j];
    assert forall j :: n <= j < |g.slots| ==> !g.slots[j].active;
    forall c | c in m'.clusterSlots ensures RecordOk(m', c, m'.clusterSlots[c]) {
      assert RecordOk(m, c, m.clusterSlots[c]);
    }
    forall y, j | y in m'.arena && 0 <= j < |m'.arena[y].slots| && m'.arena[y].slots[j].active
      ensures m'.arena[y].slots[j].clusterID in m'.clusterSlots
      ensures m'.clusterSlots[m'.arena[y].slots[j].clusterID].batch == y
      ensures m'.clusterSlots[m'.arena[y].slots[j].clusterID].slotIndex == j
    {
      assert m.arena[y].slots[j] == m'.arena[y].slots[j];
      assert m.arena[y].slots[j].clusterID in m.clusterSlots;
    }
  }

  /** The state deleteBatch leaves for an empty batch listed at position p of its pool. */
  ghost predicate DeletedState(m: Mem, id: int, p: nat, m': Mem)
  {
    && id in m.arena
    && (var b := m.arena[id].bucketSize;
        var pool := m.buckets.Get(b);
        && p < |pool.batches| && pool.batches[p] == id
        && m'.buckets == m.buckets.Set(b, pool.(batches := DeleteAt(pool.batches, p), freeSlots := PurgeBatch(pool.freeSlots, id))))
    && m'.arena == m.arena - {id}
    && m'.clusterSlots == m.clusterSlots && m'.nextBatchID == m.nextBatchID
  }

  lemma DeleteBatchKeepsInv(m: Mem, id: int)
    requires Inv(m) && id in m.arena
    ensures Inv(DeleteBatchM(m, id).0)
  {
    var bt := m.arena[id];
    if |bt.activeSlots| == 0 {
      var b := bt.bucketSize;
      var pool := m.buckets.Get(b);
      assert id in pool.batches;
      var p := IndexOf(pool.batches, id).value;
      var m' := DeleteBatchM(m, id).0;
      assert DeletedState(m, id, p, m');
      DeletedArenaOk(m, id, p, m');
      DeletedFreeListsOk(m, id, p, m');
      DeletedOwnersOk(m, id, p, m');
    }
  }

  lemma DeletedArenaOk(m: Mem, id: int, p: nat, m': Mem)
    requires Inv(m) && DeletedState(m, id, p, m')
    ensures ArenaOk(m') && PoolsShaped(m')
  {
    var b := m.arena[id].bucketSize;
    var pool := m.buckets.Get(b);
    DeleteAtNoDuplicates(pool.batches, p);
    forall x | x in m'.arena ensures x in m'.buckets.Get(m'.arena[x].bucketSize).batches {
      assert x in m.buckets.Get(m.arena[x].bucketSize).batches;
    }
    forall b': Bucket, k | 0 <= k < |m'.buckets.Get(b').batches|
      ensures m'.buckets.Get(b').batches[k] in m'.arena && m'.arena[m'.buckets.Get(b').batches[k]].bucketSize == b'
    {
      var x := m'.buckets.Get(b').batches[k];
      if b' == b {
        assert x in DeleteAt(pool.batches, p);
        assert x in pool.batches;
        var k' :| 0 <= k' < |pool.batches| && pool.batches[k'] == x;
      } else {
        assert m'.buckets.Get(b') == m.buckets.Get(b');
        assert m.arena[x].bucketSize == b';
      }
    }
    forall b': Bucket ensures NoDuplicates(m'.buckets.Get(b').batches) {
      if b' != b {
        assert m'.buckets.Get(b') == m.buckets.Get(b');
      }
    }
  }

  lemma DeletedFreeListsOk(m: Mem, id: int, p: nat, m': Mem)
    requires Inv(m) && DeletedState(m, id, p, m')
    ensures FreeListsOk(m')
  {
    var b := m.arena[id].bucketSize;
    var pool := m.buckets.Get(b);
    PurgeBatchNoDuplicates(pool.freeSlots, id);
    forall b': Bucket, r | r in m'.buckets.Get(b').freeSlots ensures FreeRefOk(m', b', r) {
      if b' == b {
        assert r in pool.freeSlots && r.batch != id;
        assert FreeRefOk(m, b', r);
      } else {
        assert m'.buckets.Get(b') == m.buckets.Get(b');
        assert FreeRefOk(m, b', r);
      }
    }
    forall b': Bucket ensures NoDuplicates(m'.buckets.Get(b').freeSlots) {
      if b' != b {
        assert m'.buckets.Get(b') == m.buckets.Get(b');
      }
    }
  }

  lemma DeletedOwnersOk(m: Mem, id: int, p: nat, m': Mem)
    requires Inv(m) && DeletedState(m, id, p, m')
    requires |m.arena[id].activeSlots| == 0
    ensures RecordsOk(m') && OwnersOk(m')
  {
    assert BatchOk(m.arena[id]);
    forall c | c in m'.clusterSlots ensures RecordOk(m', c, m'.clusterSlots[c]) {
      var a := m.clusterSlots[c];
      assert RecordOk(m, c, a);
      assert BatchOk(m.arena[a.batch]);
      assert a.slotIndex in m.arena[a.batch].activeSlots;
      assert a.batch != id;
    }
    forall y, j | y in m'.arena && 0 <= j < |m'.arena[y].slots| && m'.arena[y].slots[j].active
      ensures m'.arena[y].slots[j].clusterID in m'.clusterSlots
      ensures m'.clusterSlots[m'.arena[y].slots[j].clusterID].batch == y
      ensures m'.clusterSlots[m'.arena[y].slots[j].clusterID].slotIndex == j
    {
      assert m.arena[y].slots[j] == m'.arena[y].slots[j];
    }
  }
}
