/**
 * MemoryController.EnsureSlot (internal/memory/controller.go) on the value
 * model: the argument checks, the in-place update, the free-list loop, and
 * the fallback that finds a batch with room, grows one, or creates one.
 */
module MemoryOps {
  import opened Wrappers
  import opened Buckets
  import opened MemoryState
  import opened MemoryPrims

  // ---------------------------------------------------------------------
  // Choosing where a new payload goes

  /**
   * The growth loop of EnsureSlot: the first batch of the pool that canGrow
   * accepts is grown and the clusters it held are queued for re-upload.
   */
  function GrowFirst(m: Mem, b: Bucket): (r: (Mem, Option<int>))
    requires Inv(m) && b != XXL
    ensures Inv(r.0)
    ensures r.1.None? ==> r.0 == m
    ensures r.1.None? ==> forall j :: 0 <= j < |m.buckets.Get(b).batches| ==> !CanGrow(m.arena[m.buckets.Get(b).batches[j]])
    ensures r.1.Some? ==> r.1.value in r.0.arena && r.0.arena[r.1.value].bucketSize == b
    ensures r.1.Some? ==> FirstInactive(r.0.arena[r.1.value].slots).Some?
    ensures r.0.clusterSlots == m.clusterSlots
  {
    InvResolves(m, b);
    match FirstGrowable(m.arena, m.buckets.Get(b).batches, 0)
    case None => (m, None)
    case Some(id) =>
      assert m.buckets.Get(b).batches[0..] == m.buckets.Get(b).batches;
      assert m.arena[id].bucketSize == b;
      GrowKeepsInv(m, id);
      var g := GrowBatchM(m, id);
      var n := |m.arena[id].slots|;
      assert !g.0.arena[id].slots[n].active;
      ReuploadKeepsInv(g.0, g.0.reupload + set x | x in g.1.value);
      (MarkReupload(g.0, g.1.value), Some(id))
  }

  /**
   * EnsureSlot's batch choice before the XXL size check: a batch with a spare
   * slot, else (not XXL) a batch grown in place, else a new batch.
   */
  function PickBatch(m: Mem, b: Bucket, vertexCount: nat): (r: (Mem, int))
    requires Inv(m)
    ensures Inv(r.0) && r.1 in r.0.arena && r.0.arena[r.1].bucketSize == b
    ensures FirstInactive(r.0.arena[r.1].slots).Some?
    ensures r.0.clusterSlots == m.clusterSlots
  {
    InvResolves(m, b);
    match FindBatchWithCapacity(m, b)
    case Some(id) =>
      assert BatchOk(m.arena[id]);
      SpareSlotExists(m.arena[id]);
      (m, id)
    case None =>
      var g := if b == XXL then (m, None) else GrowFirst(m, b);
      if g.1.Some? then (g.0, g.1.value)
      else
        CreateBatchKeepsInv(m, b, vertexCount);
        var c := CreateBatchM(m, b, vertexCount);
        assert !c.0.arena[c.1].slots[0].active;
        c
  }

  /** PickBatch followed by EnsureSlot's XXL check: an XXL batch too small for the payload is passed over for a new one. */
  function ChooseBatch(m: Mem, b: Bucket, vertexCount: nat): (r: (Mem, int))
    requires Inv(m)
    ensures Inv(r.0) && r.1 in r.0.arena && r.0.arena[r.1].bucketSize == b
    ensures FirstInactive(r.0.arena[r.1].slots).Some?
    ensures b == XXL ==> vertexCount <= r.0.arena[r.1].totalVertexCapacity
    ensures r.0.clusterSlots == m.clusterSlots
  {
    var p := PickBatch(m, b, vertexCount);
    if b == XXL && vertexCount > p.0.arena[p.1].totalVertexCapacity then
      CreateBatchKeepsInv(p.0, b, vertexCount);
      var c := CreateBatchM(p.0, b, vertexCount);
      assert !c.0.arena[c.1].slots[0].active;
      c
    else p
  }

  // ---------------------------------------------------------------------
  // Taking a slot and storing the payload

  /** The free-list path's claim: the popped slot is marked active for the cluster. */
  function ClaimSlot(m: Mem, id: int, i: nat, c: int, vertexCount: nat): (r: Mem)
    requires id in m.arena && i < |m.arena[id].slots|
    ensures r.arena == m.arena[id := Claim(m.arena[id], i, c, vertexCount)]
    ensures r.buckets == m.buckets && r.clusterSlots == m.clusterSlots
  {
    m.(arena := m.arena[id := Claim(m.arena[id], i, c, vertexCount)])
  }

  /** The tail of EnsureSlot (`slot_selected`): upload into the slot and record the allocation. */
  function StoreRecord(m: Mem, id: int, i: nat, c: int, vertexCount: nat, data: seq<Float32>): (r: Mem)
    requires id in m.arena && i < |m.arena[id].slots|
    ensures r.clusterSlots == m.clusterSlots[c := SlotAllocation(id, i, vertexCount)]
    ensures r.arena == m.arena[id := Upload(m.arena[id], i, data)]
    ensures r.buckets == m.buckets
  {
    m.(arena := m.arena[id := Upload(m.arena[id], i, data)],
       clusterSlots := m.clusterSlots[c := SlotAllocation(id, i, vertexCount)])
  }

  /** Cluster c's record names a slot that holds `data` and counts its vertices. */
  ghost predicate Holds(m: Mem, c: int, data: seq<Float32>)
  {
    && c in m.clusterSlots
    && RecordOk(m, c, m.clusterSlots[c])
    && (var a := m.clusterSlots[c];
        var s := m.arena[a.batch].slots[a.slotIndex];
        && s.vertexCount == |data| / FloatsPerVertex
        && Read(m.arena[a.batch].vbo, s.vertexOffset * FloatsPerVertex, |data|) == Defined(data))
  }

  /** Claiming, uploading into and recording a spare slot keeps the invariant, and the payload reads back. */
  lemma PlaceKeepsInv(x: Mem, id: int, i: nat, c: int, vertexCount: nat, data: seq<Float32>)
    requires Inv(x) && id in x.arena && i < |x.arena[id].slots| && !x.arena[id].slots[i].active
    requires c !in x.clusterSlots
    requires vertexCount <= SlotCapacity(x.arena[id], i)
    requires vertexCount == |data| / FloatsPerVertex
    requires SlotRef(id, i) !in x.buckets.Get(x.arena[id].bucketSize).freeSlots
    ensures Inv(StoreRecord(ClaimSlot(x, id, i, c, vertexCount), id, i, c, vertexCount, data))
    ensures Holds(StoreRecord(ClaimSlot(x, id, i, c, vertexCount), id, i, c, vertexCount, data), c, data)
  {
    var cl := Claim(x.arena[id], i, c, vertexCount);
    var up := Upload(cl, i, data);
    ClaimRecordKeepsInv(x, id, i, c, vertexCount, up.vbo);
    assert x.arena[id].id == id;
    var r := StoreRecord(ClaimSlot(x, id, i, c, vertexCount), id, i, c, vertexCount, data);
    assert r.arena == x.arena[id := cl.(vbo := up.vbo)];
    assert r == PutBatch(x, cl.(vbo := up.vbo)).(clusterSlots := x.clusterSlots[c := SlotAllocation(id, i, vertexCount)]);
  }

  /**
   * EnsureSlot after any old allocation is gone: the free list is tried
   * first (popped entries an XXL payload does not fit are dropped), then
   * ChooseBatch and allocateSlotInBatch; the payload is uploaded and recorded.
   */
  function AllocateFresh(m: Mem, c: int, b: Bucket, vertexCount: nat, data: seq<Float32>): (r: (Mem, Outcome<Error>))
    requires Inv(m) && c !in m.clusterSlots && b == SelectBucket(vertexCount)
    requires vertexCount == |data| / FloatsPerVertex
    ensures Inv(r.0) && r.1.Pass?
    ensures Holds(r.0, c, data)
    ensures r.0.clusterSlots == m.clusterSlots[c := r.0.clusterSlots[c]]
  {
    InvResolves(m, b);
    if PopFree(m, b, vertexCount).1.Some? then ReuseFreeSlot(m, c, b, vertexCount, data)
    else AllocateNewSlot(m, c, b, vertexCount, data)
  }

  /** AllocateFresh when the free list yields a slot the payload fits. */
  function ReuseFreeSlot(m: Mem, c: int, b: Bucket, vertexCount: nat, data: seq<Float32>): (r: (Mem, Outcome<Error>))
    requires Inv(m) && c !in m.clusterSlots && b == SelectBucket(vertexCount) && FreeResolves(m, b)
    requires vertexCount == |data| / FloatsPerVertex
    requires PopFree(m, b, vertexCount).1.Some?
    ensures Inv(r.0) && r.1.Pass?
    ensures Holds(r.0, c, data)
    ensures r.0.clusterSlots == m.clusterSlots[c := r.0.clusterSlots[c]]
  {
    var p := PopFree(m, b, vertexCount);
    var free := m.buckets.Get(b).freeSlots;
    var ref := p.1.value;
    var k :| 0 < k <= |free| && free[k - 1] == ref && p.0.buckets.Get(b).freeSlots == free[k..];
    SuffixNoDuplicates(free, k);
    assert ref in free;
    FreeSublistKeepsInv(m, b, free[k..]);
    assert FreeRefOk(m, b, ref);
    PlaceKeepsInv(p.0, ref.batch, ref.slotIndex, c, vertexCount, data);
    (StoreRecord(ClaimSlot(p.0, ref.batch, ref.slotIndex, c, vertexCount), ref.batch, ref.slotIndex, c, vertexCount, data), Pass)
  }

  /** AllocateFresh when the free list yields nothing: ChooseBatch, then allocateSlotInBatch. */
  function AllocateNewSlot(m: Mem, c: int, b: Bucket, vertexCount: nat, data: seq<Float32>): (r: (Mem, Outcome<Error>))
    requires Inv(m) && c !in m.clusterSlots && b == SelectBucket(vertexCount) && FreeResolves(m, b)
    requires vertexCount == |data| / FloatsPerVertex
    requires PopFree(m, b, vertexCount).1.None?
    ensures Inv(r.0) && r.1.Pass?
    ensures Holds(r.0, c, data)
    ensures r.0.clusterSlots == m.clusterSlots[c := r.0.clusterSlots[c]]
  {
    var p := PopFree(m, b, vertexCount);
    FreeSublistKeepsInv(m, b, []);
    var q := ChooseBatch(p.0, b, vertexCount);
    var id := q.1;
    var a := AllocateSlotInBatchM(q.0, id, c, vertexCount);
    NewSlotKeepsInv(q.0, b, id, c, vertexCount, data);
    match a.1
    case Err(e) => (a.0, Fail(e))
    case Ok(i) => (StoreRecord(a.0, id, i, c, vertexCount, data), Pass)
  }

  /** allocateSlotInBatch on the chosen batch finds a slot, and storing the payload there keeps the invariant. */
  lemma NewSlotKeepsInv(x: Mem, b: Bucket, id: int, c: int, vertexCount: nat, data: seq<Float32>)
    requires Inv(x) && id in x.arena && x.arena[id].bucketSize == b
    requires FirstInactive(x.arena[id].slots).Some?
    requires b == XXL ==> vertexCount <= x.arena[id].totalVertexCapacity
    requires c !in x.clusterSlots && b == SelectBucket(vertexCount)
    requires vertexCount == |data| / FloatsPerVertex
    ensures AllocateSlotInBatchM(x, id, c, vertexCount).1.Ok?
    ensures var a := AllocateSlotInBatchM(x, id, c, vertexCount);
      Inv(StoreRecord(a.0, id, a.1.value, c, vertexCount, data)) &&
      Holds(StoreRecord(a.0, id, a.1.value, c, vertexCount, data), c, data) &&
      a.0.clusterSlots == x.clusterSlots
  {
    var a := AllocateSlotInBatchM(x, id, c, vertexCount);
    var i := a.1.value;
    var x1 := WithFree(x, b, RemoveFromFreeList(x.buckets.Get(b).freeSlots, SlotRef(id, i)));
    RemoveFromFreeListNoDuplicates(x.buckets.Get(b).freeSlots, SlotRef(id, i));
    FreeSublistKeepsInv(x, b, x1.buckets.Get(b).freeSlots);
    assert a.0 == ClaimSlot(x1, id, i, c, vertexCount);
    assert BatchOk(x.arena[id]);
    assert b == XXL ==> i == 0;
    PlaceKeepsInv(x1, id, i, c, vertexCount, data);
  }

  // ---------------------------------------------------------------------
  // EnsureSlot

  /**
   * EnsureSlot: rejects an empty payload and one that is not whole vertices;
   * updates in place when the cluster's slot can hold the new count;
   * otherwise frees the old slot and allocates afresh in the payload's bucket.
   */
  function EnsureSlotM(m: Mem, c: int, data: seq<Float32>): (r: (Mem, Outcome<Error>))
    requires Inv(m)
    ensures Inv(r.0)
    ensures r.1 == Fail(EmptyPayload) <==> |data| == 0
    ensures r.1 == Fail(NotStrideMultiple) <==> |data| != 0 && |data| % FloatsPerVertex != 0
    ensures r.1.Pass? <==> |data| != 0 && |data| % FloatsPerVertex == 0
    ensures r.1.Fail? ==> r.0 == m
    ensures r.1.Pass? ==> Holds(r.0, c, data)
    ensures forall c' :: c' != c ==> (c' in r.0.clusterSlots <==> c' in m.clusterSlots)
    ensures forall c' :: c' != c && c' in m.clusterSlots ==> r.0.clusterSlots[c'] == m.clusterSlots[c']
  {
    if |data| == 0 then (m, Fail(EmptyPayload))
    else if |data| % FloatsPerVertex != 0 then (m, Fail(NotStrideMultiple))
    else
      var vertexCount := |data| / FloatsPerVertex;
      var b := SelectBucket(vertexCount);
      if c in m.clusterSlots && FitsInPlace(m, m.clusterSlots[c], vertexCount) then
        (UpdateHeld(m, c, data), Pass)
      else Reallocate(m, c, b, vertexCount, data)
  }

  /** EnsureSlot when the payload fits where the cluster is: updateSlotInPlace on its record. */
  function UpdateHeld(m: Mem, c: int, data: seq<Float32>): (r: Mem)
    requires Inv(m) && c in m.clusterSlots
    requires FitsInPlace(m, m.clusterSlots[c], |data| / FloatsPerVertex)
    ensures Inv(r) && Holds(r, c, data)
    ensures r.clusterSlots == m.clusterSlots
  {
    var vertexCount := |data| / FloatsPerVertex;
    assert RecordOk(m, c, m.clusterSlots[c]);
    UpdateInPlaceKeepsInv(m, c, data, vertexCount);
    UpdateInPlaceM(m, m.clusterSlots[c], data, vertexCount)
  }

  /** EnsureSlot when the payload does not fit where the cluster is: RemoveCluster if it has a slot, then AllocateFresh. */
  function Reallocate(m: Mem, c: int, b: Bucket, vertexCount: nat, data: seq<Float32>): (r: (Mem, Outcome<Error>))
    requires Inv(m) && b == SelectBucket(vertexCount) && vertexCount == |data| / FloatsPerVertex
    ensures Inv(r.0) && r.1.Pass? && Holds(r.0, c, data)
    ensures r.0.clusterSlots == (m.clusterSlots - {c})[c := r.0.clusterSlots[c]]
    ensures forall c' :: c' != c ==> (c' in r.0.clusterSlots <==> c' in m.clusterSlots)
    ensures forall c' :: c' != c && c' in m.clusterSlots ==> r.0.clusterSlots[c'] == m.clusterSlots[c']
  {
    RemoveClusterKeepsInv(m, c);
    var m1 := if c in m.clusterSlots then RemoveClusterM(m, c).0 else m;
    RecordDropped(m, m1, c);
    var r := AllocateFresh(m1, c, b, vertexCount, data);
    OthersUnchanged(m.clusterSlots, r.0.clusterSlots, c);
    r
  }

  lemma RecordDropped(m: Mem, m1: Mem, c: int)
    requires c in m.clusterSlots ==> m1.clusterSlots == m.clusterSlots - {c}
    requires c !in m.clusterSlots ==> m1 == m
    ensures m1.clusterSlots == m.clusterSlots - {c}
  {
    if c !in m.clusterSlots {
      assert m.clusterSlots - {c} == m.clusterSlots;
    }
  }

  /** Replacing one key's entry leaves every other key as it was. */
  lemma OthersUnchanged<V>(before: map<int, V>, after: map<int, V>, c: int)
    requires c in after && after == (before - {c})[c := after[c]]
    ensures forall c' :: c' != c ==> (c' in after <==> c' in before)
    ensures forall c' :: c' != c && c' in before ==> after[c'] == before[c']
  {
  }

  // ---------------------------------------------------------------------
  // Properties of EnsureSlot

  /** Writing what a range already holds leaves the buffer as it was. */
  lemma {:induction false} WriteSame(vbo: map<int, Float32>, base: int, data: seq<Float32>)
    requires Read(vbo, base, |data|) == Defined(data)
    ensures Write(vbo, base, data) == vbo
    decreases |data|
  {
    if data != [] {
      assert Read(vbo, base, |data|)[0] == Some(data[0]);
      assert vbo[base := data[0]] == vbo;
      forall k | 0 <= k < |data| - 1 ensures Read(vbo, base + 1, |data| - 1)[k] == Defined(data[1..])[k] {
        assert Read(vbo, base, |data|)[k + 1] == Some(data[k + 1]);
      }
      WriteSame(vbo, base + 1, data[1..]);
    }
  }

  /** A cluster's slot always holds the payload it was given, so a second call with it updates in place. */
  lemma HoldsFitsInPlace(m: Mem, c: int, data: seq<Float32>)
    requires Inv(m) && Holds(m, c, data)
    ensures FitsInPlace(m, m.clusterSlots[c], |data| / FloatsPerVertex)
  {
    var a := m.clusterSlots[c];
    assert BatchOk(m.arena[a.batch]);
  }

  /** Updating a slot in place with the payload it already holds changes nothing. */
  lemma UpdateSameIsNoop(m: Mem, c: int, data: seq<Float32>)
    requires Inv(m) && Holds(m, c, data)
    ensures UpdateInPlaceM(m, m.clusterSlots[c], data, |data| / FloatsPerVertex) == m
  {
    var a := m.clusterSlots[c];
    var bt := m.arena[a.batch];
    assert BatchOk(bt) && bt.id == a.batch;
    assert bt.slots[a.slotIndex := bt.slots[a.slotIndex].(vertexCount := |data| / FloatsPerVertex)] == bt.slots;
    WriteSame(bt.vbo, bt.slots[a.slotIndex].vertexOffset * FloatsPerVertex, data);
    assert m.arena[a.batch := bt] == m.arena;
  }

  /**
   * EnsureSlot is idempotent: repeating a successful call with the same
   * payload changes nothing.
   */
  lemma EnsureSlotIdempotent(m: Mem, c: int, data: seq<Float32>)
    requires Inv(m)
    requires EnsureSlotM(m, c, data).1.Pass?
    ensures EnsureSlotM(EnsureSlotM(m, c, data).0, c, data) == (EnsureSlotM(m, c, data).0, Pass)
  {
    var m1 := EnsureSlotM(m, c, data).0;
    HoldsFitsInPlace(m1, c, data);
    UpdateSameIsNoop(m1, c, data);
  }

  // ---------------------------------------------------------------------
  // Growth on a full pool

  /** A batch whose active list is as long as its slot list has every slot active. */
  lemma AllActive(bt: Batch)
    requires ActiveListOk(bt) && |bt.activeSlots| >= |bt.slots|
    ensures forall i :: 0 <= i < |bt.slots| ==> bt.slots[i].active
  {
    forall i | 0 <= i < |bt.slots| ensures bt.slots[i].active {
      if !bt.slots[i].active {
        DistinctBelow(bt.activeSlots, |bt.slots|, i);
      }
    }
  }

  /** Distinct naturals below n, none equal to j, number at most n, and fewer than n when j is below n. */
  lemma {:induction false} DistinctBelow(xs: seq<nat>, n: nat, j: int)
    requires NoDuplicates(xs)
    requires forall k :: 0 <= k < |xs| ==> xs[k] < n && xs[k] != j
    ensures |xs| <= n
    ensures 0 <= j < n ==> |xs| < n
    decreases n
  {
    if n > 0 {
      var v := n - 1;
      match IndexOf(xs, v)
      case None =>
        DistinctBelow(xs, n - 1, j);
      case Some(p) =>
        var rest := DeleteAt(xs, p);
        DeleteAtNoDuplicates(xs, p);
        forall k | 0 <= k < |rest| ensures rest[k] < n - 1 && rest[k] != j {
          assert rest[k] in rest;
        }
        DistinctBelow(rest, n - 1, j);
    }
  }

  /** addFreeSlot appends a ref of the same batch that is not below any listed slot. */
  lemma {:induction false} InsertScanAtEnd(free: seq<SlotRef>, ref: SlotRef, i: nat)
    requires i <= |free|
    requires forall j :: i <= j < |free| ==> free[j].batch == ref.batch && free[j].slotIndex <= ref.slotIndex
    ensures InsertScan(free, ref, i, i) == |free|
    decreases |free| - i
  {
    if i < |free| {
      InsertScanAtEnd(free, ref, i + 1);
    }
  }

  /** growBatch's loop of addFreeSlot calls on an empty free list leaves the new slots in index order. */
  lemma {:induction false} AddFreeSlotsNewRefs(id: int, lo: nat, hi: nat)
    requires lo <= hi
    ensures AddFreeSlots([], NewRefs(id, lo, hi)) == NewRefs(id, lo, hi)
    decreases hi
  {
    if lo < hi {
      var init, last := NewRefs(id, lo, hi - 1), SlotRef(id, hi - 1);
      NewRefsLast(id, lo, hi);
      AddFreeSlotsNewRefs(id, lo, hi - 1);
      InsertScanAtEnd(init, last, 0);
      assert init[..|init|] == init && init[|init|..] == [];
      assert AddFreeSlot(init, last) == init + [last];
    }
  }

  lemma NewRefsLast(id: int, lo: nat, hi: nat)
    requires lo < hi
    ensures NewRefs(id, lo, hi)[..hi - lo - 1] == NewRefs(id, lo, hi - 1)
    ensures NewRefs(id, lo, hi) == NewRefs(id, lo, hi - 1) + [SlotRef(id, hi - 1)]
  {
  }

  /** The search of allocateSlotInBatch finds the inactive slot all of whose predecessors are active. */
  lemma FirstInactiveAt(slots: seq<Slot>, n: nat)
    requires n < |slots| && !slots[n].active
    requires forall j :: 0 <= j < n ==> slots[j].active
    ensures FirstInactive(slots) == Some(n)
  {
  }

  lemma NewRefsHead(id: int, lo: nat, hi: nat)
    requires lo < hi
    ensures NewRefs(id, lo, hi) == [SlotRef(id, lo)] + NewRefs(id, lo + 1, hi)
  {
  }

  /** removeFromFreeList drops the head when the ref is listed only there. */
  lemma {:induction false} RemoveHead(ref: SlotRef, rest: seq<SlotRef>)
    requires ref !in rest
    ensures RemoveFromFreeList([ref] + rest, ref) == rest
    decreases |rest|
  {
    var xs := [ref] + rest;
    if rest != [] {
      var init := rest[..|rest| - 1];
      assert xs[..|xs| - 1] == [ref] + init;
      assert rest == init + [rest[|rest| - 1]];
      RemoveHead(ref, init);
    } else {
      assert xs[..|xs| - 1] == [];
    }
  }

  /**
   * The growth case of EnsureSlot: a new cluster whose bucket has an empty
   * free list and a single full batch that canGrow accepts lands in the first
   * new slot of the grown batch; the batch's old clusters are queued for
   * re-upload and the remaining new slots stay on the free list in order.
   */
  lemma EnsureSlotGrowsFullBatch(m: Mem, c: int, data: seq<Float32>, id: int)
    requires Inv(m) && c !in m.clusterSlots
    requires |data| > 0 && |data| % FloatsPerVertex == 0
    requires SelectBucket(|data| / FloatsPerVertex) != XXL
    requires m.buckets.Get(SelectBucket(|data| / FloatsPerVertex)).freeSlots == []
    requires m.buckets.Get(SelectBucket(|data| / FloatsPerVertex)).batches == [id]
    requires id in m.arena && |m.arena[id].activeSlots| == |m.arena[id].slots| && CanGrow(m.arena[id])
    ensures EnsureSlotM(m, c, data).1 == Pass
    ensures |EnsureSlotM(m, c, data).0.arena[id].slots| == 2 * |m.arena[id].slots|
    ensures EnsureSlotM(m, c, data).0.clusterSlots[c] == SlotAllocation(id, |m.arena[id].slots|, |data| / FloatsPerVertex)
    ensures EnsureSlotM(m, c, data).0.reupload == m.reupload + set x | x in Affected(m.arena[id])
    ensures EnsureSlotM(m, c, data).0.buckets.Get(SelectBucket(|data| / FloatsPerVertex)).freeSlots ==
              NewRefs(id, |m.arena[id].slots| + 1, 2 * |m.arena[id].slots|)
  {
    var vertexCount := |data| / FloatsPerVertex;
    var b := SelectBucket(vertexCount);
    FreshViaBatch(m, c, b, vertexCount, data);
    GrowChoice(m, b, vertexCount, id);
    GrownPlacement(m, c, b, vertexCount, data, id);
    GrownFreeList(m, c, b, vertexCount, data, id);
  }

  /** The state the growth case leaves before the upload: the grown batch, its old clusters queued. */
  function GrownForNew(m: Mem, id: int): Mem
    requires id in m.arena && ActiveInRange(m.arena[id])
  {
    MarkReupload(GrowBatchM(m, id).0, Affected(m.arena[id]))
  }

  /** In the growth case allocateSlotInBatch takes the first new slot. */
  lemma GrownPlacement(m: Mem, c: int, b: Bucket, vertexCount: nat, data: seq<Float32>, id: int)
    requires id in m.arena && CanGrow(m.arena[id]) && ActiveInRange(m.arena[id])
    requires forall i :: 0 <= i < |m.arena[id].slots| ==> m.arena[id].slots[i].active
    requires GrowBatchM(m, id).0.arena[id] == Grown(m.arena[id], m.buckets.Get(b).vertexCapacityPerSlot)
    ensures FirstInactive(GrownForNew(m, id).arena[id].slots) == Some(|m.arena[id].slots|)
    ensures var n := |m.arena[id].slots|;
            var st := StoreRecord(AllocateSlotInBatchM(GrownForNew(m, id), id, c, vertexCount).0, id, n, c, vertexCount, data);
            && |st.arena[id].slots| == 2 * n
            && st.clusterSlots[c] == SlotAllocation(id, n, vertexCount)
            && st.reupload == m.reupload + set x | x in Affected(m.arena[id])
  {
    var bt := m.arena[id];
    var n := |bt.slots|;
    var grown := GrownForNew(m, id).arena[id];
    assert forall j :: 0 <= j < n ==> grown.slots[j] == bt.slots[j];
    FirstInactiveAt(grown.slots, n);
  }

  /** In the growth case the free list ends up holding the new slots after the one taken, in order. */
  lemma GrownFreeList(m: Mem, c: int, b: Bucket, vertexCount: nat, data: seq<Float32>, id: int)
    requires b != XXL && m.buckets.Get(b).freeSlots == []
    requires id in m.arena && m.arena[id].bucketSize == b && CanGrow(m.arena[id]) && ActiveInRange(m.arena[id])
    requires FirstInactive(GrownForNew(m, id).arena[id].slots) == Some(|m.arena[id].slots|)
    ensures var n := |m.arena[id].slots|;
            var st := StoreRecord(AllocateSlotInBatchM(GrownForNew(m, id), id, c, vertexCount).0, id, n, c, vertexCount, data);
            st.buckets.Get(b).freeSlots == NewRefs(id, n + 1, 2 * n)
  {
    var n := |m.arena[id].slots|;
    var m2 := GrownForNew(m, id);
    AddFreeSlotsNewRefs(id, n, 2 * n);
    assert m2.buckets.Get(b).freeSlots == NewRefs(id, n, 2 * n);
    NewRefsHead(id, n, 2 * n);
    RemoveHead(SlotRef(id, n), NewRefs(id, n + 1, 2 * n));
  }



  /**
   * With nothing on the free list, a new cluster's payload goes where
   * ChooseBatch and allocateSlotInBatch put it.
   */
  lemma FreshViaBatch(m: Mem, c: int, b: Bucket, vertexCount: nat, data: seq<Float32>)
    requires Inv(m) && c !in m.clusterSlots
    requires |data| > 0 && |data| % FloatsPerVertex == 0 && vertexCount == |data| / FloatsPerVertex
    requires b == SelectBucket(vertexCount) && m.buckets.Get(b).freeSlots == []
    ensures var q := ChooseBatch(m, b, vertexCount);
            var i := FirstInactive(q.0.arena[q.1].slots).value;
            EnsureSlotM(m, c, data) ==
              (StoreRecord(AllocateSlotInBatchM(q.0, q.1, c, vertexCount).0, q.1, i, c, vertexCount, data), Pass)
  {
    assert EnsureSlotM(m, c, data) == AllocateFresh(m, c, b, vertexCount, data);
    assert PopFree(m, b, vertexCount) == (m, None);
    assert WithFree(m, b, []) == m;
  }


  /** In the growth case the batch chosen is the pool's only batch, grown, with its clusters queued for re-upload. */
  lemma GrowChoice(m: Mem, b: Bucket, vertexCount: nat, id: int)
    requires Inv(m) && b != XXL
    requires m.buckets.Get(b).batches == [id]
    requires id in m.arena && |m.arena[id].activeSlots| == |m.arena[id].slots| && CanGrow(m.arena[id])
    ensures ActiveInRange(m.arena[id])
    ensures ChooseBatch(m, b, vertexCount) == (GrownForNew(m, id), id)
    ensures GrowBatchM(m, id).0.arena[id] == Grown(m.arena[id], m.buckets.Get(b).vertexCapacityPerSlot)
    ensures forall i :: 0 <= i < |m.arena[id].slots| ==> m.arena[id].slots[i].active
  {
    var bt := m.arena[id];
    assert BatchOk(bt);
    AllActive(bt);
    InvResolves(m, b);
    assert FindBatchWithCapacity(m, b).None?;
    assert FirstGrowable(m.arena, [id], 0) == Some(id);
    var g := GrowBatchM(m, id);
    assert g.1 == Ok(Affected(bt));
  }

}
