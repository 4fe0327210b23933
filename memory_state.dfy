/**
 * The data model of the slot allocator in internal/memory/controller.go:
 * slots, batches, slot references, bucket pools, allocation records and the
 * controller's whole state; the free-list and batch operations on these
 * values; and the integrity invariant that `ValidateClusterIntegrity`
 * checks, together with the facts about the free list and the arena that
 * the code keeps.
 *
 * Go's `*Batch` pointers become batch ids into an arena (`Mem.arena`).
 * A batch's VBO becomes a finite map from float index to the 32-bit pattern
 * stored there; indices absent from the map hold nothing defined.
 */
module MemoryState {
  import opened Wrappers
  import opened Buckets

  /** The bit pattern of one float32 of vertex data. */
  type Float32 = bv32

  datatype Error =
    | EmptyPayload         // EnsureSlot: no vertex data
    | NotStrideMultiple    // EnsureSlot: length not a multiple of 6 floats
    | NotFound             // RemoveCluster: no allocation record
    | NoAvailableSlot      // allocateSlotInBatch: every slot active
    | CannotGrow           // growBatch: canGrow is false
    | BatchNotEmpty        // deleteBatch: active slots remain
    | NoAllocationRecord   // copySlotData: the moved cluster has no record

  datatype Slot = Slot(active: bool, clusterID: int, vertexCount: nat, vertexOffset: nat)

  datatype Batch = Batch(
    id: int,
    totalVertexCapacity: nat,
    slots: seq<Slot>,
    activeSlots: seq<nat>,
    bucketSize: Bucket,
    growthCycles: nat,
    initialCapacity: nat,
    vbo: map<int, Float32>)

  /** A (batch id, slot index) pair on a pool's free list. */
  datatype SlotRef = SlotRef(batch: int, slotIndex: nat)

  datatype Pool = Pool(
    size: Bucket,
    vertexCapacityPerSlot: nat,
    slotsPerBatch: nat,
    batches: seq<int>,
    freeSlots: seq<SlotRef>)

  /** Where a cluster's vertex data lives. */
  datatype SlotAllocation = SlotAllocation(batch: int, slotIndex: nat, vertexCount: nat)

  /** The controller's `buckets` map, which always holds all five pools. */
  datatype Pools = Pools(s: Pool, m: Pool, l: Pool, xl: Pool, xxl: Pool)
  {
    function Get(b: Bucket): Pool
    {
      match b
      case S => s
      case M => m
      case L => l
      case XL => xl
      case XXL => xxl
    }

    function Set(b: Bucket, p: Pool): (r: Pools)
      ensures r.Get(b) == p
      ensures forall b' :: b' != b ==> r.Get(b') == Get(b')
    {
      match b
      case S => this.(s := p)
      case M => this.(m := p)
      case L => this.(l := p)
      case XL => this.(xl := p)
      case XXL => this.(xxl := p)
    }
  }

  /** The whole state of a MemoryController (GL handles and statistics left out). */
  datatype Mem = Mem(
    buckets: Pools,
    arena: map<int, Batch>,
    clusterSlots: map<int, SlotAllocation>,
    reupload: set<int>,
    nextBatchID: int)

  /** newBucketPool */
  function NewBucketPool(b: Bucket): Pool
  {
    Pool(b, VertexCapacityForBucket(b), SlotsPerBatchForBucket(b), [], [])
  }

  /** NewMemoryController */
  function EmptyMem(): Mem
  {
    Mem(Pools(NewBucketPool(S), NewBucketPool(M), NewBucketPool(L), NewBucketPool(XL), NewBucketPool(XXL)),
        map[], map[], {}, 0)
  }

  // ---------------------------------------------------------------------
  // Free list

  /** The (batch id, slot index) order the free list is documented to keep. */
  predicate RefLe(a: SlotRef, b: SlotRef)
  {
    a.batch < b.batch || (a.batch == b.batch && a.slotIndex <= b.slotIndex)
  }

  ghost predicate SortedRefs(free: seq<SlotRef>)
  {
    forall i, j :: 0 <= i < j < |free| ==> RefLe(free[i], free[j])
  }

  ghost predicate NoDuplicates<T>(xs: seq<T>)
  {
    forall i, j :: 0 <= i < j < |xs| ==> xs[i] != xs[j]
  }

  /**
   * The scan of addFreeSlot's loop, resumed at position `i` with
   * `insertIdx == acc`. Entries of a lower batch leave `insertIdx` as it is.
   */
  function InsertScan(free: seq<SlotRef>, ref: SlotRef, i: nat, acc: nat): (k: nat)
    requires i <= |free| && acc <= i
    ensures acc <= k <= |free|
    decreases |free| - i
  {
    if i == |free| then acc
    else if free[i].batch > ref.batch then i
    else if free[i].batch < ref.batch then InsertScan(free, ref, i + 1, acc)
    else if free[i].slotIndex > ref.slotIndex then i
    else InsertScan(free, ref, i + 1, i + 1)
  }

  function InsertIndex(free: seq<SlotRef>, ref: SlotRef): (k: nat)
    ensures k <= |free|
  {
    InsertScan(free, ref, 0, 0)
  }

  /** addFreeSlot: `ref` is inserted at one position; the other entries keep their order. */
  function AddFreeSlot(free: seq<SlotRef>, ref: SlotRef): (r: seq<SlotRef>)
    ensures |r| == |free| + 1
    ensures multiset(r) == multiset(free) + multiset{ref}
    ensures exists k :: 0 <= k <= |free| && r == free[..k] + [ref] + free[k..]
    ensures forall x :: x in r <==> x in free || x == ref
  {
    var k := InsertIndex(free, ref);
    assert free == free[..k] + free[k..];
    free[..k] + [ref] + free[k..]
  }

  /** removeFromFreeList: every entry equal to `ref` is dropped, the rest kept in order. */
  function RemoveFromFreeList(free: seq<SlotRef>, ref: SlotRef): (r: seq<SlotRef>)
    ensures ref !in r
    ensures forall x :: x != ref ==> multiset(r)[x] == multiset(free)[x]
    ensures |r| <= |free|
  {
    if free == [] then []
    else
      var init := free[..|free| - 1];
      assert free == init + [free[|free| - 1]];
      RemoveFromFreeList(init, ref) + (if free[|free| - 1] == ref then [] else [free[|free| - 1]])
  }

  /** The free-list filter of deleteBatch: every entry of batch `id` is dropped. */
  function PurgeBatch(free: seq<SlotRef>, id: int): (r: seq<SlotRef>)
    ensures forall x :: x in r ==> x.batch != id
    ensures forall x: SlotRef :: x.batch != id ==> multiset(r)[x] == multiset(free)[x]
    ensures |r| <= |free|
  {
    if free == [] then []
    else
      var init := free[..|free| - 1];
      assert free == init + [free[|free| - 1]];
      PurgeBatch(init, id) + (if free[|free| - 1].batch == id then [] else [free[|free| - 1]])
  }

  /** The growth loop's repeated addFreeSlot, in order: the last ref is inserted last. */
  function AddFreeSlots(free: seq<SlotRef>, refs: seq<SlotRef>): (r: seq<SlotRef>)
    ensures |r| == |free| + |refs|
    ensures multiset(r) == multiset(free) + multiset(refs)
    decreases |refs|
  {
    if refs == [] then free
    else
      var init := refs[..|refs| - 1];
      assert refs == init + [refs[|refs| - 1]];
      AddFreeSlot(AddFreeSlots(free, init), refs[|refs| - 1])
  }

  /** References to slots `from .. to-1` of batch `id`. */
  function NewRefs(id: int, from: nat, to: nat): (r: seq<SlotRef>)
    requires from <= to
    ensures |r| == to - from
    ensures forall k :: 0 <= k < |r| ==> r[k] == SlotRef(id, from + k)
  {
    seq(to - from, k requires 0 <= k < to - from => SlotRef(id, from + k))
  }

  // ---------------------------------------------------------------------
  // Batch operations on values

  /** The first-inactive-slot search of allocateSlotInBatch, from index i. */
  function FirstInactiveFrom(slots: seq<Slot>, i: nat): (r: Option<nat>)
    requires i <= |slots|
    ensures r.Some? ==> i <= r.value < |slots| && !slots[r.value].active &&
                        forall j :: i <= j < r.value ==> slots[j].active
    ensures r.None? ==> forall j :: i <= j < |slots| ==> slots[j].active
    decreases |slots| - i
  {
    if i == |slots| then None
    else if !slots[i].active then Some(i)
    else FirstInactiveFrom(slots, i + 1)
  }

  function FirstInactive(slots: seq<Slot>): (r: Option<nat>)
    ensures r.Some? ==> r.value < |slots| && !slots[r.value].active &&
                        forall j :: 0 <= j < r.value ==> slots[j].active
    ensures r.None? ==> forall j :: 0 <= j < |slots| ==> slots[j].active
  {
    FirstInactiveFrom(slots, 0)
  }

  /** Marks slot i active for cluster c and appends it to the active list. */
  function Claim(bt: Batch, i: nat, c: int, vc: nat): Batch
    requires i < |bt.slots|
  {
    bt.(slots := bt.slots[i := bt.slots[i].(active := true, clusterID := c, vertexCount := vc)],
        activeSlots := bt.activeSlots + [i])
  }

  /** Position of the first occurrence of x in xs. */
  function IndexOf<T(==)>(xs: seq<T>, x: T): (r: Option<nat>)
    ensures r.Some? ==> r.value < |xs| && xs[r.value] == x && forall j :: 0 <= j < r.value ==> xs[j] != x
    ensures r.None? ==> x !in xs
  {
    if xs == [] then None
    else if xs[0] == x then Some(0)
    else match IndexOf(xs[1..], x)
      case None => None
      case Some(j) => Some(j + 1)
  }

  /** freeSlot's removal: the first occurrence of x is overwritten by the last entry, which is popped. */
  function SwapRemove(xs: seq<nat>, x: nat): (r: seq<nat>)
    ensures x !in xs ==> r == xs
    ensures x in xs ==> |r| == |xs| - 1 && multiset(r) == multiset(xs) - multiset{x}
  {
    match IndexOf(xs, x)
    case None => xs
    case Some(i) =>
      SwapRemoveMultiset(xs, i);
      xs[i := xs[|xs| - 1]][..|xs| - 1]
  }

  lemma SwapRemoveMultiset<T>(xs: seq<T>, i: nat)
    requires i < |xs|
    ensures multiset(xs[i := xs[|xs| - 1]][..|xs| - 1]) == multiset(xs) - multiset{xs[i]}
  {
    var last := |xs| - 1;
    var y := xs[i := xs[last]][..last];
    if i == last {
      assert xs == y + [xs[i]];
    } else {
      assert y == xs[..i] + [xs[last]] + xs[i + 1..last];
      assert xs == xs[..i] + [xs[i]] + xs[i + 1..last] + [xs[last]];
    }
  }

  /** An order-preserving delete at position p (copySlotData's `append(s[:p], s[p+1:]...)`). */
  function DeleteAt<T>(xs: seq<T>, p: nat): (r: seq<T>)
    requires p < |xs|
    ensures |r| == |xs| - 1
    ensures multiset(r) == multiset(xs) - multiset{xs[p]}
  {
    assert xs == xs[..p] + [xs[p]] + xs[p + 1..];
    xs[..p] + xs[p + 1..]
  }

  /** An inactive slot with its owner and count cleared (the offset stays). */
  function Cleared(s: Slot): Slot
  {
    s.(active := false, clusterID := 0, vertexCount := 0)
  }

  /**
   * Batch.freeSlot: clears the slot (inactive, no owner, no vertices, same
   * offset) and swap-removes its active-list entry; a no-op for an
   * out-of-range index.
   */
  function FreeSlotInBatch(bt: Batch, slotIndex: int): (r: Batch)
    ensures r.id == bt.id && r.bucketSize == bt.bucketSize && |r.slots| == |bt.slots|
    ensures r.vbo == bt.vbo && r.totalVertexCapacity == bt.totalVertexCapacity && r.growthCycles == bt.growthCycles
    ensures (slotIndex < 0 || slotIndex >= |bt.slots|) ==> r == bt
    ensures 0 <= slotIndex < |bt.slots| ==>
      && r.slots == bt.slots[slotIndex := Cleared(bt.slots[slotIndex])]
      && !r.slots[slotIndex].active && r.slots[slotIndex].vertexOffset == bt.slots[slotIndex].vertexOffset
      && r.activeSlots == SwapRemove(bt.activeSlots, slotIndex)
      && (slotIndex in bt.activeSlots ==> multiset(r.activeSlots) == multiset(bt.activeSlots) - multiset{slotIndex as nat})
      && (slotIndex !in bt.activeSlots ==> r.activeSlots == bt.activeSlots)
  {
    if slotIndex < 0 || slotIndex >= |bt.slots| then bt
    else bt.(slots := bt.slots[slotIndex := Cleared(bt.slots[slotIndex])],
             activeSlots := SwapRemove(bt.activeSlots, slotIndex))
  }

  /** Batch.canGrow, with the utilisation test `active/slots >= 0.75` as `4*active >= 3*slots`. */
  predicate CanGrow(bt: Batch)
  {
    && bt.growthCycles < GrowthMaxCycles
    && |bt.slots| != 0
    && 4 * |bt.activeSlots| >= 3 * |bt.slots|
    && bt.totalVertexCapacity * 2 * FloatsPerVertex * BytesPerFloat <= GrowthMaxBatchBytes
  }

  /** Fresh inactive slots `from .. from+count-1` with offsets `perSlot * index`. */
  function NewSlots(from: nat, count: nat, perSlot: nat): (r: seq<Slot>)
    ensures |r| == count
    ensures forall k :: 0 <= k < count ==> r[k] == Slot(false, 0, 0, perSlot * (from + k))
  {
    seq(count, k requires 0 <= k < count => Slot(false, 0, 0, perSlot * (from + k)))
  }

  /** The batch after growBatch: slots and capacity doubled, a fresh (empty) VBO. */
  function Grown(bt: Batch, perSlot: nat): (r: Batch)
    ensures |r.slots| == 2 * |bt.slots|
    ensures forall j :: 0 <= j < |bt.slots| ==> r.slots[j] == bt.slots[j]
    ensures forall j :: |bt.slots| <= j < |r.slots| ==> r.slots[j] == Slot(false, 0, 0, perSlot * j)
    ensures r.activeSlots == bt.activeSlots && r.id == bt.id && r.bucketSize == bt.bucketSize
    ensures r.totalVertexCapacity == 2 * bt.totalVertexCapacity && r.growthCycles == bt.growthCycles + 1
    ensures r.vbo == map[]
  {
    bt.(totalVertexCapacity := bt.totalVertexCapacity * 2,
        growthCycles := bt.growthCycles + 1,
        slots := bt.slots + NewSlots(|bt.slots|, |bt.slots|, perSlot),
        vbo := map[])
  }

  /** The owners of a batch's active slots, in active-list order (growBatch's affectedClusters). */
  function Affected(bt: Batch): (r: seq<int>)
    requires forall k :: 0 <= k < |bt.activeSlots| ==> bt.activeSlots[k] < |bt.slots|
    ensures |r| == |bt.activeSlots|
  {
    seq(|bt.activeSlots|, k requires 0 <= k < |bt.activeSlots| => bt.slots[bt.activeSlots[k]].clusterID)
  }

  // ---------------------------------------------------------------------
  // VBO contents

  /** BufferSubData of `data` at float index `base`: the range reads back as `data`, the rest is kept. */
  function Write(vbo: map<int, Float32>, base: int, data: seq<Float32>): (r: map<int, Float32>)
    ensures Read(r, base, |data|) == Defined(data)
    ensures forall a :: (a < base || a >= base + |data|) ==> (a in r <==> a in vbo)
    ensures forall a :: (a < base || a >= base + |data|) && a in vbo ==> r[a] == vbo[a]
    decreases |data|
  {
    if data == [] then vbo
    else
      var r := Write(vbo[base := data[0]], base + 1, data[1..]);
      assert forall k :: 0 <= k < |data| ==> Read(r, base, |data|)[k] == Defined(data)[k] by {
        forall k | 0 <= k < |data| ensures Read(r, base, |data|)[k] == Defined(data)[k] {
          if k > 0 {
            assert Read(r, base, |data|)[k] == Read(r, base + 1, |data| - 1)[k - 1];
            assert Defined(data)[k] == Defined(data[1..])[k - 1];
          }
        }
      }
      r
  }

  /** GetBufferSubData of `n` floats at `base`; None where nothing was written. */
  function Read(vbo: map<int, Float32>, base: int, n: nat): (r: seq<Option<Float32>>)
    ensures |r| == n
  {
    seq(n, k requires 0 <= k < n => if base + k in vbo then Some(vbo[base + k]) else None)
  }

  function Defined(data: seq<Float32>): (r: seq<Option<Float32>>)
    ensures |r| == |data|
    ensures forall k :: 0 <= k < |data| ==> r[k] == Some(data[k])
  {
    seq(|data|, k requires 0 <= k < |data| => Some(data[k]))
  }

  /** copySlotData's read from one VBO and write to another: `n` floats from `srcBase` to `dstBase`. */
  function CopyRange(dst: map<int, Float32>, src: map<int, Float32>, srcBase: int, dstBase: int, n: nat)
    : (r: map<int, Float32>)
    ensures Read(r, dstBase, n) == Read(src, srcBase, n)
    ensures forall a :: (a < dstBase || a >= dstBase + n) ==> (a in r <==> a in dst)
    ensures forall a :: (a < dstBase || a >= dstBase + n) && a in dst ==> r[a] == dst[a]
    decreases n
  {
    if n == 0 then dst
    else
      var dst' := if srcBase in src then dst[dstBase := src[srcBase]] else dst - {dstBase};
      var r := CopyRange(dst', src, srcBase + 1, dstBase + 1, n - 1);
      assert forall k :: 0 <= k < n ==> Read(r, dstBase, n)[k] == Read(src, srcBase, n)[k] by {
        forall k | 0 <= k < n ensures Read(r, dstBase, n)[k] == Read(src, srcBase, n)[k] {
          if k > 0 {
            assert Read(r, dstBase, n)[k] == Read(r, dstBase + 1, n - 1)[k - 1];
            assert Read(src, srcBase, n)[k] == Read(src, srcBase + 1, n - 1)[k - 1];
          }
        }
      }
      r
  }

  // ---------------------------------------------------------------------
  // What the free-list insertion does and does not keep

  /**
   * The scan resumed at (i, acc) splits the list around the returned
   * position, provided the entries before `acc` are not above `ref` and the
   * entries scanned since then all belong to lower batches, and provided the
   * list does not end below `ref`'s batch.
   */
  lemma {:induction false} InsertScanSplits(free: seq<SlotRef>, ref: SlotRef, i: nat, acc: nat)
    requires SortedRefs(free) && i <= |free| && acc <= i
    requires forall j :: 0 <= j < acc ==> RefLe(free[j], ref)
    requires forall j :: acc <= j < i ==> free[j].batch < ref.batch
    requires free == [] || free[|free| - 1].batch >= ref.batch
    ensures forall j :: 0 <= j < InsertScan(free, ref, i, acc) ==> RefLe(free[j], ref)
    ensures forall j :: InsertScan(free, ref, i, acc) <= j < |free| ==> RefLe(ref, free[j])
    decreases |free| - i
  {
    if i == |free| {
    } else if free[i].batch > ref.batch {
      forall j | i <= j < |free| ensures RefLe(ref, free[j]) {
        if j > i { assert RefLe(free[i], free[j]); }
      }
    } else if free[i].batch < ref.batch {
      InsertScanSplits(free, ref, i + 1, acc);
    } else if free[i].slotIndex > ref.slotIndex {
      forall j | i <= j < |free| ensures RefLe(ref, free[j]) {
        if j > i { assert RefLe(free[i], free[j]); }
      }
    } else {
      InsertScanSplits(free, ref, i + 1, i + 1);
    }
  }

  /**
   * addFreeSlot keeps a sorted list sorted when the list is empty or its last
   * entry is not in a lower batch than the inserted ref.
   */
  lemma AddFreeSlotKeepsSorted(free: seq<SlotRef>, ref: SlotRef)
    requires SortedRefs(free)
    requires free == [] || free[|free| - 1].batch >= ref.batch
    ensures SortedRefs(AddFreeSlot(free, ref))
  {
    InsertScanSplits(free, ref, 0, 0);
    InsertBetween(free, ref, InsertIndex(free, ref));
  }

  /** Inserting between the entries not above `ref` and those not below it keeps the order. */
  lemma InsertBetween(free: seq<SlotRef>, ref: SlotRef, k: nat)
    requires SortedRefs(free) && k <= |free|
    requires forall j :: 0 <= j < k ==> RefLe(free[j], ref)
    requires forall j :: k <= j < |free| ==> RefLe(ref, free[j])
    ensures SortedRefs(free[..k] + [ref] + free[k..])
  {
    var r := free[..k] + [ref] + free[k..];
    forall i, j | 0 <= i < j < |r| ensures RefLe(r[i], r[j]) {
      var fi := if i < k then i else i - 1;
      var fj := if j < k then j else j - 1;
      if i == k {
        assert r[j] == free[fj];
      } else if j == k {
        assert r[i] == free[fi];
      } else {
        assert r[i] == free[fi] && r[j] == free[fj];
        assert RefLe(free[fi], free[fj]);
      }
    }
  }

  /** When every entry belongs to a lower batch, the scan never moves off 0. */
  lemma {:induction false} InsertScanAllLower(free: seq<SlotRef>, ref: SlotRef, i: nat)
    requires i <= |free|
    requires forall j :: i <= j < |free| ==> free[j].batch < ref.batch
    ensures InsertScan(free, ref, i, 0) == 0
    decreases |free| - i
  {
    if i < |free| {
      InsertScanAllLower(free, ref, i + 1);
    }
  }

  /**
   * As written, addFreeSlot puts `ref` at the FRONT of a list whose entries
   * all belong to lower batches, not at the back.
   */
  lemma AddFreeSlotAllLower(free: seq<SlotRef>, ref: SlotRef)
    requires forall j :: 0 <= j < |free| ==> free[j].batch < ref.batch
    ensures AddFreeSlot(free, ref) == [ref] + free
  {
    InsertScanAllLower(free, ref, 0);
  }

  /** A sorted one-entry list becomes unsorted: the documented order is not kept. */
  lemma AddFreeSlotCanUnsort()
    ensures SortedRefs([SlotRef(1, 0)])
    ensures AddFreeSlot([SlotRef(1, 0)], SlotRef(2, 0)) == [SlotRef(2, 0), SlotRef(1, 0)]
    ensures !SortedRefs(AddFreeSlot([SlotRef(1, 0)], SlotRef(2, 0)))
  {
    AddFreeSlotAllLower([SlotRef(1, 0)], SlotRef(2, 0));
    assert !RefLe(SlotRef(2, 0), SlotRef(1, 0));
  }

  /** addFreeSlot and removeFromFreeList keep a list free of duplicates when `ref` is new. */
  lemma AddFreeSlotNoDuplicates(free: seq<SlotRef>, ref: SlotRef)
    requires NoDuplicates(free) && ref !in free
    ensures NoDuplicates(AddFreeSlot(free, ref))
  {
    var k := InsertIndex(free, ref);
    var r := AddFreeSlot(free, ref);
    assert r == free[..k] + [ref] + free[k..];
    forall i, j | 0 <= i < j < |r| ensures r[i] != r[j] {
      var fi := if i < k then i else i - 1;
      var fj := if j < k then j else j - 1;
      if i != k && j != k {
        assert r[i] == free[fi] && r[j] == free[fj];
      } else if i == k {
        assert r[j] == free[fj];
      } else {
        assert r[i] == free[fi];
      }
    }
  }

  lemma {:induction false} RemoveFromFreeListNoDuplicates(free: seq<SlotRef>, ref: SlotRef)
    requires NoDuplicates(free)
    ensures NoDuplicates(RemoveFromFreeList(free, ref))
    ensures forall x :: x in RemoveFromFreeList(free, ref) <==> x in free && x != ref
    decreases |free|
  {
    if free != [] {
      var init := free[..|free| - 1];
      assert free == init + [free[|free| - 1]];
      RemoveFromFreeListNoDuplicates(init, ref);
      assert free[|free| - 1] !in init;
    }
  }

  lemma {:induction false} PurgeBatchNoDuplicates(free: seq<SlotRef>, id: int)
    requires NoDuplicates(free)
    ensures NoDuplicates(PurgeBatch(free, id))
    ensures forall x :: x in PurgeBatch(free, id) <==> x in free && x.batch != id
    decreases |free|
  {
    if free != [] {
      var init := free[..|free| - 1];
      assert free == init + [free[|free| - 1]];
      PurgeBatchNoDuplicates(init, id);
      assert free[|free| - 1] !in init;
    }
  }

  // ---------------------------------------------------------------------
  // The integrity invariant

  /** Capacity of slot i: the per-slot capacity, or for XXL what the buffer holds past the offset. */
  function SlotCapacity(bt: Batch, i: nat): int
    requires i < |bt.slots|
  {
    if bt.bucketSize == XXL then bt.totalVertexCapacity - bt.slots[i].vertexOffset
    else VertexCapacityForBucket(bt.bucketSize)
  }

  /** Every pool keeps the size, per-slot capacity and batch width it was created with. */
  ghost predicate PoolsShaped(m: Mem)
  {
    forall b: Bucket :: m.buckets.Get(b).size == b
      && m.buckets.Get(b).vertexCapacityPerSlot == VertexCapacityForBucket(b)
      && m.buckets.Get(b).slotsPerBatch == SlotsPerBatchForBucket(b)
  }

  /**
   * An XXL batch is a single slot at offset 0; any other batch has slot i at
   * `i * capacity` and a buffer exactly as large as its slots.
   */
  ghost predicate SlotLayout(bt: Batch)
  {
    if bt.bucketSize == XXL then
      |bt.slots| == 1 && bt.slots[0].vertexOffset == 0 && bt.growthCycles == 0
    else
      && |bt.slots| >= 1
      && bt.growthCycles <= GrowthMaxCycles
      && bt.totalVertexCapacity * FloatsPerVertex * BytesPerFloat <= GrowthMaxBatchBytes
      && bt.totalVertexCapacity == VertexCapacityForBucket(bt.bucketSize) * |bt.slots|
      && (forall i :: 0 <= i < |bt.slots| ==>
            bt.slots[i].vertexOffset == VertexCapacityForBucket(bt.bucketSize) * i)
  }

  /** activeSlots lists exactly the active slots, each once. */
  ghost predicate ActiveListOk(bt: Batch)
  {
    && (forall k :: 0 <= k < |bt.activeSlots| ==>
          bt.activeSlots[k] < |bt.slots| && bt.slots[bt.activeSlots[k]].active)
    && NoDuplicates(bt.activeSlots)
    && (forall i :: 0 <= i < |bt.slots| && bt.slots[i].active ==> i in bt.activeSlots)
  }

  /** Every active slot's payload fits its capacity. */
  ghost predicate PayloadsFit(bt: Batch)
  {
    forall i :: 0 <= i < |bt.slots| && bt.slots[i].active ==> bt.slots[i].vertexCount <= SlotCapacity(bt, i)
  }

  ghost predicate BatchOk(bt: Batch)
  {
    SlotLayout(bt) && ActiveListOk(bt) && PayloadsFit(bt)
  }

  /**
   * The arena holds exactly the batches of the pools: each under its own id,
   * below nextBatchID, in the pool of its bucket, listed once.
   */
  ghost predicate ArenaOk(m: Mem)
  {
    && (forall id :: id in m.arena ==>
          && m.arena[id].id == id
          && id < m.nextBatchID
          && BatchOk(m.arena[id])
          && id in m.buckets.Get(m.arena[id].bucketSize).batches)
    && (forall b: Bucket, k :: 0 <= k < |m.buckets.Get(b).batches| ==>
          m.buckets.Get(b).batches[k] in m.arena && m.arena[m.buckets.Get(b).batches[k]].bucketSize == b)
    && (forall b: Bucket :: NoDuplicates(m.buckets.Get(b).batches))
  }

  /** A free-list entry of pool b names an inactive slot of a live batch of that pool. */
  ghost predicate FreeRefOk(m: Mem, b: Bucket, r: SlotRef)
  {
    && r.batch in m.arena
    && m.arena[r.batch].bucketSize == b
    && r.slotIndex < |m.arena[r.batch].slots|
    && !m.arena[r.batch].slots[r.slotIndex].active
  }

  ghost predicate FreeListsOk(m: Mem)
  {
    forall b: Bucket ::
      && (forall r :: r in m.buckets.Get(b).freeSlots ==> FreeRefOk(m, b, r))
      && NoDuplicates(m.buckets.Get(b).freeSlots)
  }

  /** The record of cluster c names an active slot of a live batch owned by c. */
  ghost predicate RecordOk(m: Mem, c: int, a: SlotAllocation)
  {
    && a.batch in m.arena
    && a.slotIndex < |m.arena[a.batch].slots|
    && m.arena[a.batch].slots[a.slotIndex].active
    && m.arena[a.batch].slots[a.slotIndex].clusterID == c
  }

  ghost predicate RecordsOk(m: Mem)
  {
    forall c :: c in m.clusterSlots ==> RecordOk(m, c, m.clusterSlots[c])
  }

  /** Every active slot is the one its owner's record names (ownership is keyed on `active`). */
  ghost predicate OwnersOk(m: Mem)
  {
    forall id, i :: id in m.arena && 0 <= i < |m.arena[id].slots| && m.arena[id].slots[i].active ==>
      && m.arena[id].slots[i].clusterID in m.clusterSlots
      && m.clusterSlots[m.arena[id].slots[i].clusterID].batch == id
      && m.clusterSlots[m.arena[id].slots[i].clusterID].slotIndex == i
  }

  /** The state invariant every public operation keeps. */
  ghost predicate Inv(m: Mem)
  {
    PoolsShaped(m) && ArenaOk(m) && FreeListsOk(m) && RecordsOk(m) && OwnersOk(m)
  }

  /** A fresh controller satisfies the invariant. */
  lemma EmptyMemInv()
    ensures Inv(EmptyMem())
  {
  }

  /** Distinct naturals all below n number at most n; with every index listed, exactly n. */
  lemma {:induction false} ListedIndicesCover(xs: seq<nat>, n: nat)
    requires NoDuplicates(xs)
    requires forall i :: 0 <= i < n ==> i in xs
    ensures |xs| >= n
    decreases n
  {
    if n > 0 {
      assert n - 1 in xs;
      var p :| 0 <= p < |xs| && xs[p] == n - 1;
      var rest := xs[..p] + xs[p + 1..];
      assert forall i :: 0 <= i < |rest| ==> rest[i] == (if i < p then xs[i] else xs[i + 1]);
      forall i | 0 <= i < n - 1 ensures i in rest {
        assert i in xs;
        var q :| 0 <= q < |xs| && xs[q] == i;
        if q < p { assert rest[q] == i; } else { assert rest[q - 1] == i; }
      }
      ListedIndicesCover(rest, n - 1);
    }
  }

  /** A batch whose active list is shorter than its slot list has an inactive slot. */
  lemma SpareSlotExists(bt: Batch)
    requires ActiveListOk(bt)
    requires |bt.activeSlots| < |bt.slots|
    ensures FirstInactive(bt.slots).Some?
  {
    if FirstInactive(bt.slots).None? {
      ListedIndicesCover(bt.activeSlots, |bt.slots|);
    }
  }

  // ---------------------------------------------------------------------
  // Removals and insertions on duplicate-free lists

  lemma SwapRemoveNoDuplicates(xs: seq<nat>, x: nat)
    requires NoDuplicates(xs)
    ensures NoDuplicates(SwapRemove(xs, x))
    ensures forall y :: y in SwapRemove(xs, x) <==> y in xs && y != x
  {
    match IndexOf(xs, x)
    case None =>
    case Some(p) =>
      var last := |xs| - 1;
      var r := SwapRemove(xs, x);
      assert r == xs[p := xs[last]][..last];
      assert forall a :: 0 <= a < |r| ==> r[a] == (if a == p then xs[last] else xs[a]);
      forall a, b | 0 <= a < b < |r| ensures r[a] != r[b] {
      }
      forall y ensures y in r <==> y in xs && y != x {
        if y in xs && y != x {
          var q :| 0 <= q < |xs| && xs[q] == y;
          if q == last { assert r[p] == y; } else { assert r[q] == y; }
        }
      }
  }

  lemma DeleteAtNoDuplicates<T>(xs: seq<T>, p: nat)
    requires NoDuplicates(xs) && p < |xs|
    ensures NoDuplicates(DeleteAt(xs, p))
    ensures forall y :: y in DeleteAt(xs, p) <==> y in xs && y != xs[p]
  {
    var r := DeleteAt(xs, p);
    assert forall a :: 0 <= a < |r| ==> r[a] == (if a < p then xs[a] else xs[a + 1]);
    forall y ensures y in r <==> y in xs && y != xs[p] {
      if y in xs && y != xs[p] {
        var q :| 0 <= q < |xs| && xs[q] == y;
        if q < p { assert r[q] == y; } else { assert r[q - 1] == y; }
      }
    }
  }

  lemma {:induction false} AddFreeSlotsNoDuplicates(free: seq<SlotRef>, refs: seq<SlotRef>)
    requires NoDuplicates(free) && NoDuplicates(refs)
    requires forall x :: x in refs ==> x !in free
    ensures NoDuplicates(AddFreeSlots(free, refs))
    ensures forall x :: x in AddFreeSlots(free, refs) <==> x in free || x in refs
    decreases |refs|
  {
    if refs != [] {
      var init := refs[..|refs| - 1];
      var last := refs[|refs| - 1];
      assert refs == init + [last];
      assert last !in init;
      assert NoDuplicates(init);
      AddFreeSlotsNoDuplicates(free, init);
      AddFreeSlotNoDuplicates(AddFreeSlots(free, init), last);
    }
  }
}
