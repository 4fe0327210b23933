/**
 * MemoryController (internal/memory/controller.go) and Compactor
 * (internal/memory/compactor.go) as a class: its fields are the
 * controller's pools, the batches they point at, the allocation records,
 * the pending re-upload set and the batch-id counter, and its methods run
 * the source's loops. Every method is proved to leave exactly the state the
 * matching function of MemoryPrims, MemoryOps or Compaction describes, so
 * the properties proved there (the integrity invariant, read-back of
 * uploaded floats, compaction keeping every payload) hold of the class.
 */
module MemoryControl {
  import opened Wrappers
  import opened Buckets
  import opened MemoryState
  import opened MemoryPrims
  import opened MemoryViews
  import MemoryOps
  import Compaction

  // ---------------------------------------------------------------------
  // The loops over free lists, slot arrays and batch lists

  /** addFreeSlot's scan for `insertIdx`, then the shift-insert. */
  method InsertFreeRef(free: seq<SlotRef>, ref: SlotRef) returns (r: seq<SlotRef>)
    ensures r == AddFreeSlot(free, ref)
  {
    var insertIdx := 0;
    var i := 0;
    while i < |free|
      invariant insertIdx <= i <= |free|
      invariant InsertScan(free, ref, i, insertIdx) == InsertIndex(free, ref)
    {
      if free[i].batch > ref.batch {
        insertIdx := i;
        break;
      }
      if free[i].batch < ref.batch {
        i := i + 1;
        continue;
      }
      if free[i].slotIndex > ref.slotIndex {
        insertIdx := i;
        break;
      }
      insertIdx := i + 1;
      i := i + 1;
    }
    assert insertIdx == InsertIndex(free, ref);
    if insertIdx >= |free| {
      assert free[..insertIdx] == free && free[insertIdx..] == [];
      r := free + [ref];
    } else {
      r := free[..insertIdx] + [ref] + free[insertIdx..];
    }
  }

  /** removeFromFreeList's filter loop. */
  method FilterFreeList(free: seq<SlotRef>, ref: SlotRef) returns (r: seq<SlotRef>)
    ensures r == RemoveFromFreeList(free, ref)
  {
    r := [];
    for i := 0 to |free|
      invariant r == RemoveFromFreeList(free[..i], ref)
    {
      assert free[..i + 1][..i] == free[..i];
      if free[i] == ref {
        continue;
      }
      r := r + [free[i]];
    }
    assert free[..|free|] == free;
  }

  /** deleteBatch's filter of the free list: drops every entry naming batch `id`. */
  method FilterBatchRefs(free: seq<SlotRef>, id: int) returns (r: seq<SlotRef>)
    ensures r == PurgeBatch(free, id)
  {
    r := [];
    for i := 0 to |free|
      invariant r == PurgeBatch(free[..i], id)
    {
      assert free[..i + 1][..i] == free[..i];
      if free[i].batch != id {
        r := r + [free[i]];
      }
    }
    assert free[..|free|] == free;
  }

  /** The first occurrence found by a left-to-right scan is the one IndexOf names. */
  lemma IndexOfAt<T>(xs: seq<T>, x: T, i: nat)
    requires i < |xs| && xs[i] == x && forall j :: 0 <= j < i ==> xs[j] != x
    ensures IndexOf(xs, x) == Some(i)
  {
    assert xs[i] in xs;
  }

  /** findBatchWithCapacity's loop over the pool's batches. */
  method FindWithCapacity(arena: map<int, Batch>, ids: seq<int>) returns (r: Option<int>)
    requires forall j :: 0 <= j < |ids| ==> ids[j] in arena
    ensures r == FirstWithCapacity(arena, ids, 0)
  {
    for i := 0 to |ids|
      invariant FirstWithCapacity(arena, ids, i) == FirstWithCapacity(arena, ids, 0)
    {
      if |arena[ids[i]].activeSlots| < |arena[ids[i]].slots| {
        return Some(ids[i]);
      }
    }
    return None;
  }

  /** EnsureSlot's growth loop's search: the first batch of the pool that canGrow accepts. */
  method FindGrowable(arena: map<int, Batch>, ids: seq<int>) returns (r: Option<int>)
    requires forall j :: 0 <= j < |ids| ==> ids[j] in arena
    ensures r == FirstGrowable(arena, ids, 0)
  {
    for i := 0 to |ids|
      invariant FirstGrowable(arena, ids, i) == FirstGrowable(arena, ids, 0)
    {
      if CanGrow(arena[ids[i]]) {
        return Some(ids[i]);
      }
    }
    return None;
  }

  /** growBatch's `affectedClusters`: the owner of each active slot, in active-list order. */
  method AffectedClusters(bt: Batch) returns (ids: seq<int>)
    requires ActiveInRange(bt)
    ensures ids == Affected(bt)
  {
    ids := [];
    for k := 0 to |bt.activeSlots|
      invariant ids == Affected(bt)[..k]
    {
      ids := ids + [bt.slots[bt.activeSlots[k]].clusterID];
    }
  }

  /** createBatch's slot array: one slot at offset 0 for XXL, otherwise slot i at `i * perSlot`. */
  method MakeSlots(b: Bucket, pool: Pool) returns (slots: seq<Slot>)
    ensures slots == FreshSlots(b, pool)
  {
    if b == XXL {
      return [Slot(false, 0, 0, 0)];
    }
    slots := [];
    for i := 0 to pool.slotsPerBatch
      invariant slots == NewSlots(0, i, pool.vertexCapacityPerSlot)
    {
      slots := slots + [Slot(false, 0, 0, i * pool.vertexCapacityPerSlot)];
    }
  }

  /** Adding the references to slots `lo .. i` is adding those to `lo .. i-1`, then slot i. */
  lemma NewRefsSnoc(free: seq<SlotRef>, id: int, lo: nat, i: nat)
    requires lo <= i
    ensures AddFreeSlots(free, NewRefs(id, lo, i + 1)) == AddFreeSlot(AddFreeSlots(free, NewRefs(id, lo, i)), SlotRef(id, i))
  {
    NewRefsExtend(id, lo, i);
    AddFreeSlotsSnoc(free, NewRefs(id, lo, i), SlotRef(id, i));
  }

  /** The references to slots `lo .. i` are those to `lo .. i-1` followed by slot i's. */
  lemma NewRefsExtend(id: int, lo: nat, i: nat)
    requires lo <= i
    ensures NewRefs(id, lo, i + 1) == NewRefs(id, lo, i) + [SlotRef(id, i)]
  {
  }

  /** Adding a list with one more reference at its end adds that reference last. */
  lemma AddFreeSlotsSnoc(free: seq<SlotRef>, refs: seq<SlotRef>, x: SlotRef)
    ensures AddFreeSlots(free, refs + [x]) == AddFreeSlot(AddFreeSlots(free, refs), x)
  {
    assert (refs + [x])[..|refs|] == refs;
  }

  /** The slots the growth loop leaves: the old ones, then slot k at `perSlot * k` for each new index k. */
  lemma GrownSlots(oldSlots: seq<Slot>, slots: seq<Slot>, perSlot: nat)
    requires |slots| == 2 * |oldSlots| && slots[..|oldSlots|] == oldSlots
    requires forall k :: |oldSlots| <= k < |slots| ==> slots[k] == Slot(false, 0, 0, perSlot * k)
    ensures slots == oldSlots + NewSlots(|oldSlots|, |oldSlots|, perSlot)
  {
    var n := |oldSlots|;
    var t := oldSlots + NewSlots(n, n, perSlot);
    forall k | 0 <= k < |slots| ensures slots[k] == t[k] {
      if k >= n {
        assert t[k] == NewSlots(n, n, perSlot)[k - n];
        assert n + (k - n) == k;
      } else {
        assert slots[k] == slots[..n][k];
      }
    }
  }

  /** The growth loop's addFreeSlot of new slot i, stated on the whole run of new slots so far. */
  method InsertNewRef(free0: seq<SlotRef>, free: seq<SlotRef>, id: int, lo: nat, i: nat) returns (r: seq<SlotRef>)
    requires lo <= i && free == AddFreeSlots(free0, NewRefs(id, lo, i))
    ensures r == AddFreeSlots(free0, NewRefs(id, lo, i + 1))
  {
    NewRefsSnoc(free0, id, lo, i);
    r := InsertFreeRef(free, SlotRef(id, i));
  }

  /** The growth loop's new slot i: inactive, at the running offset. */
  method AppendSlot(oldSlots: seq<Slot>, slots: seq<Slot>, perSlot: nat, i: nat, vertexOffset: nat) returns (r: seq<Slot>)
    requires |oldSlots| <= i && vertexOffset == perSlot * i
    requires |slots| == i && slots[..|oldSlots|] == oldSlots
    requires forall k :: |oldSlots| <= k < i ==> slots[k] == Slot(false, 0, 0, perSlot * k)
    ensures |r| == i + 1 && r[..|oldSlots|] == oldSlots
    ensures forall k :: |oldSlots| <= k < i + 1 ==> r[k] == Slot(false, 0, 0, perSlot * k)
  {
    r := slots + [Slot(false, 0, 0, vertexOffset)];
    assert r[..|oldSlots|] == slots[..|oldSlots|];
  }

  lemma NextOffset(perSlot: nat, i: nat)
    ensures perSlot * (i + 1) == perSlot * i + perSlot
  {
  }

  /**
   * growBatch's loop over the new half, slot side: slot i is inactive at a
   * running offset that starts at `perSlot * n` and grows by `perSlot`.
   */
  method AppendSlots(oldSlots: seq<Slot>, perSlot: nat) returns (slots: seq<Slot>)
    ensures slots == oldSlots + NewSlots(|oldSlots|, |oldSlots|, perSlot)
  {
    var n := |oldSlots|;
    slots := oldSlots;
    var vertexOffset := perSlot * n;
    for i := n to 2 * n
      invariant |slots| == i && slots[..n] == oldSlots
      invariant forall k :: n <= k < i ==> slots[k] == Slot(false, 0, 0, perSlot * k)
      invariant vertexOffset == perSlot * i
    {
      slots := AppendSlot(oldSlots, slots, perSlot, i, vertexOffset);
      NextOffset(perSlot, i);
      vertexOffset := vertexOffset + perSlot;
    }
    GrownSlots(oldSlots, slots, perSlot);
  }

  /** growBatch's loop over the new half, free-list side: slots n .. 2n-1 go through addFreeSlot in index order. */
  method AddNewRefs(free0: seq<SlotRef>, id: int, n: nat) returns (free: seq<SlotRef>)
    ensures free == AddFreeSlots(free0, NewRefs(id, n, 2 * n))
  {
    free := free0;
    assert NewRefs(id, n, n) == [];
    for i := n to 2 * n
      invariant free == AddFreeSlots(free0, NewRefs(id, n, i))
    {
      free := InsertNewRef(free0, free, id, n, i);
    }
  }

  /** ScanForCompaction's inner loop over one pool: the batches with slots and utilisation below 0.25, in order. */
  method PoolScan(arena: map<int, Batch>, ids: seq<int>) returns (r: seq<int>)
    requires forall j :: 0 <= j < |ids| ==> ids[j] in arena
    ensures r == Compaction.PoolCandidates(arena, ids)
  {
    r := [];
    for i := 0 to |ids|
      invariant r + Compaction.PoolCandidates(arena, ids[i..]) == Compaction.PoolCandidates(arena, ids)
    {
      PoolScanStep(arena, ids, i, r);
      var bt := arena[ids[i]];
      if |bt.slots| == 0 {
        continue;
      }
      if 4 * |bt.activeSlots| < |bt.slots| {
        r := r + [ids[i]];
      }
    }
  }

  /** One step of PoolScan: the candidates from position i on, with ids[i] taken or skipped. */
  lemma PoolScanStep(arena: map<int, Batch>, ids: seq<int>, i: nat, r: seq<int>)
    requires forall j :: 0 <= j < |ids| ==> ids[j] in arena
    requires i < |ids|
    ensures Compaction.IsCandidate(arena[ids[i]]) ==>
      r + Compaction.PoolCandidates(arena, ids[i..]) == (r + [ids[i]]) + Compaction.PoolCandidates(arena, ids[i + 1..])
    ensures !Compaction.IsCandidate(arena[ids[i]]) ==>
      r + Compaction.PoolCandidates(arena, ids[i..]) == r + Compaction.PoolCandidates(arena, ids[i + 1..])
  {
    assert ids[i..][1..] == ids[i + 1..];
    ConcatAssoc(r, [ids[i]], Compaction.PoolCandidates(arena, ids[i + 1..]));
  }

  lemma ConcatAssoc<T>(a: seq<T>, b: seq<T>, c: seq<T>)
    ensures (a + b) + c == a + (b + c)
  {
  }

  /** One turn of Draw's loop: the pool at position k contributes its calls, then the later pools follow. */
  lemma DrawPoolsStep(m: Mem, k: nat, calls: seq<DrawCall>)
    requires Measurable(m) && k < |BucketOrder|
    ensures calls + DrawPools(m, BucketOrder[k..])
         == (calls + DrawList(m.arena, m.buckets.Get(BucketOrder[k]).batches)) + DrawPools(m, BucketOrder[k + 1..])
  {
    assert BucketOrder[k..][1..] == BucketOrder[k + 1..];
    ConcatAssoc(calls, DrawList(m.arena, m.buckets.Get(BucketOrder[k]).batches), DrawPools(m, BucketOrder[k + 1..]));
  }

  /** CompactBatch's target loop: the other batches of the pool with a spare slot, in list order. */
  method TargetScan(arena: map<int, Batch>, ids: seq<int>, src: int) returns (targets: seq<int>)
    requires forall j :: 0 <= j < |ids| ==> ids[j] in arena
    ensures targets == Compaction.Targets(arena, ids, src)
  {
    targets := [];
    for i := 0 to |ids|
      invariant targets + Compaction.Targets(arena, ids[i..], src) == Compaction.Targets(arena, ids, src)
    {
      TargetScanStep(arena, ids, src, i, targets);
      if ids[i] != src && |arena[ids[i]].activeSlots| < |arena[ids[i]].slots| {
        targets := targets + [ids[i]];
      }
    }
  }

  /** One step of TargetScan: the targets from position i on, with ids[i] taken or skipped. */
  lemma TargetScanStep(arena: map<int, Batch>, ids: seq<int>, src: int, i: nat, r: seq<int>)
    requires forall j :: 0 <= j < |ids| ==> ids[j] in arena
    requires i < |ids|
    ensures ids[i] != src && |arena[ids[i]].activeSlots| < |arena[ids[i]].slots| ==>
      r + Compaction.Targets(arena, ids[i..], src) == (r + [ids[i]]) + Compaction.Targets(arena, ids[i + 1..], src)
    ensures !(ids[i] != src && |arena[ids[i]].activeSlots| < |arena[ids[i]].slots|) ==>
      r + Compaction.Targets(arena, ids[i..], src) == r + Compaction.Targets(arena, ids[i + 1..], src)
  {
    assert ids[i..][1..] == ids[i + 1..];
    ConcatAssoc(r, [ids[i]], Compaction.Targets(arena, ids[i + 1..], src));
  }

  /** copySlotData's `oldSlotIndex` loop: the first active-list position whose slot cluster c owns. */
  method OwnerIndex(bt: Batch, c: int) returns (pos: Option<nat>)
    requires ActiveInRange(bt)
    ensures pos == Compaction.OwnerPos(bt, c, 0)
  {
    for k := 0 to |bt.activeSlots|
      invariant Compaction.OwnerPos(bt, c, k) == Compaction.OwnerPos(bt, c, 0)
    {
      if bt.slots[bt.activeSlots[k]].clusterID == c {
        return Some(k);
      }
    }
    return None;
  }

  /** Draw's inner loop for one batch: the int32 first vertex and count of each active slot. */
  method BatchDrawCall(id: int, bt: Batch) returns (d: DrawCall)
    requires ActiveInRange(bt)
    ensures d == CallOf(id, bt)
  {
    var firsts := new int[|bt.activeSlots|];
    var counts := new int[|bt.activeSlots|];
    for j := 0 to |bt.activeSlots|
      invariant forall q :: 0 <= q < j ==>
        firsts[q] == Int32(bt.slots[bt.activeSlots[q]].vertexOffset) &&
        counts[q] == Int32(bt.slots[bt.activeSlots[q]].vertexCount)
    {
      var slot := bt.slots[bt.activeSlots[j]];
      firsts[j] := Int32(slot.vertexOffset);
      counts[j] := Int32(slot.vertexCount);
    }
    d := DrawCall(id, firsts[..], counts[..]);
  }

  /** Draw's loop over one pool's batches, skipping those with no active slot. */
  method PoolDrawCalls(arena: map<int, Batch>, ids: seq<int>) returns (calls: seq<DrawCall>)
    requires Countable(arena, ids)
    ensures calls == DrawList(arena, ids)
  {
    calls := [];
    for i := 0 to |ids|
      invariant Countable(arena, ids[i..])
      invariant calls + DrawList(arena, ids[i..]) == DrawList(arena, ids)
    {
      assert ids[i..][1..] == ids[i + 1..];
      var bt := arena[ids[i]];
      if |bt.activeSlots| == 0 {
        continue;
      }
      var d := BatchDrawCall(ids[i], bt);
      calls := calls + [d];
    }
    assert ids[|ids|..] == [];
  }

  /** The counters updateStats adds up: all but the cluster and free-slot counts. */
  function Summed(st: BucketSizeStats): BucketSizeStats
  {
    st.(clusterCount := 0, freeSlots := 0)
  }

  /**
   * One turn of updateStats' loop over the pools: the pool's
   * calculateStats is kept under its bucket, and its batch, byte, vertex,
   * slot and active counts are added to the totals.
   */
  method AddPoolStats(m: Mem, k: nat, t: BucketSizeStats, perBucket: map<Bucket, BucketSizeStats>)
    returns (t': BucketSizeStats, perBucket': map<Bucket, BucketSizeStats>)
    requires Measurable(m) && k < |BucketOrder|
    requires Plus(t, Summed(SumPools(m, BucketOrder[k..]))) == Summed(SumPools(m, BucketOrder))
    requires forall b :: b in perBucket <==> Rank(b) < k
    requires forall b :: b in perBucket ==> perBucket[b] == PoolStats(m.arena, m.buckets.Get(b))
    ensures Plus(t', Summed(SumPools(m, BucketOrder[k + 1..]))) == Summed(SumPools(m, BucketOrder))
    ensures forall b :: b in perBucket' <==> Rank(b) < k + 1
    ensures forall b :: b in perBucket' ==> perBucket'[b] == PoolStats(m.arena, m.buckets.Get(b))
  {
    var b := BucketOrder[k];
    var bucketStats := CalculateStats(m.arena, m.buckets.Get(b));
    t' := Plus(t, Summed(bucketStats));
    SumPoolsStep(m, k, t);
    perBucket' := perBucket[b := bucketStats];
    PerBucketStep(m, k, perBucket);
  }

  lemma SumPoolsStep(m: Mem, k: nat, t: BucketSizeStats)
    requires Measurable(m) && k < |BucketOrder|
    requires Plus(t, Summed(SumPools(m, BucketOrder[k..]))) == Summed(SumPools(m, BucketOrder))
    ensures Plus(Plus(t, Summed(PoolStats(m.arena, m.buckets.Get(BucketOrder[k])))), Summed(SumPools(m, BucketOrder[k + 1..])))
         == Summed(SumPools(m, BucketOrder))
  {
    assert BucketOrder[k..][1..] == BucketOrder[k + 1..];
  }

  lemma PerBucketStep(m: Mem, k: nat, perBucket: map<Bucket, BucketSizeStats>)
    requires Measurable(m) && k < |BucketOrder|
    requires forall b :: b in perBucket <==> Rank(b) < k
    requires forall b :: b in perBucket ==> perBucket[b] == PoolStats(m.arena, m.buckets.Get(b))
    ensures forall b :: b in perBucket[BucketOrder[k] := PoolStats(m.arena, m.buckets.Get(BucketOrder[k]))] <==> Rank(b) < k + 1
    ensures forall b :: b in perBucket ==> perBucket[b] == PoolStats(m.arena, m.buckets.Get(b))
  {
    BucketOrderByRank();
  }

  /** updateStats' loop over the pools, in size order. */
  method PoolTotals(m: Mem) returns (t: BucketSizeStats, perBucket: map<Bucket, BucketSizeStats>)
    requires Measurable(m)
    ensures t == Summed(SumPools(m, BucketOrder))
    ensures perBucket == PerBucket(m)
  {
    BucketOrderByRank();
    t := NoStats;
    perBucket := map[];
    for k := 0 to |BucketOrder|
      invariant Plus(t, Summed(SumPools(m, BucketOrder[k..]))) == Summed(SumPools(m, BucketOrder))
      invariant forall b :: b in perBucket <==> Rank(b) < k
      invariant forall b :: b in perBucket ==> perBucket[b] == PoolStats(m.arena, m.buckets.Get(b))
    {
      t, perBucket := AddPoolStats(m, k, t, perBucket);
    }
    TotalsDone(m, t);
    PerBucketDone(m, perBucket);
  }

  lemma TotalsDone(m: Mem, t: BucketSizeStats)
    requires Measurable(m)
    requires Plus(t, Summed(SumPools(m, BucketOrder[|BucketOrder|..]))) == Summed(SumPools(m, BucketOrder))
    ensures t == Summed(SumPools(m, BucketOrder))
  {
    assert BucketOrder[|BucketOrder|..] == [];
  }

  lemma PerBucketDone(m: Mem, perBucket: map<Bucket, BucketSizeStats>)
    requires Measurable(m)
    requires forall b :: b in perBucket <==> Rank(b) < |BucketOrder|
    requires forall b :: b in perBucket ==> perBucket[b] == PoolStats(m.arena, m.buckets.Get(b))
    ensures perBucket == PerBucket(m)
  {
    BucketOrderByRank();
    PerBucketCovers(m);
    assert perBucket.Keys == PerBucket(m).Keys;
  }

  // ---------------------------------------------------------------------
  // The controller

  /** ValidateClusterIntegrity's search of a pool's batch list for a batch id. */
  method ListedIn(ids: seq<int>, id: int) returns (found: bool)
    ensures found <==> id in ids
  {
    found := false;
    for i := 0 to |ids|
      invariant !found <==> id !in ids[..i]
    {
      if ids[i] == id {
        return true;
      }
    }
  }

  /** BucketPool.calculateStats: one pass over the batches, and over each batch's active slots. */
  method CalculateStats(arena: map<int, Batch>, p: Pool) returns (st: BucketSizeStats)
    requires Countable(arena, p.batches)
    ensures st == PoolStats(arena, p)
  {
    st := BucketSizeStats(0, |p.batches|, 0, 0, 0, |p.freeSlots|, 0, 0);
    var ids := p.batches;
    for i := 0 to |ids|
      invariant Countable(arena, ids[i..])
      invariant Plus(st, Tally(arena, ids[i..])) == PoolStats(arena, p)
    {
      TallyStep(arena, ids, i, st);
      ghost var st0 := st;
      var bt := arena[ids[i]];
      st := st.(gpuBytes := st.gpuBytes + bt.totalVertexCapacity * FloatsPerVertex * BytesPerFloat);
      st := st.(totalSlots := st.totalSlots + |bt.slots|, activeSlots := st.activeSlots + |bt.activeSlots|);
      if |bt.activeSlots| > 0 {
        st := st.(activeBatches := st.activeBatches + 1);
      }
      ghost var before := st;
      for j := 0 to |bt.activeSlots|
        invariant st.vertices + VertexSum(bt.slots, bt.activeSlots[j..]) == before.vertices + VertexSum(bt.slots, bt.activeSlots)
        invariant st == before.(vertices := st.vertices, clusterCount := before.clusterCount + j)
      {
        assert bt.activeSlots[j..][1..] == bt.activeSlots[j + 1..];
        var slot := bt.slots[bt.activeSlots[j]];
        st := st.(vertices := st.vertices + slot.vertexCount, clusterCount := st.clusterCount + 1);
      }
      assert bt.activeSlots[|bt.activeSlots|..] == [];
      assert st == Plus(st0, BatchStats(bt));
    }
    assert ids[|ids|..] == [];
  }

  /** One step of CalculateStats' batch loop: batch ids[i]'s share moves from the tally into the counters. */
  lemma TallyStep(arena: map<int, Batch>, ids: seq<int>, i: nat, st: BucketSizeStats)
    requires Countable(arena, ids) && i < |ids|
    ensures Countable(arena, ids[i + 1..])
    ensures Plus(st, Tally(arena, ids[i..])) == Plus(Plus(st, BatchStats(arena[ids[i]])), Tally(arena, ids[i + 1..]))
  {
    assert ids[i..][1..] == ids[i + 1..];
  }

  // ---------------------------------------------------------------------
  // The controller

  class MemoryController {
    var buckets: Pools
    var arena: map<int, Batch>
    var clusterSlots: map<int, SlotAllocation>
    var clustersNeedingReupload: set<int>
    var nextBatchID: int

    /** The controller's state as a value of the model. */
    function State(): Mem
      reads this
    {
      Mem(buckets, arena, clusterSlots, clustersNeedingReupload, nextBatchID)
    }

    ghost predicate Valid()
      reads this
    {
      Inv(State())
    }

    method SetState(m: Mem)
      modifies this
      ensures State() == m
    {
      buckets, arena, clusterSlots, clustersNeedingReupload, nextBatchID :=
        m.buckets, m.arena, m.clusterSlots, m.reupload, m.nextBatchID;
    }

    /** NewMemoryController: five empty pools, no batches, no records. */
    constructor()
      ensures State() == EmptyMem() && Valid()
    {
      buckets := EmptyMem().buckets;
      arena := map[];
      clusterSlots := map[];
      clustersNeedingReupload := {};
      nextBatchID := 0;
      EmptyMemInv();
    }

    /** BucketPool.findFreeSlot: pops the head of the pool's free list. */
    method FindFreeSlot(b: Bucket) returns (ref: Option<SlotRef>)
      modifies this
      ensures (State(), ref) == FindFreeSlotM(old(State()), b)
    {
      var free := buckets.Get(b).freeSlots;
      if |free| == 0 {
        return None;
      }
      ref := Some(free[0]);
      buckets := buckets.Set(b, buckets.Get(b).(freeSlots := free[1..]));
    }

    /** BucketPool.addFreeSlot on pool b. */
    method AddFreeSlot(b: Bucket, ref: SlotRef)
      modifies this
      ensures State() == WithFree(old(State()), b, MemoryState.AddFreeSlot(old(buckets).Get(b).freeSlots, ref))
    {
      var free := InsertFreeRef(buckets.Get(b).freeSlots, ref);
      buckets := buckets.Set(b, buckets.Get(b).(freeSlots := free));
    }

    /** BucketPool.removeFromFreeList on pool b. */
    method RemoveFromFreeList(b: Bucket, ref: SlotRef)
      modifies this
      ensures State() == WithFree(old(State()), b, MemoryState.RemoveFromFreeList(old(buckets).Get(b).freeSlots, ref))
    {
      var free := FilterFreeList(buckets.Get(b).freeSlots, ref);
      buckets := buckets.Set(b, buckets.Get(b).(freeSlots := free));
    }

    /** BucketPool.findBatchWithCapacity on pool b. */
    method FindBatchWithCapacity(b: Bucket) returns (r: Option<int>)
      requires BatchesResolve(State(), b)
      ensures r == MemoryPrims.FindBatchWithCapacity(State(), b)
    {
      r := FindWithCapacity(arena, buckets.Get(b).batches);
    }

    /** createBatch (GL calls left out): a new empty batch under the next id, appended to its pool. */
    method CreateBatch(b: Bucket, vertexCount: nat) returns (id: int)
      modifies this
      ensures (State(), id) == CreateBatchM(old(State()), b, vertexCount)
    {
      var pool := buckets.Get(b);
      var total := if b == XXL then vertexCount else pool.vertexCapacityPerSlot * pool.slotsPerBatch;
      var slots := MakeSlots(b, pool);
      id := nextBatchID;
      var bt := Batch(id, total, slots, [], b, 0, total, map[]);
      nextBatchID := nextBatchID + 1;
      buckets := buckets.Set(b, pool.(batches := pool.batches + [id]));
      arena := arena[id := bt];
    }

    /**
     * Batch.allocateSlotInBatch on batch `id`: claims the first inactive slot
     * and drops it from the pool's free list; errors when all are active.
     */
    method AllocateSlotInBatch(id: int, clusterID: int, vertexCount: nat) returns (r: Result<nat, Error>)
      requires id in arena && arena[id].id == id
      modifies this
      ensures (State(), r) == AllocateSlotInBatchM(old(State()), id, clusterID, vertexCount)
    {
      var bt := arena[id];
      for i := 0 to |bt.slots|
        invariant forall j :: 0 <= j < i ==> bt.slots[j].active
        invariant State() == old(State())
      {
        if !bt.slots[i].active {
          assert FirstInactive(bt.slots) == Some(i);
          arena := arena[id := Claim(bt, i, clusterID, vertexCount)];
          RemoveFromFreeList(bt.bucketSize, SlotRef(id, i));
          return Ok(i);
        }
      }
      assert FirstInactive(bt.slots) == None;
      return Err(NoAvailableSlot);
    }

    /** Batch.freeSlot on batch `id`: clears the slot and swap-removes it from the active list. */
    method FreeSlot(id: int, slotIndex: int)
      requires id in arena && arena[id].id == id
      modifies this
      ensures State() == FreeSlotM(old(State()), id, slotIndex)
    {
      var bt := arena[id];
      if slotIndex < 0 || slotIndex >= |bt.slots| {
        assert arena[id := bt] == arena;
        return;
      }
      var slots := bt.slots[slotIndex := Cleared(bt.slots[slotIndex])];
      var active := bt.activeSlots;
      var i := 0;
      while i < |active|
        invariant 0 <= i <= |active| && active == bt.activeSlots
        invariant forall j :: 0 <= j < i ==> active[j] != slotIndex
      {
        if active[i] == slotIndex {
          IndexOfAt(active, slotIndex, i);
          var lastIdx := |active| - 1;
          active := active[i := active[lastIdx]][..lastIdx];
          break;
        }
        i := i + 1;
      }
      assert active == SwapRemove(bt.activeSlots, slotIndex);
      arena := arena[id := bt.(slots := slots, activeSlots := active)];
    }

    /** Batch.growBatch's slot and free-list updates, with the GL buffer swap left out. */
    method GrowBatch(id: int) returns (r: Result<seq<int>, Error>)
      requires id in arena && arena[id].id == id && ActiveInRange(arena[id])
      modifies this
      ensures (State(), r) == GrowBatchM(old(State()), id)
    {
      var bt := arena[id];
      if !CanGrow(bt) {
        return Err(CannotGrow);
      }
      var affected := AffectedClusters(bt);
      var pool := buckets.Get(bt.bucketSize);
      var slots := AppendSlots(bt.slots, pool.vertexCapacityPerSlot);
      var free := AddNewRefs(pool.freeSlots, id, |bt.slots|);
      arena := arena[id := bt.(totalVertexCapacity := bt.totalVertexCapacity * 2,
                               growthCycles := bt.growthCycles + 1,
                               slots := slots,
                               vbo := map[])];
      buckets := buckets.Set(bt.bucketSize, pool.(freeSlots := free));
      return Ok(affected);
    }

    /** markClustersForReupload: every id of the list joins the pending set. */
    method MarkClustersForReupload(ids: seq<int>)
      modifies this
      ensures State() == MarkReupload(old(State()), ids)
    {
      for k := 0 to |ids|
        invariant clustersNeedingReupload == old(clustersNeedingReupload) + set x | x in ids[..k]
        invariant State() == old(State()).(reupload := clustersNeedingReupload)
      {
        assert ids[..k + 1] == ids[..k] + [ids[k]];
        clustersNeedingReupload := clustersNeedingReupload + {ids[k]};
      }
      assert ids[..|ids|] == ids;
    }

    /**
     * GetAndClearClustersNeedingReupload: the pending ids, each once and in
     * no particular order (Go ranges over a map), after which the set is empty.
     */
    method GetAndClearClustersNeedingReupload() returns (ids: seq<int>)
      modifies this
      ensures (State(), set x | x in ids) == TakeReupload(old(State()))
      ensures NoDuplicates(ids) && |ids| == |old(clustersNeedingReupload)|
    {
      ids := [];
      var rest := clustersNeedingReupload;
      while rest != {}
        invariant (set x | x in ids) + rest == old(clustersNeedingReupload)
        invariant forall x :: x in ids ==> x !in rest
        invariant NoDuplicates(ids) && |ids| + |rest| == |old(clustersNeedingReupload)|
        invariant State() == old(State())
        decreases |rest|
      {
        HasMember(rest);
        var x :| x in rest;
        ids := ids + [x];
        rest := rest - {x};
      }
      clustersNeedingReupload := {};
    }

    /** uploadVertexData: the floats are written at the slot's offset in the batch's buffer. */
    method UploadVertexData(id: int, slotIndex: nat, data: seq<Float32>)
      requires id in arena && slotIndex < |arena[id].slots|
      modifies this
      ensures State() == old(State()).(arena := old(arena)[id := Upload(old(arena)[id], slotIndex, data)])
    {
      arena := arena[id := Upload(arena[id], slotIndex, data)];
    }

    /** updateSlotInPlace: the slot takes the new count and the new floats. */
    method UpdateSlotInPlace(a: SlotAllocation, data: seq<Float32>, vertexCount: nat)
      requires a.batch in arena && arena[a.batch].id == a.batch && a.slotIndex < |arena[a.batch].slots|
      modifies this
      ensures State() == UpdateInPlaceM(old(State()), a, data, vertexCount)
    {
      var bt := arena[a.batch];
      arena := arena[a.batch := bt.(slots := bt.slots[a.slotIndex := bt.slots[a.slotIndex].(vertexCount := vertexCount)])];
      UploadVertexData(a.batch, a.slotIndex, data);
    }

    /** RemoveCluster: frees the cluster's slot, lists it as free and drops the record. */
    method RemoveCluster(c: int) returns (r: Outcome<Error>)
      requires c in clusterSlots ==> clusterSlots[c].batch in arena && arena[clusterSlots[c].batch].id == clusterSlots[c].batch
      modifies this
      ensures (State(), r) == RemoveClusterM(old(State()), c)
      ensures old(Valid()) ==> Valid()
    {
      if Valid() {
        RemoveClusterKeepsInv(State(), c);
      }
      if c !in clusterSlots {
        return Fail(NotFound);
      }
      var a := clusterSlots[c];
      FreeSlot(a.batch, a.slotIndex);
      var b := arena[a.batch].bucketSize;
      AddFreeSlot(b, SlotRef(a.batch, a.slotIndex));
      clusterSlots := clusterSlots - {c};
      return Pass;
    }

    /** deleteBatch: refuses a batch with active slots, else unlinks it from its pool and its free list. */
    method DeleteBatch(id: int) returns (r: Outcome<Error>)
      requires id in arena && arena[id].id == id
      modifies this
      ensures (State(), r) == DeleteBatchM(old(State()), id)
      ensures old(Valid()) ==> Valid()
    {
      if Valid() {
        DeleteBatchKeepsInv(State(), id);
      }
      var bt := arena[id];
      if |bt.activeSlots| > 0 {
        return Fail(BatchNotEmpty);
      }
      var pool := buckets.Get(bt.bucketSize);
      var batches := pool.batches;
      var i := 0;
      while i < |batches|
        invariant 0 <= i <= |batches| && batches == pool.batches
        invariant forall j :: 0 <= j < i ==> batches[j] != id
      {
        if batches[i] == id {
          IndexOfAt(batches, id, i);
          batches := batches[..i] + batches[i + 1..];
          break;
        }
        i := i + 1;
      }
      assert batches == match IndexOf(pool.batches, id)
        case None => pool.batches
        case Some(p) => DeleteAt(pool.batches, p);
      var free := FilterBatchRefs(pool.freeSlots, id);
      buckets := buckets.Set(bt.bucketSize, pool.(batches := batches, freeSlots := free));
      arena := arena - {id};
      return Pass;
    }

    /**
     * EnsureSlot's free-list loop: pops entries until one is usable; an XXL
     * entry whose slot is too small for the payload is dropped and the loop goes on.
     */
    method PopFreeSlot(b: Bucket, vertexCount: nat) returns (ref: Option<SlotRef>)
      requires FreeResolves(State(), b)
      modifies this
      ensures (State(), ref) == PopFree(old(State()), b, vertexCount)
    {
      while true
        invariant FreeResolves(State(), b)
        invariant PopFree(State(), b, vertexCount) == PopFree(old(State()), b, vertexCount)
        decreases |buckets.Get(b).freeSlots|
      {
        ghost var m := State();
        var free := FindFreeSlot(b);
        if free.None? {
          return None;
        }
        assert free.value == m.buckets.Get(b).freeSlots[0];
        var bt := arena[free.value.batch];
        if b == XXL && vertexCount > bt.totalVertexCapacity - bt.slots[free.value.slotIndex].vertexOffset {
          assert FreeResolves(State(), b) by {
            forall x | x in buckets.Get(b).freeSlots ensures x in m.buckets.Get(b).freeSlots {
              assert m.buckets.Get(b).freeSlots == [free.value] + buckets.Get(b).freeSlots;
            }
          }
          continue;
        }
        return free;
      }
    }

    /**
     * EnsureSlot's growth loop: the first batch of the pool that canGrow
     * accepts is grown and the clusters it held are queued for re-upload.
     */
    method GrowFirstBatch(b: Bucket) returns (grown: Option<int>)
      requires Valid() && b != XXL
      modifies this
      ensures (State(), grown) == MemoryOps.GrowFirst(old(State()), b)
    {
      InvResolves(State(), b);
      var found := FindGrowable(arena, buckets.Get(b).batches);
      if found.None? {
        return None;
      }
      var id := found.value;
      assert buckets.Get(b).batches[0..] == buckets.Get(b).batches;
      assert id in arena && arena[id].id == id && ActiveInRange(arena[id]) by {
        var j :| 0 <= j < |buckets.Get(b).batches| && buckets.Get(b).batches[j] == id;
      }
      var res := GrowBatch(id);
      MarkClustersForReupload(res.value);
      return Some(id);
    }

    /**
     * EnsureSlot's choice when the free list is empty: a batch with a spare
     * slot, else (not XXL) a batch grown in place, else a new batch.
     */
    method PickBatch(b: Bucket, vertexCount: nat) returns (id: int)
      requires Valid()
      modifies this
      ensures (State(), id) == MemoryOps.PickBatch(old(State()), b, vertexCount)
    {
      InvResolves(State(), b);
      var found := FindBatchWithCapacity(b);
      if found.Some? {
        return found.value;
      }
      var grown: Option<int> := None;
      if b != XXL {
        grown := GrowFirstBatch(b);
      }
      if grown.Some? {
        return grown.value;
      }
      id := CreateBatch(b, vertexCount);
    }

    /** PickBatch, then the XXL check: a batch too small for the payload is passed over for a new one. */
    method ChooseBatch(b: Bucket, vertexCount: nat) returns (id: int)
      requires Valid()
      modifies this
      ensures (State(), id) == MemoryOps.ChooseBatch(old(State()), b, vertexCount)
    {
      id := PickBatch(b, vertexCount);
      if b == XXL && vertexCount > arena[id].totalVertexCapacity {
        id := CreateBatch(b, vertexCount);
      }
    }

    /**
     * EnsureSlot once the cluster has no slot: a usable free-list entry is
     * claimed, else ChooseBatch and allocateSlotInBatch pick one; then the
     * payload is uploaded and the allocation recorded (`slot_selected`).
     */
    method AllocateFresh(c: int, b: Bucket, vertexCount: nat, data: seq<Float32>) returns (r: Outcome<Error>)
      requires Valid() && c !in clusterSlots && b == SelectBucket(vertexCount)
      requires vertexCount == |data| / FloatsPerVertex
      modifies this
      ensures (State(), r) == MemoryOps.AllocateFresh(old(State()), c, b, vertexCount, data)
    {
      ghost var m0 := State();
      InvResolves(State(), b);
      var ref := PopFreeSlot(b, vertexCount);
      var id, slotIndex;
      if ref.Some? {
        id, slotIndex := ref.value.batch, ref.value.slotIndex;
        assert ref.value in m0.buckets.Get(b).freeSlots;
        ClaimFreeSlot(id, slotIndex, c, vertexCount);
      } else {
        FreeSublistKeepsInv(m0, b, []);
        id := ChooseBatch(b, vertexCount);
        assert arena[id].id == id;
        var res := AllocateSlotInBatch(id, c, vertexCount);
        slotIndex := res.value;
      }
      RecordSlot(id, slotIndex, c, vertexCount, data);
      return Pass;
    }

    /** The claim of a popped free-list entry (EnsureSlot's allocateSlot on it). */
    method ClaimFreeSlot(id: int, slotIndex: nat, c: int, vertexCount: nat)
      requires id in arena && slotIndex < |arena[id].slots|
      modifies this
      ensures State() == MemoryOps.ClaimSlot(old(State()), id, slotIndex, c, vertexCount)
    {
      arena := arena[id := Claim(arena[id], slotIndex, c, vertexCount)];
    }

    /** `slot_selected`: uploads the payload into the slot and records the allocation. */
    method RecordSlot(id: int, slotIndex: nat, c: int, vertexCount: nat, data: seq<Float32>)
      requires id in arena && slotIndex < |arena[id].slots|
      modifies this
      ensures State() == MemoryOps.StoreRecord(old(State()), id, slotIndex, c, vertexCount, data)
    {
      UploadVertexData(id, slotIndex, data);
      clusterSlots := clusterSlots[c := SlotAllocation(id, slotIndex, vertexCount)];
    }

    /**
     * EnsureSlot: rejects an empty payload and one that is not whole vertices;
     * updates in place when the cluster's slot can hold the new count;
     * otherwise removes the cluster and allocates afresh in the payload's bucket.
     */
    method EnsureSlot(c: int, data: seq<Float32>) returns (r: Outcome<Error>)
      requires Valid()
      modifies this
      ensures (State(), r) == MemoryOps.EnsureSlotM(old(State()), c, data)
      ensures Valid()
    {
      if |data| == 0 {
        return Fail(EmptyPayload);
      }
      if |data| % FloatsPerVertex != 0 {
        return Fail(NotStrideMultiple);
      }
      var vertexCount := |data| / FloatsPerVertex;
      var b := SelectBucket(vertexCount);
      if c in clusterSlots {
        var a := clusterSlots[c];
        assert RecordOk(State(), c, a);
        if FitsInPlace(State(), a, vertexCount) {
          UpdateSlotInPlace(a, data, vertexCount);
          return Pass;
        }
        RemoveClusterKeepsInv(State(), c);
        var _ := RemoveCluster(c);
      }
      r := AllocateFresh(c, b, vertexCount, data);
    }

    // -------------------------------------------------------------------
    // Compaction (the Compactor's methods take the controller; here they are its methods)

    /**
     * Compactor.ScanForCompaction: the batches of every pool, S to XXL, whose
     * utilisation is below 0.25, then ordered by ascending utilisation.
     */
    method ScanForCompaction() returns (candidates: seq<int>)
      requires Compaction.Listed(State())
      ensures candidates == Compaction.ScanForCompaction(State())
    {
      candidates := [];
      for k := 0 to |BucketOrder|
        invariant candidates + Compaction.Collect(State(), BucketOrder[k..]) == Compaction.Collect(State(), BucketOrder)
      {
        var here := PoolScan(arena, buckets.Get(BucketOrder[k]).batches);
        CollectStep(State(), k, candidates, here);
        candidates := candidates + here;
      }
      CollectDone(State(), candidates);
      candidates := Compaction.SortByUtil(arena, candidates);
    }

    lemma CollectStep(m: Mem, k: nat, candidates: seq<int>, here: seq<int>)
      requires Compaction.Listed(m) && k < |BucketOrder|
      requires candidates + Compaction.Collect(m, BucketOrder[k..]) == Compaction.Collect(m, BucketOrder)
      requires here == Compaction.PoolCandidates(m.arena, m.buckets.Get(BucketOrder[k]).batches)
      ensures (candidates + here) + Compaction.Collect(m, BucketOrder[k + 1..]) == Compaction.Collect(m, BucketOrder)
    {
      assert BucketOrder[k..][1..] == BucketOrder[k + 1..];
      assert Compaction.Collect(m, BucketOrder[k..]) == here + Compaction.Collect(m, BucketOrder[k + 1..]);
      ConcatAssoc(candidates, here, Compaction.Collect(m, BucketOrder[k + 1..]));
    }

    lemma CollectDone(m: Mem, candidates: seq<int>)
      requires Compaction.Listed(m)
      requires candidates + Compaction.Collect(m, BucketOrder[|BucketOrder|..]) == Compaction.Collect(m, BucketOrder)
      ensures candidates == Compaction.Collect(m, BucketOrder)
    {
      assert Compaction.Collect(m, BucketOrder[|BucketOrder|..]) == [];
    }

    /**
     * copySlotData: claims a slot of the target for the source slot's cluster,
     * copies the floats, repoints the record, clears the source slot, drops
     * its active-list entry and lists it as free.
     */
    method CopySlotData(src: int, i: nat, tgt: int) returns (r: Outcome<Error>)
      requires Valid() && src in arena && tgt in arena && src != tgt && i < |arena[src].slots|
      modifies this
      ensures (State(), r) == Compaction.CopySlotDataM(old(State()), src, i, tgt)
    {
      var S := arena[src];
      var s := S.slots[i];
      assert arena[tgt].id == tgt && BatchOk(S);
      var res := AllocateSlotInBatch(tgt, s.clusterID, s.vertexCount);
      if res.Err? {
        return Fail(res.error);
      }
      var ti := res.value;
      var T := arena[tgt];
      arena := arena[tgt := T.(vbo := CopyRange(T.vbo, S.vbo, s.vertexOffset * FloatsPerVertex,
                                                T.slots[ti].vertexOffset * FloatsPerVertex, s.vertexCount * FloatsPerVertex))];
      ghost var m1 := State();
      if s.clusterID !in clusterSlots {
        return Fail(NoAllocationRecord);
      }
      var oldSlotIndex := OwnerIndex(S, s.clusterID);
      clusterSlots := clusterSlots[s.clusterID := SlotAllocation(tgt, ti, s.vertexCount)];
      var active := S.activeSlots;
      if oldSlotIndex.Some? {
        active := S.activeSlots[..oldSlotIndex.value] + S.activeSlots[oldSlotIndex.value + 1..];
      }
      assert S.(slots := S.slots[i := Cleared(s)], activeSlots := active) == Compaction.Vacate(S, i, oldSlotIndex);
      arena := arena[src := S.(slots := S.slots[i := Cleared(s)], activeSlots := active)];
      assert State() == m1.(arena := m1.arena[src := Compaction.Vacate(S, i, oldSlotIndex)],
                            clusterSlots := m1.clusterSlots[s.clusterID := SlotAllocation(tgt, ti, s.vertexCount)]);
      AddFreeSlot(S.bucketSize, SlotRef(src, i));
      return Pass;
    }

    /**
     * CompactBatch: moves the source's active slots, in a snapshot of its
     * active-list order, each to the first other batch of its pool that still
     * has a spare slot; stops when none has. Returns whether the source ended
     * empty and how many slots moved.
     */
    method CompactBatch(src: int) returns (deletable: bool, slotsRelocated: nat, err: Outcome<Error>)
      requires Valid() && src in arena && arena[src].bucketSize != XXL
      modifies this
      ensures (State(), deletable, slotsRelocated, err) == Compaction.CompactBatchM(old(State()), src)
    {
      ghost var m0 := State();
      var b := arena[src].bucketSize;
      var ids := buckets.Get(b).batches;
      assert forall j :: 0 <= j < |ids| ==> ids[j] in arena && arena[ids[j]].bucketSize == b;
      var targets := TargetScan(arena, ids, src);
      if targets == [] {
        return false, 0, Pass;
      }
      assert BatchOk(arena[src]);
      deletable, slotsRelocated := MoveSlots(src, arena[src].activeSlots, targets);
      err := Pass;
    }

    /**
     * CompactBatch's loop over the snapshot of the source's active list: each
     * slot goes to the first target that still has a spare slot.
     */
    method MoveSlots(src: int, slotsToMove: seq<nat>, targets: seq<int>) returns (deletable: bool, slotsRelocated: nat)
      requires Valid() && src in arena && arena[src].bucketSize != XXL && src !in targets
      requires forall j :: 0 <= j < |targets| ==> targets[j] in arena && arena[targets[j]].bucketSize == arena[src].bucketSize
      requires NoDuplicates(slotsToMove)
      requires forall q :: 0 <= q < |slotsToMove| ==> slotsToMove[q] < |arena[src].slots| && arena[src].slots[slotsToMove[q]].active
      modifies this
      ensures (State(), deletable, slotsRelocated, Pass) == Compaction.MoveSlots(old(State()), src, slotsToMove, targets, 0)
    {
      ghost var m0 := State();
      slotsRelocated := 0;
      var rest: seq<nat> := slotsToMove;
      while rest != []
        invariant Compaction.MoveReady(State(), src, rest, targets)
        invariant Compaction.MoveSlots(State(), src, rest, targets, slotsRelocated)
               == Compaction.MoveSlots(m0, src, slotsToMove, targets, 0)
        decreases |rest|
      {
        var target := FindWithCapacity(arena, targets);
        if target.None? {
          Compaction.MoveSlotsStop(State(), src, rest, targets, slotsRelocated);
          return |arena[src].activeSlots| == 0, slotsRelocated;
        }
        MoveFirst(src, rest, targets, slotsRelocated, target.value);
        rest := rest[1..];
        slotsRelocated := slotsRelocated + 1;
      }
      Compaction.MoveSlotsStop(State(), src, rest, targets, slotsRelocated);
      return |arena[src].activeSlots| == 0, slotsRelocated;
    }

    /** One turn of CompactBatch's loop: the first slot left moves to target t, the first with room. */
    method MoveFirst(src: int, rest: seq<nat>, targets: seq<int>, ghost moved: nat, t: int)
      requires Compaction.MoveReady(State(), src, rest, targets) && rest != []
      requires FirstWithCapacity(arena, targets, 0) == Some(t)
      modifies this
      ensures Compaction.MoveReady(State(), src, rest[1..], targets)
      ensures Compaction.MoveSlots(State(), src, rest[1..], targets, moved + 1)
           == Compaction.MoveSlots(old(State()), src, rest, targets, moved)
    {
      Compaction.MoveSlotsUnfold(State(), src, rest, targets, moved, t);
      var e := CopySlotData(src, rest[0], t);
    }

    /**
     * One iteration of TryCompaction's loop, on the first candidate: an empty
     * batch is deleted; otherwise it is compacted (counted when a slot moved)
     * and deleted when that left it empty.
     */
    method CompactCandidate(cands: seq<int>, compacted: nat, deleted: nat) returns (compacted': nat, deleted': nat)
      requires Valid() && Compaction.Ready(State(), cands) && cands != []
      modifies this
      ensures (State(), compacted', deleted') == Compaction.Step(old(State()), cands, compacted, deleted)
    {
      var batch := cands[0];
      assert arena[batch].id == batch;
      if |arena[batch].activeSlots| == 0 {
        Compaction.DeleteEmptyKept(State(), batch);
        var _ := DeleteBatch(batch);
        return compacted + 1, deleted + 1;
      }
      ghost var m := State();
      Compaction.SparseCompacted(m, cands);
      var deletable, slotsRelocated, _ := CompactBatch(batch);
      compacted', deleted' := compacted, deleted;
      if slotsRelocated > 0 {
        compacted' := compacted' + 1;
      }
      if deletable {
        assert State() == Compaction.CompactBatchM(m, batch).0;
        assert arena[batch].id == batch;
        Compaction.DeleteEmptyKept(State(), batch);
        var _ := DeleteBatch(batch);
        deleted' := deleted' + 1;
      }
    }

    /**
     * TryCompaction: scans for candidates and handles them in order until
     * DefragMaxPerFrame batches were compacted. Returns the compacted and
     * deleted counts (the source keeps them as statistics).
     */
    method TryCompaction() returns (compacted: nat, deleted: nat)
      requires Valid()
      modifies this
      ensures (State(), compacted, deleted) == Compaction.TryCompactionM(old(State()))
      ensures Valid()
    {
      Compaction.ScanCandidatesDistinct(State());
      Compaction.ScanForCompactionSpec(State());
      var candidates := ScanForCompaction();
      if |candidates| == 0 {
        return 0, 0;
      }
      compacted, deleted := ProcessCandidates(candidates);
    }

    /** TryCompaction's loop over the candidates, stopping once DefragMaxPerFrame batches were compacted. */
    method ProcessCandidates(candidates: seq<int>) returns (compacted: nat, deleted: nat)
      requires Valid() && Compaction.Ready(State(), candidates)
      modifies this
      ensures (State(), compacted, deleted) == Compaction.Process(old(State()), candidates, 0, 0)
    {
      ghost var m0 := State();
      compacted, deleted := 0, 0;
      for i := 0 to |candidates|
        invariant Inv(State()) && Compaction.Ready(State(), candidates[i..])
        invariant Compaction.Process(State(), candidates[i..], compacted, deleted) == Compaction.Process(m0, candidates, 0, 0)
      {
        if compacted >= DefragMaxPerFrame {
          return;
        }
        assert candidates[i..][1..] == candidates[i + 1..];
        compacted, deleted := CompactCandidate(candidates[i..], compacted, deleted);
      }
      assert candidates[|candidates|..] == [];
    }

    /**
     * ValidateClusterIntegrity: every record is checked; the call fails,
     * with the number of failed checks, exactly when some record fails one.
     */
    method ValidateClusterIntegrity() returns (r: Outcome<IntegrityError>)
      ensures r.Pass? <==> IntegrityHolds(State())
      ensures r.Fail? ==> 1 <= r.error.count <= 2 * |clusterSlots|
    {
      var errors := 0;
      var rest := clusterSlots.Keys;
      while rest != {}
        invariant rest <= clusterSlots.Keys
        invariant errors <= 2 * (|clusterSlots.Keys| - |rest|)
        invariant errors == 0 <==>
          forall c :: c in clusterSlots.Keys - rest ==> RecordErrors(State(), c, clusterSlots[c]) == 0
        decreases |rest|
      {
        HasMember(rest);
        var c :| c in rest;
        var a := clusterSlots[c];
        var n := 0;
        var batchExists := false;
        if a.batch in arena {
          batchExists := ListedIn(buckets.Get(arena[a.batch].bucketSize).batches, a.batch);
        }
        if !batchExists {
          n := 1;
        } else if a.slotIndex >= |arena[a.batch].slots| {
          n := 1;
        } else {
          var slot := arena[a.batch].slots[a.slotIndex];
          if !slot.active {
            n := n + 1;
          }
          if slot.clusterID != c {
            n := n + 1;
          }
        }
        assert n == RecordErrors(State(), c, a);
        errors := errors + n;
        rest := rest - {c};
      }
      assert clusterSlots.Keys - rest == clusterSlots.Keys;
      if errors > 0 {
        return Fail(IntegrityFailed(errors));
      }
      return Pass;
    }

    /** updateStats: the totals of every pool's calculateStats, then the free-list lengths. */
    method UpdateStats() returns (st: Stats)
      requires Measurable(State())
      ensures st == StatsOf(State())
    {
      var t, perBucket := PoolTotals(State());
      var freeSlots := 0;
      for k := 0 to |BucketOrder|
        invariant freeSlots + FreeTotal(State(), BucketOrder[k..]) == FreeTotal(State(), BucketOrder)
      {
        assert BucketOrder[k..][1..] == BucketOrder[k + 1..];
        freeSlots := freeSlots + |buckets.Get(BucketOrder[k]).freeSlots|;
      }
      assert BucketOrder[|BucketOrder|..] == [];
      SumPoolsShape(State(), BucketOrder);
      st := Stats(|clusterSlots|, t.vertices, t.gpuBytes, t.batchCount, t.totalSlots,
                  t.activeSlots, t.activeBatches, freeSlots, perBucket);
    }

    /**
     * Draw: for each pool in size order and each of its batches with an
     * active slot, one MultiDrawArrays call with the offset and count of
     * every active slot, converted to int32.
     */
    method Draw() returns (calls: seq<DrawCall>)
      requires Measurable(State())
      ensures calls == DrawCalls(State())
      ensures |calls| == StatsOf(State()).totalActiveBatches
    {
      ghost var m := State();
      calls := [];
      for k := 0 to |BucketOrder|
        invariant calls + DrawPools(m, BucketOrder[k..]) == DrawCalls(m)
      {
        DrawPoolsStep(m, k, calls);
        var here := PoolDrawCalls(arena, buckets.Get(BucketOrder[k]).batches);
        calls := calls + here;
      }
      assert BucketOrder[|BucketOrder|..] == [];
      DrawCountIsActiveBatches(m);
    }
  }
}
