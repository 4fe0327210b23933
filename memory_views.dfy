/**
 * The read-only views of the slot allocator in internal/memory/controller.go:
 * the record checks of `ValidateClusterIntegrity`, the counters of
 * `calculateStats` and `updateStats`, and the per-batch first/count lists
 * that `Draw` hands to MultiDrawArrays. Each view is a function of the
 * controller's state; the lemmas say what the views report about a state
 * that satisfies the invariant: integrity passes, the cluster count equals
 * the active-slot count, free and active slots fit within the slots, and
 * every cluster is drawn once, inside its own slot.
 */
module MemoryViews {
  import opened Wrappers
  import opened Buckets
  import opened MemoryState
  import opened MemoryPrims

  // ---------------------------------------------------------------------
  // ValidateClusterIntegrity

  /** The batch a record names is still listed in the pool of its bucket. */
  predicate BatchListed(m: Mem, id: int)
  {
    id in m.arena && id in m.buckets.Get(m.arena[id].bucketSize).batches
  }

  /**
   * The number of failed checks for the record `a` of cluster `c`: an
   * unlisted batch or an index past the slots is one failure and ends the
   * checks for that record; otherwise an inactive slot and a slot owned by
   * another cluster count one each.
   */
  function RecordErrors(m: Mem, c: int, a: SlotAllocation): (n: nat)
    ensures n <= 2
    ensures n == 0 <==> BatchListed(m, a.batch) && RecordOk(m, c, a)
  {
    if !BatchListed(m, a.batch) then 1
    else if a.slotIndex >= |m.arena[a.batch].slots| then 1
    else
      var slot := m.arena[a.batch].slots[a.slotIndex];
      (if slot.active then 0 else 1) + (if slot.clusterID == c then 0 else 1)
  }

  /** ValidateClusterIntegrity's error: the number of failed checks. */
  datatype IntegrityError = IntegrityFailed(count: nat)

  /** ValidateClusterIntegrity returns nil: no record fails a check. */
  ghost predicate IntegrityHolds(m: Mem)
  {
    forall c :: c in m.clusterSlots ==> RecordErrors(m, c, m.clusterSlots[c]) == 0
  }

  /** The check passes on every state the controller's operations keep. */
  lemma InvImpliesIntegrity(m: Mem)
    requires Inv(m)
    ensures IntegrityHolds(m)
  {
  }

  /** The check passes exactly when every record is sound and its batch is listed. */
  lemma IntegrityMeansRecordsOk(m: Mem)
    ensures IntegrityHolds(m) <==>
      RecordsOk(m) && forall c :: c in m.clusterSlots ==> BatchListed(m, m.clusterSlots[c].batch)
  {
  }

  // ---------------------------------------------------------------------
  // calculateStats and updateStats

  datatype BucketSizeStats = BucketSizeStats(
    clusterCount: int,
    batchCount: int,
    totalSlots: int,
    activeSlots: int,
    activeBatches: int,
    freeSlots: int,
    gpuBytes: int,
    vertices: int)

  const NoStats := BucketSizeStats(0, 0, 0, 0, 0, 0, 0, 0)

  /** Field-by-field sum of two counters. */
  function Plus(x: BucketSizeStats, y: BucketSizeStats): BucketSizeStats
  {
    BucketSizeStats(
      x.clusterCount + y.clusterCount, x.batchCount + y.batchCount,
      x.totalSlots + y.totalSlots, x.activeSlots + y.activeSlots,
      x.activeBatches + y.activeBatches, x.freeSlots + y.freeSlots,
      x.gpuBytes + y.gpuBytes, x.vertices + y.vertices)
  }

  /** The batches `ids` are live, and their active lists index their slots. */
  ghost predicate Countable(arena: map<int, Batch>, ids: seq<int>)
  {
    forall k :: 0 <= k < |ids| ==> ids[k] in arena && ActiveInRange(arena[ids[k]])
  }

  /** Every pool's batches are countable. */
  ghost predicate Measurable(m: Mem)
  {
    forall b: Bucket :: Countable(m.arena, m.buckets.Get(b).batches)
  }

  lemma InvMeasurable(m: Mem)
    requires Inv(m)
    ensures Measurable(m)
  {
    forall b: Bucket ensures Countable(m.arena, m.buckets.Get(b).batches) {
      var ids := m.buckets.Get(b).batches;
      forall k | 0 <= k < |ids| ensures ids[k] in m.arena && ActiveInRange(m.arena[ids[k]]) {
        var id := ids[k];
        assert ArenaOk(m);
        assert id in m.arena;
        assert BatchOk(m.arena[id]);
      }
    }
  }

  /** The payload vertices of the slots listed in `act`. */
  function VertexSum(slots: seq<Slot>, act: seq<nat>): nat
    requires forall k :: 0 <= k < |act| ==> act[k] < |slots|
  {
    if act == [] then 0 else slots[act[0]].vertexCount + VertexSum(slots, act[1..])
  }

  /** One batch's share of calculateStats: its bytes, slots, active slots and payload. */
  function BatchStats(bt: Batch): BucketSizeStats
    requires ActiveInRange(bt)
  {
    BucketSizeStats(
      |bt.activeSlots|, 0, |bt.slots|, |bt.activeSlots|,
      if |bt.activeSlots| > 0 then 1 else 0, 0,
      bt.totalVertexCapacity * FloatsPerVertex * BytesPerFloat,
      VertexSum(bt.slots, bt.activeSlots))
  }

  /** The per-batch shares of the batches `ids`, summed. */
  function Tally(arena: map<int, Batch>, ids: seq<int>): BucketSizeStats
    requires Countable(arena, ids)
  {
    if ids == [] then NoStats
    else
      Plus(BatchStats(arena[ids[0]]), Tally(arena, ids[1..]))
  }

  /** BucketPool.calculateStats. */
  function PoolStats(arena: map<int, Batch>, p: Pool): BucketSizeStats
    requires Countable(arena, p.batches)
  {
    Plus(BucketSizeStats(0, |p.batches|, 0, 0, 0, |p.freeSlots|, 0, 0), Tally(arena, p.batches))
  }

  /** The pool counters of the buckets `bs`, summed. */
  function SumPools(m: Mem, bs: seq<Bucket>): BucketSizeStats
    requires Measurable(m)
  {
    if bs == [] then NoStats else Plus(PoolStats(m.arena, m.buckets.Get(bs[0])), SumPools(m, bs[1..]))
  }

  datatype Stats = Stats(
    totalClusters: int,
    totalVertices: int,
    totalGPUBytes: int,
    totalBatches: int,
    totalSlots: int,
    totalActiveSlots: int,
    totalActiveBatches: int,
    freeSlots: int,
    bucketSizeStats: map<Bucket, BucketSizeStats>)

  /** updateStats: the totals over all five pools, and each pool's own counters. */
  function StatsOf(m: Mem): Stats
    requires Measurable(m)
  {
    var t := SumPools(m, BucketOrder);
    Stats(|m.clusterSlots|, t.vertices, t.gpuBytes, t.batchCount, t.totalSlots,
          t.activeSlots, t.activeBatches, t.freeSlots,
          PerBucket(m))
  }

  /** updateStats' `BucketSizeStats` map: each pool's calculateStats, under its bucket. */
  function PerBucket(m: Mem): map<Bucket, BucketSizeStats>
    requires Measurable(m)
  {
    map[S := PoolStats(m.arena, m.buckets.Get(S)), M := PoolStats(m.arena, m.buckets.Get(M)),
        L := PoolStats(m.arena, m.buckets.Get(L)), XL := PoolStats(m.arena, m.buckets.Get(XL)),
        XXL := PoolStats(m.arena, m.buckets.Get(XXL))]
  }

  /** Every bucket has its pool's counters in the map. */
  lemma PerBucketCovers(m: Mem)
    requires Measurable(m)
    ensures forall b: Bucket :: b in PerBucket(m) && PerBucket(m)[b] == PoolStats(m.arena, m.buckets.Get(b))
  {
    forall b: Bucket ensures b in PerBucket(m) && PerBucket(m)[b] == PoolStats(m.arena, m.buckets.Get(b)) {
      match b
      case S => case M => case L => case XL => case XXL =>
    }
  }

  /** A batch list contributes no batch or free-list counts of its own, and one active batch at most per batch. */
  lemma {:induction false} TallyShape(arena: map<int, Batch>, ids: seq<int>)
    requires Countable(arena, ids)
    ensures Tally(arena, ids).batchCount == 0 && Tally(arena, ids).freeSlots == 0
    ensures Tally(arena, ids).clusterCount == Tally(arena, ids).activeSlots
    ensures 0 <= Tally(arena, ids).activeBatches <= |ids|
  {
    if ids != [] {
      TallyShape(arena, ids[1..]);
    }
  }

  /** calculateStats counts one cluster per active slot, and no more active batches than batches. */
  lemma PoolStatsShape(arena: map<int, Batch>, p: Pool)
    requires Countable(arena, p.batches)
    ensures PoolStats(arena, p).clusterCount == PoolStats(arena, p).activeSlots
    ensures PoolStats(arena, p).batchCount == |p.batches| && PoolStats(arena, p).freeSlots == |p.freeSlots|
    ensures 0 <= PoolStats(arena, p).activeBatches <= PoolStats(arena, p).batchCount
  {
    TallyShape(arena, p.batches);
  }

  /** The free-list lengths of the buckets `bs`, summed. */
  function FreeTotal(m: Mem, bs: seq<Bucket>): nat
  {
    if bs == [] then 0 else |m.buckets.Get(bs[0]).freeSlots| + FreeTotal(m, bs[1..])
  }

  lemma {:induction false} SumPoolsShape(m: Mem, bs: seq<Bucket>)
    requires Measurable(m)
    ensures SumPools(m, bs).clusterCount == SumPools(m, bs).activeSlots
    ensures 0 <= SumPools(m, bs).activeBatches <= SumPools(m, bs).batchCount
    ensures SumPools(m, bs).freeSlots == FreeTotal(m, bs)
  {
    if bs != [] {
      PoolStatsShape(m.arena, m.buckets.Get(bs[0]));
      SumPoolsShape(m, bs[1..]);
    }
  }

  // ---------------------------------------------------------------------
  // Counting slots as sets of (batch id, slot index) pairs

  /** The pairs of batch `id` for the slot indices in `xs`. */
  function RefsOf(id: int, xs: seq<nat>): (r: set<SlotRef>)
    ensures forall x :: x in r <==> x.batch == id && x.slotIndex in xs
  {
    if xs == [] then {}
    else
      assert forall k :: k in xs <==> k == xs[0] || k in xs[1..];
      {SlotRef(id, xs[0])} + RefsOf(id, xs[1..])
  }

  lemma {:induction false} RefsOfCard(id: int, xs: seq<nat>)
    requires NoDuplicates(xs)
    ensures |RefsOf(id, xs)| == |xs|
  {
    if xs != [] {
      assert xs[0] !in xs[1..] by {
        forall j | 0 <= j < |xs[1..]| ensures xs[1..][j] != xs[0] {
          assert xs[1..][j] == xs[j + 1];
        }
      }
      assert NoDuplicates(xs[1..]) by {
        forall i, j | 0 <= i < j < |xs[1..]| ensures xs[1..][i] != xs[1..][j] {
          assert xs[1..][i] == xs[i + 1] && xs[1..][j] == xs[j + 1];
        }
      }
      RefsOfCard(id, xs[1..]);
      assert SlotRef(id, xs[0]) !in RefsOf(id, xs[1..]);
    }
  }

  /** The pairs of batch `id` for the slot indices below n. */
  function RangeRefs(id: int, n: nat): (r: set<SlotRef>)
    ensures forall x :: x in r <==> x.batch == id && x.slotIndex < n
    ensures |r| == n
  {
    if n == 0 then {} else RangeRefs(id, n - 1) + {SlotRef(id, n - 1)}
  }

  /** The active (`active`) or all (`!active`) slots of batch `id`, as pairs. */
  function BatchRefs(id: int, bt: Batch, active: bool): set<SlotRef>
  {
    if active then RefsOf(id, bt.activeSlots) else RangeRefs(id, |bt.slots|)
  }

  /** The counter of a tally that counts those pairs. */
  function Counted(st: BucketSizeStats, active: bool): int
  {
    if active then st.activeSlots else st.totalSlots
  }

  /** A pair belongs to a batch's active slots, or to its slots. */
  predicate InBatch(x: SlotRef, bt: Batch, active: bool)
  {
    if active then x.slotIndex in bt.activeSlots else x.slotIndex < |bt.slots|
  }

  function ListRefs(arena: map<int, Batch>, ids: seq<int>, active: bool): (r: set<SlotRef>)
    requires Countable(arena, ids)
    ensures forall x :: x in r <==> x.batch in ids && InBatch(x, arena[x.batch], active)
  {
    if ids == [] then {}
    else
      assert forall id :: id in ids <==> id == ids[0] || id in ids[1..];
      BatchRefs(ids[0], arena[ids[0]], active) + ListRefs(arena, ids[1..], active)
  }

  lemma {:induction false} ListRefsCard(arena: map<int, Batch>, ids: seq<int>, active: bool)
    requires Countable(arena, ids) && NoDuplicates(ids)
    requires forall id :: id in ids ==> NoDuplicates(arena[id].activeSlots)
    ensures |ListRefs(arena, ids, active)| == Counted(Tally(arena, ids), active)
  {
    if ids != [] {
      var id := ids[0];
      var rest := ids[1..];
      assert id !in rest by {
        forall j | 0 <= j < |rest| ensures rest[j] != id {
          assert rest[j] == ids[j + 1];
        }
      }
      assert NoDuplicates(rest) by {
        forall i, j | 0 <= i < j < |rest| ensures rest[i] != rest[j] {
          assert rest[i] == ids[i + 1] && rest[j] == ids[j + 1];
        }
      }
      ListRefsCard(arena, rest, active);
      var here := BatchRefs(id, arena[id], active);
      if active { RefsOfCard(id, arena[id].activeSlots); }
      assert |here| == Counted(BatchStats(arena[id]), active);
      assert here * ListRefs(arena, rest, active) == {};
    }
  }

  /** The pairs of the pools `bs`. */
  function PoolRefs(m: Mem, bs: seq<Bucket>, active: bool): set<SlotRef>
    requires Measurable(m)
  {
    if bs == [] then {} else ListRefs(m.arena, m.buckets.Get(bs[0]).batches, active) + PoolRefs(m, bs[1..], active)
  }

  /** Under the invariant, the pools' pairs are those of the live batches of the buckets `bs`. */
  lemma {:induction false} PoolRefsMembers(m: Mem, bs: seq<Bucket>, active: bool)
    requires Inv(m)
    ensures Measurable(m)
    ensures forall x :: x in PoolRefs(m, bs, active) <==>
      x.batch in m.arena && m.arena[x.batch].bucketSize in bs && InBatch(x, m.arena[x.batch], active)
  {
    InvMeasurable(m);
    if bs != [] {
      PoolRefsMembers(m, bs[1..], active);
      assert forall b :: b in bs <==> b == bs[0] || b in bs[1..];
    }
  }

  lemma {:induction false} PoolRefsCard(m: Mem, bs: seq<Bucket>, active: bool)
    requires Inv(m) && NoDuplicates(bs)
    ensures Measurable(m)
    ensures |PoolRefs(m, bs, active)| == Counted(SumPools(m, bs), active)
  {
    InvMeasurable(m);
    if bs != [] {
      var rest := bs[1..];
      SuffixNoDuplicates(bs, 1);
      PoolRefsCard(m, rest, active);
      ListRefsCard(m.arena, m.buckets.Get(bs[0]).batches, active);
      PoolRefsDisjoint(m, bs, active);
    }
  }

  /** The first pool's pairs are not among the pairs of the pools after it. */
  lemma PoolRefsDisjoint(m: Mem, bs: seq<Bucket>, active: bool)
    requires Inv(m) && bs != [] && bs[0] !in bs[1..]
    ensures Measurable(m)
    ensures ListRefs(m.arena, m.buckets.Get(bs[0]).batches, active) * PoolRefs(m, bs[1..], active) == {}
  {
    InvMeasurable(m);
    PoolRefsMembers(m, bs[1..], active);
  }

  /** The entries of a free list, as a set. */
  function Elems(xs: seq<SlotRef>): (r: set<SlotRef>)
    ensures forall x :: x in r <==> x in xs
  {
    if xs == [] then {}
    else
      assert forall x :: x in xs <==> x == xs[0] || x in xs[1..];
      {xs[0]} + Elems(xs[1..])
  }

  lemma {:induction false} ElemsCard(xs: seq<SlotRef>)
    requires NoDuplicates(xs)
    ensures |Elems(xs)| == |xs|
  {
    if xs != [] {
      assert xs[0] !in xs[1..] by {
        forall j | 0 <= j < |xs[1..]| ensures xs[1..][j] != xs[0] {
          assert xs[1..][j] == xs[j + 1];
        }
      }
      assert NoDuplicates(xs[1..]) by {
        forall i, j | 0 <= i < j < |xs[1..]| ensures xs[1..][i] != xs[1..][j] {
          assert xs[1..][i] == xs[i + 1] && xs[1..][j] == xs[j + 1];
        }
      }
      ElemsCard(xs[1..]);
    }
  }

  /** The free-list entries of the pools `bs`. */
  function FreeRefs(m: Mem, bs: seq<Bucket>): set<SlotRef>
  {
    if bs == [] then {} else Elems(m.buckets.Get(bs[0]).freeSlots) + FreeRefs(m, bs[1..])
  }

  /** Under the invariant the free entries of the pools `bs` are distinct inactive slots of their batches. */
  lemma {:induction false} FreeRefsFacts(m: Mem, bs: seq<Bucket>)
    requires Inv(m) && NoDuplicates(bs)
    ensures |FreeRefs(m, bs)| == FreeTotal(m, bs)
    ensures forall x :: x in FreeRefs(m, bs) ==>
      x.batch in m.arena && m.arena[x.batch].bucketSize in bs &&
      x.slotIndex < |m.arena[x.batch].slots| && !m.arena[x.batch].slots[x.slotIndex].active
  {
    if bs != [] {
      var rest := bs[1..];
      assert NoDuplicates(rest) by {
        forall i, j | 0 <= i < j < |rest| ensures rest[i] != rest[j] {
          assert rest[i] == bs[i + 1] && rest[j] == bs[j + 1];
        }
      }
      assert bs[0] !in rest by {
        forall j | 0 <= j < |rest| ensures rest[j] != bs[0] {
          assert rest[j] == bs[j + 1];
        }
      }
      FreeRefsFacts(m, rest);
      var free := m.buckets.Get(bs[0]).freeSlots;
      ElemsCard(free);
      forall x | x in Elems(free)
        ensures x.batch in m.arena && m.arena[x.batch].bucketSize == bs[0]
      {
        assert FreeRefOk(m, bs[0], x);
      }
      assert Elems(free) * FreeRefs(m, rest) == {};
    }
  }

  /** A subset is no larger than its superset. */
  lemma SubsetCard(a: set<SlotRef>, b: set<SlotRef>)
    requires a <= b
    ensures |a| <= |b|
  {
    assert b == a + (b - a);
    assert a * (b - a) == {};
  }

  /** The pair that a cluster's record names. */
  function RecordRef(a: SlotAllocation): SlotRef
  {
    SlotRef(a.batch, a.slotIndex)
  }

  ghost function Recorded(cs: map<int, SlotAllocation>, keys: set<int>): set<SlotRef>
    requires keys <= cs.Keys
  {
    set c | c in keys :: RecordRef(cs[c])
  }

  /** Distinct clusters naming distinct slots name as many slots as there are clusters. */
  lemma {:induction false} RecordedCard(cs: map<int, SlotAllocation>, keys: set<int>)
    requires keys <= cs.Keys
    requires forall c, d :: c in keys && d in keys && RecordRef(cs[c]) == RecordRef(cs[d]) ==> c == d
    ensures |Recorded(cs, keys)| == |keys|
    decreases |keys|
  {
    if keys != {} {
      HasMember(keys);
      var c :| c in keys;
      var rest := keys - {c};
      RecordedCard(cs, rest);
      assert Recorded(cs, keys) == Recorded(cs, rest) + {RecordRef(cs[c])};
      assert RecordRef(cs[c]) !in Recorded(cs, rest);
    }
  }

  /** Under the invariant the records name exactly the active slots of the live batches. */
  lemma RecordedAreActive(m: Mem)
    requires Inv(m)
    ensures Measurable(m)
    ensures Recorded(m.clusterSlots, m.clusterSlots.Keys) == PoolRefs(m, BucketOrder, true)
    ensures |Recorded(m.clusterSlots, m.clusterSlots.Keys)| == |m.clusterSlots|
  {
    var cs := m.clusterSlots;
    PoolRefsMembers(m, BucketOrder, true);
    var a := PoolRefs(m, BucketOrder, true);
    forall x | x in Recorded(cs, cs.Keys) ensures x in a {
      var c :| c in cs && x == RecordRef(cs[c]);
      assert RecordOk(m, c, cs[c]);
      assert BatchOk(m.arena[x.batch]);
      assert m.arena[x.batch].bucketSize in BucketOrder;
    }
    forall x | x in a ensures x in Recorded(cs, cs.Keys) {
      var bt := m.arena[x.batch];
      assert BatchOk(bt);
      var k :| 0 <= k < |bt.activeSlots| && bt.activeSlots[k] == x.slotIndex;
      var c := bt.slots[x.slotIndex].clusterID;
      assert c in cs && x == RecordRef(cs[c]);
    }
    forall c, d | c in cs && d in cs && RecordRef(cs[c]) == RecordRef(cs[d]) ensures c == d {
      assert RecordOk(m, c, cs[c]) && RecordOk(m, d, cs[d]);
    }
    RecordedCard(cs, cs.Keys);
  }

  /** Under the invariant every active pair names an active slot of a live batch. */
  lemma ActiveRefsActive(m: Mem)
    requires Inv(m)
    ensures Measurable(m)
    ensures forall x :: x in PoolRefs(m, BucketOrder, true) ==>
      x.batch in m.arena && x.slotIndex < |m.arena[x.batch].slots| && m.arena[x.batch].slots[x.slotIndex].active
  {
    PoolRefsMembers(m, BucketOrder, true);
    forall x | x in PoolRefs(m, BucketOrder, true)
      ensures x.batch in m.arena && x.slotIndex < |m.arena[x.batch].slots| && m.arena[x.batch].slots[x.slotIndex].active
    {
      var bt := m.arena[x.batch];
      assert BatchOk(bt);
      var k :| 0 <= k < |bt.activeSlots| && bt.activeSlots[k] == x.slotIndex;
    }
  }

  lemma ActiveSubsetSlots(m: Mem)
    requires Inv(m)
    ensures Measurable(m)
    ensures PoolRefs(m, BucketOrder, true) <= PoolRefs(m, BucketOrder, false)
  {
    ActiveRefsActive(m);
    PoolRefsMembers(m, BucketOrder, false);
    forall x | x in PoolRefs(m, BucketOrder, true) ensures x in PoolRefs(m, BucketOrder, false) {
      assert m.arena[x.batch].bucketSize in BucketOrder;
    }
  }

  lemma FreeSubsetSlots(m: Mem)
    requires Inv(m)
    ensures Measurable(m)
    ensures FreeRefs(m, BucketOrder) <= PoolRefs(m, BucketOrder, false)
    ensures |FreeRefs(m, BucketOrder)| == FreeTotal(m, BucketOrder)
  {
    assert NoDuplicates(BucketOrder);
    FreeRefsFacts(m, BucketOrder);
    PoolRefsMembers(m, BucketOrder, false);
  }

  lemma FreeDisjointActive(m: Mem)
    requires Inv(m)
    ensures Measurable(m)
    ensures FreeRefs(m, BucketOrder) * PoolRefs(m, BucketOrder, true) == {}
  {
    assert NoDuplicates(BucketOrder);
    FreeRefsFacts(m, BucketOrder);
    ActiveRefsActive(m);
  }

  /** Two disjoint subsets of a set together number at most its size. */
  lemma DisjointSubsetsCard(a: set<SlotRef>, f: set<SlotRef>, s: set<SlotRef>)
    requires a <= s && f <= s && a * f == {}
    ensures |a| + |f| <= |s|
  {
    assert |a + f| == |a| + |f|;
    SubsetCard(a + f, s);
  }

  /** Under the invariant the active slots and the free-list entries together number at most the slots. */
  lemma ActivePlusFreeWithinSlots(m: Mem)
    requires Inv(m)
    ensures Measurable(m)
    ensures SumPools(m, BucketOrder).activeSlots + FreeTotal(m, BucketOrder) <= SumPools(m, BucketOrder).totalSlots
  {
    assert NoDuplicates(BucketOrder);
    ActiveSubsetSlots(m);
    FreeSubsetSlots(m);
    FreeDisjointActive(m);
    PoolRefsCard(m, BucketOrder, true);
    PoolRefsCard(m, BucketOrder, false);
    DisjointSubsetsCard(PoolRefs(m, BucketOrder, true), FreeRefs(m, BucketOrder), PoolRefs(m, BucketOrder, false));
  }

  /**
   * What updateStats reports about any state the controller keeps: one
   * cluster per active slot, every free-list entry and every active slot a
   * distinct slot, and no more active batches than batches.
   */
  lemma StatsConsistent(m: Mem)
    requires Inv(m)
    ensures Measurable(m)
    ensures StatsOf(m).totalClusters == StatsOf(m).totalActiveSlots
    ensures StatsOf(m).totalActiveSlots + StatsOf(m).freeSlots <= StatsOf(m).totalSlots
    ensures 0 <= StatsOf(m).totalActiveBatches <= StatsOf(m).totalBatches
  {
    InvMeasurable(m);
    assert NoDuplicates(BucketOrder);
    RecordedAreActive(m);
    PoolRefsCard(m, BucketOrder, true);
    ActivePlusFreeWithinSlots(m);
    SumPoolsShape(m, BucketOrder);
  }

  /** Each pool's counters in updateStats' map count one cluster per active slot. */
  lemma BucketStatsConsistent(m: Mem)
    requires Measurable(m)
    ensures forall b: Bucket ::
      && b in StatsOf(m).bucketSizeStats
      && StatsOf(m).bucketSizeStats[b].clusterCount == StatsOf(m).bucketSizeStats[b].activeSlots
      && StatsOf(m).bucketSizeStats[b].activeBatches <= StatsOf(m).bucketSizeStats[b].batchCount
  {
    PerBucketCovers(m);
    forall b: Bucket {
      PoolStatsShape(m.arena, m.buckets.Get(b));
    }
  }

  // ---------------------------------------------------------------------
  // Draw

  /** Go's `int32(x)`: the low 32 bits of x, read as a two's-complement value. */
  function Int32(x: int): (r: int)
    ensures -0x8000_0000 <= r < 0x8000_0000
    ensures -0x8000_0000 <= x < 0x8000_0000 ==> r == x
  {
    var low := x % 0x1_0000_0000;
    if low >= 0x8000_0000 then low - 0x1_0000_0000 else low
  }

  /** One MultiDrawArrays call: the batch it binds, and the first vertex and vertex count of each range. */
  datatype DrawCall = DrawCall(batch: int, firsts: seq<int>, counts: seq<int>)

  /** The call for batch `id`: one range per active slot, in active-list order. */
  function CallOf(id: int, bt: Batch): (d: DrawCall)
    requires ActiveInRange(bt)
    ensures d.batch == id && |d.firsts| == |bt.activeSlots| && |d.counts| == |bt.activeSlots|
  {
    DrawCall(id,
      seq(|bt.activeSlots|, k requires 0 <= k < |bt.activeSlots| => Int32(bt.slots[bt.activeSlots[k]].vertexOffset)),
      seq(|bt.activeSlots|, k requires 0 <= k < |bt.activeSlots| => Int32(bt.slots[bt.activeSlots[k]].vertexCount)))
  }

  /** The calls for the batches `ids`, skipping batches with no active slot. */
  function DrawList(arena: map<int, Batch>, ids: seq<int>): seq<DrawCall>
    requires Countable(arena, ids)
  {
    if ids == [] then []
    else
      (if |arena[ids[0]].activeSlots| == 0 then [] else [CallOf(ids[0], arena[ids[0]])])
      + DrawList(arena, ids[1..])
  }

  function DrawPools(m: Mem, bs: seq<Bucket>): seq<DrawCall>
    requires Measurable(m)
  {
    if bs == [] then [] else DrawList(m.arena, m.buckets.Get(bs[0]).batches) + DrawPools(m, bs[1..])
  }

  /** Draw: the calls of the pools in size order. */
  function DrawCalls(m: Mem): seq<DrawCall>
    requires Measurable(m)
  {
    DrawPools(m, BucketOrder)
  }

  lemma {:induction false} DrawListFacts(arena: map<int, Batch>, ids: seq<int>)
    requires Countable(arena, ids)
    ensures |DrawList(arena, ids)| == Tally(arena, ids).activeBatches
    ensures forall d :: d in DrawList(arena, ids) <==>
      d.batch in ids && |arena[d.batch].activeSlots| > 0 && d == CallOf(d.batch, arena[d.batch])
  {
    if ids != [] {
      DrawListFacts(arena, ids[1..]);
      assert forall id :: id in ids <==> id == ids[0] || id in ids[1..];
    }
  }

  lemma {:induction false} DrawPoolsFacts(m: Mem, bs: seq<Bucket>)
    requires Measurable(m)
    ensures |DrawPools(m, bs)| == SumPools(m, bs).activeBatches
    ensures forall d :: d in DrawPools(m, bs) <==>
      exists b :: b in bs && d in DrawList(m.arena, m.buckets.Get(b).batches)
  {
    if bs != [] {
      DrawPoolsFacts(m, bs[1..]);
      DrawListFacts(m.arena, m.buckets.Get(bs[0]).batches);
      assert forall b :: b in bs <==> b == bs[0] || b in bs[1..];
    }
  }

  /** Draw issues one call per batch with an active slot: the count updateStats reports. */
  lemma DrawCountIsActiveBatches(m: Mem)
    requires Measurable(m)
    ensures |DrawCalls(m)| == StatsOf(m).totalActiveBatches
  {
    DrawPoolsFacts(m, BucketOrder);
  }

  /** Under the invariant the calls are exactly those of the live batches with an active slot. */
  lemma DrawCallsMembers(m: Mem)
    requires Inv(m)
    ensures Measurable(m)
    ensures forall d :: d in DrawCalls(m) <==>
      d.batch in m.arena && |m.arena[d.batch].activeSlots| > 0 && d == CallOf(d.batch, m.arena[d.batch])
  {
    InvMeasurable(m);
    DrawPoolsFacts(m, BucketOrder);
    forall b: Bucket {
      DrawListFacts(m.arena, m.buckets.Get(b).batches);
    }
    forall d: DrawCall | d.batch in m.arena && |m.arena[d.batch].activeSlots| > 0 && d == CallOf(d.batch, m.arena[d.batch])
      ensures d in DrawCalls(m)
    {
      var b := m.arena[d.batch].bucketSize;
      assert b in BucketOrder;
      assert d in DrawList(m.arena, m.buckets.Get(b).batches);
    }
  }

  /** Every cluster is drawn: its batch's call lists its slot. */
  lemma EveryClusterDrawn(m: Mem, c: int)
    requires Inv(m) && c in m.clusterSlots
    ensures Measurable(m)
    ensures m.clusterSlots[c].batch in m.arena
    ensures CallOf(m.clusterSlots[c].batch, m.arena[m.clusterSlots[c].batch]) in DrawCalls(m)
    ensures m.clusterSlots[c].slotIndex in m.arena[m.clusterSlots[c].batch].activeSlots
  {
    DrawCallsMembers(m);
    var a := m.clusterSlots[c];
    assert RecordOk(m, c, a);
    assert BatchOk(m.arena[a.batch]);
  }

  lemma MulStep(w: nat, i: nat, j: nat)
    requires i < j
    ensures w * i + w <= w * j
  {
    var d := j - i - 1;
    calc {
      w * j;
      w * (i + 1 + d);
      w * i + w + w * d;
    }
  }

  /**
   * Under the invariant each range drawn lies inside its slot and its
   * batch's buffer, ranges of one call never overlap, and the int32
   * conversions are exact for every batch below 2^31 vertices, which every
   * batch other than XXL is.
   */
  lemma DrawRangesInSlots(m: Mem, d: DrawCall)
    requires Inv(m) && Measurable(m) && d in DrawCalls(m)
    ensures d.batch in m.arena && |d.firsts| == |d.counts| == |m.arena[d.batch].activeSlots|
    ensures m.arena[d.batch].bucketSize != XXL ==> m.arena[d.batch].totalVertexCapacity < 0x8000_0000
    ensures m.arena[d.batch].totalVertexCapacity < 0x8000_0000 ==>
      forall k :: 0 <= k < |d.firsts| ==>
        0 <= d.firsts[k] && d.firsts[k] + d.counts[k] <= m.arena[d.batch].totalVertexCapacity
    ensures m.arena[d.batch].totalVertexCapacity < 0x8000_0000 ==>
      forall k1, k2 :: 0 <= k1 < k2 < |d.firsts| ==>
        d.firsts[k1] + d.counts[k1] <= d.firsts[k2] || d.firsts[k2] + d.counts[k2] <= d.firsts[k1]
  {
    InvMeasurable(m);
    DrawCallsMembers(m);
    var bt := m.arena[d.batch];
    assert BatchOk(bt);
    var cap := bt.totalVertexCapacity;
    var w := VertexCapacityForBucket(bt.bucketSize);
    if bt.bucketSize != XXL {
      assert cap * 24 <= GrowthMaxBatchBytes;
    }
    if cap < 0x8000_0000 {
      forall k | 0 <= k < |d.firsts|
        ensures d.firsts[k] == bt.slots[bt.activeSlots[k]].vertexOffset
        ensures d.counts[k] == bt.slots[bt.activeSlots[k]].vertexCount
        ensures 0 <= d.firsts[k] && d.firsts[k] + d.counts[k] <= cap
      {
        var i := bt.activeSlots[k];
        var s := bt.slots[i];
        assert s.active && s.vertexCount <= SlotCapacity(bt, i);
        if bt.bucketSize != XXL {
          MulStep(w, i, |bt.slots|);
        }
      }
      forall k1, k2 | 0 <= k1 < k2 < |d.firsts|
        ensures d.firsts[k1] + d.counts[k1] <= d.firsts[k2] || d.firsts[k2] + d.counts[k2] <= d.firsts[k1]
      {
        var i1 := bt.activeSlots[k1];
        var i2 := bt.activeSlots[k2];
        assert i1 != i2;
        assert bt.slots[i1].vertexCount <= SlotCapacity(bt, i1);
        assert bt.slots[i2].vertexCount <= SlotCapacity(bt, i2);
        if i1 < i2 { MulStep(w, i1, i2); } else { MulStep(w, i2, i1); }
      }
    }
  }
}
