/**
 * Batch defragmentation (internal/memory/compactor.go, and TryCompaction
 * in internal/memory/controller.go) on the value model: the candidate scan
 * and its ordering, the move of one slot (copySlotData), the move of a
 * batch's slots (CompactBatch), and one compaction pass (TryCompaction).
 */
module Compaction {
  import opened Wrappers
  import opened Buckets
  import opened MemoryState
  import opened MemoryPrims

  // ---------------------------------------------------------------------
  // Candidates

  /** ScanForCompaction's test: a batch with slots whose utilisation `active/slots` is below 0.25. */
  predicate IsCandidate(bt: Batch)
  {
    |bt.slots| != 0 && 4 * |bt.activeSlots| < |bt.slots|
  }

  /** `active(x)/slots(x) <= active(y)/slots(y)`, cross-multiplied. */
  predicate UtilLe(x: Batch, y: Batch)
  {
    |x.activeSlots| * |y.slots| <= |y.activeSlots| * |x.slots|
  }

  /** Every batch id a pool lists is live. */
  ghost predicate Listed(m: Mem)
  {
    forall b: Bucket, j :: 0 <= j < |m.buckets.Get(b).batches| ==> m.buckets.Get(b).batches[j] in m.arena
  }

  /** The candidates of one pool, in the pool's order. */
  function PoolCandidates(arena: map<int, Batch>, ids: seq<int>): (r: seq<int>)
    requires forall j :: 0 <= j < |ids| ==> ids[j] in arena
    ensures forall x :: x in r <==> x in ids && IsCandidate(arena[x])
    ensures |r| <= |ids|
    ensures forall j :: 0 <= j < |r| ==> r[j] in arena
  {
    if ids == [] then []
    else
      var rest := PoolCandidates(arena, ids[1..]);
      assert forall x :: x in ids <==> x == ids[0] || x in ids[1..];
      if IsCandidate(arena[ids[0]]) then [ids[0]] + rest else rest
  }

  /** The scan over the buckets in `bs`, in that order. */
  function Collect(m: Mem, bs: seq<Bucket>): (r: seq<int>)
    requires Listed(m)
    ensures forall x :: x in r <==> exists k :: 0 <= k < |bs| && x in m.buckets.Get(bs[k]).batches && IsCandidate(m.arena[x])
    ensures forall j :: 0 <= j < |r| ==> r[j] in m.arena
  {
    if bs == [] then []
    else
      var here := PoolCandidates(m.arena, m.buckets.Get(bs[0]).batches);
      var rest := Collect(m, bs[1..]);
      assert forall x :: x in rest <==> exists k :: 1 <= k < |bs| && x in m.buckets.Get(bs[k]).batches && IsCandidate(m.arena[x]) by {
        forall x | x in rest ensures exists k :: 1 <= k < |bs| && x in m.buckets.Get(bs[k]).batches && IsCandidate(m.arena[x]) {
          var k :| 0 <= k < |bs[1..]| && x in m.buckets.Get(bs[1..][k]).batches && IsCandidate(m.arena[x]);
          assert bs[1..][k] == bs[k + 1];
        }
        forall x | (exists k :: 1 <= k < |bs| && x in m.buckets.Get(bs[k]).batches && IsCandidate(m.arena[x])) ensures x in rest {
          var k :| 1 <= k < |bs| && x in m.buckets.Get(bs[k]).batches && IsCandidate(m.arena[x]);
          assert bs[1..][k - 1] == bs[k];
        }
      }
      assert forall j :: 0 <= j < |here + rest| ==> (here + rest)[j] in here || (here + rest)[j] in rest;
      here + rest
  }

  /** Inserts x before the first entry of higher utilisation. */
  function InsertByUtil(arena: map<int, Batch>, x: int, xs: seq<int>): (r: seq<int>)
    requires x in arena && forall j :: 0 <= j < |xs| ==> xs[j] in arena
    ensures multiset(r) == multiset(xs) + multiset{x}
    ensures forall j :: 0 <= j < |r| ==> r[j] in arena
  {
    if xs == [] then [x]
    else if !UtilLe(arena[xs[0]], arena[x]) then [x] + xs
    else
      assert xs == [xs[0]] + xs[1..];
      [xs[0]] + InsertByUtil(arena, x, xs[1..])
  }

  /** An insertion sort by utilisation (one of the orders `sort.Slice` may produce). */
  function SortByUtil(arena: map<int, Batch>, xs: seq<int>): (r: seq<int>)
    requires forall j :: 0 <= j < |xs| ==> xs[j] in arena
    ensures multiset(r) == multiset(xs)
    ensures forall j :: 0 <= j < |r| ==> r[j] in arena
  {
    if xs == [] then []
    else
      assert xs == [xs[0]] + xs[1..];
      InsertByUtil(arena, xs[0], SortByUtil(arena, xs[1..]))
  }

  /** Sorted by ascending utilisation. */
  ghost predicate SortedByUtil(arena: map<int, Batch>, xs: seq<int>)
    requires forall j :: 0 <= j < |xs| ==> xs[j] in arena
  {
    forall i, j :: 0 <= i < j < |xs| ==> UtilLe(arena[xs[i]], arena[xs[j]])
  }

  /** ScanForCompaction: the candidates of all pools, S to XXL, by ascending utilisation. */
  function ScanForCompaction(m: Mem): (r: seq<int>)
    requires Listed(m)
    ensures multiset(r) == multiset(Collect(m, BucketOrder))
  {
    SortByUtil(m.arena, Collect(m, BucketOrder))
  }

  // ---------------------------------------------------------------------
  // Properties of the scan

  lemma MulLe(a: int, b: int, c: int)
    requires a <= b && c >= 0
    ensures a * c <= b * c
  {
  }

  /** Utilisation order is transitive over batches that have slots. */
  lemma UtilLeTrans(x: Batch, y: Batch, z: Batch)
    requires |x.slots| > 0 && |y.slots| > 0 && |z.slots| > 0
    requires UtilLe(x, y) && UtilLe(y, z)
    ensures UtilLe(x, z)
  {
    var a1, s1 := |x.activeSlots|, |x.slots|;
    var a2, s2 := |y.activeSlots|, |y.slots|;
    var a3, s3 := |z.activeSlots|, |z.slots|;
    MulLe(a1 * s2, a2 * s1, s3);
    MulLe(a2 * s3, a3 * s2, s1);
    assert (a1 * s3) * s2 <= (a3 * s1) * s2 by {
      assert (a1 * s2) * s3 == (a1 * s3) * s2;
      assert (a2 * s1) * s3 == (a2 * s3) * s1;
      assert (a3 * s2) * s1 == (a3 * s1) * s2;
    }
    if a1 * s3 > a3 * s1 {
      MulLe(a3 * s1 + 1, a1 * s3, s2);
    }
  }

  /** Any two batches with slots are ordered one way or the other. */
  lemma UtilLeTotal(x: Batch, y: Batch)
    ensures UtilLe(x, y) || UtilLe(y, x)
  {
  }

  lemma {:induction false} InsertByUtilSorted(arena: map<int, Batch>, x: int, xs: seq<int>)
    requires x in arena && forall j :: 0 <= j < |xs| ==> xs[j] in arena
    requires |arena[x].slots| > 0 && forall j :: 0 <= j < |xs| ==> |arena[xs[j]].slots| > 0
    requires SortedByUtil(arena, xs)
    ensures SortedByUtil(arena, InsertByUtil(arena, x, xs))
    decreases |xs|
  {
    var r := InsertByUtil(arena, x, xs);
    if xs == [] {
    } else if !UtilLe(arena[xs[0]], arena[x]) {
      UtilLeTotal(arena[x], arena[xs[0]]);
      forall i, j | 0 <= i < j < |r| ensures UtilLe(arena[r[i]], arena[r[j]]) {
        if i == 0 && j > 1 {
          UtilLeTrans(arena[x], arena[xs[0]], arena[xs[j - 1]]);
        }
      }
    } else {
      var tail := InsertByUtil(arena, x, xs[1..]);
      InsertByUtilSorted(arena, x, xs[1..]);
      forall i, j | 0 <= i < j < |r| ensures UtilLe(arena[r[i]], arena[r[j]]) {
        if i == 0 {
          assert r[j] in multiset(tail);
          assert r[j] == x || r[j] in multiset(xs[1..]);
          if r[j] != x {
            var k :| 0 <= k < |xs[1..]| && xs[1..][k] == r[j];
            assert xs[k + 1] == r[j];
          }
        }
      }
    }
  }

  lemma {:induction false} SortByUtilSorted(arena: map<int, Batch>, xs: seq<int>)
    requires forall j :: 0 <= j < |xs| ==> xs[j] in arena && |arena[xs[j]].slots| > 0
    ensures SortedByUtil(arena, SortByUtil(arena, xs))
    decreases |xs|
  {
    if xs != [] {
      SortByUtilSorted(arena, xs[1..]);
      var s := SortByUtil(arena, xs[1..]);
      forall j | 0 <= j < |s| ensures |arena[s[j]].slots| > 0 {
        assert s[j] in multiset(xs[1..]);
        var k :| 0 <= k < |xs[1..]| && xs[1..][k] == s[j];
      }
      InsertByUtilSorted(arena, xs[0], s);
    }
  }

  /**
   * ScanForCompaction returns exactly the candidates of the pools (batches
   * with slots and utilisation below 0.25), each as often as its pool lists
   * it, by ascending utilisation.
   */
  lemma ScanForCompactionSpec(m: Mem)
    requires Listed(m)
    ensures SortedByUtil(m.arena, ScanForCompaction(m))
    ensures forall x :: x in ScanForCompaction(m) <==>
              (exists b: Bucket :: x in m.buckets.Get(b).batches) && IsCandidate(m.arena[x])
  {
    var all := Collect(m, BucketOrder);
    forall j | 0 <= j < |all| ensures all[j] in m.arena && |m.arena[all[j]].slots| > 0 {
      assert all[j] in all;
    }
    SortByUtilSorted(m.arena, all);
    forall x ensures x in ScanForCompaction(m) <==> x in all {
      assert x in ScanForCompaction(m) <==> x in multiset(ScanForCompaction(m));
    }
    forall x ensures (x in all) <==> (exists b: Bucket :: x in m.buckets.Get(b).batches) && IsCandidate(m.arena[x]) {
      if x in m.arena && IsCandidate(m.arena[x]) && exists b: Bucket :: x in m.buckets.Get(b).batches {
        var b: Bucket :| x in m.buckets.Get(b).batches;
        var k := match b case S => 0 case M => 1 case L => 2 case XL => 3 case XXL => 4;
        assert BucketOrder[k] == b;
      }
    }
  }

  /** An XXL batch (one slot) is a candidate only when it is empty, so no XXL payload is ever moved. */
  lemma XxlCandidateIsEmpty(m: Mem, x: int)
    requires Inv(m) && x in m.arena && m.arena[x].bucketSize == XXL && IsCandidate(m.arena[x])
    ensures |m.arena[x].activeSlots| == 0
  {
    assert BatchOk(m.arena[x]);
  }

  // ---------------------------------------------------------------------
  // Moving one slot (copySlotData)

  /** copySlotData's `oldSlotIndex` search: the first active-list position, from k, whose slot c owns. */
  function OwnerPos(bt: Batch, c: int, k: nat): (r: Option<nat>)
    requires k <= |bt.activeSlots| && ActiveInRange(bt)
    ensures r.Some? ==> k <= r.value < |bt.activeSlots| && bt.slots[bt.activeSlots[r.value]].clusterID == c
    ensures r.None? ==> forall j :: k <= j < |bt.activeSlots| ==> bt.slots[bt.activeSlots[j]].clusterID != c
    decreases |bt.activeSlots| - k
  {
    if k == |bt.activeSlots| then None
    else if bt.slots[bt.activeSlots[k]].clusterID == c then Some(k)
    else OwnerPos(bt, c, k + 1)
  }

  lemma OwnerPosFinds(bt: Batch, c: int, q: nat)
    requires ActiveInRange(bt) && q < |bt.activeSlots| && bt.slots[bt.activeSlots[q]].clusterID == c
    ensures OwnerPos(bt, c, 0).Some?
  {
  }

  /** The source batch after a move: slot i cleared and, when found, active-list entry `pos` deleted in order. */
  function Vacate(bt: Batch, i: nat, pos: Option<nat>): (r: Batch)
    requires i < |bt.slots| && (pos.Some? ==> pos.value < |bt.activeSlots|)
    ensures r.slots == bt.slots[i := Cleared(bt.slots[i])]
    ensures r.activeSlots == if pos.Some? then DeleteAt(bt.activeSlots, pos.value) else bt.activeSlots
    ensures r.(slots := bt.slots, activeSlots := bt.activeSlots) == bt
  {
    var bt1 := bt.(slots := bt.slots[i := Cleared(bt.slots[i])]);
    if pos.Some? then bt1.(activeSlots := DeleteAt(bt.activeSlots, pos.value)) else bt1
  }

  /**
   * copySlotData: claims a slot of the target for the cluster of source slot
   * i, copies the slot's floats across, repoints the cluster's record, clears
   * the source slot, deletes its active-list entry and lists it as free.
   * Errors when the target has no free slot (nothing changes), or when the
   * cluster has no record (the target slot stays claimed).
   */
  function CopySlotDataM(m: Mem, src: int, i: nat, tgt: int): (r: (Mem, Outcome<Error>))
    requires Inv(m) && src in m.arena && tgt in m.arena && src != tgt
    requires i < |m.arena[src].slots|
    ensures r.1.Pass? <==> FirstInactive(m.arena[tgt].slots).Some? && m.arena[src].slots[i].clusterID in m.clusterSlots
    ensures FirstInactive(m.arena[tgt].slots).None? ==> r.0 == m && r.1 == Fail(NoAvailableSlot)
    ensures r.1.Pass? ==> r.0.clusterSlots == m.clusterSlots[m.arena[src].slots[i].clusterID :=
              SlotAllocation(tgt, FirstInactive(m.arena[tgt].slots).value, m.arena[src].slots[i].vertexCount)]
    ensures r.0.arena.Keys == m.arena.Keys
  {
    var S := m.arena[src];
    var s := S.slots[i];
    assert m.arena[tgt].id == tgt && BatchOk(S);
    var a := AllocateSlotInBatchM(m, tgt, s.clusterID, s.vertexCount);
    match a.1
    case Err(e) => (a.0, Fail(e))
    case Ok(ti) =>
      var T := a.0.arena[tgt];
      var V := CopyRange(T.vbo, S.vbo, s.vertexOffset * FloatsPerVertex, T.slots[ti].vertexOffset * FloatsPerVertex,
                         s.vertexCount * FloatsPerVertex);
      var m1 := a.0.(arena := a.0.arena[tgt := T.(vbo := V)]);
      if s.clusterID !in m1.clusterSlots then (m1, Fail(NoAllocationRecord))
      else
        var b := S.bucketSize;
        assert m1.arena.Keys == m.arena.Keys by {
          UpdateKeepsKeys(m.arena, tgt, T);
          UpdateKeepsKeys(a.0.arena, tgt, T.(vbo := V));
        }
        UpdateKeepsKeys(m1.arena, src, Vacate(S, i, OwnerPos(S, s.clusterID, 0)));
        var m2 := m1.(arena := m1.arena[src := Vacate(S, i, OwnerPos(S, s.clusterID, 0))],
                      clusterSlots := m1.clusterSlots[s.clusterID := SlotAllocation(tgt, ti, s.vertexCount)]);
        (WithFree(m2, b, AddFreeSlot(m2.buckets.Get(b).freeSlots, SlotRef(src, i))), Pass)
  }

  /** Writing a key a map already has keeps its key set. */
  lemma UpdateKeepsKeys<V>(f: map<int, V>, k: int, v: V)
    requires k in f
    ensures f[k := v].Keys == f.Keys
  {
  }

  /** The state a successful move leaves, for a source and target of one pool. */
  ghost predicate MovedState(m: Mem, src: int, i: nat, tgt: int, ti: nat, p: nat, m': Mem)
  {
    && src in m.arena && tgt in m.arena && src != tgt
    && i < |m.arena[src].slots| && ti < |m.arena[tgt].slots| && p < |m.arena[src].activeSlots|
    && m.arena[src].activeSlots[p] == i
    && (var S := m.arena[src];
        var T := m.arena[tgt];
        var s := S.slots[i];
        var b := S.bucketSize;
        var pool := m.buckets.Get(b);
        && T.bucketSize == b
        && tgt in m'.arena
        && m'.arena[tgt] == Claim(T, ti, s.clusterID, s.vertexCount).(vbo := m'.arena[tgt].vbo)
        && m'.arena == m.arena[tgt := m'.arena[tgt]][src := Vacate(S, i, Some(p))]
        && m'.buckets.Get(b) == pool.(freeSlots := AddFreeSlot(RemoveFromFreeList(pool.freeSlots, SlotRef(tgt, ti)), SlotRef(src, i)))
        && (forall b' :: b' != b ==> m'.buckets.Get(b') == m.buckets.Get(b'))
        && m'.clusterSlots == m.clusterSlots[s.clusterID := SlotAllocation(tgt, ti, s.vertexCount)])
    && m'.reupload == m.reupload && m'.nextBatchID == m.nextBatchID
  }

  /** The active-list position copySlotData finds for the owner of active slot i is the position of i. */
  lemma OwnerPosOfActive(m: Mem, src: int, i: nat) returns (p: nat)
    requires Inv(m) && src in m.arena
    requires i < |m.arena[src].slots| && m.arena[src].slots[i].active
    ensures ActiveInRange(m.arena[src])
    ensures OwnerPos(m.arena[src], m.arena[src].slots[i].clusterID, 0) == Some(p)
    ensures p < |m.arena[src].activeSlots| && m.arena[src].activeSlots[p] == i
    ensures m.arena[src].slots[i].clusterID in m.clusterSlots
  {
    var S := m.arena[src];
    var c := S.slots[i].clusterID;
    assert BatchOk(S);
    assert c in m.clusterSlots && m.clusterSlots[c].batch == src && m.clusterSlots[c].slotIndex == i;
    assert i in S.activeSlots;
    var q :| 0 <= q < |S.activeSlots| && S.activeSlots[q] == i;
    OwnerPosFinds(S, c, q);
    p := OwnerPos(S, c, 0).value;
    var j := S.activeSlots[p];
    assert S.slots[j].active;
    assert m.clusterSlots[S.slots[j].clusterID].slotIndex == j;
  }

  /**
   * The target's buffer after a move: the source slot's floats copied to
   * target slot ti, everything outside that range as it was.
   */
  ghost predicate MovedVbo(m: Mem, src: int, i: nat, tgt: int, ti: nat, m': Mem)
    requires src in m.arena && tgt in m.arena && tgt in m'.arena
    requires i < |m.arena[src].slots| && ti < |m.arena[tgt].slots|
  {
    var S := m.arena[src];
    var T := m.arena[tgt];
    var s := S.slots[i];
    var lo := T.slots[ti].vertexOffset * FloatsPerVertex;
    var n := s.vertexCount * FloatsPerVertex;
    && Read(m'.arena[tgt].vbo, lo, n) == Read(S.vbo, s.vertexOffset * FloatsPerVertex, n)
    && (forall a :: (a < lo || a >= lo + n) ==> (a in m'.arena[tgt].vbo <==> a in T.vbo))
    && (forall a :: (a < lo || a >= lo + n) && a in T.vbo ==> m'.arena[tgt].vbo[a] == T.vbo[a])
  }

  /** A move from active slot i of src to a target of the same pool with a free slot reaches MovedState. */
  lemma CopyReachesMovedState(m: Mem, src: int, i: nat, tgt: int) returns (ti: nat, p: nat)
    requires Inv(m) && src in m.arena && tgt in m.arena && src != tgt
    requires i < |m.arena[src].slots| && m.arena[src].slots[i].active
    requires m.arena[tgt].bucketSize == m.arena[src].bucketSize
    requires FirstInactive(m.arena[tgt].slots).Some?
    ensures CopySlotDataM(m, src, i, tgt).1.Pass?
    ensures ti == FirstInactive(m.arena[tgt].slots).value
    ensures MovedState(m, src, i, tgt, ti, p, CopySlotDataM(m, src, i, tgt).0)
    ensures MovedVbo(m, src, i, tgt, ti, CopySlotDataM(m, src, i, tgt).0)
  {
    ti, p := CopyComputes(m, src, i, tgt);
    assert m.arena[tgt].id == tgt;
    MoveResultState(m, src, i, tgt, ti, p);
  }

  /** The state a move from active slot i of src (active-list position p) to free slot ti of tgt leaves. */
  ghost function MoveResult(m: Mem, src: int, i: nat, tgt: int, ti: nat, p: nat): Mem
    requires src in m.arena && tgt in m.arena
    requires i < |m.arena[src].slots| && ti < |m.arena[tgt].slots| && p < |m.arena[src].activeSlots|
  {
    var S := m.arena[src];
    var s := S.slots[i];
    var b := S.bucketSize;
    var T1 := Claim(m.arena[tgt], ti, s.clusterID, s.vertexCount);
    var V := CopyRange(T1.vbo, S.vbo, s.vertexOffset * FloatsPerVertex, T1.slots[ti].vertexOffset * FloatsPerVertex,
                       s.vertexCount * FloatsPerVertex);
    var a := PutBatch(WithFree(m, b, RemoveFromFreeList(m.buckets.Get(b).freeSlots, SlotRef(tgt, ti))), T1);
    var m1 := a.(arena := a.arena[tgt := T1.(vbo := V)]);
    var m2 := m1.(arena := m1.arena[src := Vacate(S, i, Some(p))],
                  clusterSlots := m1.clusterSlots[s.clusterID := SlotAllocation(tgt, ti, s.vertexCount)]);
    WithFree(m2, b, AddFreeSlot(m2.buckets.Get(b).freeSlots, SlotRef(src, i)))
  }

  /** copySlotData, on an active source slot and a target of its pool with room, computes MoveResult. */
  lemma CopyComputes(m: Mem, src: int, i: nat, tgt: int) returns (ti: nat, p: nat)
    requires Inv(m) && src in m.arena && tgt in m.arena && src != tgt
    requires i < |m.arena[src].slots| && m.arena[src].slots[i].active
    requires m.arena[tgt].bucketSize == m.arena[src].bucketSize
    requires FirstInactive(m.arena[tgt].slots).Some?
    ensures ti == FirstInactive(m.arena[tgt].slots).value && ti < |m.arena[tgt].slots|
    ensures p < |m.arena[src].activeSlots| && m.arena[src].activeSlots[p] == i
    ensures CopySlotDataM(m, src, i, tgt) == (MoveResult(m, src, i, tgt, ti, p), Pass)
  {
    var S := m.arena[src];
    var T := m.arena[tgt];
    var s := S.slots[i];
    var c := s.clusterID;
    var b := S.bucketSize;
    var pool := m.buckets.Get(b);
    p := OwnerPosOfActive(m, src, i);
    ti := FirstInactive(T.slots).value;
    assert T.id == tgt;
    var a := AllocateSlotInBatchM(m, tgt, c, s.vertexCount);
    var ma := WithFree(m, b, RemoveFromFreeList(pool.freeSlots, SlotRef(tgt, ti)));
    assert a == (PutBatch(ma, Claim(T, ti, c, s.vertexCount)), Ok(ti));
    assert a.0.arena[tgt] == Claim(T, ti, c, s.vertexCount);
  }

  /** MoveResult is the moved state, and the target's buffer holds the source slot's vertices. */
  lemma MoveResultState(m: Mem, src: int, i: nat, tgt: int, ti: nat, p: nat)
    requires src in m.arena && tgt in m.arena && src != tgt
    requires i < |m.arena[src].slots| && ti < |m.arena[tgt].slots| && p < |m.arena[src].activeSlots|
    requires m.arena[src].activeSlots[p] == i
    requires m.arena[tgt].bucketSize == m.arena[src].bucketSize && m.arena[tgt].id == tgt
    ensures MovedState(m, src, i, tgt, ti, p, MoveResult(m, src, i, tgt, ti, p))
    ensures MovedVbo(m, src, i, tgt, ti, MoveResult(m, src, i, tgt, ti, p))
  {
    var S := m.arena[src];
    var s := S.slots[i];
    var b := S.bucketSize;
    var T1 := Claim(m.arena[tgt], ti, s.clusterID, s.vertexCount);
    var V := CopyRange(T1.vbo, S.vbo, s.vertexOffset * FloatsPerVertex, T1.slots[ti].vertexOffset * FloatsPerVertex,
                       s.vertexCount * FloatsPerVertex);
    var a := PutBatch(WithFree(m, b, RemoveFromFreeList(m.buckets.Get(b).freeSlots, SlotRef(tgt, ti))), T1);
    var m1 := a.(arena := a.arena[tgt := T1.(vbo := V)]);
    var m2 := m1.(arena := m1.arena[src := Vacate(S, i, Some(p))],
                  clusterSlots := m1.clusterSlots[s.clusterID := SlotAllocation(tgt, ti, s.vertexCount)]);
    var m' := MoveResult(m, src, i, tgt, ti, p);
    assert m' == WithFree(m2, b, AddFreeSlot(m2.buckets.Get(b).freeSlots, SlotRef(src, i)));
    assert m'.arena == m.arena[tgt := T1.(vbo := V)][src := Vacate(S, i, Some(p))];
  }

  /** Clearing active slot i and deleting its active-list entry keeps a batch well formed. */
  lemma VacateBatchOk(bt: Batch, i: nat, p: nat)
    requires BatchOk(bt) && p < |bt.activeSlots| && bt.activeSlots[p] == i && i < |bt.slots|
    ensures BatchOk(Vacate(bt, i, Some(p)))
  {
    var bt' := Vacate(bt, i, Some(p));
    DeleteAtNoDuplicates(bt.activeSlots, p);
    assert SlotLayout(bt') by {
      assert forall j :: 0 <= j < |bt.slots| ==> bt'.slots[j].vertexOffset == bt.slots[j].vertexOffset;
    }
    assert ActiveListOk(bt') by {
      forall k | 0 <= k < |bt'.activeSlots| ensures bt'.activeSlots[k] < |bt'.slots| && bt'.slots[bt'.activeSlots[k]].active {
        assert bt'.activeSlots[k] in DeleteAt(bt.activeSlots, p);
      }
      forall j | 0 <= j < |bt'.slots| && bt'.slots[j].active ensures j in bt'.activeSlots {
        assert j in bt.activeSlots;
      }
    }
    assert PayloadsFit(bt') by {
      forall j | 0 <= j < |bt'.slots| && bt'.slots[j].active ensures bt'.slots[j].vertexCount <= SlotCapacity(bt', j) {
        assert SlotCapacity(bt', j) == SlotCapacity(bt, j);
      }
    }
  }

  /** A move keeps the invariant. */
  lemma MovedKeepsInv(m: Mem, src: int, i: nat, tgt: int, ti: nat, p: nat, m': Mem)
    requires Inv(m) && MovedState(m, src, i, tgt, ti, p, m')
    requires !m.arena[tgt].slots[ti].active && m.arena[src].bucketSize != XXL
    ensures Inv(m')
  {
    MovedArenaOk(m, src, i, tgt, ti, p, m');
    MovedFreeListsOk(m, src, i, tgt, ti, p, m');
    MovedRecordsOk(m, src, i, tgt, ti, p, m');
    MovedOwnersOk(m, src, i, tgt, ti, p, m');
  }

  lemma MovedArenaOk(m: Mem, src: int, i: nat, tgt: int, ti: nat, p: nat, m': Mem)
    requires Inv(m) && MovedState(m, src, i, tgt, ti, p, m')
    requires !m.arena[tgt].slots[ti].active && m.arena[src].bucketSize != XXL
    ensures ArenaOk(m') && PoolsShaped(m')
  {
    MovedBatchesOk(m, src, i, tgt, ti, p, m');
    MovedPoolsSame(m, src, i, tgt, ti, p, m');
    SameBatchesArenaOk(m, m');
  }

  /** Both batches a move touches stay well formed; every batch keeps its id and bucket. */
  lemma MovedBatchesOk(m: Mem, src: int, i: nat, tgt: int, ti: nat, p: nat, m': Mem)
    requires Inv(m) && MovedState(m, src, i, tgt, ti, p, m')
    requires !m.arena[tgt].slots[ti].active && m.arena[src].bucketSize != XXL
    ensures forall x :: x in m'.arena <==> x in m.arena
    ensures forall x :: x in m.arena ==>
      m'.arena[x].id == m.arena[x].id && m'.arena[x].bucketSize == m.arena[x].bucketSize && BatchOk(m'.arena[x])
  {
    var S := m.arena[src];
    var T := m.arena[tgt];
    var s := S.slots[i];
    assert BatchOk(S) && BatchOk(T);
    assert s.vertexCount <= SlotCapacity(T, ti) by {
      assert S.slots[S.activeSlots[p]].active;
      assert SlotCapacity(S, i) == SlotCapacity(T, ti);
    }
    VacateBatchOk(S, i, p);
    ClaimBatchOk(T, ti, s.clusterID, s.vertexCount, m'.arena[tgt].vbo);
    assert forall x :: x in m.arena ==> BatchOk(m.arena[x]);
    TwoBatchesOk(m.arena, src, tgt, Vacate(S, i, Some(p)), m'.arena[tgt]);
  }

  /** Replacing two well-formed batches by well-formed batches with the same id and bucket keeps every batch well formed. */
  lemma TwoBatchesOk(arena: map<int, Batch>, src: int, tgt: int, S: Batch, T: Batch)
    requires src in arena && tgt in arena
    requires forall x :: x in arena ==> BatchOk(arena[x])
    requires BatchOk(S) && S.id == arena[src].id && S.bucketSize == arena[src].bucketSize
    requires BatchOk(T) && T.id == arena[tgt].id && T.bucketSize == arena[tgt].bucketSize
    ensures forall x :: x in arena[tgt := T][src := S] <==> x in arena
    ensures forall x :: x in arena ==>
      && arena[tgt := T][src := S][x].id == arena[x].id
      && arena[tgt := T][src := S][x].bucketSize == arena[x].bucketSize
      && BatchOk(arena[tgt := T][src := S][x])
  {
  }

  /** A move changes no pool's batch list or shape. */
  lemma MovedPoolsSame(m: Mem, src: int, i: nat, tgt: int, ti: nat, p: nat, m': Mem)
    requires MovedState(m, src, i, tgt, ti, p, m')
    ensures forall b: Bucket :: m'.buckets.Get(b).batches == m.buckets.Get(b).batches
    ensures forall b: Bucket :: m'.buckets.Get(b).size == m.buckets.Get(b).size
    ensures forall b: Bucket :: m'.buckets.Get(b).vertexCapacityPerSlot == m.buckets.Get(b).vertexCapacityPerSlot
    ensures forall b: Bucket :: m'.buckets.Get(b).slotsPerBatch == m.buckets.Get(b).slotsPerBatch
  {
  }

  lemma MovedFreeListsOk(m: Mem, src: int, i: nat, tgt: int, ti: nat, p: nat, m': Mem)
    requires Inv(m) && MovedState(m, src, i, tgt, ti, p, m')
    ensures FreeListsOk(m')
  {
    MovedFreeRefsOk(m, src, i, tgt, ti, p, m');
    MovedFreeNoDuplicates(m, src, i, tgt, ti, p, m');
  }

  /** The freed source slot is not on its pool's free list before the move. */
  lemma SourceNotFree(m: Mem, src: int, i: nat)
    requires Inv(m) && src in m.arena && i < |m.arena[src].slots| && m.arena[src].slots[i].active
    ensures SlotRef(src, i) !in m.buckets.Get(m.arena[src].bucketSize).freeSlots
  {
    var b := m.arena[src].bucketSize;
    forall r | r in m.buckets.Get(b).freeSlots ensures r != SlotRef(src, i) {
      assert FreeRefOk(m, b, r);
    }
  }

  lemma MovedFreeNoDuplicates(m: Mem, src: int, i: nat, tgt: int, ti: nat, p: nat, m': Mem)
    requires Inv(m) && MovedState(m, src, i, tgt, ti, p, m')
    ensures forall b: Bucket :: NoDuplicates(m'.buckets.Get(b).freeSlots)
  {
    var S := m.arena[src];
    var b := S.bucketSize;
    var free := m.buckets.Get(b).freeSlots;
    assert BatchOk(S) && S.slots[S.activeSlots[p]].active;
    SourceNotFree(m, src, i);
    RemoveFromFreeListNoDuplicates(free, SlotRef(tgt, ti));
    AddFreeSlotNoDuplicates(RemoveFromFreeList(free, SlotRef(tgt, ti)), SlotRef(src, i));
    forall b': Bucket ensures NoDuplicates(m'.buckets.Get(b').freeSlots) {
      if b' != b {
        assert m'.buckets.Get(b') == m.buckets.Get(b');
      }
    }
  }

  lemma MovedFreeRefsOk(m: Mem, src: int, i: nat, tgt: int, ti: nat, p: nat, m': Mem)
    requires Inv(m) && MovedState(m, src, i, tgt, ti, p, m')
    ensures forall b: Bucket, r :: r in m'.buckets.Get(b).freeSlots ==> FreeRefOk(m', b, r)
  {
    var S := m.arena[src];
    var b := S.bucketSize;
    var free := m.buckets.Get(b).freeSlots;
    var removed := RemoveFromFreeList(free, SlotRef(tgt, ti));
    assert BatchOk(S) && S.slots[S.activeSlots[p]].active;
    SourceNotFree(m, src, i);
    RemoveFromFreeListNoDuplicates(free, SlotRef(tgt, ti));
    forall b': Bucket, r | r in m'.buckets.Get(b').freeSlots ensures FreeRefOk(m', b', r) {
      if b' == b {
        if r != SlotRef(src, i) {
          assert r in removed;
          assert r != SlotRef(tgt, ti);
          assert FreeRefOk(m, b', r);
        }
      } else {
        assert r in m.buckets.Get(b').freeSlots;
        assert FreeRefOk(m, b', r);
        assert r.batch != src && r.batch != tgt;
      }
    }
  }

  lemma MovedRecordsOk(m: Mem, src: int, i: nat, tgt: int, ti: nat, p: nat, m': Mem)
    requires Inv(m) && MovedState(m, src, i, tgt, ti, p, m')
    requires !m.arena[tgt].slots[ti].active
    ensures RecordsOk(m')
  {
    var S := m.arena[src];
    var c := S.slots[i].clusterID;
    assert BatchOk(S) && S.slots[i].active;
    forall c' | c' in m'.clusterSlots ensures RecordOk(m', c', m'.clusterSlots[c']) {
      if c' != c {
        var a := m.clusterSlots[c'];
        assert RecordOk(m, c', a);
        assert a.batch != src || a.slotIndex != i;
        assert a.batch != tgt || a.slotIndex != ti;
      }
    }
  }

  lemma MovedOwnersOk(m: Mem, src: int, i: nat, tgt: int, ti: nat, p: nat, m': Mem)
    requires Inv(m) && MovedState(m, src, i, tgt, ti, p, m')
    ensures OwnersOk(m')
  {
    forall y, j | y in m'.arena && 0 <= j < |m'.arena[y].slots| && m'.arena[y].slots[j].active
      ensures m'.arena[y].slots[j].clusterID in m'.clusterSlots
      ensures m'.clusterSlots[m'.arena[y].slots[j].clusterID].batch == y
      ensures m'.clusterSlots[m'.arena[y].slots[j].clusterID].slotIndex == j
    {
      MovedOwnerAt(m, src, i, tgt, ti, p, m', y, j);
    }
  }

  /** After a move, the owner of active slot j of batch y has the record pointing at it. */
  lemma MovedOwnerAt(m: Mem, src: int, i: nat, tgt: int, ti: nat, p: nat, m': Mem, y: int, j: nat)
    requires Inv(m) && MovedState(m, src, i, tgt, ti, p, m')
    requires y in m'.arena && j < |m'.arena[y].slots| && m'.arena[y].slots[j].active
    ensures m'.arena[y].slots[j].clusterID in m'.clusterSlots
    ensures m'.clusterSlots[m'.arena[y].slots[j].clusterID].batch == y
    ensures m'.clusterSlots[m'.arena[y].slots[j].clusterID].slotIndex == j
  {
    if y != tgt || j != ti {
      MovedSlotSame(m, src, i, tgt, ti, p, m', y, j);
      var c := m.arena[src].slots[i].clusterID;
      assert m.arena[src].slots[i].active by {
        assert BatchOk(m.arena[src]);
      }
      assert m.clusterSlots[c].batch == src && m.clusterSlots[c].slotIndex == i;
      assert m.arena[y].slots[j].clusterID != c;
    }
  }

  /** A slot that is active after a move and is not the target's claimed slot is unchanged, and is not the vacated one. */
  lemma MovedSlotSame(m: Mem, src: int, i: nat, tgt: int, ti: nat, p: nat, m': Mem, y: int, j: nat)
    requires MovedState(m, src, i, tgt, ti, p, m')
    requires y in m'.arena && j < |m'.arena[y].slots| && m'.arena[y].slots[j].active
    requires y != tgt || j != ti
    ensures y in m.arena && j < |m.arena[y].slots| && m'.arena[y].slots[j] == m.arena[y].slots[j]
    ensures y != src || j != i
  {
  }

  // ---------------------------------------------------------------------
  // What a move keeps

  /** The floats a cluster's record points at: `vertexCount * 6` of them from its slot's offset. */
  ghost function Payload(m: Mem, c: int): seq<Option<Float32>>
    requires c in m.clusterSlots && RecordOk(m, c, m.clusterSlots[c])
  {
    var a := m.clusterSlots[c];
    var s := m.arena[a.batch].slots[a.slotIndex];
    Read(m.arena[a.batch].vbo, s.vertexOffset * FloatsPerVertex, s.vertexCount * FloatsPerVertex)
  }

  /** A read wholly outside a rewritten range sees the old buffer. */
  lemma ReadOutside(v0: map<int, Float32>, v1: map<int, Float32>, lo: int, len: nat, base: int, n: nat)
    requires forall a :: (a < lo || a >= lo + len) ==> (a in v1 <==> a in v0)
    requires forall a :: (a < lo || a >= lo + len) && a in v0 ==> v1[a] == v0[a]
    requires base + n <= lo || base >= lo + len
    ensures Read(v1, base, n) == Read(v0, base, n)
  {
    forall k | 0 <= k < n ensures Read(v1, base, n)[k] == Read(v0, base, n)[k] {
    }
  }

  /** Two distinct slots `cap` vertices apart, each holding at most `cap` vertices, occupy disjoint float ranges. */
  lemma SlotRangesDisjoint(cap: nat, j: nat, ti: nat, vj: nat, v: nat)
    requires j != ti && vj <= cap && v <= cap
    ensures (cap * j) * FloatsPerVertex + vj * FloatsPerVertex <= (cap * ti) * FloatsPerVertex
         || (cap * j) * FloatsPerVertex >= (cap * ti) * FloatsPerVertex + v * FloatsPerVertex
  {
    if j < ti {
      MulLe(j + 1, ti, cap);
    } else {
      MulLe(ti + 1, j, cap);
    }
  }

  /** A move keeps the invariant, every record, and the floats each cluster's record points at. */
  lemma MovedKeepsPayloads(m: Mem, src: int, i: nat, tgt: int, ti: nat, p: nat, m': Mem)
    requires Inv(m) && MovedState(m, src, i, tgt, ti, p, m') && MovedVbo(m, src, i, tgt, ti, m')
    requires !m.arena[tgt].slots[ti].active && m.arena[src].bucketSize != XXL
    ensures Inv(m')
    ensures m'.clusterSlots.Keys == m.clusterSlots.Keys
    ensures forall c :: c in m.clusterSlots ==> Payload(m', c) == Payload(m, c)
  {
    MovedKeepsInv(m, src, i, tgt, ti, p, m');
    MovedPayloadsSame(m, src, i, tgt, ti, p, m');
  }

  /** Once the moved state is known to be well formed, every cluster reads back the same payload. */
  lemma MovedPayloadsSame(m: Mem, src: int, i: nat, tgt: int, ti: nat, p: nat, m': Mem)
    requires Inv(m) && MovedState(m, src, i, tgt, ti, p, m') && MovedVbo(m, src, i, tgt, ti, m')
    requires !m.arena[tgt].slots[ti].active && m.arena[src].bucketSize != XXL
    requires Inv(m')
    ensures m'.clusterSlots.Keys == m.clusterSlots.Keys
    ensures forall c :: c in m.clusterSlots ==> Payload(m', c) == Payload(m, c)
  {
    assert m.arena[src].slots[i].clusterID in m.clusterSlots by {
      assert BatchOk(m.arena[src]) && m.arena[src].slots[m.arena[src].activeSlots[p]].active;
    }
    forall c | c in m.clusterSlots ensures Payload(m', c) == Payload(m, c) {
      MovedPayload(m, src, i, tgt, ti, p, m', c);
    }
  }

  lemma MovedPayload(m: Mem, src: int, i: nat, tgt: int, ti: nat, p: nat, m': Mem, c: int)
    requires Inv(m) && MovedState(m, src, i, tgt, ti, p, m') && MovedVbo(m, src, i, tgt, ti, m')
    requires !m.arena[tgt].slots[ti].active && m.arena[src].bucketSize != XXL
    requires Inv(m') && c in m.clusterSlots && c in m'.clusterSlots
    ensures Payload(m', c) == Payload(m, c)
  {
    var S := m.arena[src];
    var T := m.arena[tgt];
    var s := S.slots[i];
    var a := m.clusterSlots[c];
    assert RecordOk(m, c, a) && BatchOk(S) && BatchOk(T);
    assert S.slots[S.activeSlots[p]].active;
    var cap := VertexCapacityForBucket(S.bucketSize);
    assert s.vertexCount <= cap;
    if c == s.clusterID {
      assert a.batch == src && a.slotIndex == i;
      assert m'.arena[tgt].slots[ti].vertexOffset == T.slots[ti].vertexOffset;
    } else if a.batch == src {
      assert a.slotIndex != i;
      assert m'.arena[src].slots[a.slotIndex] == S.slots[a.slotIndex];
    } else if a.batch == tgt {
      var j := a.slotIndex;
      assert j != ti;
      var sj := T.slots[j];
      assert m'.arena[tgt].slots[j] == sj;
      assert sj.vertexCount <= cap;
      SlotRangesDisjoint(cap, j, ti, sj.vertexCount, s.vertexCount);
      ReadOutside(T.vbo, m'.arena[tgt].vbo, T.slots[ti].vertexOffset * FloatsPerVertex, s.vertexCount * FloatsPerVertex,
                  sj.vertexOffset * FloatsPerVertex, sj.vertexCount * FloatsPerVertex);
    } else {
      assert m'.arena[a.batch] == m.arena[a.batch];
    }
  }

  // ---------------------------------------------------------------------
  // Moving a batch's slots (CompactBatch)

  /** The number of active slots over the batches `ids`. */
  function ActiveTotal(arena: map<int, Batch>, ids: seq<int>): nat
    requires forall j :: 0 <= j < |ids| ==> ids[j] in arena
  {
    if ids == [] then 0 else |arena[ids[0]].activeSlots| + ActiveTotal(arena, ids[1..])
  }

  /**
   * What compaction within pool b keeps: the invariant, the set of batches,
   * every record and the floats it points at, every pool's batch list, every
   * batch of another pool, and the number of active slots in pool b.
   */
  ghost predicate Compacted(m: Mem, m': Mem, b: Bucket)
  {
    && Inv(m) && Inv(m')
    && m'.arena.Keys == m.arena.Keys
    && m'.clusterSlots.Keys == m.clusterSlots.Keys
    && (forall c :: c in m.clusterSlots ==> Payload(m', c) == Payload(m, c))
    && (forall b' :: m'.buckets.Get(b').batches == m.buckets.Get(b').batches)
    && (forall b' :: b' != b ==> m'.buckets.Get(b') == m.buckets.Get(b'))
    && (forall x :: x in m.arena ==> m'.arena[x].bucketSize == m.arena[x].bucketSize)
    && (forall x :: x in m.arena && m.arena[x].bucketSize != b ==> m'.arena[x] == m.arena[x])
    && ActiveTotal(m'.arena, m.buckets.Get(b).batches) == ActiveTotal(m.arena, m.buckets.Get(b).batches)
    && m'.reupload == m.reupload && m'.nextBatchID == m.nextBatchID
  }

  lemma CompactedKeepsBucket(m: Mem, m': Mem, b: Bucket, x: int)
    requires Compacted(m, m', b) && x in m.arena
    ensures x in m'.arena && m'.arena[x].bucketSize == m.arena[x].bucketSize
  {
  }

  lemma CompactedRefl(m: Mem, b: Bucket)
    requires Inv(m)
    ensures Compacted(m, m, b)
  {
  }

  lemma CompactedTrans(m1: Mem, m2: Mem, m3: Mem, b: Bucket)
    requires Compacted(m1, m2, b) && Compacted(m2, m3, b)
    ensures Compacted(m1, m3, b)
  {
    assert m2.buckets.Get(b).batches == m1.buckets.Get(b).batches;
  }

  /** Moving one active slot from x to y (x, y distinct and listed once) leaves the total unchanged. */
  lemma {:induction false} ActiveTotalShift(a0: map<int, Batch>, a1: map<int, Batch>, ids: seq<int>, x: int, y: int)
    requires forall j :: 0 <= j < |ids| ==> ids[j] in a0 && ids[j] in a1
    requires NoDuplicates(ids) && x != y
    requires forall z :: z in ids && z != x && z != y ==> |a1[z].activeSlots| == |a0[z].activeSlots|
    requires x in ids ==> |a1[x].activeSlots| + 1 == |a0[x].activeSlots|
    requires y in ids ==> |a1[y].activeSlots| == |a0[y].activeSlots| + 1
    ensures ActiveTotal(a1, ids) + (if x in ids then 1 else 0) == ActiveTotal(a0, ids) + (if y in ids then 1 else 0)
    decreases |ids|
  {
    if ids != [] {
      assert NoDuplicates(ids[1..]);
      assert forall z :: z in ids[1..] ==> z in ids;
      assert ids[0] !in ids[1..];
      ActiveTotalShift(a0, a1, ids[1..], x, y);
    }
  }

  /** One step of CompactBatch's loop: a move to a target of the same pool with a spare slot. */
  lemma CopyStep(m: Mem, src: int, i: nat, t: int)
    requires Inv(m) && src in m.arena && t in m.arena && src != t
    requires i < |m.arena[src].slots| && m.arena[src].slots[i].active
    requires m.arena[t].bucketSize == m.arena[src].bucketSize != XXL
    requires |m.arena[t].activeSlots| < |m.arena[t].slots|
    ensures CopySlotDataM(m, src, i, t).1 == Pass
    ensures Compacted(m, CopySlotDataM(m, src, i, t).0, m.arena[src].bucketSize)
    ensures forall j :: 0 <= j < |m.arena[src].slots| && j != i ==>
              CopySlotDataM(m, src, i, t).0.arena[src].slots[j] == m.arena[src].slots[j]
    ensures |CopySlotDataM(m, src, i, t).0.arena[src].slots| == |m.arena[src].slots|
    ensures |CopySlotDataM(m, src, i, t).0.arena[src].activeSlots| + 1 == |m.arena[src].activeSlots|
    ensures forall x :: x in m.arena && x != src && x != t ==> CopySlotDataM(m, src, i, t).0.arena[x] == m.arena[x]
  {
    var T := m.arena[t];
    assert BatchOk(T);
    SpareSlotExists(T);
    var ti, p := CopyReachesMovedState(m, src, i, t);
    var m' := CopySlotDataM(m, src, i, t).0;
    MovedCompacted(m, src, i, t, ti, p, m');
    MovedSource(m, src, i, t, ti, p, m');
  }

  /** What a move does to the source batch and to the batches it does not touch. */
  lemma MovedSource(m: Mem, src: int, i: nat, tgt: int, ti: nat, p: nat, m': Mem)
    requires MovedState(m, src, i, tgt, ti, p, m')
    ensures src in m'.arena && |m'.arena[src].slots| == |m.arena[src].slots|
    ensures forall j :: 0 <= j < |m.arena[src].slots| && j != i ==> m'.arena[src].slots[j] == m.arena[src].slots[j]
    ensures |m'.arena[src].activeSlots| + 1 == |m.arena[src].activeSlots|
    ensures forall x :: x in m.arena && x != src && x != tgt ==> m'.arena[x] == m.arena[x]
  {
  }

  lemma MovedCompacted(m: Mem, src: int, i: nat, tgt: int, ti: nat, p: nat, m': Mem)
    requires Inv(m) && MovedState(m, src, i, tgt, ti, p, m') && MovedVbo(m, src, i, tgt, ti, m')
    requires !m.arena[tgt].slots[ti].active && m.arena[src].bucketSize != XXL
    ensures Compacted(m, m', m.arena[src].bucketSize)
  {
    var b := m.arena[src].bucketSize;
    MovedKeepsPayloads(m, src, i, tgt, ti, p, m');
    MovedTotal(m, src, i, tgt, ti, p, m');
    MovedPoolsSame(m, src, i, tgt, ti, p, m');
    MovedArenaFrame(m, src, i, tgt, ti, p, m');
  }

  /** A move changes only the source and the target, both of the source's bucket, and keeps every batch's bucket. */
  lemma MovedArenaFrame(m: Mem, src: int, i: nat, tgt: int, ti: nat, p: nat, m': Mem)
    requires MovedState(m, src, i, tgt, ti, p, m')
    ensures m'.arena.Keys == m.arena.Keys
    ensures forall x :: x in m.arena ==> m'.arena[x].bucketSize == m.arena[x].bucketSize
    ensures forall x :: x in m.arena && m.arena[x].bucketSize != m.arena[src].bucketSize ==> m'.arena[x] == m.arena[x]
  {
  }

  lemma MovedTotal(m: Mem, src: int, i: nat, tgt: int, ti: nat, p: nat, m': Mem)
    requires Inv(m) && MovedState(m, src, i, tgt, ti, p, m') && !m.arena[tgt].slots[ti].active
    ensures forall j :: 0 <= j < |m.buckets.Get(m.arena[src].bucketSize).batches| ==>
              m.buckets.Get(m.arena[src].bucketSize).batches[j] in m'.arena
    ensures ActiveTotal(m'.arena, m.buckets.Get(m.arena[src].bucketSize).batches)
         == ActiveTotal(m.arena, m.buckets.Get(m.arena[src].bucketSize).batches)
  {
    var S := m.arena[src];
    var T := m.arena[tgt];
    assert BatchOk(T) && T.id == tgt;
    assert ti !in T.activeSlots;
    var ids := m.buckets.Get(S.bucketSize).batches;
    assert src in ids && tgt in ids;
    ActiveTotalShift(m.arena, m'.arena, ids, src, tgt);
  }

  /** CompactBatch's targets: the batches of `ids` other than `src` with a spare slot, in list order. */
  function Targets(arena: map<int, Batch>, ids: seq<int>, src: int): (r: seq<int>)
    requires forall j :: 0 <= j < |ids| ==> ids[j] in arena
    ensures forall x :: x in r <==> x in ids && x != src && |arena[x].activeSlots| < |arena[x].slots|
    ensures forall j :: 0 <= j < |r| ==> r[j] in ids
  {
    if ids == [] then []
    else
      var rest := Targets(arena, ids[1..], src);
      assert forall x :: x in ids <==> x == ids[0] || x in ids[1..];
      if ids[0] != src && |arena[ids[0]].activeSlots| < |arena[ids[0]].slots| then [ids[0]] + rest else rest
  }

  /**
   * CompactBatch's loop over the remaining snapshot `toMove` of the source's
   * active list: each slot goes to the first target that still has a spare
   * slot; the loop stops when no target has one. Returns the state, whether
   * the source is now empty, the running count of moves, and any error.
   */
  function MoveSlots(m: Mem, src: int, toMove: seq<nat>, targets: seq<int>, moved: nat)
    : (r: (Mem, bool, nat, Outcome<Error>))
    requires MoveReady(m, src, toMove, targets)
    decreases |toMove|
  {
    if toMove == [] then
      (m, |m.arena[src].activeSlots| == 0, moved, Pass)
    else
      match FirstWithCapacity(m.arena, targets, 0)
      case None =>
        (m, |m.arena[src].activeSlots| == 0, moved, Pass)
      case Some(t) =>
        MoveSlotsCopy(m, src, toMove, targets, t);
        MoveSlots(CopySlotDataM(m, src, toMove[0], t).0, src, toMove[1..], targets, moved + 1)
  }

  /**
   * What the loop promises: no error; the pass's invariants hold; the moved
   * count grows by at most the snapshot's length and matches what the source
   * lost; the source is reported empty exactly when it is; when a slot stayed
   * behind every target is full; batches that are neither source nor target
   * are untouched.
   */
  ghost predicate MoveSlotsPost(m: Mem, src: int, toMove: seq<nat>, targets: seq<int>, moved: nat, r: (Mem, bool, nat, Outcome<Error>))
    requires MoveReady(m, src, toMove, targets)
  {
    && r.3 == Pass
    && Compacted(m, r.0, m.arena[src].bucketSize)
    && moved <= r.2 <= moved + |toMove|
    && |r.0.arena[src].activeSlots| + (r.2 - moved) == |m.arena[src].activeSlots|
    && (r.1 <==> |r.0.arena[src].activeSlots| == 0)
    && (r.2 < moved + |toMove| ==> forall j :: 0 <= j < |targets| ==>
          |r.0.arena[targets[j]].activeSlots| >= |r.0.arena[targets[j]].slots|)
    && (forall x :: x in m.arena && x != src && x !in targets ==> r.0.arena[x] == m.arena[x])
  }

  /** MoveSlots keeps its promises, by induction over the snapshot. */
  lemma {:induction false} MoveSlotsFacts(m: Mem, src: int, toMove: seq<nat>, targets: seq<int>, moved: nat)
    requires MoveReady(m, src, toMove, targets)
    ensures MoveSlotsPost(m, src, toMove, targets, moved, MoveSlots(m, src, toMove, targets, moved))
    decreases |toMove|
  {
    if toMove == [] || FirstWithCapacity(m.arena, targets, 0).None? {
      MoveSlotsStop(m, src, toMove, targets, moved);
      CompactedRefl(m, m.arena[src].bucketSize);
    } else {
      var t := FirstWithCapacity(m.arena, targets, 0).value;
      MoveSlotsCopy(m, src, toMove, targets, t);
      MoveSlotsUnfold(m, src, toMove, targets, moved, t);
      var m1 := CopySlotDataM(m, src, toMove[0], t).0;
      MoveSlotsFacts(m1, src, toMove[1..], targets, moved + 1);
      MoveSlotsTail(m, m1, src, toMove, targets, moved, MoveSlots(m1, src, toMove[1..], targets, moved + 1));
    }
  }

  /** What the rest of the loop promises from the state after one move, it promises from the state before. */
  lemma MoveSlotsTail(m: Mem, m1: Mem, src: int, toMove: seq<nat>, targets: seq<int>, moved: nat, r: (Mem, bool, nat, Outcome<Error>))
    requires MoveReady(m, src, toMove, targets) && toMove != []
    requires MoveReady(m1, src, toMove[1..], targets)
    requires Compacted(m, m1, m.arena[src].bucketSize) && m1.arena[src].bucketSize == m.arena[src].bucketSize
    requires |m1.arena[src].activeSlots| + 1 == |m.arena[src].activeSlots|
    requires forall x :: x in m.arena && x != src && x !in targets ==> m1.arena[x] == m.arena[x]
    requires MoveSlotsPost(m1, src, toMove[1..], targets, moved + 1, r)
    ensures MoveSlotsPost(m, src, toMove, targets, moved, r)
  {
    CompactedTrans(m, m1, r.0, m.arena[src].bucketSize);
  }

  /** What MoveSlots needs of its state and arguments. */
  ghost predicate MoveReady(m: Mem, src: int, toMove: seq<nat>, targets: seq<int>)
  {
    && Inv(m) && src in m.arena && m.arena[src].bucketSize != XXL
    && src !in targets
    && (forall j :: 0 <= j < |targets| ==> targets[j] in m.arena && m.arena[targets[j]].bucketSize == m.arena[src].bucketSize)
    && NoDuplicates(toMove)
    && (forall k :: 0 <= k < |toMove| ==> toMove[k] < |m.arena[src].slots| && m.arena[src].slots[toMove[k]].active)
  }

  /** One turn of the loop: the first slot moves to the first target with room, and the rest of the loop follows. */
  lemma MoveSlotsUnfold(m: Mem, src: int, toMove: seq<nat>, targets: seq<int>, moved: nat, t: int)
    requires MoveReady(m, src, toMove, targets) && toMove != []
    requires FirstWithCapacity(m.arena, targets, 0) == Some(t)
    ensures t in m.arena && t != src && toMove[0] < |m.arena[src].slots|
    ensures MoveReady(CopySlotDataM(m, src, toMove[0], t).0, src, toMove[1..], targets)
    ensures MoveSlots(m, src, toMove, targets, moved)
         == MoveSlots(CopySlotDataM(m, src, toMove[0], t).0, src, toMove[1..], targets, moved + 1)
  {
    MoveSlotsCopy(m, src, toMove, targets, t);
  }

  /** Moving the first slot to the first target with room: the pass's invariants hold and the rest of the loop is ready. */
  lemma MoveSlotsCopy(m: Mem, src: int, toMove: seq<nat>, targets: seq<int>, t: int)
    requires MoveReady(m, src, toMove, targets) && toMove != []
    requires FirstWithCapacity(m.arena, targets, 0) == Some(t)
    ensures t in m.arena && t != src && toMove[0] < |m.arena[src].slots|
    ensures Compacted(m, CopySlotDataM(m, src, toMove[0], t).0, m.arena[src].bucketSize)
    ensures CopySlotDataM(m, src, toMove[0], t).0.arena[src].bucketSize == m.arena[src].bucketSize
    ensures |CopySlotDataM(m, src, toMove[0], t).0.arena[src].activeSlots| + 1 == |m.arena[src].activeSlots|
    ensures forall x :: x in m.arena && x != src && x !in targets ==> CopySlotDataM(m, src, toMove[0], t).0.arena[x] == m.arena[x]
    ensures MoveReady(CopySlotDataM(m, src, toMove[0], t).0, src, toMove[1..], targets)
  {
    CopyStep(m, src, toMove[0], t);
    var m' := CopySlotDataM(m, src, toMove[0], t).0;
    MoveSlotsStep(m, m', src, toMove, targets, t);
    CompactedKeepsBucket(m, m', m.arena[src].bucketSize, src);
  }

  /** The loop ends when no target has room: nothing more moves. */
  lemma MoveSlotsStop(m: Mem, src: int, toMove: seq<nat>, targets: seq<int>, moved: nat)
    requires MoveReady(m, src, toMove, targets)
    requires toMove == [] || FirstWithCapacity(m.arena, targets, 0).None?
    ensures MoveSlots(m, src, toMove, targets, moved) == (m, |m.arena[src].activeSlots| == 0, moved, Pass)
  {
  }

  /** The loop's preconditions carry over to the next slot. */
  lemma MoveSlotsStep(m: Mem, m': Mem, src: int, toMove: seq<nat>, targets: seq<int>, t: int)
    requires src in m.arena && toMove != [] && NoDuplicates(toMove) && t in targets && src !in targets
    requires forall k :: 0 <= k < |toMove| ==> toMove[k] < |m.arena[src].slots| && m.arena[src].slots[toMove[k]].active
    requires forall j :: 0 <= j < |targets| ==> targets[j] in m.arena && m.arena[targets[j]].bucketSize == m.arena[src].bucketSize
    requires Compacted(m, m', m.arena[src].bucketSize)
    requires |m'.arena[src].slots| == |m.arena[src].slots|
    requires forall j :: 0 <= j < |m.arena[src].slots| && j != toMove[0] ==> m'.arena[src].slots[j] == m.arena[src].slots[j]
    ensures NoDuplicates(toMove[1..])
    ensures forall k :: 0 <= k < |toMove[1..]| ==> toMove[1..][k] < |m'.arena[src].slots| && m'.arena[src].slots[toMove[1..][k]].active
    ensures forall j :: 0 <= j < |targets| ==> targets[j] in m'.arena && m'.arena[targets[j]].bucketSize == m'.arena[src].bucketSize
  {
    forall k | 0 <= k < |toMove[1..]|
      ensures toMove[1..][k] < |m'.arena[src].slots| && m'.arena[src].slots[toMove[1..][k]].active
    {
      assert toMove[1..][k] == toMove[k + 1] != toMove[0];
    }
    forall j | 0 <= j < |targets|
      ensures targets[j] in m'.arena && m'.arena[targets[j]].bucketSize == m'.arena[src].bucketSize
    {
      assert targets[j] in m.arena.Keys && src in m.arena.Keys;
      CompactedKeepsBucket(m, m', m.arena[src].bucketSize, targets[j]);
      CompactedKeepsBucket(m, m', m.arena[src].bucketSize, src);
    }
  }

  /**
   * CompactBatch: moves the source's active slots, in active-list order, to
   * the other batches of its pool that have a spare slot. Returns whether the
   * source ended empty, how many slots moved, and any error.
   */
  function CompactBatchM(m: Mem, src: int): (r: (Mem, bool, nat, Outcome<Error>))
    requires Inv(m) && src in m.arena && m.arena[src].bucketSize != XXL
    ensures r.3 == Pass
    ensures Compacted(m, r.0, m.arena[src].bucketSize)
    ensures |r.0.arena[src].activeSlots| + r.2 == |m.arena[src].activeSlots|
    ensures r.1 ==> |r.0.arena[src].activeSlots| == 0
  {
    var b := m.arena[src].bucketSize;
    var ids := m.buckets.Get(b).batches;
    assert forall j :: 0 <= j < |ids| ==> ids[j] in m.arena && m.arena[ids[j]].bucketSize == b;
    var targets := Targets(m.arena, ids, src);
    if targets == [] then
      CompactedRefl(m, b);
      (m, false, 0, Pass)
    else
      CompactReady(m, src);
      MoveSlotsFacts(m, src, m.arena[src].activeSlots, targets, 0);
      MoveSlots(m, src, m.arena[src].activeSlots, targets, 0)
  }

  /** CompactBatch's snapshot and targets meet what MoveSlots needs. */
  lemma CompactReady(m: Mem, src: int)
    requires Inv(m) && src in m.arena && m.arena[src].bucketSize != XXL
    ensures forall j :: 0 <= j < |m.buckets.Get(m.arena[src].bucketSize).batches| ==>
              m.buckets.Get(m.arena[src].bucketSize).batches[j] in m.arena
    ensures MoveReady(m, src, m.arena[src].activeSlots, Targets(m.arena, m.buckets.Get(m.arena[src].bucketSize).batches, src))
  {
    var b := m.arena[src].bucketSize;
    var ids := m.buckets.Get(b).batches;
    assert forall j :: 0 <= j < |ids| ==> ids[j] in m.arena && m.arena[ids[j]].bucketSize == b;
    assert BatchOk(m.arena[src]);
  }

  /**
   * CompactBatch's outcome: with no other batch of the pool having a spare
   * slot nothing happens; the source is reported deletable exactly when it
   * ended empty and there was somewhere to move to; and when some slot stayed
   * behind, every other batch of the pool is full.
   */
  lemma CompactBatchOutcome(m: Mem, src: int)
    requires Inv(m) && src in m.arena && m.arena[src].bucketSize != XXL
    ensures (forall x :: x in m.buckets.Get(m.arena[src].bucketSize).batches && x != src ==>
               |m.arena[x].activeSlots| >= |m.arena[x].slots|) ==> CompactBatchM(m, src) == (m, false, 0, Pass)
    ensures CompactBatchM(m, src).1 <==>
              (|CompactBatchM(m, src).0.arena[src].activeSlots| == 0 &&
               exists x :: x in m.buckets.Get(m.arena[src].bucketSize).batches && x != src &&
                           |m.arena[x].activeSlots| < |m.arena[x].slots|)
    ensures CompactBatchM(m, src).2 < |m.arena[src].activeSlots| ==>
              forall x :: x in m.buckets.Get(m.arena[src].bucketSize).batches && x != src ==>
                |CompactBatchM(m, src).0.arena[x].activeSlots| >= |CompactBatchM(m, src).0.arena[x].slots|
  {
    var b := m.arena[src].bucketSize;
    var ids := m.buckets.Get(b).batches;
    assert forall j :: 0 <= j < |ids| ==> ids[j] in m.arena && m.arena[ids[j]].bucketSize == b;
    var targets := Targets(m.arena, ids, src);
    var r := CompactBatchM(m, src);
    if targets != [] {
      CompactReady(m, src);
      MoveSlotsFacts(m, src, m.arena[src].activeSlots, targets, 0);
      assert r == MoveSlots(m, src, m.arena[src].activeSlots, targets, 0);
      if r.2 < |m.arena[src].activeSlots| {
        forall x | x in ids && x != src ensures |r.0.arena[x].activeSlots| >= |r.0.arena[x].slots| {
          if x in targets {
            var j :| 0 <= j < |targets| && targets[j] == x;
          }
        }
      }
      var x0 := targets[0];
      assert x0 in ids && x0 != src && |m.arena[x0].activeSlots| < |m.arena[x0].slots|;
    }
  }

  // ---------------------------------------------------------------------
  // Each candidate once

  lemma {:induction false} CountAtMostOne<T>(xs: seq<T>, v: T)
    requires NoDuplicates(xs)
    ensures multiset(xs)[v] <= 1
    decreases |xs|
  {
    if xs != [] {
      assert xs == [xs[0]] + xs[1..];
      assert NoDuplicates(xs[1..]);
      CountAtMostOne(xs[1..], v);
      if xs[0] == v {
        assert v !in xs[1..];
      }
    }
  }

  /** An entry found at two positions is counted at least twice. */
  lemma TwoPositions<T>(ys: seq<T>, i: nat, j: nat)
    requires i < j < |ys|
    ensures ys[i] == ys[j] ==> multiset(ys)[ys[i]] >= 2
  {
    assert ys == ys[..j] + [ys[j]] + ys[j + 1..];
    assert ys[i] in ys[..j];
  }

  /** A permutation of a duplicate-free list is duplicate-free. */
  lemma PermutationNoDuplicates<T>(xs: seq<T>, ys: seq<T>)
    requires NoDuplicates(xs) && multiset(xs) == multiset(ys)
    ensures NoDuplicates(ys)
  {
    forall i, j | 0 <= i < j < |ys| ensures ys[i] != ys[j] {
      CountAtMostOne(xs, ys[i]);
      TwoPositions(ys, i, j);
    }
  }

  lemma {:induction false} PoolCandidatesNoDuplicates(arena: map<int, Batch>, ids: seq<int>)
    requires forall j :: 0 <= j < |ids| ==> ids[j] in arena
    requires NoDuplicates(ids)
    ensures NoDuplicates(PoolCandidates(arena, ids))
    decreases |ids|
  {
    if ids != [] {
      assert NoDuplicates(ids[1..]);
      assert ids[0] !in ids[1..];
      PoolCandidatesNoDuplicates(arena, ids[1..]);
    }
  }

  /** Over distinct buckets, the scan lists each batch once, and only batches of those buckets. */
  lemma {:induction false} CollectNoDuplicates(m: Mem, bs: seq<Bucket>)
    requires Inv(m) && NoDuplicates(bs)
    ensures Listed(m)
    ensures NoDuplicates(Collect(m, bs))
    ensures forall x :: x in Collect(m, bs) ==> m.arena[x].bucketSize in bs
    decreases |bs|
  {
    assert Listed(m);
    if bs != [] {
      var pool := m.buckets.Get(bs[0]);
      var here := PoolCandidates(m.arena, pool.batches);
      var rest := Collect(m, bs[1..]);
      assert NoDuplicates(bs[1..]);
      CollectNoDuplicates(m, bs[1..]);
      PoolCandidatesNoDuplicates(m.arena, pool.batches);
      forall x | x in here ensures m.arena[x].bucketSize == bs[0] {
        var k :| 0 <= k < |pool.batches| && pool.batches[k] == x;
      }
      assert bs[0] !in bs[1..];
      var r := here + rest;
      forall i, j | 0 <= i < j < |r| ensures r[i] != r[j] {
        if i < |here| && j >= |here| {
          assert r[i] in here && r[j] in rest;
        }
      }
      forall x | x in Collect(m, bs) ensures m.arena[x].bucketSize in bs {
        if x in here {
          assert m.arena[x].bucketSize == bs[0];
        } else {
          assert x in rest;
        }
      }
    }
  }

  /** Every batch appears at most once in the candidate list, and an XXL candidate is empty. */
  lemma ScanCandidatesDistinct(m: Mem)
    requires Inv(m)
    ensures Listed(m)
    ensures NoDuplicates(ScanForCompaction(m))
    ensures forall j :: 0 <= j < |ScanForCompaction(m)| ==>
      ScanForCompaction(m)[j] in m.arena &&
      (m.arena[ScanForCompaction(m)[j]].bucketSize == XXL ==> |m.arena[ScanForCompaction(m)[j]].activeSlots| == 0)
  {
    CollectNoDuplicates(m, BucketOrder);
    PermutationNoDuplicates(Collect(m, BucketOrder), ScanForCompaction(m));
    ScanForCompactionSpec(m);
    ScanCandidatesReady(m);
  }

  lemma ScanCandidatesReady(m: Mem)
    requires Inv(m)
    ensures forall j :: 0 <= j < |ScanForCompaction(m)| ==>
      ScanForCompaction(m)[j] in m.arena &&
      (m.arena[ScanForCompaction(m)[j]].bucketSize == XXL ==> |m.arena[ScanForCompaction(m)[j]].activeSlots| == 0)
  {
    ScanForCompactionSpec(m);
    forall j | 0 <= j < |ScanForCompaction(m)|
      ensures ScanForCompaction(m)[j] in m.arena &&
        (m.arena[ScanForCompaction(m)[j]].bucketSize == XXL ==> |m.arena[ScanForCompaction(m)[j]].activeSlots| == 0)
    {
      var x := ScanForCompaction(m)[j];
      assert x in ScanForCompaction(m);
      if m.arena[x].bucketSize == XXL {
        XxlCandidateIsEmpty(m, x);
      }
    }
  }

  // ---------------------------------------------------------------------
  // One compaction pass (TryCompaction)

  /**
   * What a compaction pass keeps: the invariant, every record and the floats
   * it points at; batches may only disappear.
   */
  ghost predicate Kept(m: Mem, m': Mem)
  {
    && Inv(m) && Inv(m')
    && m'.arena.Keys <= m.arena.Keys
    && m'.clusterSlots.Keys == m.clusterSlots.Keys
    && (forall c :: c in m.clusterSlots ==> Payload(m', c) == Payload(m, c))
    && m'.reupload == m.reupload && m'.nextBatchID == m.nextBatchID
  }

  lemma KeptTrans(m1: Mem, m2: Mem, m3: Mem)
    requires Kept(m1, m2) && Kept(m2, m3)
    ensures Kept(m1, m3)
  {
  }

  /** Deleting an empty batch succeeds, leaves every other batch as it was, and keeps every record and its floats. */
  lemma DeleteEmptyKept(m: Mem, x: int)
    requires Inv(m) && x in m.arena && |m.arena[x].activeSlots| == 0
    ensures DeleteBatchM(m, x).1 == Pass
    ensures Kept(m, DeleteBatchM(m, x).0)
    ensures DeleteBatchM(m, x).0.arena == m.arena - {x}
  {
    var m' := DeleteBatchM(m, x).0;
    DeleteBatchKeepsInv(m, x);
    assert BatchOk(m.arena[x]);
    forall c | c in m.clusterSlots ensures Payload(m', c) == Payload(m, c) {
      var a := m.clusterSlots[c];
      assert RecordOk(m, c, a) && BatchOk(m.arena[a.batch]);
      assert a.slotIndex in m.arena[a.batch].activeSlots;
    }
  }

  /** What the rest of the pass needs of the candidates still to come. */
  ghost predicate Ready(m: Mem, cands: seq<int>)
  {
    && NoDuplicates(cands)
    && forall j :: 0 <= j < |cands| ==>
         cands[j] in m.arena && (m.arena[cands[j]].bucketSize == XXL ==> |m.arena[cands[j]].activeSlots| == 0)
  }

  /** The later candidates stay ready when the first is processed and no other XXL batch changes. */
  lemma ReadyTail(m: Mem, m': Mem, cands: seq<int>)
    requires Ready(m, cands) && cands != []
    requires forall y :: y in m.arena && y != cands[0] ==> y in m'.arena
    requires forall y :: y in m.arena && y != cands[0] && m.arena[y].bucketSize == XXL ==> m'.arena[y] == m.arena[y]
    requires forall y :: y in m.arena && y != cands[0] ==> m'.arena[y].bucketSize == m.arena[y].bucketSize
    ensures Ready(m', cands[1..])
  {
    forall j | 0 <= j < |cands[1..]|
      ensures cands[1..][j] in m'.arena &&
              (m'.arena[cands[1..][j]].bucketSize == XXL ==> |m'.arena[cands[1..][j]].activeSlots| == 0)
    {
      assert cands[1..][j] == cands[j + 1] != cands[0];
    }
  }

  function Max(a: nat, b: nat): nat
  {
    if a < b then b else a
  }

  /** One iteration of TryCompaction's loop, on the first candidate. */
  function Step(m: Mem, cands: seq<int>, compacted: nat, deleted: nat): (r: (Mem, nat, nat))
    requires Inv(m) && Ready(m, cands) && cands != []
    ensures Kept(m, r.0) && Ready(r.0, cands[1..])
    ensures compacted <= r.1 <= compacted + 1
    ensures deleted <= r.2 && r.2 + compacted <= r.1 + deleted
    ensures m.arena.Keys - {cands[0]} <= r.0.arena.Keys
  {
    if |m.arena[cands[0]].activeSlots| == 0 then StepEmpty(m, cands, compacted, deleted)
    else StepSparse(m, cands, compacted, deleted)
  }

  /** An empty candidate is deleted; a successful deletion counts as a compaction. */
  function StepEmpty(m: Mem, cands: seq<int>, compacted: nat, deleted: nat): (r: (Mem, nat, nat))
    requires Inv(m) && Ready(m, cands) && cands != [] && |m.arena[cands[0]].activeSlots| == 0
    ensures Kept(m, r.0) && Ready(r.0, cands[1..])
    ensures compacted <= r.1 <= compacted + 1
    ensures deleted <= r.2 && r.2 + compacted <= r.1 + deleted
    ensures m.arena.Keys - {cands[0]} <= r.0.arena.Keys
  {
    var x := cands[0];
    DeleteEmptyKept(m, x);
    var d := DeleteBatchM(m, x);
    ReadyAfterDelete(m, d.0, cands);
    var ok := if d.1.Pass? then 1 else 0;
    (d.0, compacted + ok, deleted + ok)
  }

  /** Deleting the first candidate leaves the others ready and every other batch in place. */
  lemma ReadyAfterDelete(m: Mem, m': Mem, cands: seq<int>)
    requires Ready(m, cands) && cands != [] && m'.arena == m.arena - {cands[0]}
    ensures Ready(m', cands[1..])
    ensures m.arena.Keys - {cands[0]} <= m'.arena.Keys
  {
    ReadyTail(m, m', cands);
  }

  /**
   * A candidate with active slots is compacted, which counts when a slot
   * moved, and deleted when that left it empty.
   */
  function StepSparse(m: Mem, cands: seq<int>, compacted: nat, deleted: nat): (r: (Mem, nat, nat))
    requires Inv(m) && Ready(m, cands) && cands != [] && |m.arena[cands[0]].activeSlots| != 0
    ensures Kept(m, r.0) && Ready(r.0, cands[1..])
    ensures compacted <= r.1 <= compacted + 1
    ensures deleted <= r.2 && r.2 + compacted <= r.1 + deleted
    ensures m.arena.Keys - {cands[0]} <= r.0.arena.Keys
  {
    SparseCompacted(m, cands);
    var cb := CompactBatchM(m, cands[0]);
    AfterCompaction(m, cands, cb.0, cb.1, cb.2, compacted, deleted)
  }

  /** The rest of a step once the candidate was compacted into m1, moving moved slots. */
  function AfterCompaction(m: Mem, cands: seq<int>, m1: Mem, emptied: bool, moved: nat, compacted: nat, deleted: nat): (r: (Mem, nat, nat))
    requires Inv(m) && Ready(m, cands) && cands != []
    requires Kept(m, m1) && Ready(m1, cands[1..]) && m1.arena.Keys == m.arena.Keys
    requires emptied ==> moved > 0 && |m1.arena[cands[0]].activeSlots| == 0
    requires forall y :: y in m.arena && m.arena[y].bucketSize == XXL ==> m1.arena[y] == m.arena[y]
    requires forall y :: y in m.arena ==> m1.arena[y].bucketSize == m.arena[y].bucketSize
    ensures Kept(m, r.0) && Ready(r.0, cands[1..])
    ensures compacted <= r.1 <= compacted + 1
    ensures deleted <= r.2 && r.2 + compacted <= r.1 + deleted
    ensures m.arena.Keys - {cands[0]} <= r.0.arena.Keys
  {
    var compacted': nat := if moved > 0 then compacted + 1 else compacted;
    var deleted': nat := if emptied then deleted + 1 else deleted;
    (AfterMove(m, cands, m1, emptied), compacted', deleted')
  }

  /** The memory after a step: the compacted candidate is deleted when compaction emptied it. */
  function AfterMove(m: Mem, cands: seq<int>, m1: Mem, emptied: bool): (r: Mem)
    requires Inv(m) && Ready(m, cands) && cands != []
    requires Kept(m, m1) && Ready(m1, cands[1..]) && m1.arena.Keys == m.arena.Keys
    requires emptied ==> |m1.arena[cands[0]].activeSlots| == 0
    requires forall y :: y in m.arena && m.arena[y].bucketSize == XXL ==> m1.arena[y] == m.arena[y]
    requires forall y :: y in m.arena ==> m1.arena[y].bucketSize == m.arena[y].bucketSize
    ensures Kept(m, r) && Ready(r, cands[1..])
    ensures m.arena.Keys - {cands[0]} <= r.arena.Keys
  {
    if emptied then DeleteEmptied(m, m1, cands) else m1
  }

  /** Compacting a candidate with active slots keeps the pass's invariants; deletable means something moved. */
  lemma SparseCompacted(m: Mem, cands: seq<int>)
    requires Inv(m) && Ready(m, cands) && cands != [] && |m.arena[cands[0]].activeSlots| != 0
    ensures m.arena[cands[0]].bucketSize != XXL
    ensures CompactBatchM(m, cands[0]).3 == Pass
    ensures Kept(m, CompactBatchM(m, cands[0]).0) && Ready(CompactBatchM(m, cands[0]).0, cands[1..])
    ensures CompactBatchM(m, cands[0]).0.arena.Keys == m.arena.Keys
    ensures CompactBatchM(m, cands[0]).1 ==>
              CompactBatchM(m, cands[0]).2 > 0 && |CompactBatchM(m, cands[0]).0.arena[cands[0]].activeSlots| == 0
    ensures forall y :: y in m.arena && m.arena[y].bucketSize == XXL ==> CompactBatchM(m, cands[0]).0.arena[y] == m.arena[y]
    ensures forall y :: y in m.arena ==> CompactBatchM(m, cands[0]).0.arena[y].bucketSize == m.arena[y].bucketSize
  {
    var x := cands[0];
    var cb := CompactBatchM(m, x);
    var b := m.arena[x].bucketSize;
    CompactedKept(m, cb.0, b);
    ReadyTail(m, cb.0, cands);
  }

  /** Deleting the candidate after compaction emptied it succeeds and keeps the pass's invariants. */
  function DeleteEmptied(m: Mem, m1: Mem, cands: seq<int>): (r: Mem)
    requires Inv(m) && Ready(m, cands) && cands != []
    requires Kept(m, m1) && m1.arena.Keys == m.arena.Keys && |m1.arena[cands[0]].activeSlots| == 0
    requires forall y :: y in m.arena && m.arena[y].bucketSize == XXL ==> m1.arena[y] == m.arena[y]
    requires forall y :: y in m.arena ==> m1.arena[y].bucketSize == m.arena[y].bucketSize
    ensures Kept(m, r) && Ready(r, cands[1..])
    ensures r.arena == m1.arena - {cands[0]}
  {
    var x := cands[0];
    assert x in m1.arena.Keys;
    DeleteEmptyKept(m1, x);
    var d := DeleteBatchM(m1, x);
    KeptTrans(m, m1, d.0);
    DeleteEmptiedReady(m, m1, d.0, cands);
    d.0
  }

  /** The later candidates stay ready when the compacted first one is deleted. */
  lemma DeleteEmptiedReady(m: Mem, m1: Mem, d: Mem, cands: seq<int>)
    requires Ready(m, cands) && cands != []
    requires m1.arena.Keys == m.arena.Keys && d.arena == m1.arena - {cands[0]}
    requires forall y :: y in m.arena && m.arena[y].bucketSize == XXL ==> m1.arena[y] == m.arena[y]
    requires forall y :: y in m.arena ==> m1.arena[y].bucketSize == m.arena[y].bucketSize
    ensures Ready(d, cands[1..])
  {
    ReadyTail(m, d, cands);
  }

  /**
   * TryCompaction's loop over the candidates, stopping once DefragMaxPerFrame
   * batches were compacted. Returns the state and the compacted and deleted
   * counts.
   */
  function Process(m: Mem, cands: seq<int>, compacted: nat, deleted: nat): (r: (Mem, nat, nat))
    requires Inv(m) && Ready(m, cands)
    ensures Kept(m, r.0)
    ensures compacted <= r.1 <= Max(compacted, DefragMaxPerFrame)
    ensures deleted <= r.2 && r.2 + compacted <= r.1 + deleted
    ensures forall x :: x in m.arena && x !in r.0.arena ==> x in cands
    decreases |cands|
  {
    if cands == [] || compacted >= DefragMaxPerFrame then
      (m, compacted, deleted)
    else
      var s := Step(m, cands, compacted, deleted);
      var r := Process(s.0, cands[1..], s.1, s.2);
      KeptTrans(m, s.0, r.0);
      r
  }

  lemma CompactedKept(m: Mem, m': Mem, b: Bucket)
    requires Compacted(m, m', b)
    ensures Kept(m, m')
    ensures forall y :: y in m.arena ==> y in m'.arena
    ensures forall y :: y in m.arena && m.arena[y].bucketSize != b ==> m'.arena[y] == m.arena[y]
  {
  }

  /**
   * TryCompaction: scans for candidates and processes them. The pass keeps
   * the invariant, every record and the floats it points at; it compacts at
   * most DefragMaxPerFrame batches, deletes no more than it compacts, and
   * removes only candidates, i.e. batches whose utilisation was below 0.25.
   */
  function TryCompactionM(m: Mem): (r: (Mem, nat, nat))
    requires Inv(m)
    ensures Kept(m, r.0)
    ensures r.2 <= r.1 <= DefragMaxPerFrame
    ensures forall x :: x in m.arena && x !in r.0.arena ==> IsCandidate(m.arena[x])
  {
    ScanCandidatesDistinct(m);
    ScanForCompactionSpec(m);
    var cands := ScanForCompaction(m);
    if |cands| == 0 then (m, 0, 0)
    else Process(m, cands, 0, 0)
  }
}
