/**
 * Size classes of the slot allocator (internal/memory/controller.go):
 * the bucket constants, `selectBucket`, `vertexCapacityForBucket` and
 * `slotsPerBatchForBucket`.
 */
module Buckets {

  datatype Bucket = S | M | L | XL | XXL

  /** The order in which pools are visited (`bucketSizes`, and Draw's list). */
  const BucketOrder: seq<Bucket> := [S, M, L, XL, XXL]

  const VertexCapacityS := 1024
  const VertexCapacityM := 4096
  const VertexCapacityL := 16384
  const VertexCapacityXL := 65536

  const SlotsPerBatchS := 256
  const SlotsPerBatchM := 128
  const SlotsPerBatchL := 64
  const SlotsPerBatchXL := 16
  const SlotsPerBatchXXL := 1

  /** Growth configuration. */
  const GrowthMaxCycles := 2
  const GrowthMaxBatchBytes := 256 * 1024 * 1024

  /** Compaction configuration: at most this many batches count per TryCompaction call. */
  const DefragMaxPerFrame := 1

  /** Floats per vertex (x, y, r, g, b, a) and bytes per float. */
  const FloatsPerVertex := 6
  const BytesPerFloat := 4

  /** Position of a bucket in the size order S < M < L < XL < XXL. */
  function Rank(b: Bucket): nat
  {
    match b
    case S => 0
    case M => 1
    case L => 2
    case XL => 3
    case XXL => 4
  }

  /** BucketOrder lists the buckets by rank, each once. */
  lemma BucketOrderByRank()
    ensures |BucketOrder| == 5
    ensures forall k :: 0 <= k < 5 ==> Rank(BucketOrder[k]) == k
    ensures forall b :: b in BucketOrder && Rank(b) < 5
  {
    forall b ensures b in BucketOrder && Rank(b) < 5 {
      assert BucketOrder[Rank(b)] == b;
    }
  }

  /**
   * Per-slot vertex capacity of a bucket; XXL has none of its own (its
   * batches are sized to the payload). The fixed capacities grow with the
   * size order, and a fresh fixed batch can double twice within the
   * per-batch byte ceiling.
   */
  function VertexCapacityForBucket(b: Bucket): (cap: int)
    ensures b == XXL <==> cap == 0
    ensures b != XXL ==> cap >= VertexCapacityS
    ensures b != XXL ==>
      4 * (cap * SlotsPerBatchForBucket(b) * FloatsPerVertex * BytesPerFloat) <= GrowthMaxBatchBytes
  {
    match b
    case S => VertexCapacityS
    case M => VertexCapacityM
    case L => VertexCapacityL
    case XL => VertexCapacityXL
    case XXL => 0
  }

  /** Number of slots in a freshly created batch of a bucket. */
  function SlotsPerBatchForBucket(b: Bucket): (n: int)
    ensures n >= 1
    ensures b == XXL <==> n == 1
  {
    match b
    case S => SlotsPerBatchS
    case M => SlotsPerBatchM
    case L => SlotsPerBatchL
    case XL => SlotsPerBatchXL
    case XXL => SlotsPerBatchXXL
  }

  /**
   * The smallest bucket whose per-slot capacity holds `vertexCount`
   * vertices; XXL for anything above the XL capacity.
   */
  function SelectBucket(vertexCount: int): (b: Bucket)
    ensures b != XXL ==> vertexCount <= VertexCapacityForBucket(b)
    ensures b == XXL <==> vertexCount > VertexCapacityXL
    ensures forall smaller: Bucket :: Rank(smaller) < Rank(b) ==>
              smaller != XXL && vertexCount > VertexCapacityForBucket(smaller)
  {
    if vertexCount <= VertexCapacityS then S
    else if vertexCount <= VertexCapacityM then M
    else if vertexCount <= VertexCapacityL then L
    else if vertexCount <= VertexCapacityXL then XL
    else XXL
  }

  /** A larger payload never lands in a smaller bucket. */
  lemma SelectBucketMonotone(v1: int, v2: int)
    requires v1 <= v2
    ensures Rank(SelectBucket(v1)) <= Rank(SelectBucket(v2))
  {
  }
}
