/**
 * The cluster registry of internal/app/cluster.go: clusters keyed by id,
 * id assignment, removal, the sorted listing and Tab navigation through
 * the clusters in id order, plus the seed counter.
 *
 * A cluster's grid bounds and canvas position are float geometry and are
 * not part of this model; its composition is the Composition of the
 * generator model.
 */
module ClusterManagement {
  import opened Wrappers
  import opened Generation

  const Int64Min: int := -0x8000_0000_0000_0000
  const Int64Max: int := 0x7fff_ffff_ffff_ffff

  predicate IsInt64(x: int)
  {
    Int64Min <= x <= Int64Max
  }

  /** Two's-complement wrap-around of Go's int64 arithmetic. */
  function WrapInt64(x: int): (r: int)
    ensures IsInt64(r)
    ensures IsInt64(x) ==> r == x
  {
    (x - Int64Min) % 0x1_0000_0000_0000_0000 + Int64Min
  }

  /** IncrementSeed adds one, and only the largest int64 wraps (to the smallest). */
  lemma IncrementWraps(seed: int)
    requires IsInt64(seed)
    ensures seed < Int64Max ==> WrapInt64(seed + 1) == seed + 1
    ensures seed == Int64Max ==> WrapInt64(seed + 1) == Int64Min
  {
  }

  class Cluster {
    /** The id the manager assigned; it never changes afterwards. */
    const id: int
    var composition: Composition
    var seed: int
    var complexity: Option<int>
    /** Set when the cluster's vertex data must be uploaded again. */
    var dirty: bool

    constructor(id: int, composition: Composition, seed: int, complexity: Option<int>)
      ensures this.id == id && this.composition == composition && this.seed == seed
      ensures this.complexity == complexity && dirty
    {
      this.id := id;
      this.composition := composition;
      this.seed := seed;
      this.complexity := complexity;
      dirty := true;
    }

    /** SetComposition: replaces the composition and marks the cluster dirty. */
    method SetComposition(comp: Composition)
      modifies this
      ensures composition == comp && dirty
      ensures seed == old(seed) && complexity == old(complexity)
    {
      composition := comp;
      dirty := true;
    }
  }

  // ---------------------------------------------------------------------
  // Id lists

  predicate StrictlySorted(xs: seq<int>)
  {
    forall i, j :: 0 <= i < j < |xs| ==> xs[i] < xs[j]
  }

  predicate Sorted(xs: seq<int>)
  {
    forall i, j :: 0 <= i < j < |xs| ==> xs[i] <= xs[j]
  }

  predicate Distinct(xs: seq<int>)
  {
    forall i, j :: 0 <= i < j < |xs| ==> xs[i] != xs[j]
  }

  lemma {:induction false} MinExists(s: set<int>)
    requires s != {}
    ensures exists m :: m in s && forall y :: y in s ==> m <= y
    decreases |s|
  {
    HasMember(s);
    var x :| x in s;
    if s != {x} {
      MinExists(s - {x});
      var m :| m in s - {x} && forall y :: y in s - {x} ==> m <= y;
      if x < m {
        forall y | y in s ensures x <= y {
          if y != x { assert y in s - {x}; }
        }
      } else {
        forall y | y in s ensures m <= y {
          if y != x { assert y in s - {x}; }
        }
      }
    } else {
      assert forall y :: y in s ==> x <= y;
    }
  }

  /** The members of a set of ids in ascending order: the order GetClusters and IterCluster use. */
  ghost function Ascending(s: set<int>): (r: seq<int>)
    ensures |r| == |s|
    ensures forall x :: x in r <==> x in s
    ensures StrictlySorted(r)
    decreases |s|
  {
    if s == {} then []
    else
      MinExists(s);
      var m :| m in s && forall y :: y in s ==> m <= y;
      var rest := Ascending(s - {m});
      assert forall k :: 0 <= k < |rest| ==> m < rest[k] by {
        forall k | 0 <= k < |rest| ensures m < rest[k] {
          assert rest[k] in s - {m};
        }
      }
      PrependLeast(m, rest);
      [m] + rest
  }

  /** A value below every element of a strictly sorted list keeps it strictly sorted when put in front. */
  lemma PrependLeast(m: int, rest: seq<int>)
    requires StrictlySorted(rest) && forall k :: 0 <= k < |rest| ==> m < rest[k]
    ensures StrictlySorted([m] + rest)
    ensures forall x :: x in [m] + rest <==> x == m || x in rest
  {
    assert forall k :: 0 < k < |[m] + rest| ==> ([m] + rest)[k] == rest[k - 1];
  }

  /** There is one ascending list per set: two strictly sorted lists with the same members are equal. */
  lemma {:induction false} SortedUnique(a: seq<int>, b: seq<int>)
    requires StrictlySorted(a) && StrictlySorted(b)
    requires forall x :: x in a <==> x in b
    ensures a == b
    decreases |a|
  {
    assert a != [] ==> a[0] in a && a[0] in b;
    assert b != [] ==> b[0] in b && b[0] in a;
    if a != [] && b != [] {
      assert a[0] == b[0] by {
        assert a[0] in b && b[0] in a;
        var i :| 0 <= i < |b| && b[i] == a[0];
        var j :| 0 <= j < |a| && a[j] == b[0];
        assert a[0] <= a[j] && b[0] <= b[i];
      }
      TailMembers(a, b);
      TailMembers(b, a);
      SortedUnique(a[1..], b[1..]);
      assert a == [a[0]] + a[1..] && b == [b[0]] + b[1..];
    }
  }

  /** With equal heads and the same members, what follows a's head is in what follows b's. */
  lemma TailMembers(a: seq<int>, b: seq<int>)
    requires StrictlySorted(a) && StrictlySorted(b) && a != [] && b != [] && a[0] == b[0]
    requires forall x :: x in a <==> x in b
    ensures forall x :: x in a[1..] ==> x in b[1..]
  {
    forall x | x in a[1..] ensures x in b[1..] {
      var i :| 1 <= i < |a| && a[i] == x;
      assert x != a[0] && x in b;
      var j :| 0 <= j < |b| && b[j] == x;
      assert j != 0;
      assert b[1..][j - 1] == x;
    }
  }

  /** Distinct and sorted is strictly sorted. */
  lemma DistinctSorted(xs: seq<int>)
    requires Distinct(xs) && Sorted(xs)
    ensures StrictlySorted(xs)
  {
  }

  /** Collects the keys of a map in some order (Go's map iteration order is unspecified). */
  method CollectIds<V>(m: map<int, V>) returns (ids: seq<int>)
    ensures Distinct(ids) && |ids| == |m|
    ensures forall x :: x in ids <==> x in m
  {
    ids := [];
    var rest := m.Keys;
    while rest != {}
      invariant rest <= m.Keys
      invariant Distinct(ids) && |ids| + |rest| == |m|
      invariant forall x :: x in ids <==> x in m && x !in rest
      decreases |rest|
    {
      HasMember(rest);
      var k :| k in rest;
      ids := ids + [k];
      rest := rest - {k};
    }
  }

  /** Sorts a list of ids (sort.Slice by `<`), one insertion at a time. */
  method SortIds(xs: seq<int>) returns (r: seq<int>)
    ensures Sorted(r)
    ensures multiset(r) == multiset(xs)
  {
    r := [];
    var i := 0;
    while i < |xs|
      invariant 0 <= i <= |xs|
      invariant Sorted(r)
      invariant multiset(r) == multiset(xs[..i])
    {
      assert xs[..i + 1] == xs[..i] + [xs[i]];
      r := InsertSorted(r, xs[i]);
      i := i + 1;
    }
    assert xs[..i] == xs;
  }

  /** Inserts x after the entries not above it. */
  method InsertSorted(r: seq<int>, x: int) returns (r': seq<int>)
    requires Sorted(r)
    ensures Sorted(r')
    ensures multiset(r') == multiset(r) + multiset{x}
  {
    var j := 0;
    while j < |r| && r[j] <= x
      invariant 0 <= j <= |r|
      invariant forall k :: 0 <= k < j ==> r[k] <= x
    {
      j := j + 1;
    }
    r' := r[..j] + [x] + r[j..];
    InsertAtSorted(r, x, j);
  }

  /** Splicing x in where the entries before are not above it and the entries after are keeps the list sorted. */
  lemma InsertAtSorted(r: seq<int>, x: int, j: nat)
    requires Sorted(r) && j <= |r|
    requires forall k :: 0 <= k < j ==> r[k] <= x
    requires j < |r| ==> x < r[j]
    ensures Sorted(r[..j] + [x] + r[j..])
    ensures multiset(r[..j] + [x] + r[j..]) == multiset(r) + multiset{x}
  {
    SplicedSorted(r, x, j);
    assert r == r[..j] + r[j..];
  }

  lemma SplicedSorted(r: seq<int>, x: int, j: nat)
    requires Sorted(r) && j <= |r|
    requires forall k :: 0 <= k < j ==> r[k] <= x
    requires j < |r| ==> x < r[j]
    ensures Sorted(r[..j] + [x] + r[j..])
  {
    var r' := r[..j] + [x] + r[j..];
    forall a, b | 0 <= a < b < |r'| ensures r'[a] <= r'[b] {
      SplicedAt(r, x, j, a);
      SplicedAt(r, x, j, b);
      if a > j {
        assert r[a - 1] <= r[b - 1];
      } else if a == j {
        assert x < r[j] <= r[b - 1];
      } else if b > j {
        assert r[a] <= x < r[j] <= r[b - 1];
      }
    }
  }

  lemma SplicedAt(r: seq<int>, x: int, j: nat, k: nat)
    requires j <= |r| && k <= |r|
    ensures (r[..j] + [x] + r[j..])[k] == if k < j then r[k] else if k == j then x else r[k - 1]
  {
  }

  /** The keys of a map, in ascending order. */
  method SortedIds<V>(m: map<int, V>) returns (ids: seq<int>)
    ensures ids == Ascending(m.Keys)
    ensures StrictlySorted(ids) && |ids| == |m|
    ensures forall x :: x in ids <==> x in m
  {
    var collected := CollectIds(m);
    ids := SortIds(collected);
    forall x ensures x in ids <==> x in m {
      assert x in ids <==> x in multiset(ids);
      assert x in collected <==> x in multiset(collected);
    }
    assert Distinct(ids) by {
      forall i, j | 0 <= i < j < |ids| ensures ids[i] != ids[j] {
        if ids[i] == ids[j] {
          TwoCopies(ids, i, j);
          DistinctOnce(collected, ids[i]);
        }
      }
    }
    DistinctSorted(ids);
    SortedUnique(ids, Ascending(m.Keys));
  }

  lemma TwoCopies(xs: seq<int>, i: int, j: int)
    requires 0 <= i < j < |xs| && xs[i] == xs[j]
    ensures multiset(xs)[xs[i]] >= 2
  {
    assert xs == xs[..i] + [xs[i]] + xs[i + 1..j] + [xs[j]] + xs[j + 1..];
  }

  lemma {:induction false} DistinctOnce(xs: seq<int>, x: int)
    requires Distinct(xs)
    ensures multiset(xs)[x] <= 1
    decreases |xs|
  {
    if xs != [] {
      var init := xs[..|xs| - 1];
      assert xs == init + [xs[|xs| - 1]];
      DistinctOnce(init, x);
      if xs[|xs| - 1] == x {
        assert x !in init;
      }
    }
  }

  /** The position of x in xs, as the lookup loop of IterCluster finds it. */
  function PositionOf(xs: seq<int>, x: int): (r: Option<nat>)
    ensures r.Some? ==> r.value < |xs| && xs[r.value] == x && forall k :: 0 <= k < r.value ==> xs[k] != x
    ensures r.None? ==> x !in xs
  {
    if xs == [] then None
    else if xs[0] == x then Some(0)
    else match PositionOf(xs[1..], x)
      case None => None
      case Some(p) => Some(p + 1)
  }

  /** Go's `x % n` on the range IterCluster uses it for: a step around a cycle of n positions. */
  function Cycle(x: int, n: int): (r: int)
    requires n > 0 && 0 <= x <= 2 * n
    ensures r == if x < n then x else if x < 2 * n then x - n else 0
  {
    x % n
  }

  /**
   * The id IterCluster moves to among the sorted ids, from the current id
   * (negative when there is none) in the given direction.
   */
  function IterTarget(ids: seq<int>, current: int, next: bool): (r: int)
    requires ids != []
    ensures r in ids
  {
    var n := |ids|;
    var currentID := if current >= 0 then current else if next then ids[0] else ids[n - 1];
    var pos := match PositionOf(ids, currentID) case Some(p) => p case None => 0;
    var dir := if next then 1 else -1;
    ids[Cycle(pos + dir + n, n)]
  }

  lemma PositionOfDistinct(ids: seq<int>, p: int)
    requires Distinct(ids) && 0 <= p < |ids|
    ensures PositionOf(ids, ids[p]) == Some(p)
  {
  }

  /** From a live cluster, "next" then "previous" comes back to it. */
  lemma IterRoundTrip(ids: seq<int>, current: int)
    requires StrictlySorted(ids) && current in ids
    requires forall k :: 0 <= k < |ids| ==> ids[k] >= 0
    ensures IterTarget(ids, IterTarget(ids, current, true), false) == current
  {
    var n := |ids|;
    var p :| 0 <= p < n && ids[p] == current;
    PositionOfDistinct(ids, p);
    var q := Cycle(p + 1 + n, n);
    assert IterTarget(ids, current, true) == ids[q];
    PositionOfDistinct(ids, q);
  }

  /** From a live cluster, "previous" then "next" comes back to it. */
  lemma IterRoundTripBack(ids: seq<int>, current: int)
    requires StrictlySorted(ids) && current in ids
    requires forall k :: 0 <= k < |ids| ==> ids[k] >= 0
    ensures IterTarget(ids, IterTarget(ids, current, false), true) == current
  {
    var n := |ids|;
    var p :| 0 <= p < n && ids[p] == current;
    PositionOfDistinct(ids, p);
    var q := Cycle(p - 1 + n, n);
    assert IterTarget(ids, current, false) == ids[q];
    PositionOfDistinct(ids, q);
  }

  /**
   * With no current cluster, navigation starts at the first id (forward)
   * or the last (backward) and then moves, so it lands on the second or the
   * second-to-last id.
   */
  lemma IterFromNone(ids: seq<int>, current: int)
    requires StrictlySorted(ids) && ids != [] && current < 0
    ensures |ids| >= 2 ==> IterTarget(ids, current, true) == ids[1]
    ensures |ids| == 1 ==> IterTarget(ids, current, true) == ids[0]
    ensures |ids| >= 2 ==> IterTarget(ids, current, false) == ids[|ids| - 2]
    ensures |ids| == 1 ==> IterTarget(ids, current, false) == ids[0]
  {
    PositionOfDistinct(ids, 0);
    PositionOfDistinct(ids, |ids| - 1);
  }

  /** A current cluster that was removed restarts from position 0. */
  lemma IterFromRemoved(ids: seq<int>, current: int)
    requires ids != [] && current >= 0 && current !in ids
    ensures |ids| >= 2 ==> IterTarget(ids, current, true) == ids[1]
    ensures |ids| == 1 ==> IterTarget(ids, current, true) == ids[0]
    ensures IterTarget(ids, current, false) == ids[|ids| - 1]
  {
  }

  /** The clusters stored under the given ids, in the ids' order. */
  method InOrder(clusters: map<int, Cluster>, ids: seq<int>) returns (cs: seq<Cluster>)
    requires forall id :: id in clusters ==> clusters[id].id == id
    requires StrictlySorted(ids) && |ids| == |clusters|
    requires forall x :: x in ids <==> x in clusters
    ensures |cs| == |clusters|
    ensures forall i, j :: 0 <= i < j < |cs| ==> cs[i].id < cs[j].id
    ensures forall k :: 0 <= k < |cs| ==> cs[k].id in clusters && clusters[cs[k].id] == cs[k]
    ensures forall id :: id in clusters ==> clusters[id] in cs
  {
    assert forall i :: 0 <= i < |ids| ==> ids[i] in clusters by {
      forall i | 0 <= i < |ids| ensures ids[i] in clusters {
        assert ids[i] in ids;
      }
    }
    cs := [];
    var k := 0;
    while k < |ids|
      invariant 0 <= k <= |ids|
      invariant |cs| == k
      invariant forall i :: 0 <= i < k ==> cs[i] == clusters[ids[i]] && cs[i].id == ids[i]
    {
      cs := cs + [clusters[ids[k]]];
      k := k + 1;
    }
    forall id | id in clusters ensures clusters[id] in cs {
      var i :| 0 <= i < |ids| && ids[i] == id;
      assert cs[i] == clusters[id];
    }
  }

  class ClusterManager {
    var clusters: map<int, Cluster>
    var currentClusterID: int
    var currentSeed: int
    var nextID: int

    /** Every cluster is stored under its own id, and ids below nextID are the only ones handed out. */
    ghost predicate Valid()
      reads this
    {
      && 0 <= nextID
      && IsInt64(currentSeed)
      && forall id :: id in clusters ==> clusters[id].id == id && 0 <= id < nextID
    }

    /** NewClusterManager */
    constructor(seed: int)
      requires IsInt64(seed)
      ensures Valid()
      ensures clusters == map[] && currentClusterID == -1 && currentSeed == seed && nextID == 0
    {
      clusters := map[];
      currentClusterID := -1;
      currentSeed := seed;
      nextID := 0;
    }

    /**
     * AddCluster: the new cluster gets the next id, which no stored cluster
     * has, is stored dirty, and the next id moves on by one.
     */
    method AddCluster(comp: Composition, seed: int, complexity: Option<int>) returns (c: Cluster)
      requires Valid()
      modifies this
      ensures Valid()
      ensures fresh(c) && c.id == old(nextID) && old(nextID) !in old(clusters)
      ensures c.composition == comp && c.seed == seed && c.complexity == complexity && c.dirty
      ensures clusters == old(clusters)[c.id := c]
      ensures nextID == old(nextID) + 1
      ensures currentClusterID == old(currentClusterID) && currentSeed == old(currentSeed)
    {
      c := new Cluster(nextID, comp, seed, complexity);
      clusters := clusters[c.id := c];
      nextID := nextID + 1;
    }

    /** RemoveCluster: true iff the id was stored; only that id goes. */
    method RemoveCluster(id: int) returns (removed: bool)
      requires Valid()
      modifies this
      ensures Valid()
      ensures removed <==> id in old(clusters)
      ensures clusters == old(clusters) - {id}
      ensures nextID == old(nextID) && currentClusterID == old(currentClusterID) && currentSeed == old(currentSeed)
    {
      if id in clusters {
        clusters := clusters - {id};
        return true;
      }
      return false;
    }

    /** GetClusters: every stored cluster once, in ascending id order. */
    method GetClusters() returns (cs: seq<Cluster>)
      requires Valid()
      ensures |cs| == |clusters|
      ensures forall i, j :: 0 <= i < j < |cs| ==> cs[i].id < cs[j].id
      ensures forall k :: 0 <= k < |cs| ==> cs[k].id in clusters && clusters[cs[k].id] == cs[k]
      ensures forall id :: id in clusters ==> clusters[id] in cs
    {
      var ids := SortedIds(clusters);
      cs := InOrder(clusters, ids);
    }

    /** SetCurrentCluster: nil clears the current cluster (-1). */
    method SetCurrentCluster(c: Cluster?)
      requires Valid()
      modifies this
      ensures Valid()
      ensures currentClusterID == (if c == null then -1 else c.id)
      ensures clusters == old(clusters) && nextID == old(nextID) && currentSeed == old(currentSeed)
    {
      if c == null {
        currentClusterID := -1;
      } else {
        currentClusterID := c.id;
      }
    }

    /** IncrementSeed: the seed goes up by one in int64 arithmetic and is returned. */
    method IncrementSeed() returns (s: int)
      requires Valid()
      modifies this
      ensures Valid()
      ensures currentSeed == WrapInt64(old(currentSeed) + 1) && s == currentSeed
      ensures clusters == old(clusters) && nextID == old(nextID) && currentClusterID == old(currentClusterID)
    {
      currentSeed := WrapInt64(currentSeed + 1);
      s := currentSeed;
    }

    /**
     * IterCluster: with no clusters, clears the current cluster and returns
     * nil; otherwise moves the current cluster one step through the ids in
     * ascending order, wrapping around, and returns it.
     */
    method IterCluster(next: bool) returns (c: Cluster?)
      requires Valid()
      modifies this
      ensures Valid()
      ensures clusters == old(clusters) && nextID == old(nextID) && currentSeed == old(currentSeed)
      ensures |clusters| == 0 ==> currentClusterID == -1 && c == null
      ensures |clusters| != 0 ==>
                && currentClusterID == IterTarget(Ascending(clusters.Keys), old(currentClusterID), next)
                && currentClusterID in clusters && c == clusters[currentClusterID]
    {
      if |clusters| == 0 {
        currentClusterID := -1;
        return null;
      }
      var id := StepId(clusters, currentClusterID, next);
      currentClusterID := id;
      c := clusters[id];
    }
  }

  /** IterCluster on a non-empty map: the ids sorted ascending, then one step from the current id. */
  method StepId<V>(m: map<int, V>, currentClusterID: int, next: bool) returns (newID: int)
    requires |m| != 0
    ensures newID == IterTarget(Ascending(m.Keys), currentClusterID, next) && newID in m
  {
    var ids := SortedIds(m);
    newID := NextId(ids, currentClusterID, next);
  }

  /** The body of IterCluster once the ids are sorted: find the current position and step. */
  method NextId(ids: seq<int>, currentClusterID: int, next: bool) returns (newID: int)
    requires ids != []
    ensures newID == IterTarget(ids, currentClusterID, next)
  {
    var direction := if next then 1 else -1;
    var n := |ids|;
    var currentID: int;
    if currentClusterID >= 0 {
      currentID := currentClusterID;
    } else if next {
      currentID := ids[0];
    } else {
      currentID := ids[n - 1];
    }
    var pos := -1;
    var i := 0;
    while i < n
      invariant 0 <= i <= n
      invariant forall k :: 0 <= k < i ==> ids[k] != currentID
    {
      if ids[i] == currentID {
        pos := i;
        break;
      }
      i := i + 1;
    }
    if pos == -1 {
      pos := 0;
    } else {
      PositionOfFirst(ids, currentID, pos);
    }
    var newPos := Cycle(pos + direction + n, n);
    newID := ids[newPos];
  }

  /** The first position holding x is the one PositionOf finds. */
  lemma PositionOfFirst(xs: seq<int>, x: int, p: int)
    requires 0 <= p < |xs| && xs[p] == x && forall k :: 0 <= k < p ==> xs[k] != x
    ensures PositionOf(xs, x) == Some(p)
  {
    match PositionOf(xs, x)
    case Some(q) =>
    case None =>
  }
}
