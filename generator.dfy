/**
 * The parts of the pattern generator in internal/gen/generator.go that do
 * bookkeeping rather than geometry: the choice of features for a
 * complexity level (or from random draws), and the pool of candidate lines
 * that `createLines` builds, trims around a focus star and samples from.
 *
 * Lines live on the integer lattice: a start point and a direction, both
 * pairs of integers. The random generator is replaced by its draws, each a
 * real number in [0, 1), passed in as parameters.
 */
module Generation {
  import opened Wrappers

  /** The generator's configuration; `focus` is one of "None", "Eight", "Sixteen". */
  datatype Features = Features(lineDensity: int, numLines: int, gridSide: int, focus: string, shimmer: int)

  /**
   * What a cluster keeps of a generated pattern. The tiles and the boundary
   * are float geometry and are not part of this model.
   */
  datatype Composition = Composition(gridSide: int, shimmer: int)

  datatype Point = Point(x: int, y: int)

  /** A lattice line through `pos` in direction `dir`. */
  datatype Line = Line(pos: Point, dir: Point)

  /** The four draws `initFeatures` takes from the random generator. */
  datatype Draws = Draws(density: real, focus: real, shimmer: real, shimmerLevel: real)

  /** A value `rng.Float64()` can return. */
  predicate UnitDraw(v: real)
  {
    0.0 <= v < 1.0
  }

  predicate ValidDraws(d: Draws)
  {
    UnitDraw(d.density) && UnitDraw(d.focus) && UnitDraw(d.shimmer) && UnitDraw(d.shimmerLevel)
  }

  /** Go's `int(x)` on a float: truncation toward zero. */
  function Truncate(x: real): (r: int)
    ensures x >= 0.0 ==> r as real <= x < r as real + 1.0
    ensures x < 0.0 ==> r as real - 1.0 < x <= r as real
  {
    if x >= 0.0 then x.Floor else -((-x).Floor)
  }

  function Min(a: int, b: int): int
  {
    if a < b then a else b
  }

  // ---------------------------------------------------------------------
  // Features

  /** The features `SetFeaturesForComplexity` assigns for a given complexity. */
  function ComplexityFeatures(c: int): Features
  {
    var density := if c <= 10 then 6 else if c <= 30 then 12 else 20;
    var focus := if c <= 5 then "None" else if c <= 20 then "Eight" else "Sixteen";
    var shimmer := if c <= 10 then -1 else Min(4, 2 + (c - 10) / 10);
    Features(density, c, 2 * density + 1, focus, shimmer)
  }

  /** The features `initFeatures` assigns for the given draws. */
  function InitFeatures(d: Draws): Features
    requires ValidDraws(d)
  {
    var (density, lines) :=
      if d.density < 0.7 then (10, 25) else if d.density < 0.9 then (6, 9) else (20, 40);
    var focus := if d.focus < 0.75 then "None" else if d.focus < 0.95 then "Eight" else "Sixteen";
    var shimmer := if d.shimmer < 0.75 then -1 else Truncate(d.shimmerLevel * 3.0) + 2;
    Features(density, lines, 2 * density + 1, focus, shimmer)
  }

  /** The focus names the generator dispatches on, ranked by the size of the merged region. */
  function FocusRank(f: string): int
  {
    if f == "None" then 0 else if f == "Eight" then 1 else if f == "Sixteen" then 2 else -1
  }

  /** The shape every feature set the generator picks has. */
  predicate WellFormed(f: Features)
  {
    && f.gridSide == 2 * f.lineDensity + 1
    && f.gridSide % 2 == 1
    && (f.shimmer == -1 || 2 <= f.shimmer <= 4)
    && FocusRank(f.focus) >= 0
  }

  /**
   * For a given complexity c: NumLines is c; the grid side is 13, 25 or 41
   * (density 6 up to 10, 12 up to 30, 20 above); the focus is None up to 5,
   * Eight up to 20, Sixteen above; shimmer is off up to 10 and then lies in
   * 2..4.
   */
  lemma ComplexityFeaturesShape(c: int)
    ensures WellFormed(ComplexityFeatures(c))
    ensures ComplexityFeatures(c).numLines == c
    ensures ComplexityFeatures(c).gridSide in {13, 25, 41}
    ensures ComplexityFeatures(c).gridSide == 13 <==> c <= 10
    ensures ComplexityFeatures(c).gridSide == 41 <==> c > 30
    ensures ComplexityFeatures(c).focus == "None" <==> c <= 5
    ensures ComplexityFeatures(c).focus == "Sixteen" <==> c > 20
    ensures ComplexityFeatures(c).shimmer == -1 <==> c <= 10
    ensures ComplexityFeatures(c).shimmer == 4 <==> c >= 30
  {
  }

  /** A higher complexity never gives a sparser grid, a smaller focus or less shimmer. */
  lemma ComplexityMonotone(c1: int, c2: int)
    requires c1 <= c2
    ensures ComplexityFeatures(c1).lineDensity <= ComplexityFeatures(c2).lineDensity
    ensures FocusRank(ComplexityFeatures(c1).focus) <= FocusRank(ComplexityFeatures(c2).focus)
    ensures ComplexityFeatures(c1).shimmer <= ComplexityFeatures(c2).shimmer
  {
    if c1 > 10 {
      assert (c1 - 10) / 10 <= (c2 - 10) / 10;
    }
  }

  /** The random path picks one of three densities and shimmer off or in 2..4. */
  lemma InitFeaturesShape(d: Draws)
    requires ValidDraws(d)
    ensures WellFormed(InitFeatures(d))
    ensures InitFeatures(d).gridSide in {13, 21, 41}
    ensures InitFeatures(d).numLines in {9, 25, 40}
  {
    var t := Truncate(d.shimmerLevel * 3.0);
    assert 0.0 <= d.shimmerLevel * 3.0 < 3.0;
    assert 0 <= t <= 2;
  }

  class Generator {
    var features: Features

    /** NewGenerator: every feature holds Go's zero value. */
    constructor()
      ensures features == Features(0, 0, 0, "", 0)
    {
      features := Features(0, 0, 0, "", 0);
    }

    /**
     * SetFeaturesForComplexity: with no complexity the features come from
     * the random draws (`initFeatures`), otherwise from the complexity.
     */
    method SetFeaturesForComplexity(complexity: Option<int>, draws: Draws)
      requires complexity.None? ==> ValidDraws(draws)
      modifies this
      ensures complexity.None? ==> features == InitFeatures(draws)
      ensures complexity.Some? ==> features == ComplexityFeatures(complexity.value)
      ensures WellFormed(features)
    {
      if complexity.None? {
        InitFeaturesM(draws);
        return;
      }
      var c := complexity.value;
      ComplexityFeaturesShape(c);
      features := features.(numLines := c);
      if c <= 10 {
        features := features.(lineDensity := 6);
      } else if c <= 30 {
        features := features.(lineDensity := 12);
      } else {
        features := features.(lineDensity := 20);
      }
      if c <= 5 {
        features := features.(focus := "None");
      } else if c <= 20 {
        features := features.(focus := "Eight");
      } else {
        features := features.(focus := "Sixteen");
      }
      if c <= 10 {
        features := features.(shimmer := -1);
      } else {
        features := features.(shimmer := Min(4, 2 + (c - 10) / 10));
      }
      features := features.(gridSide := 2 * features.lineDensity + 1);
    }

    /** initFeatures */
    method InitFeaturesM(draws: Draws)
      requires ValidDraws(draws)
      modifies this
      ensures features == InitFeatures(draws)
      ensures WellFormed(features)
    {
      InitFeaturesShape(draws);
      if draws.density < 0.7 {
        features := features.(lineDensity := 10, numLines := 25);
      } else if draws.density < 0.9 {
        features := features.(lineDensity := 6, numLines := 9);
      } else {
        features := features.(lineDensity := 20, numLines := 40);
      }
      if draws.focus < 0.75 {
        features := features.(focus := "None");
      } else if draws.focus < 0.95 {
        features := features.(focus := "Eight");
      } else {
        features := features.(focus := "Sixteen");
      }
      if draws.shimmer < 0.75 {
        features := features.(shimmer := -1);
      } else {
        features := features.(shimmer := Truncate(draws.shimmerLevel * 3.0) + 2);
      }
      features := features.(gridSide := 2 * features.lineDensity + 1);
    }
  }

  // ---------------------------------------------------------------------
  // The pool of candidate lines

  /** How many times a Go loop `for i := 0; i < k; i++` runs. */
  function Times(k: int): nat
  {
    if k > 0 then k else 0
  }

  /** Horizontal lines from the left edge, at y = 0, 2, ..., 2n. */
  function Horizontals(n: int): seq<Line>
  {
    seq(Times(n + 1), i => Line(Point(0, 2 * i), Point(1, 0)))
  }

  /** Vertical lines from the top edge, at x = 0, 2, ..., 2n. */
  function Verticals(n: int): seq<Line>
  {
    seq(Times(n + 1), i => Line(Point(2 * i, 0), Point(0, 1)))
  }

  /** Slope -1 lines pointing north-west, from the right edge. */
  function NorthWest(n: int): seq<Line>
  {
    seq(Times(n + 1), i => Line(Point(2 * n, 2 * i), Point(-1, -1)))
  }

  /** Slope -1 lines pointing south-east, from the left edge below the corner. */
  function SouthEast(n: int): seq<Line>
  {
    seq(Times(n), i => Line(Point(0, 2 * i + 2), Point(1, 1)))
  }

  /** Slope 1 lines pointing north-east, from the left edge. */
  function NorthEast(n: int): seq<Line>
  {
    seq(Times(n + 1), i => Line(Point(0, 2 * i), Point(1, -1)))
  }

  /** Slope 1 lines pointing north-east, from the bottom edge right of the corner. */
  function FromBottom(n: int): seq<Line>
  {
    seq(Times(n), i => Line(Point(2 * i + 2, 2 * n), Point(1, -1)))
  }

  /** Everything `makeAllLines(n)` appends, in order: 6n+4 lines for n >= 0. */
  function AllLines(n: int): (r: seq<Line>)
    ensures n >= 0 ==> |r| == 6 * n + 4
  {
    Horizontals(n) + Verticals(n) + NorthWest(n) + SouthEast(n) + NorthEast(n) + FromBottom(n)
  }

  /**
   * The position of a line in AllLines(n), read back from its direction and
   * start point (-1 for a line that is not there).
   */
  function LineIndex(n: int, ln: Line): int
  {
    var p := ln.pos;
    if ln.dir == Point(1, 0) then p.y / 2
    else if ln.dir == Point(0, 1) then n + 1 + p.x / 2
    else if ln.dir == Point(-1, -1) then 2 * n + 2 + p.y / 2
    else if ln.dir == Point(1, 1) then 3 * n + 3 + (p.y - 2) / 2
    else if ln.dir == Point(1, -1) && p.x == 0 then 4 * n + 3 + p.y / 2
    else if ln.dir == Point(1, -1) then 5 * n + 4 + (p.x - 2) / 2
    else -1
  }

  /** Every line of the pool can be told from its position: LineIndex inverts the indexing. */
  lemma AllLinesIndexed(n: int, k: int)
    requires n >= 0 && 0 <= k < |AllLines(n)|
    ensures LineIndex(n, AllLines(n)[k]) == k
  {
    var all := AllLines(n);
    if k < n + 1 {
      assert all[k] == Horizontals(n)[k];
    } else if k < 2 * n + 2 {
      assert all[k] == Verticals(n)[k - (n + 1)];
    } else if k < 3 * n + 3 {
      assert all[k] == NorthWest(n)[k - (2 * n + 2)];
    } else if k < 4 * n + 3 {
      assert all[k] == SouthEast(n)[k - (3 * n + 3)];
    } else if k < 5 * n + 4 {
      assert all[k] == NorthEast(n)[k - (4 * n + 3)];
    } else {
      assert all[k] == FromBottom(n)[k - (5 * n + 4)];
    }
  }

  /** No line appears twice in the pool. */
  lemma AllLinesDistinct(n: int, i: int, j: int)
    requires n >= 0 && 0 <= i < j < |AllLines(n)|
    ensures AllLines(n)[i] != AllLines(n)[j]
  {
    AllLinesIndexed(n, i);
    AllLinesIndexed(n, j);
  }

  /**
   * makeAllLines: appends the six families to the pool, in order, one loop
   * per family.
   */
  method MakeAllLines(n: int, pool: seq<Line>) returns (r: seq<Line>)
    ensures r == pool + AllLines(n)
  {
    var r0 := AppendHorizontals(n, pool);
    var r1 := AppendVerticals(n, r0);
    var r2 := AppendNorthWest(n, r1);
    var r3 := AppendSouthEast(n, r2);
    var r4 := AppendNorthEast(n, r3);
    r := AppendFromBottom(n, r4);
  }

  /** One loop of makeAllLines: appends the horizontal lines. */
  method AppendHorizontals(n: int, pool: seq<Line>) returns (r: seq<Line>)
    ensures r == pool + Horizontals(n)
  {
    r := pool;
    var i := 0;
    while i < n + 1
      invariant 0 <= i <= Times(n + 1)
      invariant r == pool + Horizontals(n)[..i]
    {
      assert Horizontals(n)[..i + 1] == Horizontals(n)[..i] + [Line(Point(0, 2 * i), Point(1, 0))];
      r := r + [Line(Point(0, 2 * i), Point(1, 0))];
      i := i + 1;
    }
    assert Horizontals(n)[..i] == Horizontals(n);
  }

  /** One loop of makeAllLines: appends the vertical lines. */
  method AppendVerticals(n: int, pool: seq<Line>) returns (r: seq<Line>)
    ensures r == pool + Verticals(n)
  {
    r := pool;
    var i := 0;
    while i < n + 1
      invariant 0 <= i <= Times(n + 1)
      invariant r == pool + Verticals(n)[..i]
    {
      assert Verticals(n)[..i + 1] == Verticals(n)[..i] + [Line(Point(2 * i, 0), Point(0, 1))];
      r := r + [Line(Point(2 * i, 0), Point(0, 1))];
      i := i + 1;
    }
    assert Verticals(n)[..i] == Verticals(n);
  }

  /** One loop of makeAllLines: appends the north-west lines. */
  method AppendNorthWest(n: int, pool: seq<Line>) returns (r: seq<Line>)
    ensures r == pool + NorthWest(n)
  {
    r := pool;
    var i := 0;
    while i < n + 1
      invariant 0 <= i <= Times(n + 1)
      invariant r == pool + NorthWest(n)[..i]
    {
      assert NorthWest(n)[..i + 1] == NorthWest(n)[..i] + [Line(Point(2 * n, 2 * i), Point(-1, -1))];
      r := r + [Line(Point(2 * n, 2 * i), Point(-1, -1))];
      i := i + 1;
    }
    assert NorthWest(n)[..i] == NorthWest(n);
  }

  /** One loop of makeAllLines: appends the south-east lines. */
  method AppendSouthEast(n: int, pool: seq<Line>) returns (r: seq<Line>)
    ensures r == pool + SouthEast(n)
  {
    r := pool;
    var i := 0;
    while i < n
      invariant 0 <= i <= Times(n)
      invariant r == pool + SouthEast(n)[..i]
    {
      assert SouthEast(n)[..i + 1] == SouthEast(n)[..i] + [Line(Point(0, 2 * i + 2), Point(1, 1))];
      r := r + [Line(Point(0, 2 * i + 2), Point(1, 1))];
      i := i + 1;
    }
    assert SouthEast(n)[..i] == SouthEast(n);
  }

  /** One loop of makeAllLines: appends the north-east lines from the left edge. */
  method AppendNorthEast(n: int, pool: seq<Line>) returns (r: seq<Line>)
    ensures r == pool + NorthEast(n)
  {
    r := pool;
    var i := 0;
    while i < n + 1
      invariant 0 <= i <= Times(n + 1)
      invariant r == pool + NorthEast(n)[..i]
    {
      assert NorthEast(n)[..i + 1] == NorthEast(n)[..i] + [Line(Point(0, 2 * i), Point(1, -1))];
      r := r + [Line(Point(0, 2 * i), Point(1, -1))];
      i := i + 1;
    }
    assert NorthEast(n)[..i] == NorthEast(n);
  }

  /** One loop of makeAllLines: appends the north-east lines from the bottom edge. */
  method AppendFromBottom(n: int, pool: seq<Line>) returns (r: seq<Line>)
    ensures r == pool + FromBottom(n)
  {
    r := pool;
    var i := 0;
    while i < n
      invariant 0 <= i <= Times(n)
      invariant r == pool + FromBottom(n)[..i]
    {
      assert FromBottom(n)[..i + 1] == FromBottom(n)[..i] + [Line(Point(2 * i + 2, 2 * n), Point(1, -1))];
      r := r + [Line(Point(2 * i + 2, 2 * n), Point(1, -1))];
      i := i + 1;
    }
    assert FromBottom(n)[..i] == FromBottom(n);
  }

  // ---------------------------------------------------------------------
  // Removal plans

  /** One step of a removal plan: the index to splice out, and whether the line is kept. */
  datatype PlanStep = PlanStep(idx: int, keep: bool)

  /** `append(s[:i], s[i+1:]...)` */
  function RemoveAt<T>(s: seq<T>, i: int): (r: seq<T>)
    requires 0 <= i < |s|
    ensures |r| == |s| - 1
    ensures forall k :: 0 <= k < i ==> r[k] == s[k]
    ensures forall k :: i <= k < |r| ==> r[k] == s[k + 1]
  {
    s[..i] + s[i + 1..]
  }

  /** Every step's index is in range of the list as it is when the step runs. */
  predicate PlanFits(plan: seq<PlanStep>, len: int)
  {
    forall k :: 0 <= k < |plan| ==> 0 <= plan[k].idx < len - k
  }

  predicate Descending(plan: seq<PlanStep>)
  {
    forall i, j :: 0 <= i < j < |plan| ==> plan[i].idx > plan[j].idx
  }

  /** The pool and the kept lines after running the plan's steps in order. */
  function ApplyPlan(pool: seq<Line>, kept: seq<Line>, plan: seq<PlanStep>): (r: (seq<Line>, seq<Line>))
    requires PlanFits(plan, |pool|)
    ensures |r.0| == |pool| - |plan|
    decreases |plan|
  {
    if plan == [] then (pool, kept)
    else
      var s := plan[0];
      var kept' := if s.keep then kept + [pool[s.idx]] else kept;
      assert PlanFits(plan[1..], |pool| - 1) by {
        forall k | 0 <= k < |plan| - 1 ensures 0 <= plan[1..][k].idx < |pool| - 1 - k {
          assert plan[1..][k] == plan[k + 1];
        }
      }
      ApplyPlan(RemoveAt(pool, s.idx), kept', plan[1..])
  }

  /** The lines at the plan's kept indices, read from the list before any step ran. */
  function Picked(pool: seq<Line>, plan: seq<PlanStep>): seq<Line>
    requires forall k :: 0 <= k < |plan| ==> 0 <= plan[k].idx < |pool|
  {
    if plan == [] then []
    else (if plan[0].keep then [pool[plan[0].idx]] else []) + Picked(pool, plan[1..])
  }

  /** The lines at all the plan's indices, read from the list before any step ran. */
  function Removed(pool: seq<Line>, plan: seq<PlanStep>): seq<Line>
    requires forall k :: 0 <= k < |plan| ==> 0 <= plan[k].idx < |pool|
  {
    if plan == [] then [] else [pool[plan[0].idx]] + Removed(pool, plan[1..])
  }

  function KeepCount(plan: seq<PlanStep>): nat
  {
    if plan == [] then 0 else (if plan[0].keep then 1 else 0) + KeepCount(plan[1..])
  }

  /** Picked and Removed only look at indices the plan names. */
  lemma {:induction false} PickedUnchanged(pool: seq<Line>, pool': seq<Line>, plan: seq<PlanStep>)
    requires forall k :: 0 <= k < |plan| ==> 0 <= plan[k].idx < |pool| && plan[k].idx < |pool'|
    requires forall k :: 0 <= k < |plan| ==> pool'[plan[k].idx] == pool[plan[k].idx]
    ensures Picked(pool', plan) == Picked(pool, plan)
    ensures Removed(pool', plan) == Removed(pool, plan)
    decreases |plan|
  {
    if plan != [] {
      PickedUnchanged(pool, pool', plan[1..]);
    }
  }

  /**
   * When the indices go down, every step splices out the line that was at
   * that index originally, so the plan keeps exactly the Picked lines.
   */
  lemma {:induction false} DescendingPicked(pool: seq<Line>, kept: seq<Line>, plan: seq<PlanStep>)
    requires PlanFits(plan, |pool|) && Descending(plan)
    ensures ApplyPlan(pool, kept, plan).1 == kept + Picked(pool, plan)
    decreases |plan|
  {
    if plan != [] {
      var s := plan[0];
      var pool' := RemoveAt(pool, s.idx);
      var kept' := if s.keep then kept + [pool[s.idx]] else kept;
      PlanTail(pool, plan);
      PickedUnchanged(pool, pool', plan[1..]);
      DescendingPicked(pool', kept', plan[1..]);
    }
  }

  /** ... and the pool loses exactly the Removed lines. */
  lemma {:induction false} DescendingRemoved(pool: seq<Line>, kept: seq<Line>, plan: seq<PlanStep>)
    requires PlanFits(plan, |pool|) && Descending(plan)
    ensures multiset(pool) == multiset(ApplyPlan(pool, kept, plan).0) + multiset(Removed(pool, plan))
    decreases |plan|
  {
    if plan != [] {
      var s := plan[0];
      var pool' := RemoveAt(pool, s.idx);
      var kept' := if s.keep then kept + [pool[s.idx]] else kept;
      PlanTail(pool, plan);
      PickedUnchanged(pool, pool', plan[1..]);
      DescendingRemoved(pool', kept', plan[1..]);
      var r := ApplyPlan(pool', kept', plan[1..]).0;
      assert ApplyPlan(pool, kept, plan).0 == r;
      assert Removed(pool, plan) == [pool[s.idx]] + Removed(pool', plan[1..]);
      RemoveAtMultiset(pool, s.idx);
    }
  }

  lemma RemoveAtMultiset<T>(s: seq<T>, i: int)
    requires 0 <= i < |s|
    ensures multiset(s) == multiset(RemoveAt(s, i)) + multiset{s[i]}
  {
    assert s == s[..i] + [s[i]] + s[i + 1..];
  }

  /** Running a plan adds one kept line per keeping step. */
  lemma {:induction false} ApplyPlanKeeps(pool: seq<Line>, kept: seq<Line>, plan: seq<PlanStep>)
    requires PlanFits(plan, |pool|)
    ensures |ApplyPlan(pool, kept, plan).1| == |kept| + KeepCount(plan)
    decreases |plan|
  {
    if plan != [] {
      var s := plan[0];
      var kept' := if s.keep then kept + [pool[s.idx]] else kept;
      ApplyPlanKeeps(RemoveAt(pool, s.idx), kept', plan[1..]);
    }
  }

  /** After its first step, the rest of a fitting descending plan fits the shorter pool and still descends. */
  lemma PlanTail(pool: seq<Line>, plan: seq<PlanStep>)
    requires PlanFits(plan, |pool|) && Descending(plan) && plan != []
    ensures PlanFits(plan[1..], |pool| - 1) && Descending(plan[1..])
    ensures forall k :: 0 <= k < |plan| - 1 ==> plan[1..][k].idx < plan[0].idx
  {
    var rest := plan[1..];
    forall k | 0 <= k < |rest| ensures 0 <= rest[k].idx < |pool| - 1 - k && rest[k].idx < plan[0].idx {
      assert rest[k] == plan[k + 1];
    }
    forall i, j | 0 <= i < j < |rest| ensures rest[i].idx > rest[j].idx {
      assert rest[i] == plan[i + 1] && rest[j] == plan[j + 1];
    }
  }

  /** ax or ay of `makeRandomStar`: `int(rng.Float64()*float64(n-4)) + 2`. */
  function StarCoord(n: int, draw: real): int
  {
    Truncate(draw * (n - 4) as real) + 2
  }

  /** makeRandomStar's plan: four families of lines around the star, each from the top index down. */
  function StarPlan(n: int, ax: int, ay: int): (r: seq<PlanStep>)
    ensures |r| == 22
  {
    StarRising(n, ax, ay) + StarFalling(n, ax, ay) + StarVerticals(n, ay) + StarHorizontals(ax)
  }

  /** The seven slope-1 lines through the star (two kept). */
  function StarRising(n: int, ax: int, ay: int): (r: seq<PlanStep>)
    ensures |r| == 7
  {
    [ PlanStep(4 * n + 7 + ax + ay, false), PlanStep(4 * n + 6 + ax + ay, true),
      PlanStep(4 * n + 5 + ax + ay, false), PlanStep(4 * n + 4 + ax + ay, false),
      PlanStep(4 * n + 3 + ax + ay, false), PlanStep(4 * n + 2 + ax + ay, true),
      PlanStep(4 * n + 1 + ax + ay, false) ]
  }

  /** The seven slope -1 lines through the star (two kept). */
  function StarFalling(n: int, ax: int, ay: int): (r: seq<PlanStep>)
    ensures |r| == 7
  {
    [ PlanStep(3 * n + 5 + ax - ay, false), PlanStep(3 * n + 4 + ax - ay, true),
      PlanStep(3 * n + 3 + ax - ay, false), PlanStep(3 * n + 2 + ax - ay, false),
      PlanStep(3 * n + 1 + ax - ay, false), PlanStep(3 * n + 0 + ax - ay, true),
      PlanStep(3 * n - 1 + ax - ay, false) ]
  }

  /** The four vertical lines of the star (the outer two kept). */
  function StarVerticals(n: int, ay: int): (r: seq<PlanStep>)
    ensures |r| == 4
  {
    [ PlanStep(n + 1 + ay + 2, true), PlanStep(n + 1 + ay + 1, false),
      PlanStep(n + 1 + ay, false), PlanStep(n + 1 + ay - 1, true) ]
  }

  /** The four horizontal lines of the star (the outer two kept). */
  function StarHorizontals(ax: int): (r: seq<PlanStep>)
    ensures |r| == 4
  {
    [ PlanStep(ax + 2, true), PlanStep(ax + 1, false), PlanStep(ax, false), PlanStep(ax - 1, true) ]
  }

  lemma {:induction false} KeepCountAppend(a: seq<PlanStep>, b: seq<PlanStep>)
    ensures KeepCount(a + b) == KeepCount(a) + KeepCount(b)
    decreases |a|
  {
    if a == [] {
      assert a + b == b;
    } else {
      assert (a + b)[0] == a[0];
      assert (a + b)[1..] == a[1..] + b;
      KeepCountAppend(a[1..], b);
    }
  }

  /** Eight of the star plan's 22 steps keep their line. */
  lemma StarKeepCount(n: int, ax: int, ay: int)
    ensures KeepCount(StarPlan(n, ax, ay)) == 8
  {
    var r, f, v, h := StarRising(n, ax, ay), StarFalling(n, ax, ay), StarVerticals(n, ay), StarHorizontals(ax);
    KeepCountAppend(r, f);
    KeepCountAppend(r + f, v);
    KeepCountAppend(r + f + v, h);
    SevenKeepTwo(r);
    SevenKeepTwo(f);
    FourKeepTwo(v);
    FourKeepTwo(h);
  }

  lemma FourKeepTwo(p: seq<PlanStep>)
    requires |p| == 4 && p[0].keep && !p[1].keep && !p[2].keep && p[3].keep
    ensures KeepCount(p) == 2
  {
    assert KeepCount(p[3..]) == 1 by { assert p[3..][1..] == []; }
    assert KeepCount(p[2..]) == 1 by { assert p[2..][1..] == p[3..]; }
    assert KeepCount(p[1..]) == 1 by { assert p[1..][1..] == p[2..]; }
  }

  lemma SevenKeepTwo(p: seq<PlanStep>)
    requires |p| == 7 && !p[0].keep && p[1].keep && !p[2].keep && !p[3].keep && !p[4].keep && p[5].keep && !p[6].keep
    ensures KeepCount(p) == 2
  {
    assert KeepCount(p[6..]) == 0 by { assert p[6..][1..] == []; }
    assert KeepCount(p[5..]) == 1 by { assert p[5..][1..] == p[6..]; }
    assert KeepCount(p[4..]) == 1 by { assert p[4..][1..] == p[5..]; }
    assert KeepCount(p[3..]) == 1 by { assert p[3..][1..] == p[4..]; }
    assert KeepCount(p[2..]) == 1 by { assert p[2..][1..] == p[3..]; }
    assert KeepCount(p[1..]) == 2 by { assert p[1..][1..] == p[2..]; }
  }

  /** The sixteen lattice points around the star that mark its group. */
  function StarGroup(ax: int, ay: int): (r: seq<Point>)
    ensures |r| == 16
  {
    [ Point(2 * ay + 1, 2 * ax - 3),
      Point(2 * ay - 2, 2 * ax - 2), Point(2 * ay, 2 * ax - 2), Point(2 * ay + 2, 2 * ax - 2), Point(2 * ay + 4, 2 * ax - 2),
      Point(2 * ay - 2, 2 * ax), Point(2 * ay + 4, 2 * ax),
      Point(2 * ay - 3, 2 * ax + 1), Point(2 * ay + 5, 2 * ax + 1),
      Point(2 * ay - 2, 2 * ax + 2), Point(2 * ay + 4, 2 * ax + 2),
      Point(2 * ay - 2, 2 * ax + 4), Point(2 * ay, 2 * ax + 4), Point(2 * ay + 2, 2 * ax + 4), Point(2 * ay + 4, 2 * ax + 4),
      Point(2 * ay + 1, 2 * ax + 5) ]
  }

  /** The star's group names sixteen different points. */
  lemma StarGroupDistinct(ax: int, ay: int)
    ensures forall i, j :: 0 <= i < j < 16 ==> StarGroup(ax, ay)[i] != StarGroup(ax, ay)[j]
  {
  }

  /** For n >= 5, a draw in [0, 1) puts the star's coordinate in 2..n-3. */
  lemma StarCoordRange(n: int, draw: real)
    requires n >= 5 && UnitDraw(draw)
    ensures 2 <= StarCoord(n, draw) <= n - 3
  {
    var k := (n - 4) as real;
    assert 0.0 <= draw * k < k by {
      assert draw * k <= 1.0 * k;
      assert (1.0 - draw) * k > 0.0;
    }
  }

  /**
   * On a fresh pool of 6n+4 lines with the star inside the grid (n >= 5 and
   * both coordinates in 2..n-3), the plan's indices go down and fit: it
   * removes 22 of the pool's lines and keeps 8 of them, each the line
   * originally at its index.
   */
  lemma StarPlanFits(n: int, ax: int, ay: int, len: int)
    requires n >= 5 && 2 <= ax <= n - 3 && 2 <= ay <= n - 3 && len == 6 * n + 4
    ensures Descending(StarPlan(n, ax, ay))
    ensures PlanFits(StarPlan(n, ax, ay), len)
  {
    var p := StarPlan(n, ax, ay);
    assert forall k :: 0 <= k < 21 ==> p[k].idx > p[k + 1].idx;
    DescendingFromSteps(p);
    assert p[21].idx >= 0;
    forall k | 0 <= k < 22 ensures 0 <= p[k].idx < len - k {
      StepsBound(p, k);
    }
  }

  lemma {:induction false} DescendingFromSteps(p: seq<PlanStep>)
    requires forall k :: 0 <= k < |p| - 1 ==> p[k].idx > p[k + 1].idx
    ensures Descending(p)
    decreases |p|
  {
    if |p| > 1 {
      DescendingFromSteps(p[1..]);
      forall j | 0 < j < |p| ensures p[0].idx > p[j].idx {
        if j > 1 {
          assert p[1..][0] == p[1] && p[1..][j - 1] == p[j];
        }
      }
      forall i, j | 0 <= i < j < |p| ensures p[i].idx > p[j].idx {
        if i > 0 {
          assert p[1..][i - 1] == p[i] && p[1..][j - 1] == p[j];
        }
      }
    }
  }

  /** In a descending plan each index is at most the first one minus its position. */
  lemma {:induction false} StepsBound(p: seq<PlanStep>, k: int)
    requires Descending(p) && 0 <= k < |p|
    ensures p[k].idx <= p[0].idx - k
    decreases k
  {
    if k > 0 {
      StepsBound(p, k - 1);
    }
  }

  /**
   * makeRandomStar: splices the plan's lines out of the pool, keeping eight
   * of them, and records the star's group of points.
   */
  method MakeRandomStar(n: int, drawX: real, drawY: real, pool: seq<Line>, kept: seq<Line>, groups: seq<seq<Point>>)
    returns (pool': seq<Line>, kept': seq<Line>, groups': seq<seq<Point>>)
    requires PlanFits(StarPlan(n, StarCoord(n, drawX), StarCoord(n, drawY)), |pool|)
    ensures (pool', kept') == ApplyPlan(pool, kept, StarPlan(n, StarCoord(n, drawX), StarCoord(n, drawY)))
    ensures groups' == groups + [StarGroup(StarCoord(n, drawX), StarCoord(n, drawY))]
  {
    var ax := StarCoord(n, drawX);
    var ay := StarCoord(n, drawY);
    var plan := StarPlan(n, ax, ay);
    pool', kept' := pool, kept;
    var k := 0;
    while k < |plan|
      invariant 0 <= k <= |plan|
      invariant |pool'| == |pool| - k
      invariant PlanFits(plan[k..], |pool'|)
      invariant ApplyPlan(pool', kept', plan[k..]) == ApplyPlan(pool, kept, plan)
    {
      assert plan[k..][0] == plan[k];
      assert plan[k..][1..] == plan[k + 1..];
      var step := plan[k];
      if step.keep {
        kept' := kept' + [pool'[step.idx]];
      }
      pool' := pool'[..step.idx] + pool'[step.idx + 1..];
      k := k + 1;
    }
    groups' := groups + [StarGroup(ax, ay)];
  }

  /**
   * makeRandomStar on the pool makeAllLines just built: 22 lines leave the
   * pool, the 8 kept ones are the lines originally at the plan's kept
   * indices, and nothing else is lost.
   */
  lemma RandomStarOnFreshPool(n: int, drawX: real, drawY: real, kept: seq<Line>)
    requires n >= 5 && UnitDraw(drawX) && UnitDraw(drawY)
    ensures PlanFits(StarPlan(n, StarCoord(n, drawX), StarCoord(n, drawY)), |AllLines(n)|)
    ensures var plan := StarPlan(n, StarCoord(n, drawX), StarCoord(n, drawY));
            var r := ApplyPlan(AllLines(n), kept, plan);
            && |r.0| == 6 * n + 4 - 22
            && r.1 == kept + Picked(AllLines(n), plan)
            && |r.1| == |kept| + 8
            && multiset(AllLines(n)) == multiset(r.0) + multiset(Removed(AllLines(n), plan))
  {
    StarCoordRange(n, drawX);
    StarCoordRange(n, drawY);
    var plan := StarPlan(n, StarCoord(n, drawX), StarCoord(n, drawY));
    StarPlanFits(n, StarCoord(n, drawX), StarCoord(n, drawY), |AllLines(n)|);
    StarKeepCount(n, StarCoord(n, drawX), StarCoord(n, drawY));
    DescendingPicked(AllLines(n), kept, plan);
    DescendingRemoved(AllLines(n), kept, plan);
    ApplyPlanKeeps(AllLines(n), kept, plan);
  }

  // ---------------------------------------------------------------------
  // Sampling the rest of the lines

  /**
   * The sampling loop at the end of createLines: `num` is first reduced by
   * the lines already kept; then, while lines remain and `num` is positive,
   * the line at `int(draw * len(pool))` moves from the pool to the kept
   * lines. `draws` are the successive `rng.Float64()` values.
   */
  method SelectLines(num: int, pool: seq<Line>, kept: seq<Line>, draws: seq<real>)
    returns (pool': seq<Line>, kept': seq<Line>)
    requires forall k :: 0 <= k < |draws| ==> UnitDraw(draws[k])
    requires |draws| >= Min(|pool|, Times(num - |kept|))
    ensures |kept'| == |kept| + Min(|pool|, Times(num - |kept|))
    ensures kept'[..|kept|] == kept
    ensures |pool'| + |kept'| == |pool| + |kept|
    ensures multiset(pool') + multiset(kept') == multiset(pool) + multiset(kept)
    ensures pool' == [] || num - |kept| <= |kept'| - |kept|
  {
    var left := num - |kept|;
    pool', kept' := pool, kept;
    var k := 0;
    while |pool'| > 0 && left > 0
      invariant 0 <= k <= Min(|pool|, Times(num - |kept|))
      invariant left == num - |kept| - k
      invariant |pool'| == |pool| - k && |kept'| == |kept| + k
      invariant kept'[..|kept|] == kept
      invariant multiset(pool') + multiset(kept') == multiset(pool) + multiset(kept)
      decreases |pool'|
    {
      var ri := Truncate(draws[k] * |pool'| as real);
      DrawIndex(draws[k], |pool'|);
      MoveLine(pool', kept', ri, |kept|);
      kept' := kept' + [pool'[ri]];
      pool' := pool'[..ri] + pool'[ri + 1..];
      left := left - 1;
      k := k + 1;
    }
  }

  /** A draw in [0, 1) scaled by a positive length truncates to an index. */
  lemma DrawIndex(draw: real, n: nat)
    requires UnitDraw(draw) && n > 0
    ensures 0 <= Truncate(draw * n as real) < n
  {
    var len := n as real;
    assert draw * len < len by {
      assert (1.0 - draw) * len > 0.0;
    }
  }

  /** Moving the line at i from the pool to the kept lines keeps the lines overall and the kept prefix. */
  lemma MoveLine(pool: seq<Line>, kept: seq<Line>, i: nat, n: nat)
    requires i < |pool| && n <= |kept|
    ensures multiset(pool[..i] + pool[i + 1..]) + multiset(kept + [pool[i]]) == multiset(pool) + multiset(kept)
    ensures (kept + [pool[i]])[..n] == kept[..n]
  {
    assert pool == pool[..i] + [pool[i]] + pool[i + 1..];
  }
}
