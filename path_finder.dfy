/** A model of the PathFinder helper: trimming an ordered waypoint path down to
    its trailing part that covers a distance budget.

    Points are opaque: the filter only hands them to the distance function, so
    the point type is a type parameter `P`. The distance between two points is
    the caller-supplied function `d`, always asked about a LATER point (the
    origin) and the point just BEFORE it (the destination). Nothing is assumed
    about `d`; in particular it may return negative values. */
module PathFinder {

  /** The only error the filter raises: a path with fewer than two points. */
  datatype FilterError = PathTooShort

  datatype Result<T> = Ok(value: T) | Err(error: FilterError)

  // ---------------------------------------------------------------------------
  // Specification
  // ---------------------------------------------------------------------------

  /** The distance covered by the suffix `path[k..]` when it is walked from
      the last point back to `path[k]`, one leg at a time, each leg measured
      from the later point to the earlier one. The last point alone covers
      nothing. */
  function Covered<P>(path: seq<P>, d: (P, P) -> real, k: nat): real
    requires k < |path|
    decreases |path| - k
  {
    if k == |path| - 1 then 0.0 else d(path[k + 1], path[k]) + Covered(path, d, k + 1)
  }

  /** `k` is where the filter stops: it keeps at least the last two points
      (`k <= |path| - 2`), it stops either at the start of the path or at the
      first suffix, scanning backwards, whose length reaches the budget, and
      no strictly shorter suffix (of two points or more) reaches it. */
  ghost predicate IsStopIndex<P>(path: seq<P>, d: (P, P) -> real, budget: real, k: int)
  {
    0 <= k <= |path| - 2
    && (k == 0 || Covered(path, d, k) >= budget)
    && forall j :: k < j <= |path| - 2 ==> Covered(path, d, j) < budget
  }

  /** Scans backwards from index `i` for the first index at which the filter
      stops. */
  function StopIndex<P>(path: seq<P>, d: (P, P) -> real, budget: real, i: nat): (k: nat)
    requires i <= |path| - 2
    ensures k <= i
    decreases i
  {
    if i == 0 || Covered(path, d, i) >= budget then i
    else StopIndex(path, d, budget, i - 1)
  }

  /** The backward scan stops where the path starts or where the budget is
      reached, and passes over only suffixes that fall short of it. */
  lemma {:induction false} StopIndexFound<P>(path: seq<P>, d: (P, P) -> real, budget: real, i: nat)
    requires i <= |path| - 2
    ensures var k := StopIndex(path, d, budget, i);
      (k == 0 || Covered(path, d, k) >= budget)
      && forall j :: k < j <= i ==> Covered(path, d, j) < budget
  {
    if i > 0 && Covered(path, d, i) < budget {
      StopIndexFound(path, d, budget, i - 1);
    }
  }

  /** filterPathByDistance as a value: the error for a path of fewer than two
      points, and otherwise the suffix of the path that starts where the
      backward scan stops. */
  function FilterByDistance<P>(path: seq<P>, d: (P, P) -> real, budget: real): (r: Result<seq<P>>)
    ensures r.Err? <==> |path| < 2
    ensures r.Ok? ==> 2 <= |r.value| <= |path|
  {
    if |path| < 2 then Err(PathTooShort)
    else Ok(path[StopIndex(path, d, budget, |path| - 2)..])
  }

  // ---------------------------------------------------------------------------
  // Properties of the specification
  // ---------------------------------------------------------------------------

  /** The returned suffix starts at the stop index. */
  lemma FilterStopsAtStopIndex<P>(path: seq<P>, d: (P, P) -> real, budget: real)
    requires |path| >= 2
    ensures IsStopIndex(path, d, budget, |path| - |FilterByDistance(path, d, budget).value|)
  {
    StopIndexFound(path, d, budget, |path| - 2);
  }

  /** The stop index is unique: whatever index satisfies the stopping rule,
      the filter returns exactly the suffix that starts there. */
  lemma StopIndexUnique<P>(path: seq<P>, d: (P, P) -> real, budget: real, k: int)
    requires IsStopIndex(path, d, budget, k)
    ensures FilterByDistance(path, d, budget) == Ok(path[k..])
  {
    StopIndexFound(path, d, budget, |path| - 2);
  }

  /** The result is a contiguous suffix of the input, in the input's order,
      and so always ends with the input's last two points, whatever the
      budget (zero and negative budgets included). */
  lemma FilterIsSuffix<P>(path: seq<P>, d: (P, P) -> real, budget: real)
    requires |path| >= 2
    ensures var r := FilterByDistance(path, d, budget).value;
      r == path[|path| - |r|..]
      && r[|r| - 2] == path[|path| - 2] && r[|r| - 1] == path[|path| - 1]
  {
  }

  /** A budget that the last leg alone already meets yields exactly the last
      two points; on a path of more than two points, that result means the
      last leg met the budget. */
  lemma LastLegMeetsBudget<P>(path: seq<P>, d: (P, P) -> real, budget: real)
    requires |path| >= 2
    ensures budget <= d(path[|path| - 1], path[|path| - 2]) ==>
      FilterByDistance(path, d, budget) == Ok([path[|path| - 2], path[|path| - 1]])
    ensures |path| > 2 && FilterByDistance(path, d, budget) == Ok([path[|path| - 2], path[|path| - 1]]) ==>
      budget <= d(path[|path| - 1], path[|path| - 2])
  {
    var n := |path|;
    assert Covered(path, d, n - 1) == 0.0;
    assert path[n - 2..] == [path[n - 2], path[n - 1]];
    if |path| > 2 && FilterByDistance(path, d, budget) == Ok([path[n - 2], path[n - 1]]) {
      assert StopIndex(path, d, budget, n - 2) == n - 2;
    }
  }

  /** When no suffix shorter than the path itself reaches the budget, the
      scan runs down to the first point and the whole path comes back. */
  lemma WholePathWhenBudgetUnreached<P>(path: seq<P>, d: (P, P) -> real, budget: real)
    requires |path| >= 2
    requires forall j :: 0 < j <= |path| - 2 ==> Covered(path, d, j) < budget
    ensures FilterByDistance(path, d, budget) == Ok(path)
  {
    StopIndexFound(path, d, budget, |path| - 2);
    assert StopIndex(path, d, budget, |path| - 2) == 0;
  }

  /** Conversely, a result as long as the input (which by FilterIsSuffix is
      the input itself) means that no shorter suffix reached the budget. */
  lemma WholePathOnlyWhenBudgetUnreached<P>(path: seq<P>, d: (P, P) -> real, budget: real)
    requires |path| >= 2
    requires |FilterByDistance(path, d, budget).value| == |path|
    ensures forall j :: 0 < j <= |path| - 2 ==> Covered(path, d, j) < budget
  {
    var k := StopIndex(path, d, budget, |path| - 2);
    StopIndexFound(path, d, budget, |path| - 2);
    assert |path[k..]| == |path| - k;
  }

  /** A larger budget never yields a shorter path. */
  lemma LargerBudgetKeepsMore<P>(path: seq<P>, d: (P, P) -> real, small: real, large: real)
    requires |path| >= 2
    requires small <= large
    ensures |FilterByDistance(path, d, small).value| <= |FilterByDistance(path, d, large).value|
  {
    var n := |path|;
    StopIndexFound(path, d, small, n - 2);
    StopIndexFound(path, d, large, n - 2);
  }

  /** The worked case of the test suite: every leg measures 2 and the budget
      is 4, so from a, b, c, d the filter keeps b, c, d. */
  lemma FilterWithConstantLegs()
    ensures FilterByDistance(['a', 'b', 'c', 'd'], (x: char, y: char) => 2.0, 4.0) == Ok(['b', 'c', 'd'])
  {
  }

  /** The result is not bounded by the budget: with legs of 2 and a budget
      of 3, the scan stops only once the kept suffix covers 4. */
  lemma FilterMayOvershootBudget()
    ensures var path := ['a', 'b', 'c', 'd'];
      var d := (x: char, y: char) => 2.0;
      FilterByDistance(path, d, 3.0) == Ok(['b', 'c', 'd'])
      && Covered(path, d, 1) == 4.0 > 3.0
  {
  }

  /** How far the result can overshoot: when the scan stops above the first
      point, the kept suffix reaches the budget, and without its first leg it
      would still fall short (unless it is just the last two points). */
  lemma OvershootIsAtMostFirstKeptLeg<P>(path: seq<P>, d: (P, P) -> real, budget: real)
    requires |path| >= 2
    ensures var k := |path| - |FilterByDistance(path, d, budget).value|;
      0 < k ==>
        Covered(path, d, k) >= budget
        && (k < |path| - 2 ==> Covered(path, d, k) - d(path[k + 1], path[k]) < budget)
  {
    StopIndexFound(path, d, budget, |path| - 2);
  }

  /** When the scan runs down to the first point the result may fall short of
      the budget: two points with a leg of 2 and a budget of 100 come back
      unchanged, covering only 2. */
  lemma FilterMayFallShortOfBudget()
    ensures var path := ['a', 'b'];
      var d := (x: char, y: char) => 2.0;
      FilterByDistance(path, d, 100.0) == Ok(path)
      && Covered(path, d, 0) == 2.0 < 100.0
  {
  }

  // ---------------------------------------------------------------------------
  // Arrival-time budget
  // ---------------------------------------------------------------------------

  /** The distance budget for travelling at `speed` km/h from the instant
      `nowMs` until the instant `arrivalMs` (both in milliseconds): seconds
      left times metres per second. */
  function ArrivalBudget(speed: real, arrivalMs: int, nowMs: int): (budget: real)
    ensures budget * 3600.0 == speed * (arrivalMs - nowMs) as real
  {
    var seconds := (arrivalMs - nowMs) as real / 1000.0;
    var metersSecond := (speed * 1000.0) / 3600.0;
    metersSecond * seconds
  }

  /** An arrival time that is already past, at a non-negative speed, leaves
      no budget, so only the last two points come back (given that the last
      leg does not measure negative). */
  lemma ArrivalInThePast<P>(path: seq<P>, d: (P, P) -> real, speed: real, arrivalMs: int, nowMs: int)
    requires |path| >= 2
    requires arrivalMs <= nowMs && speed >= 0.0
    requires d(path[|path| - 1], path[|path| - 2]) >= 0.0
    ensures FilterByDistance(path, d, ArrivalBudget(speed, arrivalMs, nowMs))
      == Ok([path[|path| - 2], path[|path| - 1]])
  {
    var budget := ArrivalBudget(speed, arrivalMs, nowMs);
    assert speed * (arrivalMs - nowMs) as real <= 0.0;
    LastLegMeetsBudget(path, d, budget);
  }

  // ---------------------------------------------------------------------------
  // Implementation
  // ---------------------------------------------------------------------------

  /** Array.prototype.reverse: swaps the outer pairs from both ends inwards. */
  method Reverse<T>(s: seq<T>) returns (r: seq<T>)
    ensures |r| == |s|
    ensures forall j :: 0 <= j < |s| ==> r[j] == s[|s| - 1 - j]
  {
    r := s;
    var len := |s|;
    var middle := len / 2;
    var lower := 0;
    while lower < middle
      invariant 0 <= lower <= middle
      invariant |r| == len
      invariant forall j :: 0 <= j < lower ==> r[j] == s[len - 1 - j] && r[len - 1 - j] == s[j]
      invariant forall j :: lower <= j < len - lower ==> r[j] == s[j]
    {
      var upper := len - lower - 1;
      var lowerValue := r[lower];
      r := r[lower := r[upper]][upper := lowerValue];
      lower := lower + 1;
    }
  }

  /** A suffix that falls short of the budget is passed over. */
  lemma StopIndexSkips<P>(path: seq<P>, d: (P, P) -> real, budget: real, i: nat)
    requires 1 <= i <= |path| - 2
    requires Covered(path, d, i) < budget
    ensures StopIndex(path, d, budget, i) == StopIndex(path, d, budget, i - 1)
  {
  }

  /** Points collected from the end of `path` back to index `i`, once
      reversed, are the suffix `path[i..]`. */
  lemma ReversedCollectionIsSuffix<P>(path: seq<P>, i: nat, collected: seq<P>, reversed: seq<P>)
    requires i <= |path| && |collected| == |path| - i
    requires forall j :: 0 <= j < |collected| ==> collected[j] == path[|path| - 1 - j]
    requires |reversed| == |collected|
    requires forall j :: 0 <= j < |collected| ==> reversed[j] == collected[|collected| - 1 - j]
    ensures reversed == path[i..]
  {
  }

  /** filterPathByDistance: keeps the last two points, walks backwards adding
      one leg and one point at a time while the distance so far is short of
      the budget, then restores the original order. */
  method FilterPathByDistance<P>(path: seq<P>, d: (P, P) -> real, distance: real)
    returns (r: Result<seq<P>>)
    ensures r == FilterByDistance(path, d, distance)
  {
    if |path| < 2 {
      return Err(PathTooShort);
    }
    var numPoints := |path|;
    var origin := path[numPoints - 1];
    var destination := path[numPoints - 2];
    var filtered: seq<P> := [];

    var currentDistance := d(origin, destination);
    filtered := filtered + [origin];
    filtered := filtered + [destination];
    assert Covered(path, d, numPoints - 1) == 0.0;

    var i := numPoints - 2;
    while i >= 1 && currentDistance < distance
      invariant 0 <= i <= numPoints - 2
      invariant currentDistance == Covered(path, d, i)
      invariant |filtered| == numPoints - i
      invariant forall j :: 0 <= j < |filtered| ==> filtered[j] == path[numPoints - 1 - j]
      invariant StopIndex(path, d, distance, i) == StopIndex(path, d, distance, numPoints - 2)
      decreases i
    {
      origin := path[i];
      destination := path[i - 1];
      StopIndexSkips(path, d, distance, i);
      currentDistance := currentDistance + d(origin, destination);
      filtered := filtered + [destination];
      i := i - 1;
    }

    assert StopIndex(path, d, distance, i) == i;
    ghost var collected := filtered;
    filtered := Reverse(filtered);
    ReversedCollectionIsSuffix(path, i, collected, filtered);
    // the loop left off where the backward scan stops
    assert StopIndex(path, d, distance, |path| - 2) == i;
    return Ok(filtered);
  }

  /** filterPathByArrivalTime: turns the speed (km/h) and the time left until
      arrival into a distance budget and filters by it. The current time is a
      parameter instead of a clock reading. */
  method FilterPathByArrivalTime<P>(path: seq<P>, d: (P, P) -> real, speed: real, arrivalMs: int, nowMs: int)
    returns (r: Result<seq<P>>)
    ensures r == FilterByDistance(path, d, ArrivalBudget(speed, arrivalMs, nowMs))
  {
    r := FilterPathByDistance(path, d, ArrivalBudget(speed, arrivalMs, nowMs));
  }
}
