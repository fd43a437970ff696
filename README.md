# PathFinder: distance-bounded path filtering

This project models the `PathFinder` helper of the geolocation library
(`src/path-finder.js`): given an ordered list of waypoints and a distance
budget, `filterPathByDistance` keeps the trailing part of the path whose
accumulated distance first reaches the budget; `filterPathByArrivalTime`
turns a travel speed and an arrival time into such a budget.

Everything lives in module `PathFinder` (`path_finder.dfy`).

- Points are a type parameter `P`: the filter never looks inside a point.
- `computeDistance` (a call into the Google Maps geometry library) becomes a
  parameter `d: (P, P) -> real`. It is always applied as the source does:
  `d(later point, earlier point)`. Nothing is assumed about it; in
  particular it may be negative.
- The thrown `Error` for a path of fewer than two points becomes
  `Err(PathTooShort)` of a `Result`.
- `Covered(path, d, k)` is the distance walked from the last point back to
  `path[k]`, leg by leg. `IsStopIndex` states where the filter stops: the
  largest `k <= |path| - 2` with `k == 0` or `Covered(path, d, k) >= budget`.
  `StopIndex` is the backward scan that finds it.
- `FilterByDistance` is the functional specification:
  `Ok(path[StopIndex(..)..])`, or the error.
- `FilterPathByDistance` is the imperative method. It pushes the last two
  points onto a local list, walks backwards while the running distance is
  below the budget and pushes one point per step, then reverses the list.
  It is proved equal to `FilterByDistance`. `Reverse` models
  `Array.prototype.reverse`: it swaps pairs from both ends inwards.
- `FilterPathByArrivalTime` takes the current time as a parameter (`nowMs`).
  It does not read the clock.

The doc comments at `src/path-finder.js:35-37` and `:58-60` say the returned
path covers at most the budget. The code checks the budget before each
extension, so it does not keep that promise in general. When the scan stops
above the first point, the kept suffix reaches or exceeds the budget, and it
may overshoot it by the first kept leg, for a positive budget or when more
than the last two points are kept (`OvershootIsAtMostFirstKeptLeg`;
`FilterMayOvershootBudget` shows a case). When the scan runs down to the first
point, the whole path comes back and may fall short of the budget
(`FilterMayFallShortOfBudget`). The model follows the code. The library's one
filtering test (`test/test.path-finder.js:80-92`) lands exactly on the budget,
so it agrees with both readings. The error text at `src/path-finder.js:70`
mentions "less than 1 point", but the guard rejects paths of fewer than two
points; the model follows the guard.

## Model

| member | source | states |
|---|---|---|
| `PathFinder.FilterPathByDistance` | src/path-finder.js:68-98 | The push / backward loop / reverse implementation returns exactly `FilterByDistance`: the error for fewer than two points, otherwise the suffix starting at the stop index. |
| `PathFinder.FilterByDistance` | src/path-finder.js:68-98 | A path of fewer than two points is rejected, and only such a path. Otherwise the result has between 2 and `|path|` points. |
| `PathFinder.StopIndex` | src/path-finder.js:86-91 | The backward scan of the loop, started at index `i`: it moves down one index while the suffix's covered distance `Covered(path, d, i)` (the running total `currentDistance` of lines 81 and 89) is below the budget. The index it stops at is never above the starting index. What the stop means is stated by `StopIndexFound`. |
| `PathFinder.StopIndexFound` | src/path-finder.js:86-91 | The backward scan stops at index 0 or at a suffix whose covered distance reaches the budget. Every suffix it passed over fell short of the budget. |
| `PathFinder.FilterStopsAtStopIndex` | src/path-finder.js:86-95 | The returned suffix starts at an index satisfying the stopping rule. If that index is above 0, the suffix covers at least the budget. Every strictly shorter suffix of two or more points covers less than the budget. |
| `PathFinder.StopIndexUnique` | src/path-finder.js:86-95 | The stopping rule determines the result: for any index satisfying it, the filter returns exactly the suffix starting there. |
| `PathFinder.FilterIsSuffix` | src/path-finder.js:76-95 | The result is a contiguous suffix of the input in the input's order. It ends with the input's last two points, whatever the budget (zero or negative included). |
| `PathFinder.LastLegMeetsBudget` | src/path-finder.js:76-91 | If the budget is at most the last leg `d(path[n-1], path[n-2])`, the result is exactly `[path[n-2], path[n-1]]`. Conversely, on a path of more than two points, that result means the budget was at most the last leg. |
| `PathFinder.WholePathWhenBudgetUnreached` | src/path-finder.js:86-91 | If no suffix shorter than the path reaches the budget, the loop runs down to index 0 and the whole path is returned unchanged. |
| `PathFinder.WholePathOnlyWhenBudgetUnreached` | src/path-finder.js:86-91 | A result as long as the input only happens when no shorter suffix reaches the budget. |
| `PathFinder.LargerBudgetKeepsMore` | src/path-finder.js:86-91 | A larger budget never yields a shorter result, for any distance function. |
| `PathFinder.OvershootIsAtMostFirstKeptLeg` | src/path-finder.js:86-91 | When the scan stops above index 0, the kept suffix covers at least the budget. If it has more than two points, dropping its first leg would leave less than the budget. |
| `PathFinder.FilterMayFallShortOfBudget` | src/path-finder.js:86-95 | When the scan reaches index 0 the whole path comes back even if it covers less than the budget: `[a, b]` with a leg of 2 and a budget of 100 gives `[a, b]`. |
| `PathFinder.FilterWithConstantLegs` | test/test.path-finder.js:80-92 | With every leg equal to 2 and a budget of 4, `[a, b, c, d]` is filtered to `[b, c, d]`. |
| `PathFinder.FilterMayOvershootBudget` | src/path-finder.js:86-90 | The budget is checked before each extension. With legs of 2 and a budget of 3, the kept suffix `[b, c, d]` covers 4, more than the budget. |
| `PathFinder.ArrivalBudget` | src/path-finder.js:47-52 | The budget in metres equals speed (km/h) times the milliseconds left until arrival, divided by 3600. |
| `PathFinder.ArrivalInThePast` | src/path-finder.js:46-55 | An arrival time not after the current time, at a non-negative speed, gives a budget of at most 0. So only the last two points come back, provided the last leg is not negative. |
| `PathFinder.FilterPathByArrivalTime` | src/path-finder.js:46-55 | Filters with the budget `ArrivalBudget(speed, arrival, now)` and returns exactly what `FilterByDistance` returns for that budget. |
| `PathFinder.Reverse` | src/path-finder.js:93-95 | The reversed list has the same length, and its element `j` is the input's element `n-1-j`. |

## Left out

- `computeDistance` (`src/path-finder.js:30-32`): its body calls the Google Maps spherical-geometry library. It becomes the uninterpreted parameter `d`.
- Floating point: distances, speeds and budgets are exact `real`s. JavaScript's double rounding in the running sum and in the budget conversion is not modelled. Neither are `NaN` or non-numeric values. A `NaN` budget, or a `NaN`/`undefined` last leg from `computeDistance`, makes the first comparison false, so the last two points come back at once. A `NaN` leg further back stops the scan right after that leg's point is pushed. Other non-numeric budgets are converted to numbers by JavaScript's comparison (a numeric string acts as its number).
- `FilterPathByArrivalTime`: the arrival date is taken as a millisecond timestamp `arrivalMs`. The current time is the parameter `nowMs`, not a clock reading. Parsing `new Date(arrival)` is not modelled.
- `ArrivalInThePast`: holds under the extra hypothesis that the last leg is not negative. The source's distance function (a great-circle distance) never is, but the model does not assume so for `d`.
- The JavaScript array is a Dafny `seq`. Pushing onto it is sequence append. The input is never mutated by the source, so aliasing does not arise.
- The module wrapper, namespace augmentation and `module.exports` (`src/path-finder.js:12-19`, `:100-105`) are plumbing with no behaviour.
- `src/geolocation.js` is not part of this model. Its operations are thin wrappers around the browser geolocation API and the Google Maps geocoder, driven by asynchronous callbacks.
