# Trajectory k-nearest-neighbour query of GeoFlink, modelled in Dafny

GeoFlink answers continuous k-nearest-neighbour (kNN) queries over a stream
of moving-object reports (`Point`: object id, grid-cell id, coordinate). The
trajectory kNN query (`TKNNQuery`) works in three stages:

1. It keeps only the reports whose grid cell is one of the candidate cells
   around the query point.
2. Per grid cell and window, a tracker (`kNNEvaluationWindowed` or
   `kNNEvaluationRealtime`) keeps each object's minimum distance to the
   query point. It sorts the objects by that distance and emits at most k.
3. One global window merges the partial answers and emits the overall k
   nearest. There are three merges:
   - the window-based query keeps the last sub-trajectory seen per object;
   - the real-time query keeps the closest point per object;
   - the naive query gathers each object's coordinates into a trajectory
     and skips objects with fewer than two points.

The window-based query also builds, per object and window, a sub-trajectory
from the object's reports before the merge.

The model has one module per part:

| file | module | what it holds |
|---|---|---|
| `geo.dfy` | `Geo` | the records, and scoring a report by its distance to the query point |
| `candidate_filter.dfy` | `CandidateFilter` | the grid-cell filter |
| `min_distance.dfy` | `MinDistance` | the min-wins bookkeeping (`Step`, `Best`) and its properties |
| `ranking.dfy` | `Ranking` | the sort of a distance map, the emission of the first k entries, and what a kNN answer is (`IsTopK`) |
| `knn_tracker.dfy` | `KnnTracker` | the two per-partition trackers as classes |
| `trajectory_builder.dfy` | `TrajectoryBuilder` | the sub-trajectory builder as a class |
| `global_merge.dfy` | `GlobalMerge` | the window-based (last-wins) and real-time (min-wins) merges as classes |
| `naive_query.dfy` | `NaiveQuery` | the naive merge as a class |

Each window function that clears and refills its own maps is a class. The
maps are fields of type `map`, and `Apply` is a method whose postcondition
states the whole new state as a function of that call's input alone. So
nothing carries over from an earlier firing.

The specification functions are:

- `Best`, the min-wins map, first report kept on a tie;
- `LastWins`, the last-wins map;
- `Accumulate`, the per-object coordinate lists;
- `SortByDist`, a stable insertion sort standing for `Collections.sort`;
- `EmitCount`.

The lemmas next to them prove what the query promises. A kNN answer
(`IsTopK`) has these properties:

- it has `EmitCount(k, n)` entries;
- it is sorted by distance;
- its object ids are distinct;
- each entry carries the object's stored distance;
- every emitted distance is at most the distance of every object that was
  not emitted.

`EmitCount(k, n)` is `k` when `0 <= k < n` and `n` otherwise. The emission
loops stop only when the counter equals k. With a negative k they never
stop early, so they emit every entry.

## Model

| member | source | states |
|---|---|---|
| CandidateFilter.FilterPoints | src/main/java/GeoFlink/spatialOperators/TKNNQuery.java:53-58 | a report survives the filter if and only if its grid cell is one of the candidate cells; the filter never adds reports |
| CandidateFilter.FilterConcat | src/main/java/GeoFlink/spatialOperators/TKNNQuery.java:53-58 | the filter is stateless: filtering a concatenated stream is filtering each part and concatenating |
| CandidateFilter.FilterNoOp | src/main/java/GeoFlink/spatialOperators/TKNNQuery.java:53-58 | when every report lies in a candidate cell, the stream passes unchanged |
| MinDistance.Step | src/main/java/GeoFlink/spatialOperators/TKNNQuery.java:514-521 | one loop step: the reporting object becomes or stays a key with a stored distance no larger than the new one; every other object is untouched |
| MinDistance.BestKeys | src/main/java/GeoFlink/spatialOperators/TKNNQuery.java:511-522 | after the loop, the tracked objects are exactly the objects occurring in the window, and each stored report is one of that object's own reports of the window |
| MinDistance.BestIsFirstMinimum | src/main/java/GeoFlink/spatialOperators/TKNNQuery.java:511-522 | each object's stored report is its first report reaching its minimum distance: strictly closer reports replace, equal ones do not |
| MinDistance.FirstMinimumUnique | src/main/java/GeoFlink/spatialOperators/TKNNQuery.java:516-521 | the first report reaching an object's minimum is unique, so the stored report is determined by the window |
| MinDistance.BestIsMinimal | src/main/java/GeoFlink/spatialOperators/TKNNQuery.java:511-522 | every report of the window is tracked, at a stored distance no larger than its own |
| MinDistance.TieKeepsFirstSeen | src/main/java/GeoFlink/spatialOperators/TKNNQuery.java:519-520 | of two reports of one object at equal distance, the first seen is stored whichever comes first, and the stored distance is the same either way |
| MinDistance.DistancesIgnoreOrder | src/main/java/GeoFlink/spatialOperators/TKNNQuery.java:511-522 | the objID -> distance map depends only on which reports arrived, not on their order or repetition |
| MinDistance.StepDistances | src/main/java/GeoFlink/spatialOperators/TKNNQuery.java:516-521 | the step seen on the distance map: insert when absent, replace only when strictly closer, otherwise unchanged |
| MinDistance.StepPoints | src/main/java/GeoFlink/spatialOperators/TKNNQuery.java:571-579 | the point map is updated in lockstep with the distance map, on the same condition |
| Ranking.EntryList | src/main/java/GeoFlink/spatialOperators/TKNNQuery.java:525 | the entry list holds every (objID, distance) pair of the map exactly once |
| Ranking.SortByDist | src/main/java/GeoFlink/spatialOperators/TKNNQuery.java:526 | the sorted list is a permutation of the entry list and is ordered by ascending distance |
| Ranking.SortByDistDistinct | src/main/java/GeoFlink/spatialOperators/TKNNQuery.java:526 | sorting keeps the object ids distinct |
| Ranking.SortEntries | src/main/java/GeoFlink/spatialOperators/TKNNQuery.java:524-530 | the sorted map copy enumerates the distance map, one entry per object, in ascending distance |
| Ranking.EmitTopK | src/main/java/GeoFlink/spatialOperators/TKNNQuery.java:532-538 | the counter loop emits exactly the first `EmitCount(k, n)` entries, in order |
| Ranking.PrefixIsTopK | src/main/java/GeoFlink/spatialOperators/TKNNQuery.java:524-538 | that prefix of a sorted enumeration is a kNN answer: the right length, sorted, distinct, the stored distances, and no larger than any object left out |
| Ranking.PrefixDominates | src/main/java/GeoFlink/spatialOperators/TKNNQuery.java:532-538 | every emitted distance is at most the distance of every object that was not emitted |
| Ranking.Restrict | src/main/java/GeoFlink/spatialOperators/TKNNQuery.java:474-483 | passing over entries keeps exactly those whose object is kept, and never adds any |
| Ranking.RestrictConcat | src/main/java/GeoFlink/spatialOperators/TKNNQuery.java:474-483 | passing over entries distributes over concatenation |
| Ranking.RestrictSortedEnumerates | src/main/java/GeoFlink/spatialOperators/TKNNQuery.java:463-483 | the kept entries of a sorted enumeration are a sorted enumeration of the kept part of the map |
| KnnTracker.RankPoints | src/main/java/GeoFlink/spatialOperators/TKNNQuery.java:582-596 | the sort-and-emit tail with point lookups: the output read as (objID, distance) pairs is a kNN answer over the distance map |
| KnnTracker.WithPointsIsTopK | src/main/java/GeoFlink/spatialOperators/TKNNQuery.java:594 | looking up the stored point of each emitted entry keeps the answer a kNN answer |
| KnnTracker.KnnEvaluationWindowed.constructor | src/main/java/GeoFlink/spatialOperators/TKNNQuery.java:494-497 | stores the query point and k; the maps start empty |
| KnnTracker.KnnEvaluationWindowed.Apply | src/main/java/GeoFlink/spatialOperators/TKNNQuery.java:505-539 | the new `objMap` is the min-wins distance map of this window's reports; the sorted copy enumerates it in ascending order; the output is its first `EmitCount(k, n)` entries and a kNN answer |
| KnnTracker.KnnEvaluationRealtime.constructor | src/main/java/GeoFlink/spatialOperators/TKNNQuery.java:548-551 | stores the query point and k; the maps start empty |
| KnnTracker.KnnEvaluationRealtime.Apply | src/main/java/GeoFlink/spatialOperators/TKNNQuery.java:560-597 | the distance and point maps are the min-wins maps of this window, in lockstep; the output pairs each of the first `EmitCount(k, n)` sorted entries with its stored point and is a kNN answer |
| TrajectoryBuilder.TrajectoryWindowFunction.constructor | src/main/java/GeoFlink/spatialOperators/TKNNQuery.java:106 | the reused coordinate list starts empty |
| TrajectoryBuilder.TrajectoryWindowFunction.Apply | src/main/java/GeoFlink/spatialOperators/TKNNQuery.java:108-127 | the list holds this window's coordinates in arrival order; one fragment carrying the first pair's distance is emitted when there are at least two coordinates, none otherwise |
| GlobalMerge.LastWins | src/main/java/GeoFlink/spatialOperators/TKNNQuery.java:147-150 | the stored objects are exactly those with a fragment in the window, each stored under its own id |
| GlobalMerge.LastWinsIsLastOccurrence | src/main/java/GeoFlink/spatialOperators/TKNNQuery.java:147-150 | each object's stored fragment and distance come from its last fragment in the window |
| GlobalMerge.RankTrajectories | src/main/java/GeoFlink/spatialOperators/TKNNQuery.java:152-166 | the output read as (objID, distance) pairs is a kNN answer, each paired with the object's stored fragment |
| GlobalMerge.WindowedMerge.constructor | src/main/java/GeoFlink/spatialOperators/TKNNQuery.java:136-138 | both maps start empty |
| GlobalMerge.WindowedMerge.Apply | src/main/java/GeoFlink/spatialOperators/TKNNQuery.java:141-167 | both maps are the last-wins maps of this window's fragments; the output is a kNN answer over the distances, each with its stored fragment |
| GlobalMerge.RealtimeMerge.constructor | src/main/java/GeoFlink/spatialOperators/TKNNQuery.java:281-285 | the maps and the sorted copy start empty |
| GlobalMerge.RealtimeMerge.Apply | src/main/java/GeoFlink/spatialOperators/TKNNQuery.java:288-324 | the distance and point maps are the min-wins maps of this window's pairs, first seen kept on ties; the sorted copy enumerates them; the output is a kNN answer with the stored points |
| NaiveQuery.AccumulateKeys | src/main/java/GeoFlink/spatialOperators/TKNNQuery.java:438-461 | the objects with a coordinate list are exactly the objects occurring in the window |
| NaiveQuery.AccumulateInArrivalOrder | src/main/java/GeoFlink/spatialOperators/TKNNQuery.java:438-461 | each object's list holds the coordinates of exactly its own tuples, in arrival order |
| NaiveQuery.KnownObjectStep | src/main/java/GeoFlink/spatialOperators/TKNNQuery.java:441-451 | a tuple of a known object appends its coordinate and replaces the distance only when strictly closer |
| NaiveQuery.NewObjectStep | src/main/java/GeoFlink/spatialOperators/TKNNQuery.java:452-460 | a tuple of a new object starts a one-coordinate list and records its distance |
| NaiveQuery.EmitEligible | src/main/java/GeoFlink/spatialOperators/TKNNQuery.java:472-483 | the emission loop emits the first `EmitCount(k, n)` eligible entries of the sorted list; objects with one coordinate are passed over without using up a place |
| NaiveQuery.RankEligible | src/main/java/GeoFlink/spatialOperators/TKNNQuery.java:463-483 | the output is a kNN answer over the eligible objects, each with its whole list of at least two coordinates |
| NaiveQuery.EmittedAreEligible | src/main/java/GeoFlink/spatialOperators/TKNNQuery.java:463-483 | the first eligible entries of a sorted enumeration form a kNN answer over the eligible part of the distance map |
| NaiveQuery.NaiveMerge.constructor | src/main/java/GeoFlink/spatialOperators/TKNNQuery.java:425-428 | both maps start empty |
| NaiveQuery.NaiveMerge.Apply | src/main/java/GeoFlink/spatialOperators/TKNNQuery.java:430-485 | the coordinate lists and min-wins distances are those of this window's tuples; the output is a kNN answer over the objects with at least two coordinates, each with its whole list |

## Left out

- Flink is not modelled: streams, timestamp and watermark assignment, window
  assignment, `keyBy`, the joins that pair a report with its distance, and
  parallel execution. Each `Apply` receives one window's elements as a
  sequence.
- The naive query's tracker (`TKNNQuery.java:357-391`) has the same body as
  `kNNEvaluationWindowed`, so `KnnTracker.KnnEvaluationWindowed` models both.
- The code between `TKNNQuery.java:171` and `:237` is commented out in the
  source and is not modelled.
- The Euclidean distance of `HelperClass` is a function parameter, and the
  candidate cells of `UniformGrid.getNeighboringCells` are a set parameter.
  `HelperClass` and `UniformGrid` are not part of this model.
- `Double` is modelled as `real`: no NaN, no infinities, no rounding.
- The entry order of a `HashMap` is unspecified in Java. The model lists the
  entries in an arbitrary order (`Ranking.EntryList`) and proves only what
  holds for every order.
- `Collections.sort` is stable, so the order among equal distances depends on
  the `HashMap` order. The model sorts with a stable insertion sort and states
  only what holds for every such order.
- Null inputs are not modelled: a null `k`, a null report, or a lookup that
  finds nothing (which would throw `NullPointerException`). Every lookup in
  the emission loops is shown to find its key.
- The geometry library's `LineString` is not modelled. A fragment is the
  object id with its coordinate list, and the model assumes the constructor
  copies the list.
- TrajectoryBuilder.TrajectoryWindowFunction.Apply: aliasing between the
  emitted fragment and the reused `coordinateList` is not modelled, because
  the fragment is a value copy of the list.
- MinDistance.DistancesIgnoreOrder: the lemma states only that the stored
  distances ignore the order of arrival. On ties, the stored point does
  depend on the order (see `MinDistance.TieKeepsFirstSeen`).
- Object ids are strings and grid ids are compared for equality only.
- The `TimeWindow` argument that every window function receives is dropped,
  since no body uses it. The partition key is kept as a parameter: `gridID`
  in the trackers and `objID` in the trajectory builder.
