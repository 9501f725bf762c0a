/**
  The per-partition kNN trackers: the window functions applied, per grid
  cell and per window instance, to the reports routed to that cell. Each
  call clears the maps it keeps, tracks the minimum distance per object,
  sorts the tracked objects by distance and emits at most k of them.
  `KnnEvaluationWindowed` also stands for the identical anonymous window
  function of the naive query.
 */
module KnnTracker {
  import opened Geo
  import opened Ranking
  import opened MinDistance

  /** Emitted point/distance pairs read as (objID, distance) entries. */
  function PointEntries(out: seq<PointDist>): (r: seq<Entry>)
    ensures |r| == |out|
    ensures forall i :: 0 <= i < |out| ==> r[i] == Entry(out[i].point.objID, out[i].dist)
  {
    seq(|out|, i requires 0 <= i < |out| => Entry(out[i].point.objID, out[i].dist))
  }

  /** Each emitted entry paired with the point stored for its object. */
  function WithPoints(points: map<string, Point>, top: seq<Entry>): (r: seq<PointDist>)
    requires forall i :: 0 <= i < |top| ==> top[i].id in points
    ensures |r| == |top|
    ensures forall i :: 0 <= i < |top| ==> r[i] == PointDist(points[top[i].id], top[i].dist)
  {
    seq(|top|, i requires 0 <= i < |top| => PointDist(points[top[i].id], top[i].dist))
  }

  /** Looking up the stored points of a k-nearest answer keeps it one, when
      each stored point belongs to the object it is stored under. */
  lemma WithPointsIsTopK(points: map<string, Point>, dists: map<string, real>, top: seq<Entry>, k: int)
    requires IsTopK(top, dists, k)
    requires points.Keys == dists.Keys
    requires forall id :: id in points ==> points[id].objID == id
    ensures IsTopK(PointEntries(WithPoints(points, top)), dists, k)
  {
    assert PointEntries(WithPoints(points, top)) == top;
  }

  /** Every report scored for a window is keyed by its own object. */
  lemma ScoreKeyedByOwnID(ps: seq<Point>, euclidean: (Coordinate, Coordinate) -> real, q: Coordinate)
    ensures KeyedByOwnID(Score(ps, euclidean, q))
  {
    var es := Score(ps, euclidean, q);
    forall e | e in es
      ensures e.id == e.point.objID
    {
      var i :| 0 <= i < |es| && es[i] == e;
    }
  }

  /** When reports are keyed by their own object, so is each winner. */
  lemma BestKeyedByOwnID(es: seq<Scored>)
    requires KeyedByOwnID(es)
    ensures forall id :: id in Points(Best(es)) ==> Points(Best(es))[id].objID == id
  {
    BestKeys(es);
  }

  /** The tail of every point-emitting window function: the distance map's
      entries sorted by distance (the `LinkedHashMap` copy), and the first k
      of them emitted with the point stored for each. */
  method RankPoints(dists: map<string, real>, points: map<string, Point>, k: int)
    returns (sorted: seq<Entry>, out: seq<PointDist>)
    requires points.Keys == dists.Keys
    requires forall id :: id in points ==> points[id].objID == id
    ensures Enumerates(sorted, dists) && Sorted(sorted)
    ensures forall i :: 0 <= i < |sorted| ==> sorted[i].id in points
    ensures out == WithPoints(points, sorted[..EmitCount(k, |sorted|)])
    ensures IsTopK(PointEntries(out), dists, k)
  {
    sorted := SortEntries(dists);
    var top := EmitTopK(sorted, k);
    out := WithPoints(points, top);
    PrefixIsTopK(sorted, dists, k);
    WithPointsIsTopK(points, dists, top, k);
  }

  /** `kNNEvaluationWindowed`: objID -> minimum distance, emitted as
      (objID, distance) pairs. */
  class KnnEvaluationWindowed {
    const queryPoint: Point
    const k: int
    var objMap: map<string, real>
    var sortedObjMap: seq<Entry>

    constructor (qPoint: Point, k: int)
      ensures queryPoint == qPoint && this.k == k
      ensures objMap == map[] && sortedObjMap == []
    {
      queryPoint := qPoint;
      this.k := k;
      objMap := map[];
      sortedObjMap := [];
    }

    /** One window firing over the reports `inputTuples` of cell `gridID`.
        The new state is a function of this call's input alone: nothing
        carries over from an earlier firing. */
    method Apply(gridID: string, inputTuples: seq<Point>, euclidean: (Coordinate, Coordinate) -> real)
      returns (outputStream: seq<Entry>)
      modifies this
      ensures objMap == Distances(Best(Score(inputTuples, euclidean, queryPoint.coord)))
      ensures Enumerates(sortedObjMap, objMap) && Sorted(sortedObjMap)
      ensures outputStream == sortedObjMap[..EmitCount(k, |sortedObjMap|)]
      ensures IsTopK(outputStream, objMap, k)
    {
      objMap := map[];
      sortedObjMap := [];

      ghost var es := Score(inputTuples, euclidean, queryPoint.coord);
      ghost var done: seq<Scored> := [];
      var i := 0;
      while i < |inputTuples|
        invariant 0 <= i <= |inputTuples| && done == es[..i]
        invariant objMap == Distances(Best(done))
      {
        var p := inputTuples[i];
        var newDistance := euclidean(p.coord, queryPoint.coord);
        BestAppend(done, es[i]);
        StepDistances(Best(done), es[i]);
        if p.objID !in objMap {
          objMap := objMap[p.objID := newDistance];
        } else if newDistance < objMap[p.objID] {
          objMap := objMap[p.objID := newDistance];
        }
        PrefixSnoc(es, i);
        done := done + [es[i]];
        i := i + 1;
      }
      assert es[..i] == es;

      sortedObjMap := SortEntries(objMap);
      outputStream := EmitTopK(sortedObjMap, k);
      PrefixIsTopK(sortedObjMap, objMap, k);
    }
  }

  /** `kNNEvaluationRealtime`: objID -> minimum distance and, in lockstep,
      objID -> the report carrying it; emitted as (point, distance) pairs. */
  class KnnEvaluationRealtime {
    const queryPoint: Point
    const k: int
    var objIDDistMap: map<string, real>
    var objIDPointMap: map<string, Point>
    var sortedObjMap: seq<Entry>

    constructor (qPoint: Point, k: int)
      ensures queryPoint == qPoint && this.k == k
      ensures objIDDistMap == map[] && objIDPointMap == map[] && sortedObjMap == []
    {
      queryPoint := qPoint;
      this.k := k;
      objIDDistMap := map[];
      objIDPointMap := map[];
      sortedObjMap := [];
    }

    /** One window firing over the reports `inputTuples` of cell `gridID`;
        as for the windowed tracker, the new state depends on this call's
        input alone. */
    method Apply(gridID: string, inputTuples: seq<Point>, euclidean: (Coordinate, Coordinate) -> real)
      returns (outputStream: seq<PointDist>)
      modifies this
      ensures objIDDistMap == Distances(Best(Score(inputTuples, euclidean, queryPoint.coord)))
      ensures objIDPointMap == Points(Best(Score(inputTuples, euclidean, queryPoint.coord)))
      ensures Enumerates(sortedObjMap, objIDDistMap) && Sorted(sortedObjMap)
      ensures forall i :: 0 <= i < |sortedObjMap| ==> sortedObjMap[i].id in objIDPointMap
      ensures outputStream == WithPoints(objIDPointMap, sortedObjMap[..EmitCount(k, |sortedObjMap|)])
      ensures IsTopK(PointEntries(outputStream), objIDDistMap, k)
    {
      objIDDistMap := map[];
      objIDPointMap := map[];
      sortedObjMap := [];

      ghost var es := Score(inputTuples, euclidean, queryPoint.coord);
      ghost var done: seq<Scored> := [];
      var i := 0;
      while i < |inputTuples|
        invariant 0 <= i <= |inputTuples| && done == es[..i]
        invariant objIDDistMap == Distances(Best(done))
        invariant objIDPointMap == Points(Best(done))
      {
        var p := inputTuples[i];
        var newDistance := euclidean(p.coord, queryPoint.coord);
        BestAppend(done, es[i]);
        StepDistances(Best(done), es[i]);
        StepPoints(Best(done), es[i]);
        if p.objID !in objIDDistMap {
          objIDDistMap := objIDDistMap[p.objID := newDistance];
          objIDPointMap := objIDPointMap[p.objID := p];
        } else if newDistance < objIDDistMap[p.objID] {
          objIDDistMap := objIDDistMap[p.objID := newDistance];
          objIDPointMap := objIDPointMap[p.objID := p];
        }
        PrefixSnoc(es, i);
        done := done + [es[i]];
        i := i + 1;
      }
      assert es[..i] == es;

      ScoreKeyedByOwnID(inputTuples, euclidean, queryPoint.coord);
      BestKeyedByOwnID(es);
      sortedObjMap, outputStream := RankPoints(objIDDistMap, objIDPointMap, k);
    }
  }
}
