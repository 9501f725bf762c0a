/**
  The global merge and top-k selection of the window-based and real-time
  queries: one non-keyed window collects the partial results of every
  partition, keeps one entry per object, sorts the objects by distance and
  emits at most k of them. The window-based merge keeps the last fragment
  seen for an object; the real-time merge keeps the closest point, the
  first seen on a tie.
 */
module GlobalMerge {
  import opened Geo
  import opened Ranking
  import opened MinDistance
  import opened KnnTracker

  /** The object identifiers of a sequence of trajectory fragments. */
  ghost function TrajIds(input: seq<TrajDist>): set<string>
  {
    set e | e in input :: e.traj.objID
  }

  /** The fragment stored per object once every fragment has been put into
      the maps, later puts overwriting earlier ones. */
  function LastWins(input: seq<TrajDist>): (r: map<string, TrajDist>)
    ensures r.Keys == TrajIds(input)
    ensures forall id :: id in r ==> r[id].traj.objID == id && r[id] in input
  {
    if input == [] then map[]
    else
      var pre, e := input[..|input| - 1], input[|input| - 1];
      assert input == pre + [e];
      assert forall x :: x in input <==> x in pre || x == e;
      LastWins(pre)[e.traj.objID := e]
  }

  /** `j` is the last fragment of object `id` in `input`. */
  ghost predicate LastOccurrenceAt(input: seq<TrajDist>, id: string, j: int)
  {
    && 0 <= j < |input|
    && input[j].traj.objID == id
    && (forall i :: j < i < |input| ==> input[i].traj.objID != id)
  }

  /** The stored fragment of every object, and so its stored distance, is
      that of the object's last fragment in the input. */
  lemma {:induction false} LastWinsIsLastOccurrence(input: seq<TrajDist>, id: string)
    requires id in TrajIds(input)
    ensures id in LastWins(input)
    ensures exists j :: LastOccurrenceAt(input, id, j) && LastWins(input)[id] == input[j]
  {
    var pre, e := input[..|input| - 1], input[|input| - 1];
    assert input == pre + [e];
    var last := |input| - 1;
    if e.traj.objID == id {
      assert LastOccurrenceAt(input, id, last);
    } else {
      assert id in TrajIds(pre) by {
        var x :| x in input && x.traj.objID == id;
        assert x in pre;
      }
      LastWinsIsLastOccurrence(pre, id);
      var j :| LastOccurrenceAt(pre, id, j) && LastWins(pre)[id] == pre[j];
      assert LastOccurrenceAt(input, id, j) by {
        forall i | j < i < |input|
          ensures input[i].traj.objID != id
        {
          if i < last {
            assert input[i] == pre[i];
          }
        }
      }
    }
  }

  /** `trajectories`: objID -> stored fragment. */
  function Trajectories(stored: map<string, TrajDist>): (r: map<string, LineString>)
    ensures r.Keys == stored.Keys
  {
    map id | id in stored :: stored[id].traj
  }

  /** `trajDistFromQueryPoint`: objID -> stored distance. */
  function TrajDistances(stored: map<string, TrajDist>): (r: map<string, real>)
    ensures r.Keys == stored.Keys
  {
    map id | id in stored :: stored[id].dist
  }

  /** Emitted fragments read as (objID, distance) entries. */
  function TrajEntries(out: seq<TrajDist>): (r: seq<Entry>)
    ensures |r| == |out|
    ensures forall i :: 0 <= i < |out| ==> r[i] == Entry(out[i].traj.objID, out[i].dist)
  {
    seq(|out|, i requires 0 <= i < |out| => Entry(out[i].traj.objID, out[i].dist))
  }

  /** Each emitted entry paired with the fragment stored for its object. */
  function WithTrajectories(trajs: map<string, LineString>, top: seq<Entry>): (r: seq<TrajDist>)
    requires forall i :: 0 <= i < |top| ==> top[i].id in trajs
    ensures |r| == |top|
    ensures forall i :: 0 <= i < |top| ==> r[i] == TrajDist(trajs[top[i].id], top[i].dist)
  {
    seq(|top|, i requires 0 <= i < |top| => TrajDist(trajs[top[i].id], top[i].dist))
  }

  /** One iteration of the merge loop puts the fragment into both maps. */
  lemma LastWinsAppend(done: seq<TrajDist>, e: TrajDist)
    ensures LastWins(done + [e]) == LastWins(done)[e.traj.objID := e]
  {
    assert (done + [e])[..|done|] == done;
  }

  lemma PutMaps(stored: map<string, TrajDist>, e: TrajDist)
    ensures Trajectories(stored[e.traj.objID := e]) == Trajectories(stored)[e.traj.objID := e.traj]
    ensures TrajDistances(stored[e.traj.objID := e]) == TrajDistances(stored)[e.traj.objID := e.dist]
  {
  }

  /** The sort-and-emit tail of the window-based merge: the first k entries
      of the sorted distance map, each paired with its stored fragment. */
  method RankTrajectories(dists: map<string, real>, trajs: map<string, LineString>, k: int)
    returns (out: seq<TrajDist>)
    requires trajs.Keys == dists.Keys
    requires forall id :: id in trajs ==> trajs[id].objID == id
    ensures IsTopK(TrajEntries(out), dists, k)
    ensures forall i :: 0 <= i < |out| ==>
      out[i].traj.objID in trajs && out[i].traj == trajs[out[i].traj.objID]
  {
    var sorted := SortEntries(dists);
    var top := EmitTopK(sorted, k);
    out := WithTrajectories(trajs, top);
    PrefixIsTopK(sorted, dists, k);
    assert TrajEntries(out) == top;
  }

  /** The `AllWindowFunction` merging sub-trajectories (last-wins). */
  class WindowedMerge {
    const k: int
    var trajectories: map<string, LineString>
    var trajDistFromQueryPoint: map<string, real>

    constructor (k: int)
      ensures this.k == k && trajectories == map[] && trajDistFromQueryPoint == map[]
    {
      this.k := k;
      trajectories := map[];
      trajDistFromQueryPoint := map[];
    }

    /** One firing over every fragment of the window; the maps are cleared
        first, so the result depends on this window's fragments alone. */
    method Apply(input: seq<TrajDist>) returns (output: seq<TrajDist>)
      modifies this
      ensures trajectories == Trajectories(LastWins(input))
      ensures trajDistFromQueryPoint == TrajDistances(LastWins(input))
      ensures IsTopK(TrajEntries(output), trajDistFromQueryPoint, k)
      ensures forall i :: 0 <= i < |output| ==>
        output[i].traj.objID in trajectories && output[i].traj == trajectories[output[i].traj.objID]
    {
      trajectories := map[];
      trajDistFromQueryPoint := map[];

      ghost var done: seq<TrajDist> := [];
      var i := 0;
      while i < |input|
        invariant 0 <= i <= |input| && done == input[..i]
        invariant trajectories == Trajectories(LastWins(done))
        invariant trajDistFromQueryPoint == TrajDistances(LastWins(done))
      {
        var e := input[i];
        LastWinsAppend(done, e);
        PutMaps(LastWins(done), e);
        trajectories := trajectories[e.traj.objID := e.traj];
        trajDistFromQueryPoint := trajDistFromQueryPoint[e.traj.objID := e.dist];
        PrefixSnoc(input, i);
        done := done + [e];
        i := i + 1;
      }
      assert input[..i] == input;

      output := RankTrajectories(trajDistFromQueryPoint, trajectories, k);
    }
  }

  /** The `AllWindowFunction` merging per-partition nearest points (min-wins). */
  class RealtimeMerge {
    const k: int
    var pointsIDMap: map<string, Point>
    var pointDistFromQueryPoint: map<string, real>
    var sortedPointDistFromQueryPoint: seq<Entry>

    constructor (k: int)
      ensures this.k == k
      ensures pointsIDMap == map[] && pointDistFromQueryPoint == map[] && sortedPointDistFromQueryPoint == []
    {
      this.k := k;
      pointsIDMap := map[];
      pointDistFromQueryPoint := map[];
      sortedPointDistFromQueryPoint := [];
    }

    /** One firing over every (point, distance) pair of the window; the maps
        are cleared first. */
    method Apply(input: seq<PointDist>) returns (output: seq<PointDist>)
      modifies this
      ensures pointDistFromQueryPoint == Distances(Best(KeyByObjID(input)))
      ensures pointsIDMap == Points(Best(KeyByObjID(input)))
      ensures Enumerates(sortedPointDistFromQueryPoint, pointDistFromQueryPoint)
      ensures Sorted(sortedPointDistFromQueryPoint)
      ensures forall i :: 0 <= i < |sortedPointDistFromQueryPoint| ==> sortedPointDistFromQueryPoint[i].id in pointsIDMap
      ensures output == WithPoints(pointsIDMap,
        sortedPointDistFromQueryPoint[..EmitCount(k, |sortedPointDistFromQueryPoint|)])
      ensures IsTopK(PointEntries(output), pointDistFromQueryPoint, k)
    {
      pointsIDMap := map[];
      pointDistFromQueryPoint := map[];
      sortedPointDistFromQueryPoint := [];

      ghost var es := KeyByObjID(input);
      ghost var done: seq<Scored> := [];
      var i := 0;
      while i < |input|
        invariant 0 <= i <= |input| && done == es[..i]
        invariant pointDistFromQueryPoint == Distances(Best(done))
        invariant pointsIDMap == Points(Best(done))
      {
        var e := input[i];
        BestAppend(done, es[i]);
        StepDistances(Best(done), es[i]);
        StepPoints(Best(done), es[i]);
        if e.point.objID !in pointDistFromQueryPoint {
          pointDistFromQueryPoint := pointDistFromQueryPoint[e.point.objID := e.dist];
          pointsIDMap := pointsIDMap[e.point.objID := e.point];
        } else if e.dist < pointDistFromQueryPoint[e.point.objID] {
          pointDistFromQueryPoint := pointDistFromQueryPoint[e.point.objID := e.dist];
          pointsIDMap := pointsIDMap[e.point.objID := e.point];
        }
        PrefixSnoc(es, i);
        done := done + [es[i]];
        i := i + 1;
      }
      assert es[..i] == es;

      KeyByObjIDKeyedByOwnID(input);
      BestKeyedByOwnID(es);
      sortedPointDistFromQueryPoint, output := RankPoints(pointDistFromQueryPoint, pointsIDMap, k);
    }
  }

  /** Pairs keyed by their point's object are keyed by their own object. */
  lemma KeyByObjIDKeyedByOwnID(input: seq<PointDist>)
    ensures KeyedByOwnID(KeyByObjID(input))
  {
    var es := KeyByObjID(input);
    forall e | e in es
      ensures e.id == e.point.objID
    {
      var i :| 0 <= i < |es| && es[i] == e;
    }
  }
}
