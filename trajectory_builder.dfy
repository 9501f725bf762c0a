/**
  The trajectory builder of the window-based query: per object and window
  instance, the joined (report, distance) pairs are turned into one
  trajectory fragment holding the reports' coordinates in arrival order,
  paired with the distance carried by the first pair. A fragment needs at
  least two vertices, so a window with fewer pairs emits nothing.
 */
module TrajectoryBuilder {
  import opened Geo

  /** The coordinates of the joined pairs, in the order they arrived. */
  function Coordinates(ps: seq<PointDist>): (r: seq<Coordinate>)
    ensures |r| == |ps|
    ensures forall i :: 0 <= i < |ps| ==> r[i] == ps[i].point.coord
  {
    seq(|ps|, i requires 0 <= i < |ps| => ps[i].point.coord)
  }

  /** Coordinates of a prefix extended by one pair. */
  lemma CoordinatesSnoc(ps: seq<PointDist>, i: int)
    requires 0 <= i < |ps|
    ensures Coordinates(ps[..i + 1]) == Coordinates(ps[..i]) + [ps[i].point.coord]
  {
  }

  /** The `WindowFunction` of the window-based query that builds
      sub-trajectories; `coordinateList` is the list it reuses across
      firings. */
  class TrajectoryWindowFunction {
    var coordinateList: seq<Coordinate>

    constructor ()
      ensures coordinateList == []
    {
      coordinateList := [];
    }

    /** One firing for object `objID` over its joined pairs `pointIterator`.
        The list is cleared first, so the fragment holds exactly this
        window's coordinates; exactly one fragment is emitted when there are
        at least two of them, none otherwise. */
    method Apply(objID: string, pointIterator: seq<PointDist>) returns (trajectory: seq<TrajDist>)
      modifies this
      ensures coordinateList == Coordinates(pointIterator)
      ensures |trajectory| == (if |pointIterator| > 1 then 1 else 0)
      ensures forall f :: f in trajectory ==>
        f == TrajDist(LineString(objID, Coordinates(pointIterator)), pointIterator[0].dist)
      ensures forall f :: f in trajectory ==> |f.traj.coordinates| >= 2
    {
      coordinateList := [];
      var trajDistFromQ := 0.0;
      var setTrajDistFromQ := false;

      var i := 0;
      while i < |pointIterator|
        invariant 0 <= i <= |pointIterator|
        invariant coordinateList == Coordinates(pointIterator[..i])
        invariant setTrajDistFromQ <==> i > 0
        invariant i > 0 ==> trajDistFromQ == pointIterator[0].dist
      {
        var p := pointIterator[i];
        CoordinatesSnoc(pointIterator, i);
        coordinateList := coordinateList + [p.point.coord];
        if !setTrajDistFromQ {
          trajDistFromQ := p.dist;
          setTrajDistFromQ := true;
        }
        i := i + 1;
      }
      assert pointIterator[..i] == pointIterator;

      trajectory := [];
      if |coordinateList| > 1 {
        var ls := LineString(objID, coordinateList);
        trajectory := trajectory + [TrajDist(ls, trajDistFromQ)];
      }
    }
  }
}
