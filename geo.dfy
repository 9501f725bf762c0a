/**
  The values that flow between the operators of a temporal kNN query.
  Distances from the query point are given values (`real`); the planar
  Euclidean distance itself is computed by a foreign helper and enters the
  model as a function parameter.
 */
module Geo {

  /** A JTS `Coordinate` (x, y). */
  datatype Coordinate = Coordinate(x: real, y: real)

  /** A position report: the moving object's identifier, the grid cell the
      report was assigned to, and its location. */
  datatype Point = Point(objID: string, gridID: string, coord: Coordinate)

  /** A `LineString`: a trajectory identifier and its ordered vertices. */
  datatype LineString = LineString(objID: string, coordinates: seq<Coordinate>)

  /** A `Tuple2<Point, Double>`: a report and its distance from the query point. */
  datatype PointDist = PointDist(point: Point, dist: real)

  /** A `Tuple2<LineString, Double>`: a trajectory fragment and its distance. */
  datatype TrajDist = TrajDist(traj: LineString, dist: real)

  /** A report keyed by an object identifier, with its distance. This is the
      `Tuple3<String, Point, Double>` of the naive pipeline, and the shape
      every minimum-distance map of the query is built from. */
  datatype Scored = Scored(id: string, point: Point, dist: real)

  /** The naive query's output `Tuple3<String, LineString, Double>`. */
  datatype NamedTraj = NamedTraj(objID: string, traj: LineString, dist: real)

  /** The reports of a window, each keyed by its own object identifier and
      scored by `euclidean(report, query point)`. */
  function Score(ps: seq<Point>, euclidean: (Coordinate, Coordinate) -> real, q: Coordinate): (r: seq<Scored>)
    ensures |r| == |ps|
    ensures forall i :: 0 <= i < |ps| ==> r[i] == Scored(ps[i].objID, ps[i], euclidean(ps[i].coord, q))
  {
    seq(|ps|, i requires 0 <= i < |ps| => Scored(ps[i].objID, ps[i], euclidean(ps[i].coord, q)))
  }

  /** Point/distance pairs keyed by the point's own object identifier. */
  function KeyByObjID(es: seq<PointDist>): (r: seq<Scored>)
    ensures |r| == |es|
    ensures forall i :: 0 <= i < |es| ==> r[i] == Scored(es[i].point.objID, es[i].point, es[i].dist)
  {
    seq(|es|, i requires 0 <= i < |es| => Scored(es[i].point.objID, es[i].point, es[i].dist))
  }

  /** Every entry is keyed by the identifier of the report it carries. */
  ghost predicate KeyedByOwnID(es: seq<Scored>)
  {
    forall e :: e in es ==> e.id == e.point.objID
  }

  /** The object identifiers that occur in a sequence of keyed reports. */
  ghost function Occurring(es: seq<Scored>): set<string>
  {
    set e | e in es :: e.id
  }

  /** A prefix one element longer is the prefix with that element appended;
      the loops of the model track the part of their input already visited
      this way. */
  lemma PrefixSnoc<T>(s: seq<T>, i: int)
    requires 0 <= i < |s|
    ensures s[..i + 1] == s[..i] + [s[i]]
  {
  }
}
