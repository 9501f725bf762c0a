/**
  Spatial candidate pruning: a report survives only when the grid cell it
  was assigned to is one of the cells neighbouring the query point within
  the query radius. The cell set is computed once per query by the grid
  index and is a parameter here.
 */
module CandidateFilter {
  import opened Geo

  /** The `FilterFunction<Point>` body: keep the report iff its cell is a candidate. */
  predicate Keep(neighboringCells: set<string>, p: Point)
  {
    p.gridID in neighboringCells
  }

  /** The filter applied to one window's reports, in stream order. */
  function FilterPoints(neighboringCells: set<string>, ps: seq<Point>): (r: seq<Point>)
    ensures |r| <= |ps|
    ensures forall p :: p in r <==> p in ps && p.gridID in neighboringCells
  {
    if ps == [] then []
    else (if Keep(neighboringCells, ps[0]) then [ps[0]] else []) + FilterPoints(neighboringCells, ps[1..])
  }

  /** The filter is stateless: filtering a concatenation filters each part. */
  lemma {:induction false} FilterConcat(neighboringCells: set<string>, a: seq<Point>, b: seq<Point>)
    ensures FilterPoints(neighboringCells, a + b)
         == FilterPoints(neighboringCells, a) + FilterPoints(neighboringCells, b)
  {
    if a != [] {
      assert (a + b)[1..] == a[1..] + b;
      FilterConcat(neighboringCells, a[1..], b);
    } else {
      assert a + b == b;
    }
  }

  /** When every report's cell is a candidate (a radius covering the whole
      grid) the filter lets the stream through unchanged, which is why the
      naive query can serve as a baseline for the pruned one. */
  lemma {:induction false} FilterNoOp(neighboringCells: set<string>, ps: seq<Point>)
    requires forall i :: 0 <= i < |ps| ==> ps[i].gridID in neighboringCells
    ensures FilterPoints(neighboringCells, ps) == ps
  {
    if ps != [] {
      FilterNoOp(neighboringCells, ps[1..]);
      assert [ps[0]] + ps[1..] == ps;
    }
  }
}
