/**
  The min-wins bookkeeping shared by the per-partition trackers, the
  real-time merge and the naive merge: reports are visited in arrival
  order; an object seen for the first time is inserted, and a later report
  of the same object replaces the stored one only when it is strictly
  closer, so on equal distances the first-seen report stays.
 */
module MinDistance {
  import opened Geo

  /** One iteration of the tracker loop over the winning report per object. */
  function Step(best: map<string, Scored>, e: Scored): (r: map<string, Scored>)
    ensures r.Keys == best.Keys + {e.id}
    ensures e.id in r && r[e.id].dist <= e.dist
    ensures forall id :: id in best && id != e.id ==> r[id] == best[id]
  {
    if e.id !in best then best[e.id := e]
    else if e.dist < best[e.id].dist then best[e.id := e]
    else best
  }

  /** The winning report per object once every report of the window has
      been visited. */
  function Best(es: seq<Scored>): map<string, Scored>
  {
    if es == [] then map[]
    else Step(Best(es[..|es| - 1]), es[|es| - 1])
  }

  /** Only objects that occur in the window are keys of the winners, and
      each key maps to one of that object's own reports. */
  lemma BestKeys(es: seq<Scored>)
    ensures Best(es).Keys == Occurring(es)
    ensures forall id :: id in Best(es) ==> Best(es)[id].id == id && Best(es)[id] in es
  {
    BestKeySet(es);
    BestOwnReports(es);
  }

  lemma {:induction false} BestKeySet(es: seq<Scored>)
    ensures Best(es).Keys == Occurring(es)
  {
    if es != [] {
      var pre, e := es[..|es| - 1], es[|es| - 1];
      assert es == pre + [e];
      BestKeySet(pre);
      OccurringSnoc(pre, e);
    }
  }

  lemma {:induction false} BestOwnReports(es: seq<Scored>)
    ensures forall id :: id in Best(es) ==> Best(es)[id].id == id && Best(es)[id] in es
  {
    if es != [] {
      var pre, e := es[..|es| - 1], es[|es| - 1];
      assert es == pre + [e];
      BestOwnReports(pre);
      forall x | x in pre
        ensures x in es
      {
      }
    }
  }

  /** The distance map (`objMap`, `objIDDistMap`, ...) held beside the winners. */
  function Distances(best: map<string, Scored>): (r: map<string, real>)
    ensures r.Keys == best.Keys
  {
    map id | id in best :: best[id].dist
  }

  /** The point map (`objIDPointMap`, `pointsIDMap`) held beside the winners. */
  function Points(best: map<string, Scored>): (r: map<string, Point>)
    ensures r.Keys == best.Keys
  {
    map id | id in best :: best[id].point
  }

  /** `j` is the first report of object `id` carrying that object's
      minimum distance among the reports `es`. */
  ghost predicate FirstMinimumAt(es: seq<Scored>, id: string, j: int)
  {
    && 0 <= j < |es|
    && es[j].id == id
    && (forall i :: 0 <= i < |es| && es[i].id == id ==> es[j].dist <= es[i].dist)
    && (forall i :: 0 <= i < j && es[i].id == id ==> es[j].dist < es[i].dist)
  }

  /** The first report reaching an object's minimum is unique. */
  lemma FirstMinimumUnique(es: seq<Scored>, id: string, j1: int, j2: int)
    requires FirstMinimumAt(es, id, j1) && FirstMinimumAt(es, id, j2)
    ensures j1 == j2
  {
    assert es[j1].dist == es[j2].dist;
  }

  /** The stored report of every object of the window is that object's
      first report at its minimum distance: the stored distance is the
      minimum, and a tie keeps the earlier report. */
  lemma {:induction false} BestIsFirstMinimum(es: seq<Scored>, id: string)
    requires id in Occurring(es)
    ensures id in Best(es)
    ensures exists j :: FirstMinimumAt(es, id, j) && Best(es)[id] == es[j]
  {
    var pre, e := es[..|es| - 1], es[|es| - 1];
    assert es == pre + [e];
    assert Best(es) == Step(Best(pre), e);
    if id in Occurring(pre) {
      BestIsFirstMinimum(pre, id);
      var j0 :| FirstMinimumAt(pre, id, j0) && Best(pre)[id] == pre[j0];
      if e.id == id && e.dist < pre[j0].dist {
        CloserReportWins(pre, e, j0);
      } else {
        FartherReportKept(pre, e, j0);
      }
    } else {
      OccurringSnoc(pre, e);
      BestKeys(pre);
      NewObjectInserted(pre, e);
    }
  }

  lemma OccurringSnoc(pre: seq<Scored>, e: Scored)
    ensures Occurring(pre + [e]) == Occurring(pre) + {e.id}
  {
    assert forall x :: x in pre + [e] <==> x in pre || x == e;
  }

  /** A strictly closer report of an object becomes its first minimum. */
  lemma CloserReportWins(pre: seq<Scored>, e: Scored, j0: int)
    requires FirstMinimumAt(pre, e.id, j0) && e.dist < pre[j0].dist
    ensures FirstMinimumAt(pre + [e], e.id, |pre|)
  {
    var es := pre + [e];
    forall i | 0 <= i < |pre| && es[i].id == e.id
      ensures e.dist < es[i].dist
    {
      assert es[i] == pre[i];
    }
  }

  /** A report that is not strictly closer leaves the first minimum where it was. */
  lemma FartherReportKept(pre: seq<Scored>, e: Scored, j0: int)
    requires 0 <= j0 < |pre| && FirstMinimumAt(pre, pre[j0].id, j0)
    requires e.id == pre[j0].id ==> pre[j0].dist <= e.dist
    ensures FirstMinimumAt(pre + [e], pre[j0].id, j0)
  {
    var es := pre + [e];
    forall i | 0 <= i < |es| && es[i].id == pre[j0].id
      ensures pre[j0].dist <= es[i].dist
    {
      if i < |pre| {
        assert es[i] == pre[i];
      }
    }
    forall i | 0 <= i < j0 && es[i].id == pre[j0].id
      ensures pre[j0].dist < es[i].dist
    {
      assert es[i] == pre[i];
    }
  }

  /** The first report of an object is its first minimum so far. */
  lemma NewObjectInserted(pre: seq<Scored>, e: Scored)
    requires e.id !in Occurring(pre)
    ensures FirstMinimumAt(pre + [e], e.id, |pre|)
  {
    var es := pre + [e];
    forall i | 0 <= i < |pre|
      ensures es[i].id != e.id
    {
      assert es[i] == pre[i] && pre[i] in pre;
    }
  }

  /** Two reports of one object at the same distance, in either order:
      the first one is stored, and the stored distance is the same. */
  lemma TieKeepsFirstSeen(c1: Scored, c2: Scored)
    requires c1.id == c2.id && c1.dist == c2.dist
    ensures Best([c1, c2]) == map[c1.id := c1]
    ensures Best([c2, c1]) == map[c1.id := c2]
    ensures Distances(Best([c1, c2])) == Distances(Best([c2, c1])) == map[c1.id := c1.dist]
  {
    assert [c1][..0] == [] && [c2][..0] == [];
    assert Best([c1]) == Step(map[], c1) == map[c1.id := c1];
    assert Best([c2]) == Step(map[], c2) == map[c1.id := c2];
    assert [c1, c2][..1] == [c1] && [c2, c1][..1] == [c2];
    assert Best([c1, c2]) == Step(Best([c1]), c2) == map[c1.id := c1];
    assert Best([c2, c1]) == Step(Best([c2]), c1) == map[c1.id := c2];
  }

  /** The stored distance of an object is not larger than any of its reports. */
  lemma BestIsMinimal(es: seq<Scored>, i: int)
    requires 0 <= i < |es|
    ensures es[i].id in Best(es) && Best(es)[es[i].id].dist <= es[i].dist
  {
    var id := es[i].id;
    assert es[i] in es;
    BestIsFirstMinimum(es, id);
  }

  /** The stored distances depend only on which reports arrived, not on
      their order or repetition: two windows holding the same reports yield
      the same objID -> distance map (the stored point can differ on ties). */
  lemma DistancesIgnoreOrder(a: seq<Scored>, b: seq<Scored>)
    requires forall x :: x in a <==> x in b
    ensures Distances(Best(a)) == Distances(Best(b))
  {
    var da, db := Distances(Best(a)), Distances(Best(b));
    SameOccurring(a, b);
    BestKeys(a);
    BestKeys(b);
    assert da.Keys == db.Keys;
    forall id | id in da
      ensures da[id] == db[id]
    {
      SameMinimum(a, b, id);
    }
  }

  lemma SameOccurring(a: seq<Scored>, b: seq<Scored>)
    requires forall x :: x in a <==> x in b
    ensures Occurring(a) == Occurring(b)
  {
    forall id | id in Occurring(a)
      ensures id in Occurring(b)
    {
      var x :| x in a && x.id == id;
      assert x in b;
    }
    forall id | id in Occurring(b)
      ensures id in Occurring(a)
    {
      var x :| x in b && x.id == id;
      assert x in a;
    }
  }

  lemma SameMinimum(a: seq<Scored>, b: seq<Scored>, id: string)
    requires forall x :: x in a <==> x in b
    requires id in Occurring(a) && id in Occurring(b)
    ensures id in Best(a) && id in Best(b) && Best(a)[id].dist == Best(b)[id].dist
  {
    BestIsFirstMinimum(a, id);
    BestIsFirstMinimum(b, id);
    var ja :| FirstMinimumAt(a, id, ja) && Best(a)[id] == a[ja];
    var jb :| FirstMinimumAt(b, id, jb) && Best(b)[id] == b[jb];
    assert a[ja] in b;
    var ia :| 0 <= ia < |b| && b[ia] == a[ja];
    assert b[jb] in a;
    var ib :| 0 <= ib < |a| && a[ib] == b[jb];
  }

  /** The winners after one more report are one step of the winners before it. */
  lemma BestAppend(done: seq<Scored>, e: Scored)
    ensures Best(done + [e]) == Step(Best(done), e)
  {
    assert (done + [e])[..|done|] == done;
  }

  /** One step seen on the distance map the trackers keep: insert when
      absent, replace only when strictly closer. */
  lemma StepDistances(best: map<string, Scored>, e: Scored)
    ensures Distances(Step(best, e)) ==
      if e.id !in best || e.dist < best[e.id].dist
      then Distances(best)[e.id := e.dist] else Distances(best)
  {
    if e.id !in best || e.dist < best[e.id].dist {
      assert Step(best, e) == best[e.id := e];
    }
  }

  /** The same step seen on the point map, updated in lockstep. */
  lemma StepPoints(best: map<string, Scored>, e: Scored)
    ensures Points(Step(best, e)) ==
      if e.id !in best || e.dist < best[e.id].dist
      then Points(best)[e.id := e.point] else Points(best)
  {
    if e.id !in best || e.dist < best[e.id].dist {
      assert Step(best, e) == best[e.id := e];
    }
  }
}
