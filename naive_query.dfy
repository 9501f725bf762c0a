/**
  The global merge of the naive query (no spatial pruning): the joined
  (objID, report, distance) tuples of a window are gathered per object
  into a coordinate list in arrival order together with the minimum
  distance seen; the objects are then walked in ascending distance and the
  first k whose list holds at least two coordinates are emitted as
  trajectories. Objects with a single coordinate are skipped and do not
  use up any of the k places.
 */
module NaiveQuery {
  import opened Geo
  import opened Ranking
  import opened MinDistance

  /** The coordinates of the tuples of object `id`, in arrival order. */
  ghost function CoordsOf(es: seq<Scored>, id: string): seq<Coordinate>
  {
    if es == [] then []
    else (if es[0].id == id then [es[0].point.coord] else []) + CoordsOf(es[1..], id)
  }

  /** The `trajectories` map after the accumulation loop: a tuple of a known
      object appends its coordinate, a tuple of a new object starts a list. */
  function Accumulate(es: seq<Scored>): map<string, seq<Coordinate>>
  {
    if es == [] then map[]
    else
      var acc, e := Accumulate(es[..|es| - 1]), es[|es| - 1];
      if e.id in acc then acc[e.id := acc[e.id] + [e.point.coord]]
      else acc[e.id := [e.point.coord]]
  }

  /** The objects with a list are the objects occurring in the window. */
  lemma {:induction false} AccumulateKeys(es: seq<Scored>)
    ensures Accumulate(es).Keys == Occurring(es)
  {
    if es != [] {
      var pre, e := es[..|es| - 1], es[|es| - 1];
      assert es == pre + [e];
      AccumulateKeys(pre);
      OccurringSnoc(pre, e);
    }
  }

  lemma {:induction false} CoordsOfSnoc(pre: seq<Scored>, e: Scored, id: string)
    ensures CoordsOf(pre + [e], id) == CoordsOf(pre, id) + (if e.id == id then [e.point.coord] else [])
  {
    var t := if e.id == id then [e.point.coord] else [];
    if pre == [] {
      assert pre + [e] == [e] && [e][1..] == [];
      assert CoordsOf([e], id) == t + CoordsOf([], id);
    } else {
      var rest := pre[1..];
      var h := if pre[0].id == id then [pre[0].point.coord] else [];
      assert (pre + [e])[0] == pre[0];
      assert (pre + [e])[1..] == rest + [e];
      CoordsOfSnoc(rest, e, id);
      calc {
        CoordsOf(pre + [e], id);
        h + CoordsOf(rest + [e], id);
        h + (CoordsOf(rest, id) + t);
        (h + CoordsOf(rest, id)) + t;
        CoordsOf(pre, id) + t;
      }
    }
  }

  /** Each object's list holds the coordinates of exactly that object's
      tuples, in the order they arrived; an object without tuples has no list. */
  lemma {:induction false} AccumulateInArrivalOrder(es: seq<Scored>, id: string)
    ensures CoordsOf(es, id) == if id in Accumulate(es) then Accumulate(es)[id] else []
  {
    if es != [] {
      var pre, e := es[..|es| - 1], es[|es| - 1];
      assert es == pre + [e];
      AccumulateInArrivalOrder(pre, id);
      CoordsOfSnoc(pre, e, id);
    }
  }

  /** The objects whose list can form a LineString (two or more points). */
  function Eligible(trajectories: map<string, seq<Coordinate>>): set<string>
  {
    set id | id in trajectories && |trajectories[id]| > 1
  }

  /** Each emitted entry as (objID, trajectory built from the object's
      list, distance). */
  function Named(trajectories: map<string, seq<Coordinate>>, top: seq<Entry>): (r: seq<NamedTraj>)
    requires forall e :: e in top ==> e.id in trajectories
    ensures |r| == |top|
    ensures forall i :: 0 <= i < |top| ==>
      r[i] == NamedTraj(top[i].id, LineString(top[i].id, trajectories[top[i].id]), top[i].dist)
  {
    seq(|top|, i requires 0 <= i < |top| =>
      NamedTraj(top[i].id, LineString(top[i].id, trajectories[top[i].id]), top[i].dist))
  }

  /** Emitted tuples read as (objID, distance) entries. */
  function NamedEntries(out: seq<NamedTraj>): (r: seq<Entry>)
    ensures |r| == |out|
    ensures forall i :: 0 <= i < |out| ==> r[i] == Entry(out[i].objID, out[i].dist)
  {
    seq(|out|, i requires 0 <= i < |out| => Entry(out[i].objID, out[i].dist))
  }

  /** One iteration of the emission loop: the eligible entries of a
      prefix grow by the next entry exactly when its list is long enough. */
  lemma EmitStep(sorted: seq<Entry>, i: int, trajectories: map<string, seq<Coordinate>>)
    requires 0 <= i < |sorted|
    requires forall e :: e in sorted ==> e.id in trajectories
    ensures forall e :: e in Restrict(sorted[..i], Eligible(trajectories)) ==> e.id in trajectories
    ensures forall e :: e in Restrict(sorted[..i + 1], Eligible(trajectories)) ==> e.id in trajectories
    ensures var x := sorted[i];
      var before := Restrict(sorted[..i], Eligible(trajectories));
      var after := Restrict(sorted[..i + 1], Eligible(trajectories));
      x.id in trajectories &&
      if |trajectories[x.id]| > 1 then
        after == before + [x] &&
        Named(trajectories, after)
          == Named(trajectories, before) + [NamedTraj(x.id, LineString(x.id, trajectories[x.id]), x.dist)]
      else after == before
  {
    var keep := Eligible(trajectories);
    assert sorted[..i + 1] == sorted[..i] + [sorted[i]];
    RestrictConcat(sorted[..i], [sorted[i]], keep);
    assert [sorted[i]][1..] == [];
    assert sorted[i] in sorted;
    forall e | e in sorted[..i + 1] ensures e in sorted { }
  }

  /** Once the counter has reached k, or the list is exhausted, the entries
      emitted so far are the first `EmitCount` eligible ones. */
  lemma RestrictStop(s: seq<Entry>, i: int, keep: set<string>, k: int)
    requires 0 <= i <= |s|
    requires i == |s| || |Restrict(s[..i], keep)| == k
    requires 0 <= k ==> |Restrict(s[..i], keep)| <= k
    ensures var eligible := Restrict(s, keep);
      Restrict(s[..i], keep) == eligible[..EmitCount(k, |eligible|)]
  {
    assert s == s[..i] + s[i..];
    RestrictConcat(s[..i], s[i..], keep);
    if i == |s| {
      assert s[i..] == [];
    }
  }

  /** The emission loop of the naive merge: stop once `counter == k`; emit
      and count an entry only when its list has more than one coordinate,
      and pass over it otherwise. The result is the first k eligible
      entries of the sorted list. */
  method EmitEligible(sorted: seq<Entry>, trajectories: map<string, seq<Coordinate>>, k: int)
    returns (output: seq<NamedTraj>)
    requires forall e :: e in sorted ==> e.id in trajectories
    ensures var eligible := Restrict(sorted, Eligible(trajectories));
      output == Named(trajectories, eligible[..EmitCount(k, |eligible|)])
  {
    ghost var keep := Eligible(trajectories);
    output := [];
    var counter := 0;
    var i := 0;
    while i < |sorted|
      invariant 0 <= i <= |sorted|
      invariant output == Named(trajectories, Restrict(sorted[..i], keep))
      invariant counter == |Restrict(sorted[..i], keep)|
      invariant 0 <= k ==> counter <= k
    {
      if counter == k {
        break;
      }
      var entry := sorted[i];
      EmitStep(sorted, i, trajectories);
      var coordinateList := trajectories[entry.id];
      if |coordinateList| > 1 {
        var ls := LineString(entry.id, coordinateList);
        output := output + [NamedTraj(entry.id, ls, entry.dist)];
        counter := counter + 1;
      }
      i := i + 1;
    }
    RestrictStop(sorted, i, keep, k);
  }

  /** The sort-and-emit tail of the naive merge: a k-nearest answer over
      the objects whose list holds at least two coordinates. */
  method RankEligible(dists: map<string, real>, trajectories: map<string, seq<Coordinate>>, k: int)
    returns (output: seq<NamedTraj>)
    requires dists.Keys == trajectories.Keys
    ensures IsTopK(NamedEntries(output), RestrictMap(dists, Eligible(trajectories)), k)
    ensures forall t :: t in output ==>
      && t.objID in trajectories
      && t.traj == LineString(t.objID, trajectories[t.objID])
      && |t.traj.coordinates| >= 2
  {
    var sorted := SortEntries(dists);
    output := EmitEligible(sorted, trajectories, k);
    EmittedAreEligible(sorted, dists, trajectories, k, output);
  }

  /** What `EmitEligible` returns over a sorted enumeration of the distances
      is a k-nearest answer over the eligible objects, each with its list. */
  lemma EmittedAreEligible(sorted: seq<Entry>, dists: map<string, real>,
                           trajectories: map<string, seq<Coordinate>>, k: int, output: seq<NamedTraj>)
    requires Enumerates(sorted, dists) && Sorted(sorted)
    requires dists.Keys == trajectories.Keys
    requires forall e :: e in sorted ==> e.id in trajectories
    requires var eligible := Restrict(sorted, Eligible(trajectories));
      output == Named(trajectories, eligible[..EmitCount(k, |eligible|)])
    ensures IsTopK(NamedEntries(output), RestrictMap(dists, Eligible(trajectories)), k)
    ensures forall t :: t in output ==>
      && t.objID in trajectories
      && t.traj == LineString(t.objID, trajectories[t.objID])
      && |t.traj.coordinates| >= 2
  {
    var keep := Eligible(trajectories);
    var eligible := Restrict(sorted, keep);
    var top := eligible[..EmitCount(k, |eligible|)];
    RestrictSortedEnumerates(sorted, dists, keep);
    PrefixIsTopK(eligible, RestrictMap(dists, keep), k);
    PrefixMembers(eligible, |top|);
    NamedOfEligible(trajectories, top, output);
  }

  lemma PrefixMembers(s: seq<Entry>, n: nat)
    requires n <= |s|
    ensures forall e :: e in s[..n] ==> e in s
  {
    forall e | e in s[..n]
      ensures e in s
    {
      var j :| 0 <= j < n && s[..n][j] == e;
      assert s[j] == e;
    }
  }

  /** Naming entries of eligible objects: the named tuples read back as the
      same entries, and each carries the object's list of two or more points. */
  lemma NamedOfEligible(trajectories: map<string, seq<Coordinate>>, top: seq<Entry>, output: seq<NamedTraj>)
    requires forall e :: e in top ==> e.id in Eligible(trajectories)
    requires forall e :: e in top ==> e.id in trajectories
    requires output == Named(trajectories, top)
    ensures NamedEntries(output) == top
    ensures forall t :: t in output ==>
      && t.objID in trajectories
      && t.traj == LineString(t.objID, trajectories[t.objID])
      && |t.traj.coordinates| >= 2
  {
    forall t | t in output
      ensures t.objID in trajectories && t.traj == LineString(t.objID, trajectories[t.objID])
      ensures |t.traj.coordinates| >= 2
    {
      var j :| 0 <= j < |output| && output[j] == t;
      assert top[j] in top;
    }
  }

  /** One iteration of the accumulation loop on a tuple of an object
      already seen: its coordinate is appended, and its distance replaced
      only when strictly closer. */
  lemma KnownObjectStep(done: seq<Scored>, e: Scored,
                        trajectories: map<string, seq<Coordinate>>, dists: map<string, real>)
    requires trajectories == Accumulate(done) && dists == Distances(Best(done))
    requires e.id in trajectories
    ensures e.id in dists
    ensures Accumulate(done + [e]) == trajectories[e.id := trajectories[e.id] + [e.point.coord]]
    ensures Distances(Best(done + [e])) == if dists[e.id] > e.dist then dists[e.id := e.dist] else dists
  {
    assert (done + [e])[..|done|] == done;
    AccumulateKeys(done);
    BestKeys(done);
    StepDistances(Best(done), e);
  }

  /** One iteration of the accumulation loop on the first tuple of an
      object: both maps gain an entry for it. */
  lemma NewObjectStep(done: seq<Scored>, e: Scored,
                      trajectories: map<string, seq<Coordinate>>, dists: map<string, real>)
    requires trajectories == Accumulate(done) && dists == Distances(Best(done))
    requires e.id !in trajectories
    ensures Accumulate(done + [e]) == trajectories[e.id := [e.point.coord]]
    ensures Distances(Best(done + [e])) == dists[e.id := e.dist]
  {
    assert (done + [e])[..|done|] == done;
    AccumulateKeys(done);
    BestKeys(done);
    StepDistances(Best(done), e);
  }

  /** The `AllWindowFunction` of the naive query. */
  class NaiveMerge {
    const k: int
    var trajectories: map<string, seq<Coordinate>>
    var objDistFromQueryPoint: map<string, real>

    constructor (k: int)
      ensures this.k == k && trajectories == map[] && objDistFromQueryPoint == map[]
    {
      this.k := k;
      trajectories := map[];
      objDistFromQueryPoint := map[];
    }

    /** One firing over every joined tuple of the window; the maps are
        cleared first. The answer is a k-nearest answer over the objects
        holding at least two coordinates, each emitted with its whole list. */
    method Apply(input: seq<Scored>) returns (output: seq<NamedTraj>)
      modifies this
      ensures trajectories == Accumulate(input)
      ensures objDistFromQueryPoint == Distances(Best(input))
      ensures IsTopK(NamedEntries(output), RestrictMap(objDistFromQueryPoint, Eligible(trajectories)), k)
      ensures forall t :: t in output ==>
        && t.objID in trajectories
        && t.traj == LineString(t.objID, trajectories[t.objID])
        && |t.traj.coordinates| >= 2
    {
      trajectories := map[];
      objDistFromQueryPoint := map[];

      ghost var done: seq<Scored> := [];
      var i := 0;
      while i < |input|
        invariant 0 <= i <= |input| && done == input[..i]
        invariant trajectories == Accumulate(done)
        invariant objDistFromQueryPoint == Distances(Best(done))
      {
        var e := input[i];
        if e.id in trajectories {
          KnownObjectStep(done, e, trajectories, objDistFromQueryPoint);
          var coordinateListIf := trajectories[e.id] + [e.point.coord];
          trajectories := trajectories[e.id := coordinateListIf];
          var existingTrajDist := objDistFromQueryPoint[e.id];
          if existingTrajDist > e.dist {
            objDistFromQueryPoint := objDistFromQueryPoint[e.id := e.dist];
          }
        } else {
          NewObjectStep(done, e, trajectories, objDistFromQueryPoint);
          var coordinateListElse := [e.point.coord];
          trajectories := trajectories[e.id := coordinateListElse];
          objDistFromQueryPoint := objDistFromQueryPoint[e.id := e.dist];
        }
        PrefixSnoc(input, i);
        done := done + [e];
        i := i + 1;
      }
      assert input[..i] == input;

      AccumulateKeys(input);
      BestKeys(input);
      output := RankEligible(objDistFromQueryPoint, trajectories, k);
    }
  }
}
