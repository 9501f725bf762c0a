/**
  The sort-and-truncate step shared by every operator of the query: the
  entries of an objID -> distance map are listed (in the map's unspecified
  iteration order), sorted ascending by distance with a stable sort, and
  the first k of them are emitted through a counter-bounded loop.
 */
module Ranking {

  /** A `Map.Entry<String, Double>`: an object identifier and its distance. */
  datatype Entry = Entry(id: string, dist: real)

  ghost predicate Sorted(s: seq<Entry>)
  {
    forall i, j :: 0 <= i < j < |s| ==> s[i].dist <= s[j].dist
  }

  ghost predicate DistinctIds(s: seq<Entry>)
  {
    forall i, j :: 0 <= i < j < |s| ==> s[i].id != s[j].id
  }

  ghost function Ids(s: seq<Entry>): set<string>
  {
    set x | x in s :: x.id
  }

  /** `s` lists every entry of `m` exactly once. */
  ghost predicate Enumerates(s: seq<Entry>, m: map<string, real>)
  {
    && DistinctIds(s)
    && Ids(s) == m.Keys
    && (forall i :: 0 <= i < |s| ==> s[i].id in m && m[s[i].id] == s[i].dist)
  }

  /** How many entries the emission loop, which stops once its counter
      equals k, emits from a list of `n`: `k` when `0 <= k < n`; all `n` otherwise,
      including a negative `k`, which the counter never reaches. */
  function EmitCount(k: int, n: nat): nat
  {
    if 0 <= k < n then k else n
  }

  /** `out` is a k-nearest answer over `m`: as many entries as the loop
      emits, ascending, without a repeated identifier, each an entry of `m`,
      and none farther than an entry of `m` that was left out. */
  ghost predicate IsTopK(out: seq<Entry>, m: map<string, real>, k: int)
  {
    && |out| == EmitCount(k, |m|)
    && Sorted(out)
    && DistinctIds(out)
    && (forall i :: 0 <= i < |out| ==> out[i].id in m && m[out[i].id] == out[i].dist)
    && (forall i, id :: 0 <= i < |out| && id in m && id !in Ids(out) ==> out[i].dist <= m[id])
  }

  lemma IdsAppend(s: seq<Entry>, e: Entry)
    ensures Ids(s + [e]) == Ids(s) + {e.id}
  {
    assert forall x :: x in s + [e] <==> x in s || x == e;
  }

  /** A list without repeated identifiers has as many entries as identifiers. */
  lemma {:induction false} DistinctIdsCardinality(s: seq<Entry>)
    requires DistinctIds(s)
    ensures |Ids(s)| == |s|
  {
    if s != [] {
      var t, e := s[..|s| - 1], s[|s| - 1];
      assert s == t + [e];
      assert DistinctIds(t) by {
        forall i, j | 0 <= i < j < |t| ensures t[i].id != t[j].id {
          assert t[i] == s[i] && t[j] == s[j];
        }
      }
      DistinctIdsCardinality(t);
      IdsAppend(t, e);
      forall x | x in t
        ensures x.id != e.id
      {
        var j :| 0 <= j < |t| && t[j] == x;
        assert s[j] == x;
      }
    }
  }

  /** An enumeration of a map is as long as the map. */
  lemma EnumeratesLength(s: seq<Entry>, m: map<string, real>)
    requires Enumerates(s, m)
    ensures |s| == |m|
  {
    DistinctIdsCardinality(s);
    assert |Ids(s)| == |m.Keys|;
  }

  /** The map's entries copied into a list: every entry once, in an
      order the map does not specify (an arbitrary choice here). */
  method EntryList(m: map<string, real>) returns (list: seq<Entry>)
    ensures Enumerates(list, m)
  {
    list := [];
    var rest := m.Keys;
    while rest != {}
      invariant rest <= m.Keys
      invariant DistinctIds(list)
      invariant Ids(list) == m.Keys - rest
      invariant forall i :: 0 <= i < |list| ==> list[i].id in m && m[list[i].id] == list[i].dist
      decreases rest
    {
      var id :| id in rest;
      IdsAppend(list, Entry(id, m[id]));
      list := list + [Entry(id, m[id])];
      rest := rest - {id};
    }
  }

  /** Inserts `e` before the first entry that is not closer than it, so
      that earlier entries stay ahead of equal ones (a stable insertion). */
  function Insert(e: Entry, s: seq<Entry>): (r: seq<Entry>)
    ensures multiset(r) == multiset(s) + multiset{e}
  {
    if s == [] || e.dist <= s[0].dist then
      [e] + s
    else
      assert s == [s[0]] + s[1..];
      [s[0]] + Insert(e, s[1..])
  }

  /** An entry no farther than any entry of a sorted list can head it. */
  lemma ConsSorted(x: Entry, t: seq<Entry>)
    requires Sorted(t)
    requires forall y :: y in t ==> x.dist <= y.dist
    ensures Sorted([x] + t)
  {
    var r := [x] + t;
    forall i, j | 0 <= i < j < |r|
      ensures r[i].dist <= r[j].dist
    {
      assert r[j] == t[j - 1] && r[j] in t;
      if i > 0 {
        assert r[i] == t[i - 1];
      }
    }
  }

  /** An entry with a new identifier can head a list of distinct identifiers. */
  lemma ConsDistinct(x: Entry, t: seq<Entry>)
    requires DistinctIds(t) && x.id !in Ids(t)
    ensures DistinctIds([x] + t)
  {
    var r := [x] + t;
    forall i, j | 0 <= i < j < |r|
      ensures r[i].id != r[j].id
    {
      assert r[j] == t[j - 1] && r[j] in t;
      if i > 0 {
        assert r[i] == t[i - 1];
      }
    }
  }

  /** The entries inserted ahead of `e` are the closer ones of `s`. */
  lemma InsertMembers(e: Entry, s: seq<Entry>)
    requires s != [] && s[0].dist < e.dist
    ensures Insert(e, s) == [s[0]] + Insert(e, s[1..])
    ensures forall y :: y in Insert(e, s[1..]) ==> y == e || y in s[1..]
  {
    forall y | y in Insert(e, s[1..])
      ensures y == e || y in s[1..]
    {
      assert y in multiset(Insert(e, s[1..]));
    }
  }

  /** Inserting into a sorted list keeps it sorted. */
  lemma {:induction false} InsertSorted(e: Entry, s: seq<Entry>)
    requires Sorted(s)
    ensures Sorted(Insert(e, s))
  {
    if s == [] || e.dist <= s[0].dist {
      forall y | y in s
        ensures e.dist <= y.dist
      {
        var m :| 0 <= m < |s| && s[m] == y;
      }
      ConsSorted(e, s);
    } else {
      InsertMembers(e, s);
      InsertSorted(e, s[1..]);
      forall y | y in Insert(e, s[1..])
        ensures s[0].dist <= y.dist
      {
        if y != e {
          var m :| 0 <= m < |s[1..]| && s[1..][m] == y;
          assert s[m + 1] == y;
        }
      }
      ConsSorted(s[0], Insert(e, s[1..]));
    }
  }

  /** Inserting an entry whose identifier is new keeps identifiers distinct. */
  lemma {:induction false} InsertDistinct(e: Entry, s: seq<Entry>)
    requires DistinctIds(s) && e.id !in Ids(s)
    ensures DistinctIds(Insert(e, s))
  {
    if s == [] || e.dist <= s[0].dist {
      ConsDistinct(e, s);
    } else {
      InsertMembers(e, s);
      assert Ids(s[1..]) <= Ids(s) by {
        forall y | y in s[1..] ensures y in s {
        }
      }
      InsertDistinct(e, s[1..]);
      forall y | y in Insert(e, s[1..])
        ensures y.id != s[0].id
      {
        if y != e {
          var m :| 0 <= m < |s[1..]| && s[1..][m] == y;
          assert s[m + 1] == y;
        } else {
          assert s[0] in s;
        }
      }
      ConsDistinct(s[0], Insert(e, s[1..]));
    }
  }

  /** The library sort of the entry list by distance: a
      stable sort ascending by distance (insertion sort yields the same
      list as any other stable sort). */
  function SortByDist(s: seq<Entry>): (r: seq<Entry>)
    ensures multiset(r) == multiset(s)
    ensures Sorted(r)
  {
    if s == [] then []
    else
      assert s == [s[0]] + s[1..];
      InsertSorted(s[0], SortByDist(s[1..]));
      Insert(s[0], SortByDist(s[1..]))
  }

  /** Sorting a list without repeated identifiers keeps them distinct. */
  lemma {:induction false} SortByDistDistinct(s: seq<Entry>)
    requires DistinctIds(s)
    ensures DistinctIds(SortByDist(s))
  {
    if s != [] {
      assert s == [s[0]] + s[1..];
      SortByDistDistinct(s[1..]);
      var t := SortByDist(s[1..]);
      forall x | x in t
        ensures x.id != s[0].id
      {
        assert x in multiset(s[1..]);
        var j :| 0 <= j < |s[1..]| && s[1..][j] == x;
        assert s[j + 1] == x;
      }
      InsertDistinct(s[0], t);
    }
  }

  /** The entries of a map, copied into a list and sorted by distance
      (the sorted list is then copied into a `LinkedHashMap`, which keeps
      this order because the identifiers are distinct). */
  method SortEntries(m: map<string, real>) returns (sorted: seq<Entry>)
    ensures Enumerates(sorted, m)
    ensures Sorted(sorted)
  {
    var list := EntryList(m);
    sorted := SortByDist(list);
    SortByDistDistinct(list);
    forall i | 0 <= i < |sorted|
      ensures sorted[i].id in m && m[sorted[i].id] == sorted[i].dist
    {
      assert sorted[i] in multiset(list);
    }
    assert forall x :: x in sorted <==> x in list by {
      forall x ensures x in sorted <==> x in list {
        assert x in sorted <==> x in multiset(sorted);
      }
    }
  }

  /** The emission loop: walk the sorted entries, stop once `counter == k`,
      otherwise emit the entry and count it. */
  method EmitTopK(sorted: seq<Entry>, k: int) returns (out: seq<Entry>)
    ensures out == sorted[..EmitCount(k, |sorted|)]
  {
    out := [];
    var counter := 0;
    var i := 0;
    while i < |sorted|
      invariant 0 <= i <= |sorted|
      invariant counter == i
      invariant 0 <= k ==> counter <= k
      invariant out == sorted[..i]
    {
      if counter == k {
        break;
      }
      out := out + [sorted[i]];
      counter := counter + 1;
      i := i + 1;
    }
  }

  /** The first `EmitCount(k, |m|)` entries of a sorted enumeration of `m`
      are a k-nearest answer over `m`. */
  lemma PrefixIsTopK(s: seq<Entry>, m: map<string, real>, k: int)
    requires Enumerates(s, m) && Sorted(s)
    ensures IsTopK(s[..EmitCount(k, |s|)], m, k)
  {
    EnumeratesLength(s, m);
    var n := EmitCount(k, |s|);
    PrefixDominates(s, m, n);
  }

  /** No entry left out of a prefix of a sorted enumeration is closer than
      an entry of the prefix. */
  lemma PrefixDominates(s: seq<Entry>, m: map<string, real>, n: nat)
    requires Enumerates(s, m) && Sorted(s) && n <= |s|
    ensures forall i, id :: 0 <= i < n && id in m && id !in Ids(s[..n]) ==> s[..n][i].dist <= m[id]
  {
    forall i, id | 0 <= i < n && id in m && id !in Ids(s[..n])
      ensures s[i].dist <= m[id]
    {
      forall a | 0 <= a < n
        ensures s[a].id != id
      {
        assert s[..n][a] == s[a] && s[a] in s[..n];
      }
      var x :| x in s && x.id == id;
      var j :| 0 <= j < |s| && s[j] == x;
    }
  }

  /** The entries of `s` whose identifier is in `keep`, in their order. */
  function Restrict(s: seq<Entry>, keep: set<string>): (r: seq<Entry>)
    ensures |r| <= |s|
    ensures forall x :: x in r <==> x in s && x.id in keep
  {
    if s == [] then []
    else (if s[0].id in keep then [s[0]] else []) + Restrict(s[1..], keep)
  }

  /** The map `m` cut down to the identifiers in `keep`. */
  ghost function RestrictMap(m: map<string, real>, keep: set<string>): map<string, real>
  {
    map id | id in m && id in keep :: m[id]
  }

  /** Restricting a list splits over concatenation, so the restriction of
      a prefix is a prefix of the restriction. */
  lemma {:induction false} RestrictConcat(a: seq<Entry>, b: seq<Entry>, keep: set<string>)
    ensures Restrict(a + b, keep) == Restrict(a, keep) + Restrict(b, keep)
  {
    if a == [] {
      assert a + b == b;
    } else {
      assert (a + b)[1..] == a[1..] + b;
      RestrictConcat(a[1..], b, keep);
    }
  }

  /** Skipping the entries outside `keep` in a sorted enumeration of `m`
      leaves a sorted enumeration of `m` cut down to `keep`. */
  lemma {:induction false} RestrictSortedEnumerates(s: seq<Entry>, m: map<string, real>, keep: set<string>)
    requires Enumerates(s, m) && Sorted(s)
    ensures Enumerates(Restrict(s, keep), RestrictMap(m, keep))
    ensures Sorted(Restrict(s, keep))
  {
    var r := Restrict(s, keep);
    RestrictSorted(s, keep);
    RestrictDistinct(s, keep);
    forall i | 0 <= i < |r|
      ensures r[i].id in RestrictMap(m, keep) && RestrictMap(m, keep)[r[i].id] == r[i].dist
    {
      assert r[i] in r;
      var j :| 0 <= j < |s| && s[j] == r[i];
    }
    forall id | id in RestrictMap(m, keep)
      ensures id in Ids(r)
    {
      assert id in Ids(s);
      var x :| x in s && x.id == id;
      assert x in r;
    }
  }

  /** The restriction keeps the relative order of the entries it keeps,
      so it inherits sortedness ... */
  lemma {:induction false} RestrictSorted(s: seq<Entry>, keep: set<string>)
    requires Sorted(s)
    ensures Sorted(Restrict(s, keep))
  {
    if s != [] {
      var t := Restrict(s[1..], keep);
      RestrictSorted(s[1..], keep);
      if s[0].id in keep {
        forall y | y in t
          ensures s[0].dist <= y.dist
        {
          var m :| 0 <= m < |s[1..]| && s[1..][m] == y;
          assert s[m + 1] == y;
        }
        ConsSorted(s[0], t);
      }
    }
  }

  /** ... and distinct identifiers. */
  lemma {:induction false} RestrictDistinct(s: seq<Entry>, keep: set<string>)
    requires DistinctIds(s)
    ensures DistinctIds(Restrict(s, keep))
  {
    if s != [] {
      var t := Restrict(s[1..], keep);
      RestrictDistinct(s[1..], keep);
      if s[0].id in keep {
        forall y | y in t
          ensures s[0].id != y.id
        {
          var m :| 0 <= m < |s[1..]| && s[1..][m] == y;
          assert s[m + 1] == y;
        }
        ConsDistinct(s[0], t);
      }
    }
  }
}
