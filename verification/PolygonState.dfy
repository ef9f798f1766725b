/** What holds between the scanlines of a polygon: which edges are active and which still wait (libX11 PolyReg.c). */
module PolygonState {
  import opened Bresenham
  import opened EdgeList
  import opened EdgeOrder
  import opened EdgeTable
  import opened PolygonLoop
  import opened PolygonOrder
  import opened PolygonRule
  import opened PolygonScan
  import opened Tally

  /** Where all edges that meet scanline y cross it. */
  function Crossing(edges: seq<Edge>, side: map<Edge, Side>, y: int): map<Edge, int> { CrossKeys(edges, side, y) }

  predicate Distinguished(edges: seq<Edge>, side: map<Edge, Side>) {
    Distinct(edges) && Keyed(side, edges) && forall e :: e in edges ==> side[e].top.y < side[e].bottom.y
  }

  /** act are the edges that are active from an earlier scanline on, in order of x on scanline y. */
  ghost predicate Running(act: seq<Edge>, edges: seq<Edge>, side: map<Edge, Side>, y: int) {
    && Distinguished(edges, side) && Distinct(act)
    && (forall e :: e in act ==> e in edges && side[e].top.y < y < side[e].bottom.y)
    && (forall e :: e in edges && side[e].top.y < y < side[e].bottom.y ==> e in act)
    && InOrder(act, edges, side, y)
  }

  ghost predicate InOrder(act: seq<Edge>, edges: seq<Edge>, side: map<Edge, Side>, y: int) {
    Keyed(Crossing(edges, side, y), act) && Sorted(Crossing(edges, side, y), act)
  }

  /** The edges that start on scanline y or later, each in the bucket of its scanline. */
  ghost predicate Waiting(lists: seq<ScanLineList>, buckets: seq<seq<Edge>>, edges: seq<Edge>, side: map<Edge, Side>,
                          waiting: set<Edge>, y: int)
    reads waiting
  {
    && Buckets(lists, buckets, side, waiting) && Keyed(side, edges)
    && (forall j :: 0 <= j < |lists| ==> lists[j].scanline >= y)
    && (forall j, e :: 0 <= j < |lists| && e in buckets[j] ==> e in edges)
    && (forall e :: e in edges && side[e].top.y >= y ==> Listed(lists, buckets, side[e].top.y, e))
  }

  // ---------- new edges ----------

  /** The edges of the bucket of scanline y are all that start on it. */
  lemma FirstBucket(lists: seq<ScanLineList>, buckets: seq<seq<Edge>>, edges: seq<Edge>, side: map<Edge, Side>, waiting: set<Edge>, y: int)
    requires Waiting(lists, buckets, edges, side, waiting, y) && lists != [] && lists[0].scanline == y
    ensures Bucket(lists[0], buckets[0], side) && Within(buckets[0], waiting)
    ensures forall e :: e in edges && side[e].top.y == y ==> e in buckets[0]
    ensures forall e :: e in buckets[0] ==> e in edges && side[e].top.y == y
  {
    assert Bucket(lists[0], buckets[0], side);
    forall e | e in edges && side[e].top.y == y
      ensures e in buckets[0]
    {
      var j :| 0 <= j < |lists| && lists[j].scanline == y && e in buckets[j];
    }
  }

  /** Without a bucket for scanline y no edge starts on it. */
  lemma NoBucket(lists: seq<ScanLineList>, buckets: seq<seq<Edge>>, edges: seq<Edge>, side: map<Edge, Side>, waiting: set<Edge>, y: int)
    requires Waiting(lists, buckets, edges, side, waiting, y) && (lists == [] || lists[0].scanline != y)
    ensures forall e :: e in edges ==> side[e].top.y != y
    ensures Waiting(lists, buckets, edges, side, waiting, y + 1)
  {
    forall e | e in edges && side[e].top.y >= y
      ensures side[e].top.y > y
    {
      var j :| 0 <= j < |lists| && lists[j].scanline == side[e].top.y && e in buckets[j];
      assert lists[0].scanline <= lists[j].scanline;
    }
  }

  /** The later buckets, without the edges of the first. */
  lemma LaterBuckets(lists: seq<ScanLineList>, buckets: seq<seq<Edge>>, edges: seq<Edge>, side: map<Edge, Side>, waiting: set<Edge>,
                     y: int, rest: set<Edge>)
    requires Waiting(lists, buckets, edges, side, waiting, y) && lists != [] && lists[0].scanline == y
    requires rest == waiting - (set e | e in buckets[0])
    ensures Waiting(lists[1..], buckets[1..], edges, side, rest, y + 1)
  {
    var ls, bs := lists[1..], buckets[1..];
    OthersApart(lists, buckets, side, waiting, 0);
    forall j | 0 <= j < |ls|
      ensures Within(bs[j], rest) && Bucket(ls[j], bs[j], side)
    {
      assert bs[j] == buckets[j + 1] && ls[j] == lists[j + 1];
      assert Within(buckets[j + 1], waiting);
      forall i | 0 <= i < |bs[j]|
        ensures bs[j][i] !in buckets[0]
      {
        assert bs[j][i] in buckets[j + 1];
      }
    }
    forall j | 0 <= j < |ls|
      ensures ls[j].scanline >= y + 1
    {
      assert lists[0].scanline < lists[j + 1].scanline;
    }
    forall e | e in edges && side[e].top.y >= y + 1
      ensures Listed(ls, bs, side[e].top.y, e)
    {
      var j :| 0 <= j < |lists| && lists[j].scanline == side[e].top.y && e in buckets[j];
      assert ls[j - 1] == lists[j] && bs[j - 1] == buckets[j];
    }
  }

  /** out are the edges that meet scanline y, in order of x. */
  ghost predicate Loaded(out: seq<Edge>, edges: seq<Edge>, side: map<Edge, Side>, y: int) {
    Distinguished(edges, side) && OnScanline(out, edges, side, y) && InOrder(out, edges, side, y)
  }

  /** Keys that are the crossings on scanline y. */
  ghost predicate AreCrossings(key: map<Edge, int>, es: seq<Edge>, edges: seq<Edge>, side: map<Edge, Side>, y: int) {
    && Keyed(key, es) && Keyed(Crossing(edges, side, y), es)
    && forall i {:trigger es[i]} :: 0 <= i < |es| ==> key[es[i]] == Crossing(edges, side, y)[es[i]]
  }

  lemma CrossingHas(edges: seq<Edge>, side: map<Edge, Side>, y: int, es: seq<Edge>)
    requires Distinguished(edges, side) && forall e :: e in es ==> e in edges && side[e].Meets(y)
    ensures Keyed(Crossing(edges, side, y), es)
    ensures forall e :: e in es ==> Crossing(edges, side, y)[e] == CrossX(side[e], y)
  {
  }

  lemma CrossesAtTop(s: Side)
    requires s.Valid()
    ensures CrossX(s, s.top.y) == s.top.x
  {
  }

  /** The edges of a bucket are in order of x where they start. */
  lemma BucketOrder(b: seq<Edge>, edges: seq<Edge>, side: map<Edge, Side>, y: int)
    requires Distinguished(edges, side) && forall e :: e in b ==> e in edges && side[e].top.y == y
    requires forall i, j :: 0 <= i < j < |b| ==> side[b[i]].top.x <= side[b[j]].top.x
    ensures InOrder(b, edges, side, y)
  {
    CrossingHas(edges, side, y, b);
    forall e | e in b
      ensures Crossing(edges, side, y)[e] == side[e].top.x
    {
      CrossesAtTop(side[e]);
    }
  }

  lemma MergedMembers(key: map<Edge, int>, act: seq<Edge>, b: seq<Edge>)
    requires Keyed(key, act) && Keyed(key, b) && Distinct(act) && Distinct(b) && forall e :: e in b ==> e !in act
    ensures Distinct(Merge(key, act, b))
    ensures forall e :: e in Merge(key, act, b) ==> e in act || e in b
    ensures forall e :: e in act ==> e in Merge(key, act, b)
    ensures forall e :: e in b ==> e in Merge(key, act, b)
  {
    MergeHolds(key, act, b);
    var out := Merge(key, act, b);
    assert multiset(out) == multiset(act + b);
    EdgeList.Members(out, act + b);
    DistinctJoin(act, b);
    OnceDistinct(act + b, out);
  }

  lemma DistinctJoin(a: seq<Edge>, b: seq<Edge>)
    requires Distinct(a) && Distinct(b) && forall e :: e in b ==> e !in a
    ensures Distinct(a + b)
  {
    var t := a + b;
    forall i, j | 0 <= i < j < |t|
      ensures t[i] != t[j]
    {
      if i < |a| && j >= |a| {
        assert t[i] in a && t[j] in b;
      }
    }
  }

  /** A permutation of distinct edges is distinct. */
  lemma OnceDistinct(a: seq<Edge>, out: seq<Edge>)
    requires Distinct(a) && multiset(out) == multiset(a)
    ensures Distinct(out)
  {
    forall i, j | 0 <= i < j < |out|
      ensures out[i] != out[j]
    {
      DistinctOnce(a, out[i]);
      assert out == out[..i] + [out[i]] + out[i + 1..j] + [out[j]] + out[j + 1..];
    }
  }

  /** Order by keys that are the crossings. */
  lemma OrderedByKeys(key: map<Edge, int>, es: seq<Edge>, edges: seq<Edge>, side: map<Edge, Side>, y: int)
    requires AreCrossings(key, es, edges, side, y)
    ensures Sorted(key, es) <==> InOrder(es, edges, side, y)
  {
  }

  lemma AreCrossingsOf(key: map<Edge, int>, es: seq<Edge>, edges: seq<Edge>, side: map<Edge, Side>, y: int)
    requires Distinguished(edges, side) && Keyed(key, es)
    requires forall e :: e in es ==> e in edges && side[e].Meets(y) && key[e] == CrossX(side[e], y)
    ensures AreCrossings(key, es, edges, side, y)
  {
    CrossingHas(edges, side, y, es);
  }

  /** Merging the bucket of scanline y into the running edges gives the edges that meet the scanline. */
  lemma LoadedOrder(act: seq<Edge>, b: seq<Edge>, key: map<Edge, int>, edges: seq<Edge>, side: map<Edge, Side>, y: int)
    requires Running(act, edges, side, y) && Distinct(b)
    requires forall e :: e in edges && side[e].top.y == y ==> e in b
    requires forall e :: e in b ==> e in edges && side[e].top.y == y
    requires forall i, j :: 0 <= i < j < |b| ==> side[b[i]].top.x <= side[b[j]].top.x
    requires Keyed(key, act) && Keyed(key, b)
    requires forall e :: e in act ==> key[e] == CrossX(side[e], y)
    requires forall e :: e in b ==> key[e] == CrossX(side[e], y)
    ensures Loaded(Merge(key, act, b), edges, side, y)
  {
    var out := Merge(key, act, b);
    MergedMembers(key, act, b);
    AreCrossingsOf(key, act, edges, side, y);
    AreCrossingsOf(key, b, edges, side, y);
    BucketOrder(b, edges, side, y);
    OrderedByKeys(key, act, edges, side, y);
    OrderedByKeys(key, b, edges, side, y);
    MergeSorts(key, act, b);
    AreCrossingsOf(key, out, edges, side, y);
    OrderedByKeys(key, out, edges, side, y);
  }

  lemma NothingLoaded(act: seq<Edge>, edges: seq<Edge>, side: map<Edge, Side>, y: int)
    requires Running(act, edges, side, y) && forall e :: e in edges ==> side[e].top.y != y
    ensures Loaded(act, edges, side, y)
  {
  }

  // ---------- the sides of the edges ----------

  /** Some of the edges of the table. */
  ghost predicate FromTable(es: seq<Edge>, edges: seq<Edge>, side: map<Edge, Side>) {
    Keyed(side, edges) && forall e :: e in es ==> e in edges
  }

  lemma FromSides(es: seq<Edge>, edges: seq<Edge>, side: map<Edge, Side>)
    requires FromTable(es, edges, side)
    ensures Keyed(side, es) && forall s :: s in ValuesOf(side, es) ==> s in ValuesOf(side, edges)
  {
    forall s | s in ValuesOf(side, es)
      ensures s in ValuesOf(side, edges)
    {
      var i :| 0 <= i < |es| && ValuesOf(side, es)[i] == s;
      assert es[i] in es;
      var k :| 0 <= k < |edges| && edges[k] == es[i];
      assert ValuesOf(side, edges)[k] == s;
    }
  }

  /** The sides of the row are those that the active sides and the scanline call for. */
  ghost predicate RowIs(row: seq<Edge>, act: seq<Edge>, edges: seq<Edge>, side: map<Edge, Side>, y: int) {
    && FromTable(act, edges, side) && FromTable(row, edges, side)
    && (FromSides(act, edges, side); FromSides(row, edges, side);
        ValuesOf(side, row) == RowFrom(ValuesOf(side, edges), ValuesOf(side, act), y))
  }

  /** The sides of the edges that are active next are those that the row calls for. */
  ghost predicate NextIs(out: seq<Edge>, row: seq<Edge>, edges: seq<Edge>, side: map<Edge, Side>, y: int) {
    && FromTable(out, edges, side) && FromTable(row, edges, side)
    && (FromSides(out, edges, side); FromSides(row, edges, side);
        ValuesOf(side, out) == NextActive(ValuesOf(side, edges), ValuesOf(side, row), y))
  }

  /** Keys that are the crossings are the keys of the sides. */
  lemma CrossingKeys(key: map<Edge, int>, es: seq<Edge>, edges: seq<Edge>, side: map<Edge, Side>, y: int)
    requires FromTable(es, edges, side) && forall e :: e in es ==> e in key && side[e].Valid() && side[e].Meets(y) && key[e] == CrossX(side[e], y)
    ensures SameKeys(side, key, XOf(ValuesOf(side, edges), y), es)
  {
    FromSides(es, edges, side);
    var sides := ValuesOf(side, edges);
    forall e | e in es
      ensures side[e] in sides
    {
      var k :| 0 <= k < |edges| && edges[k] == e;
      assert sides[k] == side[e];
    }
  }

  lemma RowMerged(act: seq<Edge>, b: seq<Edge>, key: map<Edge, int>, edges: seq<Edge>, side: map<Edge, Side>, y: int)
    requires Distinguished(edges, side) && FromTable(act, edges, side) && FromTable(b, edges, side) && InEntryOrder(y, b, edges, side)
    requires forall e :: e in act || e in b ==> e in key && side[e].Meets(y) && key[e] == CrossX(side[e], y)
    requires Keyed(key, act) && Keyed(key, b) && FromTable(Merge(key, act, b), edges, side)
    ensures RowIs(Merge(key, act, b), act, edges, side, y)
  {
    FromSides(act, edges, side);
    CrossingKeys(key, act, edges, side, y);
    CrossingKeys(key, b, edges, side, y);
    MergeValues(side, key, XOf(ValuesOf(side, edges), y), act, b);
  }

  lemma RowUnchanged(act: seq<Edge>, edges: seq<Edge>, side: map<Edge, Side>, y: int)
    requires FromTable(act, edges, side) && forall e :: e in edges ==> side[e].top.y != y
    ensures RowIs(act, act, edges, side, y)
  {
    FromSides(act, edges, side);
    var sides := ValuesOf(side, edges);
    forall s | s in sides
      ensures s.top.y != y
    {
      var k :| 0 <= k < |sides| && sides[k] == s;
      assert edges[k] in edges;
    }
    NoneStarting(sides, y);
  }

  lemma NextSorted(row: seq<Edge>, key: map<Edge, int>, edges: seq<Edge>, side: map<Edge, Side>, y: int)
    requires Distinguished(edges, side) && FromTable(row, edges, side)
    requires var kept := Keep(Continues(side, y), row);
      Keyed(key, kept) && (forall e :: e in kept ==> e in edges && side[e].Meets(y + 1) && key[e] == CrossX(side[e], y + 1))
      && FromTable(InsertionSorted(key, kept), edges, side)
    ensures NextIs(InsertionSorted(key, Keep(Continues(side, y), row)), row, edges, side, y)
  {
    var kept, sides := Keep(Continues(side, y), row), ValuesOf(side, edges);
    FromSides(row, edges, side);
    KeepValues(side, Continues(side, y), Lasts(y), row);
    CrossingKeys(key, kept, edges, side, y + 1);
    SortedValues(side, key, XOf(sides, y + 1), kept);
  }

  // ---------- the next scanline ----------

  /** The edges that continue, sorted, are the running edges of the next scanline. */
  lemma NextRunning(act: seq<Edge>, key: map<Edge, int>, edges: seq<Edge>, side: map<Edge, Side>, y: int)
    requires Loaded(act, edges, side, y)
    requires var kept := Keep(Continues(side, y), act);
      Keyed(key, kept) && forall e :: e in kept ==> e in side && side[e].Valid() && side[e].Meets(y + 1) && key[e] == CrossX(side[e], y + 1)
    ensures Running(InsertionSorted(key, Keep(Continues(side, y), act)), edges, side, y + 1)
  {
    var kept := Keep(Continues(side, y), act);
    var next := InsertionSorted(key, kept);
    KeepDistinct(Continues(side, y), act);
    InsertionSorts(key, kept);
    EdgeList.Members(next, kept);
    OnceDistinct(kept, next);
    AreCrossingsOf(key, next, edges, side, y + 1);
    OrderedByKeys(key, next, edges, side, y + 1);
  }
}
