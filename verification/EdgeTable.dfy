/** The edge table: the sides of a polygon by the scanline on which they start (libX11 PolyReg.c). */
module EdgeTable {
  import opened Bresenham
  import opened EdgeList
  import opened EdgeOrder
  import opened PolygonOrder
  import opened PolygonScan
  import opened PolygonRule
  import opened Tally

  /** One scanline of the table, and the first of the edges that start on it. */
  datatype ScanLineList = ScanLineList(scanline: int, edgelist: Edge?)

  /** e is the entry for side s, drawn on scanline y. */
  ghost predicate Stands(e: Edge, s: Side, y: int)
    reads e
  {
    IsEntry(e.ymax, e.clockWise, e.bres, s, y)
  }

  ghost predicate IsEntry(ymax: int, clockWise: bool, bres: Bres, s: Side, y: int) {
    && s.Valid() && s.top.y <= y
    && ymax == s.bottom.y - 1 && clockWise == s.clockwise
    && bres == Steps(Init(s.bottom.y - s.top.y, s.top.x, s.bottom.x), y - s.top.y)
  }

  /** The edges of one scanline: linked, in order of x, and not yet stepped. */
  ghost predicate Bucket(l: ScanLineList, b: seq<Edge>, side: map<Edge, Side>)
    reads b
  {
    && Chain(l.edgelist, b) && Distinct(b) && Keyed(side, b)
    && (forall i {:trigger b[i]} :: 0 <= i < |b| ==> side[b[i]].top.y == l.scanline && Stands(b[i], side[b[i]], l.scanline))
    && (forall i, j :: 0 <= i < j < |b| ==> side[b[i]].top.x <= side[b[j]].top.x)
  }

  /** The scanlines of the table, in order, with their buckets. */
  ghost predicate Buckets(lists: seq<ScanLineList>, buckets: seq<seq<Edge>>, side: map<Edge, Side>, all: set<Edge>)
    reads all
  {
    && |lists| == |buckets|
    && (forall i, j :: 0 <= i < j < |lists| ==> lists[i].scanline < lists[j].scanline)
    && (forall j {:trigger buckets[j]} :: 0 <= j < |lists| ==> Within(buckets[j], all) && Bucket(lists[j], buckets[j], side))
  }

  /** The buckets hold exactly the edges of the table, each on the scanline on which it starts. */
  ghost predicate Complete(lists: seq<ScanLineList>, buckets: seq<seq<Edge>>, edges: seq<Edge>, side: map<Edge, Side>) {
    && |lists| == |buckets| && Keyed(side, edges)
    && (forall j, e :: 0 <= j < |lists| && e in buckets[j] ==> e in edges)
    && (forall e :: e in edges ==> Listed(lists, buckets, side[e].top.y, e))
  }

  /** The sides of every bucket are those that start on its scanline, in the order in which they enter it. */
  ghost predicate EntryOrder(lists: seq<ScanLineList>, buckets: seq<seq<Edge>>, edges: seq<Edge>, side: map<Edge, Side>) {
    && |lists| == |buckets| && Keyed(side, edges)
    && forall j {:trigger buckets[j]} :: 0 <= j < |lists| ==> InEntryOrder(lists[j].scanline, buckets[j], edges, side)
  }

  ghost predicate InEntryOrder(y: int, b: seq<Edge>, edges: seq<Edge>, side: map<Edge, Side>)
    requires Keyed(side, edges)
  {
    Keyed(side, b) && ValuesOf(side, b) == Starting(ValuesOf(side, edges), y)
  }

  ghost predicate Listed(lists: seq<ScanLineList>, buckets: seq<seq<Edge>>, y: int, e: Edge) {
    exists j :: 0 <= j < |lists| && j < |buckets| && lists[j].scanline == y && e in buckets[j]
  }

  /** The inner loop of InsertEdgeInET: past the edges further left. */
  method FindSlot(first: Edge?, ETE: Edge, ghost b: seq<Edge>) returns (prev: Edge?, start: Edge?, ghost c: nat)
    requires Chain(first, b)
    ensures c <= |b| && start == (if c < |b| then b[c] else null) && prev == (if c > 0 then b[c - 1] else null)
    ensures forall i :: 0 <= i < c ==> b[i].bres.minorAxis < ETE.bres.minorAxis
    ensures c < |b| ==> b[c].bres.minorAxis >= ETE.bres.minorAxis
  {
    prev := null;
    start := first;
    c := 0;
    while start != null && start.bres.minorAxis < ETE.bres.minorAxis
      invariant c <= |b| && start == (if c < |b| then b[c] else null) && prev == (if c > 0 then b[c - 1] else null)
      invariant forall i :: 0 <= i < c ==> b[i].bres.minorAxis < ETE.bres.minorAxis
      decreases |b| - c
    {
      prev := start;
      start := start.next;
      c := c + 1;
    }
  }

  /** The edge joins the bucket at its slot. */
  method Join(first: Edge?, ETE: Edge, ghost b: seq<Edge>, ghost all: set<Edge>) returns (newFirst: Edge?, ghost c: nat)
    requires Chain(first, b) && Distinct(b) && Within(b, all) && ETE in all && ETE !in b
    modifies all`next
    ensures c <= |b| && Chain(newFirst, b[..c] + [ETE] + b[c..])
    ensures forall i :: 0 <= i < c ==> b[i].bres.minorAxis < ETE.bres.minorAxis
    ensures c < |b| ==> b[c].bres.minorAxis >= ETE.bres.minorAxis
    ensures forall f :: f in all && f != ETE && f !in b ==> f.next == old(f.next)
  {
    var prev, start;
    prev, start, c := FindSlot(first, ETE, b);
    ETE.next := start;
    newFirst := first;
    if prev != null {
      prev.next := ETE;
    } else {
      newFirst := ETE;
    }
  }

  /** A new scanline at place j. */
  function Opened<E>(s: seq<E>, j: nat, x: E): (r: seq<E>)
    requires j <= |s|
  {
    s[..j] + [x] + s[j..]
  }

  /** The list of scanlines after InsertEdgeInET has looked for its place: with a scanline for the edge. */
  method FindScanline(lists: seq<ScanLineList>, scanline: int) returns (newLists: seq<ScanLineList>, j: nat, isNew: bool)
    requires forall i, k :: 0 <= i < k < |lists| ==> lists[i].scanline < lists[k].scanline
    ensures j < |newLists| && newLists[j].scanline == scanline
    ensures forall i, k :: 0 <= i < k < |newLists| ==> newLists[i].scanline < newLists[k].scanline
    ensures isNew ==> j <= |lists| && newLists == Opened(lists, j, ScanLineList(scanline, null))
    ensures !isNew ==> newLists == lists
  {
    j := 0;
    while j < |lists| && lists[j].scanline < scanline
      invariant j <= |lists|
      invariant forall i :: 0 <= i < j ==> lists[i].scanline < scanline
    {
      j := j + 1;
    }
    isNew := j == |lists| || lists[j].scanline > scanline;
    newLists := if isNew then Opened(lists, j, ScanLineList(scanline, null)) else lists;
  }

  lemma OpenedBuckets(lists: seq<ScanLineList>, buckets: seq<seq<Edge>>, side: map<Edge, Side>, all: set<Edge>,
                      newLists: seq<ScanLineList>, j: nat, scanline: int)
    requires Buckets(lists, buckets, side, all) && j <= |lists|
    requires newLists == Opened(lists, j, ScanLineList(scanline, null))
    requires forall i, k :: 0 <= i < k < |newLists| ==> newLists[i].scanline < newLists[k].scanline
    ensures Buckets(newLists, Opened(buckets, j, []), side, all)
  {
    var bs := Opened(buckets, j, []);
    forall k | 0 <= k < |newLists|
      ensures Within(bs[k], all) && Bucket(newLists[k], bs[k], side)
    {
      if k < j {
        assert bs[k] == buckets[k] && newLists[k] == lists[k];
      } else if k > j {
        assert bs[k] == buckets[k - 1] && newLists[k] == lists[k - 1];
      }
    }
  }

  lemma OpenedComplete(lists: seq<ScanLineList>, buckets: seq<seq<Edge>>, edges: seq<Edge>, side: map<Edge, Side>,
                     newLists: seq<ScanLineList>, j: nat, scanline: int)
    requires Complete(lists, buckets, edges, side) && j <= |lists|
    requires newLists == Opened(lists, j, ScanLineList(scanline, null))
    ensures Complete(newLists, Opened(buckets, j, []), edges, side)
  {
    var bs := Opened(buckets, j, []);
    forall k, e | 0 <= k < |newLists| && e in bs[k]
      ensures e in edges
    {
      if k < j {
        assert bs[k] == buckets[k];
      } else if k > j {
        assert bs[k] == buckets[k - 1];
      }
    }
    forall e | e in edges
      ensures Listed(newLists, bs, side[e].top.y, e)
    {
      var i :| 0 <= i < |lists| && lists[i].scanline == side[e].top.y && e in buckets[i];
      var k := if i < j then i else i + 1;
      assert newLists[k] == lists[i] && bs[k] == buckets[i];
    }
  }

  /** On a scanline without a bucket no side starts. */
  lemma OpenedOrdered(lists: seq<ScanLineList>, buckets: seq<seq<Edge>>, edges: seq<Edge>, side: map<Edge, Side>,
                      newLists: seq<ScanLineList>, j: nat, scanline: int)
    requires EntryOrder(lists, buckets, edges, side) && Complete(lists, buckets, edges, side) && j <= |lists|
    requires newLists == Opened(lists, j, ScanLineList(scanline, null))
    requires forall i, k :: 0 <= i < k < |newLists| ==> newLists[i].scanline < newLists[k].scanline
    ensures EntryOrder(newLists, Opened(buckets, j, []), edges, side)
  {
    var bs := Opened(buckets, j, []);
    NoneOn(lists, buckets, edges, side, newLists, j, scanline);
    forall k | 0 <= k < |newLists|
      ensures InEntryOrder(newLists[k].scanline, bs[k], edges, side)
    {
      if k < j {
        assert bs[k] == buckets[k] && newLists[k] == lists[k];
      } else if k > j {
        assert bs[k] == buckets[k - 1] && newLists[k] == lists[k - 1];
      }
    }
  }

  lemma NoneOn(lists: seq<ScanLineList>, buckets: seq<seq<Edge>>, edges: seq<Edge>, side: map<Edge, Side>,
               newLists: seq<ScanLineList>, j: nat, scanline: int)
    requires Complete(lists, buckets, edges, side) && j <= |lists|
    requires newLists == Opened(lists, j, ScanLineList(scanline, null))
    requires forall i, k :: 0 <= i < k < |newLists| ==> newLists[i].scanline < newLists[k].scanline
    ensures Starting(ValuesOf(side, edges), scanline) == []
  {
    var sides := ValuesOf(side, edges);
    forall s | s in sides
      ensures s.top.y != scanline
    {
      var n :| 0 <= n < |sides| && sides[n] == s;
      assert edges[n] in edges;
      assert Listed(lists, buckets, side[edges[n]].top.y, edges[n]);
      var i :| 0 <= i < |lists| && lists[i].scanline == s.top.y && edges[n] in buckets[i];
      assert newLists[if i < j then i else i + 1] == lists[i] && newLists[j].scanline == scanline;
    }
    NoneStarting(sides, scanline);
  }

  /** Buckets of different scanlines share no edges. */
  lemma BucketsApart(lists: seq<ScanLineList>, buckets: seq<seq<Edge>>, side: map<Edge, Side>, all: set<Edge>, j: nat, k: nat, e: Edge)
    requires Buckets(lists, buckets, side, all) && j < |lists| && k < |lists| && e in buckets[j] && e in buckets[k]
    ensures j == k
  {
    var i :| 0 <= i < |buckets[j]| && buckets[j][i] == e;
    var i' :| 0 <= i' < |buckets[k]| && buckets[k][i'] == e;
    assert Bucket(lists[j], buckets[j], side) && Bucket(lists[k], buckets[k], side);
    assert side[buckets[j][i]].top.y == lists[j].scanline && side[buckets[k][i']].top.y == lists[k].scanline;
  }

  lemma OthersApart(lists: seq<ScanLineList>, buckets: seq<seq<Edge>>, side: map<Edge, Side>, all: set<Edge>, j: nat)
    requires Buckets(lists, buckets, side, all) && j < |lists|
    ensures forall k, e :: 0 <= k < |lists| && e in buckets[k] && e in buckets[j] ==> k == j
  {
    forall k, e | 0 <= k < |lists| && e in buckets[k] && e in buckets[j]
      ensures k == j
    {
      BucketsApart(lists, buckets, side, all, j, k, e);
    }
  }

  /** Edges that have not been stepped are drawn where they start. */
  lemma StandsAtTop(e: Edge, s: Side)
    requires Stands(e, s, s.top.y)
    ensures e.bres.minorAxis == s.top.x
  {
  }

  /** The bucket with the edge in it is in order, and its edges have not been stepped. */
  lemma BucketJoined(l: ScanLineList, b: seq<Edge>, side: map<Edge, Side>, ETE: Edge, s: Side, c: nat)
    requires Distinct(b) && Keyed(side, b) && c <= |b| && ETE !in b
    requires forall i {:trigger b[i]} :: 0 <= i < |b| ==> side[b[i]].top.y == l.scanline && Stands(b[i], side[b[i]], l.scanline)
    requires forall i, j :: 0 <= i < j < |b| ==> side[b[i]].top.x <= side[b[j]].top.x
    requires Stands(ETE, s, l.scanline) && s.top.y == l.scanline
    requires forall i :: 0 <= i < c ==> b[i].bres.minorAxis < ETE.bres.minorAxis
    requires c < |b| ==> b[c].bres.minorAxis >= ETE.bres.minorAxis
    requires Chain(l.edgelist, b[..c] + [ETE] + b[c..])
    ensures Bucket(l, b[..c] + [ETE] + b[c..], side[ETE := s])
  {
    var d, side' := b[..c] + [ETE] + b[c..], side[ETE := s];
    StandsAtTop(ETE, s);
    forall i | 0 <= i < |b|
      ensures b[i].bres.minorAxis == side[b[i]].top.x
    {
      StandsAtTop(b[i], side[b[i]]);
    }
    assert c < |b| ==> s.top.x <= side[b[c]].top.x;
    forall i | 0 <= i < |d|
      ensures d[i] in side' && side'[d[i]].top.y == l.scanline && Stands(d[i], side'[d[i]], l.scanline)
    {
    }
  }

  /** The edge has entered the bucket. */
  lemma BucketEntered(l: ScanLineList, b: seq<Edge>, side: map<Edge, Side>, ETE: Edge, s: Side, c: nat)
    requires Keyed(side, b) && c <= |b| && ETE !in b
    requires forall i {:trigger b[i]} :: 0 <= i < |b| ==> side[b[i]].top.y == l.scanline && Stands(b[i], side[b[i]], l.scanline)
    requires Stands(ETE, s, l.scanline) && s.top.y == l.scanline
    requires forall i :: 0 <= i < c ==> b[i].bres.minorAxis < ETE.bres.minorAxis
    requires c < |b| ==> b[c].bres.minorAxis >= ETE.bres.minorAxis
    ensures var d, side' := b[..c] + [ETE] + b[c..], side[ETE := s];
      Keyed(side', d) && ValuesOf(side', d) == Enter(ValuesOf(side, b), s)
  {
    var side', v := side[ETE := s], ValuesOf(side, b);
    StandsAtTop(ETE, s);
    forall i | 0 <= i < |b|
      ensures b[i].bres.minorAxis == v[i].top.x
    {
      StandsAtTop(b[i], side[b[i]]);
    }
    EnterIs(v, s, c);
    OtherValues(side, b, ETE, s);
    InsertedValues(side', b, ETE, c);
  }

  lemma OtherValues(side: map<Edge, Side>, b: seq<Edge>, e: Edge, s: Side)
    requires Keyed(side, b) && e !in b
    ensures Keyed(side[e := s], b) && ValuesOf(side[e := s], b) == ValuesOf(side, b)
  {
    forall i | 0 <= i < |b|
      ensures side[e := s][b[i]] == side[b[i]]
    {
      assert b[i] in b;
    }
  }

  lemma SameBucket(l: ScanLineList, b: seq<Edge>, side: map<Edge, Side>, ETE: Edge, s: Side)
    requires Bucket(l, b, side) && ETE !in b
    ensures Bucket(l, b, side[ETE := s])
  {
  }

  lemma JoinedComplete(lists: seq<ScanLineList>, buckets: seq<seq<Edge>>, edges: seq<Edge>, side: map<Edge, Side>,
                       newLists: seq<ScanLineList>, j: nat, b: seq<Edge>, ETE: Edge, s: Side)
    requires Complete(lists, buckets, edges, side) && j < |lists| && |newLists| == |lists| && ETE !in edges
    requires forall k :: 0 <= k < |lists| ==> newLists[k].scanline == lists[k].scanline
    requires lists[j].scanline == s.top.y && (forall e :: e in buckets[j] ==> e in b) && ETE in b
    requires forall e :: e in b ==> e == ETE || e in buckets[j]
    ensures Complete(newLists, buckets[j := b], edges + [ETE], side[ETE := s])
  {
    var bs, es, side' := buckets[j := b], edges + [ETE], side[ETE := s];
    forall e | e in es
      ensures Listed(newLists, bs, side'[e].top.y, e)
    {
      if e == ETE {
        assert newLists[j].scanline == side'[e].top.y && e in bs[j];
      } else {
        assert Listed(lists, buckets, side[e].top.y, e);
        var i :| 0 <= i < |lists| && lists[i].scanline == side[e].top.y && e in buckets[i];
        assert newLists[i].scanline == side'[e].top.y && e in bs[i];
      }
    }
  }

  lemma JoinedOrdered(lists: seq<ScanLineList>, buckets: seq<seq<Edge>>, edges: seq<Edge>, side: map<Edge, Side>,
                      newLists: seq<ScanLineList>, j: nat, b: seq<Edge>, ETE: Edge, s: Side)
    requires EntryOrder(lists, buckets, edges, side) && Complete(lists, buckets, edges, side)
    requires forall i, k :: 0 <= i < k < |lists| ==> lists[i].scanline < lists[k].scanline
    requires j < |lists| && |newLists| == |lists| && ETE !in edges && lists[j].scanline == s.top.y
    requires forall k :: 0 <= k < |lists| ==> newLists[k].scanline == lists[k].scanline
    requires Keyed(side[ETE := s], b) && Keyed(side, buckets[j]) && ValuesOf(side[ETE := s], b) == Enter(ValuesOf(side, buckets[j]), s)
    ensures EntryOrder(newLists, buckets[j := b], edges + [ETE], side[ETE := s])
  {
    var bs, es, side' := buckets[j := b], edges + [ETE], side[ETE := s];
    SidesOfMore(side, edges, ETE, s);
    forall k | 0 <= k < |lists|
      ensures InEntryOrder(newLists[k].scanline, bs[k], es, side')
    {
      StartingMore(ValuesOf(side, edges), s, lists[k].scanline);
      assert InEntryOrder(lists[k].scanline, buckets[k], edges, side);
      if k != j {
        assert lists[k].scanline != lists[j].scanline;
        OtherValues(side, buckets[k], ETE, s);
      }
    }
  }

  /** The edge joins the bucket at place j; the other buckets are untouched. */
  method JoinOne(l: ScanLineList, ETE: Edge, ghost b: seq<Edge>, ghost side: map<Edge, Side>, ghost s: Side, ghost touched: set<Edge>)
    returns (newFirst: Edge?, ghost d: seq<Edge>)
    requires Bucket(l, b, side) && ETE !in b && Stands(ETE, s, s.top.y) && l.scanline == s.top.y
    requires touched == (set e | e in b) + {ETE}
    modifies touched`next
    ensures Bucket(ScanLineList(l.scanline, newFirst), d, side[ETE := s])
    ensures ValuesOf(side[ETE := s], d) == Enter(ValuesOf(side, b), s)
    ensures Within(d, touched) && ETE in d && (forall e :: e in b ==> e in d) && (forall e :: e in d ==> e == ETE || e in b)
  {
    ghost var c;
    newFirst, c := Join(l.edgelist, ETE, b, touched);
    d := b[..c] + [ETE] + b[c..];
    BucketJoined(ScanLineList(l.scanline, newFirst), b, side, ETE, s, c);
    BucketEntered(l, b, side, ETE, s, c);
    JoinedMembers(b, c, ETE, touched);
  }

  lemma JoinedMembers(b: seq<Edge>, c: nat, e: Edge, touched: set<Edge>)
    requires c <= |b| && touched == (set f | f in b) + {e}
    ensures var d := b[..c] + [e] + b[c..];
      Within(d, touched) && e in d && (forall f :: f in b ==> f in d) && (forall f :: f in d ==> f == e || f in b)
  {
    var d := b[..c] + [e] + b[c..];
    assert b == b[..c] + b[c..];
    assert d[c] == e;
    assert forall f :: f in d ==> f == e || f in b;
    assert forall i :: 0 <= i < |d| ==> d[i] in d;
  }

  ghost predicate Untouched(b: seq<Edge>, touched: set<Edge>) { forall e :: e in b ==> e !in touched }

  /** An edge that joins one bucket touches no other. */
  lemma OneBucket(lists: seq<ScanLineList>, buckets: seq<seq<Edge>>, edges: seq<Edge>, side: map<Edge, Side>, all: set<Edge>,
                  j: nat, ETE: Edge, touched: set<Edge>)
    requires Buckets(lists, buckets, side, all) && Complete(lists, buckets, edges, side) && ETE in all && ETE !in edges
    requires j < |lists| && touched == (set e | e in buckets[j]) + {ETE}
    ensures Bucket(lists[j], buckets[j], side) && ETE !in buckets[j] && touched <= all
    ensures forall k {:trigger buckets[k]} :: 0 <= k < |lists| && k != j ==>
      Bucket(lists[k], buckets[k], side) && ETE !in buckets[k] && Untouched(buckets[k], touched)
    ensures forall k {:trigger buckets[k]} :: 0 <= k < |lists| ==> Within(buckets[k], all)
  {
    OthersApart(lists, buckets, side, all, j);
    assert Within(buckets[j], all);
  }

  /** The bucket at place j is another. */
  lemma BucketReplaced(lists: seq<ScanLineList>, buckets: seq<seq<Edge>>, side: map<Edge, Side>, all: set<Edge>, j: nat,
                       first: Edge?, d: seq<Edge>, ETE: Edge, s: Side)
    requires |lists| == |buckets| && j < |lists| && forall i, k :: 0 <= i < k < |lists| ==> lists[i].scanline < lists[k].scanline
    requires forall k {:trigger buckets[k]} :: 0 <= k < |lists| ==> Within(buckets[k], all)
    requires forall k {:trigger buckets[k]} :: 0 <= k < |lists| && k != j ==> Bucket(lists[k], buckets[k], side) && ETE !in buckets[k]
    requires Within(d, all) && Bucket(ScanLineList(lists[j].scanline, first), d, side[ETE := s])
    ensures Buckets(lists[j := ScanLineList(lists[j].scanline, first)], buckets[j := d], side[ETE := s], all)
  {
    var newLists, newBuckets := lists[j := ScanLineList(lists[j].scanline, first)], buckets[j := d];
    forall k | 0 <= k < |lists|
      ensures Within(newBuckets[k], all) && Bucket(newLists[k], newBuckets[k], side[ETE := s])
    {
      if k != j { SameBucket(lists[k], buckets[k], side, ETE, s); }
    }
  }

  /** The second half of InsertEdgeInET. */
  method JoinBucket(lists: seq<ScanLineList>, j: nat, ETE: Edge, ghost buckets: seq<seq<Edge>>, ghost edges: seq<Edge>,
                    ghost side: map<Edge, Side>, ghost s: Side, ghost all: set<Edge>)
    returns (newLists: seq<ScanLineList>, ghost d: seq<Edge>)
    requires Buckets(lists, buckets, side, all) && Complete(lists, buckets, edges, side)
    requires ETE in all && ETE !in edges && Stands(ETE, s, s.top.y) && j < |lists| && lists[j].scanline == s.top.y
    modifies all`next
    ensures Buckets(newLists, buckets[j := d], side[ETE := s], all)
    ensures Keyed(side, buckets[j]) && Keyed(side[ETE := s], d) && ValuesOf(side[ETE := s], d) == Enter(ValuesOf(side, buckets[j]), s)
    ensures |newLists| == |lists| && forall k :: 0 <= k < |lists| ==> newLists[k].scanline == lists[k].scanline
    ensures ETE in d && (forall e :: e in buckets[j] ==> e in d) && (forall e :: e in d ==> e == ETE || e in buckets[j])
  {
    ghost var b := buckets[j];
    ghost var touched := (set e | e in b) + {ETE};
    OneBucket(lists, buckets, edges, side, all, j, ETE, touched);
    var newFirst;
    newFirst, d := JoinOne(lists[j], ETE, b, side, s, touched);
    newLists := lists[j := ScanLineList(lists[j].scanline, newFirst)];
    forall k | 0 <= k < |lists| && k != j
      ensures Bucket(lists[k], buckets[k], side)
    {
      assert Untouched(buckets[k], touched);
    }
    BucketReplaced(lists, buckets, side, all, j, newFirst, d, ETE, s);
  }

  predicate NoneEmpty(buckets: seq<seq<Edge>>) { forall j :: 0 <= j < |buckets| ==> buckets[j] != [] }

  /** InsertEdgeInET */
  method InsertEdgeInET(lists: seq<ScanLineList>, ETE: Edge, scanline: int, ghost buckets: seq<seq<Edge>>, ghost edges: seq<Edge>,
                        ghost side: map<Edge, Side>, ghost s: Side, ghost all: set<Edge>)
    returns (newLists: seq<ScanLineList>, ghost newBuckets: seq<seq<Edge>>)
    requires Buckets(lists, buckets, side, all) && Complete(lists, buckets, edges, side) && EntryOrder(lists, buckets, edges, side)
    requires ETE in all && ETE !in edges && Stands(ETE, s, scanline) && scanline == s.top.y
    modifies all`next
    ensures Buckets(newLists, newBuckets, side[ETE := s], all)
    ensures EntryOrder(newLists, newBuckets, edges + [ETE], side[ETE := s])
    ensures Complete(newLists, newBuckets, edges + [ETE], side[ETE := s])
    ensures NoneEmpty(buckets) ==> NoneEmpty(newBuckets)
  {
    var lists', j, isNew := FindScanline(lists, scanline);
    ghost var buckets' := buckets;
    if isNew {
      OpenedBuckets(lists, buckets, side, all, lists', j, scanline);
      OpenedComplete(lists, buckets, edges, side, lists', j, scanline);
      OpenedOrdered(lists, buckets, edges, side, lists', j, scanline);
      buckets' := Opened(buckets, j, []);
    }
    ghost var d;
    newLists, d := JoinBucket(lists', j, ETE, buckets', edges, side, s, all);
    newBuckets := buckets'[j := d];
    JoinedComplete(lists', buckets', edges, side, newLists, j, d, ETE, s);
    JoinedOrdered(lists', buckets', edges, side, newLists, j, d, ETE, s);
  }

  // ---------- the whole table ----------

  const LARGE_COORDINATE: int := 1000000

  const SMALL_COORDINATE: int := -LARGE_COORDINATE

  /** The points have the coordinates of an XPoint, 16 bits each. */
  predicate Short(pts: seq<Point>) {
    forall i :: 0 <= i < |pts| ==> -0x8000 <= pts[i].x < 0x8000 && -0x8000 <= pts[i].y < 0x8000
  }

  lemma Widened(lists: seq<ScanLineList>, buckets: seq<seq<Edge>>, side: map<Edge, Side>, all: set<Edge>, e: Edge)
    requires Buckets(lists, buckets, side, all)
    ensures Buckets(lists, buckets, side, all + {e})
  {
    forall j | 0 <= j < |lists|
      ensures Within(buckets[j], all + {e}) && Bucket(lists[j], buckets[j], side)
    {
      assert Within(buckets[j], all);
    }
  }

  /** ymin and ymax take in the first point of every side. */
  predicate Spanned(sides: seq<Side>, ymin: int, ymax: int) {
    forall i :: 0 <= i < |sides| ==>
      var y := if sides[i].clockwise then sides[i].top.y else sides[i].bottom.y;
      ymin <= y <= ymax
  }

  lemma SpannedMore(sides: seq<Side>, s: Side, ymin: int, ymax: int, ymin': int, ymax': int)
    requires Spanned(sides, ymin, ymax) && ymin' <= ymin && ymax' >= ymax
    requires ymin' <= (if s.clockwise then s.top.y else s.bottom.y) <= ymax'
    ensures Spanned(sides + [s], ymin', ymax')
  {
  }

  /** An entry of the pool, filled in for a side. */
  method NewEdge(prev: Point, curr: Point, ghost s: Side) returns (e: Edge)
    requires SideOf(prev, curr) == [s]
    ensures fresh(e) && Stands(e, s, s.top.y)
  {
    var bottom, top;
    var clockWise;
    if prev.y > curr.y {
      bottom, top := prev, curr;
      clockWise := false;
    } else {
      bottom, top := curr, prev;
      clockWise := true;
    }
    e := new Edge(bottom.y - 1, Init(bottom.y - top.y, top.x, bottom.x), clockWise);
  }

  /** The header of the active edges. */
  method NewHeader() returns (head: Edge)
    ensures fresh(head) && Linked([head]) && head.nextWETE == null && head.bres.minorAxis == SMALL_COORDINATE
  {
    head := new Edge(0, Bres(SMALL_COORDINATE, 0, 0, 0, 0, 0), false);
  }

  lemma SidesOfMore(side: map<Edge, Side>, edges: seq<Edge>, e: Edge, s: Side)
    requires Keyed(side, edges) && e !in edges
    ensures Keyed(side[e := s], edges + [e]) && ValuesOf(side[e := s], edges + [e]) == ValuesOf(side, edges) + [s]
  {
  }

  /** The table so far: an edge for each of the sides. */
  ghost predicate TableOf(lists: seq<ScanLineList>, buckets: seq<seq<Edge>>, edges: seq<Edge>, side: map<Edge, Side>,
                          all: set<Edge>, sides: seq<Side>)
    reads all
  {
    && Within(edges, all) && Buckets(lists, buckets, side, all) && Complete(lists, buckets, edges, side) && EntryOrder(lists, buckets, edges, side)
    && Distinct(edges) && Keyed(side, edges) && ValuesOf(side, edges) == sides && NoneEmpty(buckets)
  }

  /** One side that is not horizontal enters the table. */
  method EnterSide(prev: Point, curr: Point, lists: seq<ScanLineList>, ghost edges: seq<Edge>, ghost buckets: seq<seq<Edge>>,
                   ghost side: map<Edge, Side>, ghost all: set<Edge>, ghost sides: seq<Side>)
    returns (newLists: seq<ScanLineList>, ghost e: Edge, ghost newBuckets: seq<seq<Edge>>)
    requires prev.y != curr.y && TableOf(lists, buckets, edges, side, all, sides)
    modifies all`next
    ensures fresh(e)
    ensures var s := SideOf(prev, curr)[0];
      TableOf(newLists, newBuckets, edges + [e], side[e := s], all + {e}, sides + [s])
  {
    ghost var s := SideOf(prev, curr)[0];
    var ETE := NewEdge(prev, curr, s);
    e := ETE;
    Widened(lists, buckets, side, all, e);
    SidesOfMore(side, edges, e, s);
    newLists, newBuckets := InsertEdgeInET(lists, ETE, if prev.y > curr.y then curr.y else prev.y, buckets, edges, side, s, all + {e});
    assert e !in edges;
  }

  /** ymin and ymax of the sides so far. */
  ghost predicate Limits(sides: seq<Side>, ymin: int, ymax: int) {
    Spanned(sides, ymin, ymax) && ymin == FirstOf(sides, LARGE_COORDINATE) && ymax == LastOf(sides, SMALL_COORDINATE)
  }

  /** They take in the point before one more side. */
  method TakeIn(prev: Point, ymin0: int, ymax0: int, ghost sides: seq<Side>, ghost s: Side) returns (ymin: int, ymax: int)
    requires Limits(sides, ymin0, ymax0) && prev.y == StartOf(s)
    ensures Limits(sides + [s], ymin, ymax)
  {
    ymin, ymax := ymin0, ymax0;
    if prev.y > ymax {
      ymax := prev.y;
    }
    if prev.y < ymin {
      ymin := prev.y;
    }
    SpannedMore(sides, s, ymin0, ymax0, ymin, ymax);
    assert (sides + [s])[..|sides|] == sides;
  }

  lemma NothingEntered()
    ensures TableOf([], [], [], map[], {}, []) && Limits([], LARGE_COORDINATE, SMALL_COORDINATE)
  {
  }

  /** The side that ends in point i, if it is not horizontal. */
  method EnterPoint(pts: seq<Point>, i: nat, lists: seq<ScanLineList>, ymin: int, ymax: int,
                    ghost edges: seq<Edge>, ghost buckets: seq<seq<Edge>>, ghost side: map<Edge, Side>, ghost all: set<Edge>)
    returns (newLists: seq<ScanLineList>, newMin: int, newMax: int,
             ghost newEdges: seq<Edge>, ghost newBuckets: seq<seq<Edge>>, ghost newSide: map<Edge, Side>, ghost newAll: set<Edge>)
    requires i < |pts| && TableOf(lists, buckets, edges, side, all, Sides(pts, i)) && side.Keys <= all
    requires Limits(Sides(pts, i), ymin, ymax)
    modifies all`next
    ensures fresh(newAll - all) && TableOf(newLists, newBuckets, newEdges, newSide, newAll, Sides(pts, i + 1)) && newSide.Keys <= newAll
    ensures Limits(Sides(pts, i + 1), newMin, newMax)
  {
    newLists, newMin, newMax := lists, ymin, ymax;
    newEdges, newBuckets, newSide, newAll := edges, buckets, side, all;
    var prev, curr := Before(pts, i), pts[i];
    if prev.y != curr.y {
      ghost var s := SideOf(prev, curr)[0];
      ghost var e;
      newLists, e, newBuckets := EnterSide(prev, curr, lists, edges, buckets, side, all, Sides(pts, i));
      newEdges, newSide, newAll := edges + [e], side[e := s], all + {e};
      newMin, newMax := TakeIn(prev, ymin, ymax, Sides(pts, i), s);
    }
  }

  /** CreateETandAET: an edge for every side that is not horizontal. */
  method CreateETandAET(pts: seq<Point>)
    returns (head: Edge, lists: seq<ScanLineList>, ymin: int, ymax: int,
             ghost edges: seq<Edge>, ghost buckets: seq<seq<Edge>>, ghost side: map<Edge, Side>, ghost all: set<Edge>)
    ensures fresh(head) && Linked([head]) && head.nextWETE == null && head.bres.minorAxis == SMALL_COORDINATE
    ensures fresh(all) && head !in all && TableOf(lists, buckets, edges, side, all, Sides(pts, |pts|))
    ensures Limits(Sides(pts, |pts|), ymin, ymax) && side.Keys <= all
  {
    head := NewHeader();
    lists, ymin, ymax, edges, buckets, side, all := FillTable(pts);
  }

  /** The loop over the points. */
  method FillTable(pts: seq<Point>)
    returns (lists: seq<ScanLineList>, ymin: int, ymax: int,
             ghost edges: seq<Edge>, ghost buckets: seq<seq<Edge>>, ghost side: map<Edge, Side>, ghost all: set<Edge>)
    ensures fresh(all) && side.Keys <= all && TableOf(lists, buckets, edges, side, all, Sides(pts, |pts|))
    ensures Limits(Sides(pts, |pts|), ymin, ymax)
  {
    lists, ymin, ymax := [], LARGE_COORDINATE, SMALL_COORDINATE;
    edges, buckets, side, all := [], [], map[], {};
    NothingEntered();
    for i := 0 to |pts|
      invariant fresh(all) && side.Keys <= all
      invariant TableOf(lists, buckets, edges, side, all, Sides(pts, i))
      invariant Limits(Sides(pts, i), ymin, ymax)
    {
      lists, ymin, ymax, edges, buckets, side, all := EnterPoint(pts, i, lists, ymin, ymax, edges, buckets, side, all);
    }
  }
}
