/** The steps of a scanline: new edges, the points, the sort (libX11 PolyReg.c). */
module PolygonSteps {
  import opened Bresenham
  import opened EdgeList
  import opened EdgeOrder
  import opened EdgeTable
  import opened PolygonLoop
  import opened PolygonRule
  import opened PolygonScan
  import opened PolygonState
  import opened Tally

  /** The header and the active edges. */
  function Own(head: Edge, act: seq<Edge>): set<Edge> { {head} + set e | e in act }

  lemma OwnHas(head: Edge, act: seq<Edge>)
    ensures head in Own(head, act) && Within(act, Own(head, act)) && Within([head] + act, Own(head, act))
  {
  }

  /** The list of active edges, apart from the edges that wait. */
  ghost predicate List(head: Edge, act: seq<Edge>, side: map<Edge, Side>, waiting: set<Edge>, all: set<Edge>, y: int)
    reads all
  {
    && head in all && Within(act, all) && waiting <= all
    && head !in waiting && (forall e :: e in act ==> e !in waiting) && head !in side
    && Linked([head] + act) && head.bres.minorAxis == SMALL_COORDINATE && AllStand(act, side, y)
  }

  /** The sides are not further left than the header. */
  predicate RightOfHeader(edges: seq<Edge>, side: map<Edge, Side>) {
    Keyed(side, edges) && forall e :: e in edges ==> SMALL_COORDINATE <= side[e].top.x && SMALL_COORDINATE <= side[e].bottom.x
  }

  /** Keys of the list: the crossings, and the header before them. */
  function ListKeys(head: Edge, es: seq<Edge>, side: map<Edge, Side>, y: int): map<Edge, int> {
    CrossKeys(es, side, y)[head := SMALL_COORDINATE]
  }

  lemma ListKeysAre(head: Edge, es: seq<Edge>, side: map<Edge, Side>, y: int)
    requires AllStand(es, side, y) && head !in side && head.bres.minorAxis == SMALL_COORDINATE
    ensures var key := ListKeys(head, es, side, y);
      && Keyed(key, [head] + es) && KeysAre(key, [head] + es) && Keyed(key, es)
      && forall e :: e in es ==> key[e] == CrossX(side[e], y)
  {
    StandingKeys(es, side, y);
    var key, t := ListKeys(head, es, side, y), [head] + es;
    forall i | 0 <= i < |t|
      ensures t[i] in key && key[t[i]] == t[i].bres.minorAxis
    {
      if i > 0 { assert t[i] == es[i - 1] && t[i] != head; }
    }
  }

  // ---------- new edges ----------

  lemma BucketStands(l: ScanLineList, b: seq<Edge>, side: map<Edge, Side>)
    requires Bucket(l, b, side)
    ensures AllStand(b, side, l.scanline)
  {
  }

  lemma StandTogether(act: seq<Edge>, b: seq<Edge>, out: seq<Edge>, side: map<Edge, Side>, y: int)
    requires AllStand(act, side, y) && AllStand(b, side, y) && (forall e :: e in out ==> e in act || e in b)
    ensures AllStand(out, side, y)
  {
    forall i | 0 <= i < |out|
      ensures out[i] in side && side[out[i]].Meets(y) && Stands(out[i], side[out[i]], y)
    {
      if out[i] in act {
        var j :| 0 <= j < |act| && act[j] == out[i];
      } else {
        var j :| 0 <= j < |b| && b[j] == out[i];
      }
    }
  }

  lemma ReadyToLoad(head: Edge, act: seq<Edge>, b: seq<Edge>, l: ScanLineList, side: map<Edge, Side>, y: int, touched: set<Edge>)
    requires Linked([head] + act) && head.bres.minorAxis == SMALL_COORDINATE && head !in side && AllStand(act, side, y)
    requires Bucket(l, b, side) && l.scanline == y && forall e :: e in b ==> e !in act
    requires touched == Own(head, act + b)
    ensures Loading([head] + act, b, l.edgelist, ListKeys(head, act + b, side, y), touched)
    ensures var key := ListKeys(head, act + b, side, y);
      Keyed(key, act) && Keyed(key, b) && (forall e :: e in act ==> key[e] == CrossX(side[e], y)) && (forall e :: e in b ==> key[e] == CrossX(side[e], y))
  {
    BucketStands(l, b, side);
    StandTogether(act, b, act + b, side, y);
    ListKeysAre(head, act + b, side, y);
    var key, t := ListKeys(head, act + b, side, y), [head] + act;
    forall i | 0 <= i < |t|
      ensures t[i] in key && key[t[i]] == t[i].bres.minorAxis && t[i] in touched
    {
      if i > 0 { assert t[i] == act[i - 1] == (act + b)[i - 1]; assert ([head] + (act + b))[i] == t[i]; }
    }
    forall i | 0 <= i < |b|
      ensures b[i] in key && key[b[i]] == b[i].bres.minorAxis && b[i] in touched && b[i] !in t
    {
      assert ([head] + (act + b))[1 + |act| + i] == b[i];
      assert b[i] in b;
    }
  }

  /** The bucket can be merged into the active edges, and what the merge will be. */
  lemma BucketLoads(head: Edge, act: seq<Edge>, b: seq<Edge>, l: ScanLineList, key: map<Edge, int>, edges: seq<Edge>,
                    side: map<Edge, Side>, y: int, touched: set<Edge>)
    requires Linked([head] + act) && head.bres.minorAxis == SMALL_COORDINATE && head !in side && AllStand(act, side, y)
    requires Running(act, edges, side, y) && Bucket(l, b, side) && l.scanline == y && touched == Own(head, act + b)
    requires forall e :: e in edges && side[e].top.y == y ==> e in b
    requires forall e :: e in b ==> e in edges && side[e].top.y == y
    requires key == ListKeys(head, act + b, side, y) && InEntryOrder(y, b, edges, side)
    ensures Loading([head] + act, b, l.edgelist, key, touched)
    ensures Keyed(key, act) && Keyed(key, b) && RowIs(Merge(key, act, b), act, edges, side, y)
    ensures AllStand(b, side, y) && Keyed(key, act) && Loaded(Merge(key, act, b), edges, side, y)
    ensures forall e :: e in Merge(key, act, b) ==> e in act || e in b
  {
    BucketsDiffer(act, b, edges, side, y);
    ReadyToLoad(head, act, b, l, side, y, touched);
    BucketStands(l, b, side);
    LoadedOrder(act, b, key, edges, side, y);
    MergedMembers(key, act, b);
    RowMerged(act, b, key, edges, side, y);
  }

  /** The edges of the bucket are not yet active. */
  lemma BucketsDiffer(act: seq<Edge>, b: seq<Edge>, edges: seq<Edge>, side: map<Edge, Side>, y: int)
    requires Running(act, edges, side, y) && forall e :: e in b ==> e in edges && side[e].top.y == y
    ensures forall e :: e in b ==> e !in act
  {
  }

  /** The bucket of scanline y joins the active edges. */
  method LoadBucket(head: Edge, l: ScanLineList, y: int, ghost act: seq<Edge>, ghost b: seq<Edge>, ghost edges: seq<Edge>,
                    ghost side: map<Edge, Side>, ghost touched: set<Edge>)
    returns (ghost out: seq<Edge>)
    requires Linked([head] + act) && head.bres.minorAxis == SMALL_COORDINATE && head !in side && AllStand(act, side, y)
    requires Running(act, edges, side, y) && Bucket(l, b, side) && l.scanline == y && touched == Own(head, act + b)
    requires forall e :: e in edges && side[e].top.y == y ==> e in b
    requires forall e :: e in b ==> e in edges && side[e].top.y == y
    requires InEntryOrder(y, b, edges, side)
    modifies touched`next, touched`back
    ensures Linked([head] + out) && AllStand(out, side, y) && Loaded(out, edges, side, y) && RowIs(out, act, edges, side, y)
    ensures forall e :: e in out ==> e in act || e in b
  {
    ghost var key := ListKeys(head, act + b, side, y);
    BucketLoads(head, act, b, l, key, edges, side, y, touched);
    out := MergeBucket(head, l.edgelist, y, act, b, key, side, touched);
  }

  /** loadAET on the active edges. */
  method MergeBucket(head: Edge, first: Edge?, y: int, ghost act: seq<Edge>, ghost b: seq<Edge>, ghost key: map<Edge, int>,
                     ghost side: map<Edge, Side>, ghost touched: set<Edge>)
    returns (ghost out: seq<Edge>)
    requires Loading([head] + act, b, first, key, touched) && Keyed(key, act) && AllStand(act, side, y) && AllStand(b, side, y)
    requires forall e :: e in Merge(key, act, b) ==> e in act || e in b
    modifies touched`next, touched`back
    ensures out == Merge(key, act, b) && Linked([head] + out) && AllStand(out, side, y)
  {
    ghost var t := LoadAET(head, first, [head] + act, b, key, touched);
    assert ([head] + act)[1..] == act;
    out := Merge(key, act, b);
    StandTogether(act, b, out, side, y);
  }

  /** The start of a scanline: its new edges are loaded, if there are any. */
  method LoadScanline(head: Edge, lists: seq<ScanLineList>, y: int, ghost act: seq<Edge>, ghost buckets: seq<seq<Edge>>,
                      ghost edges: seq<Edge>, ghost side: map<Edge, Side>, ghost waiting: set<Edge>, ghost all: set<Edge>)
    returns (newLists: seq<ScanLineList>, loaded: bool, ghost out: seq<Edge>, ghost newBuckets: seq<seq<Edge>>, ghost newWaiting: set<Edge>)
    requires List(head, act, side, waiting, all, y) && Running(act, edges, side, y) && Waiting(lists, buckets, edges, side, waiting, y)
    requires EntryOrder(lists, buckets, edges, side)
    modifies all`next, all`back
    ensures List(head, out, side, newWaiting, all, y) && Loaded(out, edges, side, y)
    ensures Waiting(newLists, newBuckets, edges, side, newWaiting, y + 1)
    ensures EntryOrder(newLists, newBuckets, edges, side) && RowIs(out, act, edges, side, y)
    ensures !loaded ==> out == act
  {
    loaded := lists != [] && y == lists[0].scanline;
    if loaded {
      newLists, out, newBuckets, newWaiting := LoadFirst(head, lists, y, act, buckets, edges, side, waiting, all);
    } else {
      NoBucket(lists, buckets, edges, side, waiting, y);
      NothingLoaded(act, edges, side, y);
      RowUnchanged(act, edges, side, y);
      newLists, out, newBuckets, newWaiting := lists, act, buckets, waiting;
    }
  }

  /** The first scanline of the table is this one. */
  method LoadFirst(head: Edge, lists: seq<ScanLineList>, y: int, ghost act: seq<Edge>, ghost buckets: seq<seq<Edge>>,
                   ghost edges: seq<Edge>, ghost side: map<Edge, Side>, ghost waiting: set<Edge>, ghost all: set<Edge>)
    returns (newLists: seq<ScanLineList>, ghost out: seq<Edge>, ghost newBuckets: seq<seq<Edge>>, ghost newWaiting: set<Edge>)
    requires List(head, act, side, waiting, all, y) && Running(act, edges, side, y) && Waiting(lists, buckets, edges, side, waiting, y)
    requires EntryOrder(lists, buckets, edges, side) && lists != [] && y == lists[0].scanline
    modifies all`next, all`back
    ensures List(head, out, side, newWaiting, all, y) && Loaded(out, edges, side, y)
    ensures Waiting(newLists, newBuckets, edges, side, newWaiting, y + 1)
    ensures EntryOrder(newLists, newBuckets, edges, side) && RowIs(out, act, edges, side, y)
  {
    ghost var b := buckets[0];
    newLists, newBuckets, newWaiting := lists[1..], buckets[1..], waiting - (set e | e in b);
    ghost var touched := Own(head, act + b);
    TakeFirst(head, lists, y, act, buckets, edges, side, waiting, newWaiting, touched);
    out := LoadBucket(head, lists[0], y, act, b, edges, side, touched);
    assert forall e :: e in out ==> e in touched;
  }

  lemma TakeFirst(head: Edge, lists: seq<ScanLineList>, y: int, act: seq<Edge>, buckets: seq<seq<Edge>>, edges: seq<Edge>,
                  side: map<Edge, Side>, waiting: set<Edge>, rest: set<Edge>, touched: set<Edge>)
    requires Waiting(lists, buckets, edges, side, waiting, y) && EntryOrder(lists, buckets, edges, side) && lists != [] && y == lists[0].scanline
    requires rest == waiting - (set e | e in buckets[0]) && touched == Own(head, act + buckets[0])
    requires head !in waiting && forall e :: e in act ==> e !in waiting
    ensures Bucket(lists[0], buckets[0], side) && Within(buckets[0], waiting) && InEntryOrder(y, buckets[0], edges, side)
    ensures forall e :: e in edges && side[e].top.y == y ==> e in buckets[0]
    ensures forall e :: e in buckets[0] ==> e in edges && side[e].top.y == y
    ensures Waiting(lists[1..], buckets[1..], edges, side, rest, y + 1) && EntryOrder(lists[1..], buckets[1..], edges, side)
    ensures forall e :: e in rest ==> e !in touched
  {
    FirstBucket(lists, buckets, edges, side, waiting, y);
    LaterBuckets(lists, buckets, edges, side, waiting, y, rest);
    LaterOrdered(lists, buckets, edges, side);
  }

  lemma LaterOrdered(lists: seq<ScanLineList>, buckets: seq<seq<Edge>>, edges: seq<Edge>, side: map<Edge, Side>)
    requires EntryOrder(lists, buckets, edges, side) && lists != []
    ensures EntryOrder(lists[1..], buckets[1..], edges, side) && InEntryOrder(lists[0].scanline, buckets[0], edges, side)
  {
    forall j | 0 <= j < |lists| - 1
      ensures InEntryOrder(lists[1..][j].scanline, buckets[1..][j], edges, side)
    {
      assert buckets[1..][j] == buckets[j + 1];
    }
  }

  // ---------- sorting for the next scanline ----------

  lemma BelowAll(head: Edge, kept: seq<Edge>, edges: seq<Edge>, side: map<Edge, Side>, y: int)
    requires AllStand(kept, side, y) && head.bres.minorAxis == SMALL_COORDINATE
    requires RightOfHeader(edges, side) && forall e :: e in kept ==> e in edges
    ensures forall i :: 0 <= i < |[head] + kept| ==> head.bres.minorAxis <= ([head] + kept)[i].bres.minorAxis
  {
    var t := [head] + kept;
    forall i | 0 <= i < |t|
      ensures head.bres.minorAxis <= t[i].bres.minorAxis
    {
      if i > 0 {
        var e := kept[i - 1];
        assert t[i] == e && Stands(e, side[e], y) && e in kept;
        DrawnBetween(side[e], y, SMALL_COORDINATE);
      }
    }
  }

  method SortKept(head: Edge, y: int, ghost kept: seq<Edge>, ghost side: map<Edge, Side>, ghost key: map<Edge, int>, ghost own: set<Edge>)
    returns (changed: bool)
    requires Within([head] + kept, own) && Linked([head] + kept) && AllStand(kept, side, y)
    requires Keyed(key, [head] + kept) && KeysAre(key, [head] + kept) && Keyed(key, kept)
    requires forall i :: 0 <= i < |[head] + kept| ==> head.bres.minorAxis <= ([head] + kept)[i].bres.minorAxis
    modifies own`next, own`back
    ensures Linked([head] + InsertionSorted(key, kept)) && AllStand(kept, side, y)
    ensures !changed ==> InsertionSorted(key, kept) == kept
  {
    ghost var t, sorted := [head] + kept, [];
    assert t[1..] == kept;
    changed, sorted := InsertionSort(head, t, key, own);
    assert sorted[1..] == InsertionSorted(key, kept);
  }

  /** The end of a scanline: the edges that continue are sorted. */
  method SortScanline(head: Edge, y: int, ghost act: seq<Edge>, ghost edges: seq<Edge>, ghost side: map<Edge, Side>, ghost own: set<Edge>)
    returns (changed: bool, ghost out: seq<Edge>)
    requires Loaded(act, edges, side, y) && own == Own(head, act) && RightOfHeader(edges, side)
    requires var kept := Keep(Continues(side, y), act);
      Linked([head] + kept) && AllStand(kept, side, y + 1)
    requires head.bres.minorAxis == SMALL_COORDINATE && head !in side
    modifies own`next, own`back
    ensures Linked([head] + out) && AllStand(out, side, y + 1) && Running(out, edges, side, y + 1) && NextIs(out, act, edges, side, y)
    ensures forall e :: e in out ==> e in act
    ensures !changed ==> out == Keep(Continues(side, y), act)
  {
    ghost var kept := Keep(Continues(side, y), act);
    ghost var key := ListKeys(head, kept, side, y + 1);
    ReadyToSort(head, act, kept, key, edges, side, y, own);
    changed := SortKept(head, y + 1, kept, side, key, own);
    out := InsertionSorted(key, kept);
    StandTogether(kept, [], out, side, y + 1);
  }

  lemma ReadyToSort(head: Edge, act: seq<Edge>, kept: seq<Edge>, key: map<Edge, int>, edges: seq<Edge>, side: map<Edge, Side>, y: int,
                    own: set<Edge>)
    requires Loaded(act, edges, side, y) && own == Own(head, act) && RightOfHeader(edges, side)
    requires kept == Keep(Continues(side, y), act) && AllStand(kept, side, y + 1) && key == ListKeys(head, kept, side, y + 1)
    requires head.bres.minorAxis == SMALL_COORDINATE && head !in side
    ensures Within([head] + kept, own) && Keyed(key, [head] + kept) && KeysAre(key, [head] + kept) && Keyed(key, kept)
    ensures forall i :: 0 <= i < |[head] + kept| ==> head.bres.minorAxis <= ([head] + kept)[i].bres.minorAxis
    ensures Running(InsertionSorted(key, kept), edges, side, y + 1) && NextIs(InsertionSorted(key, kept), act, edges, side, y)
    ensures forall e :: e in InsertionSorted(key, kept) ==> e in kept && e in act
  {
    ListKeysAre(head, kept, side, y + 1);
    BelowAll(head, kept, edges, side, y + 1);
    WithinOwn(head, kept, act);
    SortedNext(act, kept, key, edges, side, y);
    NextSorted(act, key, edges, side, y);
  }

  lemma SortedNext(act: seq<Edge>, kept: seq<Edge>, key: map<Edge, int>, edges: seq<Edge>, side: map<Edge, Side>, y: int)
    requires Loaded(act, edges, side, y) && kept == Keep(Continues(side, y), act) && AllStand(kept, side, y + 1)
    requires Keyed(key, kept) && forall e :: e in kept ==> e in side && side[e].Valid() && side[e].Meets(y + 1) && key[e] == CrossX(side[e], y + 1)
    ensures Running(InsertionSorted(key, kept), edges, side, y + 1)
    ensures forall e :: e in InsertionSorted(key, kept) ==> e in kept
  {
    NextRunning(act, key, edges, side, y);
    InsertionSorts(key, kept);
    EdgeList.Members(InsertionSorted(key, kept), kept);
  }

  lemma WithinOwn(head: Edge, kept: seq<Edge>, act: seq<Edge>)
    requires forall e :: e in kept ==> e in act
    ensures Within([head] + kept, Own(head, act))
  {
    var t := [head] + kept;
    forall i | 0 <= i < |t|
      ensures t[i] in Own(head, act)
    {
      if i > 0 { assert t[i] == kept[i - 1] && kept[i - 1] in kept; }
    }
  }
}
