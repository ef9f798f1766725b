/** The region of a polygon (XPolygonRegion, libX11 PolyReg.c). */
module PolygonRegion {
  import opened Boxes
  import opened EdgeList
  import opened EdgeOrder
  import opened EdgeTable
  import opened PolygonLoop
  import opened PolygonRule
  import opened PolygonScan
  import opened PolygonSpans
  import opened PolygonState
  import opened PolygonSteps
  import opened Tally

  // ---------- one scanline ----------

  /** The points of the row are those of its edges. */
  lemma RowXs(row: seq<Edge>, edges: seq<Edge>, side: map<Edge, Side>, y: int, ws: seq<Edge>)
    requires Loaded(row, edges, side, y) && Keyed(CrossKeys(row, side, y), ws) && forall e :: e in ws ==> e in row
    ensures Keyed(Crossing(edges, side, y), ws)
    ensures ValuesOf(CrossKeys(row, side, y), ws) == ValuesOf(Crossing(edges, side, y), ws)
  {
    forall i | 0 <= i < |ws|
      ensures ws[i] in Crossing(edges, side, y) && CrossKeys(row, side, y)[ws[i]] == Crossing(edges, side, y)[ws[i]]
    {
      assert ws[i] in ws && ws[i] in row;
    }
  }

  /** One scanline of the even-odd rule. */
  method EvenOddScanline(head: Edge, lists: seq<ScanLineList>, y: int, pts: seq<Point>, ghost act: seq<Edge>, ghost buckets: seq<seq<Edge>>,
                         ghost edges: seq<Edge>, ghost side: map<Edge, Side>, ghost waiting: set<Edge>, ghost all: set<Edge>)
    returns (newLists: seq<ScanLineList>, newPts: seq<Point>, ghost row: seq<Edge>, ghost out: seq<Edge>,
             ghost newBuckets: seq<seq<Edge>>, ghost newWaiting: set<Edge>)
    requires List(head, act, side, waiting, all, y) && Running(act, edges, side, y) && Waiting(lists, buckets, edges, side, waiting, y)
    requires EntryOrder(lists, buckets, edges, side)
    requires RightOfHeader(edges, side)
    modifies all`next, all`back, all`bres
    ensures List(head, out, side, newWaiting, all, y + 1) && Running(out, edges, side, y + 1)
    ensures Waiting(newLists, newBuckets, edges, side, newWaiting, y + 1)
    ensures EntryOrder(newLists, newBuckets, edges, side) && RowIs(row, act, edges, side, y) && NextIs(out, row, edges, side, y)
    ensures Loaded(row, edges, side, y) && newPts == pts + PointsOf(ValuesOf(Crossing(edges, side, y), row), y)
  {
    var loaded;
    newLists, loaded, row, newBuckets, newWaiting := LoadScanline(head, lists, y, act, buckets, edges, side, waiting, all);
    ghost var own := Own(head, row);
    OwnHas(head, row);
    assert forall e :: e in newWaiting ==> e !in own;
    newPts, out := DrawEvenOdd(head, y, pts, row, edges, side, own);
  }

  /** The loop over the active edges, and the sort after it. */
  method DrawEvenOdd(head: Edge, y: int, pts: seq<Point>, ghost row: seq<Edge>, ghost edges: seq<Edge>, ghost side: map<Edge, Side>,
                     ghost own: set<Edge>)
    returns (newPts: seq<Point>, ghost out: seq<Edge>)
    requires Loaded(row, edges, side, y) && own == Own(head, row) && RightOfHeader(edges, side)
    requires Linked([head] + row) && AllStand(row, side, y)
    requires head.bres.minorAxis == SMALL_COORDINATE && head !in side
    modifies own`next, own`back, own`bres
    ensures head.bres.minorAxis == SMALL_COORDINATE
    ensures Linked([head] + out) && AllStand(out, side, y + 1) && Running(out, edges, side, y + 1) && NextIs(out, row, edges, side, y)
    ensures forall e :: e in out ==> e in row
    ensures newPts == pts + PointsOf(ValuesOf(Crossing(edges, side, y), row), y)
  {
    OwnHas(head, row);
    newPts := EmitEvenOdd(head, y, pts, row, side, own);
    RowXs(row, edges, side, y, row);
    var changed;
    changed, out := SortScanline(head, y, row, edges, side, own);
  }

  // ---------- the winding edges ----------

  /** Crossings depend only on the ways of the edges themselves. */
  lemma {:induction false} SameCrossings(c: map<Edge, bool>, d: map<Edge, bool>, es: seq<Edge>)
    requires Keyed(c, es) && Keyed(d, es) && forall e :: e in es ==> c[e] == d[e]
    ensures Winding(c, es) == Winding(d, es) && Crossings(c, es) == Crossings(d, es)
  {
    if es != [] { SameCrossings(c, d, es[..|es| - 1]); }
  }

  /** chain is the header followed by the winding edges. */
  ghost predicate ChainOf(head: Edge, act: seq<Edge>, side: map<Edge, Side>, chain: seq<Edge>) {
    Keyed(Ways(act, side), act) && chain == [head] + Crossings(Ways(act, side), act)
  }

  /** The ways of the edges of the list. */
  lemma WaysAre(head: Edge, act: seq<Edge>, side: map<Edge, Side>, y: int, ways: map<Edge, bool>, t: seq<Edge>)
    requires Distinct([head] + act) && AllStand(act, side, y) && head !in side
    requires ways == Ways(act, side)[head := head.clockWise] && t == [head] + act
    ensures Keyed(Ways(act, side), act) && Keyed(ways, act) && t[1..] == act && head !in act
    ensures forall i :: 0 <= i < |t| ==> t[i] in ways && ways[t[i]] == t[i].clockWise
    ensures forall e :: e in act ==> ways[e] == Ways(act, side)[e]
  {
    StandingKeys(act, side, y);
    DistinctTail(head, act);
    forall i | 0 <= i < |t|
      ensures t[i] in ways && ways[t[i]] == t[i].clockWise
    {
      if i > 0 { assert t[i] == act[i - 1]; }
    }
  }

  /** computeWAET on the active edges. */
  method Rewind(head: Edge, y: int, ghost act: seq<Edge>, ghost side: map<Edge, Side>, ghost own: set<Edge>)
    returns (ghost chain: seq<Edge>)
    requires Linked([head] + act) && AllStand(act, side, y) && head !in side && own == Own(head, act)
    modifies own`nextWETE
    ensures ChainOf(head, act, side, chain) && WindingChain(chain)
    ensures Linked([head] + act) && AllStand(act, side, y)
  {
    ghost var ways, t := Ways(act, side)[head := head.clockWise], [head] + act;
    WaysAre(head, act, side, y, ways, t);
    OwnHas(head, act);
    SameCrossings(ways, Ways(act, side), act);
    chain := [head] + Crossings(ways, act);
    ComputeWAET(head, t, ways, own);
  }

  /** The first half of a scanline of the winding number rule: new edges, and their winding links. */
  method LoadWinding(head: Edge, lists: seq<ScanLineList>, y: int, ghost act: seq<Edge>, ghost buckets: seq<seq<Edge>>, ghost edges: seq<Edge>,
                     ghost side: map<Edge, Side>, ghost waiting: set<Edge>, ghost chain: seq<Edge>, ghost all: set<Edge>)
    returns (newLists: seq<ScanLineList>, ghost row: seq<Edge>, ghost newBuckets: seq<seq<Edge>>, ghost newWaiting: set<Edge>,
             ghost newChain: seq<Edge>)
    requires List(head, act, side, waiting, all, y) && Running(act, edges, side, y) && Waiting(lists, buckets, edges, side, waiting, y)
    requires EntryOrder(lists, buckets, edges, side)
    requires ChainOf(head, act, side, chain) && WindingChain(chain)
    modifies all`next, all`back, all`nextWETE
    ensures List(head, row, side, newWaiting, all, y) && Loaded(row, edges, side, y)
    ensures Waiting(newLists, newBuckets, edges, side, newWaiting, y + 1)
    ensures EntryOrder(newLists, newBuckets, edges, side) && RowIs(row, act, edges, side, y)
    ensures ChainOf(head, row, side, newChain) && WindingChain(newChain)
  {
    var loaded;
    newLists, loaded, row, newBuckets, newWaiting := LoadScanline(head, lists, y, act, buckets, edges, side, waiting, all);
    newChain := chain;
    if loaded {
      ghost var own := Own(head, row);
      assert forall e :: e in newWaiting ==> e !in own;
      newChain := Rewind(head, y, row, side, own);
    }
  }

  /** The second half: the edges are sorted, and linked again if the links may be out of date. */
  method SortWinding(head: Edge, y: int, fixWAET: bool, ghost row: seq<Edge>, ghost edges: seq<Edge>, ghost side: map<Edge, Side>,
                     ghost chain: seq<Edge>, ghost own: set<Edge>)
    returns (ghost out: seq<Edge>, ghost newChain: seq<Edge>)
    requires Loaded(row, edges, side, y) && own == Own(head, row) && RightOfHeader(edges, side)
    requires var kept := Keep(Continues(side, y), row);
      Linked([head] + kept) && AllStand(kept, side, y + 1) && (!fixWAET ==> kept == row)
    requires head.bres.minorAxis == SMALL_COORDINATE && head !in side
    requires ChainOf(head, row, side, chain) && WindingChain(chain)
    modifies own`next, own`back, own`nextWETE
    ensures Linked([head] + out) && AllStand(out, side, y + 1) && Running(out, edges, side, y + 1) && NextIs(out, row, edges, side, y)
    ensures forall e :: e in out ==> e in row
    ensures ChainOf(head, out, side, newChain) && WindingChain(newChain)
  {
    var changed;
    changed, out := SortScanline(head, y, row, edges, side, own);
    newChain := chain;
    if changed || fixWAET {
      newChain := Rewind(head, y + 1, out, side, Own(head, out));
    }
  }

  /** The loop over the active edges, and the sort after it. */
  method DrawWinding(head: Edge, y: int, pts: seq<Point>, ghost row: seq<Edge>, ghost edges: seq<Edge>, ghost side: map<Edge, Side>,
                     ghost chain: seq<Edge>, ghost own: set<Edge>)
    returns (newPts: seq<Point>, ghost out: seq<Edge>, ghost newChain: seq<Edge>)
    requires Loaded(row, edges, side, y) && own == Own(head, row) && RightOfHeader(edges, side)
    requires Linked([head] + row) && AllStand(row, side, y)
    requires head.bres.minorAxis == SMALL_COORDINATE && head !in side
    requires ChainOf(head, row, side, chain) && WindingChain(chain)
    modifies own`next, own`back, own`bres, own`nextWETE
    ensures head.bres.minorAxis == SMALL_COORDINATE
    ensures Linked([head] + out) && AllStand(out, side, y + 1) && Running(out, edges, side, y + 1) && NextIs(out, row, edges, side, y)
    ensures forall e :: e in out ==> e in row
    ensures ChainOf(head, out, side, newChain) && WindingChain(newChain)
    ensures Keyed(Ways(row, side), row) && Keyed(Crossing(edges, side, y), Crossings(Ways(row, side), row))
    ensures newPts == pts + PointsOf(ValuesOf(Crossing(edges, side, y), Crossings(Ways(row, side), row)), y)
  {
    OwnHas(head, row);
    var fixWAET;
    newPts, fixWAET := EmitWinding(head, y, pts, false, row, side, own);
    RowXs(row, edges, side, y, Crossings(Ways(row, side), row));
    out, newChain := SortWinding(head, y, fixWAET, row, edges, side, chain, own);
  }

  /** One scanline of the winding number rule. */
  method WindingScanline(head: Edge, lists: seq<ScanLineList>, y: int, pts: seq<Point>, ghost act: seq<Edge>, ghost buckets: seq<seq<Edge>>,
                         ghost edges: seq<Edge>, ghost side: map<Edge, Side>, ghost waiting: set<Edge>, ghost chain: seq<Edge>, ghost all: set<Edge>)
    returns (newLists: seq<ScanLineList>, newPts: seq<Point>, ghost row: seq<Edge>, ghost out: seq<Edge>,
             ghost newBuckets: seq<seq<Edge>>, ghost newWaiting: set<Edge>, ghost newChain: seq<Edge>)
    requires List(head, act, side, waiting, all, y) && Running(act, edges, side, y) && Waiting(lists, buckets, edges, side, waiting, y)
    requires EntryOrder(lists, buckets, edges, side)
    requires RightOfHeader(edges, side) && ChainOf(head, act, side, chain) && WindingChain(chain)
    modifies all`next, all`back, all`bres, all`nextWETE
    ensures List(head, out, side, newWaiting, all, y + 1) && Running(out, edges, side, y + 1)
    ensures Waiting(newLists, newBuckets, edges, side, newWaiting, y + 1)
    ensures EntryOrder(newLists, newBuckets, edges, side) && RowIs(row, act, edges, side, y) && NextIs(out, row, edges, side, y)
    ensures ChainOf(head, out, side, newChain) && WindingChain(newChain)
    ensures Loaded(row, edges, side, y) && Keyed(Ways(row, side), row) && Keyed(Crossing(edges, side, y), Crossings(Ways(row, side), row))
    ensures newPts == pts + PointsOf(ValuesOf(Crossing(edges, side, y), Crossings(Ways(row, side), row)), y)
  {
    ghost var rowChain;
    newLists, row, newBuckets, newWaiting, rowChain := LoadWinding(head, lists, y, act, buckets, edges, side, waiting, chain, all);
    ghost var own := Own(head, row);
    OwnHas(head, row);
    assert forall e :: e in newWaiting ==> e !in own;
    newPts, out, newChain := DrawWinding(head, y, pts, row, edges, side, rowChain, own);
  }
}
