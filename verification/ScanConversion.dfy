/** Scan conversion: a polygon becomes exactly the points that its rule puts inside (libX11 PolyReg.c). */
module ScanConversion {
  import opened Boxes
  import opened Bresenham
  import opened EdgeList
  import opened EdgeOrder
  import opened EdgeTable
  import opened PolygonBands
  import opened PolygonLoop
  import opened PolygonRectangle
  import opened PolygonRegion
  import opened PolygonRows
  import opened PolygonRule
  import opened PolygonScan
  import opened PolygonSpans
  import opened PolygonState
  import opened PolygonSteps
  import opened Region
  import opened RegionApi
  import opened ScanPoints
  import opened SpanRows
  import opened Tally

  // ---------- scanlines ----------

  /** On every scanline as many sides go down as up. */
  ghost predicate Closed(sides: seq<Side>) { forall y :: Sum(Turning(y), sides) == 0 }

  /** No side starts before ymin or ends after ymax. */
  lemma MeetsInSpan(sides: seq<Side>, ymin: int, ymax: int, y: int)
    requires Closed(sides) && Spanned(sides, ymin, ymax) && (y < ymin || y >= ymax)
    ensures forall i :: 0 <= i < |sides| ==> !sides[i].Meets(y)
  {
    assert Sum(Turning(y), sides) == 0;
    OneWaySum(sides, y, y >= ymax);
  }

  lemma StartsInSpan(sides: seq<Side>, ymin: int, ymax: int, i: nat)
    requires Closed(sides) && Spanned(sides, ymin, ymax) && i < |sides| && sides[i].Valid()
    ensures ymin <= sides[i].top.y < ymax
  {
    var y := sides[i].top.y;
    assert sides[i].Meets(y);
    if y < ymin || y >= ymax { MeetsInSpan(sides, ymin, ymax, y); }
  }

  lemma OutsideSpan(rule: Rule, sides: seq<Side>, ymin: int, ymax: int, px: int, py: int)
    requires Closed(sides) && Spanned(sides, ymin, ymax) && (py < ymin || py >= ymax)
    ensures !Inside(rule, sides, px, py)
  {
    MeetsInSpan(sides, ymin, ymax, py);
    NobodyMeets(sides, py, px);
  }

  /** The sides are those of points with the coordinates of an XPoint. */
  predicate ShortSides(sides: seq<Side>) {
    forall i :: 0 <= i < |sides| ==>
      && -0x8000 <= sides[i].top.x <= 0x7fff && -0x8000 <= sides[i].bottom.x <= 0x7fff
  }

  predicate ShortXs(pts: seq<Point>) { forall i :: 0 <= i < |pts| ==> -0x8000 <= pts[i].x <= 0x7fff }

  /** The point is drawn for a side. */
  ghost predicate OnASide(p: Point, sides: seq<Side>) { exists j :: 0 <= j < |sides| && DrawnFor(p, sides[j]) }

  ghost predicate DrawnFor(p: Point, s: Side) { s.Valid() && s.Meets(p.y) && p.x == CrossX(s, p.y) }

  ghost predicate OnSides(pts: seq<Point>, sides: seq<Side>) { forall i :: 0 <= i < |pts| ==> OnASide(pts[i], sides) }

  lemma RowOnSides(pts: seq<Point>, ws: seq<Edge>, edges: seq<Edge>, side: map<Edge, Side>, y: int)
    requires Distinguished(edges, side) && OnSides(pts, ValuesOf(side, edges))
    requires Keyed(Crossing(edges, side, y), ws)
    ensures OnSides(pts + PointsOf(ValuesOf(Crossing(edges, side, y), ws), y), ValuesOf(side, edges))
  {
    var key, sides := Crossing(edges, side, y), ValuesOf(side, edges);
    forall i | 0 <= i < |ws|
      ensures OnASide(Point(key[ws[i]], y), sides)
    {
      var e := ws[i];
      assert e in ws && e in edges;
      var k :| 0 <= k < |edges| && edges[k] == e;
      assert sides[k] == side[e];
      assert DrawnFor(Point(key[e], y), sides[k]);
    }
  }

  lemma SidesAreShort(pts: seq<Point>, sides: seq<Side>)
    requires OnSides(pts, sides) && ShortSides(sides)
    ensures ShortXs(pts)
  {
    forall i | 0 <= i < |pts|
      ensures -0x8000 <= pts[i].x <= 0x7fff
    {
      var j :| 0 <= j < |sides| && DrawnFor(pts[i], sides[j]);
      DrawnBetween(sides[j], pts[i].y, -0x8000);
      DrawnBefore(sides[j], pts[i].y, 0x7fff);
    }
  }

  // ---------- the start ----------

  lemma SideIn(side: map<Edge, Side>, edges: seq<Edge>, e: Edge) returns (k: nat)
    requires Keyed(side, edges) && e in edges
    ensures k < |edges| && edges[k] == e && ValuesOf(side, edges)[k] == side[e]
  {
    k :| 0 <= k < |edges| && edges[k] == e;
  }

  lemma EdgesDistinguished(side: map<Edge, Side>, edges: seq<Edge>, sides: seq<Side>)
    requires Distinct(edges) && Keyed(side, edges) && ValuesOf(side, edges) == sides && (forall s :: s in sides ==> s.Valid())
    ensures Distinguished(edges, side)
  {
    forall e | e in edges
      ensures side[e].top.y < side[e].bottom.y
    {
      var k := SideIn(side, edges, e);
      assert sides[k] in sides;
    }
  }

  /** Before the first scanline no edge is active and all wait. */
  lemma FirstScanline(lists: seq<ScanLineList>, buckets: seq<seq<Edge>>, edges: seq<Edge>, side: map<Edge, Side>,
                      waiting: set<Edge>, sides: seq<Side>, ymin: int, ymax: int)
    requires TableOf(lists, buckets, edges, side, waiting, sides) && (forall s :: s in sides ==> s.Valid())
    requires Closed(sides) && Spanned(sides, ymin, ymax)
    ensures Running([], edges, side, ymin) && Waiting(lists, buckets, edges, side, waiting, ymin)
  {
    EdgesDistinguished(side, edges, sides);
    forall e | e in edges
      ensures side[e].top.y >= ymin
    {
      var k := SideIn(side, edges, e);
      assert sides[k] in sides;
      StartsInSpan(sides, ymin, ymax, k);
    }
    forall j | 0 <= j < |lists|
      ensures lists[j].scanline >= ymin
    {
      var e := buckets[j][0];
      assert e in buckets[j];
      assert Bucket(lists[j], buckets[j], side);
    }
  }

  lemma HeaderLeft(side: map<Edge, Side>, edges: seq<Edge>)
    requires Keyed(side, edges) && ShortSides(ValuesOf(side, edges))
    ensures RightOfHeader(edges, side)
  {
    forall e | e in edges
      ensures SMALL_COORDINATE <= side[e].top.x && SMALL_COORDINATE <= side[e].bottom.x
    {
      var k := SideIn(side, edges, e);
    }
  }

  // ---------- the loops over scanlines ----------

  /** The points above scanline y, and those of its row. */
  lemma EvenOddAdded(pts: seq<Point>, pts': seq<Point>, row: seq<Edge>, edges: seq<Edge>, side: map<Edge, Side>, sides: seq<Side>, y: int)
    requires Loaded(row, edges, side, y) && ValuesOf(side, edges) == sides && Closed(sides) && ShortSides(sides)
    requires Scanned(pts, EvenOdd, sides, y) && OnSides(pts, sides) && PointForSide(pts, sides, y)
    requires pts' == pts + PointsOf(ValuesOf(Crossing(edges, side, y), row), y)
    ensures Scanned(pts', EvenOdd, sides, y + 1) && OnSides(pts', sides) && PointForSide(pts', sides, y + 1)
  {
    assert Sum(Turning(y), sides) == 0;
    EvenOddRow(row, edges, side, y);
    RowScanned(pts, ValuesOf(Crossing(edges, side, y), row), y, EvenOdd, sides);
    RowCounted(pts, ValuesOf(Crossing(edges, side, y), row), y, sides);
    RowOnSides(pts, row, edges, side, y);
  }

  lemma WindingAdded(pts: seq<Point>, pts': seq<Point>, row: seq<Edge>, edges: seq<Edge>, side: map<Edge, Side>, sides: seq<Side>, y: int)
    requires Loaded(row, edges, side, y) && ValuesOf(side, edges) == sides && Closed(sides) && ShortSides(sides)
    requires Scanned(pts, WindingNumber, sides, y) && OnSides(pts, sides) && Keyed(Ways(row, side), row) && Keyed(Crossing(edges, side, y), Crossings(Ways(row, side), row))
    requires pts' == pts + PointsOf(ValuesOf(Crossing(edges, side, y), Crossings(Ways(row, side), row)), y)
    ensures Scanned(pts', WindingNumber, sides, y + 1) && OnSides(pts', sides)
  {
    assert Sum(Turning(y), sides) == 0;
    WindingRow(row, edges, side, y);
    RowScanned(pts, ValuesOf(Crossing(edges, side, y), Crossings(Ways(row, side), row)), y, WindingNumber, sides);
    RowOnSides(pts, Crossings(Ways(row, side), row), edges, side, y);
  }

  /** What holds between two scanlines. */
  ghost predicate Between(head: Edge, act: seq<Edge>, lists: seq<ScanLineList>, buckets: seq<seq<Edge>>, edges: seq<Edge>,
                          side: map<Edge, Side>, waiting: set<Edge>, all: set<Edge>, y: int)
    reads all
  {
    && List(head, act, side, waiting, all, y) && Running(act, edges, side, y)
    && Waiting(lists, buckets, edges, side, waiting, y) && EntryOrder(lists, buckets, edges, side) && RightOfHeader(edges, side)
  }

  /** The sides of the edges, those of a closed polygon. */
  ghost predicate Polygon(edges: seq<Edge>, side: map<Edge, Side>, sides: seq<Side>) {
    Keyed(side, edges) && ValuesOf(side, edges) == sides && Closed(sides) && ShortSides(sides)
  }

  /** A scanline of the even-odd rule. */
  method StepEvenOdd(head: Edge, lists: seq<ScanLineList>, y: int, pts: seq<Point>, ghost act: seq<Edge>, ghost buckets: seq<seq<Edge>>,
                     ghost edges: seq<Edge>, ghost side: map<Edge, Side>, ghost waiting: set<Edge>, ghost all: set<Edge>, ghost sides: seq<Side>,
                     ghost y0: int)
    returns (newLists: seq<ScanLineList>, newPts: seq<Point>, ghost out: seq<Edge>, ghost newBuckets: seq<seq<Edge>>, ghost newWaiting: set<Edge>)
    requires Between(head, act, lists, buckets, edges, side, waiting, all, y) && Polygon(edges, side, sides)
    requires Scanned(pts, EvenOdd, sides, y) && OnSides(pts, sides) && PointForSide(pts, sides, y)
    requires y0 <= y && InStep(EvenOdd, act, pts, edges, side, y0, y)
    modifies all`next, all`back, all`bres
    ensures Between(head, out, newLists, newBuckets, edges, side, newWaiting, all, y + 1)
    ensures InStep(EvenOdd, out, newPts, edges, side, y0, y + 1)
    ensures Scanned(newPts, EvenOdd, sides, y + 1) && OnSides(newPts, sides) && PointForSide(newPts, sides, y + 1)
  {
    ghost var row;
    newLists, newPts, row, out, newBuckets, newWaiting := EvenOddScanline(head, lists, y, pts, act, buckets, edges, side, waiting, all);
    EvenOddAdded(pts, newPts, row, edges, side, sides, y);
    StepTaken(EvenOdd, act, row, out, pts, newPts, edges, side, y0, y);
  }

  /** The even-odd rule. */
  method ScanEvenOdd(head: Edge, lists0: seq<ScanLineList>, ymin: int, ymax: int, ghost buckets0: seq<seq<Edge>>, ghost edges: seq<Edge>,
                     ghost side: map<Edge, Side>, ghost waiting0: set<Edge>, ghost all: set<Edge>, ghost sides: seq<Side>)
    returns (pts: seq<Point>)
    requires Between(head, [], lists0, buckets0, edges, side, waiting0, all, ymin) && Polygon(edges, side, sides)
    requires Scanned([], EvenOdd, sides, ymin) && PointForSide([], sides, ymin) && ymin <= ymax
    modifies all`next, all`back, all`bres
    ensures Scanned(pts, EvenOdd, sides, ymax) && OnSides(pts, sides) && PointForSide(pts, sides, ymax)
    ensures pts == PointsFrom(EvenOdd, sides, ymin, ymax)
  {
    StepBegins(EvenOdd, edges, side, ymin);
    pts := [];
    var lists := lists0;
    ghost var act, buckets, waiting := [], buckets0, waiting0;
    for y := ymin to ymax
      invariant Between(head, act, lists, buckets, edges, side, waiting, all, y)
      invariant Scanned(pts, EvenOdd, sides, y) && OnSides(pts, sides) && PointForSide(pts, sides, y)
      invariant InStep(EvenOdd, act, pts, edges, side, ymin, y)
    {
      lists, pts, act, buckets, waiting := StepEvenOdd(head, lists, y, pts, act, buckets, edges, side, waiting, all, sides, ymin);
    }
  }

  /** A scanline of the winding number rule. */
  method StepWinding(head: Edge, lists: seq<ScanLineList>, y: int, pts: seq<Point>, ghost act: seq<Edge>, ghost buckets: seq<seq<Edge>>,
                     ghost edges: seq<Edge>, ghost side: map<Edge, Side>, ghost waiting: set<Edge>, ghost chain: seq<Edge>,
                     ghost all: set<Edge>, ghost sides: seq<Side>, ghost y0: int)
    returns (newLists: seq<ScanLineList>, newPts: seq<Point>, ghost out: seq<Edge>, ghost newBuckets: seq<seq<Edge>>,
             ghost newWaiting: set<Edge>, ghost newChain: seq<Edge>)
    requires Between(head, act, lists, buckets, edges, side, waiting, all, y) && Polygon(edges, side, sides)
    requires ChainOf(head, act, side, chain) && WindingChain(chain)
    requires Scanned(pts, WindingNumber, sides, y) && OnSides(pts, sides)
    requires y0 <= y && InStep(WindingNumber, act, pts, edges, side, y0, y)
    modifies all`next, all`back, all`bres, all`nextWETE
    ensures Between(head, out, newLists, newBuckets, edges, side, newWaiting, all, y + 1)
    ensures ChainOf(head, out, side, newChain) && WindingChain(newChain)
    ensures InStep(WindingNumber, out, newPts, edges, side, y0, y + 1)
    ensures Scanned(newPts, WindingNumber, sides, y + 1) && OnSides(newPts, sides)
  {
    ghost var row;
    newLists, newPts, row, out, newBuckets, newWaiting, newChain :=
      WindingScanline(head, lists, y, pts, act, buckets, edges, side, waiting, chain, all);
    WindingAdded(pts, newPts, row, edges, side, sides, y);
    StepTaken(WindingNumber, act, row, out, pts, newPts, edges, side, y0, y);
  }

  /** The winding number rule. */
  method ScanWinding(head: Edge, lists0: seq<ScanLineList>, ymin: int, ymax: int, ghost buckets0: seq<seq<Edge>>, ghost edges: seq<Edge>,
                     ghost side: map<Edge, Side>, ghost waiting0: set<Edge>, ghost all: set<Edge>, ghost sides: seq<Side>)
    returns (pts: seq<Point>)
    requires Between(head, [], lists0, buckets0, edges, side, waiting0, all, ymin) && Polygon(edges, side, sides)
    requires head.nextWETE == null && Scanned([], WindingNumber, sides, ymin) && ymin <= ymax
    modifies all`next, all`back, all`bres, all`nextWETE
    ensures Scanned(pts, WindingNumber, sides, ymax) && OnSides(pts, sides)
    ensures pts == PointsFrom(WindingNumber, sides, ymin, ymax)
  {
    StepBegins(WindingNumber, edges, side, ymin);
    pts := [];
    var lists := lists0;
    ghost var act, buckets, waiting, chain := [], buckets0, waiting0, [head];
    for y := ymin to ymax
      invariant Between(head, act, lists, buckets, edges, side, waiting, all, y)
      invariant ChainOf(head, act, side, chain) && WindingChain(chain)
      invariant Scanned(pts, WindingNumber, sides, y) && OnSides(pts, sides)
      invariant InStep(WindingNumber, act, pts, edges, side, ymin, y)
    {
      lists, pts, act, buckets, waiting, chain := StepWinding(head, lists, y, pts, act, buckets, edges, side, waiting, chain, all, sides, ymin);
    }
  }

  /** The points of all scanlines delimit the inside everywhere. */
  lemma AllScanned(pts: seq<Point>, rule: Rule, sides: seq<Side>, ymin: int, ymax: int, end: int, px: int, py: int)
    requires Scanned(pts, rule, sides, end) && end >= ymax && Closed(sides) && Spanned(sides, ymin, ymax)
    ensures InPairs(pts, |pts| / 2, px, py) <==> Inside(rule, sides, px, py)
  {
    if py >= end { OutsideSpan(rule, sides, ymin, ymax, px, py); }
  }

  // ---------- the region of a polygon ----------

  lemma {:induction false} SidesShort(pts: seq<Point>, n: nat)
    requires Short(pts) && n <= |pts|
    ensures ShortSides(Sides(pts, n))
  {
    if n > 0 { SidesShort(pts, n - 1); }
  }

  lemma PolygonSides(pts: seq<Point>)
    requires Short(pts)
    ensures Closed(Sides(pts, |pts|)) && ShortSides(Sides(pts, |pts|)) && forall s :: s in Sides(pts, |pts|) ==> s.Valid()
  {
    forall y
      ensures Sum(Turning(y), Sides(pts, |pts|)) == 0
    {
      Balanced(pts, y);
    }
    SidesShort(pts, |pts|);
    SidesValid(pts, |pts|);
  }

  lemma NothingScanned(rule: Rule, sides: seq<Side>, ymin: int, ymax: int)
    requires Closed(sides) && Spanned(sides, ymin, ymax)
    ensures Scanned([], rule, sides, ymin) && PointForSide([], sides, ymin)
  {
    forall px, py | py < ymin
      ensures !Inside(rule, sides, px, py)
    {
      OutsideSpan(rule, sides, ymin, ymax, px, py);
    }
    forall px, py | py < ymin
      ensures Sum(Crossed(px, py), sides) == 0
    {
      MeetsInSpan(sides, ymin, ymax, py);
      NobodyMeets(sides, py, px);
    }
  }

  /** A table of all sides is ready to be scanned from its first scanline on. */
  lemma TableReady(head: Edge, lists: seq<ScanLineList>, buckets: seq<seq<Edge>>, edges: seq<Edge>, side: map<Edge, Side>,
                   all: set<Edge>, sides: seq<Side>, ymin: int, ymax: int)
    requires Linked([head]) && head.bres.minorAxis == SMALL_COORDINATE && head !in all && side.Keys <= all
    requires TableOf(lists, buckets, edges, side, all, sides) && Limits(sides, ymin, ymax)
    requires Closed(sides) && ShortSides(sides) && (forall s :: s in sides ==> s.Valid())
    ensures Between(head, [], lists, buckets, edges, side, all, all + {head}, ymin) && Polygon(edges, side, sides)
  {
    FirstScanline(lists, buckets, edges, side, all, sides, ymin, ymax);
    HeaderLeft(side, edges);
    assert [head] + [] == [head];
  }

  /** The scan of a table, by either rule. */
  method ScanTable(rule: Rule, head: Edge, lists: seq<ScanLineList>, ymin: int, stop: int, ghost buckets: seq<seq<Edge>>,
                   ghost edges: seq<Edge>, ghost side: map<Edge, Side>, ghost waiting: set<Edge>, ghost all: set<Edge>, ghost sides: seq<Side>)
    returns (pts: seq<Point>)
    requires Between(head, [], lists, buckets, edges, side, waiting, all, ymin) && Polygon(edges, side, sides)
    requires head.nextWETE == null && Scanned([], rule, sides, ymin) && PointForSide([], sides, ymin) && ymin <= stop
    modifies all`next, all`back, all`bres, all`nextWETE
    ensures Scanned(pts, rule, sides, stop) && OnSides(pts, sides) && (rule == EvenOdd ==> PointForSide(pts, sides, stop))
    ensures pts == PointsFrom(rule, sides, ymin, stop)
  {
    match rule {
      case EvenOdd => pts := ScanEvenOdd(head, lists, ymin, stop, buckets, edges, side, waiting, all, sides);
      case WindingNumber => pts := ScanWinding(head, lists, ymin, stop, buckets, edges, side, waiting, all, sides);
    }
  }

  /** The points of all scanlines. */
  method Scan(Pts: seq<Point>, rule: Rule) returns (pts: seq<Point>, ghost ymin: int, ghost ymax: int, ghost end: int)
    requires Short(Pts)
    ensures OnSides(pts, Sides(Pts, |Pts|)) && Scanned(pts, rule, Sides(Pts, |Pts|), end) && end >= ymax && Spanned(Sides(Pts, |Pts|), ymin, ymax)
    ensures rule == EvenOdd ==> PointForSide(pts, Sides(Pts, |Pts|), end)
    ensures pts == PointsOfScan(rule, Sides(Pts, |Pts|))
  {
    PolygonSides(Pts);
    var head, lists, first, last;
    ghost var edges, buckets, side, all;
    head, lists, first, last, edges, buckets, side, all := CreateETandAET(Pts);
    pts, end := ScanSides(rule, head, lists, first, last, buckets, edges, side, all, Sides(Pts, |Pts|));
    ymin, ymax := first, last;
  }

  /** The scan of a new table. */
  method ScanSides(rule: Rule, head: Edge, lists: seq<ScanLineList>, ymin: int, ymax: int, ghost buckets: seq<seq<Edge>>,
                   ghost edges: seq<Edge>, ghost side: map<Edge, Side>, ghost all: set<Edge>, ghost sides: seq<Side>)
    returns (pts: seq<Point>, ghost end: int)
    requires Linked([head]) && head.bres.minorAxis == SMALL_COORDINATE && head.nextWETE == null && head !in all && side.Keys <= all
    requires TableOf(lists, buckets, edges, side, all, sides) && Limits(sides, ymin, ymax)
    requires Closed(sides) && ShortSides(sides) && (forall s :: s in sides ==> s.Valid())
    modifies head, all
    ensures OnSides(pts, sides) && Scanned(pts, rule, sides, end) && end >= ymax && (rule == EvenOdd ==> PointForSide(pts, sides, end))
    ensures pts == PointsOfScan(rule, sides)
  {
    TableReady(head, lists, buckets, edges, side, all, sides, ymin, ymax);
    NothingScanned(rule, sides, ymin, ymax);
    var stop := if ymin < ymax then ymax else ymin;
    end := stop;
    pts := ScanTable(rule, head, lists, ymin, stop, buckets, edges, side, all, all + {head}, sides);
  }

  lemma FewPoints(rule: Rule, pts: seq<Point>, px: int, py: int)
    requires |pts| < 2
    ensures !Inside(rule, Sides(pts, |pts|), px, py)
  {
    if |pts| == 1 { assert Sides(pts, 1) == []; }
  }

  lemma AllCounted(pts: seq<Point>, sides: seq<Side>, ymin: int, ymax: int, end: int, px: int, py: int)
    requires Scanned(pts, EvenOdd, sides, end) && PointForSide(pts, sides, end)
    requires end >= ymax && Closed(sides) && Spanned(sides, ymin, ymax)
    ensures Sum(LeftPoint(px, py), pts) == Sum(Crossed(px, py), sides)
  {
    if py >= end {
      MeetsInSpan(sides, ymin, ymax, py);
      NobodyMeets(sides, py, px);
      NoneOnScanline(pts, px, py);
    }
  }

  /** The points that the scan of a polygon leaves: in pairs, they delimit its inside on every scanline. By the
      even-odd rule there is one for every side and scanline. */
  ghost predicate ScanOf(pts: seq<Point>, rule: Rule, sides: seq<Side>) {
    && Paired(pts) && OnSides(pts, sides)
    && (forall px, py :: InPairs(pts, |pts| / 2, px, py) <==> Inside(rule, sides, px, py))
    && (rule == EvenOdd ==> forall px, py :: Sum(LeftPoint(px, py), pts) == Sum(Crossed(px, py), sides))
  }

  /** By the even-odd rule the sides determine the points, and so whether they are tidy. */
  lemma EvenOddScanUnique(pts: seq<Point>, pts': seq<Point>, sides: seq<Side>)
    requires ScanOf(pts, EvenOdd, sides) && ScanOf(pts', EvenOdd, sides)
    ensures pts == pts'
  {
    PointsUnique(pts, pts');
  }

  lemma ScanEnds(pts: seq<Point>, rule: Rule, sides: seq<Side>, ymin: int, ymax: int, end: int)
    requires Scanned(pts, rule, sides, end) && OnSides(pts, sides) && (rule == EvenOdd ==> PointForSide(pts, sides, end))
    requires end >= ymax && Closed(sides) && Spanned(sides, ymin, ymax)
    ensures ScanOf(pts, rule, sides)
  {
    forall px, py
      ensures InPairs(pts, |pts| / 2, px, py) <==> Inside(rule, sides, px, py)
    {
      AllScanned(pts, rule, sides, ymin, ymax, end, px, py);
    }
    if rule == EvenOdd {
      forall px, py
        ensures Sum(LeftPoint(px, py), pts) == Sum(Crossed(px, py), sides)
      {
        AllCounted(pts, sides, ymin, ymax, end, px, py);
      }
    }
  }

  /** The polygons for which XPolygonRegion makes no edge table. */
  ghost predicate ShortCut(Pts: seq<Point>) { |Pts| < 2 || exists x1, y1, x2, y2 :: GoesAround(Pts, x1, y1, x2, y2) }

  /** For points that go around a rectangle, e is that rectangle. */
  ghost predicate AroundRectangle(Pts: seq<Point>, e: Box) {
    forall x1, y1, x2, y2 :: GoesAround(Pts, x1, y1, x2, y2) ==> e == Box(Min(x1, x2), Max(x1, x2), Min(y1, y2), Max(y1, y2))
  }

  /** XPolygonRegion: the region holds exactly the points inside the polygon, and its extents bound it. It is in
      bands, so it can be given to every operation; it is canonical exactly if the points of the scan, which the sides of
      the polygon determine, are tidy. */
  method XPolygonRegion(Pts: seq<Point>, rule: Rule) returns (region: Region)
    requires Short(Pts)
    ensures fresh(region) && region.Valid()
    ensures ShortCut(Pts) ==> |region.rects| <= 1
    ensures AroundRectangle(Pts, region.extents)
    ensures region.rects == [] && (ShortCut(Pts) ==> |Pts| < 2) ==> region.extents == Box(0, 0, 0, 0)
    ensures forall px, py :: In(region.rects, px, py) <==> Inside(rule, Sides(Pts, |Pts|), px, py)
    ensures ShortCut(Pts) ==> Canonical(region.rects)
    ensures !ShortCut(Pts) ==> (Canonical(region.rects) <==> Tidy(PointsOfScan(rule, Sides(Pts, |Pts|))))
    ensures !ShortCut(Pts) ==> ScanOf(PointsOfScan(rule, Sides(Pts, |Pts|)), rule, Sides(Pts, |Pts|))
  {
    region := new Region();
    region.rects, region.extents := PolygonBoxes(Pts, rule);
  }

  method PolygonBoxes(Pts: seq<Point>, rule: Rule) returns (rects: seq<Box>, extents: Box)
    requires Short(Pts)
    ensures Banded(rects) && Bounds(rects, extents)
    ensures forall px, py :: In(rects, px, py) <==> Inside(rule, Sides(Pts, |Pts|), px, py)
    ensures ShortCut(Pts) ==> Canonical(rects) && |rects| <= 1
    ensures AroundRectangle(Pts, extents)
    ensures rects == [] && (ShortCut(Pts) ==> |Pts| < 2) ==> extents == Box(0, 0, 0, 0)
    ensures !ShortCut(Pts) ==> (Canonical(rects) <==> Tidy(PointsOfScan(rule, Sides(Pts, |Pts|))))
    ensures !ShortCut(Pts) ==> ScanOf(PointsOfScan(rule, Sides(Pts, |Pts|)), rule, Sides(Pts, |Pts|))
  {
    RectangleIff(Pts);
    if IsRectangle(Pts) {
      rects, extents := RectangleRegion(Pts, rule);
    } else if |Pts| < 2 {
      rects, extents := [], Box(0, 0, 0, 0);
      forall px, py ensures !Inside(rule, Sides(Pts, |Pts|), px, py) {
        FewPoints(rule, Pts, px, py);
      }
    } else {
      rects, extents := ScanRegion(Pts, rule);
    }
  }

  /** The boxes of the points of the scan. */
  method ScanRegion(Pts: seq<Point>, rule: Rule) returns (rects: seq<Box>, extents: Box)
    requires Short(Pts)
    ensures Banded(rects) && Bounds(rects, extents) && (rects == [] ==> extents == Box(0, 0, 0, 0))
    ensures forall px, py :: In(rects, px, py) <==> Inside(rule, Sides(Pts, |Pts|), px, py)
    ensures Canonical(rects) <==> Tidy(PointsOfScan(rule, Sides(Pts, |Pts|)))
    ensures ScanOf(PointsOfScan(rule, Sides(Pts, |Pts|)), rule, Sides(Pts, |Pts|))
  {
    var points;
    ghost var ymin, ymax, end;
    points, ymin, ymax, end := Scan(Pts, rule);
    PolygonSides(Pts);
    SidesAreShort(points, Sides(Pts, |Pts|));
    ScanEnds(points, rule, Sides(Pts, |Pts|), ymin, ymax, end);
    rects, extents := PtsToRegion(points);
  }

  // ---------- a region that is not canonical ----------

  /** Where the lowest scanline has the spans of the one above, it never makes a box taller: the last scanline of a
      polygon is always a band of its own. */
  lemma LastRowApart(pts: seq<Point>, y: int)
    requires WholeRow(pts, y) != [] && WholeRow(pts, y) == WholeRow(pts, y - 1) && forall i :: 0 <= i < |pts| ==> pts[i].y <= y
    ensures !Tidy(pts)
  {
    forall k
      ensures !GrownAt(pts, k, y)
    {
    }
  }

  /** A square of four by four, with a fifth corner on its upper side. */
  function FiveCorners(): seq<Point> { [Point(0, 0), Point(2, 0), Point(4, 0), Point(4, 4), Point(0, 4)] }

  lemma FiveCornerSides()
    ensures Sides(FiveCorners(), 5) == [Side(Point(0, 0), Point(0, 4), false), Side(Point(4, 0), Point(4, 4), true)]
    ensures Short(FiveCorners()) && !ShortCut(FiveCorners())
  {
    var pts := FiveCorners();
    RectangleIff(pts);
    assert Sides(pts, 1) == [Side(Point(0, 0), Point(0, 4), false)];
  }

  lemma InsideFiveCorners(rule: Rule, px: int, py: int)
    ensures Inside(rule, Sides(FiveCorners(), 5), px, py) <==> 0 <= px < 4 && 0 <= py < 4
  {
    FiveCornerSides();
    var l, r := Side(Point(0, 0), Point(0, 4), false), Side(Point(4, 0), Point(4, 4), true);
    UprightLeftOf(l, px, py);
    UprightLeftOf(r, px, py);
    TwoSides(Crossed(px, py), l, r);
    TwoSides(Turned(px, py), l, r);
  }

  function Square(): seq<Point> { [Point(0, 0), Point(4, 0), Point(4, 4), Point(0, 4)] }

  lemma SquareIsShortCut()
    ensures Short(Square()) && ShortCut(Square())
  {
    assert Square()[..4] == Square();
    assert GoesAround(Square(), 0, 0, 4, 4);
  }

  lemma InsideSquare(rule: Rule, px: int, py: int)
    ensures Inside(rule, Sides(Square(), |Square()|), px, py) <==> 0 <= px < 4 && 0 <= py < 4
  {
    RectangleInside(rule, Square(), px, py);
  }

  lemma TwoSides(f: Side -> int, l: Side, r: Side)
    ensures Sum(f, [l, r]) == f(l) + f(r)
  {
    var one, two := [l], [l, r];
    assert one[..|one| - 1] == [] && two[..|two| - 1] == one;
    assert Sum(f, one) == f(l);
  }

  /** Right of a span is no other. */
  lemma EndNotIn(s: seq<Span>, i: nat)
    requires SpacedRow(s) && (forall k :: 0 <= k < |s| ==> s[k].x1 < s[k].x2) && i < |s|
    ensures !InSpans(s, s[i].x2)
  {
  }

  lemma SameSpan(s: seq<Span>, i: nat, k: nat)
    requires SpacedRow(s) && i < |s| && k < |s| && s[i].x1 <= s[k].x1 < s[i].x2 && s[k].x1 < s[k].x2
    ensures i == k
  {
  }

  /** Spans that do not touch and cover lo..hi are one. */
  lemma OneSpan(s: seq<Span>, lo: int, hi: int)
    requires SpacedRow(s) && lo < hi && (forall i :: 0 <= i < |s| ==> s[i].x1 < s[i].x2)
    requires forall x :: InSpans(s, x) <==> lo <= x < hi
    ensures s == [Span(lo, hi)]
  {
    assert InSpans(s, lo);
    var i :| 0 <= i < |s| && s[i].x1 <= lo < s[i].x2;
    EndNotIn(s, i);
    assert hi <= s[i].x2;
    forall k | 0 <= k < |s|
      ensures lo <= s[k].x1 < s[k].x2 <= hi
    {
      assert s[k].x1 <= s[k].x1 < s[k].x2 && s[k].x1 <= s[k].x2 - 1 < s[k].x2;
      assert InSpans(s, s[k].x1) && InSpans(s, s[k].x2 - 1);
    }
    SameSpan(s, i, 0);
    SameSpan(s, i, |s| - 1);
  }

  lemma {:induction false} RowNotEmpty(pts: seq<Point>, n: nat, y: int)
    requires 2 * n <= |pts|
    ensures forall i :: 0 <= i < |Row(pts, n, y)| ==> Row(pts, n, y)[i].x1 < Row(pts, n, y)[i].x2
  {
    if n > 0 { RowNotEmpty(pts, n - 1, y); }
  }

  /** The points of a scan of this polygon are never tidy. */
  lemma FiveCornersUntidy(pts: seq<Point>, rule: Rule)
    requires ScanOf(pts, rule, Sides(FiveCorners(), 5))
    ensures !Tidy(pts)
  {
    FiveCornersAbove(pts);
    if SpacedRow(WholeRow(pts, 3)) && SpacedRow(WholeRow(pts, 2)) {
      FiveCornersRow(pts, rule, 3);
      FiveCornersRow(pts, rule, 2);
      LastRowApart(pts, 3);
    }
  }

  lemma FiveCornersAbove(pts: seq<Point>)
    requires OnSides(pts, Sides(FiveCorners(), 5))
    ensures forall i :: 0 <= i < |pts| ==> pts[i].y <= 3
  {
    FiveCornerSides();
    forall i | 0 <= i < |pts|
      ensures pts[i].y <= 3
    {
      var j :| 0 <= j < 2 && DrawnFor(pts[i], Sides(FiveCorners(), 5)[j]);
    }
  }

  lemma FiveCornersRow(pts: seq<Point>, rule: Rule, y: int)
    requires ScanOf(pts, rule, Sides(FiveCorners(), 5)) && 0 <= y < 4 && SpacedRow(WholeRow(pts, y))
    ensures WholeRow(pts, y) == [Span(0, 4)]
  {
    RowNotEmpty(pts, |pts| / 2, y);
    forall x
      ensures InSpans(WholeRow(pts, y), x) <==> 0 <= x < 4
    {
      InRow(pts, |pts| / 2, x, y);
      InsideFiveCorners(rule, x, y);
      assert InPairs(pts, |pts| / 2, x, y) <==> Inside(rule, Sides(FiveCorners(), 5), x, y);
    }
    OneSpan(WholeRow(pts, y), 0, 4);
  }

  /** Two polygons with the same points, of which the one has a canonical region and the other has not: XEqualRegion
      tells them apart. */
  method EqualPolygons(rule: Rule) returns (square: Region, five: Region, equal: bool)
    ensures fresh(square) && fresh(five) && square.Valid() && five.Valid() && SamePoints(square.rects, five.rects)
    ensures Canonical(square.rects) && !Canonical(five.rects) && !equal
  {
    SquareIsShortCut();
    square := XPolygonRegion(Square(), rule);
    five := XPolygonRegion(FiveCorners(), rule);
    FiveCornerSides();
    FiveCornersUntidy(PointsOfScan(rule, Sides(FiveCorners(), 5)), rule);
    forall x, y
      ensures In(square.rects, x, y) <==> In(five.rects, x, y)
    {
      InsideSquare(rule, x, y);
      InsideFiveCorners(rule, x, y);
    }
    equal := XEqualRegion(square, five);
  }
}
