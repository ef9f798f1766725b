/** The points that the scan of a polygon leaves, computed from its sides (libX11 PolyReg.c). */
module ScanPoints {
  import opened Bresenham
  import opened EdgeList
  import opened EdgeOrder
  import opened EdgeTable
  import opened PolygonLoop
  import opened PolygonOrder
  import opened PolygonRule
  import opened PolygonScan
  import opened PolygonState
  import opened Tally

  /** The sides of a row at which a span begins or ends. */
  function Ends(rule: Rule, sides: seq<Side>, row: seq<Side>): (ws: seq<Side>)
    requires forall s :: s in row ==> s in sides
    ensures forall s :: s in ws ==> s in sides
  {
    if rule == EvenOdd then row else Crossings(WayOf(sides), row)
  }

  /** The points of a scanline. */
  function RowPoints(rule: Rule, sides: seq<Side>, row: seq<Side>, y: int): seq<Point>
    requires forall s :: s in row ==> s in sides
  {
    PointsOf(ValuesOf(XOf(sides, y), Ends(rule, sides, row)), y)
  }

  /** The points of scanlines y0..y. */
  function PointsFrom(rule: Rule, sides: seq<Side>, y0: int, y: int): seq<Point>
    decreases y - y0
  {
    if y <= y0 then []
    else PointsFrom(rule, sides, y0, y - 1) + RowPoints(rule, sides, RowSides(sides, y0, y - 1), y - 1)
  }

  /** All points, by either rule. */
  function PointsOfScan(rule: Rule, sides: seq<Side>): seq<Point> {
    var first, last := FirstOf(sides, LARGE_COORDINATE), LastOf(sides, SMALL_COORDINATE);
    PointsFrom(rule, sides, first, if first < last then last else first)
  }

  /** Active edges and points are those that the sides call for. */
  ghost predicate InStep(rule: Rule, act: seq<Edge>, pts: seq<Point>, edges: seq<Edge>, side: map<Edge, Side>, y0: int, y: int) {
    && FromTable(act, edges, side)
    && (FromSides(act, edges, side); ValuesOf(side, act) == Active(ValuesOf(side, edges), y0, y))
    && pts == PointsFrom(rule, ValuesOf(side, edges), y0, y)
  }

  lemma StepBegins(rule: Rule, edges: seq<Edge>, side: map<Edge, Side>, y: int)
    requires Keyed(side, edges)
    ensures InStep(rule, [], [], edges, side, y, y)
  {
  }

  /** The edges that are drawn on a scanline. */
  function DrawnEdges(rule: Rule, row: seq<Edge>, side: map<Edge, Side>): (ws: seq<Edge>)
    requires rule == WindingNumber ==> Keyed(Ways(row, side), row)
    ensures forall e :: e in ws ==> e in row
  {
    if rule == EvenOdd then row else Crossings(Ways(row, side), row)
  }

  /** One scanline keeps step. */
  lemma StepTaken(rule: Rule, act: seq<Edge>, row: seq<Edge>, out: seq<Edge>, pts: seq<Point>, pts': seq<Point>,
                  edges: seq<Edge>, side: map<Edge, Side>, y0: int, y: int)
    requires y0 <= y && InStep(rule, act, pts, edges, side, y0, y) && Loaded(row, edges, side, y)
    requires RowIs(row, act, edges, side, y) && NextIs(out, row, edges, side, y)
    requires (rule == WindingNumber ==> Keyed(Ways(row, side), row)) && Keyed(Crossing(edges, side, y), DrawnEdges(rule, row, side))
    requires pts' == pts + PointsOf(ValuesOf(Crossing(edges, side, y), DrawnEdges(rule, row, side)), y)
    ensures InStep(rule, out, pts', edges, side, y0, y + 1)
  {
    FromSides(act, edges, side);
    FromSides(row, edges, side);
    FromSides(out, edges, side);
    DrawnValues(rule, row, edges, side, y);
  }

  /** The edges drawn are those of the sides at which spans begin or end, and they are drawn where these are. */
  lemma DrawnValues(rule: Rule, row: seq<Edge>, edges: seq<Edge>, side: map<Edge, Side>, y: int)
    requires FromTable(row, edges, side) && Loaded(row, edges, side, y)
    requires (rule == WindingNumber ==> Keyed(Ways(row, side), row)) && Keyed(Crossing(edges, side, y), DrawnEdges(rule, row, side))
    ensures Keyed(side, row) && forall s :: s in ValuesOf(side, row) ==> s in ValuesOf(side, edges)
    ensures ValuesOf(Crossing(edges, side, y), DrawnEdges(rule, row, side)) ==
            ValuesOf(XOf(ValuesOf(side, edges), y), Ends(rule, ValuesOf(side, edges), ValuesOf(side, row)))
  {
    FromSides(row, edges, side);
    EndsAre(rule, row, edges, side);
    XsAre(DrawnEdges(rule, row, side), edges, side, y);
  }

  lemma EndsAre(rule: Rule, row: seq<Edge>, edges: seq<Edge>, side: map<Edge, Side>)
    requires FromTable(row, edges, side) && (rule == WindingNumber ==> Keyed(Ways(row, side), row))
    ensures Keyed(side, row) && (forall s :: s in ValuesOf(side, row) ==> s in ValuesOf(side, edges)) && Keyed(side, DrawnEdges(rule, row, side))
    ensures ValuesOf(side, DrawnEdges(rule, row, side)) == Ends(rule, ValuesOf(side, edges), ValuesOf(side, row))
  {
    FromSides(row, edges, side);
    if rule == WindingNumber {
      SideWays(row, edges, side);
      CrossingValues(side, Ways(row, side), WayOf(ValuesOf(side, edges)), row);
    }
  }

  lemma XsAre(ws: seq<Edge>, edges: seq<Edge>, side: map<Edge, Side>, y: int)
    requires FromTable(ws, edges, side) && Keyed(Crossing(edges, side, y), ws)
    ensures Keyed(side, ws) && Keyed(XOf(ValuesOf(side, edges), y), ValuesOf(side, ws))
    ensures ValuesOf(Crossing(edges, side, y), ws) == ValuesOf(XOf(ValuesOf(side, edges), y), ValuesOf(side, ws))
  {
    FromSides(ws, edges, side);
    var key, xs, vs := Crossing(edges, side, y), XOf(ValuesOf(side, edges), y), ValuesOf(side, ws);
    forall i | 0 <= i < |ws|
      ensures vs[i] in xs && key[ws[i]] == xs[vs[i]]
    {
      assert ws[i] in ws && vs[i] in vs;
    }
  }

  lemma SideWays(row: seq<Edge>, edges: seq<Edge>, side: map<Edge, Side>)
    requires FromTable(row, edges, side) && Keyed(Ways(row, side), row)
    ensures forall e :: e in row ==> e in side && side[e] in WayOf(ValuesOf(side, edges)) && Ways(row, side)[e] == WayOf(ValuesOf(side, edges))[side[e]]
  {
    FromSides(row, edges, side);
    forall e | e in row
      ensures e in side && side[e] in ValuesOf(side, edges)
    {
      var i :| 0 <= i < |row| && row[i] == e;
      assert ValuesOf(side, row)[i] == side[e];
    }
  }
}
