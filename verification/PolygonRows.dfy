/** Rows of spans, and what they say about the points of a polygon. */
module PolygonRows {
  import opened EdgeList
  import opened EdgeOrder
  import opened PolygonBands
  import opened PolygonLoop
  import opened PolygonRule
  import opened PolygonScan
  import opened PolygonSpans
  import opened PolygonState
  import opened Tally

  // ---------- rows of points ----------

  /** The points of the scanlines above y, which delimit the inside of the polygon there. */
  ghost predicate Scanned(pts: seq<Point>, rule: Rule, sides: seq<Side>, y: int) {
    && Paired(pts) && (forall i :: 0 <= i < |pts| ==> pts[i].y < y)
    && forall px, py :: py < y ==> (InPairs(pts, |pts| / 2, px, py) <==> Inside(rule, sides, px, py))
  }

  lemma RowPaired(pts: seq<Point>, xs: seq<int>, y: int)
    requires Paired(pts) && |xs| % 2 == 0 && Ascending(xs) && forall i :: 0 <= i < |pts| ==> pts[i].y < y
    ensures Paired(pts + PointsOf(xs, y))
  {
    var all := pts + PointsOf(xs, y);
    forall j: nat | 2 * j + 1 < |all|
      ensures PairAt(all[2 * j], all[2 * j + 1])
    {
      if 2 * j < |pts| {
        assert PairAt(pts[2 * j], pts[2 * j + 1]);
      } else {
        var k := 2 * j - |pts|;
        assert all[2 * j] == Point(xs[k], y) && all[2 * j + 1] == Point(xs[k + 1], y);
      }
    }
    forall i, j | 0 <= i < j < |all|
      ensures NotBefore(all[i], all[j])
    {
      if j < |pts| { assert NotBefore(pts[i], pts[j]); }
    }
  }

  lemma RowPoints(pts: seq<Point>, xs: seq<int>, y: int, px: int, py: int)
    requires |pts| % 2 == 0 && |xs| % 2 == 0 && forall i :: 0 <= i < |pts| ==> pts[i].y < y
    ensures var all := pts + PointsOf(xs, y);
      InPairs(all, |all| / 2, px, py) <==> if py == y then InSpan(xs, px) else InPairs(pts, |pts| / 2, px, py)
  {
    var all := pts + PointsOf(xs, y);
    var n := |pts| / 2;
    if InPairs(all, |all| / 2, px, py) {
      var j: nat :| j < |all| / 2 && InPair(all, j, px, py);
      if j < n {
        assert InPair(pts, j, px, py);
      } else {
        var k: nat := j - n;
        assert IsSpan(xs, px, k);
      }
    }
    if py == y && InSpan(xs, px) {
      var k: nat :| IsSpan(xs, px, k);
      var j: nat := n + k;
      assert InPair(all, j, px, py);
    }
    if InPairs(pts, n, px, py) {
      var j: nat :| j < n && InPair(pts, j, px, py);
      assert InPair(all, j, px, py);
    }
  }

  /** A row that delimits the inside on scanline y is added to those above. */
  lemma RowScanned(pts: seq<Point>, xs: seq<int>, y: int, rule: Rule, sides: seq<Side>)
    requires Scanned(pts, rule, sides, y) && |xs| % 2 == 0 && Ascending(xs)
    requires forall px :: InSpan(xs, px) <==> Inside(rule, sides, px, y)
    ensures Scanned(pts + PointsOf(xs, y), rule, sides, y + 1)
  {
    RowPaired(pts, xs, y);
    var all := pts + PointsOf(xs, y);
    forall px, py | py < y + 1
      ensures InPairs(all, |all| / 2, px, py) <==> Inside(rule, sides, px, py)
    {
      RowPoints(pts, xs, y, px, py);
    }
  }

  // ---------- how many points ----------

  /** One for each point of scanline py at or left of px. */
  function LeftPoint(px: int, py: int): Point -> int { (p: Point) => if p.y == py && p.x <= px then 1 else 0 }

  /** Above scanline y there is a point for every side, where it crosses: as many points are at or left of px as
      sides are. */
  ghost predicate PointForSide(pts: seq<Point>, sides: seq<Side>, y: int) {
    forall px, py :: py < y ==> Sum(LeftPoint(px, py), pts) == Sum(Crossed(px, py), sides)
  }

  lemma {:induction false} NoneOnScanline(pts: seq<Point>, px: int, py: int)
    requires forall i :: 0 <= i < |pts| ==> pts[i].y != py
    ensures Sum(LeftPoint(px, py), pts) == 0
  {
    if pts != [] { NoneOnScanline(pts[..|pts| - 1], px, py); }
  }

  lemma {:induction false} CountOfRow(xs: seq<int>, y: int, px: int)
    ensures Sum(LeftPoint(px, y), PointsOf(xs, y)) == UpTo(xs, px)
  {
    if xs != [] {
      CountOfRow(xs[..|xs| - 1], y, px);
      assert PointsOf(xs, y)[..|xs| - 1] == PointsOf(xs[..|xs| - 1], y);
    }
  }

  lemma RowCounted(pts: seq<Point>, xs: seq<int>, y: int, sides: seq<Side>)
    requires PointForSide(pts, sides, y) && forall i :: 0 <= i < |pts| ==> pts[i].y < y
    requires forall px :: UpTo(xs, px) == Sum(Crossed(px, y), sides)
    ensures PointForSide(pts + PointsOf(xs, y), sides, y + 1)
  {
    var row := PointsOf(xs, y);
    forall px, py | py < y + 1
      ensures Sum(LeftPoint(px, py), pts + row) == Sum(Crossed(px, py), sides)
    {
      SumJoin(LeftPoint(px, py), pts, row);
      if py == y {
        NoneOnScanline(pts, px, py);
        CountOfRow(xs, y, px);
      } else {
        NoneOnScanline(row, px, py);
      }
    }
  }

  ghost predicate SameCounts(a: seq<Point>, b: seq<Point>) {
    forall px, py :: Sum(LeftPoint(px, py), a) == Sum(LeftPoint(px, py), b)
  }

  lemma {:induction false} SomePoint(pts: seq<Point>, px: int, py: int) returns (i: nat)
    requires Sum(LeftPoint(px, py), pts) != 0
    ensures i < |pts| && pts[i].y == py && pts[i].x <= px
  {
    var n := |pts| - 1;
    if LeftPoint(px, py)(pts[n]) == 1 { i := n; } else { i := SomePoint(pts[..n], px, py); }
  }

  lemma {:induction false} CountsArePositive(pts: seq<Point>, px: int, py: int)
    ensures Sum(LeftPoint(px, py), pts) >= 0
  {
    if pts != [] { CountsArePositive(pts[..|pts| - 1], px, py); }
  }

  lemma CountFront(pts: seq<Point>, px: int, py: int)
    requires pts != []
    ensures Sum(LeftPoint(px, py), pts) == LeftPoint(px, py)(pts[0]) + Sum(LeftPoint(px, py), pts[1..])
  {
    SumJoin(LeftPoint(px, py), [pts[0]], pts[1..]);
    assert pts == [pts[0]] + pts[1..] && [pts[0]][..0] == [];
  }

  ghost predicate PointsInOrder(pts: seq<Point>) {
    forall i, j {:trigger NotBefore(pts[i], pts[j])} :: 0 <= i < j < |pts| ==> NotBefore(pts[i], pts[j])
  }

  /** The first point of b is not after that of a. */
  lemma FirstPoint(a: seq<Point>, b: seq<Point>)
    requires PointsInOrder(b) && SameCounts(a, b) && a != []
    ensures b != [] && (b[0] == a[0] || NotBefore(b[0], a[0]))
  {
    var p := a[0];
    CountFront(a, p.x, p.y);
    CountsArePositive(a[1..], p.x, p.y);
    assert Sum(LeftPoint(p.x, p.y), b) == Sum(LeftPoint(p.x, p.y), a);
    var i := SomePoint(b, p.x, p.y);
    if i > 0 { assert NotBefore(b[0], b[i]); }
  }

  /** Points in order are determined by how many there are, so by the sides of the polygon. */
  lemma {:induction false} PointsUnique(a: seq<Point>, b: seq<Point>)
    requires PointsInOrder(a) && PointsInOrder(b) && SameCounts(a, b)
    ensures a == b
  {
    if a != [] {
      FirstPoint(a, b);
      FirstPoint(b, a);
      var s, t := a[1..], b[1..];
      forall px, py
        ensures Sum(LeftPoint(px, py), s) == Sum(LeftPoint(px, py), t)
      {
        CountFront(a, px, py);
        CountFront(b, px, py);
        assert Sum(LeftPoint(px, py), a) == Sum(LeftPoint(px, py), b);
      }
      forall i, j | 0 <= i < j < |s| ensures NotBefore(s[i], s[j]) { assert NotBefore(a[i + 1], a[j + 1]); }
      forall i, j | 0 <= i < j < |t| ensures NotBefore(t[i], t[j]) { assert NotBefore(b[i + 1], b[j + 1]); }
      PointsUnique(s, t);
      assert a == [a[0]] + s && b == [b[0]] + t;
    } else if b != [] {
      FirstPoint(b, a);
    }
  }

  // ---------- rows of edges ----------

  lemma LoadedDrawn(row: seq<Edge>, edges: seq<Edge>, side: map<Edge, Side>, y: int)
    requires Loaded(row, edges, side, y)
    ensures Keyed(Crossing(edges, side, y), row) && Sorted(Crossing(edges, side, y), row)
    ensures Drawn(row, side, Crossing(edges, side, y), Ways(row, side), y)
  {
    CrossingHas(edges, side, y, row);
    forall i | 0 <= i < |row|
      ensures row[i] in row && side[row[i]].Valid()
    {
    }
  }

  /** The edges of a scanline delimit the inside by the even-odd rule. */
  lemma EvenOddRow(row: seq<Edge>, edges: seq<Edge>, side: map<Edge, Side>, y: int)
    requires Loaded(row, edges, side, y) && Sum(Turning(y), ValuesOf(side, edges)) == 0
    ensures Keyed(Crossing(edges, side, y), row)
    ensures var xs := ValuesOf(Crossing(edges, side, y), row);
      |xs| % 2 == 0 && Ascending(xs) && forall px :: InSpan(xs, px) <==> Inside(EvenOdd, ValuesOf(side, edges), px, y)
    ensures forall px :: UpTo(ValuesOf(Crossing(edges, side, y), row), px) == Sum(Crossed(px, y), ValuesOf(side, edges))
  {
    LoadedDrawn(row, edges, side, y);
    var key := Crossing(edges, side, y);
    AscendingXs(key, row);
    EvenOddSpans(row, edges, side, key, Ways(row, side), y, 0);
    forall px
      ensures InSpan(ValuesOf(key, row), px) <==> Inside(EvenOdd, ValuesOf(side, edges), px, y)
    {
      EvenOddSpans(row, edges, side, key, Ways(row, side), y, px);
    }
    forall px
      ensures UpTo(ValuesOf(key, row), px) == Sum(Crossed(px, y), ValuesOf(side, edges))
    {
      CountLeft(row, side, key, Ways(row, side), y, px);
      SumOnScanline(row, edges, side, y, Crossed(px, y));
    }
  }

  /** Its winding edges do by the winding number rule. */
  lemma WindingRow(row: seq<Edge>, edges: seq<Edge>, side: map<Edge, Side>, y: int)
    requires Loaded(row, edges, side, y) && Sum(Turning(y), ValuesOf(side, edges)) == 0
    ensures Keyed(Ways(row, side), row) && Keyed(Crossing(edges, side, y), Crossings(Ways(row, side), row))
    ensures var xs := ValuesOf(Crossing(edges, side, y), Crossings(Ways(row, side), row));
      |xs| % 2 == 0 && Ascending(xs) && forall px :: InSpan(xs, px) <==> Inside(WindingNumber, ValuesOf(side, edges), px, y)
  {
    LoadedDrawn(row, edges, side, y);
    var key, ways := Crossing(edges, side, y), Ways(row, side);
    CrossingsSorted(key, ways, row);
    AscendingXs(key, Crossings(ways, row));
    WindingSpans(row, edges, side, key, ways, y, 0);
    forall px
      ensures InSpan(ValuesOf(key, Crossings(ways, row)), px) <==> Inside(WindingNumber, ValuesOf(side, edges), px, y)
    {
      WindingSpans(row, edges, side, key, ways, y, px);
    }
  }

  // ---------- scanlines without sides ----------

  /** All sides that meet the scanline go the same way. */
  predicate OneWay(sides: seq<Side>, y: int, clockwise: bool) {
    forall i :: 0 <= i < |sides| && sides[i].Meets(y) ==> sides[i].clockwise == clockwise
  }

  lemma {:induction false} OneWaySum(sides: seq<Side>, y: int, clockwise: bool)
    requires OneWay(sides, y, clockwise)
    ensures if clockwise then Sum(Turning(y), sides) >= 0 else Sum(Turning(y), sides) <= 0
    ensures Sum(Turning(y), sides) == 0 ==> forall i :: 0 <= i < |sides| ==> !sides[i].Meets(y)
  {
    if sides != [] {
      OneWaySum(sides[..|sides| - 1], y, clockwise);
    }
  }

  lemma {:induction false} NobodyMeets(sides: seq<Side>, y: int, px: int)
    requires forall i :: 0 <= i < |sides| ==> !sides[i].Meets(y)
    ensures Sum(Crossed(px, y), sides) == 0 && Sum(Turned(px, y), sides) == 0
  {
    if sides != [] { NobodyMeets(sides[..|sides| - 1], y, px); }
  }
}
