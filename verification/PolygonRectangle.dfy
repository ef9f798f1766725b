/** Polygons that are rectangles, for which no edge table is made (XPolygonRegion, libX11 PolyReg.c). */
module PolygonRectangle {
  import opened Arith
  import opened Boxes
  import opened PolygonRule
  import opened Tally

  /** The side from the first corner to the second is level. */
  predicate LevelFirst(pts: seq<Point>)
    requires |pts| >= 4
  {
    pts[0].y == pts[1].y && pts[1].x == pts[2].x && pts[2].y == pts[3].y && pts[3].x == pts[0].x
  }

  /** Four corners, or five of which the last is the first, along the axes. */
  predicate IsRectangle(pts: seq<Point>) {
    && (|pts| == 4 || (|pts| == 5 && pts[4] == pts[0]))
    && (LevelFirst(pts)
        || (pts[0].x == pts[1].x && pts[1].y == pts[2].y && pts[2].x == pts[3].x && pts[3].y == pts[0].y))
  }

  /** The corners in one of the two directions, starting anywhere. */
  predicate Around(pts: seq<Point>, x1: int, y1: int, x2: int, y2: int) {
    pts == [Point(x1, y1), Point(x2, y1), Point(x2, y2), Point(x1, y2)] || pts == [Point(x1, y1), Point(x1, y2), Point(x2, y2), Point(x2, y1)]
  }

  /** The points go once around the rectangle between x1, x2 and y1, y2; the first corner may be repeated at the end. */
  predicate GoesAround(pts: seq<Point>, x1: int, y1: int, x2: int, y2: int) {
    |pts| >= 4 && Around(pts[..4], x1, y1, x2, y2) && (pts == pts[..4] || pts == pts[..4] + [pts[0]])
  }

  lemma RectangleIff(pts: seq<Point>)
    ensures IsRectangle(pts) <==> exists x1, y1, x2, y2 :: GoesAround(pts, x1, y1, x2, y2)
  {
    if IsRectangle(pts) {
      assert pts == if |pts| == 4 then pts[..4] else pts[..4] + [pts[0]];
      var p, q := pts[0], pts[2];
      assert Around(pts[..4], p.x, p.y, q.x, q.y);
      assert GoesAround(pts, p.x, p.y, q.x, q.y);
    }
  }

  /** The box of two opposite corners. */
  function Corners(p: Point, q: Point): Box { Box(Min(p.x, q.x), Max(p.x, q.x), Min(p.y, q.y), Max(p.y, q.y)) }

  /** What the side from p to q adds to a sum. */
  function Adds(f: Side -> int, p: Point, q: Point): int { if p.y == q.y then 0 else f(SideOf(p, q)[0]) }

  lemma SumOfSides(f: Side -> int, pts: seq<Point>, n: nat)
    requires n < |pts|
    ensures Sum(f, Sides(pts, n + 1)) == Sum(f, Sides(pts, n)) + Adds(f, Before(pts, n), pts[n])
  {
    var s := SideOf(Before(pts, n), pts[n]);
    SumJoin(f, Sides(pts, n), s);
    if s != [] { assert s[..0] == []; }
  }

  /** What the first n sides add. */
  function AllAdd(f: Side -> int, pts: seq<Point>, n: nat): int
    requires n <= |pts|
  {
    if n == 0 then 0 else AllAdd(f, pts, n - 1) + Adds(f, Before(pts, n - 1), pts[n - 1])
  }

  /** g grows by what a side adds. */
  predicate Grows(g: nat -> int, f: Side -> int, pts: seq<Point>, i: nat)
    requires i < |pts|
  {
    g(i + 1) == g(i) + Adds(f, Before(pts, i), pts[i])
  }

  lemma {:induction false} Accumulated(f: Side -> int, pts: seq<Point>, n: nat, g: nat -> int)
    requires n <= |pts| && g(0) == 0 && forall i: nat {:trigger Grows(g, f, pts, i)} :: i < n ==> Grows(g, f, pts, i)
    ensures g(n) == AllAdd(f, pts, n)
  {
    if n > 0 {
      Accumulated(f, pts, n - 1, g);
      assert Grows(g, f, pts, n - 1);
    }
  }

  /** The sum over the sides of the first points. */
  function SumTo(f: Side -> int, pts: seq<Point>): nat -> int { (i: nat) => if i <= |pts| then Sum(f, Sides(pts, i)) else 0 }

  lemma SumGrows(f: Side -> int, pts: seq<Point>, i: nat)
    requires i < |pts|
    ensures Grows(SumTo(f, pts), f, pts, i)
  {
    SumOfSides(f, pts, i);
  }

  lemma SumIsAdded(f: Side -> int, pts: seq<Point>, n: nat)
    requires n <= |pts|
    ensures Sum(f, Sides(pts, n)) == AllAdd(f, pts, n)
  {
    var g := SumTo(f, pts);
    forall i: nat | i < n
      ensures Grows(g, f, pts, i)
    {
      SumGrows(f, pts, i);
    }
    Accumulated(f, pts, n, g);
  }

  /** What the upright sides of a rectangle add. */
  function UprightsAdd(f: Side -> int, pts: seq<Point>): int
    requires |pts| >= 4
  {
    if LevelFirst(pts) then Adds(f, pts[1], pts[2]) + Adds(f, pts[3], pts[0]) else Adds(f, pts[0], pts[1]) + Adds(f, pts[2], pts[3])
  }

  /** Only the two upright sides of a rectangle add to a sum. */
  lemma UprightSides(f: Side -> int, pts: seq<Point>)
    requires IsRectangle(pts)
    ensures AllAdd(f, pts, |pts|) == UprightsAdd(f, pts)
  {
    assert AllAdd(f, pts, 1) == Adds(f, pts[|pts| - 1], pts[0]);
    assert AllAdd(f, pts, 2) == AllAdd(f, pts, 1) + Adds(f, pts[0], pts[1]);
    assert AllAdd(f, pts, 3) == AllAdd(f, pts, 2) + Adds(f, pts[1], pts[2]);
    assert AllAdd(f, pts, 4) == AllAdd(f, pts, 3) + Adds(f, pts[2], pts[3]);
    if |pts| == 5 { assert AllAdd(f, pts, 5) == AllAdd(f, pts, 4) + Adds(f, pts[3], pts[4]); }
  }

  lemma UprightLeftOf(s: Side, px: int, py: int)
    requires s.top.x == s.bottom.x
    ensures s.LeftOf(px, py) <==> s.Meets(py) && s.top.x <= px
  {
    if s.Meets(py) {
      assert (py - s.top.y) * (s.bottom.x - s.top.x) == 0;
      var dy := s.bottom.y - s.top.y;
      if s.top.x <= px { MulMonotonic(0, px - s.top.x, dy); } else { MulMonotonic(px - s.top.x, -1, dy); }
    }
  }

  /** What an upright side adds to the counts of a point. */
  lemma UprightAdds(p: Point, q: Point, px: int, py: int)
    requires p.x == q.x
    ensures var met := Min(p.y, q.y) <= py < Max(p.y, q.y) && p.x <= px;
      && Adds(Crossed(px, py), p, q) == (if met then 1 else 0)
      && Adds(Turned(px, py), p, q) == (if !met then 0 else if p.y < q.y then 1 else -1)
  {
    if p.y != q.y { UprightLeftOf(SideOf(p, q)[0], px, py); }
  }

  /** Opposite upright sides go opposite ways, so only between them do they count. */
  lemma OppositeUprights(p: Point, q: Point, r: Point, s: Point, px: int, py: int)
    requires p.x == q.x && r.x == s.x && p.y == s.y && q.y == r.y
    ensures (Adds(Crossed(px, py), p, q) + Adds(Crossed(px, py), r, s)) % 2 == 1 <==> InBox(Corners(p, r), px, py)
    ensures Adds(Turned(px, py), p, q) + Adds(Turned(px, py), r, s) != 0 <==> InBox(Corners(p, r), px, py)
  {
    UprightAdds(p, q, px, py);
    UprightAdds(r, s, px, py);
  }

  lemma RectangleCounts(rule: Rule, pts: seq<Point>, px: int, py: int)
    requires IsRectangle(pts)
    ensures Inside(rule, Sides(pts, |pts|), px, py) <==>
      if rule == EvenOdd then UprightsAdd(Crossed(px, py), pts) % 2 == 1 else UprightsAdd(Turned(px, py), pts) != 0
  {
    UprightSides(Crossed(px, py), pts);
    UprightSides(Turned(px, py), pts);
    SumIsAdded(Crossed(px, py), pts, |pts|);
    SumIsAdded(Turned(px, py), pts, |pts|);
  }

  lemma RectangleBox(pts: seq<Point>, px: int, py: int)
    requires IsRectangle(pts)
    ensures UprightsAdd(Crossed(px, py), pts) % 2 == 1 <==> InBox(Corners(pts[0], pts[2]), px, py)
    ensures UprightsAdd(Turned(px, py), pts) != 0 <==> InBox(Corners(pts[0], pts[2]), px, py)
  {
    if LevelFirst(pts) {
      OppositeUprights(pts[1], pts[2], pts[3], pts[0], px, py);
      assert Corners(pts[1], pts[3]) == Corners(pts[0], pts[2]);
    } else {
      OppositeUprights(pts[0], pts[1], pts[2], pts[3], px, py);
    }
  }

  /** By either rule a rectangle contains the points of its box. */
  lemma RectangleInside(rule: Rule, pts: seq<Point>, px: int, py: int)
    requires IsRectangle(pts)
    ensures Inside(rule, Sides(pts, |pts|), px, py) <==> InBox(Corners(pts[0], pts[2]), px, py)
  {
    RectangleCounts(rule, pts, px, py);
    RectangleBox(pts, px, py);
  }

  /** The box of a rectangle is its region, unless it is empty. */
  method RectangleRegion(pts: seq<Point>, ghost rule: Rule) returns (rects: seq<Box>, extents: Box)
    requires IsRectangle(pts)
    ensures forall px, py :: In(rects, px, py) <==> Inside(rule, Sides(pts, |pts|), px, py)
    ensures Canonical(rects) && Bounds(rects, extents)
    ensures |rects| <= 1 && forall x1, y1, x2, y2 :: GoesAround(pts, x1, y1, x2, y2) ==>
              extents == Box(Min(x1, x2), Max(x1, x2), Min(y1, y2), Max(y1, y2))
  {
    extents := Corners(pts[0], pts[2]);
    rects := [];
    if extents.x1 != extents.x2 && extents.y1 != extents.y2 {
      rects := [extents];
      assert InBox(rects[0], extents.x1, extents.y1) && InBox(rects[0], extents.x2 - 1, extents.y2 - 1);
      assert In(rects, extents.x1, extents.y1) && In(rects, extents.x2 - 1, extents.y2 - 1);
    }
    forall px, py
      ensures In(rects, px, py) <==> Inside(rule, Sides(pts, |pts|), px, py)
    {
      RectangleInside(rule, pts, px, py);
      if rects != [] && InBox(extents, px, py) { assert InBox(rects[0], px, py); }
    }
  }
}
