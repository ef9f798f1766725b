/** From the points of the scan to boxes (PtsToRegion, libX11 PolyReg.c). */
module PolygonSpans {
  import opened Boxes
  import opened PolygonBands
  import opened PolygonRule
  import opened SpanRows

  const MAXSHORT: int := 32767

  const MINSHORT: int := -MAXSHORT

  /** (px, py) is in the span from point 2 * j to the next. */
  predicate InPair(pts: seq<Point>, j: nat, px: int, py: int) {
    2 * j + 1 < |pts| && pts[2 * j].y == py && pts[2 * j].x <= px < pts[2 * j + 1].x
  }

  ghost predicate InPairs(pts: seq<Point>, n: nat, px: int, py: int) { exists j: nat :: j < n && InPair(pts, j, px, py) }

  /** The boxes are those of the first n spans. */
  ghost predicate SpansAre(rects: seq<Box>, pts: seq<Point>, n: nat) {
    forall px, py :: In(rects, px, py) <==> InPairs(pts, n, px, py)
  }

  // ---------- points, row by row ----------

  ghost predicate InSpans(s: seq<Span>, x: int) { exists i :: 0 <= i < |s| && s[i].x1 <= x < s[i].x2 }

  lemma SpansSnoc(s: seq<Span>, t: Span, x: int)
    ensures InSpans(s + [t], x) <==> InSpans(s, x) || t.x1 <= x < t.x2
  {
    var u := s + [t];
    if InSpans(s, x) {
      var i :| 0 <= i < |s| && s[i].x1 <= x < s[i].x2;
      assert u[i].x1 <= x < u[i].x2;
    }
    assert u[|s|] == t;
  }

  lemma {:induction false} InColumns(R: seq<Box>, x: int, y: int)
    ensures In(R, x, y) <==> InSpans(Columns(R, y), x)
  {
    if R != [] {
      var F, b := R[..|R| - 1], R[|R| - 1];
      InColumns(F, x, y);
      if HasRow(b, y) { SpansSnoc(Columns(F, y), SpanOf(b), x); } else { assert Columns(R, y) == Columns(F, y); }
      if In(F, x, y) {
        var k :| 0 <= k < |F| && InBox(F[k], x, y);
        assert InBox(R[k], x, y);
      }
      if In(R, x, y) && !InBox(b, x, y) {
        var k :| 0 <= k < |R| && InBox(R[k], x, y);
        assert InBox(F[k], x, y);
      }
    }
  }

  lemma {:induction false} InRow(pts: seq<Point>, n: nat, x: int, y: int)
    requires 2 * n <= |pts|
    ensures InPairs(pts, n, x, y) <==> InSpans(Row(pts, n, y), x)
  {
    if n > 0 {
      var m := n - 1;
      InRow(pts, m, x, y);
      if PairOn(pts, m, y) { SpansSnoc(Row(pts, m, y), PairSpan(pts, m), x); } else { assert Row(pts, n, y) == Row(pts, m, y); }
      if InPair(pts, m, x, y) { assert InPairs(pts, n, x, y); }
      if InPairs(pts, m, x, y) {
        var j: nat :| j < m && InPair(pts, j, x, y);
        assert j < n && InPair(pts, j, x, y);
      }
    }
  }

  lemma PointsOfBands(rects: seq<Box>, pts: seq<Point>, n: nat)
    requires 2 * n <= |pts| && BandsOf(rects, pts, n)
    ensures SpansAre(rects, pts, n)
  {
    forall px, py
      ensures In(rects, px, py) <==> InPairs(pts, n, px, py)
    {
      InColumns(rects, px, py);
      InRow(pts, n, px, py);
      assert Columns(rects, py) == Row(pts, n, py);
    }
  }

  // ---------- extents ----------

  /** Their extents: l and r are boxes furthest left and right. */
  predicate Spans(rects: seq<Box>, x1: int, x2: int, l: int, r: int) {
    rects != [] ==>
      && 0 <= l < |rects| && 0 <= r < |rects| && rects[l].x1 == x1 && rects[r].x2 == x2
      && forall k :: 0 <= k < |rects| ==> x1 <= rects[k].x1 && rects[k].x2 <= x2
  }

  lemma ExtentsOf(rects: seq<Box>, x1: int, x2: int, l: int, r: int)
    requires rects != [] && Banded(rects) && Spans(rects, x1, x2, l, r)
    ensures Bounds(rects, Box(x1, x2, rects[0].y1, rects[|rects| - 1].y2))
  {
    var e := Box(x1, x2, rects[0].y1, rects[|rects| - 1].y2);
    forall k | 0 <= k < |rects|
      ensures e.y1 <= rects[k].y1 && rects[k].y2 <= e.y2
    {
      assert k == 0 || InOrder(rects[0], rects[k]);
      assert k == |rects| - 1 || InOrder(rects[k], rects[|rects| - 1]);
    }
    Corner(rects, l);
    Corner(rects, r);
    Corner(rects, 0);
    Corner(rects, |rects| - 1);
  }

  lemma Corner(rects: seq<Box>, k: nat)
    requires Banded(rects) && k < |rects|
    ensures In(rects, rects[k].x1, rects[k].y1) && In(rects, rects[k].x2 - 1, rects[k].y2 - 1)
  {
    assert InBox(rects[k], rects[k].x1, rects[k].y1) && InBox(rects[k], rects[k].x2 - 1, rects[k].y2 - 1);
  }

  /** The last box is taken into the extents. */
  method TakeIn(rects: seq<Box>, x1: int, x2: int, ghost l: int, ghost r: int)
    returns (newX1: int, newX2: int, ghost newL: int, ghost newR: int)
    requires rects != [] && Spans(rects[..|rects| - 1], x1, x2, l, r)
    requires |rects| == 1 ==> x1 == MAXSHORT && x2 == MINSHORT && rects[0].x1 <= 0x7fff && rects[0].x2 > -0x8000
    ensures Spans(rects, newX1, newX2, newL, newR)
  {
    var b := rects[|rects| - 1];
    newX1, newX2, newL, newR := x1, x2, l, r;
    if b.x1 < x1 {
      newX1 := b.x1;
    }
    newL := if b.x1 < x1 || |rects| == 1 then |rects| - 1 else l;
    newR := if b.x2 > x2 || |rects| == 1 then |rects| - 1 else r;
    if b.x2 > x2 {
      newX2 := b.x2;
    }
    assert forall k :: 0 <= k < |rects| - 1 ==> rects[k] == rects[..|rects| - 1][k];
  }

  // ---------- the boxes ----------

  /** The span of a pair enters the boxes. */
  method EnterSpan(rects: seq<Box>, pts: seq<Point>, k: nat) returns (rects': seq<Box>, grown: bool)
    requires 2 * k + 1 < |pts| && Paired(pts) && BandsOf(rects, pts, k)
    ensures BandsOf(rects', pts, k + 1)
    ensures grown ==> rects' == rects + [SpanBox(pts[2 * k], pts[2 * k + 1])] && pts[2 * k].x < pts[2 * k + 1].x
    ensures !grown ==> |rects'| == |rects| && forall j :: 0 <= j < |rects| ==> SpanOf(rects'[j]) == SpanOf(rects[j])
  {
    var p, q := pts[2 * k], pts[2 * k + 1];
    assert PairAt(pts[2 * k], pts[2 * k + 1]);
    grown := false;
    if p.x == q.x {
      rects' := rects;
      EmptyPair(rects, pts, k);
    } else if GrowsLast(rects, pts, k) {
      BoxTaller(rects, pts, k, p.y);
      rects' := Taller(rects, q.y + 1);
    } else {
      grown := true;
      GrowsIff(rects, pts, k, p.y);
      BoxAppended(rects, pts, k, p.y);
      rects' := rects + [SpanBox(p, q)];
    }
  }

  /** One turn of the loop of PtsToRegion: the boxes and their extents. */
  method NextSpan(rects: seq<Box>, pts: seq<Point>, k: nat, x1: int, x2: int, ghost l: int, ghost r: int)
    returns (rects': seq<Box>, newX1: int, newX2: int, ghost newL: int, ghost newR: int)
    requires 2 * k + 1 < |pts| && Paired(pts) && BandsOf(rects, pts, k) && Taken(rects, x1, x2, l, r)
    requires forall i :: 0 <= i < |pts| ==> -0x8000 <= pts[i].x <= 0x7fff
    ensures BandsOf(rects', pts, k + 1) && Taken(rects', newX1, newX2, newL, newR)
  {
    var grown;
    rects', grown := EnterSpan(rects, pts, k);
    newX1, newX2, newL, newR := x1, x2, l, r;
    if grown {
      assert rects'[..|rects'| - 1] == rects;
      newX1, newX2, newL, newR := TakeIn(rects', x1, x2, l, r);
    } else {
      SameSpansTaken(rects, rects', x1, x2, l, r);
    }
  }

  /** The extents so far. */
  predicate Taken(rects: seq<Box>, x1: int, x2: int, l: int, r: int) {
    Spans(rects, x1, x2, l, r) && (rects == [] ==> x1 == MAXSHORT && x2 == MINSHORT)
  }

  /** PtsToRegion: the boxes of the spans and their extents. The boxes are in bands, and canonical exactly if the
      points are tidy. */
  method PtsToRegion(pts: seq<Point>) returns (rects: seq<Box>, extents: Box)
    requires Paired(pts) && forall i :: 0 <= i < |pts| ==> -0x8000 <= pts[i].x <= 0x7fff
    ensures SpansAre(rects, pts, |pts| / 2) && Bounds(rects, extents) && (rects == [] ==> extents == Box(0, 0, 0, 0))
    ensures Banded(rects) && (Canonical(rects) <==> Tidy(pts))
  {
    rects := [];
    var x1, x2 := MAXSHORT, MINSHORT;
    ghost var l, r := 0, 0;
    NoBands(pts);
    for k := 0 to |pts| / 2
      invariant BandsOf(rects, pts, k) && Taken(rects, x1, x2, l, r)
    {
      rects, x1, x2, l, r := NextSpan(rects, pts, k, x1, x2, l, r);
    }
    PointsOfBands(rects, pts, |pts| / 2);
    CanonicalIfTidy(rects, pts);
    if rects != [] {
      extents := Box(x1, x2, rects[0].y1, rects[|rects| - 1].y2);
      ExtentsOf(rects, x1, x2, l, r);
    } else {
      extents := Box(0, 0, 0, 0);
    }
  }

  lemma NoBands(pts: seq<Point>)
    ensures BandsOf([], pts, 0)
  {
  }

  lemma SameSpansTaken(rects: seq<Box>, rects': seq<Box>, x1: int, x2: int, l: int, r: int)
    requires Spans(rects, x1, x2, l, r) && |rects'| == |rects|
    requires forall j :: 0 <= j < |rects| ==> SpanOf(rects'[j]) == SpanOf(rects[j])
    ensures Spans(rects', x1, x2, l, r)
  {
    assert forall k :: 0 <= k < |rects| ==> SpanOf(rects'[k]) == SpanOf(rects[k]) && rects'[k].x1 == SpanOf(rects'[k]).x1;
  }
}
