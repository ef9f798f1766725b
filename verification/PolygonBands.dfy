/** The rows of spans of a polygon, and which of them make the last box taller (PtsToRegion, libX11 PolyReg.c). */
module PolygonBands {
  import opened Boxes
  import opened Sweep
  import opened SpanRows
  import opened PolygonRule

  const NUMPTSTOBUFFER: nat := 200

  /** Points come in pairs, each on a scanline and from left to right, and so do the pairs; the scanlines go down. */
  ghost predicate Paired(pts: seq<Point>) {
    && |pts| % 2 == 0
    && (forall j: nat {:trigger pts[2 * j]} :: 2 * j + 1 < |pts| ==> PairAt(pts[2 * j], pts[2 * j + 1]))
    && (forall i, j {:trigger NotBefore(pts[i], pts[j])} :: 0 <= i < j < |pts| ==> NotBefore(pts[i], pts[j]))
  }

  predicate PairAt(p: Point, q: Point) { p.y == q.y && p.x <= q.x }

  /** q is on a later scanline than p, or not left of it on the same. */
  predicate NotBefore(p: Point, q: Point) { p.y < q.y || (p.y == q.y && p.x <= q.x) }

  /** The box of the span of points p and q, one scanline high. */
  function SpanBox(p: Point, q: Point): Box { Box(p.x, q.x, p.y, q.y + 1) }

  /** The last box, one scanline taller. */
  function Taller(rects: seq<Box>, y2: int): seq<Box>
    requires rects != []
  {
    rects[|rects| - 1 := rects[|rects| - 1].(y2 := y2)]
  }

  /** The test for making the last box taller. */
  predicate GrowsLast(rects: seq<Box>, pts: seq<Point>, k: nat)
    requires 2 * k + 1 < |pts|
  {
    var p, q := pts[2 * k], pts[2 * k + 1];
    && rects != []
    && var b := rects[|rects| - 1];
       && p.x == b.x1 && p.y == b.y2 && q.x == b.x2
       && (|rects| == 1 || rects[|rects| - 2].y1 != b.y1)
       && (k + 1) % (NUMPTSTOBUFFER / 2) != 0 && 2 * k + 2 < |pts| && pts[2 * k + 2].y > q.y
  }

  // ---------- rows ----------

  /** Pair k spans at least one column of scanline y. */
  predicate PairOn(pts: seq<Point>, k: nat, y: int) { 2 * k + 1 < |pts| && pts[2 * k].y == y && pts[2 * k].x < pts[2 * k + 1].x }

  function PairSpan(pts: seq<Point>, k: nat): Span
    requires 2 * k + 1 < |pts|
  {
    Span(pts[2 * k].x, pts[2 * k + 1].x)
  }

  /** The spans on scanline y of the first n pairs, without those that are empty. */
  function Row(pts: seq<Point>, n: nat, y: int): seq<Span>
    requires 2 * n <= |pts|
  {
    if n == 0 then [] else Row(pts, n - 1, y) + if PairOn(pts, n - 1, y) then [PairSpan(pts, n - 1)] else []
  }

  function WholeRow(pts: seq<Point>, y: int): seq<Span> { Row(pts, |pts| / 2, y) }

  /** Pair k of scanline y makes the box of the scanline above taller: both scanlines consist of the same single
      span, the pair is the last of its scanline, more scanlines follow, and it is not the last of its block. */
  predicate GrownAt(pts: seq<Point>, k: nat, y: int) {
    && PairOn(pts, k, y) && |WholeRow(pts, y)| == 1 && WholeRow(pts, y) == WholeRow(pts, y - 1)
    && (k + 1) % (NUMPTSTOBUFFER / 2) != 0 && 2 * k + 2 < |pts| && pts[2 * k + 2].y > y
  }

  ghost predicate Grown(pts: seq<Point>, y: int) { exists k :: GrownAt(pts, k, y) }

  /** The condition for a canonical region: spans of a scanline do not touch, and where a scanline has the spans of
      the one above, it makes the box above taller. */
  ghost predicate Tidy(pts: seq<Point>) {
    && (forall y :: SpacedRow(WholeRow(pts, y)))
    && (forall y :: WholeRow(pts, y) != [] && WholeRow(pts, y) == WholeRow(pts, y - 1) ==> Grown(pts, y))
  }

  lemma {:induction false} RowGrows(pts: seq<Point>, n: nat, m: nat, y: int)
    requires n <= m && 2 * m <= |pts|
    ensures Row(pts, n, y) <= Row(pts, m, y)
  {
    if n < m { RowGrows(pts, n, m - 1, y); }
  }

  lemma PairsInOrder(pts: seq<Point>, k: nat, l: nat)
    requires Paired(pts) && k < l && 2 * l + 1 < |pts|
    ensures NotBefore(pts[2 * k + 1], pts[2 * l]) && pts[2 * k].y == pts[2 * k + 1].y && pts[2 * l].y == pts[2 * l + 1].y
  {
    assert PairAt(pts[2 * k], pts[2 * k + 1]) && PairAt(pts[2 * l], pts[2 * l + 1]);
  }

  /** Later pairs are on later scanlines. */
  lemma {:induction false} RowComplete(pts: seq<Point>, n: nat, m: nat, y: int)
    requires Paired(pts) && n <= m && 2 * m <= |pts| && (2 * n + 1 < |pts| ==> pts[2 * n].y > y)
    ensures Row(pts, n, y) == Row(pts, m, y)
  {
    if n < m {
      RowComplete(pts, n, m - 1, y);
      if n < m - 1 { PairsInOrder(pts, n, m - 1); assert PairAt(pts[2 * n], pts[2 * n + 1]); }
    }
  }

  /** A row of one span has one pair that is not empty. */
  lemma OnePair(pts: seq<Point>, k: nat, l: nat, y: int)
    requires PairOn(pts, k, y) && PairOn(pts, l, y) && |WholeRow(pts, y)| == 1
    ensures k == l
  {
    if k != l {
      var a, b := if k < l then k else l, if k < l then l else k;
      RowGrows(pts, a + 1, b, y);
      RowGrows(pts, b + 1, |pts| / 2, y);
    }
  }

  // ---------- the boxes so far ----------

  /** The boxes have the rows of the first k pairs, are in bands, end no later than the last of these pairs, and are
      tall just where they have grown. */
  ghost predicate BandsOf(rects: seq<Box>, pts: seq<Point>, k: nat)
    requires 2 * k <= |pts|
  {
    && Banded(rects) && RowsOf(rects, pts, k) && TallWhereGrown(rects, pts)
    && (forall i :: 0 <= i < |rects| ==> k > 0 && EndsBy(rects[i], pts[2 * k - 1]))
  }

  ghost predicate RowsOf(rects: seq<Box>, pts: seq<Point>, k: nat)
    requires 2 * k <= |pts|
  {
    forall y :: Columns(rects, y) == Row(pts, k, y)
  }

  ghost predicate TallWhereGrown(rects: seq<Box>, pts: seq<Point>) {
    && (forall i, y :: 0 <= i < |rects| && rects[i].y1 < y < rects[i].y2 ==> Grown(pts, y))
    && (forall i :: 0 <= i < |rects| ==> !Grown(pts, rects[i].y1))
  }

  /** The box ends above the scanline of q, or with it and not right of q. */
  predicate EndsBy(b: Box, q: Point) { b.y2 <= q.y || (b.y2 == q.y + 1 && b.x2 <= q.x) }

  lemma EndsBefore(rects: seq<Box>, pts: seq<Point>, k: nat)
    requires Paired(pts) && 2 * k + 1 < |pts| && BandsOf(rects, pts, k)
    ensures forall i :: 0 <= i < |rects| ==> EndsBy(rects[i], pts[2 * k])
    ensures forall i :: 0 <= i < |rects| ==> EndsBy(rects[i], pts[2 * k + 1])
  {
    assert PairAt(pts[2 * k], pts[2 * k + 1]);
    if k > 0 { assert NotBefore(pts[2 * k - 1], pts[2 * k]); }
  }

  /** An empty span changes nothing. */
  lemma EmptyPair(rects: seq<Box>, pts: seq<Point>, k: nat)
    requires Paired(pts) && 2 * k + 1 < |pts| && BandsOf(rects, pts, k) && pts[2 * k].x == pts[2 * k + 1].x
    ensures BandsOf(rects, pts, k + 1)
  {
    EndsBefore(rects, pts, k);
    EmptyPairRows(rects, pts, k);
  }

  lemma EmptyPairRows(rects: seq<Box>, pts: seq<Point>, k: nat)
    requires 2 * k + 1 < |pts| && RowsOf(rects, pts, k) && pts[2 * k].x == pts[2 * k + 1].x
    ensures RowsOf(rects, pts, k + 1)
  {
    forall y
      ensures Columns(rects, y) == Row(pts, k + 1, y)
    {
      assert Columns(rects, y) == Row(pts, k, y);
    }
  }

  /** No row at or above the scanline of a pair is missing from the boxes, once the pair is the last of its scanline. */
  lemma RowsAbove(rects: seq<Box>, pts: seq<Point>, k: nat, y: int)
    requires Paired(pts) && 2 * k + 1 < |pts| && BandsOf(rects, pts, k) && y < pts[2 * k].y
    ensures WholeRow(pts, y) == Columns(rects, y)
  {
    RowComplete(pts, k, |pts| / 2, y);
    assert Columns(rects, y) == Row(pts, k, y);
  }

  /** The last box covers the only span of the scanline above. */
  lemma LastAbove(rects: seq<Box>, y: int)
    requires Banded(rects) && rects != [] && rects[|rects| - 1].y2 == y
    ensures |Columns(rects, y - 1)| >= 1 && Columns(rects, y - 1)[|Columns(rects, y - 1)| - 1] == SpanOf(rects[|rects| - 1])
    ensures |Columns(rects, y - 1)| == 1 <==> |rects| == 1 || rects[|rects| - 2].y1 != rects[|rects| - 1].y1
  {
    var a := LastBand(rects);
    var cs := Columns(rects, y - 1);
    assert cs == SpansOf(rects, a, |rects|) by { ColumnsOfBand(rects, a, |rects|, y - 1); }
    assert cs[|cs| - 1] == SpanOf(rects[a + (|rects| - a - 1)]);
  }

  lemma LastBand(rects: seq<Box>) returns (a: nat)
    requires Banded(rects) && rects != []
    ensures IsBand(rects, a, |rects|) && rects[a].y1 == rects[|rects| - 1].y1 && rects[a].y2 == rects[|rects| - 1].y2
    ensures a == |rects| - 1 <==> |rects| == 1 || rects[|rects| - 2].y1 != rects[|rects| - 1].y1
  {
    var n, b := |rects| - 1, |rects|;
    a, b := BandOf(rects, n);
    if a < n { BandIsSpanList(rects, a, b); }
  }

  /** The test finds exactly the pairs that make the last box taller. */
  lemma GrowsIff(rects: seq<Box>, pts: seq<Point>, k: nat, y: int)
    requires Paired(pts) && PairOn(pts, k, y) && BandsOf(rects, pts, k)
    ensures GrowsLast(rects, pts, k) <==> GrownAt(pts, k, y)
  {
    if GrowsLast(rects, pts, k) { LastGrows(rects, pts, k, y); }
    if GrownAt(pts, k, y) { GrowsTheLast(rects, pts, k, y); }
  }

  lemma LastGrows(rects: seq<Box>, pts: seq<Point>, k: nat, y: int)
    requires Paired(pts) && PairOn(pts, k, y) && BandsOf(rects, pts, k) && GrowsLast(rects, pts, k)
    ensures GrownAt(pts, k, y)
  {
    assert PairAt(pts[2 * k], pts[2 * k + 1]);
    RowsAbove(rects, pts, k, y - 1);
    LastAbove(rects, y);
    NothingBelow(rects, pts, k, y);
    assert Row(pts, k + 1, y) == [PairSpan(pts, k)];
    RowComplete(pts, k + 1, |pts| / 2, y);
  }

  lemma GrowsTheLast(rects: seq<Box>, pts: seq<Point>, k: nat, y: int)
    requires Paired(pts) && PairOn(pts, k, y) && BandsOf(rects, pts, k) && GrownAt(pts, k, y)
    ensures GrowsLast(rects, pts, k)
  {
    assert PairAt(pts[2 * k], pts[2 * k + 1]);
    RowsAbove(rects, pts, k, y - 1);
    EndsBefore(rects, pts, k);
    RowComplete(pts, k + 1, |pts| / 2, y);
    assert Row(pts, k + 1, y) == Row(pts, k, y) + [PairSpan(pts, k)];
    assert Columns(rects, y) == Row(pts, k, y) == [];
    LastReaches(rects, y);
    LastAbove(rects, y);
    assert WholeRow(pts, y) == [PairSpan(pts, k)];
  }

  lemma NothingBelow(rects: seq<Box>, pts: seq<Point>, k: nat, y: int)
    requires 2 * k <= |pts| && BandsOf(rects, pts, k) && rects != [] && rects[|rects| - 1].y2 == y
    ensures Row(pts, k, y) == []
  {
    forall i | 0 <= i < |rects|
      ensures !HasRow(rects[i], y)
    {
      if i < |rects| - 1 { assert InOrder(rects[i], rects[|rects| - 1]); }
    }
    ColumnsNone(rects, y);
  }

  lemma LastReaches(rects: seq<Box>, y: int)
    requires Banded(rects) && Columns(rects, y) == [] && Columns(rects, y - 1) != []
    requires forall i :: 0 <= i < |rects| ==> rects[i].y2 <= y + 1
    ensures rects != [] && rects[|rects| - 1].y2 == y
  {
    var i := ColumnsMet(rects, y - 1);
    var n := |rects| - 1;
    assert !HasRow(rects[n], y);
    if i < n { assert InOrder(rects[i], rects[n]); }
  }

  // ---------- a span that is not empty ----------

  /** No row has grown on the scanline of a pair that does not make a box taller. */
  lemma NotGrown(pts: seq<Point>, k: nat, y: int)
    requires PairOn(pts, k, y) && !GrownAt(pts, k, y)
    ensures !Grown(pts, y)
  {
    forall l
      ensures !GrownAt(pts, l, y)
    {
      if PairOn(pts, l, y) && |WholeRow(pts, y)| == 1 { OnePair(pts, k, l, y); }
    }
  }

  /** A box that reaches below the top of scanline y starts there, if another pair of the scanline is to come. */
  lemma StartsHere(rects: seq<Box>, pts: seq<Point>, k: nat, y: int, i: nat)
    requires Paired(pts) && PairOn(pts, k, y) && BandsOf(rects, pts, k) && !GrownAt(pts, k, y)
    requires i < |rects| && rects[i].y2 == y + 1
    ensures rects[i].y1 == y
  {
    NotGrown(pts, k, y);
  }

  lemma AppendedInOrder(rects: seq<Box>, pts: seq<Point>, k: nat, y: int, b: Box)
    requires Paired(pts) && PairOn(pts, k, y) && BandsOf(rects, pts, k) && !GrownAt(pts, k, y)
    requires b == SpanBox(pts[2 * k], pts[2 * k + 1])
    ensures forall i, j :: 0 <= i < j < |rects + [b]| ==> InOrder((rects + [b])[i], (rects + [b])[j])
  {
    var N := rects + [b];
    EndsBefore(rects, pts, k);
    forall i, j | 0 <= i < j < |N|
      ensures InOrder(N[i], N[j])
    {
      if j < |rects| {
        assert InOrder(rects[i], rects[j]);
      } else if rects[i].y2 > y {
        StartsHere(rects, pts, k, y, i);
      }
    }
  }

  lemma BoxAppended(rects: seq<Box>, pts: seq<Point>, k: nat, y: int)
    requires Paired(pts) && PairOn(pts, k, y) && BandsOf(rects, pts, k) && !GrownAt(pts, k, y)
    ensures BandsOf(rects + [SpanBox(pts[2 * k], pts[2 * k + 1])], pts, k + 1)
  {
    var b := SpanBox(pts[2 * k], pts[2 * k + 1]);
    var N := rects + [b];
    assert PairAt(pts[2 * k], pts[2 * k + 1]);
    assert Banded(N) by { AppendedInOrder(rects, pts, k, y, b); }
    assert RowsOf(N, pts, k + 1) by { AppendedRows(rects, pts, k, y, b); }
    assert TallWhereGrown(N, pts) by { NotGrown(pts, k, y); }
    EndsBefore(rects, pts, k);
  }

  lemma AppendedRows(rects: seq<Box>, pts: seq<Point>, k: nat, y: int, b: Box)
    requires PairOn(pts, k, y) && RowsOf(rects, pts, k) && PairAt(pts[2 * k], pts[2 * k + 1])
    requires b == SpanBox(pts[2 * k], pts[2 * k + 1])
    ensures RowsOf(rects + [b], pts, k + 1)
  {
    forall z
      ensures Columns(rects + [b], z) == Row(pts, k + 1, z)
    {
      ColumnsSnoc(rects, b, z);
      assert Columns(rects, z) == Row(pts, k, z);
    }
  }

  lemma TallerBanded(rects: seq<Box>, y: int)
    requires Banded(rects) && rects != [] && rects[|rects| - 1].y2 == y
    requires |rects| == 1 || rects[|rects| - 2].y1 != rects[|rects| - 1].y1
    ensures Banded(Taller(rects, y + 1))
  {
    var N, n := Taller(rects, y + 1), |rects| - 1;
    forall i, j | 0 <= i < j < |N|
      ensures InOrder(N[i], N[j])
    {
      assert InOrder(rects[i], rects[j]);
      if i < n - 1 { assert InOrder(rects[i], rects[n - 1]); }
      if n > 0 { assert InOrder(rects[n - 1], rects[n]); }
    }
  }

  lemma TallerColumns(rects: seq<Box>, y: int, z: int)
    requires rects != [] && rects[|rects| - 1].y2 == y && rects[|rects| - 1].y1 < y
    ensures Columns(Taller(rects, y + 1), z) ==
      if z == y then Columns(rects[..|rects| - 1], y) + [SpanOf(rects[|rects| - 1])] else Columns(rects, z)
  {
    var n := |rects| - 1;
    var F, b, N := rects[..n], rects[n], Taller(rects, y + 1);
    assert rects == F + [b] && N == F + [b.(y2 := y + 1)];
    ColumnsSnoc(F, b, z);
    ColumnsSnoc(F, b.(y2 := y + 1), z);
  }

  lemma FrontColumns(rects: seq<Box>, y: int)
    requires rects != [] && !HasRow(rects[|rects| - 1], y)
    ensures Columns(rects[..|rects| - 1], y) == Columns(rects, y)
  {
  }

  lemma TallerRows(rects: seq<Box>, pts: seq<Point>, k: nat, y: int, N: seq<Box>)
    requires Paired(pts) && PairOn(pts, k, y) && BandsOf(rects, pts, k) && GrowsLast(rects, pts, k) && N == Taller(rects, y + 1)
    ensures RowsOf(N, pts, k + 1)
  {
    FrontColumns(rects, y);
    forall z
      ensures Columns(N, z) == Row(pts, k + 1, z)
    {
      TallerColumns(rects, y, z);
      assert Columns(rects, z) == Row(pts, k, z);
    }
  }

  lemma TallerGrown(rects: seq<Box>, pts: seq<Point>, k: nat, y: int, N: seq<Box>)
    requires 2 * k <= |pts| && BandsOf(rects, pts, k) && rects != [] && rects[|rects| - 1].y2 == y && N == Taller(rects, y + 1) && Grown(pts, y)
    ensures TallWhereGrown(N, pts)
  {
    forall i, z | 0 <= i < |N| && N[i].y1 < z < N[i].y2
      ensures Grown(pts, z)
    {
      if i < |rects| - 1 || z != y { assert rects[i].y1 < z < rects[i].y2; }
    }
  }

  lemma BoxTaller(rects: seq<Box>, pts: seq<Point>, k: nat, y: int)
    requires Paired(pts) && PairOn(pts, k, y) && BandsOf(rects, pts, k) && GrowsLast(rects, pts, k)
    ensures BandsOf(Taller(rects, y + 1), pts, k + 1)
  {
    GrowsIff(rects, pts, k, y);
    assert GrownAt(pts, k, y);
    EndsBefore(rects, pts, k);
    assert PairAt(pts[2 * k], pts[2 * k + 1]);
    TallerBanded(rects, y);
    var N := Taller(rects, y + 1);
    TallerRows(rects, pts, k, y, N);
    TallerGrown(rects, pts, k, y, N);
  }

  /** Once all pairs have been entered, the boxes are canonical exactly if the points are tidy. */
  lemma CanonicalIfTidy(rects: seq<Box>, pts: seq<Point>)
    requires BandsOf(rects, pts, |pts| / 2)
    ensures Canonical(rects) <==> Tidy(pts)
  {
    CanonicalIff(rects);
    assert forall y :: Columns(rects, y) == WholeRow(pts, y);
    forall y | WholeRow(pts, y) != []
      ensures Inner(rects, y) <==> Grown(pts, y)
    {
      var k := ColumnsMet(rects, y);
      assert rects[k].y1 == y || rects[k].y1 < y < rects[k].y2;
      if Inner(rects, y) { var i :| 0 <= i < |rects| && rects[i].y1 < y < rects[i].y2; }
    }
  }
}
