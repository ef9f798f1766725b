/** The public region operations (libX11 Region.c). */
module RegionApi {
  import opened Boxes
  import opened Sweep
  import opened SweepSteps
  import opened Region

  // ---------- extents ----------

  lemma BoundsFromBoxes(R: seq<Box>, e: Box, l: nat, r: nat)
    requires Banded(R) && l < |R| && r < |R|
    requires forall k :: 0 <= k < |R| ==> e.x1 <= R[k].x1 && R[k].x2 <= e.x2
    requires R[l].x1 == e.x1 && R[r].x2 == e.x2
    requires e.y1 == R[0].y1 && e.y2 == R[|R| - 1].y2
    ensures Bounds(R, e)
  {
    forall k | 0 <= k < |R|
      ensures e.y1 <= R[k].y1 && R[k].y2 <= e.y2
    {
      if k > 0 { Ordered(R, 0, k); }
      if k < |R| - 1 { assert InOrder(R[k], R[|R| - 1]); }
    }
    BoxIn(R, l);
    BoxIn(R, r);
    BoxIn(R, 0);
    BoxIn(R, |R| - 1);
  }

  /** The corners of a box are points of the region. */
  lemma BoxIn(R: seq<Box>, k: nat)
    requires Banded(R) && k < |R|
    ensures In(R, R[k].x1, R[k].y1) && In(R, R[k].x2 - 1, R[k].y2 - 1)
  {
    assert InBox(R[k], R[k].x1, R[k].y1);
    assert InBox(R[k], R[k].x2 - 1, R[k].y2 - 1);
  }

  lemma ColumnKept(A: seq<Box>, N: seq<Box>, x: int, dx: int, dy: int)
    requires ColumnMet(A, x)
    requires forall x, y :: In(A, x, y) ==> In(N, x + dx, y + dy)
    ensures ColumnMet(N, x + dx)
  {
    var y :| In(A, x, y);
    assert In(N, x + dx, y + dy);
  }

  lemma RowKept(A: seq<Box>, N: seq<Box>, y: int, dx: int, dy: int)
    requires RowMet(A, y)
    requires forall x, y :: In(A, x, y) ==> In(N, x + dx, y + dy)
    ensures RowMet(N, y + dy)
  {
    var x :| In(A, x, y);
    assert In(N, x + dx, y + dy);
  }

  lemma ColumnEither(A: seq<Box>, B: seq<Box>, N: seq<Box>, xa: int, xb: int, x: int)
    requires ColumnMet(A, xa) && ColumnMet(B, xb) && (x == xa || x == xb)
    requires Combined(Union, A, B, N)
    ensures ColumnMet(N, x)
  {
    if x == xa { var y :| In(A, x, y); assert In(N, x, y); } else { var y :| In(B, x, y); assert In(N, x, y); }
  }

  lemma RowEither(A: seq<Box>, B: seq<Box>, N: seq<Box>, ya: int, yb: int, y: int)
    requires RowMet(A, ya) && RowMet(B, yb) && (y == ya || y == yb)
    requires Combined(Union, A, B, N)
    ensures RowMet(N, y)
  {
    if y == ya { var x :| In(A, x, y); assert In(N, x, y); } else { var x :| In(B, x, y); assert In(N, x, y); }
  }

  lemma WithinBoth(A: seq<Box>, a: Box, B: seq<Box>, b: Box, N: seq<Box>, e: Box)
    requires Within(A, a) && Within(B, b) && Encloses(e, a) && Encloses(e, b)
    requires Combined(Union, A, B, N)
    ensures Within(N, e)
  {
    forall x, y | In(N, x, y)
      ensures InBox(e, x, y)
    {
      if In(A, x, y) { assert InBox(a, x, y); } else { assert InBox(b, x, y); }
    }
  }

  lemma UnionColumns(A: seq<Box>, a: Box, B: seq<Box>, b: Box, N: seq<Box>)
    requires Combined(Union, A, B, N)
    requires ColumnMet(A, a.x1) && ColumnMet(A, a.x2 - 1) && ColumnMet(B, b.x1) && ColumnMet(B, b.x2 - 1)
    ensures ColumnMet(N, Min(a.x1, b.x1)) && ColumnMet(N, Max(a.x2, b.x2) - 1)
  {
    ColumnEither(A, B, N, a.x1, b.x1, Min(a.x1, b.x1));
    ColumnEither(A, B, N, a.x2 - 1, b.x2 - 1, Max(a.x2, b.x2) - 1);
  }

  lemma UnionRows(A: seq<Box>, a: Box, B: seq<Box>, b: Box, N: seq<Box>)
    requires Combined(Union, A, B, N)
    requires RowMet(A, a.y1) && RowMet(A, a.y2 - 1) && RowMet(B, b.y1) && RowMet(B, b.y2 - 1)
    ensures RowMet(N, Min(a.y1, b.y1)) && RowMet(N, Max(a.y2, b.y2) - 1)
  {
    RowEither(A, B, N, a.y1, b.y1, Min(a.y1, b.y1));
    RowEither(A, B, N, a.y2 - 1, b.y2 - 1, Max(a.y2, b.y2) - 1);
  }

  lemma BoundsUnion(A: seq<Box>, a: Box, B: seq<Box>, b: Box, N: seq<Box>)
    requires A != [] && B != [] && Bounds(A, a) && Bounds(B, b)
    requires Combined(Union, A, B, N)
    ensures Bounds(N, Box(Min(a.x1, b.x1), Max(a.x2, b.x2), Min(a.y1, b.y1), Max(a.y2, b.y2)))
  {
    UnionColumns(A, a, B, b, N);
    UnionRows(A, a, B, b, N);
    WithinBoth(A, a, B, b, N, Box(Min(a.x1, b.x1), Max(a.x2, b.x2), Min(a.y1, b.y1), Max(a.y2, b.y2)));
  }

  /** A region of one box is its extents. */
  lemma SingleBox(R: seq<Box>, e: Box, x: int, y: int)
    requires Banded(R) && Bounds(R, e) && |R| == 1
    ensures In(R, x, y) <==> InBox(e, x, y)
  {
    BoxIn(R, 0);
    var y0 :| In(R, e.x1, y0);
    var y1 :| In(R, e.x2 - 1, y1);
    var x0 :| In(R, x0, e.y1);
    var x1 :| In(R, x1, e.y2 - 1);
    assert R[0] == e;
  }

  /** Regions whose extents do not overlap have no common point. */
  lemma DisjointExtents(A: seq<Box>, a: Box, B: seq<Box>, b: Box, x: int, y: int)
    requires Bounds(A, a) && Bounds(B, b) && (A == [] || B == [] || !ExtentCheck(a, b))
    ensures !(In(A, x, y) && In(B, x, y))
  {
  }

  /** miSetExtents. */
  method SetExtents(pReg: Region)
    requires Banded(pReg.rects)
    modifies pReg`extents
    ensures Bounds(pReg.rects, pReg.extents)
    ensures pReg.rects == [] ==> pReg.extents == Box(0, 0, 0, 0)
  {
    if |pReg.rects| == 0 {
      pReg.extents := Box(0, 0, 0, 0);
      return;
    }
    var R := pReg.rects;
    var end := |R| - 1;
    pReg.extents := Box(R[0].x1, R[end].x2, R[0].y1, R[end].y2);
    var pBox := 0;
    ghost var l, r := 0, end;
    while pBox <= end
      invariant 0 <= pBox <= |R| && 0 <= l < |R| && 0 <= r < |R|
      invariant pReg.extents.y1 == R[0].y1 && pReg.extents.y2 == R[end].y2
      invariant R[l].x1 == pReg.extents.x1 && R[r].x2 == pReg.extents.x2
      invariant forall k :: 0 <= k < pBox ==> pReg.extents.x1 <= R[k].x1 && R[k].x2 <= pReg.extents.x2
    {
      if R[pBox].x1 < pReg.extents.x1 {
        pReg.extents := pReg.extents.(x1 := R[pBox].x1);
        l := pBox;
      }
      if R[pBox].x2 > pReg.extents.x2 {
        pReg.extents := pReg.extents.(x2 := R[pBox].x2);
        r := pBox;
      }
      pBox := pBox + 1;
    }
    BoundsFromBoxes(R, pReg.extents, l, r);
  }

  // ---------- union, intersection, subtraction, exclusive or ----------

  /** miRegionCopy. */
  method RegionCopy(dstrgn: Region, rgn: Region)
    requires rgn.Valid()
    modifies dstrgn
    ensures dstrgn.Valid() && dstrgn.rects == old(rgn.rects) && dstrgn.extents == old(rgn.extents)
  {
    if dstrgn != rgn {
      dstrgn.rects := rgn.rects;
      dstrgn.extents := rgn.extents;
    }
  }

  predicate Encloses(a: Box, b: Box) {
    a.x1 <= b.x1 && a.y1 <= b.y1 && a.x2 >= b.x2 && a.y2 >= b.y2
  }

  /** XUnionRegion; newReg may be one or both of the sources. */
  method XUnionRegion(reg1: Region, reg2: Region, newReg: Region)
    requires reg1.Valid() && reg2.Valid()
    modifies newReg
    ensures newReg.Valid()
    ensures Combined(Union, old(reg1.rects), old(reg2.rects), newReg.rects)
    ensures old(reg1.rects) == [] && old(reg2.rects) == [] ==> newReg.extents == old(reg2.extents)
    ensures Canonical(old(reg1.rects)) && Canonical(old(reg2.rects)) ==> Canonical(newReg.rects)
  {
    ghost var A, B := reg1.rects, reg2.rects;
    ghost var a, b := reg1.extents, reg2.extents;
    if reg1 == reg2 || |reg1.rects| == 0 {
      if newReg != reg2 { RegionCopy(newReg, reg2); }
      return;
    }
    if |reg2.rects| == 0 {
      if newReg != reg1 { RegionCopy(newReg, reg1); }
      return;
    }
    if |reg1.rects| == 1 && Encloses(reg1.extents, reg2.extents) {
      forall x, y ensures In(A, x, y) <==> In(A, x, y) || In(B, x, y) { SingleBox(A, a, x, y); }
      if newReg != reg1 { RegionCopy(newReg, reg1); }
      return;
    }
    if |reg2.rects| == 1 && Encloses(reg2.extents, reg1.extents) {
      forall x, y ensures In(B, x, y) <==> In(A, x, y) || In(B, x, y) { SingleBox(B, b, x, y); }
      if newReg != reg2 { RegionCopy(newReg, reg2); }
      return;
    }
    newReg.RegionOp(Union, reg1, reg2);
    BoundsUnion(A, a, B, b, newReg.rects);
    newReg.extents := newReg.extents.(x1 := Min(reg1.extents.x1, reg2.extents.x1));
    newReg.extents := newReg.extents.(y1 := Min(reg1.extents.y1, reg2.extents.y1));
    newReg.extents := newReg.extents.(x2 := Max(reg1.extents.x2, reg2.extents.x2));
    newReg.extents := newReg.extents.(y2 := Max(reg1.extents.y2, reg2.extents.y2));
  }

  /** XIntersectRegion; newReg may be one or both of the sources. */
  method XIntersectRegion(reg1: Region, reg2: Region, newReg: Region)
    requires reg1.Valid() && reg2.Valid()
    modifies newReg
    ensures newReg.Valid()
    ensures Combined(Intersect, old(reg1.rects), old(reg2.rects), newReg.rects)
    ensures newReg.rects == [] ==> newReg.extents == Box(0, 0, 0, 0)
    ensures Canonical(old(reg1.rects)) && Canonical(old(reg2.rects)) ==> Canonical(newReg.rects)
  {
    ghost var A, B := reg1.rects, reg2.rects;
    if |reg1.rects| == 0 || |reg2.rects| == 0 || !ExtentCheck(reg1.extents, reg2.extents) {
      forall x, y ensures !(In(A, x, y) && In(B, x, y)) {
        DisjointExtents(A, reg1.extents, B, reg2.extents, x, y);
      }
      newReg.rects := [];
    } else {
      newReg.RegionOp(Intersect, reg1, reg2);
    }
    SetExtents(newReg);
  }

  /** XSubtractRegion; regD may be one or both of the sources. */
  method XSubtractRegion(regM: Region, regS: Region, regD: Region)
    requires regM.Valid() && regS.Valid()
    modifies regD
    ensures regD.Valid()
    ensures Combined(Subtract, old(regM.rects), old(regS.rects), regD.rects)
    ensures regD.rects == [] ==> regD.extents == if old(regM.rects) == [] then old(regM.extents) else Box(0, 0, 0, 0)
    ensures Canonical(old(regM.rects)) && Canonical(old(regS.rects)) ==> Canonical(regD.rects)
  {
    ghost var A, B := regM.rects, regS.rects;
    if |regM.rects| == 0 || |regS.rects| == 0 || !ExtentCheck(regM.extents, regS.extents) {
      forall x, y ensures !(In(A, x, y) && In(B, x, y)) {
        DisjointExtents(A, regM.extents, B, regS.extents, x, y);
      }
      RegionCopy(regD, regM);
      return;
    }
    regD.RegionOp(Subtract, regM, regS);
    SetExtents(regD);
  }

  /** XXorRegion; dr may be one or both of the sources. */
  method XXorRegion(sra: Region, srb: Region, dr: Region)
    requires sra.Valid() && srb.Valid()
    modifies dr
    ensures dr.Valid()
    ensures forall x, y :: In(dr.rects, x, y) <==> (In(old(sra.rects), x, y) != In(old(srb.rects), x, y))
    ensures Canonical(old(sra.rects)) && Canonical(old(srb.rects)) ==> Canonical(dr.rects)
  {
    ghost var A, B := sra.rects, srb.rects;
    var tra := new Region();
    var trb := new Region();
    XSubtractRegion(sra, srb, tra);
    XSubtractRegion(srb, sra, trb);
    ghost var P, Q := tra.rects, trb.rects;
    XUnionRegion(tra, trb, dr);
    forall x, y
      ensures In(dr.rects, x, y) <==> (In(A, x, y) != In(B, x, y))
    {
      assert In(P, x, y) <==> In(A, x, y) && !In(B, x, y);
      assert In(Q, x, y) <==> In(B, x, y) && !In(A, x, y);
    }
  }

  /** XUnionRectWithRegion: an empty rectangle leaves dest alone, even when dest is not source. */
  method XUnionRectWithRegion(x: int, y: int, width: nat, height: nat, source: Region, dest: Region)
    requires source.Valid()
    modifies dest
    ensures width == 0 || height == 0 ==> dest.rects == old(dest.rects) && dest.extents == old(dest.extents)
    ensures width > 0 && height > 0 ==> dest.Valid()
    ensures width > 0 && height > 0 ==>
      forall px, py :: In(dest.rects, px, py) <==>
        InBox(Box(x, x + width, y, y + height), px, py) || In(old(source.rects), px, py)
    ensures width > 0 && height > 0 && Canonical(old(source.rects)) ==> Canonical(dest.rects)
  {
    if width == 0 || height == 0 {
      return;
    }
    var region := new Region();
    region.extents := Box(x, x + width, y, y + height);
    region.rects := [region.extents];
    OneBoxCanonical(region.extents);
    XUnionRegion(region, source, dest);
  }

  lemma OneBoxCanonical(b: Box)
    requires b.x1 < b.x2 && b.y1 < b.y2
    ensures Canonical([b]) && Bounds([b], b)
    ensures forall x, y :: In([b], x, y) <==> InBox(b, x, y)
  {
    assert [b][0] == b;
    forall x, y
      ensures In([b], x, y) <==> InBox(b, x, y)
    {
      if InBox(b, x, y) { assert InBox([b][0], x, y); }
    }
    BoundsFromBoxes([b], b, 0, 0);
  }

  // ---------- translation ----------

  function Moved(b: Box, dx: int, dy: int): Box {
    Box(b.x1 + dx, b.x2 + dx, b.y1 + dy, b.y2 + dy)
  }

  ghost predicate IsMoved(R: seq<Box>, M: seq<Box>, dx: int, dy: int) {
    |M| == |R| && forall k :: 0 <= k < |R| ==> M[k] == Moved(R[k], dx, dy)
  }

  lemma MovedPoint(R: seq<Box>, M: seq<Box>, dx: int, dy: int, x: int, y: int)
    requires IsMoved(R, M, dx, dy)
    ensures In(M, x, y) <==> In(R, x - dx, y - dy)
  {
    if In(M, x, y) {
      var k :| 0 <= k < |M| && InBox(M[k], x, y);
      assert InBox(R[k], x - dx, y - dy);
    }
    if In(R, x - dx, y - dy) {
      var k :| 0 <= k < |R| && InBox(R[k], x - dx, y - dy);
      assert InBox(M[k], x, y);
    }
  }

  lemma MovedBanded(R: seq<Box>, M: seq<Box>, dx: int, dy: int)
    requires Banded(R) && IsMoved(R, M, dx, dy)
    ensures Banded(M)
  {
    forall i, j | 0 <= i < j < |M|
      ensures InOrder(M[i], M[j])
    {
      assert InOrder(R[i], R[j]);
    }
  }

  lemma MovedCanonical(R: seq<Box>, M: seq<Box>, dx: int, dy: int)
    requires Canonical(R) && IsMoved(R, M, dx, dy)
    ensures Canonical(M)
  {
    MovedBanded(R, M, dx, dy);
    forall i, j | 0 <= i < j < |M| && M[i].y1 == M[j].y1
      ensures Gapped(M[i], M[j])
    {
      assert Gapped(R[i], R[j]);
    }
    forall a, b, c | IsBand(M, a, b) && IsBand(M, b, c)
      ensures !Mergeable(M, a, b, c)
    {
      assert IsBand(R, a, b) && IsBand(R, b, c);
      if Mergeable(M, a, b, c) {
        forall i, j | a <= i < b && j - b == i - a
          ensures SameSpan(R[i], R[j])
        {
          assert SameSpan(M[i], M[j]);
        }
        assert Mergeable(R, a, b, c);
      }
    }
  }

  lemma MovedBounds(R: seq<Box>, e: Box, M: seq<Box>, dx: int, dy: int)
    requires Bounds(R, e) && IsMoved(R, M, dx, dy)
    ensures Bounds(M, Moved(e, dx, dy))
  {
    forall x, y
      ensures In(R, x, y) ==> In(M, x + dx, y + dy)
    {
      MovedPoint(R, M, dx, dy, x + dx, y + dy);
    }
    if M != [] {
      var f := Moved(e, dx, dy);
      forall x, y | In(M, x, y)
        ensures InBox(f, x, y)
      {
        MovedPoint(R, M, dx, dy, x, y);
      }
      assert ColumnMet(M, f.x1) by { ColumnKept(R, M, e.x1, dx, dy); }
      assert ColumnMet(M, f.x2 - 1) by { ColumnKept(R, M, e.x2 - 1, dx, dy); }
      assert RowMet(M, f.y1) by { RowKept(R, M, e.y1, dx, dy); }
      assert RowMet(M, f.y2 - 1) by { RowKept(R, M, e.y2 - 1, dx, dy); }
    }
  }

  /** N holds the points of R moved by (dx, dy). */
  ghost predicate Shifted(R: seq<Box>, N: seq<Box>, dx: int, dy: int) {
    forall x, y :: In(N, x, y) <==> In(R, x - dx, y - dy)
  }

  /** XOffsetRegion: translates in place. */
  method XOffsetRegion(pRegion: Region, x: int, y: int)
    requires pRegion.Valid()
    modifies pRegion
    ensures pRegion.Valid()
    ensures Shifted(old(pRegion.rects), pRegion.rects, x, y)
    ensures Canonical(old(pRegion.rects)) ==> Canonical(pRegion.rects)
  {
    ghost var R := pRegion.rects;
    var pbox := 0;
    while pbox < |pRegion.rects|
      invariant 0 <= pbox <= |pRegion.rects| == |R| && pRegion.extents == old(pRegion.extents)
      invariant forall k :: 0 <= k < pbox ==> pRegion.rects[k] == Moved(R[k], x, y)
      invariant forall k :: pbox <= k < |R| ==> pRegion.rects[k] == R[k]
    {
      var b := pRegion.rects[pbox];
      pRegion.rects := pRegion.rects[pbox := Box(b.x1 + x, b.x2 + x, b.y1 + y, b.y2 + y)];
      pbox := pbox + 1;
    }
    var e := pRegion.extents;
    pRegion.extents := Box(e.x1 + x, e.x2 + x, e.y1 + y, e.y2 + y);
    MovedBanded(R, pRegion.rects, x, y);
    if Canonical(R) { MovedCanonical(R, pRegion.rects, x, y); }
    MovedBounds(R, e, pRegion.rects, x, y);
    forall px, py
      ensures In(pRegion.rects, px, py) <==> In(R, px - x, py - y)
    {
      MovedPoint(R, pRegion.rects, x, y, px, py);
    }
  }

  // ---------- queries ----------

  /** XClipBox: the smallest rectangle around the region; around an empty region, one without points. */
  method XClipBox(r: Region) returns (x: int, y: int, width: int, height: int)
    requires r.Valid()
    ensures forall px, py :: In(r.rects, px, py) ==> x <= px < x + width && y <= py < y + height
    ensures forall b :: r.rects != [] && Within(r.rects, b) ==> Encloses(b, Box(x, x + width, y, y + height))
    ensures r.rects == [] ==> width >= 0 && height >= 0 && (width == 0 || height == 0)
  {
    x := r.extents.x1;
    y := r.extents.y1;
    width := r.extents.x2 - r.extents.x1;
    height := r.extents.y2 - r.extents.y1;
    forall b | r.rects != [] && Within(r.rects, b)
      ensures Encloses(b, r.extents)
    {
      BoundsTight(r.rects, r.extents, b);
    }
    assert Within(r.rects, r.extents);
  }

  /** XEmptyRegion. */
  method XEmptyRegion(r: Region) returns (empty: bool)
    requires r.Valid()
    ensures empty <==> forall x, y :: !In(r.rects, x, y)
  {
    empty := |r.rects| == 0;
    if !empty { BoxIn(r.rects, 0); }
  }

  /** Extents are as small as any box around the points. */
  lemma BoundsTight(A: seq<Box>, a: Box, b: Box)
    requires A != [] && Bounds(A, a) && (forall x, y :: In(A, x, y) ==> InBox(b, x, y))
    ensures Encloses(b, a)
  {
    var y0 :| In(A, a.x1, y0);
    var y1 :| In(A, a.x2 - 1, y1);
    var x0 :| In(A, x0, a.y1);
    var x1 :| In(A, x1, a.y2 - 1);
  }

  /** The same boxes have the same extents. */
  lemma SameExtents(A: seq<Box>, a: Box, b: Box)
    requires A != [] && Bounds(A, a) && Bounds(A, b)
    ensures a == b
  {
    BoundsTight(A, a, b);
    BoundsTight(A, b, a);
  }

  /** XEqualRegion: whether two regions are the same boxes, which for canonical regions is whether they have the
      same points. */
  method XEqualRegion(r1: Region, r2: Region) returns (equal: bool)
    requires r1.Valid() && r2.Valid()
    ensures equal <==> r1.rects == r2.rects
    ensures equal ==> SamePoints(r1.rects, r2.rects)
    ensures Canonical(r1.rects) && Canonical(r2.rects) ==> (equal <==> SamePoints(r1.rects, r2.rects))
  {
    if Canonical(r1.rects) && Canonical(r2.rects) && SamePoints(r1.rects, r2.rects) {
      CanonicalUnique(r1.rects, r2.rects);
    }
    if r1.rects == r2.rects != [] { SameExtents(r1.rects, r1.extents, r2.extents); }
    if |r1.rects| != |r2.rects| { return false; }
    else if |r1.rects| == 0 { return true; }
    else if r1.extents.x1 != r2.extents.x1 { return false; }
    else if r1.extents.x2 != r2.extents.x2 { return false; }
    else if r1.extents.y1 != r2.extents.y1 { return false; }
    else if r1.extents.y2 != r2.extents.y2 { return false; }
    var i := 0;
    while i < |r1.rects|
      invariant 0 <= i <= |r1.rects|
      invariant r1.rects[..i] == r2.rects[..i]
    {
      if r1.rects[i].x1 != r2.rects[i].x1 { return false; }
      else if r1.rects[i].x2 != r2.rects[i].x2 { return false; }
      else if r1.rects[i].y1 != r2.rects[i].y1 { return false; }
      else if r1.rects[i].y2 != r2.rects[i].y2 { return false; }
      i := i + 1;
    }
    assert r1.rects == r1.rects[..i] == r2.rects[..i] == r2.rects;
    return true;
  }

  /** XPointInRegion. */
  method XPointInRegion(pRegion: Region, x: int, y: int) returns (inside: bool)
    requires pRegion.Valid()
    ensures inside <==> In(pRegion.rects, x, y)
  {
    if |pRegion.rects| == 0 {
      return false;
    }
    if !InBox(pRegion.extents, x, y) {
      return false;
    }
    var i := 0;
    while i < |pRegion.rects|
      invariant 0 <= i <= |pRegion.rects|
      invariant forall k :: 0 <= k < i ==> !InBox(pRegion.rects[k], x, y)
    {
      if InBox(pRegion.rects[i], x, y) {
        return true;
      }
      i := i + 1;
    }
    return false;
  }
}
