/** XRectInRegion: how much of a rectangle lies in a region (libX11 Region.c). */
module RegionRect {
  import opened Boxes
  import opened Region

  datatype Overlap = RectangleOut | RectangleIn | RectanglePart

  ghost predicate AllIn(R: seq<Box>, rect: Box) {
    forall x, y :: InBox(rect, x, y) ==> In(R, x, y)
  }

  ghost predicate NoneIn(R: seq<Box>, rect: Box) {
    forall x, y :: InBox(rect, x, y) ==> !In(R, x, y)
  }

  /** One box reaches over row y of the rectangle from side to side. */
  ghost predicate RowSpanned(R: seq<Box>, rect: Box, y: int) {
    exists k :: 0 <= k < |R| && Spans(R[k], rect, y)
  }

  predicate Spans(b: Box, rect: Box, y: int) { b.y1 <= y < b.y2 && b.x1 <= rect.x1 && rect.x2 <= b.x2 }

  /** Every row of the rectangle is covered by one box. */
  ghost predicate Spanned(R: seq<Box>, rect: Box) {
    forall y :: rect.y1 <= y < rect.y2 ==> RowSpanned(R, rect, y)
  }

  /** Where no two boxes touch, that is when all its points are in the region. */
  lemma SpannedIff(R: seq<Box>, rect: Box)
    requires Banded(R) && rect.x1 < rect.x2
    ensures Spanned(R, rect) ==> AllIn(R, rect)
    ensures Separated(R) && AllIn(R, rect) ==> Spanned(R, rect)
  {
    if Spanned(R, rect) {
      forall x, y | InBox(rect, x, y)
        ensures In(R, x, y)
      {
        assert RowSpanned(R, rect, y);
        var k :| 0 <= k < |R| && Spans(R[k], rect, y);
        assert InBox(R[k], x, y);
      }
    }
    if Separated(R) && AllIn(R, rect) {
      forall y | rect.y1 <= y < rect.y2
        ensures RowSpanned(R, rect, y)
      {
        RowOfOne(R, rect, y);
      }
    }
  }

  lemma RowOfOne(R: seq<Box>, rect: Box, y: int)
    requires Banded(R) && Separated(R) && AllIn(R, rect) && rect.x1 < rect.x2 && rect.y1 <= y < rect.y2
    ensures RowSpanned(R, rect, y)
  {
    assert InBox(rect, rect.x1, y);
    var k :| 0 <= k < |R| && InBox(R[k], rect.x1, y);
    var end := R[k].x2;
    EndUncovered(R, k, y);
    assert !InBox(rect, end, y);
    assert Spans(R[k], rect, y);
  }

  /** Where no two boxes touch, the column after a box is not covered. */
  lemma EndUncovered(R: seq<Box>, k: nat, y: int)
    requires Banded(R) && Separated(R) && k < |R| && R[k].y1 <= y < R[k].y2
    ensures !In(R, R[k].x2, y)
  {
    forall l | 0 <= l < |R|
      ensures !InBox(R[l], R[k].x2, y)
    {
      if k < l { assert InOrder(R[k], R[l]) && (R[k].y1 == R[l].y1 ==> Gapped(R[k], R[l])); }
      if l < k { assert InOrder(R[l], R[k]); }
    }
  }

  /** Of two boxes that touch, all points of a rectangle can be in the region although no box spans it. */
  lemma TouchingBoxes()
    ensures var R, rect := [Box(0, 2, 0, 1), Box(2, 4, 0, 1)], Box(0, 4, 0, 1);
      Banded(R) && AllIn(R, rect) && !Spanned(R, rect)
  {
    var R, rect := [Box(0, 2, 0, 1), Box(2, 4, 0, 1)], Box(0, 4, 0, 1);
    forall x, y | InBox(rect, x, y)
      ensures In(R, x, y)
    {
      assert InBox(R[if x < 2 then 0 else 1], x, y);
    }
    assert !RowSpanned(R, rect, 0);
  }

  /** Boxes before p end above row y or left of column x. */
  ghost predicate Passed(R: seq<Box>, p: nat, x: int, y: int) {
    p <= |R| && forall k :: 0 <= k < p ==> R[k].y2 <= y || (R[k].y1 <= y && R[k].x2 <= x)
  }

  /** A point that every earlier box has passed and that box p lies below or right of is uncovered. */
  lemma Uncovered(R: seq<Box>, p: nat, x: int, y: int)
    requires Banded(R) && Passed(R, p, x, y)
    requires p < |R| ==> R[p].y1 > y || (R[p].y1 <= y < R[p].y2 && R[p].x1 > x)
    ensures !In(R, x, y)
  {
    if In(R, x, y) {
      var k :| 0 <= k < |R| && InBox(R[k], x, y);
      if k > p { LaterBoxes(R, p, k); }
    }
  }

  lemma LaterBoxes(R: seq<Box>, p: nat, k: nat)
    requires Banded(R) && p < k < |R|
    ensures R[k].y1 >= R[p].y2 || (R[k].y1 == R[p].y1 && R[k].y2 == R[p].y2 && R[k].x1 >= R[p].x2)
  {
    assert InOrder(R[p], R[k]);
  }

  lemma EarlierBoxes(R: seq<Box>, p: nat, k: nat)
    requires Banded(R) && k < p < |R|
    ensures R[k].y2 <= R[p].y1 || (R[k].y1 == R[p].y1 && R[k].y2 == R[p].y2 && R[k].x2 <= R[p].x1)
  {
    assert InOrder(R[k], R[p]);
  }

  /** The scan so far: rows above ry are settled, boxes before p have been looked at. */
  ghost predicate Scanned(R: seq<Box>, rect: Box, p: nat, ry: int, partIn: bool, partOut: bool) {
    && Passed(R, p, rect.x1, ry)
    && rect.y1 <= ry < rect.y2
    && !(partIn && partOut)
    && (partIn ==> ry > rect.y1 && Covered(R, rect, ry))
    && (!partIn ==> Missed(R, rect, p) && NoneAbove(R, rect, p, ry))
    && (partOut ==> !Spanned(R, rect))
    && (!partIn && !partOut ==> ry == rect.y1)
  }

  /** The rows of the rectangle above row y are each covered by one box. */
  ghost predicate Covered(R: seq<Box>, rect: Box, y: int) {
    forall py :: rect.y1 <= py < y && py < rect.y2 ==> RowSpanned(R, rect, py)
  }

  /** No box before p meets the rectangle. */
  ghost predicate Missed(R: seq<Box>, rect: Box, p: nat) {
    p <= |R| && forall k :: 0 <= k < p ==> !ExtentCheck(R[k], rect)
  }

  /** No later box that ends at or above row y meets the rectangle. */
  ghost predicate NoneAbove(R: seq<Box>, rect: Box, p: nat, y: int) {
    forall k :: p <= k < |R| && R[k].y2 <= y ==> !ExtentCheck(R[k], rect)
  }

  /** What the final partIn and ry say. */
  ghost predicate Verdict(R: seq<Box>, rect: Box, partIn: bool, ry: int) {
    if !partIn then NoneIn(R, rect)
    else if ry >= rect.y2 then Spanned(R, rect)
    else !Spanned(R, rect) && !NoneIn(R, rect)
  }

  lemma OutOf(R: seq<Box>, rect: Box, x: int, y: int)
    requires !In(R, x, y) && InBox(rect, x, y)
    ensures !Spanned(R, rect)
  {
    forall k | 0 <= k < |R|
      ensures !Spans(R[k], rect, y)
    {
      assert Spans(R[k], rect, y) ==> InBox(R[k], x, y);
    }
    assert !RowSpanned(R, rect, y);
  }

  lemma PointIn(R: seq<Box>, rect: Box, k: nat, x: int, y: int)
    requires k < |R| && InBox(R[k], x, y) && InBox(rect, x, y)
    ensures !NoneIn(R, rect)
  {
    assert In(R, x, y);
  }

  /** The next box starts below row ry, or in row ry right of the rectangle's left edge. */
  lemma Gap(R: seq<Box>, rect: Box, p: nat, ry: int, partIn: bool, partOut: bool)
    requires Banded(R) && Scanned(R, rect, p, ry, partIn, partOut) && rect.x1 < rect.x2
    requires p < |R| ==> R[p].y1 > ry || (R[p].y1 <= ry < R[p].y2 && R[p].x1 > rect.x1)
    ensures !Spanned(R, rect)
    ensures partIn ==> Verdict(R, rect, partIn, ry)
  {
    Uncovered(R, p, rect.x1, ry);
    OutOf(R, rect, rect.x1, ry);
    if partIn {
      assert RowSpanned(R, rect, rect.y1);
      var k :| 0 <= k < |R| && Spans(R[k], rect, rect.y1);
      PointIn(R, rect, k, rect.x1, rect.y1);
    }
  }

  /** No box meets the rectangle once the boxes from p on are known to lie below or right of it. */
  lemma NoMore(R: seq<Box>, rect: Box, p: nat)
    requires Banded(R) && Missed(R, rect, p)
    requires p < |R| ==> R[p].y1 >= rect.y2 || (R[p].x1 >= rect.x2 && R[p].y2 >= rect.y2)
    ensures NoneIn(R, rect)
  {
    forall x, y | InBox(rect, x, y)
      ensures !In(R, x, y)
    {
      if In(R, x, y) {
        var k :| 0 <= k < |R| && InBox(R[k], x, y);
        if k > p { LaterBoxes(R, p, k); }
      }
    }
  }

  lemma SkipTo(R: seq<Box>, rect: Box, p: nat, ry: int)
    requires Banded(R) && p < |R| && Passed(R, p, rect.x1, ry) && R[p].y1 > ry
    ensures Passed(R, p, rect.x1, R[p].y1)
  {
    forall k | 0 <= k < p
      ensures R[k].y2 <= R[p].y1
    {
      EarlierBoxes(R, p, k);
    }
  }

  /** A box that ends at or above row ry, or left of the rectangle, changes nothing. */
  lemma SkipBox(R: seq<Box>, rect: Box, p: nat, ry: int, partIn: bool, partOut: bool)
    requires Banded(R) && p < |R| && Scanned(R, rect, p, ry, partIn, partOut)
    requires R[p].y2 <= ry || (R[p].y1 <= ry && R[p].x2 <= rect.x1)
    ensures Scanned(R, rect, p + 1, ry, partIn, partOut)
  {
  }

  /** Moving down to the band of box p, above which the rectangle is uncovered. */
  lemma Descend(R: seq<Box>, rect: Box, p: nat, ry: int, partOut: bool)
    requires Banded(R) && p < |R| && rect.x1 < rect.x2 && Scanned(R, rect, p, ry, false, partOut)
    requires ry < R[p].y1 < rect.y2
    ensures Scanned(R, rect, p, R[p].y1, false, true)
  {
    Gap(R, rect, p, ry, false, partOut);
    SkipTo(R, rect, p, ry);
    forall k | p <= k < |R|
      ensures R[k].y2 > R[p].y1
    {
      if k > p { LaterBoxes(R, p, k); }
    }
  }

  /** Box p reaches the right edge of the rectangle: its band is done. */
  lemma NextBand(R: seq<Box>, rect: Box, p: nat, ry: int, wasIn: bool, partIn: bool, partOut: bool)
    requires Banded(R) && p < |R| && Scanned(R, rect, p, ry, wasIn, partOut && !wasIn)
    requires R[p].y1 <= ry < R[p].y2 && rect.x2 <= R[p].x2
    requires partIn <==> wasIn || R[p].x1 < rect.x2
    requires !(partIn && partOut) && (partOut ==> !Spanned(R, rect))
    requires R[p].x1 <= rect.x1 || partOut
    ensures Passed(R, p + 1, rect.x1, R[p].y2)
    ensures partIn ==> Covered(R, rect, R[p].y2)
    ensures R[p].y2 < rect.y2 && rect.x1 < rect.x2 ==> Scanned(R, rect, p + 1, R[p].y2, partIn, partOut)
    ensures R[p].y2 >= rect.y2 ==> Verdict(R, rect, partIn, R[p].y2)
  {
    BandDone(R, rect, p, ry);
    if partIn {
      SpanRows(R, rect, p, ry);
    } else {
      forall k | p < k < |R| && R[k].y2 <= R[p].y2
        ensures !ExtentCheck(R[k], rect)
      {
        LaterBoxes(R, p, k);
      }
      if R[p].y2 >= rect.y2 { NoMore(R, rect, p); }
    }
  }

  /** Box p spans the rectangle from side to side: its rows are covered. */
  lemma SpanRows(R: seq<Box>, rect: Box, p: nat, ry: int)
    requires p < |R| && R[p].y1 <= ry < R[p].y2 && R[p].x1 <= rect.x1 && rect.x2 <= R[p].x2
    requires ry == rect.y1 || Covered(R, rect, ry)
    ensures Covered(R, rect, R[p].y2)
  {
    forall y | rect.y1 <= y < R[p].y2 && y < rect.y2
      ensures RowSpanned(R, rect, y)
    {
      if y >= ry { assert Spans(R[p], rect, y); }
    }
  }

  /** The band of box p is done: earlier boxes of the band end at the same row. */
  lemma BandDone(R: seq<Box>, rect: Box, p: nat, ry: int)
    requires Banded(R) && p < |R| && Passed(R, p, rect.x1, ry) && R[p].y1 <= ry < R[p].y2
    ensures Passed(R, p + 1, rect.x1, R[p].y2)
  {
    forall k | 0 <= k < p
      ensures R[k].y2 <= R[p].y2
    {
      EarlierBoxes(R, p, k);
    }
  }

  /** The row of a box that ends inside the rectangle is not covered by one box. */
  lemma RightGap(R: seq<Box>, rect: Box, p: nat, y: int)
    requires Banded(R) && p < |R| && R[p].y1 <= y < R[p].y2
    requires rect.x1 < R[p].x2 < rect.x2 && rect.y1 <= y < rect.y2
    ensures !Spanned(R, rect)
  {
    forall k | 0 <= k < |R|
      ensures !Spans(R[k], rect, y)
    {
      if k > p { LaterBoxes(R, p, k); }
      if k < p { EarlierBoxes(R, p, k); }
    }
    assert !RowSpanned(R, rect, y);
  }

  /** XRectInRegion. It takes boxes to be as wide as they can be; on others, RectangleIn means that each row is
      covered by one box. Nothing is said about empty rectangles, of which both answers would be true. */
  method XRectInRegion(region: Region, rx: int, ry0: int, rwidth: nat, rheight: nat) returns (r: Overlap)
    requires region.Valid()
    ensures rwidth > 0 && rheight > 0 ==>
      var rect := Box(rx, rx + rwidth, ry0, ry0 + rheight);
      && (r == RectangleIn <==> Spanned(region.rects, rect))
      && (r == RectangleOut <==> NoneIn(region.rects, rect))
      && (r == RectanglePart <==> !Spanned(region.rects, rect) && !NoneIn(region.rects, rect))
      && (Separated(region.rects) ==> (r == RectangleIn <==> AllIn(region.rects, rect)))
  {
    var prect := Box(rx, rwidth + rx, ry0, rheight + ry0);
    ghost var solid := rwidth > 0 && rheight > 0;
    ghost var R := region.rects;
    if solid {
      assert InBox(prect, rx, ry0);
      SpannedIff(R, prect);
    }
    if |region.rects| == 0 || !ExtentCheck(region.extents, prect) {
      return RectangleOut;
    }
    var ry := ry0;
    var partOut, partIn := false, false;
    var pbox := 0;
    ghost var settled := false;
    while pbox < |region.rects|
      invariant 0 <= pbox <= |R| && !settled
      invariant solid ==> Scanned(R, prect, pbox, ry, partIn, partOut)
    {
      var b := region.rects[pbox];
      if b.y2 <= ry {
        if solid { SkipBox(R, prect, pbox, ry, partIn, partOut); }
        pbox := pbox + 1;
        continue;
      }
      if b.y1 > ry {
        if solid { Gap(R, prect, pbox, ry, partIn, partOut); }
        if partIn || b.y1 >= prect.y2 {
          partOut := true;
          if solid && !partIn { NoMore(R, prect, pbox); }
          settled := true;
          break;
        }
        if solid { Descend(R, prect, pbox, ry, partOut); }
        partOut := true;
        ry := b.y1;
      }
      if b.x2 <= rx {
        if solid { SkipBox(R, prect, pbox, ry, partIn, partOut); }
        pbox := pbox + 1;
        continue;
      }
      ghost var wasIn := partIn;
      if b.x1 > rx {
        if solid { Gap(R, prect, pbox, ry, partIn, partOut); }
        partOut := true;
        if partIn {
          settled := true;
          break;
        }
      }
      if b.x1 < prect.x2 {
        partIn := true;
        if solid { PointIn(R, prect, pbox, Max(b.x1, rx), ry); }
        if partOut {
          settled := true;
          break;
        }
      }
      if b.x2 >= prect.x2 {
        if solid { NextBand(R, prect, pbox, ry, wasIn, partIn, partOut); }
        ry := b.y2;
        if ry >= prect.y2 {
          settled := true;
          break;
        }
      } else {
        if solid { RightGap(R, prect, pbox, ry); }
        settled := true;
        break;
      }
      pbox := pbox + 1;
    }
    if solid && !settled {
      if partIn { Gap(R, prect, pbox, ry, partIn, partOut); } else { NoMore(R, prect, pbox); }
    }
    assert solid ==> Verdict(R, prect, partIn, ry);
    return if partIn then (if ry < prect.y2 then RectanglePart else RectangleIn) else RectangleOut;
  }
}
