/** The Region type and its operations (libX11 Region.c). */
module Region {
  import opened Boxes
  import opened Sweep
  import opened BandOps
  import opened SweepSteps

  class Region {
    var rects: seq<Box>
    var extents: Box

    /** Boxes in bands, with the extents of their points. The boxes need not be in canonical form: those of a
        polygon are not always. */
    ghost predicate Valid()
      reads this
    {
      Banded(rects) && Bounds(rects, extents)
    }

    /** XCreateRegion: a new empty region. */
    constructor ()
      ensures Valid() && rects == [] && extents == Box(0, 0, 0, 0)
    {
      rects, extents := [], Box(0, 0, 0, 0);
    }

    // ---------- per-band routines ----------

    /** miUnionNonO and miSubtractNonO1: the boxes r0..rEnd of R as rows y1..y2. */
    method CopyBand(R: seq<Box>, r0: nat, rEnd: nat, y1: int, y2: int)
      requires SpanList(R, r0, rEnd)
      modifies this`rects
      ensures Copied(old(rects), rects, R, r0, rEnd, y1, y2)
    {
      var r := r0;
      while r != rEnd
        invariant r <= rEnd && Copied(old(rects), rects, R, r0, r, y1, y2)
      {
        rects := rects + [Box(R[r].x1, R[r].x2, y1, y2)];
        r := r + 1;
      }
    }

    /** miIntersectO. */
    method IntersectO(A: seq<Box>, a: nat, ea: nat, B: seq<Box>, b: nat, eb: nat, y1: int, y2: int)
      requires SpanList(A, a, ea) && SpanList(B, b, eb)
      modifies this`rects
      ensures BandAppended(Intersect, old(rects), rects, y1, y2, A, a, ea, B, b, eb)
    {
      var r1: nat, r2: nat := a, b;
      while r1 != ea && r2 != eb
        invariant IntersectSoFar(old(rects), rects, A, a, r1, ea, B, b, r2, eb, y1, y2)
        decreases ea - r1 + eb - r2
      {
        var x1 := Max(A[r1].x1, B[r2].x1);
        var x2 := Min(A[r1].x2, B[r2].x2);
        ghost var before, s1, s2 := rects, r1, r2;
        if x1 < x2 {
          rects := rects + [Box(x1, x2, y1, y2)];
        }
        if A[r1].x2 < B[r2].x2 {
          r1 := r1 + 1;
        } else if B[r2].x2 < A[r1].x2 {
          r2 := r2 + 1;
        } else {
          r1, r2 := r1 + 1, r2 + 1;
        }
        IntersectStep(old(rects), before, A, a, s1, ea, B, b, s2, eb, y1, y2, r1, r2);
      }
    }

    /** The MERGERECT macro of miUnionO. */
    method MergeRectInto(r: Box, y1: int, y2: int)
      modifies this`rects
      ensures rects == MergeRect(old(rects), r, y1, y2)
    {
      var last := |rects| - 1;
      if |rects| != 0 && rects[last].y1 == y1 && rects[last].y2 == y2 && rects[last].x2 >= r.x1 {
        if rects[last].x2 < r.x2 {
          rects := rects[last := rects[last].(x2 := r.x2)];
        }
      } else {
        rects := rects + [Box(r.x1, r.x2, y1, y2)];
      }
    }

    /** miUnionO. */
    method UnionO(A: seq<Box>, a: nat, ea: nat, B: seq<Box>, b: nat, eb: nat, y1: int, y2: int)
      requires SpanList(A, a, ea) && SpanList(B, b, eb) && y1 < y2
      requires rects != [] ==> rects[|rects| - 1].y2 <= y1
      modifies this`rects
      ensures BandAppended(Union, old(rects), rects, y1, y2, A, a, ea, B, b, eb)
    {
      ghost var was := rects;
      var r1, r2 := MergeLeftmost(A, a, ea, B, b, eb, y1, y2);
      if r1 != ea {
        MergeRest(was, A, a, r1, ea, B, b, eb, y1, y2);
      } else {
        UnionSymmetric(was, rects, A, a, r1, ea, B, b, r2, eb, y1, y2);
        MergeRest(was, B, b, r2, eb, A, a, ea, y1, y2);
        UnionSymmetric(was, rects, B, b, eb, eb, A, a, ea, ea, y1, y2);
      }
      UnionDone(was, rects, A, a, ea, B, b, eb, y1, y2);
    }

    /** The first loop of miUnionO: the leftmost box each time, until one band is used up. */
    method MergeLeftmost(A: seq<Box>, a: nat, ea: nat, B: seq<Box>, b: nat, eb: nat, y1: int, y2: int)
        returns (r1: nat, r2: nat)
      requires SpanList(A, a, ea) && SpanList(B, b, eb) && y1 < y2
      requires rects != [] ==> rects[|rects| - 1].y2 <= y1
      modifies this`rects
      ensures UnionSoFar(old(rects), rects, A, a, r1, ea, B, b, r2, eb, y1, y2)
      ensures r1 == ea || r2 == eb
    {
      r1, r2 := a, b;
      while r1 != ea && r2 != eb
        invariant UnionSoFar(old(rects), rects, A, a, r1, ea, B, b, r2, eb, y1, y2)
        decreases ea - r1 + eb - r2
      {
        if A[r1].x1 < B[r2].x1 {
          UnionStep(old(rects), rects, A, a, r1, ea, B, b, r2, eb, y1, y2);
          MergeRectInto(A[r1], y1, y2);
          r1 := r1 + 1;
        } else {
          UnionStep2(old(rects), rects, A, a, r1, ea, B, b, r2, eb, y1, y2);
          MergeRectInto(B[r2], y1, y2);
          r2 := r2 + 1;
        }
      }
    }

    /** The loops that end miUnionO: the remaining boxes of one band, here of A. */
    method MergeRest(ghost was: seq<Box>, A: seq<Box>, a: nat, r0: nat, ea: nat,
                     ghost B: seq<Box>, ghost b: nat, ghost eb: nat, y1: int, y2: int)
      requires SpanList(A, a, ea) && SpanList(B, b, eb) && y1 < y2
      requires was != [] ==> was[|was| - 1].y2 <= y1
      requires UnionSoFar(was, rects, A, a, r0, ea, B, b, eb, eb, y1, y2)
      modifies this`rects
      ensures UnionSoFar(was, rects, A, a, ea, ea, B, b, eb, eb, y1, y2)
    {
      var r1: nat := r0;
      while r1 != ea
        invariant UnionSoFar(was, rects, A, a, r1, ea, B, b, eb, eb, y1, y2)
        decreases ea - r1
      {
        UnionStep(was, rects, A, a, r1, ea, B, b, eb, eb, y1, y2);
        MergeRectInto(A[r1], y1, y2);
        r1 := r1 + 1;
      }
    }

    /** miSubtractO. */
    method SubtractO(A: seq<Box>, a: nat, ea: nat, B: seq<Box>, b: nat, eb: nat, y1: int, y2: int)
      requires SpanList(A, a, ea) && SpanList(B, b, eb) && a < ea
      modifies this`rects
      ensures BandAppended(Subtract, old(rects), rects, y1, y2, A, a, ea, B, b, eb)
    {
      ghost var was := rects;
      var r1: nat, r2: nat, x1 := a, b, A[a].x1;
      SubtractStart(was, A, a, ea, B, b, eb, y1, y2);
      while r1 != ea && r2 != eb
        invariant SubtractSoFar(was, rects, A, a, r1, ea, B, b, r2, eb, x1, y1, y2)
        decreases ea - r1 + eb - r2
      {
        ghost var before, s1, s2, w1 := rects, r1, r2, x1;
        if B[r2].x2 <= x1 {
          r2 := r2 + 1;
          SubtractSkip(was, rects, A, a, s1, ea, B, b, s2, eb, w1, y1, y2, r1, r2, x1);
        } else if B[r2].x1 <= x1 {
          x1 := B[r2].x2;
          if x1 >= A[r1].x2 {
            r1 := r1 + 1;
            if r1 != ea { x1 := A[r1].x1; }
          } else {
            r2 := r2 + 1;
          }
          SubtractSkip(was, rects, A, a, s1, ea, B, b, s2, eb, w1, y1, y2, r1, r2, x1);
        } else if B[r2].x1 < A[r1].x2 {
          rects := rects + [Box(x1, B[r2].x1, y1, y2)];
          x1 := B[r2].x2;
          if x1 >= A[r1].x2 {
            r1 := r1 + 1;
            if r1 != ea { x1 := A[r1].x1; }
          } else {
            r2 := r2 + 1;
          }
          SubtractEmit(was, before, A, a, s1, ea, B, b, s2, eb, w1, y1, y2, r1, r2, x1, rects);
        } else {
          if A[r1].x2 > x1 {
            rects := rects + [Box(x1, A[r1].x2, y1, y2)];
          }
          r1 := r1 + 1;
          if r1 != ea { x1 := A[r1].x1; }
          SubtractEmit(was, before, A, a, s1, ea, B, b, s2, eb, w1, y1, y2, r1, r2, x1, rects);
        }
      }
      while r1 != ea
        invariant r1 < ea ==> r2 == eb
        invariant SubtractSoFar(was, rects, A, a, r1, ea, B, b, r2, eb, x1, y1, y2)
        decreases ea - r1
      {
        ghost var before, s1, w1 := rects, r1, x1;
        rects := rects + [Box(x1, A[r1].x2, y1, y2)];
        r1 := r1 + 1;
        if r1 != ea { x1 := A[r1].x1; }
        SubtractEmit(was, before, A, a, s1, ea, B, b, r2, eb, w1, y1, y2, r1, r2, x1, rects);
      }
    }

    // ---------- coalescing ----------

    /** miCoalesce: merges the band that starts at curStart0 into the one before it, in place. The result is where
        the last band starts. When bands follow and have moved up, it is where the last band started before: that
        call is the last, and its result is not used. */
    method Coalesce(prevStart: nat, curStart0: nat) returns (curStart: nat)
      requires prevStart <= curStart0 < |rects| && Banded(rects)
      requires prevStart < curStart0 ==> IsBand(rects, prevStart, curStart0)
      modifies this`rects
      ensures IsCoalescedAt(old(rects), prevStart, curStart0, rects)
      ensures BandEnd(old(rects), curStart0) == |old(rects)| ==>
                curStart == if rects == old(rects) then curStart0 else prevStart
      ensures BandEnd(old(rects), curStart0) < |old(rects)| ==> IsBand(old(rects), curStart, |old(rects)|)
    {
      curStart := curStart0;
      var pRegEnd := |rects|;
      var prevNumRects := curStart - prevStart;
      var pCurBox := curStart;
      var bandY1 := rects[pCurBox].y1;
      var curNumRects := 0;
      while pCurBox != pRegEnd && rects[pCurBox].y1 == bandY1
        invariant curStart0 <= pCurBox <= pRegEnd && curNumRects == pCurBox - curStart0
        invariant forall k :: curStart0 <= k < pCurBox ==> rects[k].y1 == bandY1
      {
        pCurBox := pCurBox + 1;
        curNumRects := curNumRects + 1;
      }
      assert pCurBox == BandEnd(rects, curStart0);
      if pCurBox != pRegEnd {
        curStart := LastBandStart(pCurBox);
      }
      if curNumRects == prevNumRects && curNumRects != 0 {
        if rects[prevStart].y2 == rects[curStart0].y1 {
          var same := SpansLineUp(prevStart, curStart0, curNumRects);
          if !same {
            return;
          }
          MergeBand(prevStart, curStart0, curNumRects);
          if pCurBox == pRegEnd {
            curStart := prevStart;
          }
        }
      }
    }

    /** The start of the last band, looked for backwards from the end of the region. */
    method LastBandStart(inside: nat) returns (start: nat)
      requires 0 < inside < |rects| && rects[inside - 1].y1 != rects[inside].y1
      ensures inside <= start < |rects| && rects[start - 1].y1 != rects[start].y1
      ensures forall k :: start <= k < |rects| ==> rects[k].y1 == rects[start].y1
    {
      start := |rects| - 1;
      while rects[start - 1].y1 == rects[start].y1
        invariant inside <= start < |rects|
        invariant forall k :: start <= k < |rects| ==> rects[k].y1 == rects[start].y1
        decreases start
      {
        start := start - 1;
      }
    }

    /** Whether the n boxes of two bands are in the same places. */
    method SpansLineUp(prev: nat, cur: nat, n: nat) returns (same: bool)
      requires 0 < n && prev + n <= cur && cur + n <= |rects|
      ensures same <==> SameSpans(rects, prev, rects, cur, n)
    {
      var pPrevBox, pCurBox, left := prev, cur, n;
      while left != 0
        invariant 0 <= left <= n && pPrevBox == prev + (n - left) && pCurBox == cur + (n - left)
        invariant SameSpans(rects, prev, rects, cur, n - left)
      {
        assert SameSpans(rects, prev, rects, cur, n) ==> SameSpan(rects[pPrevBox], rects[pCurBox]);
        if rects[pPrevBox].x1 != rects[pCurBox].x1 || rects[pPrevBox].x2 != rects[pCurBox].x2 {
          return false;
        }
        pPrevBox, pCurBox, left := pPrevBox + 1, pCurBox + 1, left - 1;
      }
      return true;
    }

    /** Merges two bands of n boxes: bottoms raised, later bands copied down, n boxes dropped. */
    method MergeBand(prev: nat, cur: nat, n: nat)
      requires 0 < n && prev + n == cur && cur + n <= |rects|
      modifies this`rects
      ensures IsMerged(old(rects), cur, n, rects)
    {
      RaiseBottoms(prev, cur, n);
      var pPrevBox, pCurBox, pRegEnd := cur, cur + n, |rects|;
      while pCurBox != pRegEnd
        invariant cur <= pPrevBox && pCurBox == pPrevBox + n <= pRegEnd
        invariant |rects| == pRegEnd
        invariant forall k :: 0 <= k < pPrevBox ==> rects[k] == MergedBox(old(rects), cur, n, k)
        invariant forall k :: pPrevBox <= k < pRegEnd ==> rects[k] == old(rects)[k]
      {
        rects := rects[pPrevBox := rects[pCurBox]];
        pPrevBox, pCurBox := pPrevBox + 1, pCurBox + 1;
      }
      rects := rects[..|rects| - n];
    }

    method RaiseBottoms(prev: nat, cur: nat, n: nat)
      requires 0 < n && prev + n == cur && cur + n <= |rects|
      modifies this`rects
      ensures |rects| == |old(rects)|
      ensures forall k :: 0 <= k < cur ==> rects[k] == MergedBox(old(rects), cur, n, k)
      ensures forall k :: cur <= k < |rects| ==> rects[k] == old(rects)[k]
    {
      var pPrevBox, pCurBox, left := prev, cur, n;
      while left != 0
        invariant 0 <= left <= n && pPrevBox == cur - left && pCurBox == pPrevBox + n
        invariant |rects| == |old(rects)|
        invariant forall k :: 0 <= k < pPrevBox ==> rects[k] == MergedBox(old(rects), cur, n, k)
        invariant forall k :: pPrevBox <= k < |rects| ==> rects[k] == old(rects)[k]
      {
        rects := rects[pPrevBox := rects[pPrevBox].(y2 := rects[pCurBox].y2)];
        pPrevBox, pCurBox, left := pPrevBox + 1, pCurBox + 1, left - 1;
      }
    }

    // ---------- the sweep ----------

    /** A call of nonOverlap1Func: rows top..bot of band a..ea of the first region. */
    method NonOverlap1(op: Op, A: seq<Box>, a: nat, ea: nat, ghost B: seq<Box>, ghost b: nat, top: int, bot: int)
      requires SpanList(A, a, ea) && b <= |B|
      modifies this`rects
      ensures BandAppended(op, old(rects), rects, top, bot, A, a, ea, B, b, b)
    {
      if op != Intersect {
        CopyBand(A, a, ea, top, bot);
        CopiedRow(old(rects), rects, A, a, ea, top, bot);
      }
    }

    /** A call of nonOverlap2Func: rows top..bot of band b..eb of the second region. */
    method NonOverlap2(op: Op, ghost A: seq<Box>, ghost a: nat, B: seq<Box>, b: nat, eb: nat, top: int, bot: int)
      requires SpanList(B, b, eb) && a <= |A|
      modifies this`rects
      ensures BandAppended(op, old(rects), rects, top, bot, A, a, a, B, b, eb)
    {
      if op == Union {
        CopyBand(B, b, eb, top, bot);
        CopiedRow(old(rects), rects, B, b, eb, top, bot);
      }
    }

    /** A call of overlapFunc: rows ytop..ybot of both current bands. */
    method Overlap(op: Op, A: seq<Box>, a: nat, ea: nat, B: seq<Box>, b: nat, eb: nat, ytop: int, ybot: int)
      requires SpanList(A, a, ea) && SpanList(B, b, eb) && a < ea && ytop < ybot
      requires rects != [] ==> rects[|rects| - 1].y2 <= ytop
      modifies this`rects
      ensures BandAppended(op, old(rects), rects, ytop, ybot, A, a, ea, B, b, eb)
    {
      match op
      case Union => UnionO(A, a, ea, B, b, eb, ytop, ybot);
      case Intersect => IntersectO(A, a, ea, B, b, eb, ytop, ybot);
      case Subtract => SubtractO(A, a, ea, B, b, eb, ytop, ybot);
    }

    /** The rectangle after the last one in the band that starts at r. */
    static method FindBandEnd(R: seq<Box>, r: nat) returns (e: nat)
      requires r < |R|
      ensures e == BandEnd(R, r)
    {
      e := r;
      while e != |R| && R[e].y1 == R[r].y1
        invariant r <= e <= |R|
        invariant forall k :: r <= k < e ==> R[k].y1 == R[r].y1
      {
        e := e + 1;
      }
    }

    /** Coalesces if the rows y1..y2 just handled added any box. */
    method CoalesceNewBand(prevBand: nat, curBand: nat, ghost op: Op, ghost O: seq<Box>,
                           ghost A: seq<Box>, ghost a: nat, ghost ea: nat, ghost B: seq<Box>, ghost b: nat, ghost eb: nat,
                           ghost y1: int, ghost y2: int)
        returns (prev: nat)
      requires a <= ea <= |A| && b <= eb <= |B| && y1 < y2 && curBand == |O|
      requires Finished(op, A, B, O, prevBand, y1)
      requires BandAppended(op, O, rects, y1, y2, A, a, ea, B, b, eb) && PartOf(A, a, ea) && PartOf(B, b, eb)
      requires RowsAre(A, a, ea, y1, y2) && RowsAre(B, b, eb, y1, y2)
      modifies this`rects
      ensures Finished(op, A, B, rects, prev, y2)
    {
      prev := prevBand;
      if |rects| != curBand {
        ghost var N := rects;
        ReadyToCoalesce(op, A, a, ea, B, b, eb, O, prevBand, N, y1, y2);
        prev := Coalesce(prevBand, curBand);
        CoalescedBand(op, A, a, ea, B, b, eb, O, prevBand, N, y1, y2, rects, prev);
      } else {
        assert rects == O;
        AppendBand(op, A, a, ea, B, b, eb, O, rects, y1, y2);
      }
    }

    /** miRegionOp: the band-by-band sweep over two non-empty regions, either of which may be this. */
    method RegionOp(op: Op, reg1: Region, reg2: Region)
      requires reg1.Valid() && reg2.Valid() && reg1.rects != [] && reg2.rects != []
      modifies this`rects
      ensures Banded(rects) && Combined(op, old(reg1.rects), old(reg2.rects), rects)
      ensures Canonical(old(reg1.rects)) && Canonical(old(reg2.rects)) ==> Canonical(rects)
    {
      var A, B := reg1.rects, reg2.rects;
      ExtentsTop(A, reg1.extents);
      ExtentsTop(B, reg2.extents);
      rects := [];
      var ybot := if reg1.extents.y1 < reg2.extents.y1 then reg1.extents.y1 else reg2.extents.y1;
      SweepStart(op, A, B, ybot);
      var prevBand: nat, r1: nat, r2: nat := 0, 0, 0;
      while r1 != |A| && r2 != |B|
        invariant SweepState(op, A, B, rects, prevBand, r1, r2, ybot)
        decreases |A| - r1 + |B| - r2
      {
        prevBand, r1, r2, ybot := SweepBand(op, A, r1, B, r2, prevBand, ybot);
      }
      Finish(op, A, r1, B, r2, prevBand, ybot);
    }

    /** One round of the main loop: the rows covered by one region only, then the rows covered by both. */
    method SweepBand(op: Op, A: seq<Box>, i: nat, B: seq<Box>, j: nat, prev: nat, ybot0: int)
        returns (prevBand: nat, r1: nat, r2: nat, ybot: int)
      requires Banded(A) && Banded(B) && i < |A| && j < |B|
      requires SweepState(op, A, B, rects, prev, i, j, ybot0)
      modifies this`rects
      ensures SweepState(op, A, B, rects, prevBand, r1, r2, ybot)
      ensures i <= r1 <= |A| && j <= r2 <= |B| && (i < r1 || j < r2)
    {
      r1, r2, ybot := i, j, ybot0;
      var r1BandEnd := FindBandEnd(A, r1);
      var r2BandEnd := FindBandEnd(B, r2);
      SplitStartsBand(A, r1, ybot);
      SplitStartsBand(B, r2, ybot);
      var ytop;
      prevBand, ytop := SweepSingle(op, A, r1, r1BandEnd, B, r2, r2BandEnd, prev, ybot);
      ybot := Min(A[r1].y2, B[r2].y2);
      if ybot > ytop {
        prevBand := SweepBoth(op, A, r1, r1BandEnd, B, r2, r2BandEnd, prevBand, ytop, ybot);
      }
      if A[r1].y2 == ybot { r1 := r1BandEnd; }
      if B[r2].y2 == ybot { r2 := r2BandEnd; }
      AdvanceSplit(A, i, ybot0, r1, ybot);
      AdvanceSplit(B, j, ybot0, r2, ybot);
    }

    /** The rows above the first row the two current bands share. */
    method SweepSingle(op: Op, A: seq<Box>, r1: nat, e1: nat, B: seq<Box>, r2: nat, e2: nat, prev: nat, ybot: int)
        returns (prevBand: nat, ytop: int)
      requires Banded(A) && Banded(B) && r1 < |A| && r2 < |B|
      requires IsBand(A, r1, e1) && IsBand(B, r2, e2)
      requires SweepState(op, A, B, rects, prev, r1, r2, ybot)
      modifies this`rects
      ensures ytop == Max(A[r1].y1, B[r2].y1)
      ensures Finished(op, A, B, rects, prevBand, Min(ytop, Min(A[r1].y2, B[r2].y2)))
    {
      prevBand := prev;
      var curBand := |rects|;
      ghost var O := rects;
      BandIsSpanList(A, r1, e1);
      BandIsSpanList(B, r2, e2);
      if A[r1].y1 < B[r2].y1 {
        var top := Max(A[r1].y1, ybot);
        var bot := Min(A[r1].y2, B[r2].y1);
        SkipRows(op, A, r1, B, r2, ybot, top, O, prev);
        if top != bot {
          NonOverlap1(op, A, r1, e1, B, r2, top, bot);
          RowsInBand(A, r1, e1, top, bot);
          RowsAbove(B, r2, ybot, top, bot);
          prevBand := CoalesceNewBand(prev, curBand, op, O, A, r1, e1, B, r2, r2, top, bot);
        }
        ytop := B[r2].y1;
      } else if B[r2].y1 < A[r1].y1 {
        var top := Max(B[r2].y1, ybot);
        var bot := Min(B[r2].y2, A[r1].y1);
        SkipRows(op, A, r1, B, r2, ybot, top, O, prev);
        if top != bot {
          NonOverlap2(op, A, r1, B, r2, e2, top, bot);
          RowsInBand(B, r2, e2, top, bot);
          RowsAbove(A, r1, ybot, top, bot);
          prevBand := CoalesceNewBand(prev, curBand, op, O, A, r1, r1, B, r2, e2, top, bot);
        }
        ytop := A[r1].y1;
      } else {
        ytop := A[r1].y1;
        SkipRows(op, A, r1, B, r2, ybot, ytop, O, prev);
      }
    }

    /** The rows ytop..ybot, covered by both current bands. */
    method SweepBoth(op: Op, A: seq<Box>, r1: nat, e1: nat, B: seq<Box>, r2: nat, e2: nat, prev: nat, ytop: int, ybot: int)
        returns (prevBand: nat)
      requires Banded(A) && Banded(B) && IsBand(A, r1, e1) && IsBand(B, r2, e2)
      requires ytop == Max(A[r1].y1, B[r2].y1) < ybot == Min(A[r1].y2, B[r2].y2)
      requires Finished(op, A, B, rects, prev, ytop)
      modifies this`rects
      ensures Finished(op, A, B, rects, prevBand, ybot)
    {
      var curBand := |rects|;
      ghost var O := rects;
      BandIsSpanList(A, r1, e1);
      BandIsSpanList(B, r2, e2);
      Overlap(op, A, r1, e1, B, r2, e2, ytop, ybot);
      RowsInBand(A, r1, e1, ytop, ybot);
      RowsInBand(B, r2, e2, ytop, ybot);
      prevBand := CoalesceNewBand(prev, curBand, op, O, A, r1, e1, B, r2, e2, ytop, ybot);
    }

    /** The end of miRegionOp: copies what is left of one region and coalesces at the seam. */
    method Finish(op: Op, A: seq<Box>, r1: nat, B: seq<Box>, r2: nat, prevBand: nat, ybot: int)
      requires Banded(A) && Banded(B) && (r1 == |A| || r2 == |B|)
      requires SweepState(op, A, B, rects, prevBand, r1, r2, ybot)
      modifies this`rects
      ensures Banded(rects) && Combined(op, A, B, rects)
      ensures Canonical(A) && Canonical(B) ==> Canonical(rects)
    {
      var curBand := |rects|;
      ghost var O := rects;
      if r1 != |A| {
        if op != Intersect {
          CopyTail(A, r1, ybot);
          TailDone(op, A, B, O, prevBand, r1, r2, ybot, A, r1, rects);
        }
      } else if r2 != |B| && op == Union {
        CopyTail(B, r2, ybot);
        TailDone(op, A, B, O, prevBand, r1, r2, ybot, B, r2, rects);
      }
      if |rects| != curBand {
        ghost var N := rects;
        var _ := Coalesce(prevBand, curBand);
        CoalesceRestores(N, prevBand, curBand, rects);
        forall x, y
          ensures In(rects, x, y) <==> Combine(op, In(A, x, y), In(B, x, y))
        {
          assert In(rects, x, y) <==> In(N, x, y);
        }
      } else {
        NoTail(op, A, B, O, prevBand, r1, r2, ybot);
      }
    }

    /** Copies the bands r0.. of R, the first one clipped to start at row ybot. */
    method CopyTail(R: seq<Box>, r0: nat, ybot: int)
      requires Banded(R) && Split(R, r0, ybot) && r0 < |R|
      modifies this`rects
      ensures TailAppended(old(rects), rects, R, r0, |R|, ybot)
    {
      var r := r0;
      while r != |R|
        invariant r0 <= r <= |R|
        invariant r0 < r < |R| ==> R[r - 1].y1 != R[r].y1
        invariant TailAppended(old(rects), rects, R, r0, r, ybot)
      {
        var rBandEnd := FindBandEnd(R, r);
        if r == r0 { SplitStartsBand(R, r0, ybot); }
        assert IsBand(R, r, rBandEnd);
        BandIsSpanList(R, r, rBandEnd);
        ghost var before := rects;
        CopyBand(R, r, rBandEnd, Max(R[r].y1, ybot), R[r].y2);
        TailBandAppended(old(rects), before, rects, R, r0, r, rBandEnd, ybot);
        r := rBandEnd;
      }
    }
  }

  lemma SubtractStart(rects: seq<Box>, A: seq<Box>, a: nat, ea: nat, B: seq<Box>, b: nat, eb: nat, y1: int, y2: int)
    requires SpanList(A, a, ea) && SpanList(B, b, eb) && a < ea
    ensures SubtractSoFar(rects, rects, A, a, a, ea, B, b, b, eb, A[a].x1, y1, y2)
  {
    forall x
      ensures Hit(A, a, ea, x) <==> Left(A, a, ea, A[a].x1, x)
    {
      HitFirst(A, a, ea, x);
    }
  }
}
