/** What one round of the per-band routines of Region.c (miUnionNonO, miIntersectO, miUnionO,
    miSubtractO) does to the output band under construction. */
module BandOps {
  import opened Boxes
  import opened Sweep

  /** Column lists under construction: the boxes from lo on form one band y1..y2. */
  ghost predicate Row(N: seq<Box>, lo: nat, y1: int, y2: int) {
    && lo <= |N|
    && SpanList(N, lo, |N|)
    && (forall k :: lo <= k < |N| ==> N[k].y1 == y1 && N[k].y2 == y2)
  }

  lemma HitSnoc(N: seq<Box>, lo: nat, b: Box, x: int)
    requires lo <= |N|
    ensures Hit(N + [b], lo, |N| + 1, x) <==> Hit(N, lo, |N|, x) || b.x1 <= x < b.x2
  {
    var M := N + [b];
    if Hit(N, lo, |N|, x) {
      var k :| lo <= k < |N| && N[k].x1 <= x < N[k].x2;
      assert M[k] == N[k];
    }
    if b.x1 <= x < b.x2 { assert M[|N|] == b; }
    if Hit(M, lo, |N| + 1, x) {
      var k :| lo <= k < |M| && M[k].x1 <= x < M[k].x2;
      if k < |N| { assert N[k] == M[k]; }
    }
  }

  /** Peels the first box off a range. */
  lemma HitFirst(R: seq<Box>, lo: nat, hi: nat, x: int)
    requires lo < hi <= |R|
    ensures Hit(R, lo, hi, x) <==> R[lo].x1 <= x < R[lo].x2 || Hit(R, lo + 1, hi, x)
  {
    if Hit(R, lo, hi, x) {
      var k :| lo <= k < hi && R[k].x1 <= x < R[k].x2;
      if k > lo { assert Hit(R, lo + 1, hi, x); }
    }
  }

  lemma HitLast(R: seq<Box>, lo: nat, hi: nat, x: int)
    requires lo <= hi < |R|
    ensures Hit(R, lo, hi + 1, x) <==> Hit(R, lo, hi, x) || R[hi].x1 <= x < R[hi].x2
  {
    if Hit(R, lo, hi + 1, x) {
      var k :| lo <= k < hi + 1 && R[k].x1 <= x < R[k].x2;
      if k < hi { assert Hit(R, lo, hi, x); }
    }
  }

  // ---------- copying a band ----------

  /** out is rects followed by the columns r0..r of R, at rows y1..y2. */
  ghost predicate Copied(rects: seq<Box>, out: seq<Box>, R: seq<Box>, r0: nat, r: nat, y1: int, y2: int) {
    && r0 <= r <= |R| && |out| == |rects| + (r - r0) && out[..|rects|] == rects
    && (forall i, j :: |rects| <= i < |out| && j - r0 == i - |rects| ==> out[i] == Box(R[j].x1, R[j].x2, y1, y2))
  }

  lemma CopiedRow(rects: seq<Box>, out: seq<Box>, R: seq<Box>, r0: nat, r: nat, y1: int, y2: int)
    requires Copied(rects, out, R, r0, r, y1, y2) && SpanList(R, r0, r)
    ensures Row(out, |rects|, y1, y2)
    ensures forall x :: Hit(out, |rects|, |out|, x) <==> Hit(R, r0, r, x)
    ensures Spaced(R, r0, r) ==> Spaced(out, |rects|, |out|)
  {
    assert forall k :: |rects| <= k < |out| ==> out[k] == Box(R[k - |rects| + r0].x1, R[k - |rects| + r0].x2, y1, y2);
    forall j, k | |rects| <= j < k < |out|
      ensures Apart(out[j], out[k])
    {
      assert Apart(R[j - |rects| + r0], R[k - |rects| + r0]);
    }
    forall j, k | |rects| <= j < k < |out|
      ensures Spaced(R, r0, r) ==> Gapped(out[j], out[k])
    {
      assert Spaced(R, r0, r) ==> Gapped(R[j - |rects| + r0], R[k - |rects| + r0]);
    }
    forall x
      ensures Hit(out, |rects|, |out|, x) <==> Hit(R, r0, r, x)
    {
      if Hit(out, |rects|, |out|, x) {
        var k :| |rects| <= k < |out| && out[k].x1 <= x < out[k].x2;
        assert R[k - |rects| + r0].x1 <= x;
      }
      if Hit(R, r0, r, x) {
        var k :| r0 <= k < r && R[k].x1 <= x < R[k].x2;
        assert out[k - r0 + |rects|].x1 <= x;
      }
    }
  }

  // ---------- intersection ----------

  ghost predicate IntersectSoFar(rects: seq<Box>, out: seq<Box>, A: seq<Box>, a: nat, r1: nat, ea: nat,
                                 B: seq<Box>, b: nat, r2: nat, eb: nat, y1: int, y2: int)
    requires SpanList(A, a, ea) && SpanList(B, b, eb)
  {
    && a <= r1 <= ea && b <= r2 <= eb
    && |rects| <= |out| && out[..|rects|] == rects && Row(out, |rects|, y1, y2)
    && (|out| > |rects| && r1 < ea && r2 < eb ==> out[|out| - 1].x2 <= Max(A[r1].x1, B[r2].x1))
    && (Spaced(A, a, ea) && Spaced(B, b, eb) ==>
          && Spaced(out, |rects|, |out|)
          && (|out| > |rects| && r1 < ea && r2 < eb ==> out[|out| - 1].x2 < Max(A[r1].x1, B[r2].x1)))
    && (forall x :: Hit(A, a, ea, x) && Hit(B, b, eb, x) <==>
          Hit(out, |rects|, |out|, x) || (Hit(A, r1, ea, x) && Hit(B, r2, eb, x)))
  }

  /** Advancing past the box that ends first loses only the overlap of the two boxes. */
  lemma OverlapStep(A: seq<Box>, r1: nat, ea: nat, B: seq<Box>, r2: nat, eb: nat, r1': nat, r2': nat, x: int)
    requires SpanList(A, r1, ea) && SpanList(B, r2, eb) && r1 < ea && r2 < eb
    requires r1' == if A[r1].x2 <= B[r2].x2 then r1 + 1 else r1
    requires r2' == if B[r2].x2 <= A[r1].x2 then r2 + 1 else r2
    ensures Hit(A, r1, ea, x) && Hit(B, r2, eb, x) <==>
      || Max(A[r1].x1, B[r2].x1) <= x < Min(A[r1].x2, B[r2].x2)
      || (Hit(A, r1', ea, x) && Hit(B, r2', eb, x))
  {
    HitFirst(A, r1, ea, x);
    HitFirst(B, r2, eb, x);
    if Hit(A, r1 + 1, ea, x) { assert Apart(A[r1], A[r1 + 1]); StartsLeft(A, r1 + 1, ea, x); }
    if Hit(B, r2 + 1, eb, x) { assert Apart(B[r2], B[r2 + 1]); StartsLeft(B, r2 + 1, eb, x); }
  }

  /** What one round of miIntersectO appends to the band. */
  function OverlapBox(out: seq<Box>, p: Box, q: Box, y1: int, y2: int): seq<Box> {
    var x1, x2 := Max(p.x1, q.x1), Min(p.x2, q.x2);
    if x1 < x2 then out + [Box(x1, x2, y1, y2)] else out
  }

  /** A span right of the last one extends the row. */
  lemma RowSnoc(out: seq<Box>, lo: nat, p: Box)
    requires Row(out, lo, p.y1, p.y2) && p.x1 < p.x2
    requires |out| > lo ==> out[|out| - 1].x2 <= p.x1
    ensures Row(out + [p], lo, p.y1, p.y2)
    ensures Spaced(out, lo, |out|) && (|out| > lo ==> out[|out| - 1].x2 < p.x1) ==> Spaced(out + [p], lo, |out| + 1)
  {
    if Spaced(out, lo, |out|) && (|out| > lo ==> out[|out| - 1].x2 < p.x1) { SpacedSnoc(out, lo, p); }
    var N := out + [p];
    forall j, k | lo <= j < k < |N|
      ensures Apart(N[j], N[k])
    {
      if k < |out| {
        assert Apart(out[j], out[k]);
      } else {
        assert j == |out| - 1 || Apart(out[j], out[|out| - 1]);
      }
    }
  }

  lemma SpacedSnoc(out: seq<Box>, lo: nat, p: Box)
    requires lo <= |out| && SpanList(out, lo, |out|) && Spaced(out, lo, |out|)
    requires |out| > lo ==> out[|out| - 1].x2 < p.x1
    ensures Spaced(out + [p], lo, |out| + 1)
  {
    var N := out + [p];
    forall j, k | lo <= j < k < |N|
      ensures Gapped(N[j], N[k])
    {
      if k < |out| {
        assert Gapped(out[j], out[k]);
      } else {
        assert j == |out| - 1 || Gapped(out[j], out[|out| - 1]);
      }
    }
  }

  lemma OverlapHit(out: seq<Box>, lo: nat, p: Box, q: Box, y1: int, y2: int, x: int)
    requires lo <= |out|
    ensures lo <= |OverlapBox(out, p, q, y1, y2)|
    ensures Hit(OverlapBox(out, p, q, y1, y2), lo, |OverlapBox(out, p, q, y1, y2)|, x) <==>
            Hit(out, lo, |out|, x) || Max(p.x1, q.x1) <= x < Min(p.x2, q.x2)
  {
    HitSnoc(out, lo, Box(Max(p.x1, q.x1), Min(p.x2, q.x2), y1, y2), x);
  }

  lemma OverlapRow(out: seq<Box>, lo: nat, p: Box, q: Box, y1: int, y2: int)
    requires Row(out, lo, y1, y2)
    requires |out| > lo ==> out[|out| - 1].x2 <= Max(p.x1, q.x1)
    ensures var out' := OverlapBox(out, p, q, y1, y2);
      && |out| <= |out'| && out'[..lo] == out[..lo] && Row(out', lo, y1, y2)
      && (|out'| > lo ==> out'[|out'| - 1].x2 <= Max(Max(p.x1, q.x1), Min(p.x2, q.x2)))
      && (Spaced(out, lo, |out|) && (|out| > lo ==> out[|out| - 1].x2 < Max(p.x1, q.x1)) ==>
            && Spaced(out', lo, |out'|)
            && (|out'| > lo ==> out'[|out'| - 1].x2 <= Max(Max(p.x1, q.x1) - 1, Min(p.x2, q.x2))))
  {
    var x1, x2 := Max(p.x1, q.x1), Min(p.x2, q.x2);
    if x1 < x2 { RowSnoc(out, lo, Box(x1, x2, y1, y2)); }
  }

  lemma IntersectStep(rects: seq<Box>, out: seq<Box>, A: seq<Box>, a: nat, r1: nat, ea: nat,
                      B: seq<Box>, b: nat, r2: nat, eb: nat, y1: int, y2: int, r1': nat, r2': nat)
    requires SpanList(A, a, ea) && SpanList(B, b, eb)
    requires IntersectSoFar(rects, out, A, a, r1, ea, B, b, r2, eb, y1, y2)
    requires r1 < ea && r2 < eb
    requires r1' == if A[r1].x2 <= B[r2].x2 then r1 + 1 else r1
    requires r2' == if B[r2].x2 <= A[r1].x2 then r2 + 1 else r2
    ensures IntersectSoFar(rects, OverlapBox(out, A[r1], B[r2], y1, y2), A, a, r1', ea, B, b, r2', eb, y1, y2)
  {
    var out' := OverlapBox(out, A[r1], B[r2], y1, y2);
    OverlapRow(out, |rects|, A[r1], B[r2], y1, y2);
    if r1 + 1 < ea { assert Apart(A[r1], A[r1 + 1]) && (Spaced(A, a, ea) ==> Gapped(A[r1], A[r1 + 1])); }
    if r2 + 1 < eb { assert Apart(B[r2], B[r2 + 1]) && (Spaced(B, b, eb) ==> Gapped(B[r2], B[r2 + 1])); }
    forall x
      ensures Hit(A, a, ea, x) && Hit(B, b, eb, x) <==>
                Hit(out', |rects|, |out'|, x) || (Hit(A, r1', ea, x) && Hit(B, r2', eb, x))
    {
      assert Hit(A, a, ea, x) && Hit(B, b, eb, x) <==>
             Hit(out, |rects|, |out|, x) || (Hit(A, r1, ea, x) && Hit(B, r2, eb, x));
      OverlapHit(out, |rects|, A[r1], B[r2], y1, y2, x);
      OverlapStep(A, r1, ea, B, r2, eb, r1', r2', x);
    }
  }

  // ---------- union ----------

  /** What MERGERECT leaves: the last box of the band extended, or a new box. */
  function MergeRect(rects: seq<Box>, r: Box, y1: int, y2: int): seq<Box> {
    var last := |rects| - 1;
    if rects != [] && rects[last].y1 == y1 && rects[last].y2 == y2 && rects[last].x2 >= r.x1 then
      rects[last := rects[last].(x2 := Max(rects[last].x2, r.x2))]
    else
      rects + [Box(r.x1, r.x2, y1, y2)]
  }

  lemma MergeRectRow(rects: seq<Box>, lo: nat, r: Box, y1: int, y2: int)
    requires Row(rects, lo, y1, y2) && y1 < y2 && r.x1 < r.x2
    requires lo > 0 ==> rects[lo - 1].y2 <= y1
    requires |rects| > lo ==> rects[|rects| - 1].x1 <= r.x1
    ensures var out := MergeRect(rects, r, y1, y2);
      && |rects| <= |out| && out[..lo] == rects[..lo] && Row(out, lo, y1, y2)
      && |out| > lo && out[|out| - 1].x1 <= r.x1
      && (Spaced(rects, lo, |rects|) ==> Spaced(out, lo, |out|))
  {
    var out := MergeRect(rects, r, y1, y2);
    if |out| == |rects| {
      assert |rects| > lo;
      if Spaced(rects, lo, |rects|) {
        forall j, k | lo <= j < k < |out|
          ensures Gapped(out[j], out[k])
        {
          assert Gapped(rects[j], rects[k]);
        }
      }
      forall j, k | lo <= j < k < |out|
        ensures Apart(out[j], out[k])
      {
        assert Apart(rects[j], rects[k]);
      }
    } else {
      RowSnoc(rects, lo, Box(r.x1, r.x2, y1, y2));
    }
  }

  lemma MergeRectHit(rects: seq<Box>, lo: nat, r: Box, y1: int, y2: int, x: int)
    requires Row(rects, lo, y1, y2) && y1 < y2 && r.x1 < r.x2
    requires lo > 0 ==> rects[lo - 1].y2 <= y1
    requires |rects| > lo ==> rects[|rects| - 1].x1 <= r.x1
    ensures lo <= |MergeRect(rects, r, y1, y2)|
    ensures Hit(MergeRect(rects, r, y1, y2), lo, |MergeRect(rects, r, y1, y2)|, x) <==>
            Hit(rects, lo, |rects|, x) || r.x1 <= x < r.x2
  {
    var out := MergeRect(rects, r, y1, y2);
    if |out| == |rects| {
      var n := |rects| - 1;
      assert n >= lo;
      HitLast(out, lo, n, x);
      HitLast(rects, lo, n, x);
      if Hit(out, lo, n, x) { var k :| lo <= k < n && out[k].x1 <= x < out[k].x2; assert rects[k] == out[k]; }
      if Hit(rects, lo, n, x) { var k :| lo <= k < n && rects[k].x1 <= x < rects[k].x2; assert rects[k] == out[k]; }
    } else {
      HitSnoc(rects, lo, Box(r.x1, r.x2, y1, y2), x);
    }
  }

  /** The boxes before r1 and r2 have been merged into the band. */
  ghost predicate UnionSoFar(rects: seq<Box>, out: seq<Box>, A: seq<Box>, a: nat, r1: nat, ea: nat,
                             B: seq<Box>, b: nat, r2: nat, eb: nat, y1: int, y2: int)
    requires SpanList(A, a, ea) && SpanList(B, b, eb)
  {
    && a <= r1 <= ea && b <= r2 <= eb
    && |rects| <= |out| && out[..|rects|] == rects && Row(out, |rects|, y1, y2) && Spaced(out, |rects|, |out|)
    && (|out| > |rects| && r1 < ea ==> out[|out| - 1].x1 <= A[r1].x1)
    && (|out| > |rects| && r2 < eb ==> out[|out| - 1].x1 <= B[r2].x1)
    && (forall x :: Hit(out, |rects|, |out|, x) <==> Hit(A, a, r1, x) || Hit(B, b, r2, x))
  }

  /** Merging the leftmost remaining box, here of A. */
  lemma UnionStep(rects: seq<Box>, out: seq<Box>, A: seq<Box>, a: nat, r1: nat, ea: nat,
                  B: seq<Box>, b: nat, r2: nat, eb: nat, y1: int, y2: int)
    requires SpanList(A, a, ea) && SpanList(B, b, eb) && y1 < y2
    requires rects != [] ==> rects[|rects| - 1].y2 <= y1
    requires UnionSoFar(rects, out, A, a, r1, ea, B, b, r2, eb, y1, y2)
    requires r1 < ea && (r2 < eb ==> A[r1].x1 <= B[r2].x1)
    ensures UnionSoFar(rects, MergeRect(out, A[r1], y1, y2), A, a, r1 + 1, ea, B, b, r2, eb, y1, y2)
  {
    var out' := MergeRect(out, A[r1], y1, y2);
    if r1 + 1 < ea { assert Apart(A[r1], A[r1 + 1]); }
    assert rects != [] ==> out[|rects| - 1] == rects[|rects| - 1];
    MergeRectRow(out, |rects|, A[r1], y1, y2);
    forall x
      ensures Hit(out', |rects|, |out'|, x) <==> Hit(A, a, r1 + 1, x) || Hit(B, b, r2, x)
    {
      HitLast(A, a, r1, x);
      MergeRectHit(out, |rects|, A[r1], y1, y2, x);
      assert Hit(out, |rects|, |out|, x) <==> Hit(A, a, r1, x) || Hit(B, b, r2, x);
    }
  }

  lemma UnionSymmetric(rects: seq<Box>, out: seq<Box>, A: seq<Box>, a: nat, r1: nat, ea: nat,
                       B: seq<Box>, b: nat, r2: nat, eb: nat, y1: int, y2: int)
    requires SpanList(A, a, ea) && SpanList(B, b, eb)
    requires UnionSoFar(rects, out, A, a, r1, ea, B, b, r2, eb, y1, y2)
    ensures UnionSoFar(rects, out, B, b, r2, eb, A, a, r1, ea, y1, y2)
  {
    forall x
      ensures Hit(out, |rects|, |out|, x) <==> Hit(B, b, r2, x) || Hit(A, a, r1, x)
    {
      assert Hit(out, |rects|, |out|, x) <==> Hit(A, a, r1, x) || Hit(B, b, r2, x);
    }
  }

  lemma UnionStep2(rects: seq<Box>, out: seq<Box>, A: seq<Box>, a: nat, r1: nat, ea: nat,
                   B: seq<Box>, b: nat, r2: nat, eb: nat, y1: int, y2: int)
    requires SpanList(A, a, ea) && SpanList(B, b, eb) && y1 < y2
    requires rects != [] ==> rects[|rects| - 1].y2 <= y1
    requires UnionSoFar(rects, out, A, a, r1, ea, B, b, r2, eb, y1, y2)
    requires r2 < eb && (r1 < ea ==> B[r2].x1 <= A[r1].x1)
    ensures UnionSoFar(rects, MergeRect(out, B[r2], y1, y2), A, a, r1, ea, B, b, r2 + 1, eb, y1, y2)
  {
    UnionSymmetric(rects, out, A, a, r1, ea, B, b, r2, eb, y1, y2);
    UnionStep(rects, out, B, b, r2, eb, A, a, r1, ea, y1, y2);
    UnionSymmetric(rects, MergeRect(out, B[r2], y1, y2), B, b, r2 + 1, eb, A, a, r1, ea, y1, y2);
  }

  /** Once both bands are used up the output band is their union. */
  lemma UnionDone(rects: seq<Box>, out: seq<Box>, A: seq<Box>, a: nat, ea: nat,
                  B: seq<Box>, b: nat, eb: nat, y1: int, y2: int)
    requires SpanList(A, a, ea) && SpanList(B, b, eb)
    requires UnionSoFar(rects, out, A, a, ea, ea, B, b, eb, eb, y1, y2)
    ensures BandAppended(Union, rects, out, y1, y2, A, a, ea, B, b, eb)
  {
  }

  // ---------- subtraction ----------

  /** The columns of A not yet looked at: from x1 to the end of box r1, and the later boxes. */
  ghost predicate Left(A: seq<Box>, r1: nat, ea: nat, x1: int, x: int)
    requires r1 <= ea <= |A|
  {
    r1 < ea && (x1 <= x < A[r1].x2 || Hit(A, r1 + 1, ea, x))
  }

  /** Columns left of the fence x1 are settled, columns from the fence on are still to come. */
  ghost predicate SubtractSoFar(rects: seq<Box>, out: seq<Box>, A: seq<Box>, a: nat, r1: nat, ea: nat,
                                B: seq<Box>, b: nat, r2: nat, eb: nat, x1: int, y1: int, y2: int)
    requires SpanList(A, a, ea) && SpanList(B, b, eb)
  {
    && a <= r1 <= ea && b <= r2 <= eb
    && |rects| <= |out| && out[..|rects|] == rects && Row(out, |rects|, y1, y2)
    && (r1 < ea ==> A[r1].x1 <= x1 < A[r1].x2)
    && (|out| > |rects| && r1 < ea ==> out[|out| - 1].x2 <= x1)
    && (Spaced(A, a, ea) ==>
          && Spaced(out, |rects|, |out|)
          && (|out| > |rects| && r1 < ea ==> out[|out| - 1].x2 < x1))
    && (forall x :: Hit(A, a, ea, x) && !Hit(B, b, eb, x) <==>
          Hit(out, |rects|, |out|, x) || (Left(A, r1, ea, x1, x) && !Hit(B, r2, eb, x)))
  }

  /** Moving the fence over columns that the subtrahend r2 covers, or dropping a subtrahend
      that ends at or before the fence, changes nothing. */
  lemma FenceStep(A: seq<Box>, a: nat, r1: nat, ea: nat, B: seq<Box>, b: nat, r2: nat, eb: nat,
                  x1: int, r1': nat, r2': nat, x1': int, x: int)
    requires SpanList(A, a, ea) && SpanList(B, b, eb)
    requires a <= r1 < ea && b <= r2 < eb && A[r1].x1 <= x1 < A[r1].x2
    requires || (B[r2].x2 <= x1 && r1' == r1 && r2' == r2 + 1 && x1' == x1)
             || (B[r2].x1 <= x1 < B[r2].x2 < A[r1].x2 && r1' == r1 && r2' == r2 + 1 && x1' == B[r2].x2)
             || (B[r2].x1 <= x1 && A[r1].x2 <= B[r2].x2 && r1' == r1 + 1 && r2' == r2
                 && (r1' < ea ==> x1' == A[r1'].x1))
    ensures Left(A, r1, ea, x1, x) && !Hit(B, r2, eb, x) <==> Left(A, r1', ea, x1', x) && !Hit(B, r2', eb, x)
  {
    HitFirst(B, r2, eb, x);
    if Hit(A, r1 + 1, ea, x) { assert Apart(A[r1], A[r1 + 1]); StartsLeft(A, r1 + 1, ea, x); }
    if Hit(B, r2 + 1, eb, x) { assert Apart(B[r2], B[r2 + 1]); StartsLeft(B, r2 + 1, eb, x); }
    if r1 + 1 < ea { assert Apart(A[r1], A[r1 + 1]); HitFirst(A, r1 + 1, ea, x); }
  }

  /** Emitting the columns from the fence up to the next subtrahend or the end of the minuend. */
  lemma EmitStep(A: seq<Box>, a: nat, r1: nat, ea: nat, B: seq<Box>, b: nat, r2: nat, eb: nat,
                 x1: int, r1': nat, r2': nat, x1': int, x: int)
    requires SpanList(A, a, ea) && SpanList(B, b, eb)
    requires a <= r1 < ea && b <= r2 <= eb && A[r1].x1 <= x1 < A[r1].x2 && (r2 < eb ==> x1 < B[r2].x1)
    requires || (r2 < eb && B[r2].x2 < A[r1].x2 && r1' == r1 && r2' == r2 + 1 && x1' == B[r2].x2)
             || ((r2 < eb ==> A[r1].x2 <= B[r2].x2) && r1' == r1 + 1 && r2' == r2 && (r1' < ea ==> x1' == A[r1'].x1))
    ensures Left(A, r1, ea, x1, x) && !Hit(B, r2, eb, x) <==>
      || x1 <= x < (if r2 < eb then Min(A[r1].x2, B[r2].x1) else A[r1].x2)
      || (Left(A, r1', ea, x1', x) && !Hit(B, r2', eb, x))
  {
    if r2 < eb { HitFirst(B, r2, eb, x); }
    if Hit(A, r1 + 1, ea, x) { assert Apart(A[r1], A[r1 + 1]); StartsLeft(A, r1 + 1, ea, x); }
    if r2 < eb && Hit(B, r2 + 1, eb, x) { assert Apart(B[r2], B[r2 + 1]); StartsLeft(B, r2 + 1, eb, x); }
    if r1 + 1 < ea { assert Apart(A[r1], A[r1 + 1]); HitFirst(A, r1 + 1, ea, x); }
  }

  lemma SubtractSkip(rects: seq<Box>, out: seq<Box>, A: seq<Box>, a: nat, r1: nat, ea: nat,
                     B: seq<Box>, b: nat, r2: nat, eb: nat, x1: int, y1: int, y2: int,
                     r1': nat, r2': nat, x1': int)
    requires SpanList(A, a, ea) && SpanList(B, b, eb)
    requires SubtractSoFar(rects, out, A, a, r1, ea, B, b, r2, eb, x1, y1, y2)
    requires r1 < ea && r2 < eb
    requires || (B[r2].x2 <= x1 && r1' == r1 && r2' == r2 + 1 && x1' == x1)
             || (B[r2].x1 <= x1 < B[r2].x2 < A[r1].x2 && r1' == r1 && r2' == r2 + 1 && x1' == B[r2].x2)
             || (B[r2].x1 <= x1 && A[r1].x2 <= B[r2].x2 && r1' == r1 + 1 && r2' == r2
                 && (r1' < ea ==> x1' == A[r1'].x1))
    ensures SubtractSoFar(rects, out, A, a, r1', ea, B, b, r2', eb, x1', y1, y2)
  {
    if r1 + 1 < ea { assert Apart(A[r1], A[r1 + 1]) && (Spaced(A, a, ea) ==> Gapped(A[r1], A[r1 + 1])); }
    forall x
      ensures Hit(A, a, ea, x) && !Hit(B, b, eb, x) <==>
                Hit(out, |rects|, |out|, x) || (Left(A, r1', ea, x1', x) && !Hit(B, r2', eb, x))
    {
      assert Hit(A, a, ea, x) && !Hit(B, b, eb, x) <==>
             Hit(out, |rects|, |out|, x) || (Left(A, r1, ea, x1, x) && !Hit(B, r2, eb, x));
      FenceStep(A, a, r1, ea, B, b, r2, eb, x1, r1', r2', x1', x);
    }
  }

  lemma SubtractEmit(rects: seq<Box>, out: seq<Box>, A: seq<Box>, a: nat, r1: nat, ea: nat,
                     B: seq<Box>, b: nat, r2: nat, eb: nat, x1: int, y1: int, y2: int,
                     r1': nat, r2': nat, x1': int, out': seq<Box>)
    requires SpanList(A, a, ea) && SpanList(B, b, eb)
    requires SubtractSoFar(rects, out, A, a, r1, ea, B, b, r2, eb, x1, y1, y2)
    requires r1 < ea && (r2 < eb ==> x1 < B[r2].x1)
    requires || (r2 < eb && B[r2].x2 < A[r1].x2 && r1' == r1 && r2' == r2 + 1 && x1' == B[r2].x2)
             || ((r2 < eb ==> A[r1].x2 <= B[r2].x2) && r1' == r1 + 1 && r2' == r2 && (r1' < ea ==> x1' == A[r1'].x1))
    requires out' == out + [Box(x1, if r2 < eb then Min(A[r1].x2, B[r2].x1) else A[r1].x2, y1, y2)]
    ensures SubtractSoFar(rects, out', A, a, r1', ea, B, b, r2', eb, x1', y1, y2)
  {
    var p := Box(x1, if r2 < eb then Min(A[r1].x2, B[r2].x1) else A[r1].x2, y1, y2);
    RowSnoc(out, |rects|, p);
    if r1 + 1 < ea { assert Apart(A[r1], A[r1 + 1]) && (Spaced(A, a, ea) ==> Gapped(A[r1], A[r1 + 1])); }
    forall x
      ensures Hit(A, a, ea, x) && !Hit(B, b, eb, x) <==>
                Hit(out', |rects|, |out'|, x) || (Left(A, r1', ea, x1', x) && !Hit(B, r2', eb, x))
    {
      assert Hit(A, a, ea, x) && !Hit(B, b, eb, x) <==>
             Hit(out, |rects|, |out|, x) || (Left(A, r1, ea, x1, x) && !Hit(B, r2, eb, x));
      EmitStep(A, a, r1, ea, B, b, r2, eb, x1, r1', r2', x1', x);
      HitSnoc(out, |rects|, p, x);
    }
  }
}
