/** What each part of one round of miRegionOp's main loop, and its tail, leaves behind. */
module SweepSteps {
  import opened Boxes
  import opened Sweep
  import opened BandOps

  /** The boxes before i end at or above row Y, the others reach below it. */
  ghost predicate Split(R: seq<Box>, i: int, Y: int) {
    && 0 <= i <= |R|
    && (forall k :: 0 <= k < i ==> R[k].y2 <= Y)
    && (forall k :: i <= k < |R| ==> R[k].y2 > Y)
  }

  /** prev is where the last band of O starts. */
  ghost predicate LastBand(O: seq<Box>, prev: nat) {
    if O == [] then prev == 0 else IsBand(O, prev, |O|)
  }

  /** The finished part of the result: exact above row Y, canonical if the sources are, last band known. */
  ghost predicate Finished(op: Op, A: seq<Box>, B: seq<Box>, O: seq<Box>, prev: nat, Y: int) {
    && SweptTo(op, A, B, O, Y) && LastBand(O, prev)
    && (Canonical(A) && Canonical(B) ==> Canonical(O))
  }

  /** The boxes a..ea are no boxes or a band: they do not touch if those of R do not. */
  ghost predicate PartOf(R: seq<Box>, a: int, ea: int) { 0 <= a <= ea <= |R| && (Separated(R) ==> Spaced(R, a, ea)) }

  /** The state at the head of miRegionOp's main loop. */
  ghost predicate SweepState(op: Op, A: seq<Box>, B: seq<Box>, O: seq<Box>, prev: nat, i: int, j: int, Y: int) {
    && Finished(op, A, B, O, prev, Y)
    && Split(A, i, Y) && Split(B, j, Y)
    && (i < |A| && j < |B| ==> A[i].y1 >= Y || B[j].y1 >= Y)
  }

  lemma SweepStart(op: Op, A: seq<Box>, B: seq<Box>, Y: int)
    requires Banded(A) && Banded(B) && A != [] && B != []
    requires Y == Min(A[0].y1, B[0].y1)
    ensures SweepState(op, A, B, [], 0, 0, 0, Y)
  {
    TopRow(A);
    TopRow(B);
    forall x, y
      ensures In([], x, y) <==> y < Y && Combine(op, In(A, x, y), In(B, x, y))
    {
    }
  }

  lemma TopRow(R: seq<Box>)
    requires Banded(R) && R != []
    ensures forall k :: 0 <= k < |R| ==> R[0].y1 <= R[k].y1 < R[k].y2
    ensures forall x, y :: In(R, x, y) ==> R[0].y1 <= y
  {
    forall k | 0 <= k < |R|
      ensures R[0].y1 <= R[k].y1 < R[k].y2
    {
      assert k == 0 || InOrder(R[0], R[k]);
    }
  }

  lemma ExtentsTop(R: seq<Box>, e: Box)
    requires Banded(R) && Bounds(R, e) && R != []
    ensures e.y1 == R[0].y1
  {
    TopRow(R);
    assert InBox(R[0], R[0].x1, R[0].y1);
    assert In(R, R[0].x1, R[0].y1);
  }

  lemma SplitStartsBand(R: seq<Box>, i: nat, Y: int)
    requires Banded(R) && Split(R, i, Y) && i < |R|
    ensures IsBand(R, i, BandEnd(R, i))
    ensures forall k :: BandEnd(R, i) <= k < |R| ==> R[i].y2 <= R[k].y1
    ensures forall k :: i <= k < BandEnd(R, i) ==> R[k].y2 == R[i].y2
  {
    var e := BandEnd(R, i);
    if i > 0 { assert InOrder(R[i - 1], R[i]); }
    BandIsSpanList(R, i, e);
    forall k | e <= k < |R|
      ensures R[i].y2 <= R[k].y1
    {
      BandsAfter(R, i, e, k);
    }
  }

  /** Rows inside the current band. */
  lemma RowsInBand(R: seq<Box>, i: nat, e: nat, lo: int, hi: int)
    requires Banded(R) && IsBand(R, i, e) && R[i].y1 <= lo && hi <= R[i].y2
    ensures RowsAre(R, i, e, lo, hi)
  {
    forall x, y | lo <= y < hi
      ensures In(R, x, y) <==> Hit(R, i, e, x)
    {
      BandRow(R, i, e, x, y);
    }
  }

  /** Rows above the current band. */
  lemma RowsAbove(R: seq<Box>, i: nat, Y: int, lo: int, hi: int)
    requires Banded(R) && Split(R, i, Y) && Y <= lo && (i < |R| ==> hi <= R[i].y1)
    ensures RowsAre(R, i, i, lo, hi)
  {
    forall x, y | lo <= y < hi
      ensures !In(R, x, y)
    {
      if In(R, x, y) {
        var k :| 0 <= k < |R| && InBox(R[k], x, y);
        if k > i { Ordered(R, i, k); }
      }
    }
  }

  lemma RowsAreNone(op: Op, A: seq<Box>, i: nat, B: seq<Box>, j: nat, lo: int, hi: int)
    requires i <= |A| && j <= |B| && RowsAre(A, i, i, lo, hi) && RowsAre(B, j, j, lo, hi)
    ensures NoRows(op, A, B, lo, hi)
  {
  }

  /** Rows above both current bands add nothing. */
  lemma SkipRows(op: Op, A: seq<Box>, i: nat, B: seq<Box>, j: nat, Y: int, top: int, O: seq<Box>, prev: nat)
    requires Banded(A) && Banded(B) && SweepState(op, A, B, O, prev, i, j, Y) && Y <= top
    requires i < |A| && j < |B|
    requires top <= Max(Y, Min(A[i].y1, B[j].y1))
    ensures Finished(op, A, B, O, prev, top)
  {
    if Y < top {
      RowsAbove(A, i, Y, Y, top);
      RowsAbove(B, j, Y, Y, top);
      RowsAreNone(op, A, i, B, j, Y, top);
    }
    AdvanceEmpty(op, A, B, O, Y, top);
  }

  /** Moving past the current band, if it ends at the new sweep row. */
  lemma AdvanceSplit(R: seq<Box>, i: nat, Y: int, i': nat, Y': int)
    requires Banded(R) && Split(R, i, Y) && i < |R| && Y <= Y' <= R[i].y2
    requires i' == if R[i].y2 == Y' then BandEnd(R, i) else i
    ensures Split(R, i', Y')
    ensures i < i' < |R| ==> R[i'].y1 >= Y'
  {
    SplitStartsBand(R, i, Y);
    forall k | i' <= k < |R|
      ensures R[k].y2 > Y'
    {
      if k > i { Ordered(R, i, k); assert InOrder(R[i], R[k]); }
    }
  }

  // ---------- appending one band and coalescing ----------

  /** After one band has been appended, miCoalesce may be called. */
  lemma ReadyToCoalesce(op: Op, A: seq<Box>, a: nat, ea: nat, B: seq<Box>, b: nat, eb: nat,
                        O: seq<Box>, prev: nat, N: seq<Box>, y1: int, y2: int)
    requires 0 <= a <= ea <= |A| && 0 <= b <= eb <= |B| && y1 < y2
    requires Finished(op, A, B, O, prev, y1)
    requires BandAppended(op, O, N, y1, y2, A, a, ea, B, b, eb)
    requires |N| > |O|
    ensures Banded(N) && prev <= |O|
    ensures IsBand(N, |O|, |N|) && BandEnd(N, |O|) == |N|
    ensures if prev < |O| then IsBand(N, prev, |O|) else |O| == 0
    ensures |O| > 0 ==> N[|O| - 1].y1 != N[|O|].y1
    ensures Canonical(A) && Canonical(B) && PartOf(A, a, ea) && PartOf(B, b, eb) ==> Separated(N) && CoalescedExcept(N, |O|)
  {
    AppendedIsBanded(O, N, y1, y2);
    assert forall k :: 0 <= k < |O| ==> N[k] == O[k];
    if Coalesced(O) { AppendedCoalesced(O, N, y1); }
  }

  lemma AppendedCoalesced(O: seq<Box>, N: seq<Box>, y1: int)
    requires Banded(O) && Coalesced(O) && Banded(N) && |O| < |N| && N[..|O|] == O
    requires forall k :: 0 <= k < |O| ==> O[k].y2 <= y1
    requires forall k :: |O| <= k < |N| ==> N[k].y1 == y1
    ensures CoalescedExcept(N, |O|)
  {
    forall p, q, r | IsBand(N, p, q) && IsBand(N, q, r) && q != |O|
      ensures !Mergeable(N, p, q, r)
    {
      KeepsUnmergeable(O, N, p, q, r, y1);
    }
  }

  lemma KeepsUnmergeable(O: seq<Box>, N: seq<Box>, p: int, q: int, r: int, y1: int)
    requires Banded(O) && Coalesced(O) && Banded(N) && |O| < |N| && N[..|O|] == O
    requires forall k :: 0 <= k < |O| ==> O[k].y2 <= y1
    requires forall k :: |O| <= k < |N| ==> N[k].y1 == y1
    requires IsBand(N, p, q) && IsBand(N, q, r) && q != |O|
    ensures !Mergeable(N, p, q, r)
  {
    assert forall k :: 0 <= k < |O| ==> N[k] == O[k];
    assert N[r - 1].y1 == N[q].y1;
    if q < |O| {
      assert r <= |O|;
      assert IsBand(O, p, q) && IsBand(O, q, r);
      PrefixMergeable(O, N, p, q, r);
    }
  }

  lemma PrefixMergeable(O: seq<Box>, N: seq<Box>, p: int, q: int, r: int)
    requires |O| <= |N| && N[..|O|] == O && 0 <= p < q < r <= |O|
    ensures Mergeable(N, p, q, r) <==> Mergeable(O, p, q, r)
  {
    assert forall k :: 0 <= k < |O| ==> N[k] == O[k];
  }

  /** miCoalesce on a freshly appended band finishes the rows down to y2. */
  lemma CoalescedBand(op: Op, A: seq<Box>, a: nat, ea: nat, B: seq<Box>, b: nat, eb: nat,
                      O: seq<Box>, prev: nat, N: seq<Box>, y1: int, y2: int, C: seq<Box>, prev': nat)
    requires 0 <= a <= ea <= |A| && 0 <= b <= eb <= |B| && y1 < y2
    requires Finished(op, A, B, O, prev, y1)
    requires BandAppended(op, O, N, y1, y2, A, a, ea, B, b, eb)
    requires RowsAre(A, a, ea, y1, y2) && RowsAre(B, b, eb, y1, y2)
    requires PartOf(A, a, ea) && PartOf(B, b, eb)
    requires |N| > |O| && prev <= |O| && IsCoalescedAt(N, prev, |O|, C)
    requires prev' == if C == N then |O| else prev
    ensures Finished(op, A, B, C, prev', y2)
  {
    ReadyToCoalesce(op, A, a, ea, B, b, eb, O, prev, N, y1, y2);
    CoalesceRestores(N, prev, |O|, C);
    AppendBand(op, A, a, ea, B, b, eb, O, N, y1, y2);
    SamePointsSwept(op, A, B, N, C, y2);
    if C != N { MergedLastBand(N, prev, |O|, C); }
  }

  lemma SamePointsSwept(op: Op, A: seq<Box>, B: seq<Box>, N: seq<Box>, C: seq<Box>, Y: int)
    requires SweptTo(op, A, B, N, Y) && Banded(C) && SamePoints(C, N)
    ensures SweptTo(op, A, B, C, Y)
  {
    forall x, y
      ensures In(C, x, y) <==> y < Y && Combine(op, In(A, x, y), In(B, x, y))
    {
      assert In(C, x, y) <==> In(N, x, y);
      assert In(N, x, y) <==> y < Y && Combine(op, In(A, x, y), In(B, x, y));
    }
    forall k | 0 <= k < |C|
      ensures C[k].y2 <= Y
    {
      assert InBox(C[k], C[k].x1, C[k].y2 - 1);
      assert In(C, C[k].x1, C[k].y2 - 1);
    }
  }

  /** After a merge the last band is the one it was merged into. */
  lemma MergedLastBand(N: seq<Box>, prev: nat, cur: nat, C: seq<Box>)
    requires Banded(N) && prev <= cur < |N| && IsBand(N, cur, |N|) && BandEnd(N, cur) == |N|
    requires prev < cur ==> IsBand(N, prev, cur)
    requires IsCoalescedAt(N, prev, cur, C) && C != N
    ensures LastBand(C, prev)
  {
    var n := cur - prev;
    assert MergeSite(N, cur, n);
    MergedAt(N, cur, n, C, prev);
    MergedAt(N, cur, n, C, cur - 1);
    if prev > 0 { MergedAt(N, cur, n, C, prev - 1); }
    BandIsSpanList(N, prev, cur);
  }

  // ---------- the tail ----------

  /** N is O followed by the boxes i.. of R, with tops clipped to row Y. */
  ghost predicate TailAppended(O: seq<Box>, N: seq<Box>, R: seq<Box>, i: int, r: int, Y: int) {
    && 0 <= i <= r <= |R| && |N| == |O| + (r - i) && N[..|O|] == O
    && (forall k, l :: |O| <= k < |N| && l - i == k - |O| ==> N[k] == R[l].(y1 := Max(R[l].y1, Y)))
  }

  lemma TailBandAppended(O: seq<Box>, M: seq<Box>, N: seq<Box>, R: seq<Box>, i: nat, r: nat, e: nat, Y: int)
    requires TailAppended(O, M, R, i, r, Y) && r < e <= |R|
    requires forall k :: r <= k < e ==> R[k].y1 == R[r].y1 && R[k].y2 == R[r].y2
    requires Copied(M, N, R, r, e, Max(R[r].y1, Y), R[r].y2)
    ensures TailAppended(O, N, R, i, e, Y)
  {
    assert forall k :: 0 <= k < |M| ==> N[k] == M[k];
    forall k, l | |O| <= k < |N| && l - i == k - |O|
      ensures N[k] == R[l].(y1 := Max(R[l].y1, Y))
    {
      if k < |M| { assert M[k] == R[l].(y1 := Max(R[l].y1, Y)); }
    }
    assert N[..|O|] == M[..|O|];
  }

  lemma TailPoints(O: seq<Box>, N: seq<Box>, R: seq<Box>, i: int, Y: int, x: int, y: int)
    requires Split(R, i, Y) && TailAppended(O, N, R, i, |R|, Y)
    ensures In(N, x, y) <==> In(O, x, y) || (y >= Y && In(R, x, y))
  {
    if In(O, x, y) {
      var k :| 0 <= k < |O| && InBox(O[k], x, y);
      assert N[k] == O[k];
    }
    if y >= Y && In(R, x, y) {
      var l :| 0 <= l < |R| && InBox(R[l], x, y);
      assert InBox(N[l - i + |O|], x, y);
    }
    if In(N, x, y) {
      var k :| 0 <= k < |N| && InBox(N[k], x, y);
      if k < |O| { assert N[k] == O[k]; } else { assert InBox(R[k - |O| + i], x, y); }
    }
  }

  /** A box of the appended tail. */
  lemma TailAt(O: seq<Box>, N: seq<Box>, R: seq<Box>, i: int, Y: int, k: int)
    requires Banded(R) && Split(R, i, Y) && TailAppended(O, N, R, i, |R|, Y)
    requires |O| <= k < |N|
    ensures N[k] == R[k - |O| + i].(y1 := Max(R[k - |O| + i].y1, Y))
    ensures R[k - |O| + i].y1 > R[i].y1 ==> N[k].y1 == R[k - |O| + i].y1 > Y
    ensures R[i].y1 <= R[k - |O| + i].y1
  {
    var l := k - |O| + i;
    assert l == i || InOrder(R[i], R[l]);
  }

  lemma TailIsBanded(O: seq<Box>, N: seq<Box>, R: seq<Box>, i: int, Y: int)
    requires Banded(O) && Banded(R) && Split(R, i, Y) && TailAppended(O, N, R, i, |R|, Y)
    requires forall k :: 0 <= k < |O| ==> O[k].y2 <= Y
    ensures Banded(N) && (Separated(O) && Separated(R) ==> Separated(N))
  {
    assert forall k :: 0 <= k < |O| ==> N[k] == O[k];
    if Separated(O) && Separated(R) { TailIsSeparated(O, N, R, i, Y); }
    forall k | |O| <= k < |N|
      ensures N[k].x1 < N[k].x2 && N[k].y1 < N[k].y2
    {
      TailAt(O, N, R, i, Y, k);
    }
    forall p, q | 0 <= p < q < |N|
      ensures InOrder(N[p], N[q])
    {
      if q < |O| {
        assert InOrder(O[p], O[q]);
      } else {
        TailAt(O, N, R, i, Y, q);
        if p >= |O| {
          TailAt(O, N, R, i, Y, p);
          assert InOrder(R[p - |O| + i], R[q - |O| + i]);
        }
      }
    }
  }

  lemma TailIsSeparated(O: seq<Box>, N: seq<Box>, R: seq<Box>, i: int, Y: int)
    requires Banded(O) && Banded(R) && Split(R, i, Y) && TailAppended(O, N, R, i, |R|, Y)
    requires Separated(O) && Separated(R) && forall k :: 0 <= k < |O| ==> O[k].y2 <= Y
    ensures Separated(N)
  {
    assert forall k :: 0 <= k < |O| ==> N[k] == O[k];
    forall p, q | 0 <= p < q < |N| && N[p].y1 == N[q].y1
      ensures Gapped(N[p], N[q])
    {
      if q < |O| {
        assert Gapped(O[p], O[q]);
      } else {
        TailAt(O, N, R, i, Y, q);
        if p >= |O| {
          TailAt(O, N, R, i, Y, p);
          var j, l := p - |O| + i, q - |O| + i;
          assert InOrder(R[j], R[l]);
          assert R[j].y1 == R[l].y1 ==> Gapped(R[j], R[l]);
        }
      }
    }
  }

  lemma TailBand(O: seq<Box>, N: seq<Box>, R: seq<Box>, i: int, Y: int, p: int, q: int)
    requires Banded(R) && Split(R, i, Y) && TailAppended(O, N, R, i, |R|, Y)
    requires |O| <= p && IsBand(N, p, q)
    ensures p > |O| || (i > 0 ==> R[i - 1].y1 != R[i].y1) ==> IsBand(R, p - |O| + i, q - |O| + i)
  {
    TailAt(O, N, R, i, Y, p);
    TailAt(O, N, R, i, Y, q - 1);
    if p > |O| { TailAt(O, N, R, i, Y, p - 1); }
    if q < |N| { TailAt(O, N, R, i, Y, q); }
    var d := i - |O|;
    assert p == q - 1 || InOrder(R[p + d], R[q - 1 + d]);
    if q < |N| { assert InOrder(R[q - 1 + d], R[q + d]); }
  }

  lemma TailCoalesced(O: seq<Box>, N: seq<Box>, R: seq<Box>, i: int, Y: int)
    requires Canonical(O) && Canonical(R) && Split(R, i, Y) && TailAppended(O, N, R, i, |R|, Y)
    requires forall k :: 0 <= k < |O| ==> O[k].y2 <= Y
    requires i < |R|
    ensures CoalescedExcept(N, |O|)
  {
    TailIsBanded(O, N, R, i, Y);
    assert forall k :: 0 <= k < |O| ==> N[k] == O[k];
    TailAt(O, N, R, i, Y, |O|);
    forall p, q, r | IsBand(N, p, q) && IsBand(N, q, r) && q != |O|
      ensures !Mergeable(N, p, q, r)
    {
      if q < |O| {
        assert r <= |O| by {
          if r > |O| { BandIsSpanList(N, q, r); }
        }
        assert IsBand(O, p, q) && IsBand(O, q, r);
        PrefixMergeable(O, N, p, q, r);
      } else {
        assert p >= |O| by {
          if p < |O| { BandIsSpanList(N, p, q); }
        }
        TailUnmergeable(O, N, R, i, Y, p, q, r);
      }
    }
  }

  lemma TailSpans(O: seq<Box>, N: seq<Box>, R: seq<Box>, i: int, Y: int, p: int, q: int)
    requires Banded(R) && Split(R, i, Y) && TailAppended(O, N, R, i, |R|, Y)
    requires |O| <= p < q && q + (q - p) <= |N| && SameSpans(N, p, N, q, q - p)
    ensures SameSpans(R, p - |O| + i, R, q - |O| + i, q - p)
  {
    var d := i - |O|;
    forall k, l | p + d <= k < q + d && l - (q + d) == k - (p + d)
      ensures SameSpan(R[k], R[l])
    {
      TailAt(O, N, R, i, Y, k - d);
      TailAt(O, N, R, i, Y, l - d);
      assert SameSpan(N[k - d], N[l - d]);
    }
  }

  lemma TailUnmergeable(O: seq<Box>, N: seq<Box>, R: seq<Box>, i: int, Y: int, p: int, q: int, r: int)
    requires Canonical(R) && Split(R, i, Y) && TailAppended(O, N, R, i, |R|, Y) && i < |R|
    requires |O| <= p && IsBand(N, p, q) && IsBand(N, q, r)
    ensures !Mergeable(N, p, q, r)
  {
    var d := i - |O|;
    SplitStartsBand(R, i, Y);
    TailBand(O, N, R, i, Y, p, q);
    TailBand(O, N, R, i, Y, q, r);
    if Mergeable(N, p, q, r) {
      TailSpans(O, N, R, i, Y, p, q);
      TailAt(O, N, R, i, Y, p);
      TailAt(O, N, R, i, Y, q);
      TailAt(O, N, R, i, Y, q - 1);
      Ordered(R, q - 1 + d, q + d);
      if q - 1 + d > i { Ordered(R, i, q - 1 + d); }
      assert Mergeable(R, p + d, q + d, r + d);
    }
  }

  /** Once one region is used up the rest of the other is copied: the boxes are then exactly the
      combination, and only the pair of bands at the seam may still be mergeable. */
  lemma TailDone(op: Op, A: seq<Box>, B: seq<Box>, O: seq<Box>, prev: nat, i: int, j: int, Y: int,
                 R: seq<Box>, r: int, N: seq<Box>)
    requires SweepState(op, A, B, O, prev, i, j, Y) && Banded(R) && Split(R, r, Y)
    requires (R == A && r == i && j == |B| && !op.Intersect?) || (R == B && r == j && i == |A| && op.Union?)
    requires TailAppended(O, N, R, r, |R|, Y) && |N| > |O|
    ensures Banded(N) && prev <= |O|
    ensures Canonical(A) && Canonical(B) ==> Separated(N) && CoalescedExcept(N, |O|)
    ensures if prev < |O| then IsBand(N, prev, |O|) else |O| == 0
    ensures |O| > 0 ==> N[|O| - 1].y1 != N[|O|].y1
    ensures Combined(op, A, B, N)
  {
    TailIsBanded(O, N, R, r, Y);
    if Canonical(A) && Canonical(B) { TailCoalesced(O, N, R, r, Y); }
    TailAt(O, N, R, r, Y, |O|);
    assert forall k :: 0 <= k < |O| ==> N[k] == O[k];
    forall x, y
      ensures In(N, x, y) <==> Combine(op, In(A, x, y), In(B, x, y))
    {
      TailPoints(O, N, R, r, Y, x, y);
      assert In(O, x, y) <==> y < Y && Combine(op, In(A, x, y), In(B, x, y));
    }
  }

  /** With no tail to copy, the finished part is the whole result. */
  lemma NoTail(op: Op, A: seq<Box>, B: seq<Box>, O: seq<Box>, prev: nat, i: int, j: int, Y: int)
    requires SweepState(op, A, B, O, prev, i, j, Y)
    requires (i == |A| && j == |B|) || (op.Intersect? && (i == |A| || j == |B|)) || (op.Subtract? && i == |A|)
    ensures Combined(op, A, B, O)
  {
    forall x, y
      ensures In(O, x, y) <==> Combine(op, In(A, x, y), In(B, x, y))
    {
      assert In(O, x, y) <==> y < Y && Combine(op, In(A, x, y), In(B, x, y));
    }
  }
}
