/** What one step of the band sweep of miRegionOp does to the points of the region under
    construction, and what miCoalesce does to its boxes. */
module Sweep {
  import opened Boxes

  /** The three operations that drive the sweep. */
  datatype Op = Union | Intersect | Subtract

  predicate Combine(op: Op, a: bool, b: bool) {
    match op
    case Union => a || b
    case Intersect => a && b
    case Subtract => a && !b
  }

  /** N holds exactly the combination of the points of A and B. */
  ghost predicate Combined(op: Op, A: seq<Box>, B: seq<Box>, N: seq<Box>) {
    forall x, y {:trigger In(N, x, y)} :: In(N, x, y) <==> Combine(op, In(A, x, y), In(B, x, y))
  }

  /** O is the finished part of the result above row Y. */
  ghost predicate SweptTo(op: Op, A: seq<Box>, B: seq<Box>, O: seq<Box>, Y: int) {
    && Banded(O)
    && (forall k :: 0 <= k < |O| ==> O[k].y2 <= Y)
    && (forall x, y :: In(O, x, y) <==> y < Y && Combine(op, In(A, x, y), In(B, x, y)))
  }

  /** new is old followed by one band y1..y2 whose columns are the combination of the
      columns of A[a..ea] and B[b..eb]; its boxes do not touch if theirs do not. */
  ghost predicate BandAppended(op: Op, old': seq<Box>, new': seq<Box>, y1: int, y2: int,
                               A: seq<Box>, a: int, ea: int, B: seq<Box>, b: int, eb: int)
    requires 0 <= a <= ea <= |A| && 0 <= b <= eb <= |B|
  {
    && |old'| <= |new'| && new'[..|old'|] == old'
    && SpanList(new', |old'|, |new'|)
    && (forall k :: |old'| <= k < |new'| ==> new'[k].y1 == y1 && new'[k].y2 == y2)
    && (forall x :: Hit(new', |old'|, |new'|, x) <==> Combine(op, Hit(A, a, ea, x), Hit(B, b, eb, x)))
    && (Spaced(A, a, ea) && Spaced(B, b, eb) ==> Spaced(new', |old'|, |new'|))
  }

  /** Rows lo..hi hold no point of the combined set. */
  ghost predicate NoRows(op: Op, A: seq<Box>, B: seq<Box>, lo: int, hi: int) {
    forall x, y :: lo <= y < hi ==> !Combine(op, In(A, x, y), In(B, x, y))
  }

  lemma AdvanceEmpty(op: Op, A: seq<Box>, B: seq<Box>, O: seq<Box>, Y: int, Y': int)
    requires SweptTo(op, A, B, O, Y) && Y <= Y' && NoRows(op, A, B, Y, Y')
    ensures SweptTo(op, A, B, O, Y')
  {
    forall x, y
      ensures In(O, x, y) <==> y < Y' && Combine(op, In(A, x, y), In(B, x, y))
    {
      assert In(O, x, y) <==> y < Y && Combine(op, In(A, x, y), In(B, x, y));
    }
  }

  /** Rows lo..hi of R are covered exactly by the boxes a..ea. */
  ghost predicate RowsAre(R: seq<Box>, a: int, ea: int, lo: int, hi: int)
    requires 0 <= a <= ea <= |R|
  {
    forall x, y :: lo <= y < hi ==> (In(R, x, y) <==> Hit(R, a, ea, x))
  }

  lemma AppendedPoints(O: seq<Box>, N: seq<Box>, y1: int, y2: int, x: int, y: int)
    requires |O| <= |N| && N[..|O|] == O
    requires forall k :: |O| <= k < |N| ==> N[k].y1 == y1 && N[k].y2 == y2
    ensures In(N, x, y) <==> In(O, x, y) || (y1 <= y < y2 && Hit(N, |O|, |N|, x))
  {
    if In(O, x, y) {
      var k :| 0 <= k < |O| && InBox(O[k], x, y);
      assert N[k] == O[k];
    }
    if y1 <= y < y2 && Hit(N, |O|, |N|, x) {
      var k :| |O| <= k < |N| && N[k].x1 <= x < N[k].x2;
      assert InBox(N[k], x, y);
    }
    if In(N, x, y) {
      var k :| 0 <= k < |N| && InBox(N[k], x, y);
      if k < |O| { assert N[k] == O[k]; }
    }
  }

  lemma AppendBand(op: Op, A: seq<Box>, a: int, ea: int, B: seq<Box>, b: int, eb: int,
                   O: seq<Box>, N: seq<Box>, y1: int, y2: int)
    requires 0 <= a <= ea <= |A| && 0 <= b <= eb <= |B|
    requires SweptTo(op, A, B, O, y1) && y1 < y2
    requires BandAppended(op, O, N, y1, y2, A, a, ea, B, b, eb)
    requires RowsAre(A, a, ea, y1, y2) && RowsAre(B, b, eb, y1, y2)
    ensures SweptTo(op, A, B, N, y2)
  {
    forall x, y
      ensures In(N, x, y) <==> y < y2 && Combine(op, In(A, x, y), In(B, x, y))
    {
      AppendedPoints(O, N, y1, y2, x, y);
      assert In(O, x, y) <==> y < y1 && Combine(op, In(A, x, y), In(B, x, y));
    }
    AppendedIsBanded(O, N, y1, y2);
  }

  lemma AppendedIsBanded(O: seq<Box>, N: seq<Box>, y1: int, y2: int)
    requires Banded(O) && |O| <= |N| && N[..|O|] == O && y1 < y2
    requires forall k :: 0 <= k < |O| ==> O[k].y2 <= y1
    requires SpanList(N, |O|, |N|)
    requires forall k :: |O| <= k < |N| ==> N[k].y1 == y1 && N[k].y2 == y2
    ensures Banded(N)
    ensures forall k :: 0 <= k < |N| ==> N[k].y2 <= y2
    ensures Separated(O) && Spaced(N, |O|, |N|) ==> Separated(N)
  {
    assert forall k :: 0 <= k < |O| ==> N[k] == O[k];
    if Separated(O) && Spaced(N, |O|, |N|) { AppendedIsSeparated(O, N, y1); }
    forall i, j | 0 <= i < j < |N|
      ensures InOrder(N[i], N[j])
    {
      if j < |O| { assert InOrder(O[i], O[j]); } else if |O| <= i { assert Apart(N[i], N[j]); }
    }
  }

  lemma AppendedIsSeparated(O: seq<Box>, N: seq<Box>, y1: int)
    requires Banded(O) && Separated(O) && |O| <= |N| && N[..|O|] == O && Spaced(N, |O|, |N|)
    requires forall k :: 0 <= k < |O| ==> O[k].y2 <= y1
    requires forall k :: |O| <= k < |N| ==> N[k].y1 == y1
    ensures Separated(N)
  {
    assert forall k :: 0 <= k < |O| ==> N[k] == O[k];
    forall i, j | 0 <= i < j < |N| && N[i].y1 == N[j].y1
      ensures Gapped(N[i], N[j])
    {
      if j < |O| { assert Gapped(O[i], O[j]); } else { assert i >= |O|; }
    }
  }

  // ---------- coalescing ----------

  function MergedBox(R: seq<Box>, cur: nat, n: nat, k: nat): Box
    requires n <= cur && cur + n <= |R| && k < |R| - n
  {
    if k < cur - n then R[k] else if k < cur then R[k].(y2 := R[k + n].y2) else R[k + n]
  }

  /** M is R after merging the band cur..cur + n into the equally long band that ends at cur. */
  ghost predicate IsMerged(R: seq<Box>, cur: nat, n: nat, M: seq<Box>) {
    && n <= cur && cur + n <= |R| && |M| == |R| - n
    && (forall k :: 0 <= k < |M| ==> M[k] == MergedBox(R, cur, n, k))
  }

  /** C is what miCoalesce leaves of R, whose current band starts at cur. */
  ghost predicate IsCoalescedAt(R: seq<Box>, prev: nat, cur: nat, C: seq<Box>)
    requires prev <= cur < |R|
  {
    var end := BandEnd(R, cur);
    if prev < cur && Mergeable(R, prev, cur, end) then IsMerged(R, cur, cur - prev, C) else C == R
  }

  /** The two bands of n boxes that meet at cur can be merged. */
  ghost predicate MergeSite(R: seq<Box>, cur: nat, n: nat) {
    && 0 < n <= cur && cur + n <= |R|
    && IsBand(R, cur - n, cur) && IsBand(R, cur, cur + n)
    && Mergeable(R, cur - n, cur, cur + n)
  }

  /** Where box k of the merged list comes from. */
  lemma MergedAt(R: seq<Box>, cur: nat, n: nat, M: seq<Box>, k: nat)
    requires Banded(R) && MergeSite(R, cur, n) && IsMerged(R, cur, n, M) && k < |M|
    ensures k < cur - n ==> M[k] == R[k] && R[k].y2 <= R[cur - n].y1
    ensures cur - n <= k < cur ==>
      && R[k].x1 == R[k + n].x1 && R[k].x2 == R[k + n].x2
      && R[k].y1 == R[cur - n].y1 && R[k].y2 == R[k + n].y1 == R[cur].y1 && R[k + n].y2 == R[cur].y2
      && M[k] == R[k].(y2 := R[cur].y2)
    ensures cur <= k ==> M[k] == R[k + n] && R[cur].y2 <= R[k + n].y1
  {
    BandIsSpanList(R, cur - n, cur);
    BandIsSpanList(R, cur, cur + n);
    if k < cur - n {
      BandsBefore(R, cur - n, cur, k);
    } else if k < cur {
      var j := k + n;
      assert SameSpan(R[k], R[j]);
      assert M[k] == R[k].(y2 := R[j].y2);
    } else {
      var j := k + n;
      assert M[k] == R[j];
      BandsAfter(R, cur, cur + n, j);
    }
  }

  /** Merging two mergeable bands keeps the points. */
  lemma MergedPoints(R: seq<Box>, cur: nat, n: nat, M: seq<Box>, x: int, y: int)
    requires Banded(R) && MergeSite(R, cur, n) && IsMerged(R, cur, n, M)
    ensures In(M, x, y) <==> In(R, x, y)
  {
    if In(M, x, y) {
      var k :| 0 <= k < |M| && InBox(M[k], x, y);
      MergedAt(R, cur, n, M, k);
      var k' := if k < cur - n || (k < cur && y < R[k].y2) then k else k + n;
      assert InBox(R[k'], x, y);
    }
    if In(R, x, y) {
      var k :| 0 <= k < |R| && InBox(R[k], x, y);
      var k' := if k < cur then k else k - n;
      MergedAt(R, cur, n, M, k');
      assert InBox(M[k'], x, y);
    }
  }

  lemma MergedIsBanded(R: seq<Box>, cur: nat, n: nat, M: seq<Box>)
    requires Banded(R) && MergeSite(R, cur, n) && IsMerged(R, cur, n, M)
    ensures Banded(M) && (Separated(R) ==> Separated(M))
  {
    if Separated(R) { MergedIsSeparated(R, cur, n, M); }
    forall i, j | 0 <= i < j < |M|
      ensures InOrder(M[i], M[j])
    {
      MergedAt(R, cur, n, M, i);
      MergedAt(R, cur, n, M, j);
      if j < cur { assert InOrder(R[i], R[j]); }
      if cur <= i { assert InOrder(R[i + n], R[j + n]); }
    }
    forall k | 0 <= k < |M|
      ensures M[k].x1 < M[k].x2 && M[k].y1 < M[k].y2
    {
      MergedAt(R, cur, n, M, k);
    }
  }

  lemma MergedIsSeparated(R: seq<Box>, cur: nat, n: nat, M: seq<Box>)
    requires Banded(R) && Separated(R) && MergeSite(R, cur, n) && IsMerged(R, cur, n, M)
    ensures Separated(M)
  {
    forall i, j | 0 <= i < j < |M| && M[i].y1 == M[j].y1
      ensures Gapped(M[i], M[j])
    {
      MergedAt(R, cur, n, M, i);
      MergedAt(R, cur, n, M, j);
      if j < cur { assert Gapped(R[i], R[j]); }
      if cur <= i { assert Gapped(R[i + n], R[j + n]); }
    }
  }

  lemma BandsBefore(R: seq<Box>, a: nat, b: nat, i: nat)
    requires Banded(R) && IsBand(R, a, b) && i < a
    ensures R[i].y2 <= R[a].y1
  {
    assert i == a - 1 || InOrder(R[i], R[a - 1]);
    assert InOrder(R[a - 1], R[a]);
  }

  lemma BandsAfter(R: seq<Box>, a: nat, b: nat, j: nat)
    requires Banded(R) && IsBand(R, a, b) && b <= j < |R|
    ensures R[a].y2 <= R[j].y1
  {
    BandIsSpanList(R, a, b);
    assert InOrder(R[b - 1], R[b]);
    assert j == b || InOrder(R[b], R[j]);
  }

  /** A band of the merged list is a band of the original one, shifted past the merged band. */
  lemma MergedBand(R: seq<Box>, cur: nat, n: nat, M: seq<Box>, a: int, b: int)
    requires Banded(R) && MergeSite(R, cur, n) && IsMerged(R, cur, n, M)
    requires IsBand(M, a, b)
    ensures b <= cur - n || (a == cur - n && b == cur) || cur <= a
    ensures b <= cur - n ==> IsBand(R, a, b)
    ensures cur <= a ==> IsBand(R, a + n, b + n)
  {
    MergedIsBanded(R, cur, n, M);
    BandIsSpanList(M, a, b);
    MergedAt(R, cur, n, M, cur - n);
    MergedAt(R, cur, n, M, cur - 1);
    if cur - n > 0 { MergedAt(R, cur, n, M, cur - n - 1); }
    if cur < |M| { MergedAt(R, cur, n, M, cur); }
    MergedAt(R, cur, n, M, a);
    MergedAt(R, cur, n, M, b - 1);
    if a > 0 { MergedAt(R, cur, n, M, a - 1); }
    if b < |M| { MergedAt(R, cur, n, M, b); }
  }

  lemma MergedSpans(R: seq<Box>, cur: nat, n: nat, M: seq<Box>, a: nat, b: nat, s: nat)
    requires Banded(R) && MergeSite(R, cur, n) && IsMerged(R, cur, n, M)
    requires a < b && b + (b - a) <= |M| && SameSpans(M, a, M, b, b - a)
    requires (s == 0 && b + (b - a) <= cur) || (s == n && cur - n <= a)
    ensures SameSpans(R, a + s, R, b + s, b - a)
  {
    forall i, j | a + s <= i < b + s && j - (b + s) == i - (a + s)
      ensures SameSpan(R[i], R[j])
    {
      MergedAt(R, cur, n, M, i - s);
      MergedAt(R, cur, n, M, j - s);
      assert SameSpan(M[i - s], M[j - s]);
    }
  }

  /** Bands of the merged list other than the merged one keep their place or move by n. */
  lemma MergedBandShift(R: seq<Box>, cur: nat, n: nat, M: seq<Box>, a: int, b: int, s: nat)
    requires Banded(R) && MergeSite(R, cur, n) && IsMerged(R, cur, n, M)
    requires IsBand(M, a, b)
    requires (s == 0 && b <= cur) || (s == n && cur - n <= a)
    ensures IsBand(R, a + s, b + s)
    ensures s == 0 ==> b <= cur - n || a == cur - n
    ensures s == n ==> a == cur - n || a >= cur
  {
    MergedBand(R, cur, n, M, a, b);
  }

  lemma MergedPair(R: seq<Box>, cur: nat, n: nat, M: seq<Box>, a: int, b: int, c: int)
    requires Banded(R) && MergeSite(R, cur, n) && IsMerged(R, cur, n, M)
    requires CoalescedExcept(R, cur)
    requires IsBand(M, a, b) && IsBand(M, b, c)
    ensures !Mergeable(M, a, b, c)
  {
    if Mergeable(M, a, b, c) {
      MergedBand(R, cur, n, M, a, b);
      MergedBand(R, cur, n, M, b, c);
      var s := if c <= cur then 0 else n;
      MergedBandShift(R, cur, n, M, b, c, s);
      MergedBandShift(R, cur, n, M, a, b, s);
      MergedSpans(R, cur, n, M, a, b, s);
      MergedAt(R, cur, n, M, a);
      MergedAt(R, cur, n, M, b);
      assert Mergeable(R, a + s, b + s, c + s);
    }
  }

  /** miCoalesce keeps the points, and restores the canonical form when only the pair of bands
      meeting at cur may be mergeable. */
  lemma CoalesceRestores(R: seq<Box>, prev: nat, cur: nat, C: seq<Box>)
    requires Banded(R) && prev <= cur < |R|
    requires if prev < cur then IsBand(R, prev, cur) else cur == 0
    requires cur > 0 ==> R[cur - 1].y1 != R[cur].y1
    requires IsCoalescedAt(R, prev, cur, C)
    ensures Banded(C) && SamePoints(C, R)
    ensures Separated(R) && CoalescedExcept(R, cur) ==> Canonical(C)
  {
    var end := BandEnd(R, cur);
    assert IsBand(R, cur, end);
    if prev < cur && Mergeable(R, prev, cur, end) {
      var n := cur - prev;
      assert MergeSite(R, cur, n);
      forall x, y
        ensures In(C, x, y) <==> In(R, x, y)
      {
        MergedPoints(R, cur, n, C, x, y);
      }
      MergedIsBanded(R, cur, n, C);
    }
    if CoalescedExcept(R, cur) { CoalescesTheRest(R, prev, cur, end, C); }
  }

  lemma CoalescesTheRest(R: seq<Box>, prev: nat, cur: nat, end: nat, C: seq<Box>)
    requires Banded(R) && prev <= cur < |R| && end == BandEnd(R, cur)
    requires if prev < cur then IsBand(R, prev, cur) else cur == 0
    requires cur > 0 ==> R[cur - 1].y1 != R[cur].y1
    requires CoalescedExcept(R, cur) && IsCoalescedAt(R, prev, cur, C)
    ensures Coalesced(C)
  {
    assert IsBand(R, cur, end);
    if prev < cur && Mergeable(R, prev, cur, end) {
      var n := cur - prev;
      forall a, b, c | IsBand(C, a, b) && IsBand(C, b, c)
        ensures !Mergeable(C, a, b, c)
      {
        MergedPair(R, cur, n, C, a, b, c);
      }
    } else {
      forall a, b, c | IsBand(R, a, b) && IsBand(R, b, c)
        ensures !Mergeable(R, a, b, c)
      {
        if b == cur {
          SameBandStart(R, a, prev, cur);
          SameBandEnd(R, cur, c, end);
        }
      }
    }
  }

  lemma SameBandStart(R: seq<Box>, a: int, a': int, b: int)
    requires Banded(R) && IsBand(R, a, b) && (IsBand(R, a', b) || a' == b == 0)
    ensures a == a'
  {
    BandIsSpanList(R, a, b);
    if IsBand(R, a', b) { BandIsSpanList(R, a', b); }
  }

  lemma SameBandEnd(R: seq<Box>, a: int, b: int, b': int)
    requires Banded(R) && IsBand(R, a, b) && IsBand(R, a, b')
    ensures b == b'
  {
    BandIsSpanList(R, a, b);
    BandIsSpanList(R, a, b');
  }
}
