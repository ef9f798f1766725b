/** Half-open boxes and the y-x-banded box lists that represent a region
    (libX11 Xregion.h and the opening comment of Region.c). */
module Boxes {

  datatype Box = Box(x1: int, x2: int, y1: int, y2: int)

  function Max(a: int, b: int): int { if a > b then a else b }

  function Min(a: int, b: int): int { if a < b then a else b }

  predicate InBox(b: Box, x: int, y: int) {
    b.x2 > x && b.x1 <= x && b.y2 > y && b.y1 <= y
  }

  predicate ExtentCheck(r1: Box, r2: Box) {
    r1.x2 > r2.x1 && r1.x1 < r2.x2 && r1.y2 > r2.y1 && r1.y1 < r2.y2
  }

  /** The point set of a box list: this is what every operation is specified by. */
  ghost predicate In(R: seq<Box>, x: int, y: int) {
    exists k :: 0 <= k < |R| && InBox(R[k], x, y)
  }

  ghost predicate SamePoints(A: seq<Box>, B: seq<Box>) {
    forall x, y :: In(A, x, y) <==> In(B, x, y)
  }

  /** Column x is covered by one of the boxes lo..hi. */
  ghost predicate Hit(R: seq<Box>, lo: int, hi: int, x: int)
    requires 0 <= lo <= hi <= |R|
  {
    exists k :: lo <= k < hi && R[k].x1 <= x < R[k].x2
  }

  /** Boxes sorted by band and, inside a band, by x; boxes of a band may touch, but not overlap. */
  ghost predicate Banded(R: seq<Box>) {
    && (forall i :: 0 <= i < |R| ==> R[i].x1 < R[i].x2 && R[i].y1 < R[i].y2)
    && (forall i, j {:trigger InOrder(R[i], R[j])} :: 0 <= i < j < |R| ==> InOrder(R[i], R[j]))
  }

  predicate InOrder(a: Box, b: Box) {
    || (a.y1 == b.y1 && a.y2 == b.y2 && a.x2 <= b.x1)
    || a.y2 <= b.y1
  }

  /** a..b is one whole band of R. */
  ghost predicate IsBand(R: seq<Box>, a: int, b: int) {
    && 0 <= a < b <= |R|
    && R[a].y1 == R[b - 1].y1
    && (a > 0 ==> R[a - 1].y1 != R[a].y1)
    && (b < |R| ==> R[b].y1 != R[a].y1)
  }

  /** The bands a..b and b..c touch and have their boxes in the same places. */
  ghost predicate Mergeable(R: seq<Box>, a: int, b: int, c: int)
    requires 0 <= a < b < c <= |R|
  {
    && c - b == b - a
    && R[a].y2 == R[b].y1
    && SameSpans(R, a, R, b, b - a)
  }

  ghost predicate SameSpans(A: seq<Box>, a: int, B: seq<Box>, b: int, n: int)
    requires 0 <= n && 0 <= a && a + n <= |A| && 0 <= b && b + n <= |B|
  {
    forall i, j {:trigger SameSpan(A[i], B[j])} :: a <= i < a + n && j - b == i - a ==> SameSpan(A[i], B[j])
  }

  predicate SameSpan(p: Box, q: Box) { p.x1 == q.x1 && p.x2 == q.x2 }

  /** No two adjacent bands can be merged, leaving aside the pair that meets at index skip. */
  ghost predicate CoalescedExcept(R: seq<Box>, skip: int) {
    forall a, b, c :: IsBand(R, a, b) && IsBand(R, b, c) && b != skip ==> !Mergeable(R, a, b, c)
  }

  ghost predicate Coalesced(R: seq<Box>) { CoalescedExcept(R, -1) }

  /** No two boxes of a band touch. */
  ghost predicate Separated(R: seq<Box>) {
    forall i, j {:trigger Gapped(R[i], R[j])} :: 0 <= i < j < |R| && R[i].y1 == R[j].y1 ==> Gapped(R[i], R[j])
  }

  predicate Gapped(p: Box, q: Box) { p.x2 < q.x1 }

  /** The canonical form: all boxes are as wide, and all bands as tall, as they can be. */
  ghost predicate Canonical(R: seq<Box>) { Banded(R) && Separated(R) && Coalesced(R) }

  /** e is the smallest box around a non-empty point set, and a box without points for an empty one. */
  ghost predicate Bounds(R: seq<Box>, e: Box) {
    && (R == [] ==> Pointless(e))
    && (R != [] ==>
      && Within(R, e)
      && ColumnMet(R, e.x1) && ColumnMet(R, e.x2 - 1)
      && RowMet(R, e.y1) && RowMet(R, e.y2 - 1))
  }

  /** No column or no row. */
  predicate Pointless(e: Box) { e.x1 <= e.x2 && e.y1 <= e.y2 && (e.x1 == e.x2 || e.y1 == e.y2) }

  ghost predicate Within(R: seq<Box>, e: Box) { forall x, y :: In(R, x, y) ==> InBox(e, x, y) }

  ghost predicate ColumnMet(R: seq<Box>, x: int) { exists y :: In(R, x, y) }

  ghost predicate RowMet(R: seq<Box>, y: int) { exists x :: In(R, x, y) }

  // ---------- canonical lists with the same points are equal ----------

  /** The rows of the first band of a banded list. */
  lemma FirstBandRow(R: seq<Box>, e: int, x: int, y: int)
    requires Banded(R) && IsBand(R, 0, e) && R[0].y1 <= y < R[0].y2
    ensures In(R, x, y) <==> Hit(R, 0, e, x)
  {
    if Hit(R, 0, e, x) {
      var k :| 0 <= k < e && R[k].x1 <= x < R[k].x2;
      assert k == 0 || InOrder(R[0], R[k]);
      assert k == e - 1 || InOrder(R[k], R[e - 1]);
      assert InBox(R[k], x, y);
    }
    if In(R, x, y) {
      var k :| 0 <= k < |R| && InBox(R[k], x, y);
      if k >= e {
        assert InOrder(R[0], R[k]);
        assert e - 1 == 0 || InOrder(R[0], R[e - 1]);
        assert InOrder(R[e - 1], R[e]);
        assert k == e || InOrder(R[e], R[k]);
      }
    }
  }

  /** The end of the band that starts at index 0. */
  function BandEnd(R: seq<Box>, i: nat): (e: nat)
    requires i < |R|
    ensures i < e <= |R|
    ensures forall k :: i <= k < e ==> R[k].y1 == R[i].y1
    ensures e < |R| ==> R[e].y1 != R[i].y1
    decreases |R| - i
  {
    if i + 1 < |R| && R[i + 1].y1 == R[i].y1 then BandEnd(R, i + 1) else i + 1
  }

  ghost predicate SpanList(R: seq<Box>, lo: int, hi: int) {
    && 0 <= lo <= hi <= |R|
    && (forall k :: lo <= k < hi ==> R[k].x1 < R[k].x2)
    && (forall j, k {:trigger Apart(R[j], R[k])} :: lo <= j < k < hi ==> Apart(R[j], R[k]))
  }

  predicate Apart(p: Box, q: Box) { p.x2 <= q.x1 }

  /** No two of the boxes lo..hi touch. */
  ghost predicate Spaced(R: seq<Box>, lo: int, hi: int)
    requires 0 <= lo <= hi <= |R|
  {
    forall j, k {:trigger Gapped(R[j], R[k])} :: lo <= j < k < hi ==> Gapped(R[j], R[k])
  }

  lemma FirstHit(R: seq<Box>, lo: int, hi: int)
    requires SpanList(R, lo, hi)
    ensures lo < hi ==> Hit(R, lo, hi, R[lo].x1)
  {
  }

  /** Separated spans are determined by the columns they cover. */
  lemma {:induction false} SpansUnique(A: seq<Box>, a: int, ea: int, B: seq<Box>, b: int, eb: int)
    requires SpanList(A, a, ea) && SpanList(B, b, eb) && Spaced(A, a, ea) && Spaced(B, b, eb)
    requires forall x :: Hit(A, a, ea, x) <==> Hit(B, b, eb, x)
    ensures ea - a == eb - b && SameSpans(A, a, B, b, ea - a)
    decreases ea - a
  {
    if a == ea {
      FirstHit(B, b, eb);
    } else {
      FirstHit(A, a, ea);
      assert b < eb;
      FirstHit(B, b, eb);
      StartsLeft(A, a, ea, B[b].x1);
      StartsLeft(B, b, eb, A[a].x1);
      SpanEndLeq(A, a, ea, B, b, eb);
      SpanEndLeq(B, b, eb, A, a, ea);
      var a', b' := a + 1, b + 1;
      forall x
        ensures Hit(A, a', ea, x) <==> Hit(B, b', eb, x)
      {
        assert Hit(A, a, ea, x) <==> Hit(B, b, eb, x);
        SplitHit(A, a, a', ea, x);
        SplitHit(B, b, b', eb, x);
        if Hit(A, a', ea, x) { StartsLeft(A, a', ea, x); assert Apart(A[a], A[a']); }
        if Hit(B, b', eb, x) { StartsLeft(B, b', eb, x); assert Apart(B[b], B[b']); }
      }
      SpansUnique(A, a', ea, B, b', eb);
    }
  }

  /** Spans cover no column left of the first one. */
  lemma StartsLeft(R: seq<Box>, lo: int, hi: int, x: int)
    requires SpanList(R, lo, hi) && Hit(R, lo, hi, x)
    ensures lo < hi && R[lo].x1 <= x
  {
    var k :| lo <= k < hi && R[k].x1 <= x < R[k].x2;
    assert k == lo || Apart(R[lo], R[k]);
  }

  lemma SpanEndLeq(A: seq<Box>, a: int, ea: int, B: seq<Box>, b: int, eb: int)
    requires SpanList(A, a, ea) && SpanList(B, b, eb) && Spaced(B, b, eb) && a < ea && b < eb
    requires forall x :: Hit(A, a, ea, x) <==> Hit(B, b, eb, x)
    requires A[a].x1 == B[b].x1
    ensures A[a].x2 <= B[b].x2
  {
    EndMissed(B, b, eb);
    assert A[a].x1 <= B[b].x2 < A[a].x2 ==> Hit(A, a, ea, B[b].x2);
  }

  /** The column after a span is not covered. */
  lemma EndMissed(R: seq<Box>, lo: int, hi: int)
    requires SpanList(R, lo, hi) && Spaced(R, lo, hi) && lo < hi
    ensures !Hit(R, lo, hi, R[lo].x2)
  {
    forall k | lo < k < hi
      ensures R[lo].x2 < R[k].x1
    {
      assert Gapped(R[lo], R[k]);
    }
  }

  lemma Ordered(R: seq<Box>, i: int, j: int)
    requires Banded(R) && 0 <= i < j < |R|
    ensures R[i].y1 <= R[j].y1
    ensures R[i].y1 != R[j].y1 ==> R[i].y2 <= R[j].y1
  {
    assert InOrder(R[i], R[j]);
  }

  lemma SplitHit(R: seq<Box>, lo: int, mid: int, hi: int, x: int)
    requires 0 <= lo <= mid <= hi <= |R|
    ensures Hit(R, lo, hi, x) <==> Hit(R, lo, mid, x) || Hit(R, mid, hi, x)
  {
    if Hit(R, lo, hi, x) {
      var k :| lo <= k < hi && R[k].x1 <= x < R[k].x2;
      if k < mid { assert Hit(R, lo, mid, x); } else { assert Hit(R, mid, hi, x); }
    }
  }

  lemma BandIsSpanList(R: seq<Box>, a: int, b: int)
    requires Banded(R) && IsBand(R, a, b)
    ensures SpanList(R, a, b)
    ensures forall k :: a <= k < b ==> R[k].y1 == R[a].y1 && R[k].y2 == R[a].y2
    ensures Separated(R) ==> Spaced(R, a, b)
  {
    forall k | a <= k < b
      ensures R[k].y1 == R[a].y1 && R[k].y2 == R[a].y2
    {
      assert k == a || InOrder(R[a], R[k]);
      assert k == b - 1 || InOrder(R[k], R[b - 1]);
    }
    forall j, k | a <= j < k < b
      ensures Apart(R[j], R[k])
    {
      assert InOrder(R[j], R[k]);
    }
  }

  lemma FirstBand(R: seq<Box>) returns (e: nat)
    requires Banded(R) && R != []
    ensures IsBand(R, 0, e) && SpanList(R, 0, e) && (Separated(R) ==> Spaced(R, 0, e))
    ensures forall k :: 0 <= k < e ==> R[k].y1 == R[0].y1 && R[k].y2 == R[0].y2
    ensures forall k :: e <= k < |R| ==> R[0].y2 <= R[k].y1
  {
    e := BandEnd(R, 0);
    BandIsSpanList(R, 0, e);
    forall k | e <= k < |R|
      ensures R[0].y2 <= R[k].y1
    {
      assert InOrder(R[0], R[k]);
      assert InOrder(R[e - 1], R[e]);
      assert k == e || InOrder(R[e], R[k]);
    }
  }

  /** Dropping the first band of a canonical list leaves a canonical list. */
  lemma DropFirstBand(R: seq<Box>, e: nat)
    requires Canonical(R) && IsBand(R, 0, e)
    ensures Canonical(R[e..])
  {
    var S := R[e..];
    forall i, j | 0 <= i < j < |S|
      ensures InOrder(S[i], S[j])
    {
      assert InOrder(R[e + i], R[e + j]);
    }
    forall i, j | 0 <= i < j < |S| && S[i].y1 == S[j].y1
      ensures Gapped(S[i], S[j])
    {
      assert Gapped(R[e + i], R[e + j]);
    }
    forall a, b, c | IsBand(S, a, b) && IsBand(S, b, c)
      ensures !Mergeable(S, a, b, c)
    {
      assert IsBand(R, e + a, e + b);
      assert IsBand(R, e + b, e + c);
      if Mergeable(S, a, b, c) {
        forall i, j | e + a <= i < e + b && j - b == i - a
          ensures SameSpan(R[i], R[j])
        {
          assert SameSpan(S[i - e], S[j - e]);
        }
        assert Mergeable(R, e + a, e + b, e + c);
      }
    }
  }

  /** The topmost row of a list with the same points starts at the same height. */
  lemma SameTop(A: seq<Box>, B: seq<Box>)
    requires Banded(A) && Banded(B) && SamePoints(A, B) && A != []
    ensures B != [] && A[0].y1 >= B[0].y1
  {
    assert InBox(A[0], A[0].x1, A[0].y1);
    assert In(A, A[0].x1, A[0].y1);
    assert In(B, A[0].x1, A[0].y1);
    var k :| 0 <= k < |B| && InBox(B[k], A[0].x1, A[0].y1);
    assert k == 0 || InOrder(B[0], B[k]);
  }

  lemma FirstBandSpans(A: seq<Box>, ea: nat, B: seq<Box>, eb: nat)
    requires Banded(A) && Banded(B) && Separated(A) && Separated(B) && SamePoints(A, B)
    requires IsBand(A, 0, ea) && IsBand(B, 0, eb) && A[0].y1 == B[0].y1
    ensures ea == eb && SameSpans(A, 0, B, 0, ea)
  {
    BandIsSpanList(A, 0, ea);
    BandIsSpanList(B, 0, eb);
    forall x
      ensures Hit(A, 0, ea, x) <==> Hit(B, 0, eb, x)
    {
      FirstBandRow(A, ea, x, A[0].y1);
      FirstBandRow(B, eb, x, B[0].y1);
    }
    SpansUnique(A, 0, ea, B, 0, eb);
  }

  /** A canonical first band cannot stop short of a taller band with the same spans. */
  lemma FirstBandHeight(A: seq<Box>, B: seq<Box>, e: nat)
    requires Canonical(A) && Banded(B) && Separated(B) && SamePoints(A, B)
    requires IsBand(A, 0, e) && IsBand(B, 0, e) && A[0].y1 == B[0].y1
    requires SameSpans(A, 0, B, 0, e)
    ensures A[0].y2 >= B[0].y2
  {
    if A[0].y2 < B[0].y2 {
      var y := A[0].y2;
      var ea := FirstBand(A);
      var eb := FirstBand(B);
      assert ea == e && eb == e by { OneFirstBand(A, e, ea); OneFirstBand(B, e, eb); }
      FirstBandRow(B, e, B[0].x1, y);
      assert Hit(B, 0, e, B[0].x1);
      assert In(A, B[0].x1, y);
      var k :| 0 <= k < |A| && InBox(A[k], B[0].x1, y);
      assert k >= e;
      assert k == e || InOrder(A[e], A[k]);
      assert A[e].y1 == y;
      var e2 := BandEnd(A, e);
      assert IsBand(A, e, e2);
      SecondBandSpans(A, B, e, e2, y);
      assert Mergeable(A, 0, e, e2);
      assert false;
    }
  }

  lemma OneFirstBand(R: seq<Box>, e: nat, f: nat)
    requires Banded(R) && IsBand(R, 0, e) && IsBand(R, 0, f)
    ensures e == f
  {
    BandIsSpanList(R, 0, e);
    BandIsSpanList(R, 0, f);
  }

  lemma SecondBandSpans(A: seq<Box>, B: seq<Box>, e: nat, e2: nat, y: int)
    requires Banded(A) && Banded(B) && Separated(A) && Separated(B) && SamePoints(A, B)
    requires IsBand(A, 0, e) && IsBand(A, e, e2) && IsBand(B, 0, e)
    requires A[e].y1 == y == A[0].y2 && B[0].y1 <= y < B[0].y2
    requires SameSpans(A, 0, B, 0, e)
    ensures e2 - e == e && SameSpans(A, 0, A, e, e)
  {
    BandIsSpanList(A, e, e2);
    BandIsSpanList(B, 0, e);
    forall x
      ensures Hit(A, e, e2, x) <==> Hit(B, 0, e, x)
    {
      FirstBandRow(B, e, x, y);
      BandRow(A, e, e2, x, y);
    }
    SpansUnique(A, e, e2, B, 0, e);
    forall i, j | 0 <= i < e && j - e == i
      ensures SameSpan(A[i], A[j])
    {
      assert SameSpan(A[i], B[i]) && SameSpan(A[j], B[i]);
    }
  }

  /** A row inside a band is covered exactly by the boxes of that band. */
  lemma BandRow(R: seq<Box>, a: int, b: int, x: int, y: int)
    requires Banded(R) && IsBand(R, a, b) && R[a].y1 <= y < R[a].y2
    ensures In(R, x, y) <==> Hit(R, a, b, x)
  {
    BandIsSpanList(R, a, b);
    if Hit(R, a, b, x) {
      var k :| a <= k < b && R[k].x1 <= x < R[k].x2;
      assert InBox(R[k], x, y);
    }
    if In(R, x, y) {
      var k :| 0 <= k < |R| && InBox(R[k], x, y);
      if k < a {
        assert InOrder(R[k], R[a]);
        assert k == a - 1 || InOrder(R[k], R[a - 1]);
        assert InOrder(R[a - 1], R[a]);
      } else if k >= b {
        assert InOrder(R[a], R[k]);
        assert InOrder(R[b - 1], R[b]);
        assert k == b || InOrder(R[b], R[k]);
      }
    }
  }

  /** The points left after the first band are those below its bottom. */
  lemma RestPoints(R: seq<Box>, e: nat, x: int, y: int)
    requires Banded(R) && IsBand(R, 0, e)
    ensures In(R[e..], x, y) <==> In(R, x, y) && y >= R[0].y2
  {
    var f := FirstBand(R);
    OneFirstBand(R, e, f);
    if In(R[e..], x, y) {
      var k :| 0 <= k < |R[e..]| && InBox(R[e..][k], x, y);
      assert InBox(R[e + k], x, y);
    }
    if In(R, x, y) && y >= R[0].y2 {
      var k :| 0 <= k < |R| && InBox(R[k], x, y);
      assert k >= e;
      assert InBox(R[e..][k - e], x, y);
    }
  }

  /** Two canonical regions with the same points are the same box list. */
  lemma {:induction false} CanonicalUnique(A: seq<Box>, B: seq<Box>)
    requires Canonical(A) && Canonical(B) && SamePoints(A, B)
    ensures A == B
    decreases |A|
  {
    if A == [] {
      if B != [] { SameTop(B, A); }
    } else {
      SameTop(A, B);
      SameTop(B, A);
      var ea := FirstBand(A);
      var eb := FirstBand(B);
      FirstBandSpans(A, ea, B, eb);
      FirstBandSpans(B, eb, A, ea);
      FirstBandHeight(A, B, ea);
      FirstBandHeight(B, A, ea);
      DropFirstBand(A, ea);
      DropFirstBand(B, ea);
      forall x, y
        ensures In(A[ea..], x, y) <==> In(B[ea..], x, y)
      {
        RestPoints(A, ea, x, y);
        RestPoints(B, ea, x, y);
        assert In(A, x, y) <==> In(B, x, y);
      }
      CanonicalUnique(A[ea..], B[ea..]);
      forall k | 0 <= k < ea
        ensures A[k] == B[k]
      {
        assert SameSpan(A[k], B[k]);
      }
      assert A[..ea] == B[..ea];
      assert A == A[..ea] + A[ea..];
      assert B == B[..ea] + B[ea..];
    }
  }
}
