/** The rows of a list of boxes, and what they say about its canonical form. */
module SpanRows {
  import opened Boxes
  import opened Sweep

  datatype Span = Span(x1: int, x2: int)

  function SpanOf(b: Box): Span { Span(b.x1, b.x2) }

  predicate HasRow(b: Box, y: int) { b.y1 <= y < b.y2 }

  /** The columns of the boxes that meet row y, in order. */
  function Columns(R: seq<Box>, y: int): seq<Span> {
    if R == [] then []
    else Columns(R[..|R| - 1], y) + if HasRow(R[|R| - 1], y) then [SpanOf(R[|R| - 1])] else []
  }

  lemma ColumnsSnoc(R: seq<Box>, b: Box, y: int)
    ensures Columns(R + [b], y) == Columns(R, y) + if HasRow(b, y) then [SpanOf(b)] else []
  {
    assert (R + [b])[..|R|] == R;
  }

  lemma {:induction false} ColumnsNone(R: seq<Box>, y: int)
    requires forall k :: 0 <= k < |R| ==> !HasRow(R[k], y)
    ensures Columns(R, y) == []
  {
    if R != [] { ColumnsNone(R[..|R| - 1], y); }
  }

  lemma {:induction false} ColumnsMet(R: seq<Box>, y: int) returns (k: nat)
    requires Columns(R, y) != []
    ensures k < |R| && HasRow(R[k], y)
  {
    if HasRow(R[|R| - 1], y) { k := |R| - 1; } else { k := ColumnsMet(R[..|R| - 1], y); }
  }

  /** The spans of the boxes a..b. */
  function SpansOf(R: seq<Box>, a: nat, b: nat): (s: seq<Span>)
    requires a <= b <= |R|
    ensures |s| == b - a
  {
    seq(b - a, i requires 0 <= i < b - a => SpanOf(R[a + i]))
  }

  lemma FrontBanded(R: seq<Box>)
    requires Banded(R) && R != []
    ensures Banded(R[..|R| - 1])
  {
    var F := R[..|R| - 1];
    forall i, j | 0 <= i < j < |F|
      ensures InOrder(F[i], F[j])
    {
      assert InOrder(R[i], R[j]);
    }
  }

  /** A row of a band has the spans of the band. */
  lemma {:induction false} ColumnsOfBand(R: seq<Box>, a: nat, b: nat, y: int)
    requires Banded(R) && IsBand(R, a, b) && HasRow(R[a], y)
    ensures Columns(R, y) == SpansOf(R, a, b)
    decreases |R|
  {
    var n := |R| - 1;
    var F := R[..n];
    FrontBanded(R);
    BandIsSpanList(R, a, b);
    if b <= n {
      assert IsBand(F, a, b);
      ColumnsOfBand(F, a, b, y);
      BandsAfter(R, a, b, n);
      assert SpansOf(F, a, b) == SpansOf(R, a, b);
    } else if a < n {
      assert IsBand(F, a, n);
      ColumnsOfBand(F, a, n, y);
      assert SpansOf(F, a, n) + [SpanOf(R[n])] == SpansOf(R, a, b);
    } else {
      OpensBand(R, n, y);
      assert SpansOf(R, a, b) == [SpanOf(R[n])];
    }
  }

  /** The last box has a band of its own. */
  lemma OpensBand(R: seq<Box>, n: nat, y: int)
    requires Banded(R) && n == |R| - 1 && IsBand(R, n, n + 1) && HasRow(R[n], y)
    ensures Columns(R, y) == [SpanOf(R[n])]
  {
    var F := R[..n];
    forall k | 0 <= k < n
      ensures !HasRow(F[k], y)
    {
      BandsBefore(R, n, n + 1, k);
    }
    ColumnsNone(F, y);
  }

  /** The band of box k. */
  lemma BandOf(R: seq<Box>, k: nat) returns (a: nat, b: nat)
    requires Banded(R) && k < |R|
    ensures IsBand(R, a, b) && a <= k < b && R[a].y1 == R[k].y1 && R[a].y2 == R[k].y2
  {
    a := k;
    while a > 0 && R[a - 1].y1 == R[k].y1
      invariant a <= k && R[a].y1 == R[k].y1
      invariant forall i :: a <= i <= k ==> R[i].y1 == R[k].y1
    {
      a := a - 1;
    }
    b := BandEnd(R, a);
    BandIsSpanList(R, a, b);
  }

  // ---------- boxes that touch ----------

  predicate SpacedRow(s: seq<Span>) { forall i, j :: 0 <= i < j < |s| ==> s[i].x2 < s[j].x1 }

  lemma SpacedBand(R: seq<Box>, a: nat, b: nat)
    requires a <= b <= |R|
    ensures Spaced(R, a, b) <==> SpacedRow(SpansOf(R, a, b))
  {
    var s := SpansOf(R, a, b);
    assert forall k :: a <= k < b ==> SpanOf(R[k]) == s[k - a];
    if Spaced(R, a, b) {
      forall i, j | 0 <= i < j < |s|
        ensures s[i].x2 < s[j].x1
      {
        assert Gapped(R[a + i], R[a + j]);
      }
    }
  }

  lemma RowsSpaced(R: seq<Box>, y: int)
    requires Banded(R) && Separated(R)
    ensures SpacedRow(Columns(R, y))
  {
    if Columns(R, y) != [] {
      var k := ColumnsMet(R, y);
      var a, b := BandOf(R, k);
      ColumnsOfBand(R, a, b, y);
      BandIsSpanList(R, a, b);
      SpacedBand(R, a, b);
    }
  }

  lemma BoxesGapped(R: seq<Box>, i: nat, j: nat)
    requires Banded(R) && i < j < |R| && R[i].y1 == R[j].y1 && SpacedRow(Columns(R, R[i].y1))
    ensures Gapped(R[i], R[j])
  {
    var a, b := BandOf(R, i);
    InSameBand(R, a, b, i, j);
    ColumnsOfBand(R, a, b, R[a].y1);
    SpacedBand(R, a, b);
  }

  ghost predicate AllSpaced(R: seq<Box>) { forall y :: SpacedRow(Columns(R, y)) }

  /** No two boxes of a band touch exactly if no two spans of a row do. */
  lemma SeparatedIff(R: seq<Box>)
    requires Banded(R)
    ensures Separated(R) <==> AllSpaced(R)
  {
    if Separated(R) {
      forall y
        ensures SpacedRow(Columns(R, y))
      {
        RowsSpaced(R, y);
      }
    }
    if AllSpaced(R) {
      forall i, j | 0 <= i < j < |R| && R[i].y1 == R[j].y1
        ensures Gapped(R[i], R[j])
      {
        assert SpacedRow(Columns(R, R[i].y1));
        BoxesGapped(R, i, j);
      }
    }
  }

  lemma InSameBand(R: seq<Box>, a: nat, b: nat, i: nat, j: nat)
    requires Banded(R) && IsBand(R, a, b) && a <= i < b && i < j < |R| && R[i].y1 == R[j].y1
    ensures j < b
  {
    BandIsSpanList(R, a, b);
    if j >= b { BandsAfter(R, a, b, j); }
  }

  // ---------- bands that could be merged ----------

  lemma SameSpansIff(R: seq<Box>, a: nat, b: nat, c: nat)
    requires a < b < c <= |R|
    ensures SpansOf(R, a, b) == SpansOf(R, b, c) <==> c - b == b - a && SameSpans(R, a, R, b, b - a)
  {
    var s, t := SpansOf(R, a, b), SpansOf(R, b, c);
    assert forall k :: a <= k < b ==> SpanOf(R[k]) == s[k - a];
    assert forall k :: b <= k < c ==> SpanOf(R[k]) == t[k - b];
    if s == t {
      forall i, j | a <= i < b && j - b == i - a
        ensures SameSpan(R[i], R[j])
      {
        assert s[i - a] == t[j - b];
      }
    }
    if c - b == b - a && SameSpans(R, a, R, b, b - a) {
      forall i | 0 <= i < |s|
        ensures s[i] == t[i]
      {
        var k, l := a + i, b + i;
        assert SameSpan(R[k], R[l]);
      }
    }
  }

  /** The band that ends where another begins comes just before it. */
  lemma BandsMeet(R: seq<Box>, a: nat, b: nat, b': nat, c: nat)
    requires Banded(R) && IsBand(R, a, b) && IsBand(R, b', c) && HasRow(R[a], R[b'].y1 - 1)
    ensures b == b' && R[a].y2 == R[b'].y1
  {
    BandIsSpanList(R, a, b);
    BandIsSpanList(R, b', c);
    if c <= a { BandsAfter(R, b', c, a); }
    assert a < b';
    assert b <= b';
    BandsAfter(R, a, b, b');
    if b < b' {
      BandsAfter(R, a, b, b);
      Ordered(R, b, b');
      BandsAfter(R, a, b, b' - 1);
      Ordered(R, b' - 1, b');
    }
  }

  /** Row y has the spans of the row above it. */
  predicate Repeats(R: seq<Box>, y: int) { Columns(R, y) != [] && Columns(R, y) == Columns(R, y - 1) }

  /** Row y does not start a box. */
  ghost predicate Inner(R: seq<Box>, y: int) { exists k :: 0 <= k < |R| && R[k].y1 < y < R[k].y2 }

  ghost predicate AllTall(R: seq<Box>) { forall y :: Repeats(R, y) ==> Inner(R, y) }

  lemma MergeableRepeats(R: seq<Box>, a: nat, b: nat, c: nat)
    requires Banded(R) && IsBand(R, a, b) && IsBand(R, b, c) && Mergeable(R, a, b, c)
    ensures Repeats(R, R[b].y1) && !Inner(R, R[b].y1)
  {
    BandIsSpanList(R, a, b);
    BandIsSpanList(R, b, c);
    ColumnsOfBand(R, a, b, R[b].y1 - 1);
    ColumnsOfBand(R, b, c, R[b].y1);
    SameSpansIff(R, a, b, c);
    forall k | 0 <= k < |R|
      ensures !(R[k].y1 < R[b].y1 < R[k].y2)
    {
      if k < b { BandsBefore(R, b, c, k); }
      if k > b { Ordered(R, b, k); }
    }
  }

  lemma RepeatsMergeable(R: seq<Box>, y: int) returns (a: nat, b: nat, c: nat)
    requires Banded(R) && Repeats(R, y) && !Inner(R, y)
    ensures IsBand(R, a, b) && IsBand(R, b, c) && Mergeable(R, a, b, c)
  {
    var k := ColumnsMet(R, y);
    var l := ColumnsMet(R, y - 1);
    var b';
    b', c := BandOf(R, k);
    a, b := BandOf(R, l);
    assert R[k].y1 == y;
    BandsMeet(R, a, b, b', c);
    ColumnsOfBand(R, a, b, y - 1);
    ColumnsOfBand(R, b, c, y);
    SameSpansIff(R, a, b, c);
  }

  /** No two adjacent bands can be merged exactly if every row that repeats the one above is in the same boxes. */
  lemma CoalescedIff(R: seq<Box>)
    requires Banded(R)
    ensures Coalesced(R) <==> AllTall(R)
  {
    if AllTall(R) {
      forall a, b, c | IsBand(R, a, b) && IsBand(R, b, c)
        ensures !Mergeable(R, a, b, c)
      {
        if Mergeable(R, a, b, c) { MergeableRepeats(R, a, b, c); }
      }
    }
    if Coalesced(R) {
      forall y | Repeats(R, y)
        ensures Inner(R, y)
      {
        if !Inner(R, y) {
          var a, b, c := RepeatsMergeable(R, y);
        }
      }
    }
  }

  /** The canonical form, row by row. */
  lemma CanonicalIff(R: seq<Box>)
    requires Banded(R)
    ensures Canonical(R) <==> AllSpaced(R) && AllTall(R)
  {
    SeparatedIff(R);
    CoalescedIff(R);
  }
}
