/** Why the crossings of a scanline, sorted and taken in pairs, delimit the inside of a polygon. */
module PolygonScan {
  import opened Arith
  import opened EdgeOrder
  import opened PolygonRule
  import opened Tally

  /** What a map holds for each edge: the x's or the sides of edges. */
  function ValuesOf<E, V>(m: map<E, V>, es: seq<E>): (r: seq<V>)
    requires Keyed(m, es)
    ensures |r| == |es|
  {
    seq(|es|, i requires 0 <= i < |es| => m[es[i]])
  }

  /** A weight of sides as a weight of edges. */
  function Weight<E>(side: map<E, Side>, f: Side -> int): E -> int { e => if e in side then f(side[e]) else 0 }

  predicate AllMeet<E>(side: map<E, Side>, es: seq<E>, y: int)
    requires Keyed(side, es)
  {
    forall i :: 0 <= i < |es| ==> side[es[i]].Meets(y)
  }

  /** es are exactly those of the edges that meet scanline y. */
  ghost predicate OnScanline<E>(es: seq<E>, edges: seq<E>, side: map<E, Side>, y: int) {
    && Distinct(edges) && Distinct(es) && Keyed(side, edges) && Keyed(side, es) && AllMeet(side, es, y)
    && (forall e :: e in es ==> e in edges)
    && (forall e :: e in edges && side[e].Meets(y) ==> e in es)
  }

  /** Where and which way the edges of a scanline are drawn. */
  ghost predicate Drawn<E>(es: seq<E>, side: map<E, Side>, key: map<E, int>, clockwise: map<E, bool>, y: int) {
    && Keyed(side, es) && Keyed(key, es) && Keyed(clockwise, es) && AllMeet(side, es, y)
    && forall i :: 0 <= i < |es| ==>
         side[es[i]].Valid() && key[es[i]] == CrossX(side[es[i]], y) && clockwise[es[i]] == side[es[i]].clockwise
  }

  // ---------- sums on a scanline ----------

  lemma {:induction false} SumOfSides<E>(side: map<E, Side>, f: Side -> int, es: seq<E>)
    requires Keyed(side, es)
    ensures Sum(Weight(side, f), es) == Sum(f, ValuesOf(side, es))
  {
    if es != [] {
      var es' := es[..|es| - 1];
      SumOfSides(side, f, es');
      assert ValuesOf(side, es)[..|es| - 1] == ValuesOf(side, es');
    }
  }

  /** Sides that do not meet the scanline add nothing, so the edges on it have the sum of all. */
  lemma SumOnScanline<E>(es: seq<E>, edges: seq<E>, side: map<E, Side>, y: int, f: Side -> int)
    requires OnScanline(es, edges, side, y) && forall s: Side :: !s.Meets(y) ==> f(s) == 0
    ensures Sum(Weight(side, f), es) == Sum(f, ValuesOf(side, edges))
  {
    var p := (e: E) => e in side && side[e].Meets(y);
    KeepDistinct(p, edges);
    SameElements(es, Keep(p, edges));
    SumPermuted(Weight(side, f), es, Keep(p, edges));
    SumKeep(Weight(side, f), p, edges);
    SumOfSides(side, f, edges);
  }

  /** The number of edges drawn at or left of px. */
  lemma {:induction false} CountLeft<E>(es: seq<E>, side: map<E, Side>, key: map<E, int>, clockwise: map<E, bool>, y: int, px: int)
    requires Drawn(es, side, key, clockwise, y)
    ensures UpTo(ValuesOf(key, es), px) == Sum(Weight(side, Crossed(px, y)), es)
  {
    if es != [] {
      var es', e := es[..|es| - 1], es[|es| - 1];
      CountLeft(es', side, key, clockwise, y, px);
      DrawnLeft(side[e], px, y);
      assert ValuesOf(key, es)[..|es| - 1] == ValuesOf(key, es');
    }
  }

  lemma {:induction false} AllLeft<E>(es: seq<E>, side: map<E, Side>, key: map<E, int>, clockwise: map<E, bool>, y: int, px: int)
    requires Drawn(es, side, key, clockwise, y) && forall i :: 0 <= i < |es| ==> key[es[i]] <= px
    ensures Winding(clockwise, es) == Sum(Weight(side, Turned(px, y)), es)
  {
    if es != [] {
      AllLeft(es[..|es| - 1], side, key, clockwise, y, px);
      DrawnLeft(side[es[|es| - 1]], px, y);
    }
  }

  lemma {:induction false} NoneLeft<E>(es: seq<E>, side: map<E, Side>, key: map<E, int>, clockwise: map<E, bool>, y: int, px: int)
    requires Drawn(es, side, key, clockwise, y) && forall i :: 0 <= i < |es| ==> key[es[i]] > px
    ensures Sum(Weight(side, Turned(px, y)), es) == 0
  {
    if es != [] {
      NoneLeft(es[..|es| - 1], side, key, clockwise, y, px);
      DrawnLeft(side[es[|es| - 1]], px, y);
    }
  }

  /** Edges sorted by x are split by px. */
  lemma SplitAt<E>(es: seq<E>, key: map<E, int>, px: int) returns (c: nat)
    requires Keyed(key, es) && Sorted(key, es)
    ensures c == UpTo(ValuesOf(key, es), px) <= |es|
    ensures forall i :: 0 <= i < |es| ==> (key[es[i]] <= px <==> i < c)
  {
    var xs := ValuesOf(key, es);
    UpToIsPrefix(xs, px);
    c := UpTo(xs, px);
    assert forall i :: 0 <= i < |es| ==> xs[i] == key[es[i]];
  }

  lemma DrawnParts<E>(es: seq<E>, c: nat, side: map<E, Side>, key: map<E, int>, clockwise: map<E, bool>, y: int)
    requires Drawn(es, side, key, clockwise, y) && c <= |es|
    ensures Drawn(es[..c], side, key, clockwise, y) && Drawn(es[c..], side, key, clockwise, y)
  {
  }

  /** The winding number of the edges drawn at or left of px, of edges sorted by x. */
  lemma TurnsLeft<E>(es: seq<E>, side: map<E, Side>, key: map<E, int>, clockwise: map<E, bool>, y: int, px: int, c: nat)
    requires Drawn(es, side, key, clockwise, y) && c <= |es| && forall i :: 0 <= i < |es| ==> (key[es[i]] <= px <==> i < c)
    ensures Keyed(clockwise, es[..c]) && Winding(clockwise, es[..c]) == Sum(Weight(side, Turned(px, y)), es)
  {
    DrawnParts(es, c, side, key, clockwise, y);
    AllLeft(es[..c], side, key, clockwise, y, px);
    NoneLeft(es[c..], side, key, clockwise, y, px);
    SumJoin(Weight(side, Turned(px, y)), es[..c], es[c..]);
    assert es == es[..c] + es[c..];
  }

  // ---------- the rules ----------

  /** A sum of ones and minus ones that is zero has an even number of terms. */
  lemma {:induction false} EvenIfBalanced<E>(clockwise: map<E, bool>, es: seq<E>)
    requires Keyed(clockwise, es)
    ensures |es| % 2 == Winding(clockwise, es) % 2
  {
    if es != [] { EvenIfBalanced(clockwise, es[..|es| - 1]); }
  }

  lemma {:induction false} WholeWinding<E>(es: seq<E>, side: map<E, Side>, key: map<E, int>, clockwise: map<E, bool>, y: int)
    requires Drawn(es, side, key, clockwise, y)
    ensures Winding(clockwise, es) == Sum(Weight(side, Turning(y)), es)
  {
    if es != [] { WholeWinding(es[..|es| - 1], side, key, clockwise, y); }
  }

  lemma AscendingXs<E>(key: map<E, int>, es: seq<E>)
    requires Keyed(key, es) && Sorted(key, es)
    ensures Ascending(ValuesOf(key, es))
  {
  }

  /** Even-odd rule: the edges of a scanline, taken in pairs, delimit the inside of the polygon. */
  lemma EvenOddSpans<E>(es: seq<E>, edges: seq<E>, side: map<E, Side>, key: map<E, int>, clockwise: map<E, bool>, y: int, px: int)
    requires OnScanline(es, edges, side, y) && Drawn(es, side, key, clockwise, y) && Sorted(key, es)
    requires Sum(Turning(y), ValuesOf(side, edges)) == 0
    ensures |es| % 2 == 0
    ensures InSpan(ValuesOf(key, es), px) <==> Inside(EvenOdd, ValuesOf(side, edges), px, y)
  {
    WholeWinding(es, side, key, clockwise, y);
    SumOnScanline(es, edges, side, y, Turning(y));
    EvenIfBalanced(clockwise, es);
    AscendingXs(key, es);
    SpanIffOdd(ValuesOf(key, es), px);
    CountLeft(es, side, key, clockwise, y, px);
    SumOnScanline(es, edges, side, y, Crossed(px, y));
  }

  /** Crossings of a longer list go on from those of its front. */
  lemma {:induction false} CrossingsGrow<E>(clockwise: map<E, bool>, es: seq<E>, c: nat)
    requires Keyed(clockwise, es) && c <= |es|
    ensures Keyed(clockwise, es[..c]) && |Crossings(clockwise, es[..c])| <= |Crossings(clockwise, es)|
    ensures Crossings(clockwise, es)[..|Crossings(clockwise, es[..c])|] == Crossings(clockwise, es[..c])
    ensures forall i :: |Crossings(clockwise, es[..c])| <= i < |Crossings(clockwise, es)| ==> Crossings(clockwise, es)[i] in es[c..]
    decreases |es|
  {
    if c == |es| {
      assert es[..c] == es;
    } else {
      var es' := es[..|es| - 1];
      CrossingsGrow(clockwise, es', c);
      assert es'[..c] == es[..c];
      assert forall e :: e in es'[c..] ==> e in es[c..];
      assert es[|es| - 1] == es[c..][|es| - 1 - c];
    }
  }

  /** The crossings are in the order of the edges. */
  lemma {:induction false} CrossingsSorted<E>(key: map<E, int>, clockwise: map<E, bool>, es: seq<E>)
    requires Keyed(key, es) && Keyed(clockwise, es) && Sorted(key, es)
    ensures Keyed(key, Crossings(clockwise, es)) && Sorted(key, Crossings(clockwise, es))
  {
    if es != [] {
      var es' := es[..|es| - 1];
      CrossingsSorted(key, clockwise, es');
      var cs := Crossings(clockwise, es');
      forall i | 0 <= i < |cs|
        ensures key[cs[i]] <= key[es[|es| - 1]]
      {
        assert cs[i] in es';
      }
    }
  }

  /** As many crossings are at or left of px as there are crossings among the edges at or left of it. */
  lemma CrossingsLeft<E>(es: seq<E>, key: map<E, int>, clockwise: map<E, bool>, px: int, c: nat)
    requires Keyed(key, es) && Keyed(clockwise, es) && Sorted(key, es) && c <= |es|
    requires forall i :: 0 <= i < |es| ==> (key[es[i]] <= px <==> i < c)
    ensures Keyed(key, Crossings(clockwise, es)) && Keyed(clockwise, es[..c])
    ensures UpTo(ValuesOf(key, Crossings(clockwise, es)), px) == |Crossings(clockwise, es[..c])|
  {
    var ws, n := Crossings(clockwise, es), |Crossings(clockwise, es[..c])|;
    CrossingsGrow(clockwise, es, c);
    var xs := ValuesOf(key, ws);
    forall i | 0 <= i < |ws|
      ensures xs[i] <= px <==> i < n
    {
      if i < n {
        assert ws[i] == ws[..n][i] && ws[i] in es[..c];
        var j :| 0 <= j < c && es[j] == ws[i];
      } else {
        var j :| 0 <= j < |es[c..]| && es[c..][j] == ws[i];
        assert es[c + j] == ws[i];
      }
    }
    UpToIs(xs, px, n);
  }

  /** Winding number rule: the edges at which the winding number moves between zero and non-zero do. */
  lemma WindingSpans<E>(es: seq<E>, edges: seq<E>, side: map<E, Side>, key: map<E, int>, clockwise: map<E, bool>, y: int, px: int)
    requires OnScanline(es, edges, side, y) && Drawn(es, side, key, clockwise, y) && Sorted(key, es)
    requires Sum(Turning(y), ValuesOf(side, edges)) == 0
    ensures Keyed(key, Crossings(clockwise, es)) && |Crossings(clockwise, es)| % 2 == 0
    ensures InSpan(ValuesOf(key, Crossings(clockwise, es)), px) <==> Inside(WindingNumber, ValuesOf(side, edges), px, y)
  {
    var ws := Crossings(clockwise, es);
    WholeWinding(es, side, key, clockwise, y);
    SumOnScanline(es, edges, side, y, Turning(y));
    OddCrossings(clockwise, es);
    CrossingsSorted(key, clockwise, es);
    AscendingXs(key, ws);
    SpanIffOdd(ValuesOf(key, ws), px);
    var c := SplitAt(es, key, px);
    CrossingsLeft(es, key, clockwise, px, c);
    OddCrossings(clockwise, es[..c]);
    TurnsLeft(es, side, key, clockwise, y, px, c);
    SumOnScanline(es, edges, side, y, Turned(px, y));
  }
}
