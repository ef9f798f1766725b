/** In which order the sides of a polygon are scanned: which start on a scanline, and which are active on it, as the
    values of the sides alone decide it (libX11 PolyReg.c). */
module PolygonOrder {
  import opened EdgeOrder
  import opened PolygonRule
  import opened PolygonScan
  import opened Tally

  // ---------- the sides that start on a scanline ----------

  /** A side enters a bucket before the first that starts no further left. */
  function Enter(b: seq<Side>, s: Side): (r: seq<Side>)
    ensures forall t :: t in r ==> t == s || t in b
  {
    if b == [] || b[0].top.x >= s.top.x then [s] + b else [b[0]] + Enter(b[1..], s)
  }

  /** The sides that start on scanline y, entered one after the other. */
  function Starting(sides: seq<Side>, y: int): (r: seq<Side>)
    ensures forall s :: s in r ==> s in sides && s.top.y == y
  {
    if sides == [] then []
    else
      var s, b := sides[|sides| - 1], Starting(sides[..|sides| - 1], y);
      if s.top.y == y then Enter(b, s) else b
  }

  lemma StartingMore(sides: seq<Side>, s: Side, y: int)
    ensures Starting(sides + [s], y) == if s.top.y == y then Enter(Starting(sides, y), s) else Starting(sides, y)
  {
    assert (sides + [s])[..|sides|] == sides;
  }

  lemma {:induction false} EnterIs(b: seq<Side>, s: Side, c: nat)
    requires c <= |b| && (forall i :: 0 <= i < c ==> b[i].top.x < s.top.x) && (c < |b| ==> b[c].top.x >= s.top.x)
    ensures Enter(b, s) == b[..c] + [s] + b[c..]
  {
    if c > 0 {
      EnterIs(b[1..], s, c - 1);
      assert b[1..][..c - 1] == b[1..c] && b[1..][c - 1..] == b[c..];
      assert b[..c] == [b[0]] + b[1..c];
    }
  }

  lemma {:induction false} NoneStarting(sides: seq<Side>, y: int)
    requires forall s :: s in sides ==> s.top.y != y
    ensures Starting(sides, y) == []
  {
    if sides != [] { NoneStarting(sides[..|sides| - 1], y); }
  }

  // ---------- the sides that are active ----------

  /** Where the sides are drawn on scanline y, if they are. */
  function XOf(sides: seq<Side>, y: int): map<Side, int> { map s | s in sides :: if s.Meets(y) then CrossX(s, y) else 0 }

  function WayOf(sides: seq<Side>): map<Side, bool> { map s | s in sides :: s.clockwise }

  /** The side is still active on the scanline after y. */
  function Lasts(y: int): Side -> bool { (s: Side) => s.bottom.y > y + 1 }

  /** From the sides of one scanline to those that are active from it on: without those that end, sorted. */
  function NextActive(sides: seq<Side>, row: seq<Side>, y: int): (r: seq<Side>)
    requires forall s :: s in row ==> s in sides
    ensures forall s :: s in r ==> s in sides
  {
    var r := InsertionSorted(XOf(sides, y + 1), Keep(Lasts(y), row));
    assert forall s :: s in r ==> s in sides;
    r
  }

  /** The sides of a scanline: those that start on it, merged into those that are active. */
  function RowFrom(sides: seq<Side>, act: seq<Side>, y: int): (r: seq<Side>)
    requires forall s :: s in act ==> s in sides
    ensures forall s :: s in r ==> s in sides
  {
    var r := Merge(XOf(sides, y), act, Starting(sides, y));
    assert forall s :: s in r ==> s in sides;
    r
  }

  /** The sides that are active on scanline y from an earlier one on, of a scan that begins with scanline y0. */
  function Active(sides: seq<Side>, y0: int, y: int): (r: seq<Side>)
    ensures forall s :: s in r ==> s in sides
    decreases y - y0
  {
    if y <= y0 then [] else NextActive(sides, RowFrom(sides, Active(sides, y0, y - 1), y - 1), y - 1)
  }

  function RowSides(sides: seq<Side>, y0: int, y: int): (r: seq<Side>)
    ensures forall s :: s in r ==> s in sides
  {
    RowFrom(sides, Active(sides, y0, y), y)
  }

  /** The first and the last of the scanlines on which the points before the sides are. */
  function FirstOf(sides: seq<Side>, large: int): int {
    if sides == [] then large
    else
      var y, m := StartOf(sides[|sides| - 1]), FirstOf(sides[..|sides| - 1], large);
      if y < m then y else m
  }

  function LastOf(sides: seq<Side>, small: int): int {
    if sides == [] then small
    else
      var y, m := StartOf(sides[|sides| - 1]), LastOf(sides[..|sides| - 1], small);
      if y > m then y else m
  }

  function StartOf(s: Side): int { if s.clockwise then s.top.y else s.bottom.y }

  // ---------- edges and their sides ----------

  lemma ValuesJoin<E, V>(m: map<E, V>, a: seq<E>, b: seq<E>)
    requires Keyed(m, a) && Keyed(m, b)
    ensures Keyed(m, a + b) && ValuesOf(m, a + b) == ValuesOf(m, a) + ValuesOf(m, b)
  {
  }

  lemma ValuesFront<E, V>(m: map<E, V>, a: seq<E>, n: nat)
    requires Keyed(m, a) && n <= |a|
    ensures Keyed(m, a[..n]) && ValuesOf(m, a[..n]) == ValuesOf(m, a)[..n]
  {
  }

  lemma ValuesFrom<E, V>(m: map<E, V>, a: seq<E>, n: nat)
    requires Keyed(m, a) && n <= |a|
    ensures Keyed(m, a[n..]) && ValuesOf(m, a[n..]) == ValuesOf(m, a)[n..]
  {
  }

  lemma ValuesCons<E, V>(m: map<E, V>, x: E, a: seq<E>)
    requires x in m && Keyed(m, a)
    ensures Keyed(m, [x] + a) && ValuesOf(m, [x] + a) == [m[x]] + ValuesOf(m, a)
  {
  }

  lemma ValuesSnoc<E, V>(m: map<E, V>, a: seq<E>, x: E)
    requires x in m && Keyed(m, a)
    ensures Keyed(m, a + [x]) && ValuesOf(m, a + [x]) == ValuesOf(m, a) + [m[x]]
  {
  }

  /** Edges have the key of their sides. */
  ghost predicate SameKeys<E, F>(m: map<E, F>, key: map<E, int>, key': map<F, int>, es: seq<E>) {
    forall e :: e in es ==> e in m && e in key && m[e] in key' && key[e] == key'[m[e]]
  }

  lemma SameKeyed<E, F>(m: map<E, F>, key: map<E, int>, key': map<F, int>, es: seq<E>)
    requires SameKeys(m, key, key', es)
    ensures Keyed(m, es) && Keyed(key, es) && Keyed(key', ValuesOf(m, es))
    ensures forall i :: 0 <= i < |es| ==> key[es[i]] == key'[ValuesOf(m, es)[i]]
  {
    forall f | f in ValuesOf(m, es)
      ensures f in key'
    {
      var i :| 0 <= i < |es| && ValuesOf(m, es)[i] == f;
      assert es[i] in es;
    }
    forall i | 0 <= i < |es|
      ensures key[es[i]] == key'[ValuesOf(m, es)[i]]
    {
      assert es[i] in es;
    }
  }

  /** Merging edges merges their sides. */
  lemma {:induction false} MergeValues<E, F>(m: map<E, F>, key: map<E, int>, key': map<F, int>, a: seq<E>, b: seq<E>)
    requires SameKeys(m, key, key', a) && SameKeys(m, key, key', b)
    ensures Keyed(key, a) && Keyed(key, b) && Keyed(key', ValuesOf(m, a)) && Keyed(key', ValuesOf(m, b))
    ensures Keyed(m, Merge(key, a, b)) && ValuesOf(m, Merge(key, a, b)) == Merge(key', ValuesOf(m, a), ValuesOf(m, b))
    decreases |a| + |b|
  {
    SameKeyed(m, key, key', a);
    SameKeyed(m, key, key', b);
    var u, v := ValuesOf(m, a), ValuesOf(m, b);
    if b == [] {
    } else if a != [] && key[a[0]] < key[b[0]] {
      MergeValues(m, key, key', a[1..], b);
      ValuesFrom(m, a, 1);
      ValuesCons(m, a[0], Merge(key, a[1..], b));
      assert Merge(key', u, v) == [u[0]] + Merge(key', u[1..], v);
    } else {
      MergeValues(m, key, key', a, b[1..]);
      ValuesFrom(m, b, 1);
      ValuesCons(m, b[0], Merge(key, a, b[1..]));
      assert Merge(key', u, v) == [v[0]] + Merge(key', u, v[1..]);
    }
  }

  lemma {:induction false} PlaceValues<E, F>(m: map<E, F>, key: map<E, int>, key': map<F, int>, s: seq<E>, x: int)
    requires SameKeys(m, key, key', s)
    ensures Keyed(key, s) && Keyed(m, s) && Keyed(key', ValuesOf(m, s)) && Place(key, s, x) == Place(key', ValuesOf(m, s), x)
  {
    SameKeyed(m, key, key', s);
    if s != [] {
      PlaceValues(m, key, key', s[..|s| - 1], x);
      ValuesFront(m, s, |s| - 1);
    }
  }

  /** Sorting edges sorts their sides. */
  lemma {:induction false} SortedValues<E, F>(m: map<E, F>, key: map<E, int>, key': map<F, int>, s: seq<E>)
    requires SameKeys(m, key, key', s)
    ensures Keyed(key, s) && Keyed(key', ValuesOf(m, s)) && SameKeys(m, key, key', InsertionSorted(key, s))
    ensures ValuesOf(m, InsertionSorted(key, s)) == InsertionSorted(key', ValuesOf(m, s))
  {
    SameKeyed(m, key, key', s);
    if s != [] {
      var s', x := s[..|s| - 1], s[|s| - 1];
      SortedValues(m, key, key', s');
      ValuesFront(m, s, |s| - 1);
      InsertValues(m, key, key', InsertionSorted(key, s'), x);
    }
  }

  lemma InsertValues<E, F>(m: map<E, F>, key: map<E, int>, key': map<F, int>, t: seq<E>, x: E)
    requires SameKeys(m, key, key', t) && x in m && x in key && m[x] in key' && key[x] == key'[m[x]]
    ensures Keyed(key, t) && Keyed(m, t) && Keyed(key', ValuesOf(m, t)) && SameKeys(m, key, key', Insert(key, t, x))
    ensures ValuesOf(m, Insert(key, t, x)) == Insert(key', ValuesOf(m, t), m[x])
  {
    PlaceValues(m, key, key', t, key[x]);
    var c := Place(key, t, key[x]);
    InsertedKeys(m, key, key', t, x, c);
    InsertedValues(m, t, x, c);
  }

  lemma InsertedKeys<E, F>(m: map<E, F>, key: map<E, int>, key': map<F, int>, t: seq<E>, x: E, c: nat)
    requires SameKeys(m, key, key', t) && c <= |t| && x in m && x in key && m[x] in key' && key[x] == key'[m[x]]
    ensures SameKeys(m, key, key', t[..c] + [x] + t[c..])
  {
    forall e | e in t[..c] + [x] + t[c..]
      ensures e in t || e == x
    {
    }
  }

  lemma InsertedValues<E, V>(m: map<E, V>, t: seq<E>, x: E, c: nat)
    requires Keyed(m, t) && x in m && c <= |t|
    ensures Keyed(m, t[..c] + [x] + t[c..]) && ValuesOf(m, t[..c] + [x] + t[c..]) == ValuesOf(m, t)[..c] + [m[x]] + ValuesOf(m, t)[c..]
  {
    ValuesFront(m, t, c);
    ValuesFrom(m, t, c);
    ValuesSnoc(m, t[..c], x);
    ValuesJoin(m, t[..c] + [x], t[c..]);
  }

  lemma {:induction false} KeepValues<E, F>(m: map<E, F>, p: E -> bool, q: F -> bool, s: seq<E>)
    requires Keyed(m, s) && forall e :: e in s ==> p(e) == q(m[e])
    ensures Keyed(m, Keep(p, s)) && ValuesOf(m, Keep(p, s)) == Keep(q, ValuesOf(m, s))
  {
    if s != [] {
      var s', x := s[..|s| - 1], s[|s| - 1];
      KeepValues(m, p, q, s');
      ValuesFront(m, s, |s| - 1);
      if p(x) { ValuesSnoc(m, Keep(p, s'), x); }
    }
  }

  /** The winding edges are those of the winding sides. */
  lemma {:induction false} CrossingValues<E, F>(m: map<E, F>, way: map<E, bool>, way': map<F, bool>, s: seq<E>)
    requires forall e :: e in s ==> e in m && e in way && m[e] in way' && way[e] == way'[m[e]]
    ensures Keyed(way, s) && Keyed(m, s) && Keyed(way', ValuesOf(m, s)) && Winding(way, s) == Winding(way', ValuesOf(m, s))
    ensures Keyed(m, Crossings(way, s)) && ValuesOf(m, Crossings(way, s)) == Crossings(way', ValuesOf(m, s))
  {
    if s != [] {
      var s', x := s[..|s| - 1], s[|s| - 1];
      CrossingValues(m, way, way', s');
      assert s == s' + [x];
      ValuesSnoc(m, s', x);
      ValuesSnoc(m, Crossings(way, s'), x);
      CrossingStep(way', ValuesOf(m, s'), m[x]);
    }
  }

  lemma CrossingStep<E>(way: map<E, bool>, s: seq<E>, x: E)
    requires Keyed(way, s) && x in way
    ensures Keyed(way, s + [x]) && Winding(way, s + [x]) == Winding(way, s) + if way[x] then 1 else -1
    ensures Crossings(way, s + [x]) == Crossings(way, s) + if (Winding(way, s) == 0) != (Winding(way, s + [x]) == 0) then [x] else []
  {
    assert (s + [x])[..|s|] == s;
  }
}
