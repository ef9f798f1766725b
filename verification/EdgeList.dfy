/** The doubly linked list of active edges (libX11 PolyReg.c). */
module EdgeList {
  import opened Bresenham
  import opened EdgeOrder
  import opened Tally

  /** EdgeTableEntry */
  class Edge {
    var ymax: int
    var bres: Bres
    var next: Edge?
    var back: Edge?
    var nextWETE: Edge?
    var clockWise: bool

    constructor (lastScanline: int, b: Bres, clockwise: bool)
      ensures ymax == lastScanline && bres == b && clockWise == clockwise
      ensures next == null && back == null && nextWETE == null
    {
      ymax, bres, clockWise := lastScanline, b, clockwise;
      next, back, nextWETE := null, null, null;
    }
  }

  /** es, from its header on, is the list: each edge points to the next, and back to the one before. */
  ghost predicate Linked(es: seq<Edge>)
    reads es
  {
    && |es| > 0 && Distinct(es)
    && (forall i {:trigger es[i].next} :: 0 <= i < |es| ==> es[i].next == if i + 1 < |es| then es[i + 1] else null)
    && (forall i {:trigger es[i].back} :: 0 < i < |es| ==> es[i].back == es[i - 1])
  }

  predicate Within(es: seq<Edge>, all: set<Edge>) { forall i :: 0 <= i < |es| ==> es[i] in all }

  /** Element i moved before element c. */
  function MovedBefore(es: seq<Edge>, c: nat, i: nat): seq<Edge>
    requires c <= i < |es|
  {
    es[..c] + [es[i]] + es[c..i] + es[i + 1..]
  }

  /** The first half of the relinking of InsertionSort: element i leaves the list. */
  method Unlink(pETEinsert: Edge, AET: Edge?, ghost es: seq<Edge>, ghost i: nat, ghost all: set<Edge>)
    requires Within(es, all) && Linked(es) && 0 < i < |es| && pETEinsert == es[i]
    requires AET == if i + 1 < |es| then es[i + 1] else null
    modifies all`next, all`back
    ensures Linked(es[..i] + es[i + 1..])
    ensures forall e :: e in all && e !in es ==> e.next == old(e.next) && e.back == old(e.back)
  {
    pETEinsert.back.next := AET;
    if AET != null {
      AET.back := pETEinsert.back;
    }
  }

  /** The second half: it goes before element c. */
  method LinkBefore(pETEinsert: Edge, pETEchase: Edge, ghost es: seq<Edge>, ghost c: nat, ghost all: set<Edge>)
    requires Within(es, all) && Linked(es) && 0 < c < |es| && pETEchase == es[c] && pETEinsert in all && pETEinsert !in es
    modifies all`next, all`back
    ensures Linked(es[..c] + [pETEinsert] + es[c..])
  {
    var pETEchaseBackTMP := pETEchase.back;
    pETEinsert.next := pETEchase;
    pETEchase.back.next := pETEinsert;
    pETEchase.back := pETEinsert;
    pETEinsert.back := pETEchaseBackTMP;
  }

  lemma RestOf(es: seq<Edge>, c: nat, i: nat, rest: seq<Edge>, all: set<Edge>)
    requires Distinct(es) && Within(es, all) && c < i < |es| && rest == es[..i] + es[i + 1..]
    ensures c < |rest| && rest[c] == es[c] && Within(rest, all) && es[i] !in rest
    ensures rest[..c] + [es[i]] + rest[c..] == MovedBefore(es, c, i)
  {
  }

  /** The relinking of InsertionSort: pETEinsert goes before pETEchase, AET is the edge after it. */
  method Relink(pETEinsert: Edge, pETEchase: Edge, AET: Edge?, ghost es: seq<Edge>, ghost c: nat, ghost i: nat, ghost all: set<Edge>)
    requires Within(es, all) && Linked(es) && 1 <= c < i < |es| && pETEinsert == es[i] && pETEchase == es[c]
    requires AET == if i + 1 < |es| then es[i + 1] else null
    modifies all`next, all`back
    ensures Linked(MovedBefore(es, c, i))
  {
    ghost var rest := es[..i] + es[i + 1..];
    RestOf(es, c, i, rest, all);
    Unlink(pETEinsert, AET, es, i, all);
    LinkBefore(pETEinsert, pETEchase, rest, c, all);
  }

  // ---------- sorting ----------

  /** Where the chase stops is where insertion puts the edge. */
  lemma PlaceIs(key: map<Edge, int>, s: seq<Edge>, x: int, c: nat)
    requires Keyed(key, s) && c <= |s| && (c > 0 ==> key[s[c - 1]] <= x) && forall i :: c <= i < |s| ==> key[s[i]] > x
    ensures Place(key, s, x) == c
  {
  }

  /** Element `from` of h + t + rest moved back to place c: inserted into t. */
  lemma MoveIn(h: Edge, t: seq<Edge>, rest: seq<Edge>, c: nat)
    requires rest != [] && c <= |t|
    ensures MovedBefore([h] + t + rest, c + 1, |t| + 1) == [h] + (t[..c] + [rest[0]] + t[c..]) + rest[1..]
  {
  }

  /** The list after the first edges of es have been sorted. */
  ghost function PartlySorted(key: map<Edge, int>, es: seq<Edge>, i: nat): (t: seq<Edge>)
    requires 1 <= i <= |es| && Keyed(key, es)
    ensures |t| == |es| && t[0] == es[0] && forall j :: i <= j < |es| ==> t[j] == es[j]
  {
    [es[0]] + InsertionSorted(key, es[1..i]) + es[i..]
  }

  /** One more edge after the sorted ones. */
  lemma SortedSnoc(key: map<Edge, int>, a: seq<Edge>, e: Edge, s: seq<Edge>, c: nat)
    requires Keyed(key, a) && e in key && s == InsertionSorted(key, a) && Keyed(key, s) && c <= |s|
    requires (c > 0 ==> key[s[c - 1]] <= key[e]) && forall j :: c <= j < |s| ==> key[s[j]] > key[e]
    ensures Keyed(key, a + [e]) && InsertionSorted(key, a + [e]) == s[..c] + [e] + s[c..]
  {
    PlaceIs(key, s, key[e], c);
    assert (a + [e])[..|a|] == a;
  }

  /** One more edge inserted before the edges greater than it. */
  lemma InsertedNext(key: map<Edge, int>, es: seq<Edge>, i: nat, c: nat, s: seq<Edge>)
    requires 1 <= i < |es| && Keyed(key, es) && 1 <= c <= i
    requires s == InsertionSorted(key, es[1..i]) && Keyed(key, s)
    requires c > 1 ==> key[s[c - 2]] <= key[es[i]]
    requires forall j :: c - 1 <= j < |s| ==> key[s[j]] > key[es[i]]
    ensures PartlySorted(key, es, i + 1) == MovedBefore(PartlySorted(key, es, i), c, i)
  {
    PartsOf(es, i);
    SortedSnoc(key, es[1..i], es[i], s, c - 1);
    InsertedAt(es[0], s, es[i..], es[i], es[i + 1..], i, c);
  }

  lemma InsertedAt(h: Edge, s: seq<Edge>, rest: seq<Edge>, e: Edge, after: seq<Edge>, i: nat, c: nat)
    requires 1 <= c <= i == |s| + 1 && rest == [e] + after
    ensures MovedBefore([h] + s + rest, c, i) == [h] + (s[..c - 1] + [e] + s[c - 1..]) + after
  {
    assert rest[1..] == after;
    MoveIn(h, s, rest, c - 1);
  }

  lemma PartsOf(es: seq<Edge>, i: nat)
    requires 1 <= i < |es|
    ensures es[1..i + 1] == es[1..i] + [es[i]] && |es[1..i]| == i - 1
    ensures es[i..] == [es[i]] + es[i + 1..]
  {
  }

  lemma MovedNowhere(t: seq<Edge>, i: nat)
    requires i < |t|
    ensures MovedBefore(t, i, i) == t
  {
  }

  lemma PartlyHolds(key: map<Edge, int>, es: seq<Edge>, i: nat)
    requires 1 <= i <= |es| && Keyed(key, es)
    ensures multiset(PartlySorted(key, es, i)) == multiset(es)
  {
    InsertionSorts(key, es[1..i]);
    assert es == [es[0]] + es[1..i] + es[i..];
  }

  lemma Members(t: seq<Edge>, es: seq<Edge>)
    requires multiset(t) == multiset(es)
    ensures forall e :: e in t <==> e in es
  {
    assert forall e :: e in t <==> e in multiset(t);
    assert forall e :: e in es <==> e in multiset(es);
  }

  /** The list changes exactly if it was not sorted. */
  lemma ChangedIff(key: map<Edge, int>, es: seq<Edge>)
    requires |es| >= 1 && Keyed(key, es)
    ensures Keyed(key, es[1..]) && (PartlySorted(key, es, |es|) == es <==> Sorted(key, es[1..|es|]))
    ensures PartlySorted(key, es, |es|) == [es[0]] + InsertionSorted(key, es[1..])
  {
    var s := es[1..];
    assert es[1..|es|] == s;
    InsertionSorts(key, s);
    if Sorted(key, s) { SortedUnchanged(key, s); }
    assert PartlySorted(key, es, |es|) == [es[0]] + InsertionSorted(key, s);
    if PartlySorted(key, es, |es|) == es { assert PartlySorted(key, es, |es|)[1..] == s; }
  }

  /** The inner loop of InsertionSort: back past the greater edges. */
  method Chase(AET: Edge, ghost t: seq<Edge>, ghost i: nat) returns (pETEchase: Edge, ghost c: nat)
    requires Linked(t) && 1 <= i < |t| && AET == t[i] && t[0].bres.minorAxis <= AET.bres.minorAxis
    ensures 1 <= c <= i && pETEchase == t[c]
    ensures t[c - 1].bres.minorAxis <= AET.bres.minorAxis
    ensures forall j :: c <= j < i ==> t[j].bres.minorAxis > AET.bres.minorAxis
  {
    pETEchase := AET;
    c := i;
    while pETEchase.back.bres.minorAxis > AET.bres.minorAxis
      invariant 1 <= c <= i && pETEchase == t[c]
      invariant forall j :: c <= j < i ==> t[j].bres.minorAxis > AET.bres.minorAxis
      decreases c
    {
      pETEchase := pETEchase.back;
      c := c - 1;
    }
  }

  ghost predicate KeysAre(key: map<Edge, int>, es: seq<Edge>)
    reads es
  {
    forall i {:trigger es[i]} :: 0 <= i < |es| ==> es[i] in key && key[es[i]] == es[i].bres.minorAxis
  }

  lemma KeysOf(key: map<Edge, int>, es: seq<Edge>, t: seq<Edge>)
    requires KeysAre(key, es) && multiset(t) == multiset(es)
    ensures KeysAre(key, t)
  {
    forall j | 0 <= j < |t|
      ensures t[j] in key && key[t[j]] == t[j].bres.minorAxis
    {
      assert t[j] in multiset(es);
    }
  }

  /** What the chase finds, in terms of the edges sorted so far. */
  lemma Chased(key: map<Edge, int>, es: seq<Edge>, i: nat, c: nat, s: seq<Edge>, t: seq<Edge>)
    requires 1 <= i < |es| && Keyed(key, es) && 1 <= c <= i && KeysAre(key, t)
    requires s == InsertionSorted(key, es[1..i]) && t == PartlySorted(key, es, i)
    requires t[c - 1].bres.minorAxis <= es[i].bres.minorAxis
    requires forall j :: c <= j < i ==> t[j].bres.minorAxis > es[i].bres.minorAxis
    ensures PartlySorted(key, es, i + 1) == MovedBefore(t, c, i)
    ensures c == i <==> (i == 1 || key[s[i - 2]] <= key[es[i]])
  {
    assert forall j :: 0 <= j < |s| ==> s[j] == t[j + 1];
    assert t[i] == es[i];
    assert c > 1 ==> t[c - 1] == s[c - 2];
    InsertedNext(key, es, i, c, s);
    assert i > 1 ==> t[i - 1] == s[i - 2];
  }

  /** One turn of the loop of InsertionSort, on the list t. */
  method SortStep(AET: Edge, ghost t: seq<Edge>, ghost i: nat, ghost all: set<Edge>) returns (following: Edge?, moved: bool, ghost c: nat)
    requires Within(t, all) && Linked(t) && 1 <= i < |t| && AET == t[i] && t[0].bres.minorAxis <= AET.bres.minorAxis
    modifies all`next, all`back
    ensures 1 <= c <= i && Linked(MovedBefore(t, c, i))
    ensures t[c - 1].bres.minorAxis <= AET.bres.minorAxis
    ensures forall j :: c <= j < i ==> t[j].bres.minorAxis > AET.bres.minorAxis
    ensures moved <==> c < i
    ensures following == if i + 1 < |t| then t[i + 1] else null
  {
    var pETEchase;
    pETEchase, c := Chase(AET, t, i);
    following := AET.next;
    moved := pETEchase != AET;
    if moved {
      Relink(AET, pETEchase, following, t, c, i, all);
    } else {
      MovedNowhere(t, i);
    }
  }

  lemma WithinToo(t: seq<Edge>, es: seq<Edge>, all: set<Edge>)
    requires multiset(t) == multiset(es) && Within(es, all)
    ensures Within(t, all)
  {
    Members(t, es);
    assert forall e :: e in es ==> e in all;
    assert forall i :: 0 <= i < |t| ==> t[i] in t;
  }

  /** What the sort needs of the edges, whatever their links are. */
  ghost predicate Sortable(es: seq<Edge>, key: map<Edge, int>, all: set<Edge>)
    reads es
  {
    && Within(es, all) && Keyed(key, es) && KeysAre(key, es)
    && (forall i {:trigger es[i]} :: 0 <= i < |es| ==> es[0].bres.minorAxis <= es[i].bres.minorAxis)
  }

  /** The first i edges are in order, and that is a change or not. */
  ghost predicate SortedUpTo(es: seq<Edge>, t: seq<Edge>, key: map<Edge, int>, i: nat, all: set<Edge>, changed: bool)
    reads es, t
  {
    && 1 <= i <= |es| && Sortable(es, key, all)
    && t == PartlySorted(key, es, i) && Linked(t) && (changed <==> !Sorted(key, es[1..i]))
  }

  /** From the list with i edges in order to the list with one more. */
  method SortNext(AET: Edge, ghost es: seq<Edge>, ghost key: map<Edge, int>, ghost t: seq<Edge>, ghost i: nat, ghost all: set<Edge>, changed0: bool)
    returns (following: Edge?, changed: bool, ghost u: seq<Edge>)
    requires 1 <= i < |es| && SortedUpTo(es, t, key, i, all, changed0) && AET == es[i]
    modifies all`next, all`back
    ensures SortedUpTo(es, u, key, i + 1, all, changed)
    ensures following == if i + 1 < |es| then es[i + 1] else null
  {
    ReadyToSort(key, es, i, t, all);
    var moved;
    ghost var c;
    following, moved, c := SortStep(AET, t, i, all);
    changed := changed0 || moved;
    SortedMore(key, es, i, c, t);
    u := MovedBefore(t, c, i);
  }

  lemma ReadyToSort(key: map<Edge, int>, es: seq<Edge>, i: nat, t: seq<Edge>, all: set<Edge>)
    requires 1 <= i < |es| && Keyed(key, es) && KeysAre(key, es) && Within(es, all) && t == PartlySorted(key, es, i)
    ensures KeysAre(key, t) && Within(t, all)
  {
    PartlyHolds(key, es, i);
    KeysOf(key, es, t);
    WithinToo(t, es, all);
  }

  /** What one turn does to the edges sorted so far. */
  lemma SortedMore(key: map<Edge, int>, es: seq<Edge>, i: nat, c: nat, t: seq<Edge>)
    requires 1 <= i < |es| && Keyed(key, es) && 1 <= c <= i && KeysAre(key, t) && t == PartlySorted(key, es, i)
    requires t[c - 1].bres.minorAxis <= es[i].bres.minorAxis
    requires forall j :: c <= j < i ==> t[j].bres.minorAxis > es[i].bres.minorAxis
    ensures PartlySorted(key, es, i + 1) == MovedBefore(t, c, i)
    ensures c < i || !Sorted(key, es[1..i]) <==> !Sorted(key, es[1..i + 1])
  {
    Chased(key, es, i, c, InsertionSorted(key, es[1..i]), t);
    assert es[1..i] + [es[i]] == es[1..i + 1];
    SortedGrows(key, es[1..i], es[i]);
  }

  /** InsertionSort */
  method InsertionSort(head: Edge, ghost es: seq<Edge>, ghost key: map<Edge, int>, ghost all: set<Edge>)
    returns (changed: bool, ghost out: seq<Edge>)
    requires Within(es, all) && Linked(es) && head == es[0] && forall i :: 0 <= i < |es| ==> head.bres.minorAxis <= es[i].bres.minorAxis
    requires Keyed(key, es) && KeysAre(key, es)
    modifies all`next, all`back
    ensures Linked(out) && out == [head] + InsertionSorted(key, es[1..])
    ensures changed <==> out != es
  {
    ghost var i: nat, t := 1, es;
    changed := false;
    var AET := head.next;
    FirstSorted(es, key, all);
    while AET != null
      invariant SortedUpTo(es, t, key, i, all, changed)
      invariant AET == if i < |es| then es[i] else null
      decreases |es| - i
    {
      AET, changed, t := SortNext(AET, es, key, t, i, all, changed);
      i := i + 1;
    }
    out := t;
    AllSorted(es, t, key, all, changed);
  }

  lemma FirstSorted(es: seq<Edge>, key: map<Edge, int>, all: set<Edge>)
    requires Sortable(es, key, all) && Linked(es)
    ensures SortedUpTo(es, es, key, 1, all, false)
  {
    assert es[1..1] == [];
  }

  lemma AllSorted(es: seq<Edge>, t: seq<Edge>, key: map<Edge, int>, all: set<Edge>, changed: bool)
    requires SortedUpTo(es, t, key, |es|, all, changed)
    ensures Linked(t) && Keyed(key, es[1..]) && t == [es[0]] + InsertionSorted(key, es[1..])
    ensures changed <==> t != es
  {
    ChangedIff(key, es);
  }

  // ---------- merging new edges ----------

  /** bs is the list of edges that starts at e, linked by next only. */
  ghost predicate Chain(e: Edge?, bs: seq<Edge>)
    reads bs
  {
    && e == (if bs == [] then null else bs[0])
    && (forall i {:trigger bs[i].next} :: 0 <= i < |bs| ==> bs[i].next == if i + 1 < |bs| then bs[i + 1] else null)
  }

  /** The edge e goes between pPrevAET and AET. */
  method InsertBetween(e: Edge, pPrevAET: Edge, AET: Edge?, ghost t: seq<Edge>, ghost c: nat, ghost all: set<Edge>)
    requires Within(t, all) && Linked(t) && 1 <= c <= |t| && pPrevAET == t[c - 1] && AET == if c < |t| then t[c] else null
    requires e in all && e !in t
    modifies all`next, all`back
    ensures Linked(t[..c] + [e] + t[c..])
    ensures forall f :: f in all && f !in t && f != e ==> f.next == old(f.next)
  {
    e.next := AET;
    if AET != null {
      AET.back := e;
    }
    e.back := pPrevAET;
    pPrevAET.next := e;
  }

  lemma MergeFront(key: map<Edge, int>, a: seq<Edge>, b: seq<Edge>)
    requires Keyed(key, a) && Keyed(key, b) && b != []
    ensures a != [] && key[a[0]] < key[b[0]] ==> Merge(key, a, b) == [a[0]] + Merge(key, a[1..], b)
    ensures a == [] || key[a[0]] >= key[b[0]] ==> Merge(key, a, b) == [b[0]] + Merge(key, a, b[1..])
  {
  }

  /** What the list will be when b has been merged into the edges from c on. */
  ghost function Merged(key: map<Edge, int>, t: seq<Edge>, c: nat, b: seq<Edge>): seq<Edge>
    requires c <= |t| && Keyed(key, t) && Keyed(key, b)
  {
    t[..c] + Merge(key, t[c..], b)
  }

  lemma MergedSkip(key: map<Edge, int>, t: seq<Edge>, c: nat, b: seq<Edge>)
    requires c < |t| && Keyed(key, t) && Keyed(key, b) && b != [] && key[t[c]] < key[b[0]]
    ensures Merged(key, t, c + 1, b) == Merged(key, t, c, b)
  {
    MergeFront(key, t[c..], b);
    assert t[c..][1..] == t[c + 1..] && t[..c + 1] == t[..c] + [t[c]];
  }

  lemma MergedInsert(key: map<Edge, int>, t: seq<Edge>, c: nat, b: seq<Edge>)
    requires c <= |t| && Keyed(key, t) && Keyed(key, b) && b != [] && (c == |t| || key[t[c]] >= key[b[0]])
    ensures Keyed(key, t[..c] + [b[0]] + t[c..])
    ensures Merged(key, t[..c] + [b[0]] + t[c..], c + 1, b[1..]) == Merged(key, t, c, b)
  {
    MergeFront(key, t[c..], b);
    var u := t[..c] + [b[0]] + t[c..];
    assert u[..c + 1] == t[..c] + [b[0]] && u[c + 1..] == t[c..];
  }

  /** The inner loop of loadAET: past the smaller active edges. */
  method SkipSmaller(pPrev: Edge, first: Edge?, e: Edge, ghost t: seq<Edge>, ghost c0: nat, ghost b: seq<Edge>, ghost key: map<Edge, int>)
    returns (pPrevAET: Edge, AET: Edge?, ghost c: nat)
    requires Linked(t) && 1 <= c0 <= |t| && pPrev == t[c0 - 1] && first == if c0 < |t| then t[c0] else null
    requires b != [] && e == b[0] && Keyed(key, t) && Keyed(key, b) && KeysAre(key, t) && KeysAre(key, b)
    ensures c0 <= c <= |t| && pPrevAET == t[c - 1] && AET == if c < |t| then t[c] else null
    ensures (c == |t| || key[t[c]] >= key[b[0]]) && Merged(key, t, c, b) == Merged(key, t, c0, b)
  {
    pPrevAET, AET, c := pPrev, first, c0;
    ghost var merged := Merged(key, t, c0, b);
    while AET != null && AET.bres.minorAxis < e.bres.minorAxis
      invariant c0 <= c <= |t| && pPrevAET == t[c - 1] && AET == if c < |t| then t[c] else null
      invariant Merged(key, t, c, b) == merged
      decreases |t| - c
    {
      MergedSkip(key, t, c, b);
      pPrevAET := AET;
      AET := AET.next;
      c := c + 1;
    }
  }

  /** What loadAET keeps: the list, the edges still to come, and that they are different edges. */
  ghost predicate Loading(t: seq<Edge>, b: seq<Edge>, e: Edge?, key: map<Edge, int>, all: set<Edge>)
    reads t, b
  {
    && Within(t, all) && Within(b, all) && Distinct(b) && (forall f :: f in b ==> f !in t)
    && Linked(t) && Chain(e, b)
    && Keyed(key, t) && Keyed(key, b) && KeysAre(key, t) && KeysAre(key, b)
  }

  /** The edges of u and c are among those of t and b. */
  ghost predicate Among(u: seq<Edge>, c: seq<Edge>, t: seq<Edge>, b: seq<Edge>) {
    (forall f :: f in u ==> f in t || f in b) && (forall f :: f in c ==> f in t || f in b)
  }

  /** One turn of the outer loop of loadAET. */
  method LoadOne(pPrev: Edge, first: Edge?, e: Edge, ghost t: seq<Edge>, ghost c0: nat, ghost b: seq<Edge>,
                 ghost key: map<Edge, int>, ghost all: set<Edge>)
    returns (AET: Edge?, following: Edge?, ghost u: seq<Edge>, ghost c: nat)
    requires Loading(t, b, e, key, all) && 1 <= c0 <= |t| && pPrev == t[c0 - 1] && first == if c0 < |t| then t[c0] else null
    modifies all`next, all`back
    ensures 1 <= c <= |u| && u[0] == t[0] && u[c - 1] == e && AET == if c < |u| then u[c] else null
    ensures Loading(u, b[1..], following, key, all) && Merged(key, u, c, b[1..]) == Merged(key, t, c0, b)
    ensures Among(u, b[1..], t, b)
    ensures forall f :: f in all && f !in t && f !in b ==> f.next == old(f.next)
  {
    var pPrevAET;
    pPrevAET, AET, c := SkipSmaller(pPrev, first, e, t, c0, b, key);
    MergedInsert(key, t, c, b);
    following := e.next;
    u := t[..c] + [e] + t[c..];
    assert b[0] in b;
    assert following == if |b| > 1 then b[1] else null;
    InsertBetween(e, pPrevAET, AET, t, c, all);
    forall i | 0 < i < |b|
      ensures b[i].next == old(b[i].next)
    {
      assert b[i] in b && b[i] in all && b[i] != e;
    }
    StillLoading(t, b, u, c, e, following, key, all);
    c := c + 1;
  }

  lemma StillLoading(t: seq<Edge>, b: seq<Edge>, u: seq<Edge>, c: nat, e: Edge, following: Edge?, key: map<Edge, int>, all: set<Edge>)
    requires Within(t, all) && Within(b, all) && Distinct(b) && (forall f :: f in b ==> f !in t) && b != [] && e == b[0]
    requires c <= |t| && u == t[..c] + [e] + t[c..] && Linked(u)
    requires following == if |b| > 1 then b[1] else null
    requires forall i {:trigger b[i].next} :: 0 < i < |b| ==> b[i].next == if i + 1 < |b| then b[i + 1] else null
    requires Keyed(key, t) && Keyed(key, b) && KeysAre(key, t) && KeysAre(key, b)
    ensures Loading(u, b[1..], following, key, all) && Among(u, b[1..], t, b)
  {
    var d := b[1..];
    forall f | f in u
      ensures f in t || f == b[0]
    {
    }
    forall i | 0 <= i < |d|
      ensures d[i].next == if i + 1 < |d| then d[i + 1] else null
    {
      assert d[i] == b[i + 1];
    }
    forall f | f in d
      ensures f !in u
    {
      assert f in b;
    }
  }

  /** loadAET: the edges bs join the active edges. */
  method LoadAET(head: Edge, first: Edge?, ghost es: seq<Edge>, ghost bs: seq<Edge>, ghost key: map<Edge, int>, ghost all: set<Edge>)
    returns (ghost out: seq<Edge>)
    requires Loading(es, bs, first, key, all) && head == es[0]
    modifies all`next, all`back
    ensures Linked(out) && out == [head] + Merge(key, es[1..], bs)
    ensures forall f :: f in all && f !in es && f !in bs ==> f.next == old(f.next)
  {
    var pPrevAET := head;
    var AET := head.next;
    var ETEs := first;
    ghost var t, c: nat, b, merged := es, 1, bs, Merged(key, es, 1, bs);
    while ETEs != null
      invariant 1 <= c <= |t| && pPrevAET == t[c - 1] && AET == if c < |t| then t[c] else null
      invariant Loading(t, b, ETEs, key, all) && Among(t, b, es, bs)
      invariant Merged(key, t, c, b) == merged
      invariant forall f :: f in all && f !in es && f !in bs ==> f.next == old(f.next)
      decreases |b|
    {
      var e := ETEs;
      ghost var u;
      AET, ETEs, u, c := LoadOne(pPrevAET, AET, ETEs, t, c, b, key, all);
      AmongMore(u, b[1..], t, b, es, bs);
      pPrevAET := e;
      t, b := u, b[1..];
    }
    out := t;
    AllMerged(key, t, c);
  }

  lemma AmongMore(u: seq<Edge>, c: seq<Edge>, t: seq<Edge>, b: seq<Edge>, es: seq<Edge>, bs: seq<Edge>)
    requires Among(u, c, t, b) && Among(t, b, es, bs)
    ensures Among(u, c, es, bs)
  {
  }

  lemma AllMerged(key: map<Edge, int>, t: seq<Edge>, c: nat)
    requires 1 <= c <= |t| && Keyed(key, t)
    ensures Merged(key, t, c, []) == t
  {
    assert t[..c] + t[c..] == t;
  }

  // ---------- winding edges ----------

  /** Which way each edge goes. */
  ghost predicate WaysAre(clockwise: map<Edge, bool>, es: seq<Edge>)
    reads es
  {
    forall i {:trigger es[i]} :: 0 <= i < |es| ==> es[i] in clockwise && clockwise[es[i]] == es[i].clockWise
  }

  /** The winding edges, from the header on. */
  ghost predicate WindingChain(ws: seq<Edge>)
    reads ws
  {
    forall i {:trigger ws[i].nextWETE} :: 0 <= i < |ws| ==> ws[i].nextWETE == if i + 1 < |ws| then ws[i + 1] else null
  }

  lemma OneMoreEdge(clockwise: map<Edge, bool>, s: seq<Edge>, x: Edge)
    requires Keyed(clockwise, s) && x in clockwise
    ensures Keyed(clockwise, s + [x])
    ensures Winding(clockwise, s + [x]) == Winding(clockwise, s) + if clockwise[x] then 1 else -1
    ensures Crossings(clockwise, s + [x]) == Crossings(clockwise, s)
      + if (Winding(clockwise, s) == 0) != (Winding(clockwise, s + [x]) == 0) then [x] else []
  {
    assert (s + [x])[..|s|] == s;
  }

  /** The winding edges found so far: all but the last are linked. */
  ghost predicate PartChain(ws: seq<Edge>)
    reads ws
  {
    forall i {:trigger ws[i].nextWETE} :: 0 <= i < |ws| - 1 ==> ws[i].nextWETE == ws[i + 1]
  }

  /** One more winding edge is linked. */
  method LinkWinding(pWETE: Edge, AET: Edge, ghost ws: seq<Edge>, ghost all: set<Edge>)
    requires Within(ws, all) && Distinct(ws) && PartChain(ws) && ws != [] && pWETE == ws[|ws| - 1] && AET in all && AET !in ws
    modifies all`nextWETE
    ensures PartChain(ws + [AET]) && Distinct(ws + [AET]) && Within(ws + [AET], all)
  {
    assert pWETE in all;
    pWETE.nextWETE := AET;
  }

  /** After the first edges of es: the winding number, whether it is zero, and the winding edges. */
  ghost predicate Wound(clockwise: map<Edge, bool>, es: seq<Edge>, i: nat, isInside: int, inside: bool, ws: seq<Edge>) {
    && 1 <= i <= |es| && Keyed(clockwise, es[1..i])
    && isInside == Winding(clockwise, es[1..i]) && inside == (isInside == 0)
    && ws == [es[0]] + Crossings(clockwise, es[1..i])
  }

  lemma WoundNext(clockwise: map<Edge, bool>, es: seq<Edge>, i: nat, isInside: int, inside: bool, ws: seq<Edge>, next: int)
    requires Wound(clockwise, es, i, isInside, inside, ws) && i < |es| && es[i] in clockwise
    requires next == isInside + if clockwise[es[i]] then 1 else -1
    ensures Wound(clockwise, es, i + 1, next, next == 0, if inside != (next == 0) then ws + [es[i]] else ws)
  {
    assert es[1..i] + [es[i]] == es[1..i + 1];
    OneMoreEdge(clockwise, es[1..i], es[i]);
  }

  /** One turn of computeWAET. */
  method WindingTurn(AET: Edge, pWETE: Edge, isInside: int, inside: bool, ghost es: seq<Edge>, ghost clockwise: map<Edge, bool>, ghost i: nat,
                     ghost ws: seq<Edge>, ghost all: set<Edge>)
    returns (last: Edge, number: int, zero: bool, ghost more: seq<Edge>)
    requires Wound(clockwise, es, i, isInside, inside, ws) && i < |es| && AET == es[i] && AET in all && Distinct(es)
    requires AET in clockwise && clockwise[AET] == AET.clockWise
    requires Within(ws, all) && Distinct(ws) && PartChain(ws) && pWETE == ws[|ws| - 1]
    modifies all`nextWETE
    ensures Wound(clockwise, es, i + 1, number, zero, more)
    ensures Within(more, all) && Distinct(more) && PartChain(more) && more != [] && last == more[|more| - 1]
  {
    NotYet(clockwise, es, i);
    number := if AET.clockWise then isInside + 1 else isInside - 1;
    var crosses := (!inside && number == 0) || (inside && number != 0);
    last, more := LinkIf(crosses, pWETE, AET, ws, all);
    zero := if crosses then !inside else inside;
    WoundNext(clockwise, es, i, isInside, inside, ws, number);
  }

  method LinkIf(crosses: bool, pWETE: Edge, AET: Edge, ghost ws: seq<Edge>, ghost all: set<Edge>) returns (last: Edge, ghost more: seq<Edge>)
    requires Within(ws, all) && Distinct(ws) && PartChain(ws) && ws != [] && pWETE == ws[|ws| - 1] && AET in all && AET !in ws
    modifies all`nextWETE
    ensures more == if crosses then ws + [AET] else ws
    ensures Within(more, all) && Distinct(more) && PartChain(more) && last == more[|more| - 1]
  {
    last, more := pWETE, ws;
    if crosses {
      LinkWinding(pWETE, AET, ws, all);
      last, more := AET, ws + [AET];
    }
  }

  /** computeWAET: links the edges at which the winding number moves between zero and non-zero. */
  method ComputeWAET(head: Edge, ghost es: seq<Edge>, ghost clockwise: map<Edge, bool>, ghost all: set<Edge>)
    requires Within(es, all) && Linked(es) && head == es[0] && Keyed(clockwise, es) && WaysAre(clockwise, es)
    modifies all`nextWETE
    ensures WindingChain([head] + Crossings(clockwise, es[1..]))
  {
    var inside, isInside := true, 0;
    assert head in all;
    head.nextWETE := null;
    var pWETE := head;
    var AET := head.next;
    ghost var i: nat, ws := 1, [head];
    assert es[1..1] == [];
    while AET != null
      invariant AET == if i < |es| then es[i] else null
      invariant Wound(clockwise, es, i, isInside, inside, ws)
      invariant Within(ws, all) && Distinct(ws) && PartChain(ws) && ws != [] && pWETE == ws[|ws| - 1]
      decreases |es| - i
    {
      pWETE, isInside, inside, ws := WindingTurn(AET, pWETE, isInside, inside, es, clockwise, i, ws, all);
      AET := AET.next;
      i := i + 1;
    }
    assert es[1..i] == es[1..];
    assert pWETE in all;
    pWETE.nextWETE := null;
  }

  lemma NotYet(clockwise: map<Edge, bool>, es: seq<Edge>, i: nat)
    requires Distinct(es) && 1 <= i < |es| && Keyed(clockwise, es[1..i])
    ensures es[i] !in [es[0]] + Crossings(clockwise, es[1..i])
  {
    assert es[i] !in es[1..i];
  }
}
