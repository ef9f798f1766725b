/** The scan of a polygon, scanline by scanline (libX11 PolyReg.c, poly.h). */
module PolygonLoop {
  import opened Bresenham
  import opened EdgeList
  import opened EdgeOrder
  import opened EdgeTable
  import opened PolygonRule
  import opened PolygonScan
  import opened Tally

  // ---------- the edges on a scanline ----------

  /** The edges stand where their sides cross scanline y. */
  ghost predicate AllStand(es: seq<Edge>, side: map<Edge, Side>, y: int)
    reads es
  {
    Keyed(side, es) && AllMeet(side, es, y) && forall i {:trigger es[i]} :: 0 <= i < |es| ==> Stands(es[i], side[es[i]], y)
  }

  /** Where the sides of edges cross scanline y. */
  function CrossKeys(es: seq<Edge>, side: map<Edge, Side>, y: int): (key: map<Edge, int>) {
    map e | e in es && e in side && side[e].top.y <= y < side[e].bottom.y :: CrossX(side[e], y)
  }

  function Ways(es: seq<Edge>, side: map<Edge, Side>): map<Edge, bool> { map e | e in es && e in side :: side[e].clockwise }

  lemma StandingKeys(es: seq<Edge>, side: map<Edge, Side>, y: int)
    requires AllStand(es, side, y)
    ensures Keyed(CrossKeys(es, side, y), es) && KeysAre(CrossKeys(es, side, y), es)
    ensures Keyed(Ways(es, side), es) && WaysAre(Ways(es, side), es)
    ensures Drawn(es, side, CrossKeys(es, side, y), Ways(es, side), y)
  {
  }

  /** The edge is still active on the next scanline. */
  function Continues(side: map<Edge, Side>, y: int): Edge -> bool { e => e in side && side[e].bottom.y > y + 1 }

  function PointsOf(xs: seq<int>, y: int): (r: seq<Point>)
    ensures |r| == |xs|
  {
    seq(|xs|, i requires 0 <= i < |xs| => Point(xs[i], y))
  }

  // ---------- evaluating an edge ----------

  /** EVALUATEEDGEEVENODD and EVALUATEEDGEWINDING: the edge leaves the list, or is stepped. */
  method EvaluateEdge(pPrev: Edge, pEdge: Edge, y: int, ghost t: seq<Edge>, ghost c: nat, ghost all: set<Edge>)
    returns (pPrevAET: Edge, pAET: Edge?, removed: bool)
    requires Within(t, all) && Linked(t) && 1 <= c < |t| && pEdge == t[c] && pPrev == t[c - 1]
    modifies all`next, all`back, all`bres
    ensures removed <==> pEdge.ymax == y
    ensures removed ==> Linked(t[..c] + t[c + 1..]) && pPrevAET == pPrev
    ensures !removed ==> Linked(t) && pPrevAET == pEdge && pEdge.bres == Incr(old(pEdge.bres))
    ensures pAET == if c + 1 < |t| then t[c + 1] else null
    ensures forall e :: e in all && (removed || e != pEdge) ==> e.bres == old(e.bres)
  {
    removed := pEdge.ymax == y;
    if removed {
      pPrev.next := pEdge.next;
      pPrevAET := pPrev;
      pAET := pPrev.next;
      if pAET != null {
        pAET.back := pPrev;
      }
    } else {
      pEdge.bres := Incr(pEdge.bres);
      pPrevAET := pEdge;
      pAET := pEdge.next;
    }
  }

  /** The list, in the middle of a scanline: edges that continue, stepped, and edges to come. */
  ghost predicate Midway(head: Edge, kept: seq<Edge>, rest: seq<Edge>, side: map<Edge, Side>, y: int, all: set<Edge>)
    reads all
  {
    && head in all && Within(kept, all) && Within(rest, all)
    && Linked([head] + kept + rest) && AllStand(kept, side, y + 1) && AllStand(rest, side, y)
  }

  lemma SteppedOnce(e: Edge, s: Side, y: int, b: Bres)
    requires s.Valid() && s.top.y <= y && e.ymax == s.bottom.y - 1 && e.clockWise == s.clockwise
    requires b == Steps(Init(s.bottom.y - s.top.y, s.top.x, s.bottom.x), y - s.top.y) && e.bres == Incr(b)
    ensures Stands(e, s, y + 1)
  {
  }

  /** EvaluateEdge on the first of the edges to come. */
  method EvaluateNext(head: Edge, pPrev: Edge, pEdge: Edge, y: int, ghost kept: seq<Edge>, ghost rest: seq<Edge>,
                      ghost side: map<Edge, Side>, ghost all: set<Edge>)
    returns (pPrevAET: Edge, pAET: Edge?, removed: bool, ghost newKept: seq<Edge>)
    requires Midway(head, kept, rest, side, y, all) && rest != [] && pEdge == rest[0] && pPrev == ([head] + kept)[|kept|]
    modifies all`next, all`back, all`bres
    ensures head.bres == old(head.bres)
    ensures Midway(head, newKept, rest[1..], side, y, all)
    ensures newKept == kept + if Continues(side, y)(pEdge) then [pEdge] else []
    ensures removed <==> !Continues(side, y)(pEdge)
    ensures pPrevAET == ([head] + newKept)[|newKept|] && pAET == if |rest| > 1 then rest[1] else null
  {
    ghost var t, c, more := [head] + kept + rest, |kept| + 1, rest[1..];
    ListParts(head, kept, rest);
    assert Stands(rest[0], side[rest[0]], y);
    ghost var s := side[pEdge];
    pPrevAET, pAET, removed := EvaluateEdge(pPrev, pEdge, y, t, c, all);
    newKept := kept;
    if !removed {
      newKept := kept + [pEdge];
      SteppedOnce(pEdge, s, y, old(pEdge.bres));
    }
    forall i | 0 <= i < |kept|
      ensures Stands(kept[i], side[kept[i]], y + 1)
    {
      assert old(Stands(kept[i], side[kept[i]], y + 1));
    }
    forall i | 0 <= i < |more|
      ensures Stands(more[i], side[more[i]], y)
    {
      assert more[i] == rest[i + 1] && old(Stands(rest[i + 1], side[rest[i + 1]], y));
    }
  }

  /** The parts of the list around the edge evaluated. */
  lemma ListParts(head: Edge, kept: seq<Edge>, rest: seq<Edge>)
    requires rest != [] && Distinct([head] + kept + rest)
    ensures var t, c, more := [head] + kept + rest, |kept| + 1, rest[1..];
      && t[c] == rest[0] && t[c - 1] == ([head] + kept)[|kept|] && (c + 1 < |t| ==> t[c + 1] == rest[1])
      && t[..c] + t[c + 1..] == [head] + kept + more && t == [head] + (kept + [rest[0]]) + more
    ensures head != rest[0]
    ensures (forall i :: 0 <= i < |kept| ==> kept[i] != rest[0]) && (forall i :: 1 <= i < |rest| ==> rest[i] != rest[0])
  {
    var t := [head] + kept + rest;
    assert t[0] == head && t[|kept| + 1] == rest[0];
    assert forall i :: 0 <= i < |kept| ==> kept[i] == t[i + 1];
    assert forall i :: 0 <= i < |rest| ==> rest[i] == t[|kept| + 1 + i];
  }

  // ---------- one scanline ----------

  /** The edges that continue, stepped, with the loop at edge i. */
  ghost predicate AtEdge(head: Edge, pPrevAET: Edge, pAET: Edge?, act: seq<Edge>, i: nat, side: map<Edge, Side>, y: int, all: set<Edge>)
    reads all
  {
    && i <= |act| && pAET == (if i < |act| then act[i] else null)
    && var kept := Keep(Continues(side, y), act[..i]);
       Midway(head, kept, act[i..], side, y, all) && pPrevAET == ([head] + kept)[|kept|]
  }

  lemma KeepOneMore<E>(p: E -> bool, s: seq<E>, i: nat)
    requires i < |s|
    ensures Keep(p, s[..i + 1]) == Keep(p, s[..i]) + if p(s[i]) then [s[i]] else []
  {
    assert s[..i + 1][..i] == s[..i];
  }

  method NextEdge(head: Edge, pPrev: Edge, pEdge: Edge, y: int, ghost act: seq<Edge>, ghost i: nat,
                  ghost side: map<Edge, Side>, ghost all: set<Edge>)
    returns (pPrevAET: Edge, pAET: Edge?, removed: bool)
    requires AtEdge(head, pPrev, pEdge, act, i, side, y, all)
    modifies all`next, all`back, all`bres
    ensures head.bres == old(head.bres)
    ensures AtEdge(head, pPrevAET, pAET, act, i + 1, side, y, all)
    ensures removed <==> !Continues(side, y)(act[i])
  {
    ghost var kept;
    KeepOneMore(Continues(side, y), act, i);
    assert act[i..][1..] == act[i + 1..];
    pPrevAET, pAET, removed, kept := EvaluateNext(head, pPrev, pEdge, y, Keep(Continues(side, y), act[..i]), act[i..], side, all);
  }

  lemma PointsMore(key: map<Edge, int>, act: seq<Edge>, i: nat, y: int)
    requires Keyed(key, act) && i < |act|
    ensures Keyed(key, act[..i]) && Keyed(key, act[..i + 1])
    ensures PointsOf(ValuesOf(key, act[..i + 1]), y) == PointsOf(ValuesOf(key, act[..i]), y) + [Point(key[act[i]], y)]
  {
  }

  lemma Begun(head: Edge, act: seq<Edge>, side: map<Edge, Side>, y: int, all: set<Edge>)
    requires head in all && Within(act, all) && Linked([head] + act) && AllStand(act, side, y)
    ensures AtEdge(head, head, head.next, act, 0, side, y, all)
  {
    var t := [head] + act;
    assert t[0].next == if 1 < |t| then t[1] else null;
    assert act[..0] == [] && act[0..] == act && [head] + [] + act == t;
  }

  lemma Ended(head: Edge, pPrevAET: Edge, act: seq<Edge>, side: map<Edge, Side>, y: int, all: set<Edge>)
    requires AtEdge(head, pPrevAET, null, act, |act|, side, y, all)
    ensures var kept := Keep(Continues(side, y), act);
      Within(kept, all) && Linked([head] + kept) && AllStand(kept, side, y + 1)
  {
    assert act[..|act|] == act && act[|act|..] == [];
    var kept := Keep(Continues(side, y), act);
    assert [head] + kept + [] == [head] + kept;
  }

  /** The points of the first i edges. */
  ghost predicate EmittedAll(pts: seq<Point>, pts0: seq<Point>, key: map<Edge, int>, act: seq<Edge>, i: nat, y: int) {
    i <= |act| && Keyed(key, act[..i]) && pts == pts0 + PointsOf(ValuesOf(key, act[..i]), y)
  }

  /** One turn of the inner loop of the even-odd rule. */
  method EvenOddTurn(head: Edge, pPrev: Edge, pEdge: Edge, y: int, pts1: seq<Point>, ghost act: seq<Edge>, ghost i: nat,
                     ghost side: map<Edge, Side>, ghost pts0: seq<Point>, ghost key: map<Edge, int>, ghost all: set<Edge>)
    returns (pPrevAET: Edge, pAET: Edge?, pts: seq<Point>)
    requires AtEdge(head, pPrev, pEdge, act, i, side, y, all)
    requires key == CrossKeys(act, side, y) && Keyed(key, act) && EmittedAll(pts1, pts0, key, act, i, y)
    modifies all`next, all`back, all`bres
    ensures head.bres == old(head.bres)
    ensures AtEdge(head, pPrevAET, pAET, act, i + 1, side, y, all)
    ensures EmittedAll(pts, pts0, key, act, i + 1, y)
  {
    CurrentX(act[i..], side, y);
    PointsMore(key, act, i, y);
    pts := pts1 + [Point(pEdge.bres.minorAxis, y)];
    var removed;
    pPrevAET, pAET, removed := NextEdge(head, pPrev, pEdge, y, act, i, side, all);
  }

  /** The inner loop of the even-odd rule: a point for every edge. */
  method EmitEvenOdd(head: Edge, y: int, pts0: seq<Point>, ghost act: seq<Edge>, ghost side: map<Edge, Side>, ghost all: set<Edge>)
    returns (pts: seq<Point>)
    requires head in all && Within(act, all) && Linked([head] + act) && AllStand(act, side, y)
    modifies all`next, all`back, all`bres
    ensures head.bres == old(head.bres)
    ensures var kept := Keep(Continues(side, y), act);
      Linked([head] + kept) && AllStand(kept, side, y + 1)
    ensures Keyed(CrossKeys(act, side, y), act) && pts == pts0 + PointsOf(ValuesOf(CrossKeys(act, side, y), act), y)
  {
    ghost var key := CrossKeys(act, side, y);
    StandingKeys(act, side, y);
    Begun(head, act, side, y, all);
    pts := pts0;
    var pPrevAET := head;
    var pAET := head.next;
    ghost var i: nat := 0;
    while pAET != null
      invariant AtEdge(head, pPrevAET, pAET, act, i, side, y, all) && head.bres == old(head.bres)
      invariant EmittedAll(pts, pts0, key, act, i, y)
      decreases |act| - i
    {
      pPrevAET, pAET, pts := EvenOddTurn(head, pPrevAET, pAET, y, pts, act, i, side, pts0, key, all);
      i := i + 1;
    }
    assert act[..i] == act;
    Ended(head, pPrevAET, act, side, y, all);
  }

  lemma CurrentX(rest: seq<Edge>, side: map<Edge, Side>, y: int)
    requires AllStand(rest, side, y) && rest != []
    ensures rest[0] in side && side[rest[0]].Valid() && side[rest[0]].Meets(y)
    ensures rest[0].bres.minorAxis == CrossX(side[rest[0]], y)
  {
    assert Stands(rest[0], side[rest[0]], y);
  }

  // ---------- the winding edges ----------

  /** The loop over winding edges: at the first that is not before edge i. */
  ghost predicate AtWinding(pWETE: Edge?, clockwise: map<Edge, bool>, act: seq<Edge>, i: nat) {
    && i <= |act| && Keyed(clockwise, act) && Keyed(clockwise, act[..i])
    && var ws, j := Crossings(clockwise, act), |Crossings(clockwise, act[..i])|;
       pWETE == if j < |ws| then ws[j] else null
  }

  /** Edge i is a crossing exactly if it is the winding edge next in turn. */
  lemma NextWinding(pWETE: Edge?, clockwise: map<Edge, bool>, act: seq<Edge>, i: nat)
    requires AtWinding(pWETE, clockwise, act, i) && i < |act| && Distinct(act)
    ensures Keyed(clockwise, act[..i + 1])
    ensures var c := Crossings(clockwise, act[..i]);
      Crossings(clockwise, act[..i + 1]) == c + if pWETE == act[i] then [act[i]] else []
    ensures |Crossings(clockwise, act[..i + 1])| <= |Crossings(clockwise, act)|
  {
    var ws, c := Crossings(clockwise, act), Crossings(clockwise, act[..i]);
    OneMoreEdge(clockwise, act[..i], act[i]);
    assert act[..i] + [act[i]] == act[..i + 1];
    CrossingsGrow(clockwise, act, i);
    CrossingsGrow(clockwise, act, i + 1);
    var d := Crossings(clockwise, act[..i + 1]);
    if d == c + [act[i]] {
      assert ws[|c|] == ws[..|d|][|c|] == d[|c|];
    } else {
      assert d == c;
      if |c| < |ws| {
        assert ws[|c|] in act[i + 1..];
        LaterEdge(act, i, ws[|c|]);
      }
    }
  }

  lemma LaterEdge(act: seq<Edge>, i: nat, e: Edge)
    requires Distinct(act) && i < |act| && e in act[i + 1..]
    ensures e != act[i]
  {
    var k :| 0 <= k < |act[i + 1..]| && act[i + 1..][k] == e;
    assert act[i + 1 + k] == e;
  }

  /** pWETE = pWETE->nextWETE. */
  lemma FollowWinding(head: Edge, pWETE: Edge, clockwise: map<Edge, bool>, act: seq<Edge>, i: nat)
    requires AtWinding(pWETE, clockwise, act, i) && i < |act| && Distinct(act) && pWETE == act[i]
    requires WindingChain([head] + Crossings(clockwise, act))
    ensures AtWinding(pWETE.nextWETE, clockwise, act, i + 1)
  {
    NextWinding(pWETE, clockwise, act, i);
    var ws, j := Crossings(clockwise, act), |Crossings(clockwise, act[..i])|;
    var chain := [head] + ws;
    assert chain[j + 1] == pWETE;
    assert chain[j + 1].nextWETE == if j + 2 < |chain| then chain[j + 2] else null;
  }

  lemma SkipWinding(pWETE: Edge?, clockwise: map<Edge, bool>, act: seq<Edge>, i: nat)
    requires AtWinding(pWETE, clockwise, act, i) && i < |act| && Distinct(act) && pWETE != act[i]
    ensures AtWinding(pWETE, clockwise, act, i + 1)
  {
    NextWinding(pWETE, clockwise, act, i);
  }

  /** The first active edge is a winding edge. */
  lemma FirstWinding(clockwise: map<Edge, bool>, act: seq<Edge>)
    requires Keyed(clockwise, act)
    ensures AtWinding(if act == [] then null else act[0], clockwise, act, 0)
  {
    assert act[..0] == [];
    if act != [] {
      assert act[..1][..0] == [] && act[..1] == [act[0]];
      CrossingsGrow(clockwise, act, 1);
      assert Crossings(clockwise, act[..1]) == [act[0]];
      assert Crossings(clockwise, act)[0] == Crossings(clockwise, act)[..1][0];
    }
  }

  lemma PointsSnoc(key: map<Edge, int>, es: seq<Edge>, e: Edge, y: int)
    requires Keyed(key, es) && e in key
    ensures Keyed(key, es + [e])
    ensures PointsOf(ValuesOf(key, es + [e]), y) == PointsOf(ValuesOf(key, es), y) + [Point(key[e], y)]
  {
  }

  /** The points of the crossings among the first i edges. */
  ghost predicate Emitted(pts: seq<Point>, pts0: seq<Point>, key: map<Edge, int>, clockwise: map<Edge, bool>, act: seq<Edge>, i: nat, y: int) {
    && i <= |act| && Keyed(clockwise, act[..i]) && Keyed(key, Crossings(clockwise, act[..i]))
    && pts == pts0 + PointsOf(ValuesOf(key, Crossings(clockwise, act[..i])), y)
  }

  lemma EmittedNext(pts: seq<Point>, pts0: seq<Point>, key: map<Edge, int>, clockwise: map<Edge, bool>, act: seq<Edge>, i: nat, y: int,
                    pWETE: Edge?)
    requires Emitted(pts, pts0, key, clockwise, act, i, y) && i < |act| && Distinct(act) && Keyed(key, act)
    requires AtWinding(pWETE, clockwise, act, i)
    ensures Emitted(if pWETE == act[i] then pts + [Point(key[act[i]], y)] else pts, pts0, key, clockwise, act, i + 1, y)
  {
    NextWinding(pWETE, clockwise, act, i);
    var c := Crossings(clockwise, act[..i]);
    if pWETE == act[i] {
      PointsSnoc(key, c, act[i], y);
    } else {
      assert c + [] == c;
    }
  }

  lemma KeepAll<E>(p: E -> bool, s: seq<E>)
    ensures |Keep(p, s)| <= |s| && (|Keep(p, s)| == |s| <==> Keep(p, s) == s)
  {
    if s != [] {
      KeepAll(p, s[..|s| - 1]);
      assert s == s[..|s| - 1] + [s[|s| - 1]];
    }
  }

  /** The inner loop of the winding number rule, at edge i. */
  ghost predicate AtWindingEdge(head: Edge, pPrevAET: Edge, pAET: Edge?, pWETE: Edge?, pts: seq<Point>, fixWAET: bool, chain: seq<Edge>,
                                pts0: seq<Point>, fix0: bool, act: seq<Edge>, i: nat, side: map<Edge, Side>, y: int, all: set<Edge>)
    reads all
  {
    && Distinct(act) && AtEdge(head, pPrevAET, pAET, act, i, side, y, all)
    && AtWinding(pWETE, Ways(act, side), act, i)
    && Within(chain, all) && WindingChain(chain)
    && Keyed(CrossKeys(act, side, y), act)
    && Emitted(pts, pts0, CrossKeys(act, side, y), Ways(act, side), act, i, y)
    && (fixWAET <==> fix0 || |Keep(Continues(side, y), act[..i])| < i)
  }

  /** One turn of the inner loop of the winding number rule. */
  method WindingEdge(head: Edge, pPrev: Edge, pEdge: Edge, pWinding: Edge?, y: int, pts1: seq<Point>, ghost act: seq<Edge>, ghost i: nat,
                     ghost side: map<Edge, Side>, ghost clockwise: map<Edge, bool>, ghost pts0: seq<Point>, ghost all: set<Edge>)
    returns (pPrevAET: Edge, pAET: Edge?, pWETE: Edge?, pts: seq<Point>, removed: bool)
    requires AtEdge(head, pPrev, pEdge, act, i, side, y, all) && Distinct(act)
    requires AtWinding(pWinding, clockwise, act, i) && WindingChain([head] + Crossings(clockwise, act))
    requires Keyed(CrossKeys(act, side, y), act) && Emitted(pts1, pts0, CrossKeys(act, side, y), clockwise, act, i, y)
    modifies all`next, all`back, all`bres
    ensures head.bres == old(head.bres)
    ensures AtEdge(head, pPrevAET, pAET, act, i + 1, side, y, all) && AtWinding(pWETE, clockwise, act, i + 1)
    ensures Emitted(pts, pts0, CrossKeys(act, side, y), clockwise, act, i + 1, y)
    ensures removed <==> !Continues(side, y)(act[i])
  {
    CurrentX(act[i..], side, y);
    EmittedNext(pts1, pts0, CrossKeys(act, side, y), clockwise, act, i, y, pWinding);
    pts, pWETE := pts1, pWinding;
    if pWETE == pEdge {
      pts := pts + [Point(pEdge.bres.minorAxis, y)];
      FollowWinding(head, pEdge, clockwise, act, i);
      pWETE := pEdge.nextWETE;
    } else {
      SkipWinding(pWETE, clockwise, act, i);
    }
    pPrevAET, pAET, removed := NextEdge(head, pPrev, pEdge, y, act, i, side, all);
  }

  /** fixWAET after one more edge. */
  lemma FixNext(fix0: bool, fix1: bool, removed: bool, p: Edge -> bool, act: seq<Edge>, i: nat)
    requires i < |act| && (removed <==> !p(act[i])) && (fix1 <==> fix0 || |Keep(p, act[..i])| < i)
    ensures fix1 || removed <==> fix0 || |Keep(p, act[..i + 1])| < i + 1
  {
    KeepOneMore(p, act, i);
    KeepAll(p, act[..i]);
  }

  method WindingTurn(head: Edge, pPrev: Edge, pEdge: Edge, pWinding: Edge?, y: int, pts1: seq<Point>, fix1: bool, ghost chain: seq<Edge>,
                     ghost act: seq<Edge>, ghost i: nat, ghost side: map<Edge, Side>, ghost pts0: seq<Point>, ghost fix0: bool, ghost all: set<Edge>)
    returns (pPrevAET: Edge, pAET: Edge?, pWETE: Edge?, pts: seq<Point>, fixWAET: bool)
    requires Keyed(Ways(act, side), act) && chain == [head] + Crossings(Ways(act, side), act)
    requires AtWindingEdge(head, pPrev, pEdge, pWinding, pts1, fix1, chain, pts0, fix0, act, i, side, y, all)
    modifies all`next, all`back, all`bres
    ensures head.bres == old(head.bres)
    ensures AtWindingEdge(head, pPrevAET, pAET, pWETE, pts, fixWAET, chain, pts0, fix0, act, i + 1, side, y, all)
  {
    var removed;
    pPrevAET, pAET, pWETE, pts, removed := WindingEdge(head, pPrev, pEdge, pWinding, y, pts1, act, i, side, Ways(act, side), pts0, all);
    fixWAET := fix1 || removed;
    FixNext(fix0, fix1, removed, Continues(side, y), act, i);
  }

  lemma WindingBegun(head: Edge, pts0: seq<Point>, fix0: bool, act: seq<Edge>, side: map<Edge, Side>, y: int, all: set<Edge>)
    requires head in all && Within(act, all) && Linked([head] + act) && AllStand(act, side, y)
    requires Keyed(Ways(act, side), act) && WindingChain([head] + Crossings(Ways(act, side), act))
    ensures AtWindingEdge(head, head, head.next, head.next, pts0, fix0, [head] + Crossings(Ways(act, side), act),
                          pts0, fix0, act, 0, side, y, all)
  {
    StandingKeys(act, side, y);
    Begun(head, act, side, y, all);
    FirstWinding(Ways(act, side), act);
    DistinctTail(head, act);
    assert act[..0] == [];
    assert forall e :: e in act ==> e in all;
    var chain := [head] + Crossings(Ways(act, side), act);
    assert forall k :: 0 < k < |chain| ==> chain[k] in Crossings(Ways(act, side), act);
  }

  lemma WindingEnded(head: Edge, pPrevAET: Edge, pWETE: Edge?, pts: seq<Point>, fixWAET: bool, chain: seq<Edge>,
                     pts0: seq<Point>, fix0: bool, act: seq<Edge>, side: map<Edge, Side>, y: int, all: set<Edge>)
    requires AtWindingEdge(head, pPrevAET, null, pWETE, pts, fixWAET, chain, pts0, fix0, act, |act|, side, y, all)
    ensures var kept := Keep(Continues(side, y), act);
      Linked([head] + kept) && AllStand(kept, side, y + 1) && (fixWAET <==> fix0 || kept != act)
    ensures Keyed(Ways(act, side), act)
    ensures var key, ws := CrossKeys(act, side, y), Crossings(Ways(act, side), act);
      Keyed(key, ws) && pts == pts0 + PointsOf(ValuesOf(key, ws), y)
  {
    assert act[..|act|] == act;
    KeepAll(Continues(side, y), act);
    Ended(head, pPrevAET, act, side, y, all);
  }

  /** The inner loop of the winding number rule: a point for every winding edge. */
  method EmitWinding(head: Edge, y: int, pts0: seq<Point>, fix0: bool, ghost act: seq<Edge>, ghost side: map<Edge, Side>, ghost all: set<Edge>)
    returns (pts: seq<Point>, fixWAET: bool)
    requires head in all && Within(act, all) && Linked([head] + act) && AllStand(act, side, y)
    requires Keyed(Ways(act, side), act) && WindingChain([head] + Crossings(Ways(act, side), act))
    modifies all`next, all`back, all`bres
    ensures head.bres == old(head.bres)
    ensures var kept := Keep(Continues(side, y), act);
      Linked([head] + kept) && AllStand(kept, side, y + 1) && (fixWAET <==> fix0 || kept != act)
    ensures var key, ws := CrossKeys(act, side, y), Crossings(Ways(act, side), act);
      Keyed(key, ws) && pts == pts0 + PointsOf(ValuesOf(key, ws), y)
  {
    ghost var chain := [head] + Crossings(Ways(act, side), act);
    WindingBegun(head, pts0, fix0, act, side, y, all);
    pts, fixWAET := pts0, fix0;
    var pPrevAET := head;
    var pAET := head.next;
    var pWETE := pAET;
    ghost var i: nat := 0;
    while pAET != null
      invariant AtWindingEdge(head, pPrevAET, pAET, pWETE, pts, fixWAET, chain, pts0, fix0, act, i, side, y, all)
      invariant head.bres == old(head.bres)
      decreases |act| - i
    {
      pPrevAET, pAET, pWETE, pts, fixWAET := WindingTurn(head, pPrevAET, pAET, pWETE, y, pts, fixWAET, chain, act, i, side, pts0, fix0, all);
      i := i + 1;
    }
    WindingEnded(head, pPrevAET, pWETE, pts, fixWAET, chain, pts0, fix0, act, side, y, all);
  }

  lemma DistinctTail(head: Edge, act: seq<Edge>)
    requires Distinct([head] + act)
    ensures Distinct(act) && head !in act
  {
    var t := [head] + act;
    forall i, j | 0 <= i < j < |act|
      ensures act[i] != act[j]
    {
      assert t[i + 1] == act[i] && t[j + 1] == act[j];
    }
    forall i | 0 <= i < |act|
      ensures act[i] != head
    {
      assert t[i + 1] == act[i] && t[0] == head;
    }
  }
}
