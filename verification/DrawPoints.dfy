/** XDrawPoints: splitting a point list over several requests (libX11 DrPoints.c). */
module DrawPoints {
  import opened Arith

  datatype Point = Point(x: int, y: int)

  datatype CoordMode = CoordModeOrigin | CoordModePrevious

  const HEADER_WORDS := 3      // the PolyPoint request without points

  /** A coordinate on the drawable, modulo 16 bits. */
  function Wrap(v: int): int { v % 0x1_0000 }

  /** Storing an int in a short. */
  function Short(v: int): int { if Wrap(v) < 0x8000 then Wrap(v) else Wrap(v) - 0x1_0000 }

  predicate InShort(v: int) { -0x8000 <= v < 0x8000 }

  /** What is stored fits, and differs by whole turns only; a value that fits is not changed. */
  lemma ShortIs(v: int)
    ensures InShort(Short(v)) && (v - Short(v)) % 0x1_0000 == 0 && (InShort(v) ==> Short(v) == v)
  {
    SameMod(v - Short(v), if Wrap(v) < 0x8000 then 0 else 0x1_0000, v / 0x1_0000, 0x1_0000);
  }

  function Sum(points: seq<Point>): Point {
    if points == [] then Point(0, 0)
    else
      var s := Sum(points[..|points| - 1]);
      Point(s.x + points[|points| - 1].x, s.y + points[|points| - 1].y)
  }

  /** Where point k of a request is drawn: as given, or relative to the point before it.
      (PolyPoint, section 9 of the X Window System Protocol.) */
  function Position(mode: CoordMode, points: seq<Point>, k: nat): Point
    requires k < |points|
  {
    var p := if mode.CoordModeOrigin? then points[k] else Sum(points[..k + 1]);
    Point(Wrap(p.x), Wrap(p.y))
  }

  /** The positions drawn by one request. */
  function Positions(mode: CoordMode, points: seq<Point>): seq<Point> {
    seq(|points|, k requires 0 <= k < |points| => Position(mode, points, k))
  }

  /** The positions drawn by a list of requests. */
  function AllPositions(mode: CoordMode, requests: seq<seq<Point>>): seq<Point> {
    if requests == [] then []
    else AllPositions(mode, requests[..|requests| - 1]) + Positions(mode, requests[|requests| - 1])
  }

  lemma {:induction false} SumConcat(a: seq<Point>, b: seq<Point>)
    ensures Sum(a + b) == Point(Sum(a).x + Sum(b).x, Sum(a).y + Sum(b).y)
  {
    if b == [] {
      assert a + b == a;
    } else {
      var init := b[..|b| - 1];
      SumConcat(a, init);
      assert (a + b)[..|a + b| - 1] == a + init;
    }
  }

  lemma ShortAdd(v: int, w: int)
    ensures Wrap(Short(v) + w) == Wrap(v + w)
  {
    var t := v / 0x1_0000;
    assert v == t * 0x1_0000 + Wrap(v);
    if Wrap(v) < 0x8000 {
      SameMod(v + w, Short(v) + w, t, 0x1_0000);
    } else {
      SameMod(v + w, Short(v) + w, t + 1, 0x1_0000);
    }
  }

  /** The request for points from..from + n: the first point moved by the offset carried over. */
  function Chunk(points: seq<Point>, from: nat, n: nat, off: Point): seq<Point>
    requires n > 0 && from + n <= |points|
  {
    [if off.x != 0 || off.y != 0 then Point(Short(off.x + points[from].x), Short(off.y + points[from].y)) else points[from]]
    + points[from + 1..from + n]
  }

  /** A chunk that starts with the sum of all earlier points draws where the whole list would. */
  lemma ChunkPosition(mode: CoordMode, points: seq<Point>, from: nat, n: nat, off: Point, k: nat)
    requires n > 0 && from + n <= |points| && k < n
    requires off == if mode.CoordModePrevious? then Sum(points[..from]) else Point(0, 0)
    ensures Position(mode, Chunk(points, from, n, off), k) == Position(mode, points, from + k)
  {
    if mode.CoordModePrevious? {
      var rest := points[from + 1..from + k + 1];
      SumOfChunk(Chunk(points, from, n, off)[0], Chunk(points, from, n, off), rest, k);
      SumSplit(points, from, k);
      ShortAdd(off.x + points[from].x, Sum(rest).x);
      ShortAdd(off.y + points[from].y, Sum(rest).y);
    }
  }

  /** The sum up to point k of a request. */
  lemma SumOfChunk(first: Point, c: seq<Point>, rest: seq<Point>, k: nat)
    requires k < |c| && c[..k + 1] == [first] + rest
    ensures Sum(c[..k + 1]) == Point(first.x + Sum(rest).x, first.y + Sum(rest).y)
  {
    SumConcat([first], rest);
    SumOne(first);
  }

  /** The sum up to point from + k of the whole list. */
  lemma SumSplit(points: seq<Point>, from: nat, k: nat)
    requires from + k < |points|
    ensures Sum(points[..from + k + 1]) ==
            Point(Sum(points[..from]).x + points[from].x + Sum(points[from + 1..from + k + 1]).x,
                  Sum(points[..from]).y + points[from].y + Sum(points[from + 1..from + k + 1]).y)
  {
    var rest := points[from + 1..from + k + 1];
    assert points[..from + k + 1] == points[..from] + ([points[from]] + rest);
    SumConcat(points[..from], [points[from]] + rest);
    SumConcat([points[from]], rest);
    SumOne(points[from]);
  }

  lemma SumOne(p: Point)
    ensures Sum([p]) == p
  {
    assert [p][..0] == [];
    assert Sum([p]) == Point(Sum([]).x + p.x, Sum([]).y + p.y);
  }

  lemma PositionsGrow(mode: CoordMode, points: seq<Point>, from: nat, n: nat, off: Point, requests: seq<seq<Point>>)
    requires n > 0 && from + n <= |points|
    requires off == if mode.CoordModePrevious? then Sum(points[..from]) else Point(0, 0)
    requires AllPositions(mode, requests) == Positions(mode, points)[..from]
    ensures AllPositions(mode, requests + [Chunk(points, from, n, off)]) == Positions(mode, points)[..from + n]
  {
    var c := Chunk(points, from, n, off);
    var all := Positions(mode, points);
    assert (requests + [c])[..|requests|] == requests;
    forall k | 0 <= k < n
      ensures Positions(mode, c)[k] == all[from + k]
    {
      ChunkPosition(mode, points, from, n, off, k);
    }
    assert all[..from + n] == all[..from] + Positions(mode, c);
  }

  /** The words of a request for n points. A request that is too long for its length field gets one word more, in the
      big requests extension; its limit is then bigreqSize words (0 without the extension). */
  function RequestWords(n: nat, bigreqSize: nat): nat {
    HEADER_WORDS + n + if bigreqSize != 0 && HEADER_WORDS + n > 65535 then 1 else 0
  }

  /** All requests are within the limit of the server. */
  ghost predicate WithinLimit(requests: seq<seq<Point>>, maxRequest: nat, bigreqSize: nat) {
    forall r :: 0 <= r < |requests| ==> RequestWords(|requests[r]|, bigreqSize) <= if bigreqSize != 0 then bigreqSize else maxRequest
  }

  /** Every coordinate sent fits into a short, if every one given does. */
  ghost predicate InShorts(points: seq<Point>) {
    forall k :: 0 <= k < |points| ==> InShort(points[k].x) && InShort(points[k].y)
  }

  /** The offset that the request from point `from` on starts with. */
  function Carried(mode: CoordMode, points: seq<Point>, from: nat): Point
    requires from <= |points|
  {
    if mode.CoordModePrevious? then Sum(points[..from]) else Point(0, 0)
  }

  /** Every request has a point, and without big requests it is within the limit. */
  ghost predicate Filled(requests: seq<seq<Point>>, maxRequest: nat, bigreqSize: nat) {
    forall r :: 0 <= r < |requests| ==>
      requests[r] != [] && (bigreqSize != 0 || HEADER_WORDS + |requests[r]| <= maxRequest)
  }

  ghost predicate AllInShorts(requests: seq<seq<Point>>) { forall r :: 0 <= r < |requests| ==> InShorts(requests[r]) }

  lemma ChunkInShorts(points: seq<Point>, from: nat, n: nat, off: Point)
    requires n > 0 && from + n <= |points| && InShorts(points)
    ensures InShorts(Chunk(points, from, n, off))
  {
    ShortIs(off.x + points[from].x);
    ShortIs(off.y + points[from].y);
    var c := Chunk(points, from, n, off);
    forall k | 0 <= k < |c|
      ensures InShort(c[k].x) && InShort(c[k].y)
    {
      if k > 0 { assert c[k] == points[from + k]; }
    }
  }

  /** The requests sent so far draw the first `from` points; they are one if everything fits in one. */
  ghost predicate Drawn(mode: CoordMode, points: seq<Point>, requests: seq<seq<Point>>, from: nat, maxRequest: nat, bigreqSize: nat)
    requires from <= |points|
  {
    && AllPositions(mode, requests) == Positions(mode, points)[..from]
    && Filled(requests, maxRequest, bigreqSize) && (InShorts(points) ==> AllInShorts(requests))
    && (bigreqSize != 0 || HEADER_WORDS + |points| <= maxRequest ==>
          (from == 0 && requests == []) || (from == |points| && requests == [points]))
  }

  lemma NothingDrawn(mode: CoordMode, points: seq<Point>, maxRequest: nat, bigreqSize: nat)
    ensures Drawn(mode, points, [], 0, maxRequest, bigreqSize)
    ensures Carried(mode, points, 0) == Point(0, 0)
  {
    assert Positions(mode, points)[..0] == [];
    assert points[..0] == [];
  }

  /** One more request. */
  lemma DrawnNext(mode: CoordMode, points: seq<Point>, requests: seq<seq<Point>>, from: nat, n: nat,
                  maxRequest: nat, bigreqSize: nat)
    requires n > 0 && from + n <= |points| && Drawn(mode, points, requests, from, maxRequest, bigreqSize)
    requires bigreqSize == 0 ==> HEADER_WORDS + n <= maxRequest
    requires bigreqSize != 0 || HEADER_WORDS + |points| <= maxRequest ==> from + n == |points|
    ensures Drawn(mode, points, requests + [Chunk(points, from, n, Carried(mode, points, from))], from + n, maxRequest, bigreqSize)
  {
    PositionsGrow(mode, points, from, n, Carried(mode, points, from), requests);
    if InShorts(points) { ChunkInShorts(points, from, n, Carried(mode, points, from)); }
    if from == 0 && n == |points| {
      assert points[..0] == [];
      assert [points[0]] + points[1..0 + n] == points;
    }
  }

  /** All points are drawn. */
  lemma AllDrawn(mode: CoordMode, points: seq<Point>, requests: seq<seq<Point>>, maxRequest: nat, bigreqSize: nat)
    requires Drawn(mode, points, requests, |points|, maxRequest, bigreqSize)
    ensures AllPositions(mode, requests) == Positions(mode, points)
    ensures WithinLimit(requests, maxRequest, bigreqSize) <==>
              bigreqSize == 0 || points == [] || RequestWords(|points|, bigreqSize) <= bigreqSize
  {
    assert Positions(mode, points)[..|points|] == Positions(mode, points);
    if bigreqSize != 0 && points != [] {
      assert requests == [points] && requests[0] == points;
    }
  }

  /** One request: the points are copied, and the offset is added to the first of them. */
  method MakeRequest(points: seq<Point>, from: nat, n: nat, xoff: int, yoff: int) returns (request: seq<Point>)
    requires n > 0 && from + n <= |points|
    ensures request == Chunk(points, from, n, Point(xoff, yoff))
  {
    if xoff != 0 || yoff != 0 {
      request := [Point(Short(xoff + points[from].x), Short(yoff + points[from].y))];
      if n > 1 {
        request := request + points[from + 1..from + n];
      }
    } else {
      request := points[from..from + n];
    }
  }

  /** The loop that adds the points sent to the offset. */
  method AddOffset(points: seq<Point>, from: nat, end: nat, xoff: int, yoff: int) returns (x: int, y: int)
    requires from <= end <= |points| && Point(xoff, yoff) == Sum(points[..from])
    ensures Point(x, y) == Sum(points[..end])
  {
    x, y := xoff, yoff;
    var pptr := from;
    while pptr != end
      invariant pptr <= end && Point(x, y) == Sum(points[..pptr])
      decreases end - pptr
    {
      assert points[..pptr + 1][..pptr] == points[..pptr];
      x, y := x + points[pptr].x, y + points[pptr].y;
      pptr := pptr + 1;
    }
  }

  /** XDrawPoints: the point lists of the requests sent. Without big requests a request may hold maxRequest words; with
      no room for a point in it the loop would never end. With big requests the list is sent at once, however long it
      is: it is within the limit just if it fits as a whole. */
  method XDrawPoints(points: seq<Point>, mode: CoordMode, maxRequest: nat, bigreqSize: nat)
      returns (requests: seq<seq<Point>>)
    requires points == [] || bigreqSize != 0 || maxRequest > HEADER_WORDS
    ensures AllPositions(mode, requests) == Positions(mode, points)
    ensures forall r :: 0 <= r < |requests| ==> requests[r] != []
    ensures (forall k :: 0 <= k < |points| ==> InShort(points[k].x) && InShort(points[k].y)) ==>
              forall r, k :: 0 <= r < |requests| && 0 <= k < |requests[r]| ==> InShort(requests[r][k].x) && InShort(requests[r][k].y)
    ensures WithinLimit(requests, maxRequest, bigreqSize) <==>
              bigreqSize == 0 || points == [] || |points| + (if |points| > 65532 then 4 else 3) <= bigreqSize
    ensures bigreqSize != 0 || HEADER_WORDS + |points| <= maxRequest ==> requests == if points == [] then [] else [points]
  {
    requests := [];
    var xoff, yoff := 0, 0;
    var from: nat, nPoints: nat := 0, |points|;
    NothingDrawn(mode, points, maxRequest, bigreqSize);
    while nPoints != 0
      invariant from + nPoints == |points| && Drawn(mode, points, requests, from, maxRequest, bigreqSize)
      invariant nPoints != 0 ==> Point(xoff, yoff) == Carried(mode, points, from)
      decreases nPoints
    {
      var n: int := nPoints;
      if bigreqSize == 0 && n > maxRequest - HEADER_WORDS {
        n := maxRequest - HEADER_WORDS;
      }
      DrawnNext(mode, points, requests, from, n, maxRequest, bigreqSize);
      var request := MakeRequest(points, from, n, xoff, yoff);
      requests := requests + [request];
      nPoints := nPoints - n;
      if nPoints != 0 && mode.CoordModePrevious? {
        xoff, yoff := AddOffset(points, from, from + n, xoff, yoff);
      }
      from := from + n;
    }
    AllDrawn(mode, points, requests, maxRequest, bigreqSize);
  }

  /** A list of 70000 points, where big requests may have 65536 words: one request that is over the limit. */
  method OverLimit(points: seq<Point>, mode: CoordMode) returns (requests: seq<seq<Point>>)
    requires |points| == 70000
    ensures requests == [points] && !WithinLimit(requests, 65535, 65536)
  {
    requests := XDrawPoints(points, mode, 65535, 65536);
  }
}
