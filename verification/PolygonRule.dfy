/** Which points a polygon contains, and how sorted crossings delimit them (libX11 PolyReg.c). */
module PolygonRule {
  import opened Arith
  import opened Bresenham
  import opened Tally

  datatype Point = Point(x: int, y: int)

  /** A side that is not horizontal, from its upper end down. */
  datatype Side = Side(top: Point, bottom: Point, clockwise: bool)
  {
    ghost predicate Valid() { top.y < bottom.y }

    /** The side meets scanline y, its lowest point excluded. */
    predicate Meets(y: int) { top.y <= y < bottom.y }

    /** The side crosses scanline py at px or to the left of it. */
    predicate LeftOf(px: int, py: int) {
      Meets(py) && (bottom.y - top.y) * (px - top.x) >= (py - top.y) * (bottom.x - top.x)
    }
  }

  datatype Rule = EvenOdd | WindingNumber

  /** What a side adds to the number of sides left of a point. */
  function Crossed(px: int, py: int): Side -> int { (s: Side) => if s.LeftOf(px, py) then 1 else 0 }

  /** What it adds to the winding number there. */
  function Turned(px: int, py: int): Side -> int { (s: Side) => if !s.LeftOf(px, py) then 0 else if s.clockwise then 1 else -1 }

  /** What it adds to the winding number at the right end of scanline y. */
  function Turning(y: int): Side -> int { (s: Side) => if !s.Meets(y) then 0 else if s.clockwise then 1 else -1 }

  /** The point is inside the polygon, by the rule. */
  predicate Inside(rule: Rule, sides: seq<Side>, px: int, py: int) {
    if rule == EvenOdd then Sum(Crossed(px, py), sides) % 2 == 1 else Sum(Turned(px, py), sides) != 0
  }

  // ---------- closed polygons ----------

  /** The point before point i of a closed polygon. */
  function Before(pts: seq<Point>, i: nat): Point
    requires i < |pts|
  {
    if i == 0 then pts[|pts| - 1] else pts[i - 1]
  }

  /** The side from one point to the next, unless it is horizontal. */
  function SideOf(prev: Point, curr: Point): seq<Side> {
    if prev.y == curr.y then []
    else if prev.y > curr.y then [Side(curr, prev, false)]
    else [Side(prev, curr, true)]
  }

  /** The sides that end in the first n points. */
  function Sides(pts: seq<Point>, n: nat): seq<Side>
    requires n <= |pts|
  {
    if n == 0 then [] else Sides(pts, n - 1) + SideOf(Before(pts, n - 1), pts[n - 1])
  }

  lemma {:induction false} SidesValid(pts: seq<Point>, n: nat)
    requires n <= |pts|
    ensures forall s :: s in Sides(pts, n) ==> s.Valid()
  {
    if n > 0 { SidesValid(pts, n - 1); }
  }

  function Above(p: Point, y: int): int { if p.y <= y then 1 else 0 }

  lemma SideTurning(prev: Point, curr: Point, y: int)
    ensures Sum(Turning(y), SideOf(prev, curr)) == Above(prev, y) - Above(curr, y)
  {
    var s := SideOf(prev, curr);
    if s != [] { assert s[..0] == []; }
  }

  lemma {:induction false} TurningsSoFar(pts: seq<Point>, n: nat, y: int)
    requires 0 < n <= |pts|
    ensures Sum(Turning(y), Sides(pts, n)) == Above(pts[|pts| - 1], y) - Above(pts[n - 1], y)
  {
    SumJoin(Turning(y), Sides(pts, n - 1), SideOf(Before(pts, n - 1), pts[n - 1]));
    SideTurning(Before(pts, n - 1), pts[n - 1], y);
    if n > 1 { TurningsSoFar(pts, n - 1, y); }
  }

  /** On every scanline a closed polygon goes down as often as up. */
  lemma Balanced(pts: seq<Point>, y: int)
    ensures Sum(Turning(y), Sides(pts, |pts|)) == 0
  {
    if pts != [] { TurningsSoFar(pts, |pts|, y); }
  }

  // ---------- crossings ----------

  /** The x at which a side is drawn on scanline y. */
  function CrossX(s: Side, y: int): int
    requires s.Valid() && s.Meets(y)
  {
    Steps(Init(s.bottom.y - s.top.y, s.top.x, s.bottom.x), y - s.top.y).minorAxis
  }

  /** The drawn x is at or left of px exactly if the crossing is. */
  lemma CrossingLeft(x: int, px: int, dy: int, x1: int, x2: int, k: int)
    requires dy > 0 && IsCrossing(x, dy, x1, x2, k)
    ensures x <= px <==> dy * (px - x1) >= k * (x2 - x1)
  {
    if x <= px {
      MulMonotonic(x - x1, px - x1, dy);
    } else {
      MulMonotonic(px - x1, x - x1 - 1, dy);
      MulDistributes(x - x1, 1, dy);
    }
  }

  lemma DrawnLeft(s: Side, px: int, y: int)
    requires s.Valid() && s.Meets(y)
    ensures CrossX(s, y) <= px <==> s.LeftOf(px, y)
  {
    StepsCross(s.bottom.y - s.top.y, s.top.x, s.bottom.x, y - s.top.y);
    CrossingLeft(CrossX(s, y), px, s.bottom.y - s.top.y, s.top.x, s.bottom.x, y - s.top.y);
  }

  lemma BelowBoth(dy: int, dx: int, k: int, a: int)
    requires 0 <= k < dy && a < 0 && a < dx
    ensures dy * a < k * dx
  {
    if dx >= 0 {
      MulMonotonic(0, k, dx);
      MulMonotonic(a, -1, dy);
    } else {
      MulMonotonic(a, dx - 1, dy);
      MulDistributes(dx, 1, dy);
      MulMonotonic(k, dy, -dx);
      assert k * -dx == -(k * dx) && dy * -dx == -(dy * dx);
    }
  }

  /** A side is drawn between its ends. */
  lemma DrawnBetween(s: Side, y: int, lo: int)
    requires s.Valid() && s.Meets(y) && lo <= s.top.x && lo <= s.bottom.x
    ensures lo <= CrossX(s, y)
  {
    DrawnLeft(s, lo - 1, y);
    BelowBoth(s.bottom.y - s.top.y, s.bottom.x - s.top.x, y - s.top.y, lo - 1 - s.top.x);
  }

  lemma AboveBoth(dy: int, dx: int, k: int, a: int)
    requires 0 <= k < dy && a >= 0 && a >= dx
    ensures dy * a >= k * dx
  {
    if dx >= 0 {
      MulMonotonic(k, dy, a);
      MulMonotonic(dx, a, k);
    } else {
      MulMonotonic(0, k, -dx);
      assert k * -dx == -(k * dx);
      MulMonotonic(0, a, dy);
    }
  }

  lemma DrawnBefore(s: Side, y: int, hi: int)
    requires s.Valid() && s.Meets(y) && s.top.x <= hi && s.bottom.x <= hi
    ensures CrossX(s, y) <= hi
  {
    DrawnLeft(s, hi, y);
    AboveBoth(s.bottom.y - s.top.y, s.bottom.x - s.top.x, y - s.top.y, hi - s.top.x);
  }

  // ---------- spans ----------

  predicate Ascending(xs: seq<int>) { forall i, j :: 0 <= i < j < |xs| ==> xs[i] <= xs[j] }

  /** How many are not greater than px. */
  function UpTo(xs: seq<int>, px: int): (n: nat)
    ensures n <= |xs|
  {
    if xs == [] then 0 else UpTo(xs[..|xs| - 1], px) + if xs[|xs| - 1] <= px then 1 else 0
  }

  /** px lies in one of the spans from an even-numbered element to the next. */
  ghost predicate InSpan(xs: seq<int>, px: int) { exists k: nat :: IsSpan(xs, px, k) }

  predicate IsSpan(xs: seq<int>, px: int, k: nat) { 2 * k + 1 < |xs| && xs[2 * k] <= px < xs[2 * k + 1] }

  lemma {:induction false} UpToIsPrefix(xs: seq<int>, px: int)
    requires Ascending(xs)
    ensures forall i :: 0 <= i < |xs| ==> (xs[i] <= px <==> i < UpTo(xs, px))
  {
    if xs != [] {
      var ys := xs[..|xs| - 1];
      UpToIsPrefix(ys, px);
      var n, last := UpTo(ys, px), xs[|xs| - 1];
      assert n < |ys| ==> px < ys[n] == xs[n] <= last;
      forall i | 0 <= i < |xs|
        ensures xs[i] <= px <==> i < UpTo(xs, px)
      {
        if i < |ys| { assert xs[i] == ys[i]; }
      }
    }
  }

  lemma {:induction false} UpToIs(xs: seq<int>, px: int, n: nat)
    requires n <= |xs| && forall i :: 0 <= i < |xs| ==> (xs[i] <= px <==> i < n)
    ensures UpTo(xs, px) == n
  {
    if xs != [] {
      var last := xs[|xs| - 1];
      UpToIs(xs[..|xs| - 1], px, if last <= px then n - 1 else n);
    }
  }

  /** A point is in a span of sorted crossings exactly if an odd number of them is at or left of it. */
  lemma SpanIffOdd(xs: seq<int>, px: int)
    requires Ascending(xs) && |xs| % 2 == 0
    ensures InSpan(xs, px) <==> UpTo(xs, px) % 2 == 1
  {
    UpToIsPrefix(xs, px);
    var n := UpTo(xs, px);
    if n % 2 == 1 {
      var k: nat := n / 2;
      assert IsSpan(xs, px, k);
    }
    if InSpan(xs, px) {
      var k: nat :| IsSpan(xs, px, k);
      assert 2 * k < n && !(2 * k + 1 < n);
    }
  }
}
