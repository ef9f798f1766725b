/** Stepping a polygon edge from scanline to scanline (libX11 poly.h). */
module Bresenham {
  import opened Arith

  /** BRESINFO: the x of the edge on the current scanline, the decision variable, the slope and its
      neighbour, and the increments of the decision variable. */
  datatype Bres = Bres(minorAxis: int, d: int, m: int, m1: int, incr1: int, incr2: int)

  /** C's division, which truncates toward zero. */
  function Quotient(n: int, d: int): int
    requires d > 0
  {
    if n >= 0 then n / d else -((-n) / d)
  }

  /** BRESINITPGON, for an edge that goes from x1 to x2 in dy scanlines. */
  function Init(dy: int, x1: int, x2: int): Bres
    requires dy > 0
  {
    var dx := x2 - x1;
    var m := Quotient(dx, dy);
    if dx < 0 then
      var m1 := m - 1;
      Bres(x1, 2 * (m * dy) - 2 * dx - 2 * dy, m, m1, -2 * dx + 2 * (dy * m1), -2 * dx + 2 * (dy * m))
    else
      var m1 := m + 1;
      Bres(x1, -2 * (m * dy) + 2 * dx, m, m1, 2 * dx - 2 * (dy * m1), 2 * dx - 2 * (dy * m))
  }

  /** BRESINCRPGON */
  function Incr(b: Bres): Bres {
    if b.m1 > 0 then
      if b.d > 0 then b.(minorAxis := b.minorAxis + b.m1, d := b.d + b.incr1)
      else b.(minorAxis := b.minorAxis + b.m, d := b.d + b.incr2)
    else
      if b.d >= 0 then b.(minorAxis := b.minorAxis + b.m1, d := b.d + b.incr1)
      else b.(minorAxis := b.minorAxis + b.m, d := b.d + b.incr2)
  }

  function Steps(b: Bres, k: nat): Bres { if k == 0 then b else Incr(Steps(b, k - 1)) }

  /** x is the first integer at or to the right of x1 + k * dx / dy, where the edge crosses scanline k. */
  predicate IsCrossing(x: int, dy: int, x1: int, x2: int, k: int) {
    0 <= dy * (x - x1) - k * (x2 - x1) < dy
  }

  lemma CrossingUnique(x: int, x': int, dy: int, x1: int, x2: int, k: int)
    requires dy > 0 && IsCrossing(x, dy, x1, x2, k) && IsCrossing(x', dy, x1, x2, k)
    ensures x == x'
  {
    assert -dy < dy * (x - x1) - dy * (x' - x1) < dy;
    assert dy * (x - x1) - dy * (x' - x1) == (x - x') * dy;
    SmallMultiple(x - x', dy);
  }

  predicate SameSlopes(b: Bres, i: Bres) { b.m == i.m && b.m1 == i.m1 && b.incr1 == i.incr1 && b.incr2 == i.incr2 }

  /** p is dy times the way drawn so far, q the exact one, and r the slope: the decision variable is the
      distance from the exact crossing of the next scanline. */
  predicate Balance(dy: int, dx: int, p: int, q: int, r: int, d: int) {
    && 0 <= p - q < dy
    && d == if dx < 0 then 2 * (p - (q + dx)) + 2 * r - 2 * dy else -2 * (p - (q + dx)) - 2 * r
  }

  /** What the increments keep. */
  ghost predicate Tracks(b: Bres, dy: int, x1: int, x2: int, k: int)
    requires dy > 0
  {
    && SameSlopes(b, Init(dy, x1, x2)) && IsCrossing(b.minorAxis, dy, x1, x2, k)
    && Balance(dy, x2 - x1, dy * (b.minorAxis - x1), k * (x2 - x1), dy * b.m, b.d)
  }

  /** The slope is the quotient, and the edge is within one of it on each scanline. */
  lemma SlopeBounds(dy: int, x1: int, x2: int)
    requires dy > 0
    ensures var dx, m := x2 - x1, Init(dy, x1, x2).m;
      && (dx >= 0 ==> dy * m <= dx < dy * m + dy && Init(dy, x1, x2).m1 == m + 1 > 0)
      && (dx < 0 ==> dy * m - dy < dx <= dy * m && Init(dy, x1, x2).m1 == m - 1 < 0)
  {
    var dx, m := x2 - x1, Init(dy, x1, x2).m;
    if dx >= 0 {
      assert dx == dy * (dx / dy) + dx % dy;
      if m < 0 { MulMonotonic(m, -1, dy); }
    } else {
      assert -dx == dy * ((-dx) / dy) + (-dx) % dy;
      assert dy * m == -(dy * ((-dx) / dy));
      if m > 0 { MulMonotonic(1, m, dy); }
    }
  }

  lemma InitTracks(dy: int, x1: int, x2: int)
    requires dy > 0
    ensures Tracks(Init(dy, x1, x2), dy, x1, x2, 0)
  {
    var b := Init(dy, x1, x2);
    assert dy * (b.minorAxis - x1) == 0;
    assert b.m * dy == dy * b.m;
  }

  /** The increments, in terms of dy times the slope. */
  lemma Increments(dy: int, x1: int, x2: int)
    requires dy > 0
    ensures var dx, i := x2 - x1, Init(dy, x1, x2);
      && i.incr1 == (if dx < 0 then -2 * dx + 2 * (dy * i.m - dy) else 2 * dx - 2 * (dy * i.m + dy))
      && i.incr2 == (if dx < 0 then -2 * dx + 2 * (dy * i.m) else 2 * dx - 2 * (dy * i.m))
  {
    var m := Init(dy, x1, x2).m;
    MulDistributes(m, 1, dy);
    assert (m + 1) * dy == dy * (m + 1) && (m - 1) * dy == dy * (m - 1) && m * dy == dy * m;
  }

  /** The way drawn after a step by the slope or its neighbour. */
  lemma StepProduct(dy: int, w: int, m: int, j: int)
    requires j in {-1, 0, 1}
    ensures dy * (w + (m + j)) == dy * w + dy * m + j * dy
  {
    MulDistributes(w, m + j, dy);
    MulDistributes(m, j, dy);
  }

  lemma BalanceKept(dy: int, dx: int, p: int, q: int, r: int, d: int, p': int, d': int)
    requires Balance(dy, dx, p, q, r, d) && if dx < 0 then r - dy < dx <= r else r <= dx < r + dy
    requires if dx < 0 then
        if d >= 0 then p' == p + r - dy && d' == d + (-2 * dx + 2 * (r - dy)) else p' == p + r && d' == d + (-2 * dx + 2 * r)
      else
        if d > 0 then p' == p + r + dy && d' == d + (2 * dx - 2 * (r + dy)) else p' == p + r && d' == d + (2 * dx - 2 * r)
    ensures Balance(dy, dx, p', q + dx, r, d')
  {
  }

  lemma IncrTracks(b: Bres, dy: int, x1: int, x2: int, k: int)
    requires dy > 0 && Tracks(b, dy, x1, x2, k)
    ensures Tracks(Incr(b), dy, x1, x2, k + 1)
  {
    SlopeBounds(dy, x1, x2);
    Increments(dy, x1, x2);
    IncrBalance(b, dy, x1, x2, k, Init(dy, x1, x2).m1);
  }

  lemma IncrBalance(b: Bres, dy: int, x1: int, x2: int, k: int, m1: int)
    requires dy > 0 && Tracks(b, dy, x1, x2, k) && b.m1 == m1
    requires var dx, r := x2 - x1, dy * b.m;
      if dx < 0 then r - dy < dx <= r && m1 == b.m - 1 < 0 && b.incr1 == -2 * dx + 2 * (r - dy) && b.incr2 == -2 * dx + 2 * r
      else r <= dx < r + dy && m1 == b.m + 1 > 0 && b.incr1 == 2 * dx - 2 * (r + dy) && b.incr2 == 2 * dx - 2 * r
    ensures Tracks(Incr(b), dy, x1, x2, k + 1)
  {
    var dx, w, r := x2 - x1, b.minorAxis - x1, dy * b.m;
    var w' := Incr(b).minorAxis - x1;
    var p, q := dy * w, k * dx;
    StepProduct(dy, w, b.m, w' - w - b.m);
    MulDistributes(k, 1, dx);
    BalanceKept(dy, dx, p, q, r, b.d, dy * w', Incr(b).d);
  }

  /** After k steps the edge is at its crossing of scanline k, exactly. */
  lemma {:induction false} StepsCross(dy: int, x1: int, x2: int, k: nat)
    requires dy > 0
    ensures Tracks(Steps(Init(dy, x1, x2), k), dy, x1, x2, k)
  {
    if k == 0 {
      InitTracks(dy, x1, x2);
    } else {
      StepsCross(dy, x1, x2, k - 1);
      IncrTracks(Steps(Init(dy, x1, x2), k - 1), dy, x1, x2, k - 1);
    }
  }

  /** So on its last scanline it reaches the other end. */
  lemma EndsAtOtherEnd(dy: int, x1: int, x2: int)
    requires dy > 0
    ensures Steps(Init(dy, x1, x2), dy).minorAxis == x2
  {
    StepsCross(dy, x1, x2, dy);
    CrossingUnique(Steps(Init(dy, x1, x2), dy).minorAxis, x2, dy, x1, x2, dy);
  }
}
