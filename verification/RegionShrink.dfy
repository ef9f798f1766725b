/** Compress and XShrinkRegion: erosion and dilation by doubling (libX11 Region.c). */
module RegionShrink {
  import opened Arith
  import opened Boxes
  import opened Region
  import opened Sweep
  import opened RegionApi

  /** The point m steps from (x, y) along the chosen direction is in R. */
  ghost predicate At(R: seq<Box>, xdir: bool, x: int, y: int, m: int) {
    if xdir then In(R, x + m, y) else In(R, x, y + m)
  }

  /** Some (grow) or every (shrink) one of the len points from (x, y) on is in R. */
  ghost predicate Run(R: seq<Box>, xdir: bool, grow: bool, len: nat, x: int, y: int) {
    if grow then exists m :: 0 <= m < len && At(R, xdir, x, y, m)
    else forall m :: 0 <= m < len ==> At(R, xdir, x, y, m)
  }

  /** S holds exactly the heads of the runs of length len of R. */
  ghost predicate Heads(S: seq<Box>, R: seq<Box>, xdir: bool, grow: bool, len: nat) {
    forall x, y :: In(S, x, y) <==> Run(R, xdir, grow, len, x, y)
  }

  function StepX(xdir: bool, m: int): int { if xdir then m else 0 }

  function StepY(xdir: bool, m: int): int { if xdir then 0 else m }

  /** A run of length k + l is a run of length k followed by one of length l. */
  lemma RunSplit(R: seq<Box>, xdir: bool, grow: bool, k: nat, l: nat, x: int, y: int)
    ensures Run(R, xdir, grow, k + l, x, y) <==>
      if grow then Run(R, xdir, grow, k, x, y) || Run(R, xdir, grow, l, x + StepX(xdir, k), y + StepY(xdir, k))
      else Run(R, xdir, grow, k, x, y) && Run(R, xdir, grow, l, x + StepX(xdir, k), y + StepY(xdir, k))
  {
    var x', y' := x + StepX(xdir, k), y + StepY(xdir, k);
    forall m
      ensures At(R, xdir, x', y', m) <==> At(R, xdir, x, y, k + m)
    {
      if xdir { assert x' + m == x + (k + m); } else { assert y' + m == y + (k + m); }
    }
    if grow {
      if Run(R, xdir, grow, k + l, x, y) {
        var m :| 0 <= m < k + l && At(R, xdir, x, y, m);
        if m >= k { assert At(R, xdir, x', y', m - k); }
      }
      if Run(R, xdir, grow, l, x', y') {
        var m :| 0 <= m < l && At(R, xdir, x', y', m);
        assert At(R, xdir, x, y, k + m);
      }
    } else {
      if Run(R, xdir, grow, k, x, y) && Run(R, xdir, grow, l, x', y') {
        forall m | 0 <= m < k + l
          ensures At(R, xdir, x, y, m)
        {
          if m >= k { assert At(R, xdir, x', y', m - k); }
        }
      }
      if Run(R, xdir, grow, k + l, x, y) {
        forall m | 0 <= m < l
          ensures At(R, xdir, x', y', m)
        {
          assert At(R, xdir, x, y, k + m);
        }
      }
    }
  }

  /** ZOpRegion(a, b, dst) after a was shifted back by k: heads of runs of length k + l. */
  lemma HeadsJoin(R: seq<Box>, xdir: bool, grow: bool, k: int, l: nat, S: seq<Box>, L: seq<Box>, L': seq<Box>, N: seq<Box>)
    requires k >= 0 && Heads(S, R, xdir, grow, k) && Heads(L, R, xdir, grow, l)
    requires Shifted(L, L', -StepX(xdir, k), -StepY(xdir, k))
    requires Combined(if grow then Union else Intersect, L', S, N)
    ensures Heads(N, R, xdir, grow, k + l)
  {
    forall x, y
      ensures In(N, x, y) <==> Run(R, xdir, grow, k + l, x, y)
    {
      RunSplit(R, xdir, grow, k, l, x, y);
      assert In(L', x, y) <==> In(L, x + StepX(xdir, k), y + StepY(xdir, k));
    }
  }

  lemma HeadsOne(R: seq<Box>, xdir: bool, grow: bool)
    ensures Heads(R, R, xdir, grow, 1)
  {
    forall x, y
      ensures In(R, x, y) <==> Run(R, xdir, grow, 1, x, y)
    {
      assert At(R, xdir, x, y, 0) <==> In(R, x, y);
    }
  }

  /** ZOpRegion. */
  method OpRegion(grow: bool, a: Region, b: Region, c: Region)
    requires a.Valid() && b.Valid()
    modifies c
    ensures c.Valid()
    ensures Combined(if grow then Union else Intersect, old(a.rects), old(b.rects), c.rects)
    ensures Canonical(old(a.rects)) && Canonical(old(b.rects)) ==> Canonical(c.rects)
  {
    if grow { XUnionRegion(a, b, c); } else { XIntersectRegion(a, b, c); }
  }

  /** ZShiftRegion. */
  method ShiftRegion(xdir: bool, a: Region, b: int)
    requires a.Valid()
    modifies a
    ensures a.Valid()
    ensures Shifted(old(a.rects), a.rects, StepX(xdir, b), StepY(xdir, b))
    ensures Canonical(old(a.rects)) ==> Canonical(a.rects)
  {
    if xdir { XOffsetRegion(a, b, 0); } else { XOffsetRegion(a, 0, b); }
  }

  /** Shifts a back by k and combines it with b: from heads of runs of length l and k
      to heads of runs of length k + l. */
  method ShiftAndOp(xdir: bool, grow: bool, k: nat, a: Region, b: Region, ghost R: seq<Box>, ghost l: nat)
    requires a.Valid() && b.Valid() && a != b
    requires Heads(b.rects, R, xdir, grow, k) && Heads(a.rects, R, xdir, grow, l)
    modifies a
    ensures a.Valid() && Heads(a.rects, R, xdir, grow, k + l)
    ensures Canonical(old(a.rects)) && Canonical(b.rects) ==> Canonical(a.rects)
  {
    ghost var L := a.rects;
    ShiftRegion(xdir, a, 0 - k);
    ghost var L' := a.rects;
    OpRegion(grow, a, b, a);
    HeadsJoin(R, xdir, grow, k, l, b.rects, L, L', a.rects);
  }

  /** ZCopyRegion. */
  method CopyRegion(a: Region, b: Region, ghost R: seq<Box>, ghost xdir: bool, ghost grow: bool, ghost len: nat)
    requires a.Valid() && a != b && Heads(a.rects, R, xdir, grow, len)
    modifies b
    ensures b.Valid() && Heads(b.rects, R, xdir, grow, len)
    ensures Canonical(a.rects) ==> Canonical(b.rects)
  {
    XUnionRegion(a, a, b);
    forall x, y
      ensures In(b.rects, x, y) <==> Run(R, xdir, grow, len, x, y)
    {
      assert In(b.rects, x, y) <==> In(a.rects, x, y);
    }
  }

  /** Compress: replaces r by the points p with p + m in r for some (grow) or every m in 0..dx.
      Invariant: s holds the runs of length shift, r those of length 1 + (the part of dx done). */
  method Compress(r: Region, s: Region, t: Region, dx0: nat, xdir: bool, grow: bool)
    requires r.Valid() && r != s && r != t && s != t
    modifies r, s, t
    ensures r.Valid()
    ensures Heads(r.rects, old(r.rects), xdir, grow, dx0 + 1)
    ensures Canonical(old(r.rects)) ==> Canonical(r.rects)
  {
    ghost var R := r.rects;
    HeadsOne(R, xdir, grow);
    CopyRegion(r, s, R, xdir, grow, 1);
    var dx: nat, shift: nat := dx0, 1;
    ghost var m: nat := dx0;
    while dx != 0
      invariant Compressed(R, r, s, xdir, grow, dx0, dx, shift) && Multiple(dx, m, shift)
      decreases m
    {
      m := DoublingStep(dx, m, shift);
      dx := CompressTurn(r, s, t, dx, shift, xdir, grow, R, dx0);
      shift := 2 * shift;
    }
  }

  /** What the loop of Compress keeps: r has the runs for what is done of dx0, s those of length shift while there is more. */
  ghost predicate Compressed(R: seq<Box>, r: Region, s: Region, xdir: bool, grow: bool, dx0: nat, dx: nat, shift: nat)
    reads r, s
  {
    && r.Valid() && s.Valid() && dx <= dx0
    && Heads(r.rects, R, xdir, grow, 1 + dx0 - dx) && (dx != 0 ==> Heads(s.rects, R, xdir, grow, shift))
    && KeptCanonical(R, r.rects) && KeptCanonical(R, s.rects)
  }

  /** N is canonical if R is. */
  ghost predicate KeptCanonical(R: seq<Box>, N: seq<Box>) { Canonical(R) ==> Canonical(N) }

  /** One turn of the loop of Compress: the bit of dx at shift, and then twice as long runs in s. */
  method CompressTurn(r: Region, s: Region, t: Region, dx: nat, shift: nat, xdir: bool, grow: bool, ghost R: seq<Box>, ghost dx0: nat)
    returns (rest: nat)
    requires r != s && r != t && s != t && 0 < shift <= dx && Compressed(R, r, s, xdir, grow, dx0, dx, shift)
    modifies r, s, t
    ensures rest == Cleared(dx, shift) && Compressed(R, r, s, xdir, grow, dx0, rest, 2 * shift)
  {
    rest := dx;
    if BitSet(dx, shift) {
      ShiftAndOp(xdir, grow, shift, r, s, R, 1 + dx0 - dx);
      rest := dx - shift;
      if rest == 0 { return; }
    }
    DoubleRuns(s, t, shift, xdir, grow, R);
  }

  /** Runs of twice the length in s. */
  method DoubleRuns(s: Region, t: Region, shift: nat, xdir: bool, grow: bool, ghost R: seq<Box>)
    requires s.Valid() && s != t && shift > 0 && Heads(s.rects, R, xdir, grow, shift) && KeptCanonical(R, s.rects)
    modifies s, t
    ensures s.Valid() && Heads(s.rects, R, xdir, grow, 2 * shift) && KeptCanonical(R, s.rects)
  {
    CopyRegion(s, t, R, xdir, grow, shift);
    ShiftAndOp(xdir, grow, shift, s, t, R, shift);
  }

  ghost predicate Multiple(n: nat, m: nat, d: nat) { d > 0 && n == m * d }

  /** dx without the bit at shift. */
  function Cleared(dx: nat, shift: nat): nat
    requires 0 < shift <= dx
  {
    if BitSet(dx, shift) then dx - shift else dx
  }

  /** The quotient dx / shift is halved in every round, and shift keeps dividing what is left. */
  lemma DoublingStep(dx: nat, m: nat, shift: nat) returns (h: nat)
    requires Multiple(dx, m, shift) && dx > 0
    ensures shift <= dx && Multiple(Cleared(dx, shift), h, 2 * shift) && h < m
  {
    if m <= 0 { MulMonotonic(m, 0, shift); }
    MulMonotonic(1, m, shift);
    DivMod(m, shift, 0, dx);
    h := m / 2;
    HalfProduct(m, h, shift, Cleared(dx, shift));
  }

  lemma HalfProduct(q: int, h: int, d: int, rest: int)
    requires h == q / 2
    requires rest == if q % 2 == 1 then q * d - d else q * d
    ensures rest == h * (2 * d)
  {
    assert q == 2 * h + q % 2;
    assert q * d == 2 * (h * d) + (q % 2) * d;
  }

  /** dx & shift, for a power of two. */
  predicate BitSet(dx: nat, shift: nat)
    requires shift > 0
  {
    (dx / shift) % 2 == 1
  }

  // ---------- XShrinkRegion ----------

  /** Shrinking along one direction by d >= 0 keeps (x, y) when all points up to d away on its
      line are in R; for d < 0 it is enough that one of them is. */
  ghost predicate Line(R: seq<Box>, xdir: bool, d: int, x: int, y: int) {
    if xdir then
      if d >= 0 then forall px :: x - d <= px <= x + d ==> In(R, px, y)
      else exists px :: x + d <= px <= x - d && In(R, px, y)
    else
      if d >= 0 then forall py :: y - d <= py <= y + d ==> In(R, x, py)
      else exists py :: y + d <= py <= y - d && In(R, x, py)
  }

  function Abs(d: int): nat { if d < 0 then -d else d }

  lemma RunIsLine(R: seq<Box>, xdir: bool, d: int, x: int, y: int)
    ensures Run(R, xdir, d < 0, 2 * Abs(d) + 1, x - StepX(xdir, Abs(d)), y - StepY(xdir, Abs(d))) <==> Line(R, xdir, d, x, y)
  {
    var n := Abs(d);
    var x', y' := x - StepX(xdir, n), y - StepY(xdir, n);
    if Run(R, xdir, d < 0, 2 * n + 1, x', y') {
      if d >= 0 {
        forall p | (if xdir then x else y) - d <= p <= (if xdir then x else y) + d
          ensures if xdir then In(R, p, y) else In(R, x, p)
        {
          assert At(R, xdir, x', y', p - (if xdir then x' else y'));
        }
      } else {
        var m :| 0 <= m < 2 * n + 1 && At(R, xdir, x', y', m);
      }
    }
    if Line(R, xdir, d, x, y) {
      if d >= 0 {
        forall m | 0 <= m < 2 * n + 1
          ensures At(R, xdir, x', y', m)
        {
        }
      } else if xdir {
        var p :| x + d <= p <= x - d && In(R, p, y);
        assert At(R, xdir, x', y', p - x');
      } else {
        var p :| y + d <= p <= y - d && In(R, x, p);
        assert At(R, xdir, x', y', p - y');
      }
    }
  }

  /** (x, y) survives shrinking R by dx along x and then by dy along y. */
  ghost predicate Shrunk(R: seq<Box>, dx: int, dy: int, x: int, y: int) {
    if dy >= 0 then forall py :: y - dy <= py <= y + dy ==> Line(R, true, dx, x, py)
    else exists py :: y + dy <= py <= y - dy && Line(R, true, dx, x, py)
  }

  ghost predicate IsShrunk(R: seq<Box>, N: seq<Box>, dx: int, dy: int) {
    forall x, y :: In(N, x, y) <==> Shrunk(R, dx, dy, x, y)
  }

  /** XShrinkRegion. */
  method XShrinkRegion(r: Region, dx0: int, dy0: int)
    requires r.Valid()
    modifies r
    ensures r.Valid()
    ensures IsShrunk(old(r.rects), r.rects, dx0, dy0)
    ensures Canonical(old(r.rects)) ==> Canonical(r.rects)
  {
    ghost var R := r.rects;
    if dx0 == 0 && dy0 == 0 {
      forall x, y ensures In(R, x, y) <==> Shrunk(R, 0, 0, x, y) {
        assert Line(R, true, 0, x, y) <==> In(R, x, y);
      }
      return;
    }
    var s := new Region();
    var t := new Region();
    ShrinkLine(r, s, t, dx0, true);
    ghost var X := r.rects;
    ShrinkLine(r, s, t, dy0, false);
    ghost var Y := r.rects;
    XOffsetRegion(r, Abs(dx0), Abs(dy0));
    ShrunkPoints(R, X, Y, r.rects, dx0, dy0);
  }

  lemma ShrunkPoints(R: seq<Box>, X: seq<Box>, Y: seq<Box>, N: seq<Box>, dx: int, dy: int)
    requires Heads(X, R, true, dx < 0, 2 * Abs(dx) + 1) && Heads(Y, X, false, dy < 0, 2 * Abs(dy) + 1)
    requires Shifted(Y, N, Abs(dx), Abs(dy))
    ensures IsShrunk(R, N, dx, dy)
  {
    forall x, y
      ensures In(N, x, y) <==> Shrunk(R, dx, dy, x, y)
    {
      ShrunkPoint(R, X, Y, dx, dy, x, y);
    }
  }

  /** The calls of Compress, one for each direction; the sign of the amount selects growing. */
  method ShrinkLine(r: Region, s: Region, t: Region, d: int, xdir: bool)
    requires r.Valid() && r != s && r != t && s != t
    modifies r, s, t
    ensures r.Valid() && Heads(r.rects, old(r.rects), xdir, d < 0, 2 * Abs(d) + 1)
    ensures Canonical(old(r.rects)) ==> Canonical(r.rects)
  {
    var n := d;
    var grow := n < 0;
    if grow { n := -n; }
    if n != 0 {
      Compress(r, s, t, 2 * n, xdir, grow);
    } else {
      HeadsOne(r.rects, xdir, grow);
    }
  }

  lemma ShrunkPoint(R: seq<Box>, X: seq<Box>, Y: seq<Box>, dx: int, dy: int, x: int, y: int)
    requires Heads(X, R, true, dx < 0, 2 * Abs(dx) + 1) && Heads(Y, X, false, dy < 0, 2 * Abs(dy) + 1)
    ensures In(Y, x - Abs(dx), y - Abs(dy)) <==> Shrunk(R, dx, dy, x, y)
  {
    var x' := x - Abs(dx);
    RunIsLine(X, false, dy, x', y);
    forall py
      ensures In(X, x', py) <==> Line(R, true, dx, x, py)
    {
      RunIsLine(R, true, dx, x, py);
    }
  }

  /** Non-negative amounts erode by the box [-dx, dx] x [-dy, dy]. */
  lemma ShrunkIsErosion(R: seq<Box>, dx: nat, dy: nat, x: int, y: int)
    ensures Shrunk(R, dx, dy, x, y) <==>
      forall px, py :: x - dx <= px <= x + dx && y - dy <= py <= y + dy ==> In(R, px, py)
  {
    if Shrunk(R, dx, dy, x, y) {
      forall px, py | x - dx <= px <= x + dx && y - dy <= py <= y + dy
        ensures In(R, px, py)
      {
        assert Line(R, true, dx, x, py);
      }
    }
  }

  /** Non-positive amounts dilate by the box [dx, -dx] x [dy, -dy]. */
  lemma ShrunkIsDilation(R: seq<Box>, dx: int, dy: int, x: int, y: int)
    requires dx <= 0 && dy <= 0
    ensures Shrunk(R, dx, dy, x, y) <==>
      exists px, py :: x + dx <= px <= x - dx && y + dy <= py <= y - dy && In(R, px, py)
  {
    if Shrunk(R, dx, dy, x, y) {
      var py :| y + dy <= py <= y - dy && Line(R, true, dx, x, py);
      var px :| x + dx <= px <= x - dx && In(R, px, py);
    }
    if exists px, py :: x + dx <= px <= x - dx && y + dy <= py <= y - dy && In(R, px, py) {
      var px, py :| x + dx <= px <= x - dx && y + dy <= py <= y - dy && In(R, px, py);
      assert Line(R, true, dx, x, py);
    }
  }
}
