/** What converting scanlines means: every bit goes where the order of the destination wants it
    (libX11 PutImage.c). */
module BitmapConvert {
  import opened Arith
  import opened Bits
  import opened Image
  import opened ImageLayout
  import opened BitmapSwap

  /** The first srclen bytes of scanline bits of the source at s are in the destination at d, each in its order. */
  ghost predicate LineConverted(a: ScanOrder, b: ScanOrder, srclen: nat, src: seq<Byte>, s: nat, now: seq<Byte>, d: nat) {
    forall n: nat :: n < 8 * srclen ==> BitConverted(a, b, src, s, now, d, n)
  }

  /** Scanline r of several is converted. */
  ghost predicate RowConverted(a: ScanOrder, b: ScanOrder, srclen: nat, src: seq<Byte>, srcinc: nat, now: seq<Byte>, destinc: nat, r: nat) {
    LineConverted(a, b, srclen, src, r * srcinc, now, r * destinc)
  }

  ghost predicate BitConverted(a: ScanOrder, b: ScanOrder, src: seq<Byte>, s: nat, now: seq<Byte>, d: nat, n: nat) {
    SameAt(src, s, ScanSpot(a, n), now, d, ScanSpot(b, n))
  }

  /** The bits at two spots are the same. */
  ghost predicate SameAt(src: seq<Byte>, s: nat, from: Spot, now: seq<Byte>, d: nat, to: Spot) {
    SpotBit(now, Shifted(d, to)) == SpotBit(src, Shifted(s, from))
  }

  /** The bytes written among the first n hold what is due. */
  ghost predicate RowHolds(k: Swap, half: Order, whole: nat, t: nat, src: seq<Byte>, s: nat, now: seq<Byte>, d: nat, n: nat) {
    forall i: nat {:trigger Assigned(k, half, whole, t, i)} ::
      i < n && Assigned(k, half, whole, t, i) ==> d + i < |now| && now[d + i] == Value(k, src, s, i)
  }

  /** The bytes not written among the first n hold what they held. */
  ghost predicate RowLeft(k: Swap, half: Order, whole: nat, t: nat, was: seq<Byte>, now: seq<Byte>, d: nat, n: nat) {
    && |now| == |was|
    && forall i: nat {:trigger Assigned(k, half, whole, t, i)} ::
         i < n && d + i < |now| && !Assigned(k, half, whole, t, i) ==> now[d + i] == was[d + i]
  }

  // ---------- which scanlines are converted ----------

  /** A routine that undoes the exchange x of its source and does the exchange y of its destination. */
  predicate Converts(k: Swap, half: Order, x: nat, y: nat) {
    && x in {0, 1, 3} && y in {0, 1, 3} && Exchange(k) == Both(x, y)
    && half == if x == 0 || y == 3 then LSBFirst else MSBFirst
  }

  /** When the routine writes every byte of the destination scanline that holds one of its bits. Formats that
      differ only in the order of bits in a byte are copied byte by byte, so their scanlines must be whole
      units; and the conversion from units of 16 to units of 32 bits loses an odd last byte. */
  predicate Complete(x: nat, y: nat, srclen: nat, last: bool) {
    if x == y then (x == 1 ==> srclen % 2 == 0) && (x == 3 ==> srclen % 4 == 0)
    else x == 1 && y == 3 && last ==> srclen % 2 == 0
  }

  /** The byte of the destination that holds the bits of byte m of the scanline is written. */
  predicate Reached(k: Swap, half: Order, y: nat, srclen: nat, last: bool, m: nat)
    requires y < 4
  {
    Assigned(k, half, Whole(k, srclen, last), Rest(k, srclen, last), Flip(m, y))
  }

  lemma FlipBound(m: nat, x: nat, whole: nat)
    requires x < 4 && m < whole && (x == 1 ==> whole % 2 == 0) && (x > 1 ==> whole % 4 == 0)
    ensures Flip(m, x) < whole
  {
    if x == 0 {
      FlipNone(m);
    } else if x == 1 {
      FlipBoundPairs(m, whole / 2);
    } else {
      FlipBoundFours(m, x, whole / 4);
    }
  }

  lemma {:induction false} FlipBoundPairs(m: nat, h: nat)
    requires m < 2 * h
    ensures Flip(m, 1) < 2 * h
  {
    if m >= 4 { FlipBoundPairs(m - 4, h - 2); }
  }

  lemma {:induction false} FlipBoundFours(m: nat, x: nat, q: nat)
    requires m < 4 * q && x < 4
    ensures Flip(m, x) < 4 * q
  {
    if m >= 4 { FlipBoundFours(m - 4, x, q - 1); }
  }

  /** A byte in the part of a unit at the end. */
  lemma ReachedInPart(k: Swap, half: Order, whole: nat, t: nat, m: nat, x: nat)
    requires x in {0, 1, 3} && whole % 4 == 0 && 0 < t < 4 && whole <= m < whole + t && Exchange(k) in {2, 3}
    requires Exchange(k) == 3 ==> (half == LSBFirst && x == 3) || (half == MSBFirst && x == 0)
    requires Exchange(k) == 2 ==> (half == MSBFirst && x == 1) || (half == LSBFirst && x == 3 && t == 2)
    ensures Assigned(k, half, whole, t, Flip(m, x))
  {
    var q, i := whole / 4, m - whole;
    assert m == 4 * q + i && m / 4 == q && m % 4 == i;
    FlipInFour(q, i, x);
    if i == 0 {} else if i == 1 {} else {}
  }

  lemma ReachedInPair(k: Swap, half: Order, whole: nat, x: nat)
    requires whole % 2 == 0 && Exchange(k) == 1
    requires (half == LSBFirst && x == 1) || (half == MSBFirst && x == 0)
    ensures Assigned(k, half, whole, 1, Flip(whole, x))
  {
    FlipPair(whole / 2);
    FlipNone(whole);
    assert whole == 2 * (whole / 2);
  }

  /** The whole units and the rest of a scanline, for each exchange. */
  predicate SplitInUnits(z: nat, srclen: nat, whole: nat, t: nat) {
    if z == 0 then whole == srclen && t == 0
    else
      && (if z == 1 then whole % 2 == 0 && t < 2 else whole % 4 == 0 && t < 4)
      && (if t == 0 then srclen <= whole else srclen == whole + t)
  }

  lemma SplitOf(k: Swap, srclen: nat, last: bool)
    ensures SplitInUnits(Exchange(k), srclen, Whole(k, srclen, last), Rest(k, srclen, last))
    ensures !last ==> Rest(k, srclen, last) == 0
    ensures Exchange(k) > 1 && last ==> Rest(k, srclen, last) == srclen % 4
  {
    Units(k, srclen, last);
  }

  lemma SplitReached(k: Swap, half: Order, x: nat, y: nat, srclen: nat, whole: nat, t: nat, m: nat)
    requires Converts(k, half, x, y) && SplitInUnits(Exchange(k), srclen, whole, t) && m < srclen
    requires x == y ==> (x == 1 ==> srclen % 2 == 0) && (x == 3 ==> srclen % 4 == 0)
    requires x == 1 && y == 3 ==> t in {0, 2}
    ensures Assigned(k, half, whole, t, Flip(m, y))
  {
    if m < whole {
      if y != 0 { UnitsOfBoth(x, y, whole); }
      FlipBound(m, y, whole);
    } else if Exchange(k) == 1 {
      ReachedInPair(k, half, whole, y);
    } else {
      ReachedInPart(k, half, whole, t, m, y);
    }
  }

  /** The units of a routine are whole units of the destination. */
  lemma UnitsOfBoth(x: nat, y: nat, whole: nat)
    requires x in {0, 1, 3} && y in {1, 3}
    requires if Both(x, y) == 0 then whole % (y + 1) == 0 else if Both(x, y) == 1 then whole % 2 == 0 else whole % 4 == 0
    ensures (y == 1 ==> whole % 2 == 0) && (y == 3 ==> whole % 4 == 0)
  {
    if whole % 4 == 0 { HalfOfFours(whole); }
    if y == 1 { assert y + 1 == 2; } else { assert y + 1 == 4; }
  }

  lemma CompleteReached(k: Swap, half: Order, x: nat, y: nat, srclen: nat, last: bool, m: nat)
    requires Converts(k, half, x, y) && Complete(x, y, srclen, last) && m < srclen
    ensures Reached(k, half, y, srclen, last, m)
  {
    SplitOf(k, srclen, last);
    SplitReached(k, half, x, y, srclen, Whole(k, srclen, last), Rest(k, srclen, last), m);
  }

  /** A scanline that ends within a unit, copied: the byte that is out of reach. */
  lemma CopyMisses(x: nat, srclen: nat) returns (m: nat)
    requires (x == 1 && srclen % 2 != 0) || (x == 3 && srclen % 4 != 0)
    ensures m < srclen <= Flip(m, x)
  {
    if x == 1 {
      OddIs(srclen);
      m := 2 * (srclen / 2);
      FlipPair(srclen / 2);
    } else {
      m := 4 * (srclen / 4);
      FlipFour(srclen / 4);
    }
  }

  /** The byte of the part of a unit that SwapWords leaves out. */
  lemma WordsMiss(k: Swap, half: Order, q: nat, t: nat) returns (m: nat)
    requires Exchange(k) == 2 && half == LSBFirst && t in {1, 3}
    ensures 4 * q <= m < 4 * q + t && !Assigned(k, half, 4 * q, t, Flip(m, 3))
  {
    m := if t == 1 then 4 * q else 4 * q + 2;
    FlipFour(q);
  }

  lemma SplitMissed(k: Swap, half: Order, x: nat, y: nat, srclen: nat, whole: nat, t: nat) returns (m: nat)
    requires Converts(k, half, x, y) && SplitInUnits(Exchange(k), srclen, whole, t)
    requires if x == y then (x == 1 && srclen % 2 != 0) || (x == 3 && srclen % 4 != 0) else x == 1 && y == 3 && t in {1, 3}
    ensures m < srclen && !Assigned(k, half, whole, t, Flip(m, y))
  {
    if x == y {
      m := CopyMisses(x, srclen);
    } else {
      assert whole == 4 * (whole / 4);
      m := WordsMiss(k, half, whole / 4, t);
    }
  }

  lemma IncompleteMissed(k: Swap, half: Order, x: nat, y: nat, srclen: nat, last: bool) returns (m: nat)
    requires Converts(k, half, x, y) && !Complete(x, y, srclen, last)
    ensures m < srclen && !Reached(k, half, y, srclen, last, m)
  {
    SplitOf(k, srclen, last);
    var whole, t := Whole(k, srclen, last), Rest(k, srclen, last);
    if x != y {
      assert Both(1, 3) == 2;
      OddRest(srclen);
    }
    m := SplitMissed(k, half, x, y, srclen, whole, t);
  }

  // ---------- bits ----------

  lemma BothTwice(x: nat, y: nat)
    requires x in {0, 1, 3} && y in {0, 1, 3}
    ensures Both(y, Both(x, y)) == x
  {
  }

  /** A byte that is written is the byte of the source that has its scanline bits. */
  lemma ByteConverted(k: Swap, x: nat, y: nat, src: seq<Byte>, s: nat, m: nat)
    requires x in {0, 1, 3} && y in {0, 1, 3} && Exchange(k) == Both(x, y)
    ensures Value(k, src, s, Flip(m, y)) == Moved(k, At(src, s + Flip(m, x)))
  {
    FlipBoth(m, y, Both(x, y));
    BothTwice(x, y);
  }

  lemma MovedBit(k: Swap, src: seq<Byte>, at: nat, from: nat, to: nat)
    requires from < 8 && to < 8 && from == if Reverses(k) then 7 - to else to
    ensures Moved(k, At(src, at))[to] == SpotBit(src, Spot(at, from))
  {
  }

  /** Byte m of the scanline has been moved. */
  predicate ByteMoved(a: ScanOrder, b: ScanOrder, k: Swap, src: seq<Byte>, s: nat, now: seq<Byte>, d: nat, m: nat) {
    var at := d + Flip(m, Twist(b));
    at < |now| && now[at] == Moved(k, At(src, s + Flip(m, Twist(a))))
  }

  lemma BitOfByte(a: ScanOrder, b: ScanOrder, k: Swap, src: seq<Byte>, s: nat, now: seq<Byte>, d: nat, m: nat, j: nat)
    requires j < 8 && Reverses(k) == (a.bitOrder != b.bitOrder) && ByteMoved(a, b, k, src, s, now, d, m)
    ensures SameAt(src, s, TwistedSpot(a, m, j), now, d, TwistedSpot(b, m, j))
  {
    MovedBit(k, src, s + Flip(m, Twist(a)), TwistedSpot(a, m, j).bit, TwistedSpot(b, m, j).bit);
  }

  lemma ConvertedAt(a: ScanOrder, b: ScanOrder, src: seq<Byte>, s: nat, now: seq<Byte>, d: nat, n: nat, from: Spot, to: Spot)
    requires SameAt(src, s, from, now, d, to) && ScanSpot(a, n) == from && ScanSpot(b, n) == to
    ensures BitConverted(a, b, src, s, now, d, n)
  {
  }

  lemma BitOf(a: ScanOrder, b: ScanOrder, k: Swap, src: seq<Byte>, s: nat, now: seq<Byte>, d: nat, n: nat)
    requires a.Valid() && b.Valid() && Reverses(k) == (a.bitOrder != b.bitOrder) && ByteMoved(a, b, k, src, s, now, d, n / 8)
    ensures BitConverted(a, b, src, s, now, d, n)
  {
    var m, j := n / 8, n % 8;
    BitOfByte(a, b, k, src, s, now, d, m, j);
    ScanSpotTwist(a, n);
    ScanSpotTwist(b, n);
    ConvertedAt(a, b, src, s, now, d, n, TwistedSpot(a, m, j), TwistedSpot(b, m, j));
  }

  /** A scanline is converted if the routine is complete on it. */
  lemma LineOf(a: ScanOrder, b: ScanOrder, k: Swap, half: Order, srclen: nat, last: bool,
               src: seq<Byte>, s: nat, now: seq<Byte>, d: nat, w: nat)
    requires a.Valid() && b.Valid() && Reverses(k) == (a.bitOrder != b.bitOrder)
    requires Converts(k, half, Twist(a), Twist(b)) && Complete(Twist(a), Twist(b), srclen, last)
    requires RowHolds(k, half, Whole(k, srclen, last), Rest(k, srclen, last), src, s, now, d, w) && Flips(srclen, Twist(b)) <= w
    ensures LineConverted(a, b, srclen, src, s, now, d)
  {
    forall m: nat | m < srclen
      ensures ByteMoved(a, b, k, src, s, now, d, m)
    {
      ByteOf(k, half, Twist(a), Twist(b), srclen, last, src, s, now, d, w, m);
    }
    LineOfBytes(a, b, k, srclen, src, s, now, d);
  }

  lemma LineOfBytes(a: ScanOrder, b: ScanOrder, k: Swap, srclen: nat, src: seq<Byte>, s: nat, now: seq<Byte>, d: nat)
    requires a.Valid() && b.Valid() && Reverses(k) == (a.bitOrder != b.bitOrder)
    requires forall m: nat :: m < srclen ==> ByteMoved(a, b, k, src, s, now, d, m)
    ensures LineConverted(a, b, srclen, src, s, now, d)
  {
    forall n: nat | n < 8 * srclen
      ensures BitConverted(a, b, src, s, now, d, n)
    {
      assert ByteMoved(a, b, k, src, s, now, d, n / 8);
      BitOf(a, b, k, src, s, now, d, n);
    }
  }

  lemma ByteOf(k: Swap, half: Order, x: nat, y: nat, srclen: nat, last: bool,
               src: seq<Byte>, s: nat, now: seq<Byte>, d: nat, w: nat, m: nat)
    requires Converts(k, half, x, y) && Complete(x, y, srclen, last) && m < srclen
    requires RowHolds(k, half, Whole(k, srclen, last), Rest(k, srclen, last), src, s, now, d, w) && Flips(srclen, y) <= w
    ensures var at := d + Flip(m, y);
      at < |now| && now[at] == Moved(k, At(src, s + Flip(m, x)))
  {
    CompleteReached(k, half, x, y, srclen, last, m);
    FlipInside(m, y, srclen);
    ByteConverted(k, x, y, src, s, m);
    var i := Flip(m, y);
    assert Assigned(k, half, Whole(k, srclen, last), Rest(k, srclen, last), i);
  }

  lemma FlipInside(m: nat, x: nat, srclen: nat)
    requires x in {0, 1, 3} && m < srclen
    ensures Flip(m, x) < Flips(srclen, x) <= srclen + 3
  {
    if x == 0 {
      FlipNone(m);
    } else if x == 1 {
      FlipBoundPairs(m, (srclen + 1) / 2);
    } else {
      FlipBoundFours(m, x, (srclen + 3) / 4);
    }
  }

  /** They are the fewest that hold where every byte of the scanline goes. */
  lemma FlipsFewest(srclen: nat, x: nat, n: nat)
    requires x in {0, 1, 3}
    ensures Flips(srclen, x) <= n <==> forall m: nat :: m < srclen ==> Flip(m, x) < n
  {
    if Flips(srclen, x) <= n {
      forall m: nat | m < srclen
        ensures Flip(m, x) < n
      {
        FlipInside(m, x, srclen);
      }
    } else if srclen > 0 {
      var m: nat := if x == 0 then srclen - 1 else if x == 1 then (srclen - 1) / 2 * 2 else (srclen - 1) / 4 * 4;
      FlipsLast(srclen, x, m);
    }
  }

  lemma FlipsLast(srclen: nat, x: nat, m: nat)
    requires x in {0, 1, 3} && srclen > 0
    requires m == if x == 0 then srclen - 1 else if x == 1 then (srclen - 1) / 2 * 2 else (srclen - 1) / 4 * 4
    ensures m < srclen && Flip(m, x) + 1 == Flips(srclen, x)
  {
    FlipInFour(m / 4, m % 4, x);
  }

  /** Bytes of the destination that may hold a bit of a scanline of srclen bytes. */
  function Flips(srclen: nat, x: nat): nat {
    if x == 0 then srclen else if x == 1 then (srclen + 1) / 2 * 2 else (srclen + 3) / 4 * 4
  }

  const FULL: Byte := [true, true, true, true, true, true, true, true]

  function Ones(n: nat): (r: seq<Byte>)
    ensures |r| == n
  {
    seq(n, i => FULL)
  }

  /** Zeros over which a scanline of ones is converted. */
  function OnesOverZeros(k: Swap, half: Order, whole: nat, t: nat, size: nat): (r: seq<Byte>)
    ensures |r| == size
  {
    seq(size, i requires i >= 0 => if Assigned(k, half, whole, t, i) then Value(k, Ones(size), 0, i) else ZERO)
  }

  /** A byte that is not written stays zero, although the scanline has ones. */
  lemma BitLost(a: ScanOrder, b: ScanOrder, k: Swap, half: Order, whole: nat, t: nat, size: nat, m: nat)
    requires a.Valid() && b.Valid() && Flip(m, Twist(a)) < size && Flip(m, Twist(b)) < size
    requires !Assigned(k, half, whole, t, Flip(m, Twist(b)))
    ensures !BitConverted(a, b, Ones(size), 0, OnesOverZeros(k, half, whole, t, size), 0, 8 * m)
  {
    ScanSpotTwist(a, 8 * m);
    ScanSpotTwist(b, 8 * m);
    assert 8 * m / 8 == m;
  }

  /** The conversion of a scanline gives every bit its place, whatever the bits are, exactly if the routine is
      complete on it. */
  lemma ConvertedIff(a: ScanOrder, b: ScanOrder, srclen: nat, last: bool)
    requires a.Valid() && b.Valid()
    ensures var k, half := SwapFunction(a, b), PassedHalfOrder(a, b);
      Complete(Twist(a), Twist(b), srclen, last) <==> AlwaysConverted(a, b, k, half, srclen, last)
  {
    SwapFunctionIsRight(a, b);
    AlwaysConvertedIff(a, b, SwapFunction(a, b), PassedHalfOrder(a, b), srclen, last);
  }

  /** Whatever the source, and whatever the destination held before. */
  ghost predicate AlwaysConverted(a: ScanOrder, b: ScanOrder, k: Swap, half: Order, srclen: nat, last: bool) {
    var whole, t := Whole(k, srclen, last), Rest(k, srclen, last);
    forall src: seq<Byte>, was: seq<Byte>, now: seq<Byte> ::
      |was| == srclen + 4 && RowSwapped(k, half, whole, t, src, 0, was, now, 0) ==> LineConverted(a, b, srclen, src, 0, now, 0)
  }

  lemma AlwaysConvertedIff(a: ScanOrder, b: ScanOrder, k: Swap, half: Order, srclen: nat, last: bool)
    requires a.Valid() && b.Valid() && Reverses(k) == (a.bitOrder != b.bitOrder) && Converts(k, half, Twist(a), Twist(b))
    ensures Complete(Twist(a), Twist(b), srclen, last) <==> AlwaysConverted(a, b, k, half, srclen, last)
  {
    var whole, t, size := Whole(k, srclen, last), Rest(k, srclen, last), srclen + 4;
    if Complete(Twist(a), Twist(b), srclen, last) {
      forall src: seq<Byte>, was: seq<Byte>, now: seq<Byte> | |was| == size && RowSwapped(k, half, whole, t, src, 0, was, now, 0)
        ensures LineConverted(a, b, srclen, src, 0, now, 0)
      {
        assert RowHolds(k, half, whole, t, src, 0, now, 0, size);
        LineOf(a, b, k, half, srclen, last, src, 0, now, 0, size);
      }
    } else {
      var m := IncompleteMissed(k, half, Twist(a), Twist(b), srclen, last);
      FlipInside(m, Twist(a), srclen);
      FlipInside(m, Twist(b), srclen);
      BitLost(a, b, k, half, whole, t, size, m);
      OnesSwapped(k, half, whole, t, size);
    }
  }

  lemma OnesSwapped(k: Swap, half: Order, whole: nat, t: nat, size: nat)
    ensures RowSwapped(k, half, whole, t, Ones(size), 0, seq(size, i => ZERO), OnesOverZeros(k, half, whole, t, size), 0)
  {
  }

  /** A scanline of one byte, from units of 16 bits to units of 32, byte order M and bit order l. */
  lemma OddByteLost()
    ensures var a, b := ScanOrder(16, MSBFirst, LSBFirst), ScanOrder(32, MSBFirst, LSBFirst);
      !AlwaysConverted(a, b, SwapFunction(a, b), PassedHalfOrder(a, b), 1, true)
  {
    ConvertedIff(ScanOrder(16, MSBFirst, LSBFirst), ScanOrder(32, MSBFirst, LSBFirst), 1, true);
  }

  /** A scanline of one byte, copied between orders that are the same: in units of 16 bits, byte order L and bit order M,
      its bits are in the second byte. */
  lemma OddByteNotCopied()
    ensures var a := ScanOrder(16, LSBFirst, MSBFirst);
      !AlwaysConverted(a, a, SwapFunction(a, a), PassedHalfOrder(a, a), 1, true)
  {
    ConvertedIff(ScanOrder(16, LSBFirst, MSBFirst), ScanOrder(16, LSBFirst, MSBFirst), 1, true);
  }

  /** Converting there and back gives every bit of the scanline again. */
  lemma ThereAndBack(a: ScanOrder, b: ScanOrder, srclen: nat, src: seq<Byte>, s: nat, there: seq<Byte>, d: nat, back: seq<Byte>, e: nat)
    requires LineConverted(a, b, srclen, src, s, there, d) && LineConverted(b, a, srclen, there, d, back, e)
    ensures LineConverted(a, a, srclen, src, s, back, e)
  {
    forall n: nat | n < 8 * srclen
      ensures BitConverted(a, a, src, s, back, e, n)
    {
      assert BitConverted(a, b, src, s, there, d, n) && BitConverted(b, a, there, d, back, e, n);
    }
  }

  /** The scanline bit at a bit of a byte. */
  lemma BitAtSpot(a: ScanOrder, i: nat, j: nat) returns (n: nat)
    requires a.Valid() && j < 8
    ensures ScanSpot(a, n) == Spot(i, j) && n / 8 == Flip(i, Twist(a))
  {
    var m, bit := Flip(i, Twist(a)), if a.bitOrder == MSBFirst then 7 - j else j;
    n := 8 * m + bit;
    assert n / 8 == m && n % 8 == bit;
    ScanSpotTwist(a, n);
    FlipBoth(i, Twist(a), Twist(a));
    FlipNone(i);
  }

  lemma SameSpot(a: ScanOrder, srclen: nat, src: seq<Byte>, s: nat, back: seq<Byte>, e: nat, n: nat, at: Spot)
    requires LineConverted(a, a, srclen, src, s, back, e) && n / 8 < srclen && ScanSpot(a, n) == at
    ensures SpotBit(back, Shifted(e, at)) == SpotBit(src, Shifted(s, at))
  {
    assert BitConverted(a, a, src, s, back, e, n);
  }

  lemma FlipInFours(i: nat, x: nat, srclen: nat)
    requires x in {0, 1, 3} && srclen % 4 == 0 && i < srclen
    ensures Flip(i, x) < srclen
  {
    if x == 1 { HalfOfFours(srclen); }
    FlipBound(i, x, srclen);
  }

  lemma BitAt(data: seq<Byte>, e: nat, i: nat, j: nat)
    requires e + i < |data| && j < 8
    ensures SpotBit(data, Shifted(e, Spot(i, j))) == data[e + i][j]
  {
  }

  lemma SameBit(a: ScanOrder, srclen: nat, src: seq<Byte>, s: nat, back: seq<Byte>, e: nat, i: nat, j: nat)
    requires a.Valid() && srclen % 4 == 0 && i < srclen && s + srclen <= |src| && e + srclen <= |back| && j < 8
    requires LineConverted(a, a, srclen, src, s, back, e)
    ensures back[e + i][j] == src[s + i][j]
  {
    var n := BitAtSpot(a, i, j);
    FlipInFours(i, Twist(a), srclen);
    SameSpot(a, srclen, src, s, back, e, n, Spot(i, j));
    BitAt(back, e, i, j);
    BitAt(src, s, i, j);
  }

  /** In whole units of 32 bits, the bytes themselves are the same again. */
  lemma SameBytes(a: ScanOrder, srclen: nat, src: seq<Byte>, s: nat, back: seq<Byte>, e: nat, i: nat)
    requires a.Valid() && srclen % 4 == 0 && i < srclen && s + srclen <= |src| && e + srclen <= |back|
    requires LineConverted(a, a, srclen, src, s, back, e)
    ensures back[e + i] == src[s + i]
  {
    var x, y := back[e + i], src[s + i];
    forall j: nat | j < 8
      ensures x[j] == y[j]
    {
      SameBit(a, srclen, src, s, back, e, i, j);
    }
  }

  // ---------- all scanlines ----------

  lemma AssignedReach(k: Swap, half: Order, whole: nat, t: nat, i: nat)
    requires Assigned(k, half, whole, t, i) && t <= 3 && (Exchange(k) == 1 ==> t <= 1) && (Exchange(k) == 0 ==> t == 0)
    ensures i < DestReach(k, half, whole, t)
  {
  }

  lemma RowJustSwapped(k: Swap, half: Order, whole: nat, t: nat, src: seq<Byte>, s: nat, was: seq<Byte>, now: seq<Byte>, d: nat, n: nat)
    requires RowSwapped(k, half, whole, t, src, s, was, now, d)
    requires t <= 3 && (Exchange(k) == 1 ==> t <= 1) && (Exchange(k) == 0 ==> t == 0) && d + DestReach(k, half, whole, t) <= |now|
    ensures RowHolds(k, half, whole, t, src, s, now, d, n)
    ensures forall j: nat :: j < |was| && (j < d || j >= d + DestReach(k, half, whole, t)) ==> now[j] == was[j]
  {
    forall i: nat | i < n && Assigned(k, half, whole, t, i)
      ensures d + i < |now| && now[d + i] == Value(k, src, s, i)
    {
      AssignedReach(k, half, whole, t, i);
    }
    forall j: nat | j < |was| && (j < d || j >= d + DestReach(k, half, whole, t))
      ensures now[j] == was[j]
    {
      if j >= d && Assigned(k, half, whole, t, j - d) { AssignedReach(k, half, whole, t, j - d); }
    }
  }

  /** Later scanlines do not touch earlier ones. */
  lemma RowKept(k: Swap, half: Order, whole: nat, t: nat, src: seq<Byte>, s: nat, was: seq<Byte>, now: seq<Byte>, d: nat, n: nat, from: nat)
    requires RowHolds(k, half, whole, t, src, s, was, d, n) && d + n <= from && |now| == |was|
    requires forall j: nat :: j < |was| && j < from ==> now[j] == was[j]
    ensures RowHolds(k, half, whole, t, src, s, now, d, n)
  {
  }

  /** Scanline r of `height` has been converted; the first w bytes of it count. */
  ghost predicate RowDone(k: Swap, half: Order, srclen: nat, height: nat, src: seq<Byte>, srcinc: nat,
                          now: seq<Byte>, destinc: nat, w: nat, r: nat)
  {
    var last := r + 1 == height;
    RowHolds(k, half, Whole(k, srclen, last), Rest(k, srclen, last), src, r * srcinc, now, r * destinc, w)
  }

  /** Scanlines that the routine does not write into one another. */
  predicate Apart(k: Swap, srclen: nat, height: nat, destinc: nat) { height == 1 || Rounded(k, srclen) <= destinc }

  /** The bytes of scanline r that the routine does not write are left, among the first w. */
  ghost predicate LeftAt(k: Swap, half: Order, srclen: nat, height: nat, was: seq<Byte>, now: seq<Byte>, destinc: nat, w: nat, r: nat) {
    var last := r + 1 == height;
    RowLeft(k, half, Whole(k, srclen, last), Rest(k, srclen, last), was, now, r * destinc, w)
  }

  /** From byte d on nothing has been written. */
  ghost predicate Ahead(was: seq<Byte>, now: seq<Byte>, d: int) {
    |now| == |was| && forall j: nat :: d <= j < |now| ==> now[j] == was[j]
  }

  /** The buffers hold what the routine reads and writes. */
  ghost predicate Room(k: Swap, half: Order, srclen: nat, height: nat, srcinc: nat, size: nat, destinc: nat, end: nat)
    requires height >= 1
  {
    && (height > 1 ==> (height - 2) * srcinc + Rounded(k, srclen) <= size && (height - 2) * destinc + Rounded(k, srclen) <= end)
    && (height - 1) * srcinc + SourceReach(k, half, Whole(k, srclen, true), Rest(k, srclen, true)) <= size
    && (height - 1) * destinc + DestReach(k, half, Whole(k, srclen, true), Rest(k, srclen, true)) <= end
  }

  lemma RoomForRow(k: Swap, half: Order, srclen: nat, height: nat, srcinc: nat, size: nat, destinc: nat, end: nat, r: nat)
    requires height >= 1 && Room(k, half, srclen, height, srcinc, size, destinc, end) && r < height
    ensures var last := r + 1 == height;
      && r * srcinc + SourceReach(k, half, Whole(k, srclen, last), Rest(k, srclen, last)) <= size
      && r * destinc + DestReach(k, half, Whole(k, srclen, last), Rest(k, srclen, last)) <= end
  {
    if r + 1 < height {
      MulMonotonic(r, height - 2, srcinc);
      MulMonotonic(r, height - 2, destinc);
    }
  }

  /** The outer loop of every routine. */
  method SwapRows(k: Swap, src: array<Byte>, dest: array<Byte>, srclen: nat, srcinc: nat, destinc: nat, height: nat, half: Order,
                  ghost w: nat, ghost end: nat)
    requires src != dest && height >= 1 && (height > 1 ==> w <= destinc)
    requires Room(k, half, srclen, height, srcinc, src.Length, destinc, end) && end <= dest.Length
    modifies dest
    ensures forall r: nat :: r < height ==> RowDone(k, half, srclen, height, src[..], srcinc, dest[..], destinc, w, r)
    ensures Apart(k, srclen, height, destinc) ==>
              forall r: nat :: r < height ==> LeftAt(k, half, srclen, height, old(dest[..]), dest[..], destinc, w, r)
    ensures dest[end..] == old(dest[end..])
  {
    ghost var from, first := src[..], dest[..];
    var h, r: nat, s: nat, d: nat := height, 0, 0, 0;
    while h > 0
      invariant r + h == height && s == r * srcinc && d == r * destinc && src[..] == from
      invariant forall i: nat :: i < r ==> RowDone(k, half, srclen, height, from, srcinc, dest[..], destinc, w, i)
      invariant Apart(k, srclen, height, destinc) ==> LeftSoFar(k, half, srclen, height, first, dest[..], destinc, w, r)
      invariant dest[end..] == old(dest[end..])
    {
      h := h - 1;
      ghost var was := dest[..];
      RoomForRow(k, half, srclen, height, srcinc, src.Length, destinc, end, r);
      SwapScanline(k, src, s, dest, d, srclen, h == 0, half);
      OneMoreRow(k, half, srclen, height, from, srcinc, was, dest[..], destinc, w, r, end);
      if Apart(k, srclen, height, destinc) {
        OneMoreLeft(k, half, srclen, height, from, s, first, was, dest[..], destinc, w, r);
      }
      MulDistributes(r, 1, srcinc);
      MulDistributes(r, 1, destinc);
      s, d, r := s + srcinc, d + destinc, r + 1;
    }
  }

  /** The first r scanlines are left where they are not written, and the others altogether. */
  ghost predicate LeftSoFar(k: Swap, half: Order, srclen: nat, height: nat, first: seq<Byte>, now: seq<Byte>, destinc: nat, w: nat, r: nat) {
    && (r < height ==> Ahead(first, now, r * destinc))
    && forall i: nat :: i < r ==> LeftAt(k, half, srclen, height, first, now, destinc, w, i)
  }

  lemma OneMoreLeft(k: Swap, half: Order, srclen: nat, height: nat, src: seq<Byte>, s: nat, first: seq<Byte>, was: seq<Byte>,
                    now: seq<Byte>, destinc: nat, w: nat, r: nat)
    requires r < height && (height > 1 ==> w <= destinc) && Apart(k, srclen, height, destinc)
    requires LeftSoFar(k, half, srclen, height, first, was, destinc, w, r)
    requires var last := r + 1 == height;
      RowSwapped(k, half, Whole(k, srclen, last), Rest(k, srclen, last), src, s, was, now, r * destinc)
    ensures LeftSoFar(k, half, srclen, height, first, now, destinc, w, r + 1)
  {
    MulDistributes(r, 1, destinc);
    LatestLeft(k, half, srclen, height, src, s, first, was, now, destinc, w, r);
    forall i: nat | i < r
      ensures LeftAt(k, half, srclen, height, first, now, destinc, w, i)
    {
      EarlierLeft(k, half, srclen, height, src, s, first, was, now, destinc, w, r, i);
    }
  }

  lemma LatestLeft(k: Swap, half: Order, srclen: nat, height: nat, src: seq<Byte>, s: nat, first: seq<Byte>, was: seq<Byte>,
                   now: seq<Byte>, destinc: nat, w: nat, r: nat)
    requires r < height && Apart(k, srclen, height, destinc) && Ahead(first, was, r * destinc)
    requires var last := r + 1 == height;
      RowSwapped(k, half, Whole(k, srclen, last), Rest(k, srclen, last), src, s, was, now, r * destinc)
    ensures LeftAt(k, half, srclen, height, first, now, destinc, w, r)
    ensures r + 1 < height ==> Ahead(first, now, r * destinc + destinc)
  {
    var last, d := r + 1 == height, r * destinc;
    var whole, t := Whole(k, srclen, last), Rest(k, srclen, last);
    MulMonotonic(0, r, destinc);
    Units(k, srclen, last);
    forall j: nat | d <= j < |now|
      ensures now[j] == if Assigned(k, half, whole, t, j - d) then Value(k, src, s, j - d) else first[j]
    {
      assert was[j] == first[j];
    }
  }

  lemma EarlierLeft(k: Swap, half: Order, srclen: nat, height: nat, src: seq<Byte>, s: nat, first: seq<Byte>, was: seq<Byte>,
                    now: seq<Byte>, destinc: nat, w: nat, r: nat, i: nat)
    requires i < r < height && w <= destinc && LeftAt(k, half, srclen, height, first, was, destinc, w, i)
    requires var last := r + 1 == height;
      RowSwapped(k, half, Whole(k, srclen, last), Rest(k, srclen, last), src, s, was, now, r * destinc)
    ensures LeftAt(k, half, srclen, height, first, now, destinc, w, i)
  {
    MulMonotonic(i + 1, r, destinc);
    MulDistributes(i, 1, destinc);
    MulMonotonic(0, i, destinc);
    LeftKept(k, half, Whole(k, srclen, false), Rest(k, srclen, false), first, was, now, i * destinc, w, r * destinc);
  }

  lemma LeftKept(k: Swap, half: Order, whole: nat, t: nat, first: seq<Byte>, was: seq<Byte>, now: seq<Byte>, d: nat, n: nat, from: nat)
    requires RowLeft(k, half, whole, t, first, was, d, n) && d + n <= from && |now| == |was|
    requires forall j: nat :: j < |was| && j < from ==> now[j] == was[j]
    ensures RowLeft(k, half, whole, t, first, now, d, n)
  {
  }

  lemma OneMoreRow(k: Swap, half: Order, srclen: nat, height: nat, src: seq<Byte>, srcinc: nat, was: seq<Byte>, now: seq<Byte>,
                   destinc: nat, w: nat, r: nat, end: nat)
    requires r < height && (height > 1 ==> w <= destinc) && end <= |now| == |was|
    requires forall i: nat :: i < r ==> RowDone(k, half, srclen, height, src, srcinc, was, destinc, w, i)
    requires var last := r + 1 == height;
      && RowSwapped(k, half, Whole(k, srclen, last), Rest(k, srclen, last), src, r * srcinc, was, now, r * destinc)
      && r * destinc + DestReach(k, half, Whole(k, srclen, last), Rest(k, srclen, last)) <= end
    ensures forall i: nat :: i < r + 1 ==> RowDone(k, half, srclen, height, src, srcinc, now, destinc, w, i)
    ensures now[end..] == was[end..]
  {
    LatestRow(k, half, srclen, height, src, srcinc, was, now, destinc, w, r, end);
    forall i: nat | i < r
      ensures RowDone(k, half, srclen, height, src, srcinc, now, destinc, w, i)
    {
      EarlierRow(k, half, srclen, height, src, srcinc, was, now, destinc, w, r, i);
    }
  }

  lemma LatestRow(k: Swap, half: Order, srclen: nat, height: nat, src: seq<Byte>, srcinc: nat, was: seq<Byte>, now: seq<Byte>,
                  destinc: nat, w: nat, r: nat, end: nat)
    requires r < height && end <= |now| == |was|
    requires var last := r + 1 == height;
      && RowSwapped(k, half, Whole(k, srclen, last), Rest(k, srclen, last), src, r * srcinc, was, now, r * destinc)
      && r * destinc + DestReach(k, half, Whole(k, srclen, last), Rest(k, srclen, last)) <= end
    ensures RowDone(k, half, srclen, height, src, srcinc, now, destinc, w, r)
    ensures forall j: nat :: j < |was| && (j < r * destinc || j >= end) ==> now[j] == was[j]
  {
    var last := r + 1 == height;
    Units(k, srclen, last);
    RowJustSwapped(k, half, Whole(k, srclen, last), Rest(k, srclen, last), src, r * srcinc, was, now, r * destinc, w);
  }

  lemma EarlierRow(k: Swap, half: Order, srclen: nat, height: nat, src: seq<Byte>, srcinc: nat, was: seq<Byte>, now: seq<Byte>,
                   destinc: nat, w: nat, r: nat, i: nat)
    requires i < r < height && w <= destinc && |now| == |was|
    requires RowDone(k, half, srclen, height, src, srcinc, was, destinc, w, i)
    requires forall j: nat :: j < |was| && j < r * destinc ==> now[j] == was[j]
    ensures RowDone(k, half, srclen, height, src, srcinc, now, destinc, w, i)
  {
    MulMonotonic(i + 1, r, destinc);
    MulDistributes(i, 1, destinc);
    MulMonotonic(0, i, srcinc);
    MulMonotonic(0, i, destinc);
    RowKept(k, half, Whole(k, srclen, false), Rest(k, srclen, false), src, i * srcinc, was, now, i * destinc, w, r * destinc);
  }

  /** memcpy */
  method CopyBytes(src: array<Byte>, dest: array<Byte>, n: nat)
    requires src != dest && n <= src.Length && n <= dest.Length
    modifies dest
    ensures dest[..] == src[..n] + old(dest[n..])
  {
    var i := 0;
    while i < n
      invariant 0 <= i <= n
      invariant forall j :: 0 <= j < i ==> dest[j] == src[j]
      invariant forall j :: i <= j < dest.Length ==> dest[j] == old(dest[j])
    {
      dest[i] := src[i];
      i := i + 1;
    }
  }

  /** What a call leaves in the first w bytes of a scanline: what is due where it writes, and what was there elsewhere.
      When scanlines are copied together, every byte of the scanline is written. */
  ghost predicate RowIs(k: Swap, half: Order, srclen: nat, last: bool, together: bool,
                        src: seq<Byte>, s: nat, was: seq<Byte>, now: seq<Byte>, d: nat, w: nat)
  {
    if together then d + w <= |now| == |was| && forall i: nat :: i < w ==> now[d + i] == Value(k, src, s, i)
    else
      && RowHolds(k, half, Whole(k, srclen, last), Rest(k, srclen, last), src, s, now, d, w)
      && RowLeft(k, half, Whole(k, srclen, last), Rest(k, srclen, last), was, now, d, w)
  }

  /** The scanline is one of those before the last that NoSwap copies together. */
  predicate Together(k: Swap, srcinc: nat, destinc: nat, last: bool) { k == NoSwap && srcinc == destinc && !last }

  ghost predicate RowIsAt(k: Swap, half: Order, srclen: nat, height: nat, src: seq<Byte>, srcinc: nat,
                          was: seq<Byte>, now: seq<Byte>, destinc: nat, w: nat, r: nat)
  {
    var last := r + 1 == height;
    RowIs(k, half, srclen, last, Together(k, srcinc, destinc, last), src, r * srcinc, was, now, r * destinc, w)
  }

  lemma DoneIsLeft(k: Swap, half: Order, srclen: nat, height: nat, src: seq<Byte>, srcinc: nat,
                   was: seq<Byte>, now: seq<Byte>, destinc: nat, w: nat, r: nat)
    requires RowDone(k, half, srclen, height, src, srcinc, now, destinc, w, r) && LeftAt(k, half, srclen, height, was, now, destinc, w, r)
    requires !(k == NoSwap && srcinc == destinc)
    ensures RowIsAt(k, half, srclen, height, src, srcinc, was, now, destinc, w, r)
  {
  }

  /** NoSwap: one copy if the scanlines are equally far apart, one for each otherwise. */
  method CopyRows(src: array<Byte>, dest: array<Byte>, srclen: nat, srcinc: nat, destinc: nat, height: nat, half: Order,
                  ghost w: nat, ghost end: nat)
    requires src != dest && height >= 1 && srclen <= w && (height > 1 ==> w <= destinc)
    requires Room(NoSwap, half, srclen, height, srcinc, src.Length, destinc, end) && end <= dest.Length
    modifies dest
    ensures forall r: nat :: r < height ==> RowIsAt(NoSwap, half, srclen, height, src[..], srcinc, old(dest[..]), dest[..], destinc, w, r)
    ensures dest[end..] == old(dest[end..])
  {
    ghost var was := dest[..];
    if srcinc == destinc {
      MulMonotonic(0, height - 1, srcinc);
      assert srcinc * (height - 1) == (height - 1) * srcinc;
      CopyBytes(src, dest, srcinc * (height - 1) + srclen);
      forall r: nat | r < height
        ensures RowIsAt(NoSwap, half, srclen, height, src[..], srcinc, was, dest[..], destinc, w, r)
      {
        CopiedRow(half, srclen, height, src[..], srcinc, was, dest[..], w, r);
      }
    } else {
      SwapRows(NoSwap, src, dest, srclen, srcinc, destinc, height, half, w, end);
      forall r: nat | r < height
        ensures RowIsAt(NoSwap, half, srclen, height, src[..], srcinc, was, dest[..], destinc, w, r)
      {
        DoneIsLeft(NoSwap, half, srclen, height, src[..], srcinc, was, dest[..], destinc, w, r);
      }
    }
  }

  lemma CopiedRow(half: Order, srclen: nat, height: nat, src: seq<Byte>, inc: nat, was: seq<Byte>, now: seq<Byte>, w: nat, r: nat)
    requires r < height && srclen <= w && (height > 1 ==> w <= inc) && |now| == |was|
    requires var n := (height - 1) * inc + srclen;
      0 <= n <= |src| && n <= |now| && now == src[..n] + was[n..]
    ensures RowIsAt(NoSwap, half, srclen, height, src, inc, was, now, inc, w, r)
  {
    var n, d, last := (height - 1) * inc + srclen, r * inc, r + 1 == height;
    MulMonotonic(0, r, inc);
    if last {
      assert d + srclen == n;
      CopiedLast(half, srclen, src, d, was, now, w);
    } else {
      MulMonotonic(r + 1, height - 1, inc);
      MulDistributes(r, 1, inc);
      assert d + w <= n;
      CopiedBytes(src, d, now, w, n);
    }
  }

  lemma CopiedBytes(src: seq<Byte>, d: nat, now: seq<Byte>, w: nat, n: nat)
    requires d + w <= n <= |src| && n <= |now| && now[..n] == src[..n]
    ensures forall i: nat :: i < w ==> now[d + i] == Value(NoSwap, src, d, i)
  {
    forall i: nat | i < w
      ensures now[d + i] == Value(NoSwap, src, d, i)
    {
      FlipNone(i);
      assert now[d + i] == now[..n][d + i] == src[..n][d + i];
    }
  }

  lemma CopiedLast(half: Order, srclen: nat, src: seq<Byte>, d: nat, was: seq<Byte>, now: seq<Byte>, w: nat)
    requires d + srclen <= |src| && d + srclen <= |now| == |was| && now == src[..d + srclen] + was[d + srclen..]
    ensures RowIs(NoSwap, half, srclen, true, false, src, d, was, now, d, w)
  {
    var n := d + srclen;
    assert now[..n] == src[..n];
    CopiedBytes(src, d, now, srclen, n);
    Units(NoSwap, srclen, true);
    forall i: nat | i < w && d + i < |now| && !Assigned(NoSwap, half, Whole(NoSwap, srclen, true), Rest(NoSwap, srclen, true), i)
      ensures now[d + i] == was[d + i]
    {
    }
  }

  /** The call through SwapFunction: every scanline on which the routine is complete is converted, and so are those that are
      copied together. */
  method Convert(a: ScanOrder, b: ScanOrder, src: array<Byte>, dest: array<Byte>, srclen: nat, srcinc: nat, destinc: nat,
                 height: nat, ghost end: nat)
    requires a.Valid() && b.Valid() && src != dest && height >= 1
    requires height > 1 ==> Flips(srclen, Twist(b)) <= destinc
    requires Room(SwapFunction(a, b), PassedHalfOrder(a, b), srclen, height, srcinc, src.Length, destinc, end) && end <= dest.Length
    modifies dest
    ensures height == 1 || Rounded(SwapFunction(a, b), srclen) <= destinc ==> forall r: nat :: r < height ==>
              RowIsAt(SwapFunction(a, b), PassedHalfOrder(a, b), srclen, height, src[..], srcinc, old(dest[..]), dest[..], destinc,
                      Flips(srclen, Twist(b)), r)
    ensures forall r: nat :: r < height && Done(a, b, srclen, srcinc, destinc, r + 1 == height) ==>
              RowConverted(a, b, srclen, src[..], srcinc, dest[..], destinc, r)
    ensures dest[end..] == old(dest[end..])
  {
    var k, half := SwapFunction(a, b), PassedHalfOrder(a, b);
    SwapFunctionIsRight(a, b);
    ghost var w, was := Flips(srclen, Twist(b)), dest[..];
    if k == NoSwap {
      CopyRows(src, dest, srclen, srcinc, destinc, height, half, w, end);
    } else {
      SwapRows(k, src, dest, srclen, srcinc, destinc, height, half, w, end);
    }
    forall r: nat | r < height && Done(a, b, srclen, srcinc, destinc, r + 1 == height)
      ensures RowConverted(a, b, srclen, src[..], srcinc, dest[..], destinc, r)
    {
      if k == NoSwap {
        RowIsConverted(a, b, srclen, height, src[..], srcinc, was, dest[..], destinc, r);
      } else {
        DoneIsConverted(a, b, srclen, srcinc, destinc, height, src[..], dest[..], w, r);
      }
    }
    if k != NoSwap && Apart(k, srclen, height, destinc) {
      forall r: nat | r < height
        ensures RowIsAt(k, half, srclen, height, src[..], srcinc, was, dest[..], destinc, w, r)
      {
        DoneIsLeft(k, half, srclen, height, src[..], srcinc, was, dest[..], destinc, w, r);
      }
    }
  }

  lemma DoneIsConverted(a: ScanOrder, b: ScanOrder, srclen: nat, srcinc: nat, destinc: nat, height: nat,
                        src: seq<Byte>, now: seq<Byte>, w: nat, r: nat)
    requires a.Valid() && b.Valid() && r < height && Complete(Twist(a), Twist(b), srclen, r + 1 == height)
    requires RowDone(SwapFunction(a, b), PassedHalfOrder(a, b), srclen, height, src, srcinc, now, destinc, w, r)
    requires Flips(srclen, Twist(b)) <= w
    ensures RowConverted(a, b, srclen, src, srcinc, now, destinc, r)
  {
    MulMonotonic(0, r, srcinc);
    MulMonotonic(0, r, destinc);
    SwapFunctionIsRight(a, b);
    LineOf(a, b, SwapFunction(a, b), PassedHalfOrder(a, b), srclen, r + 1 == height, src, r * srcinc, now, r * destinc, w);
  }

  // ---------- which scanlines of a call are converted ----------

  /** The routine is complete on the scanline, or copies it together with others. */
  predicate Done(a: ScanOrder, b: ScanOrder, srclen: nat, srcinc: nat, destinc: nat, last: bool)
    requires a.Valid() && b.Valid()
  {
    Complete(Twist(a), Twist(b), srclen, last) || Together(SwapFunction(a, b), srcinc, destinc, last)
  }

  /** Whatever the source, and whatever the destination held before. */
  ghost predicate AlwaysConvertedAt(a: ScanOrder, b: ScanOrder, srclen: nat, height: nat, srcinc: nat, destinc: nat, r: nat)
    requires a.Valid() && b.Valid()
  {
    forall src: seq<Byte>, was: seq<Byte>, now: seq<Byte> ::
      RowIsAt(SwapFunction(a, b), PassedHalfOrder(a, b), srclen, height, src, srcinc, was, now, destinc, Flips(srclen, Twist(b)), r) ==>
        RowConverted(a, b, srclen, src, srcinc, now, destinc, r)
  }

  lemma RowIsConverted(a: ScanOrder, b: ScanOrder, srclen: nat, height: nat, src: seq<Byte>, srcinc: nat, was: seq<Byte>, now: seq<Byte>,
                       destinc: nat, r: nat)
    requires a.Valid() && b.Valid() && r < height && Done(a, b, srclen, srcinc, destinc, r + 1 == height)
    requires RowIsAt(SwapFunction(a, b), PassedHalfOrder(a, b), srclen, height, src, srcinc, was, now, destinc, Flips(srclen, Twist(b)), r)
    ensures RowConverted(a, b, srclen, src, srcinc, now, destinc, r)
  {
    var k, last := SwapFunction(a, b), r + 1 == height;
    MulMonotonic(0, r, srcinc);
    MulMonotonic(0, r, destinc);
    SwapFunctionIsRight(a, b);
    if Together(k, srcinc, destinc, last) {
      TogetherConverted(a, b, srclen, src, r * srcinc, now, r * destinc, Flips(srclen, Twist(b)));
    } else {
      LineOf(a, b, k, PassedHalfOrder(a, b), srclen, last, src, r * srcinc, now, r * destinc, Flips(srclen, Twist(b)));
    }
  }

  lemma TogetherConverted(a: ScanOrder, b: ScanOrder, srclen: nat, src: seq<Byte>, s: nat, now: seq<Byte>, d: nat, w: nat)
    requires a.Valid() && b.Valid() && a.bitOrder == b.bitOrder && Both(Twist(a), Twist(b)) == 0 && w == Flips(srclen, Twist(b))
    requires d + w <= |now| && forall i: nat :: i < w ==> now[d + i] == Value(NoSwap, src, s, i)
    ensures LineConverted(a, b, srclen, src, s, now, d)
  {
    forall m: nat | m < srclen
      ensures ByteMoved(a, b, NoSwap, src, s, now, d, m)
    {
      FlipInside(m, Twist(b), srclen);
      ByteConverted(NoSwap, Twist(a), Twist(b), src, s, m);
    }
    LineOfBytes(a, b, NoSwap, srclen, src, s, now, d);
  }

  /** A call always converts a scanline exactly if the routine is complete on it or copies it together with others. On all
      other scanlines ones over zeros lose a bit. */
  lemma ConvertedAtIff(a: ScanOrder, b: ScanOrder, srclen: nat, height: nat, srcinc: nat, destinc: nat, r: nat)
    requires a.Valid() && b.Valid() && r < height
    ensures Done(a, b, srclen, srcinc, destinc, r + 1 == height) <==> AlwaysConvertedAt(a, b, srclen, height, srcinc, destinc, r)
  {
    if Done(a, b, srclen, srcinc, destinc, r + 1 == height) {
      forall src: seq<Byte>, was: seq<Byte>, now: seq<Byte> |
        RowIsAt(SwapFunction(a, b), PassedHalfOrder(a, b), srclen, height, src, srcinc, was, now, destinc, Flips(srclen, Twist(b)), r)
        ensures RowConverted(a, b, srclen, src, srcinc, now, destinc, r)
      {
        RowIsConverted(a, b, srclen, height, src, srcinc, was, now, destinc, r);
      }
    } else {
      var k, half, last, w := SwapFunction(a, b), PassedHalfOrder(a, b), r + 1 == height, Flips(srclen, Twist(b));
      MulMonotonic(0, r, srcinc);
      MulMonotonic(0, r, destinc);
      var size: nat := r * srcinc + r * destinc + srclen + 4;
      var now := OnesAt(k, half, srclen, last, r * srcinc, r * destinc, size);
      OnesLeft(k, half, srclen, last, r * srcinc, r * destinc, size, w);
      assert RowIsAt(k, half, srclen, height, Ones(size), srcinc, NoBits(size), now, destinc, w, r);
      OnesLost(a, b, srclen, height, srcinc, destinc, r, size, now);
    }
  }

  function NoBits(n: nat): (r: seq<Byte>)
    ensures |r| == n
  {
    seq(n, i => ZERO)
  }

  /** Zeros over which a scanline of ones is converted, from byte d on. */
  function OnesAt(k: Swap, half: Order, srclen: nat, last: bool, s: nat, d: nat, size: nat): (r: seq<Byte>)
    ensures |r| == size
  {
    seq(size, j requires j >= 0 => OnesByte(k, half, srclen, last, s, d, size, j))
  }

  function OnesByte(k: Swap, half: Order, srclen: nat, last: bool, s: nat, d: nat, size: nat, j: nat): Byte {
    if j >= d && Assigned(k, half, Whole(k, srclen, last), Rest(k, srclen, last), j - d) then Value(k, Ones(size), s, j - d) else ZERO
  }

  lemma OnesLeft(k: Swap, half: Order, srclen: nat, last: bool, s: nat, d: nat, size: nat, w: nat)
    requires d + w <= size
    ensures RowIs(k, half, srclen, last, false, Ones(size), s, NoBits(size), OnesAt(k, half, srclen, last, s, d, size), d, w)
  {
    var whole, t, now := Whole(k, srclen, last), Rest(k, srclen, last), OnesAt(k, half, srclen, last, s, d, size);
    forall i: nat | i < w && Assigned(k, half, whole, t, i)
      ensures d + i < |now| && now[d + i] == Value(k, Ones(size), s, i)
    {
      assert now[d + i] == OnesByte(k, half, srclen, last, s, d, size, d + i);
    }
    forall i: nat | i < w && d + i < |now| && !Assigned(k, half, whole, t, i)
      ensures now[d + i] == NoBits(size)[d + i]
    {
      assert now[d + i] == OnesByte(k, half, srclen, last, s, d, size, d + i);
    }
  }

  /** Ones over zeros, wherever a scanline is not converted: a bit is lost in whatever the call leaves. */
  lemma OnesLost(a: ScanOrder, b: ScanOrder, srclen: nat, height: nat, srcinc: nat, destinc: nat, r: nat, size: nat, now: seq<Byte>)
    requires a.Valid() && b.Valid() && r < height && !Done(a, b, srclen, srcinc, destinc, r + 1 == height)
    requires r * srcinc + srclen + 4 <= size && r * destinc + srclen + 4 <= size
    requires RowIsAt(SwapFunction(a, b), PassedHalfOrder(a, b), srclen, height, Ones(size), srcinc, NoBits(size), now, destinc,
                     Flips(srclen, Twist(b)), r)
    ensures !RowConverted(a, b, srclen, Ones(size), srcinc, now, destinc, r)
  {
    var k, half, last, x, y := SwapFunction(a, b), PassedHalfOrder(a, b), r + 1 == height, Twist(a), Twist(b);
    MulMonotonic(0, r, srcinc);
    MulMonotonic(0, r, destinc);
    SwapFunctionIsRight(a, b);
    var m := IncompleteMissed(k, half, x, y, srclen, last);
    FlipInside(m, x, srclen);
    FlipInside(m, y, srclen);
    assert !Assigned(k, half, Whole(k, srclen, last), Rest(k, srclen, last), Flip(m, y));
    BitLostAt(a, b, Ones(size), r * srcinc, now, r * destinc, m, 8 * m);
    LineLost(a, b, srclen, Ones(size), r * srcinc, now, r * destinc, 8 * m);
  }

  lemma LineLost(a: ScanOrder, b: ScanOrder, srclen: nat, src: seq<Byte>, s: nat, now: seq<Byte>, d: nat, n: nat)
    requires n < 8 * srclen && !BitConverted(a, b, src, s, now, d, n)
    ensures !LineConverted(a, b, srclen, src, s, now, d)
  {
  }

  /** A byte of zeros where the destination wants a byte that is not zero. */
  lemma BitLostAt(a: ScanOrder, b: ScanOrder, src: seq<Byte>, s: nat, now: seq<Byte>, d: nat, m: nat, n: nat)
    requires a.Valid() && b.Valid() && s + Flip(m, Twist(a)) < |src| && d + Flip(m, Twist(b)) < |now|
    requires n == 8 * m && now[d + Flip(m, Twist(b))] == ZERO && src[s + Flip(m, Twist(a))] == FULL
    ensures !BitConverted(a, b, src, s, now, d, n)
  {
    var from := FirstOfByte(a, m, n);
    var to := FirstOfByte(b, m, n);
    BitOfFull(src, s, from);
    BitOfZero(now, d, to);
    LostAt(a, b, src, s, now, d, n, from, to);
  }

  /** Where the first bit of a byte of the scanline is. */
  lemma FirstOfByte(a: ScanOrder, m: nat, n: nat) returns (at: Spot)
    requires a.Valid() && n == 8 * m
    ensures ScanSpot(a, n) == at && at.byte == Flip(m, Twist(a)) && 0 <= at.bit < 8
  {
    ScanSpotTwist(a, n);
    assert n / 8 == m && n % 8 == 0;
    at := TwistedSpot(a, m, 0);
  }

  lemma BitOfFull(src: seq<Byte>, s: nat, from: Spot)
    requires 0 <= s + from.byte < |src| && src[s + from.byte] == FULL && 0 <= from.bit < 8
    ensures SpotBit(src, Shifted(s, from))
  {
  }

  lemma BitOfZero(now: seq<Byte>, d: nat, to: Spot)
    requires 0 <= d + to.byte < |now| && now[d + to.byte] == ZERO
    ensures !SpotBit(now, Shifted(d, to))
  {
  }

  lemma LostAt(a: ScanOrder, b: ScanOrder, src: seq<Byte>, s: nat, now: seq<Byte>, d: nat, n: nat, from: Spot, to: Spot)
    requires ScanSpot(a, n) == from && ScanSpot(b, n) == to
    requires SpotBit(src, Shifted(s, from)) && !SpotBit(now, Shifted(d, to))
    ensures !BitConverted(a, b, src, s, now, d, n)
  {
  }

  /** Two scanlines of one byte in units of 16 bits, four bytes apart, between equal orders: the first is converted, the
      last is not. */
  lemma FirstOfTwoCopied()
    ensures var a := ScanOrder(16, LSBFirst, MSBFirst);
      AlwaysConvertedAt(a, a, 1, 2, 4, 4, 0) && !AlwaysConvertedAt(a, a, 1, 2, 4, 4, 1)
  {
    FirstCopied(ScanOrder(16, LSBFirst, MSBFirst));
    LastNotCopied(ScanOrder(16, LSBFirst, MSBFirst));
  }

  lemma FirstCopied(a: ScanOrder)
    requires a == ScanOrder(16, LSBFirst, MSBFirst)
    ensures AlwaysConvertedAt(a, a, 1, 2, 4, 4, 0)
  {
    ConvertedAtIff(a, a, 1, 2, 4, 4, 0);
  }

  lemma LastNotCopied(a: ScanOrder)
    requires a == ScanOrder(16, LSBFirst, MSBFirst)
    ensures !AlwaysConvertedAt(a, a, 1, 2, 4, 4, 1)
  {
    ConvertedAtIff(a, a, 1, 2, 4, 4, 1);
  }

  // ---------- there and back ----------

  lemma WholeUnits(n: nat, k: Swap, x: nat, last: bool)
    requires n % 4 == 0 && x in {0, 1, 3}
    ensures Rounded(k, n) == n && Whole(k, n, last) == n && Rest(k, n, last) == 0 && Flips(n, x) == n
    ensures n % 2 == 0
  {
    HalfOfFours(n);
    var q := n / 4;
    assert n == 4 * q;
    DivMod(2 * q, 2, 1, n + 1);
    DivMod(q, 4, 3, n + 3);
  }

  lemma RoomForRows(k: Swap, half: Order, n: nat, height: nat, srcinc: nat, size: nat, destinc: nat, end: nat)
    requires n % 4 == 0 && n <= srcinc && n <= destinc && height >= 1 && height * srcinc <= size && height * destinc <= end
    ensures Room(k, half, n, height, srcinc, size, destinc, end)
  {
    WholeUnits(n, k, 0, true);
    MulDistributes(height, 1, srcinc);
    MulDistributes(height, 1, destinc);
    MulDistributes(height, 2, srcinc);
    MulDistributes(height, 2, destinc);
  }

  /** Row r of the one has the bytes of row r of the other. */
  ghost predicate SameRow(src: seq<Byte>, srcinc: nat, back: seq<Byte>, backinc: nat, n: nat, r: nat) {
    && 0 <= r * srcinc && r * srcinc + n <= |src| && 0 <= r * backinc && r * backinc + n <= |back|
    && back[r * backinc..r * backinc + n] == src[r * srcinc..r * srcinc + n]
  }

  /** Scanlines of whole units of 32 bits, converted from one order to another and back by two calls: the bytes are the
      same again. */
  method ConvertBothWays(a: ScanOrder, b: ScanOrder, src: array<Byte>, there: array<Byte>, back: array<Byte>, srclen: nat,
                         srcinc: nat, thereinc: nat, backinc: nat, height: nat)
    requires a.Valid() && b.Valid() && src != there && there != back && src != back && height >= 1
    requires srclen % 4 == 0 && srclen <= srcinc && srclen <= thereinc && srclen <= backinc
    requires height * srcinc <= src.Length && height * thereinc <= there.Length && height * backinc <= back.Length
    modifies there, back
    ensures forall r: nat :: r < height ==> SameRow(src[..], srcinc, back[..], backinc, srclen, r)
  {
    WholeUnits(srclen, NoSwap, Twist(a), true);
    WholeUnits(srclen, NoSwap, Twist(b), true);
    RoomForRows(SwapFunction(a, b), PassedHalfOrder(a, b), srclen, height, srcinc, src.Length, thereinc, there.Length);
    RoomForRows(SwapFunction(b, a), PassedHalfOrder(b, a), srclen, height, thereinc, there.Length, backinc, back.Length);
    Convert(a, b, src, there, srclen, srcinc, thereinc, height, there.Length);
    Convert(b, a, there, back, srclen, thereinc, backinc, height, back.Length);
    forall r: nat | r < height
      ensures SameRow(src[..], srcinc, back[..], backinc, srclen, r)
    {
      RowAgain(a, b, src[..], there[..], back[..], srclen, srcinc, thereinc, backinc, height, r);
    }
  }

  lemma RowAgain(a: ScanOrder, b: ScanOrder, src: seq<Byte>, there: seq<Byte>, back: seq<Byte>, srclen: nat,
                 srcinc: nat, thereinc: nat, backinc: nat, height: nat, r: nat)
    requires a.Valid() && srclen % 4 == 0 && r < height && srclen <= srcinc && srclen <= backinc
    requires height * srcinc <= |src| && height * backinc <= |back|
    requires RowConverted(a, b, srclen, src, srcinc, there, thereinc, r) && RowConverted(b, a, srclen, there, thereinc, back, backinc, r)
    ensures SameRow(src, srcinc, back, backinc, srclen, r)
  {
    MulMonotonic(r + 1, height, srcinc);
    MulMonotonic(r + 1, height, backinc);
    MulDistributes(r, 1, srcinc);
    MulDistributes(r, 1, backinc);
    MulMonotonic(0, r, srcinc);
    MulMonotonic(0, r, thereinc);
    MulMonotonic(0, r, backinc);
    var s: nat, e: nat := r * srcinc, r * backinc;
    ThereAndBack(a, b, srclen, src, s, there, r * thereinc, back, e);
    var x, y := back[e..e + srclen], src[s..s + srclen];
    forall i: nat | i < srclen
      ensures x[i] == y[i]
    {
      SameBytes(a, srclen, src, s, back, e, i);
    }
    assert x == y;
  }
}
