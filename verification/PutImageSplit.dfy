/** PutSubImage: cutting an image into PutImage requests that fit (libX11 PutImage.c). */
module PutImageSplit {
  import opened Arith
  import opened Options

  /** What the splitting depends on: whether pixels are sent as bits (XY format or one bit per
      pixel), the image's x offset and depth, the server's units, and the room in a request. */
  datatype Transfer = Transfer(
    bits: bool, xoffset: nat, depth: nat, bitmapUnit: nat, destBitsPerPixel: nat, destScanlinePad: nat, available: nat)
  {
    ghost predicate Valid() {
      && 0 < depth <= 32
      && bitmapUnit in {8, 16, 32} && destScanlinePad in {8, 16, 32}
      && (!bits ==> destBitsPerPixel in {4, 8, 16, 24, 32})
      && 8 <= available < 0x4_0000
    }
  }

  /** One PutImage request: a rectangle of the image and where it goes. */
  datatype Piece = Piece(reqX: int, reqY: int, x: int, y: int, width: nat, height: nat)

  /** Multiples of a scanline pad of 8, 16 or 32 bits. */
  function RoundUp(n: nat, pad: nat): nat {
    if pad == 8 then (n + 7) / 8 * 8 else if pad == 16 then (n + 15) / 16 * 16 else (n + 31) / 32 * 32
  }

  function RoundDown(n: nat, pad: nat): nat {
    if pad == 8 then n / 8 * 8 else if pad == 16 then n / 16 * 16 else n / 32 * 32
  }

  /** (xoffset + req_xoffset) & (bitmap_unit - 1), for XY format. */
  function LeftPad(t: Transfer, reqX: nat): nat {
    if !t.bits then 0
    else if t.bitmapUnit == 8 then (t.xoffset + reqX) % 8
    else if t.bitmapUnit == 16 then (t.xoffset + reqX) % 16
    else (t.xoffset + reqX) % 32
  }

  function BytesPerRow(t: Transfer, reqX: nat, width: nat): nat {
    if t.bits then (RoundUp(width + LeftPad(t, reqX), t.destScanlinePad) / 8) * t.depth
    else RoundUp(width * t.destBitsPerPixel, t.destScanlinePad) / 8
  }

  /** The bits a row of bits needs before its first pixel, so that it starts at a unit as in the image; other pixels
      need none. */
  ghost predicate IsLeftPad(t: Transfer, reqX: nat, pad: nat) {
    if !t.bits then pad == 0
    else t.bitmapUnit in {8, 16, 32} && pad < t.bitmapUnit && (t.xoffset + reqX - pad) % t.bitmapUnit == 0
  }

  /** b bytes are the fewest for the pad and the pixels of a row of bits. */
  ghost predicate HoldsRow(t: Transfer, reqX: nat, width: nat, pad: nat, b: nat) {
    IsLeftPad(t, reqX, pad) && Fewest(pad + width, t.destScanlinePad, b)
  }

  /** A row from column reqX takes m bytes: for bits, the fewest that hold the pad and the pixels, for every plane;
      otherwise the fewest that hold the pixels. */
  ghost predicate RowTakes(t: Transfer, reqX: nat, width: nat, m: nat) {
    if t.bits then exists pad: nat, b: nat :: HoldsRow(t, reqX, width, pad, b) && m == b * t.depth
    else Fewest(width * t.destBitsPerPixel, t.destScanlinePad, m)
  }

  /** The width PutSubImage cuts off a scanline that does not fit. */
  function SubImageWidth(t: Transfer, reqX: nat): int {
    RoundDown(t.available * 8, t.destScanlinePad) - LeftPad(t, reqX)
  }

  function SubImageHeight(available: nat, bytesPerRow: nat): nat
    requires bytesPerRow > 0
  {
    if available / bytesPerRow == 0 then 1 else available / bytesPerRow
  }

  /** BytesPerRow * req_height, an unsigned int of 32 bits. */
  function Bytes(t: Transfer, reqX: nat, width: nat, height: nat): nat { Unsigned(BytesPerRow(t, reqX, width) * height) }

  /** PutSubImage with a bound on the depth of its recursion: None when the bound is too small. */
  function Split(t: Transfer, fuel: nat, reqX: nat, reqY: int, x: int, y: int, width: nat, height: nat): Option<seq<Piece>> {
    if width == 0 || height == 0 then Some([])
    else if fuel == 0 then None
    else if Bytes(t, reqX, width, height) <= t.available then
      Some([Piece(reqX, reqY, x, y, width, height)])
    else if height > 1 then
      if BytesPerRow(t, reqX, width) == 0 then None
      else
        var h := SubImageHeight(t.available, BytesPerRow(t, reqX, width));
        if h > height then None
        else Both(Split(t, fuel - 1, reqX, reqY, x, y, width, h),
                  Split(t, fuel - 1, reqX, reqY + h, x, y + h, width, height - h))
    else
      var w := SubImageWidth(t, reqX);
      if w < 0 then None
      else if Split(t, fuel - 1, reqX, reqY, x, y, w, 1) == None || w > width then None
      else Both(Split(t, fuel - 1, reqX, reqY, x, y, w, 1),
                Split(t, fuel - 1, reqX + w, reqY, x + w, y, width - w, 1))
  }

  function Both(a: Option<seq<Piece>>, b: Option<seq<Piece>>): Option<seq<Piece>> {
    if a.Some? && b.Some? then Some(a.value + b.value) else None
  }

  /** A scanline fits, or it is a row of bits of one plane. */
  predicate Splittable(t: Transfer, reqX: nat, width: nat, height: nat) {
    width == 0 || height == 0 || BytesPerRow(t, reqX, width) <= t.available || (t.bits && t.depth == 1)
  }

  // ---------- arithmetic of the cuts ----------

  lemma RoundFacts(n: nat, pad: nat)
    requires pad in {8, 16, 32}
    ensures n <= RoundUp(n, pad) < n + pad
    ensures n - pad < RoundDown(n, pad) <= n
    ensures RoundDown(n, pad) == RoundDown(n, pad) / 8 * 8
  {
    if pad == 8 {
      DivMod(n / 8, 8, 0, n / 8 * 8);
    } else if pad == 16 {
      DivMod(2 * (n / 16), 8, 0, n / 16 * 16);
    } else {
      DivMod(4 * (n / 32), 8, 0, n / 32 * 32);
    }
  }

  lemma RoundUpFewest(n: nat, pad: nat)
    requires pad in {8, 16, 32}
    ensures Fewest(n, pad, RoundUp(n, pad) / 8)
  {
    if pad == 8 {
      DivMod((n + 7) / 8, 8, 0, RoundUp(n, pad));
    } else if pad == 16 {
      DivMod(2 * ((n + 15) / 16), 8, 0, RoundUp(n, pad));
      DivMod((n + 15) / 16, 16, 0, RoundUp(n, pad));
    } else {
      DivMod(4 * ((n + 31) / 32), 8, 0, RoundUp(n, pad));
      DivMod((n + 31) / 32, 32, 0, RoundUp(n, pad));
    }
  }

  lemma RemainderIs(n: nat, unit: nat, r: nat)
    requires unit > 0
    ensures r < unit && (n - r) % unit == 0 <==> r == n % unit
  {
    if r < unit && (n - r) % unit == 0 {
      DivMod((n - r) / unit, unit, r, n);
    }
    DivMod(n / unit, unit, 0, n - n % unit);
  }

  /** The left pad is what its meaning says, and nothing else is. */
  lemma LeftPadIs(t: Transfer, reqX: nat, pad: nat)
    requires t.Valid()
    ensures IsLeftPad(t, reqX, pad) <==> pad == LeftPad(t, reqX)
  {
    RemainderIs(t.xoffset + reqX, t.bitmapUnit, pad);
  }

  /** BytesPerRow is the size of the data of a row. */
  lemma RowTakesIs(t: Transfer, reqX: nat, width: nat, m: nat)
    requires t.Valid()
    ensures RowTakes(t, reqX, width, m) <==> m == BytesPerRow(t, reqX, width)
  {
    if t.bits {
      var n := LeftPad(t, reqX) + width;
      RoundUpFewest(n, t.destScanlinePad);
      LeftPadIs(t, reqX, LeftPad(t, reqX));
      assert HoldsRow(t, reqX, width, LeftPad(t, reqX), RoundUp(n, t.destScanlinePad) / 8);
      if RowTakes(t, reqX, width, m) {
        var pad: nat, b: nat :| HoldsRow(t, reqX, width, pad, b) && m == b * t.depth;
        LeftPadIs(t, reqX, pad);
        MultiplesApart(b, RoundUp(n, t.destScanlinePad) / 8, n, t.destScanlinePad);
      }
    } else {
      RoundUpFewest(width * t.destBitsPerPixel, t.destScanlinePad);
      if RowTakes(t, reqX, width, m) {
        MultiplesApart(m, BytesPerRow(t, reqX, width), width * t.destBitsPerPixel, t.destScanlinePad);
      }
    }
  }

  lemma RoundTwice(n: nat, pad: nat)
    requires pad in {8, 16, 32}
    ensures RoundUp(RoundDown(n, pad), pad) == RoundDown(n, pad)
  {
    if pad == 8 {
      assert (n / 8 * 8 + 7) / 8 == n / 8;
    } else if pad == 16 {
      assert (n / 16 * 16 + 15) / 16 == n / 16;
    } else {
      assert (n / 32 * 32 + 31) / 32 == n / 32;
    }
  }

  /** A row of bits longer than the room exceeds the largest multiple of the pad that fits. */
  lemma RowExceeds(room: nat, n: nat, pad: nat)
    requires pad in {8, 16, 32} && RoundUp(n, pad) > room
    ensures n > RoundDown(room, pad)
  {
    RoundTwice(room, pad);
    if n <= RoundDown(room, pad) { RoundUpMonotonic(n, RoundDown(room, pad), pad); RoundFacts(room, pad); }
  }

  lemma RoundUpMonotonic(a: nat, b: nat, pad: nat)
    requires a <= b
    ensures RoundUp(a, pad) <= RoundUp(b, pad)
  {
  }

  lemma RoundTooMuch(n: nat, pad: nat)
    requires pad in {8, 16, 32} && n % 8 == 0
    ensures RoundUp(RoundDown(n, pad) + 1, pad) / 8 > n / 8
  {
    var up := RoundUp(RoundDown(n, pad) + 1, pad);
    if pad == 8 {
      DivMod(n / 8 + 1, 8, 0, up);
    } else if pad == 16 {
      assert (n / 16 * 16 + 1 + 15) / 16 == n / 16 + 1;
      DivMod(2 * (n / 16 + 1), 8, 0, up);
    } else {
      assert (n / 32 * 32 + 1 + 31) / 32 == n / 32 + 1;
      DivMod(4 * (n / 32 + 1), 8, 0, up);
    }
  }

  /** The height cut keeps every part below the whole and, when a scanline fits, within the room; one more scanline
      would be too many. */
  lemma HeightCut(available: nat, bytesPerRow: nat, height: nat)
    requires bytesPerRow > 0 && bytesPerRow * height > available && height > 1
    ensures 0 < SubImageHeight(available, bytesPerRow) < height
    ensures bytesPerRow <= available ==> bytesPerRow * SubImageHeight(available, bytesPerRow) <= available
    ensures bytesPerRow * (SubImageHeight(available, bytesPerRow) + 1) > available
  {
    var q := available / bytesPerRow;
    assert q * bytesPerRow <= available;
    if q >= height { MulMonotonic(height, q, bytesPerRow); }
    if q == 0 { assert available < bytesPerRow; }
  }

  /** The width cut of a one-plane row of bits: positive, smaller than the row, and the most that fits. */
  lemma WidthCut(t: Transfer, reqX: nat, width: nat)
    requires t.Valid() && t.bits && t.depth == 1 && BytesPerRow(t, reqX, width) > t.available
    ensures 0 < SubImageWidth(t, reqX) < width
    ensures BytesPerRow(t, reqX, SubImageWidth(t, reqX)) <= t.available
    ensures BytesPerRow(t, reqX, SubImageWidth(t, reqX) + 1) > t.available
  {
    RoundTooMuch(t.available * 8, t.destScanlinePad);
    RoundFacts(t.available * 8, t.destScanlinePad);
    RoundTwice(t.available * 8, t.destScanlinePad);
    RowExceeds(t.available * 8, width + LeftPad(t, reqX), t.destScanlinePad);
  }

  /** The largest multiple of the pad that fits is more than half of the room. */
  lemma FitIsLarge(available: nat, pad: nat)
    requires pad in {8, 16, 32} && available >= 8
    ensures var fit := RoundDown(available * 8, pad);
      32 < fit && 4 * available < fit && fit == fit / 8 * 8 && RoundUp(fit, pad) == fit
  {
    RoundFacts(available * 8, pad);
    RoundTwice(available * 8, pad);
  }

  lemma PlanesExceed(bytes: nat, depth: nat, available: nat)
    requires depth > 1 && available < 2 * bytes
    ensures bytes * depth > available
  {
    MulMonotonic(2, depth, bytes);
  }

  lemma CutRow(t: Transfer, reqX: nat, fit: nat)
    requires t.Valid() && t.bits && fit == RoundDown(t.available * 8, t.destScanlinePad) && RoundUp(fit, t.destScanlinePad) == fit
    requires fit >= LeftPad(t, reqX)
    ensures SubImageWidth(t, reqX) == fit - LeftPad(t, reqX)
    ensures BytesPerRow(t, reqX, SubImageWidth(t, reqX)) == fit / 8 * t.depth
  {
  }

  lemma SeveralPlanes(t: Transfer, reqX: nat)
    requires t.Valid() && t.bits && t.depth > 1
    ensures SubImageWidth(t, reqX) > 0
    ensures BytesPerRow(t, reqX, SubImageWidth(t, reqX)) > t.available
  {
    FitIsLarge(t.available, t.destScanlinePad);
    var fit := RoundDown(t.available * 8, t.destScanlinePad);
    CutRow(t, reqX, fit);
    PlanesExceed(fit / 8, t.depth, t.available);
  }

  lemma SeveralBits(t: Transfer, reqX: nat)
    requires t.Valid() && !t.bits
    ensures SubImageWidth(t, reqX) > 0
    ensures BytesPerRow(t, reqX, SubImageWidth(t, reqX)) > t.available
  {
    FitIsLarge(t.available, t.destScanlinePad);
    var fit := RoundDown(t.available * 8, t.destScanlinePad);
    MulMonotonic(4, t.destBitsPerPixel, fit);
    ManyBits(fit * t.destBitsPerPixel, fit, t.available, t.destScanlinePad);
  }

  /** The width cut of any other row is still too long: several planes, or several bits a pixel. */
  lemma WidthCutTooLong(t: Transfer, reqX: nat)
    requires t.Valid() && !(t.bits && t.depth == 1)
    ensures SubImageWidth(t, reqX) > 0
    ensures BytesPerRow(t, reqX, SubImageWidth(t, reqX)) > t.available
  {
    if t.bits { SeveralPlanes(t, reqX); } else { SeveralBits(t, reqX); }
  }

  lemma ManyBits(bits: nat, fit: nat, available: nat, pad: nat)
    requires pad in {8, 16, 32} && bits >= 4 * fit && 2 * fit > 8 * available && available > 0
    ensures RoundUp(bits, pad) / 8 > available
  {
    RoundFacts(bits, pad);
    assert bits >= 16 * available;
  }

  // ---------- termination ----------

  /** The recursion ends exactly for these images: a scanline fits, it is a row of bits of one plane, or the whole
      seems to fit. */
  predicate Ending(t: Transfer, reqX: nat, width: nat, height: nat) {
    Splittable(t, reqX, width, height) || Bytes(t, reqX, width, height) <= t.available
  }

  lemma CutRowBytes(t: Transfer, reqX: nat)
    requires t.Valid() && SubImageWidth(t, reqX) > 0
    ensures BytesPerRow(t, reqX, SubImageWidth(t, reqX)) < 0x1_0000_0000
  {
    var fit, w := RoundDown(t.available * 8, t.destScanlinePad), SubImageWidth(t, reqX);
    RoundFacts(t.available * 8, t.destScanlinePad);
    if t.bits {
      RoundFacts(w + LeftPad(t, reqX), t.destScanlinePad);
      MulMonotonic(RoundUp(w + LeftPad(t, reqX), t.destScanlinePad) / 8, 0x8_0000, t.depth);
    } else {
      RoundFacts(w * t.destBitsPerPixel, t.destScanlinePad);
      MulMonotonic(w, 0x20_0000, t.destBitsPerPixel);
    }
  }

  /** Whenever a scanline does not fit and is not a one-plane row of bits, the recursion never ends:
      cutting the width leaves a scanline of the same length again. */
  lemma {:induction false} NeverEnds(t: Transfer, fuel: nat, reqX: nat, reqY: int, x: int, y: int, width: nat, height: nat)
    requires t.Valid() && !Ending(t, reqX, width, height) && BytesPerRow(t, reqX, width) < 0x1_0000_0000
    ensures Split(t, fuel, reqX, reqY, x, y, width, height) == None
    decreases fuel
  {
    if fuel > 0 {
      var row := BytesPerRow(t, reqX, width);
      UnsignedIs(row * height);
      UnsignedIs(row * 1);
      if height > 1 {
        HeightCut(t.available, row, height);
        assert t.available / row == 0 by { DivMod(0, row, t.available, t.available); }
        NeverEnds(t, fuel - 1, reqX, reqY, x, y, width, 1);
      } else {
        WidthCutTooLong(t, reqX);
        CutRowBytes(t, reqX);
        UnsignedIs(BytesPerRow(t, reqX, SubImageWidth(t, reqX)) * 1);
        NeverEnds(t, fuel - 1, reqX, reqY, x, y, SubImageWidth(t, reqX), 1);
      }
    }
  }

  /** Otherwise a depth of width + height is enough. */
  lemma {:induction false} Ends(t: Transfer, fuel: nat, reqX: nat, reqY: int, x: int, y: int, width: nat, height: nat)
    requires t.Valid() && Splittable(t, reqX, width, height) && fuel >= width + height
    ensures Split(t, fuel, reqX, reqY, x, y, width, height).Some?
    decreases fuel, 1
  {
    var row := BytesPerRow(t, reqX, width);
    UnsignedIs(row * height);
    if width > 0 && height > 0 && Bytes(t, reqX, width, height) > t.available {
      if height > 1 {
        assert row > 0;
        HeightCut(t.available, row, height);
        EndsInHeights(t, fuel, reqX, reqY, x, y, width, height, SubImageHeight(t.available, row));
      } else {
        WidthCut(t, reqX, width);
        EndsInWidths(t, fuel, reqX, reqY, x, y, width, SubImageWidth(t, reqX));
      }
    }
  }

  lemma EndsInHeights(t: Transfer, fuel: nat, reqX: nat, reqY: int, x: int, y: int, width: nat, height: nat, h: nat)
    requires t.Valid() && width > 0 && height > 1 && Splittable(t, reqX, width, height) && fuel >= width + height && 0 < h < height
    requires BytesPerRow(t, reqX, width) > 0 && h == SubImageHeight(t.available, BytesPerRow(t, reqX, width))
    ensures Split(t, fuel, reqX, reqY, x, y, width, height).Some?
    decreases fuel, 0
  {
    Ends(t, fuel - 1, reqX, reqY, x, y, width, h);
    Ends(t, fuel - 1, reqX, reqY + h, x, y + h, width, height - h);
  }

  lemma EndsInWidths(t: Transfer, fuel: nat, reqX: nat, reqY: int, x: int, y: int, width: nat, w: nat)
    requires t.Valid() && t.bits && t.depth == 1 && 0 < w < width && w == SubImageWidth(t, reqX) && fuel >= width + 1
    ensures Split(t, fuel, reqX, reqY, x, y, width, 1).Some?
    decreases fuel, 0
  {
    Ends(t, fuel - 1, reqX, reqY, x, y, w, 1);
    Ends(t, fuel - 1, reqX + w, reqY, x + w, y, width - w, 1);
  }

  lemma EndsAlways(t: Transfer, fuel: nat, reqX: nat, reqY: int, x: int, y: int, width: nat, height: nat)
    requires t.Valid() && Ending(t, reqX, width, height) && fuel >= width + height
    ensures Split(t, fuel, reqX, reqY, x, y, width, height).Some?
  {
    if Splittable(t, reqX, width, height) { Ends(t, fuel, reqX, reqY, x, y, width, height); }
  }

  /** PutSubImage terminates exactly on these images, if a scanline is no longer than an int can tell. */
  lemma TerminatesIff(t: Transfer, reqX: nat, reqY: int, x: int, y: int, width: nat, height: nat)
    requires t.Valid() && BytesPerRow(t, reqX, width) < 0x1_0000_0000
    ensures (exists fuel: nat :: Split(t, fuel, reqX, reqY, x, y, width, height).Some?) <==> Ending(t, reqX, width, height)
  {
    if Ending(t, reqX, width, height) {
      EndsAlways(t, width + height, reqX, reqY, x, y, width, height);
    } else {
      forall fuel: nat
        ensures Split(t, fuel, reqX, reqY, x, y, width, height) == None
      {
        NeverEnds(t, fuel, reqX, reqY, x, y, width, height);
      }
    }
  }

  /** A bound that is enough stays enough, with the same requests. */
  lemma {:induction false} MoreFuel(t: Transfer, fuel: nat, more: nat, reqX: nat, reqY: int, x: int, y: int, width: nat, height: nat)
    requires fuel <= more && Split(t, fuel, reqX, reqY, x, y, width, height).Some?
    ensures Split(t, more, reqX, reqY, x, y, width, height) == Split(t, fuel, reqX, reqY, x, y, width, height)
    decreases fuel
  {
    var row := BytesPerRow(t, reqX, width);
    if width > 0 && height > 0 && Bytes(t, reqX, width, height) > t.available {
      if height > 1 {
        var h := SubImageHeight(t.available, row);
        MoreFuel(t, fuel - 1, more - 1, reqX, reqY, x, y, width, h);
        MoreFuel(t, fuel - 1, more - 1, reqX, reqY + h, x, y + h, width, height - h);
      } else {
        var w := SubImageWidth(t, reqX);
        MoreFuel(t, fuel - 1, more - 1, reqX, reqY, x, y, w, 1);
        MoreFuel(t, fuel - 1, more - 1, reqX + w, reqY, x + w, y, width - w, 1);
      }
    }
  }

  // ---------- the pieces ----------

  predicate InRect(px: int, py: int, x: int, y: int, width: int, height: int) {
    x <= px < x + width && y <= py < y + height
  }

  predicate Has(p: Piece, px: int, py: int) {
    p.reqX <= px < p.reqX + p.width && p.reqY <= py < p.reqY + p.height
  }

  ghost predicate Covered(ps: seq<Piece>, px: int, py: int) {
    exists k :: 0 <= k < |ps| && Has(ps[k], px, py)
  }

  ghost predicate Disjoint(p: Piece, q: Piece) {
    forall px, py :: !(Has(p, px, py) && Has(q, px, py))
  }

  /** The pieces tile the rectangle: they cover it and nothing else, and no two overlap. */
  ghost predicate Tiles(ps: seq<Piece>, reqX: int, reqY: int, width: nat, height: nat) {
    && (forall px, py :: Covered(ps, px, py) <==> InRect(px, py, reqX, reqY, width, height))
    && (forall i, j :: 0 <= i < j < |ps| ==> Disjoint(ps[i], ps[j]))
  }

  /** Every piece goes where the whole rectangle would put it, and seems to fit in a request. */
  ghost predicate Placed(t: Transfer, ps: seq<Piece>, reqX: int, reqY: int, x: int, y: int) {
    forall k :: 0 <= k < |ps| ==> PlacedPiece(t, ps[k], reqX, reqY, x, y)
  }

  predicate PlacedPiece(t: Transfer, p: Piece, reqX: int, reqY: int, x: int, y: int) {
    && p.reqX >= 0 && p.width > 0 && p.height > 0
    && p.reqX - reqX == p.x - x && p.reqY - reqY == p.y - y
    && Bytes(t, p.reqX, p.width, p.height) <= t.available
  }

  lemma CoveredJoin(a: seq<Piece>, b: seq<Piece>, px: int, py: int)
    ensures Covered(a + b, px, py) <==> Covered(a, px, py) || Covered(b, px, py)
  {
    var ps := a + b;
    if Covered(ps, px, py) {
      var k :| 0 <= k < |ps| && Has(ps[k], px, py);
      if k < |a| { assert Has(a[k], px, py); } else { assert Has(b[k - |a|], px, py); }
    }
    if Covered(a, px, py) {
      var k :| 0 <= k < |a| && Has(a[k], px, py);
      assert Has(ps[k], px, py);
    }
    if Covered(b, px, py) {
      var k :| 0 <= k < |b| && Has(b[k], px, py);
      assert Has(ps[|a| + k], px, py);
    }
  }

  lemma PieceInside(ps: seq<Piece>, k: nat, reqX: int, reqY: int, width: nat, height: nat, px: int, py: int)
    requires Tiles(ps, reqX, reqY, width, height) && k < |ps| && Has(ps[k], px, py)
    ensures InRect(px, py, reqX, reqY, width, height)
  {
    assert Covered(ps, px, py);
  }

  /** Tilings of two rectangles that make up a third without overlap. */
  lemma TilesJoin(a: seq<Piece>, xa: int, ya: int, wa: nat, ha: nat,
                  b: seq<Piece>, xb: int, yb: int, wb: nat, hb: nat,
                  x: int, y: int, width: nat, height: nat)
    requires Tiles(a, xa, ya, wa, ha) && Tiles(b, xb, yb, wb, hb)
    requires forall px, py :: InRect(px, py, x, y, width, height) <==>
                              InRect(px, py, xa, ya, wa, ha) || InRect(px, py, xb, yb, wb, hb)
    requires forall px, py :: !(InRect(px, py, xa, ya, wa, ha) && InRect(px, py, xb, yb, wb, hb))
    ensures Tiles(a + b, x, y, width, height)
  {
    var ps := a + b;
    forall px, py
      ensures Covered(ps, px, py) <==> InRect(px, py, x, y, width, height)
    {
      CoveredJoin(a, b, px, py);
      assert Covered(a, px, py) <==> InRect(px, py, xa, ya, wa, ha);
      assert Covered(b, px, py) <==> InRect(px, py, xb, yb, wb, hb);
    }
    forall i, j | 0 <= i < j < |ps|
      ensures Disjoint(ps[i], ps[j])
    {
      if j < |a| {
        assert Disjoint(a[i], a[j]);
      } else if i >= |a| {
        assert Disjoint(b[i - |a|], b[j - |a|]);
      } else {
        forall px, py
          ensures !(Has(ps[i], px, py) && Has(ps[j], px, py))
        {
          if Has(a[i], px, py) { PieceInside(a, i, xa, ya, wa, ha, px, py); }
          if Has(b[j - |a|], px, py) { PieceInside(b, j - |a|, xb, yb, wb, hb, px, py); }
        }
      }
    }
  }

  lemma OnePieceTiles(p: Piece)
    ensures Tiles([p], p.reqX, p.reqY, p.width, p.height)
  {
    forall px, py
      ensures Covered([p], px, py) <==> InRect(px, py, p.reqX, p.reqY, p.width, p.height)
    {
      if Has(p, px, py) { assert Has([p][0], px, py); }
    }
  }

  /** The parts of a split by height, and by width. */
  lemma SplitByHeight(t: Transfer, fuel: nat, reqX: nat, reqY: int, x: int, y: int, width: nat, height: nat, h: nat)
    requires Split(t, fuel, reqX, reqY, x, y, width, height).Some? && width > 0 && height > 1
    requires Bytes(t, reqX, width, height) > t.available
    requires BytesPerRow(t, reqX, width) > 0 ==> h == SubImageHeight(t.available, BytesPerRow(t, reqX, width))
    ensures fuel > 0 && h <= height
    ensures Split(t, fuel - 1, reqX, reqY, x, y, width, h).Some? && Split(t, fuel - 1, reqX, reqY + h, x, y + h, width, height - h).Some?
    ensures Split(t, fuel, reqX, reqY, x, y, width, height).value ==
      Split(t, fuel - 1, reqX, reqY, x, y, width, h).value + Split(t, fuel - 1, reqX, reqY + h, x, y + h, width, height - h).value
  {
  }

  lemma SplitByWidth(t: Transfer, fuel: nat, reqX: nat, reqY: int, x: int, y: int, width: nat, w: int)
    requires Split(t, fuel, reqX, reqY, x, y, width, 1).Some? && width > 0
    requires Bytes(t, reqX, width, 1) > t.available && w == SubImageWidth(t, reqX)
    ensures fuel > 0 && 0 <= w <= width
    ensures Split(t, fuel - 1, reqX, reqY, x, y, w, 1).Some? && Split(t, fuel - 1, reqX + w, reqY, x + w, y, width - w, 1).Some?
    ensures Split(t, fuel, reqX, reqY, x, y, width, 1).value ==
      Split(t, fuel - 1, reqX, reqY, x, y, w, 1).value + Split(t, fuel - 1, reqX + w, reqY, x + w, y, width - w, 1).value
  {
  }

  /** Whatever is sent tiles the rectangle asked for, in step with the destination. */
  lemma {:induction false} SplitIsTiling(t: Transfer, fuel: nat, reqX: nat, reqY: int, x: int, y: int, width: nat, height: nat)
    requires Split(t, fuel, reqX, reqY, x, y, width, height).Some?
    ensures Tiles(Split(t, fuel, reqX, reqY, x, y, width, height).value, reqX, reqY, width, height)
    ensures Placed(t, Split(t, fuel, reqX, reqY, x, y, width, height).value, reqX, reqY, x, y)
    decreases fuel, 0
  {
    var row := BytesPerRow(t, reqX, width);
    UnsignedIs(row * height);
    if width == 0 || height == 0 {
      assert forall px, py :: !Covered([], px, py);
    } else if Bytes(t, reqX, width, height) <= t.available {
      OnePieceTiles(Piece(reqX, reqY, x, y, width, height));
    } else if height > 1 {
      var h := SubImageHeight(t.available, row);
      SplitByHeight(t, fuel, reqX, reqY, x, y, width, height, h);
      TilingOfHeights(t, fuel - 1, reqX, reqY, x, y, width, height, h);
    } else {
      var w := SubImageWidth(t, reqX);
      SplitByWidth(t, fuel, reqX, reqY, x, y, width, w);
      TilingOfWidths(t, fuel - 1, reqX, reqY, x, y, width, w);
    }
  }

  lemma TilingOfHeights(t: Transfer, fuel: nat, reqX: nat, reqY: int, x: int, y: int, width: nat, height: nat, h: nat)
    requires h <= height && Split(t, fuel, reqX, reqY, x, y, width, h).Some?
    requires Split(t, fuel, reqX, reqY + h, x, y + h, width, height - h).Some?
    ensures var ps := Split(t, fuel, reqX, reqY, x, y, width, h).value + Split(t, fuel, reqX, reqY + h, x, y + h, width, height - h).value;
      Tiles(ps, reqX, reqY, width, height) && Placed(t, ps, reqX, reqY, x, y)
    decreases fuel, 1
  {
    SplitIsTiling(t, fuel, reqX, reqY, x, y, width, h);
    SplitIsTiling(t, fuel, reqX, reqY + h, x, y + h, width, height - h);
    StackedTiles(t, Split(t, fuel, reqX, reqY, x, y, width, h).value,
                 Split(t, fuel, reqX, reqY + h, x, y + h, width, height - h).value, reqX, reqY, x, y, width, height, h);
  }

  lemma TilingOfWidths(t: Transfer, fuel: nat, reqX: nat, reqY: int, x: int, y: int, width: nat, w: nat)
    requires w <= width && Split(t, fuel, reqX, reqY, x, y, w, 1).Some?
    requires Split(t, fuel, reqX + w, reqY, x + w, y, width - w, 1).Some?
    ensures var ps := Split(t, fuel, reqX, reqY, x, y, w, 1).value + Split(t, fuel, reqX + w, reqY, x + w, y, width - w, 1).value;
      Tiles(ps, reqX, reqY, width, 1) && Placed(t, ps, reqX, reqY, x, y)
    decreases fuel, 1
  {
    SplitIsTiling(t, fuel, reqX, reqY, x, y, w, 1);
    SplitIsTiling(t, fuel, reqX + w, reqY, x + w, y, width - w, 1);
    AdjacentTiles(t, Split(t, fuel, reqX, reqY, x, y, w, 1).value,
                  Split(t, fuel, reqX + w, reqY, x + w, y, width - w, 1).value, reqX, reqY, x, y, width, w);
  }

  lemma StackedTiles(t: Transfer, a: seq<Piece>, b: seq<Piece>, reqX: nat, reqY: int, x: int, y: int, width: nat, height: nat, h: nat)
    requires h <= height
    requires Tiles(a, reqX, reqY, width, h) && Placed(t, a, reqX, reqY, x, y)
    requires Tiles(b, reqX, reqY + h, width, height - h) && Placed(t, b, reqX, reqY + h, x, y + h)
    ensures Tiles(a + b, reqX, reqY, width, height) && Placed(t, a + b, reqX, reqY, x, y)
  {
    TilesJoin(a, reqX, reqY, width, h, b, reqX, reqY + h, width, height - h, reqX, reqY, width, height);
    PlacedJoin(t, a, b, reqX, reqY, x, y, 0, h);
  }

  lemma AdjacentTiles(t: Transfer, a: seq<Piece>, b: seq<Piece>, reqX: nat, reqY: int, x: int, y: int, width: nat, w: nat)
    requires w <= width
    requires Tiles(a, reqX, reqY, w, 1) && Placed(t, a, reqX, reqY, x, y)
    requires Tiles(b, reqX + w, reqY, width - w, 1) && Placed(t, b, reqX + w, reqY, x + w, y)
    ensures Tiles(a + b, reqX, reqY, width, 1) && Placed(t, a + b, reqX, reqY, x, y)
  {
    TilesJoin(a, reqX, reqY, w, 1, b, reqX + w, reqY, width - w, 1, reqX, reqY, width, 1);
    PlacedJoin(t, a, b, reqX, reqY, x, y, w, 0);
  }

  lemma PlacedJoin(t: Transfer, a: seq<Piece>, b: seq<Piece>, reqX: int, reqY: int, x: int, y: int, dx: int, dy: int)
    requires Placed(t, a, reqX, reqY, x, y) && Placed(t, b, reqX + dx, reqY + dy, x + dx, y + dy)
    ensures Placed(t, a + b, reqX, reqY, x, y)
  {
    forall k | 0 <= k < |a + b|
      ensures PlacedPiece(t, (a + b)[k], reqX, reqY, x, y)
    {
      if k >= |a| { assert PlacedPiece(t, b[k - |a|], reqX + dx, reqY + dy, x + dx, y + dy); }
    }
  }

  /** A two-plane scanline eight bytes too long for the room: PutSubImage does not terminate on it. */
  lemma TwoPlanesNeverEnd(fuel: nat)
    ensures var t := Transfer(true, 0, 2, 32, 1, 32, 16360);
      t.Valid() && Split(t, fuel, 0, 0, 0, 0, 65441, 1) == None
  {
    var t := Transfer(true, 0, 2, 32, 1, 32, 16360);
    assert BytesPerRow(t, 0, 65441) == 16368;
    NeverEnds(t, fuel, 0, 0, 0, 0, 65441, 1);
  }

  /** The requests for an image. */
  function Pieces(t: Transfer, reqX: nat, reqY: int, x: int, y: int, width: nat, height: nat): seq<Piece>
    requires t.Valid() && Ending(t, reqX, width, height)
  {
    EndsAlways(t, width + height, reqX, reqY, x, y, width, height);
    Split(t, width + height, reqX, reqY, x, y, width, height).value
  }

  lemma BytesOfRows(t: Transfer, reqX: nat, width: nat, height: nat)
    requires Bytes(t, reqX, width, height) > t.available
    ensures BytesPerRow(t, reqX, width) > 0 && BytesPerRow(t, reqX, width) * height > t.available
  {
    UnsignedIs(BytesPerRow(t, reqX, width) * height);
  }

  lemma PiecesOfHeights(t: Transfer, reqX: nat, reqY: int, x: int, y: int, width: nat, height: nat)
    requires t.Valid() && Splittable(t, reqX, width, height) && width > 0
    requires Bytes(t, reqX, width, height) > t.available && height > 1
    ensures BytesPerRow(t, reqX, width) > 0
    ensures var h := SubImageHeight(t.available, BytesPerRow(t, reqX, width));
      0 < h < height && Pieces(t, reqX, reqY, x, y, width, height) ==
        Pieces(t, reqX, reqY, x, y, width, h) + Pieces(t, reqX, reqY + h, x, y + h, width, height - h)
  {
    var row := BytesPerRow(t, reqX, width);
    BytesOfRows(t, reqX, width, height);
    HeightCut(t.available, row, height);
    var h := SubImageHeight(t.available, row);
    Ends(t, width + h, reqX, reqY, x, y, width, h);
    Ends(t, width + (height - h), reqX, reqY + h, x, y + h, width, height - h);
    MoreFuel(t, width + h, width + height - 1, reqX, reqY, x, y, width, h);
    MoreFuel(t, width + (height - h), width + height - 1, reqX, reqY + h, x, y + h, width, height - h);
  }

  /** One unfolding of the width cut. */
  lemma SplitOfWidths(t: Transfer, fuel: nat, reqX: nat, reqY: int, x: int, y: int, width: nat, w: nat)
    requires w == SubImageWidth(t, reqX) && 0 < w < width && Bytes(t, reqX, width, 1) > t.available
    requires Split(t, fuel, reqX, reqY, x, y, w, 1).Some?
    ensures Split(t, fuel + 1, reqX, reqY, x, y, width, 1) ==
            Both(Split(t, fuel, reqX, reqY, x, y, w, 1), Split(t, fuel, reqX + w, reqY, x + w, y, width - w, 1))
  {
  }

  /** The bound does not matter once it is enough. */
  lemma PiecesWithin(t: Transfer, fuel: nat, reqX: nat, reqY: int, x: int, y: int, width: nat, height: nat)
    requires t.Valid() && Splittable(t, reqX, width, height) && fuel >= width + height
    ensures Split(t, fuel, reqX, reqY, x, y, width, height) == Some(Pieces(t, reqX, reqY, x, y, width, height))
  {
    Ends(t, width + height, reqX, reqY, x, y, width, height);
    MoreFuel(t, width + height, fuel, reqX, reqY, x, y, width, height);
  }

  /** The requests for a row too long are those for the two parts the width cut makes. */
  lemma PiecesOfWidths(t: Transfer, reqX: nat, reqY: int, x: int, y: int, width: nat, w: nat)
    requires t.Valid() && t.bits && t.depth == 1 && Bytes(t, reqX, width, 1) > t.available
    requires w == SubImageWidth(t, reqX) && 0 < w < width
    ensures Pieces(t, reqX, reqY, x, y, width, 1) ==
            Pieces(t, reqX, reqY, x, y, w, 1) + Pieces(t, reqX + w, reqY, x + w, y, width - w, 1)
  {
    var rest: nat := width - w;
    var left, right := Pieces(t, reqX, reqY, x, y, w, 1), Pieces(t, reqX + w, reqY, x + w, y, rest, 1);
    assert Split(t, width, reqX, reqY, x, y, w, 1) == Some(left) by { PiecesWithin(t, width, reqX, reqY, x, y, w, 1); }
    assert Split(t, width, reqX + w, reqY, x + w, y, rest, 1) == Some(right) by {
      PiecesWithin(t, width, reqX + w, reqY, x + w, y, rest, 1);
    }
    assert Split(t, width + 1, reqX, reqY, x, y, width, 1) == Some(left + right) by {
      SplitOfWidths(t, width, reqX, reqY, x, y, width, w);
    }
  }

  /** The pieces of an image tile it. */
  lemma PiecesTile(t: Transfer, reqX: nat, reqY: int, x: int, y: int, width: nat, height: nat)
    requires t.Valid() && Ending(t, reqX, width, height)
    ensures Tiles(Pieces(t, reqX, reqY, x, y, width, height), reqX, reqY, width, height)
    ensures Placed(t, Pieces(t, reqX, reqY, x, y, width, height), reqX, reqY, x, y)
  {
    EndsAlways(t, width + height, reqX, reqY, x, y, width, height);
    SplitIsTiling(t, width + height, reqX, reqY, x, y, width, height);
  }

  // ---------- how large the requests are ----------

  /** The data of the request are no more than there is room for. */
  ghost predicate Fits(t: Transfer, p: Piece)
    requires p.reqX >= 0
  {
    exists row: nat :: RowTakes(t, p.reqX, p.width, row) && row * p.height <= t.available
  }

  lemma FitsBytes(t: Transfer, p: Piece)
    requires t.Valid() && p.reqX >= 0
    ensures Fits(t, p) <==> BytesPerRow(t, p.reqX, p.width) * p.height <= t.available
  {
    var row := BytesPerRow(t, p.reqX, p.width);
    RowTakesIs(t, p.reqX, p.width, row);
    if Fits(t, p) {
      var m: nat :| RowTakes(t, p.reqX, p.width, m) && m * p.height <= t.available;
      RowTakesIs(t, p.reqX, p.width, m);
    }
  }

  ghost predicate AllFit(t: Transfer, ps: seq<Piece>) { forall k :: 0 <= k < |ps| ==> ps[k].reqX >= 0 && Fits(t, ps[k]) }

  /** Scanlines of up to width pixels have lengths that an int can tell. */
  ghost predicate IntRows(t: Transfer, width: nat) {
    forall reqX: nat, w: nat :: w <= width ==> BytesPerRow(t, reqX, w) < 0x8000_0000
  }

  /** So have all scanlines of up to 2 ^ 28 pixels. */
  lemma RowsAreInts(t: Transfer, width: nat)
    requires t.Valid() && width <= 0x1000_0000
    ensures IntRows(t, width)
  {
    forall reqX: nat, w: nat | w <= width
      ensures BytesPerRow(t, reqX, w) < 0x8000_0000
    {
      if t.bits {
        RoundFacts(w + LeftPad(t, reqX), t.destScanlinePad);
        MulMonotonic(RoundUp(w + LeftPad(t, reqX), t.destScanlinePad) / 8, 0x200_0008, t.depth);
        MulMonotonic(t.depth, 32, 0x200_0008);
      } else {
        MulMonotonic(t.destBitsPerPixel, 32, w);
        RoundFacts(w * t.destBitsPerPixel, t.destScanlinePad);
      }
    }
  }

  lemma AllFitJoin(t: Transfer, a: seq<Piece>, b: seq<Piece>)
    ensures AllFit(t, a + b) <==> AllFit(t, a) && AllFit(t, b)
  {
    var ps := a + b;
    assert forall k :: 0 <= k < |a| ==> a[k] == ps[k];
    assert forall k :: 0 <= k < |b| ==> b[k] == ps[|a| + k];
  }

  lemma OneFits(t: Transfer, p: Piece)
    requires t.Valid() && p.reqX >= 0 && BytesPerRow(t, p.reqX, p.width) * p.height < 0x1_0000_0000 && Bytes(t, p.reqX, p.width, p.height) <= t.available
    ensures AllFit(t, [p])
  {
    UnsignedIs(BytesPerRow(t, p.reqX, p.width) * p.height);
    FitsBytes(t, p);
  }

  lemma SmallerHeight(row: nat, h: nat, height: nat)
    requires h <= height && row * height < 0x1_0000_0000
    ensures row * h < 0x1_0000_0000
  {
    MulMonotonic(h, height, row);
  }

  lemma IntRow(t: Transfer, reqX: nat, w: nat, width: nat)
    requires IntRows(t, width) && w <= width
    ensures IntRows(t, w) && BytesPerRow(t, reqX, w) * 1 < 0x1_0000_0000
  {
  }

  /** Where the size of the image is below 2 ^ 32, all requests fit. */
  lemma {:induction false} SmallFits(t: Transfer, fuel: nat, reqX: nat, reqY: int, x: int, y: int, width: nat, height: nat)
    requires t.Valid() && Split(t, fuel, reqX, reqY, x, y, width, height).Some?
    requires IntRows(t, width) && BytesPerRow(t, reqX, width) * height < 0x1_0000_0000
    ensures AllFit(t, Split(t, fuel, reqX, reqY, x, y, width, height).value)
    decreases fuel, 0
  {
    var row := BytesPerRow(t, reqX, width);
    if width == 0 || height == 0 {
    } else if Bytes(t, reqX, width, height) <= t.available {
      OneFits(t, Piece(reqX, reqY, x, y, width, height));
    } else if height > 1 {
      var h := SubImageHeight(t.available, row);
      SplitByHeight(t, fuel, reqX, reqY, x, y, width, height, h);
      SmallHeights(t, fuel - 1, reqX, reqY, x, y, width, height, h);
    } else {
      var w := SubImageWidth(t, reqX);
      SplitByWidth(t, fuel, reqX, reqY, x, y, width, w);
      SmallWidths(t, fuel - 1, reqX, reqY, x, y, width, w);
    }
  }

  lemma SmallHeights(t: Transfer, fuel: nat, reqX: nat, reqY: int, x: int, y: int, width: nat, height: nat, h: nat)
    requires t.Valid() && h <= height && IntRows(t, width) && BytesPerRow(t, reqX, width) * height < 0x1_0000_0000
    requires Split(t, fuel, reqX, reqY, x, y, width, h).Some? && Split(t, fuel, reqX, reqY + h, x, y + h, width, height - h).Some?
    ensures AllFit(t, Split(t, fuel, reqX, reqY, x, y, width, h).value + Split(t, fuel, reqX, reqY + h, x, y + h, width, height - h).value)
    decreases fuel, 1
  {
    var row := BytesPerRow(t, reqX, width);
    SmallerHeight(row, h, height);
    SmallerHeight(row, height - h, height);
    SmallFits(t, fuel, reqX, reqY, x, y, width, h);
    SmallFits(t, fuel, reqX, reqY + h, x, y + h, width, height - h);
    AllFitJoin(t, Split(t, fuel, reqX, reqY, x, y, width, h).value, Split(t, fuel, reqX, reqY + h, x, y + h, width, height - h).value);
  }

  lemma SmallWidths(t: Transfer, fuel: nat, reqX: nat, reqY: int, x: int, y: int, width: nat, w: nat)
    requires t.Valid() && w <= width && IntRows(t, width)
    requires Split(t, fuel, reqX, reqY, x, y, w, 1).Some? && Split(t, fuel, reqX + w, reqY, x + w, y, width - w, 1).Some?
    ensures AllFit(t, Split(t, fuel, reqX, reqY, x, y, w, 1).value + Split(t, fuel, reqX + w, reqY, x + w, y, width - w, 1).value)
    decreases fuel, 1
  {
    IntRow(t, reqX, w, width);
    IntRow(t, reqX + w, width - w, width);
    SmallFits(t, fuel, reqX, reqY, x, y, w, 1);
    SmallFits(t, fuel, reqX + w, reqY, x + w, y, width - w, 1);
    AllFitJoin(t, Split(t, fuel, reqX, reqY, x, y, w, 1).value, Split(t, fuel, reqX + w, reqY, x + w, y, width - w, 1).value);
  }

  /** A size of 2 ^ 32 or more, less what a request holds, cannot come down below 2 ^ 32 without seeming to fit. */
  lemma SeemsToFit(row: nat, height: nat, h: nat, available: nat)
    requires h <= height && row * h <= available < 0x1_0000_0000 <= row * height && row * (height - h) < 0x1_0000_0000
    ensures Unsigned(row * height) <= available
  {
    MulDistributes(height, h, row);
    DivMod(1, 0x1_0000_0000, row * height - 0x1_0000_0000, row * height);
  }

  /** What is left below the first cut is too large as well. */
  lemma StillLarge(row: nat, height: nat, available: nat)
    requires 0 < row <= available < 0x1_0000_0000 <= row * height && Unsigned(row * height) > available
    ensures height > 1 && 0 < SubImageHeight(available, row) < height
    ensures row * (height - SubImageHeight(available, row)) >= 0x1_0000_0000
  {
    if height <= 1 { MulMonotonic(height, 1, row); }
    HeightCut(available, row, height);
    var h := SubImageHeight(available, row);
    if row * (height - h) < 0x1_0000_0000 { SeemsToFit(row, height, h, available); }
  }

  lemma SomeRow(row: nat, height: nat)
    requires row * height >= 0x1_0000_0000
    ensures row > 0 && height > 0
  {
  }

  /** Otherwise, where a scanline fits, some request is too large: its size has been taken modulo 2 ^ 32. */
  lemma {:induction false} LargeDoesNotFit(t: Transfer, fuel: nat, reqX: nat, reqY: int, x: int, y: int, width: nat, height: nat)
    requires t.Valid() && Split(t, fuel, reqX, reqY, x, y, width, height).Some? && width > 0
    requires BytesPerRow(t, reqX, width) <= t.available && BytesPerRow(t, reqX, width) * height >= 0x1_0000_0000
    ensures !AllFit(t, Split(t, fuel, reqX, reqY, x, y, width, height).value)
    decreases fuel
  {
    var row := BytesPerRow(t, reqX, width);
    SomeRow(row, height);
    if Bytes(t, reqX, width, height) > t.available {
      StillLarge(row, height, t.available);
      var h := SubImageHeight(t.available, row);
      SplitByHeight(t, fuel, reqX, reqY, x, y, width, height, h);
      LargeDoesNotFit(t, fuel - 1, reqX, reqY + h, x, y + h, width, height - h);
      AllFitJoin(t, Split(t, fuel - 1, reqX, reqY, x, y, width, h).value, Split(t, fuel - 1, reqX, reqY + h, x, y + h, width, height - h).value);
    } else {
      FitsBytes(t, Piece(reqX, reqY, x, y, width, height));
      OneLarge(t, Piece(reqX, reqY, x, y, width, height));
    }
  }

  lemma OneLarge(t: Transfer, p: Piece)
    requires p.reqX >= 0 && !Fits(t, p)
    ensures !AllFit(t, [p])
  {
    assert [p][0] == p;
  }

  /** Where a scanline fits, all requests do if and only if the size of the image is below 2 ^ 32. */
  lemma FitIff(t: Transfer, reqX: nat, reqY: int, x: int, y: int, width: nat, height: nat)
    requires t.Valid() && IntRows(t, width) && BytesPerRow(t, reqX, width) <= t.available
    ensures AllFit(t, Pieces(t, reqX, reqY, x, y, width, height)) <==> width == 0 || BytesPerRow(t, reqX, width) * height < 0x1_0000_0000
  {
    EndsAlways(t, width + height, reqX, reqY, x, y, width, height);
    if BytesPerRow(t, reqX, width) * height < 0x1_0000_0000 {
      SmallFits(t, width + height, reqX, reqY, x, y, width, height);
    } else if width > 0 {
      LargeDoesNotFit(t, width + height, reqX, reqY, x, y, width, height);
    }
  }

  /** The requests for an image below that size fit, even where a scanline alone does not. */
  lemma PiecesFit(t: Transfer, reqX: nat, reqY: int, x: int, y: int, width: nat, height: nat)
    requires t.Valid() && Ending(t, reqX, width, height) && IntRows(t, width) && BytesPerRow(t, reqX, width) * height < 0x1_0000_0000
    ensures AllFit(t, Pieces(t, reqX, reqY, x, y, width, height))
  {
    EndsAlways(t, width + height, reqX, reqY, x, y, width, height);
    SmallFits(t, width + height, reqX, reqY, x, y, width, height);
  }

  /** An image of 32768 by 32768 pixels of 32 bits: its size is zero modulo 2 ^ 32, and it is sent in one request. */
  lemma SentWhole()
    ensures var t := Transfer(false, 0, 24, 32, 32, 32, 0x3_ffe0);
      t.Valid() && Split(t, 1, 0, 0, 0, 0, 32768, 32768) == Some([Piece(0, 0, 0, 0, 32768, 32768)]) && !Fits(t, Piece(0, 0, 0, 0, 32768, 32768))
  {
    var t := Transfer(false, 0, 24, 32, 32, 32, 0x3_ffe0);
    assert BytesPerRow(t, 0, 32768) == 131072;
    assert 131072 * 32768 == 0x1_0000_0000;
    FitsBytes(t, Piece(0, 0, 0, 0, 32768, 32768));
  }

  /** The requests tile the rectangle, each goes where the whole would put it, and all fit if the data of the whole
      are below 2 ^ 32 bytes. */
  ghost predicate Carries(t: Transfer, ps: seq<Piece>, reqX: nat, reqY: int, x: int, y: int, width: nat, height: nat) {
    && Tiles(ps, reqX, reqY, width, height) && Placed(t, ps, reqX, reqY, x, y)
    && forall row: nat :: RowTakes(t, reqX, width, row) && row * height < 0x1_0000_0000 && IntRows(t, width) ==> AllFit(t, ps)
  }

  lemma PiecesMeant(t: Transfer, reqX: nat, reqY: int, x: int, y: int, width: nat, height: nat)
    requires t.Valid() && Ending(t, reqX, width, height)
    ensures Carries(t, Pieces(t, reqX, reqY, x, y, width, height), reqX, reqY, x, y, width, height)
  {
    PiecesTile(t, reqX, reqY, x, y, width, height);
    forall row: nat | RowTakes(t, reqX, width, row) && row * height < 0x1_0000_0000 && IntRows(t, width)
      ensures AllFit(t, Pieces(t, reqX, reqY, x, y, width, height))
    {
      RowTakesIs(t, reqX, width, row);
      PiecesFit(t, reqX, reqY, x, y, width, height);
    }
  }

  // ---------- the requests as they are sent ----------

  class Connection {
    var sent: seq<Piece>             // the PutImage requests, in order

    constructor ()
      ensures sent == []
    {
      sent := [];
    }

    /** PutImageRequest. */
    method PutImageRequest(reqX: nat, reqY: int, x: int, y: int, width: nat, height: nat)
      modifies this
      ensures sent == old(sent) + [Piece(reqX, reqY, x, y, width, height)]
    {
      sent := sent + [Piece(reqX, reqY, x, y, width, height)];
    }

    /** PutSubImage, on the images on which it terminates. */
    method PutSubImage(t: Transfer, reqX: nat, reqY: int, x: int, y: int, width: nat, height: nat)
      requires t.Valid() && Ending(t, reqX, width, height)
      modifies this
      ensures sent == old(sent) + Pieces(t, reqX, reqY, x, y, width, height)
      ensures Carries(t, sent[|old(sent)|..], reqX, reqY, x, y, width, height)
      decreases width + height, 1
    {
      PiecesMeant(t, reqX, reqY, x, y, width, height);
      if width == 0 || height == 0 {
        return;
      }
      var leftPad := LeftPad(t, reqX);
      var bytesPerRow := BytesPerRow(t, reqX, width);
      if Unsigned(bytesPerRow * height) <= t.available {
        PutImageRequest(reqX, reqY, x, y, width, height);
      } else if height > 1 {
        PutHeights(t, reqX, reqY, x, y, width, height, bytesPerRow);
      } else {
        PutWidths(t, reqX, reqY, x, y, width, leftPad);
      }
    }

    /** The image is cut in two between scanlines. */
    method PutHeights(t: Transfer, reqX: nat, reqY: int, x: int, y: int, width: nat, height: nat, bytesPerRow: nat)
      requires t.Valid() && Splittable(t, reqX, width, height) && width > 0 && height > 1
      requires bytesPerRow == BytesPerRow(t, reqX, width) && Bytes(t, reqX, width, height) > t.available
      modifies this
      ensures sent == old(sent) + Pieces(t, reqX, reqY, x, y, width, height)
      decreases width + height, 0
    {
      PiecesOfHeights(t, reqX, reqY, x, y, width, height);
      var subImageHeight := t.available / bytesPerRow;
      if subImageHeight == 0 {
        subImageHeight := 1;
      }
      PutSubImage(t, reqX, reqY, x, y, width, subImageHeight);
      PutSubImage(t, reqX, reqY + subImageHeight, x, y + subImageHeight, width, height - subImageHeight);
    }

    /** A scanline is cut in two. */
    method PutWidths(t: Transfer, reqX: nat, reqY: int, x: int, y: int, width: nat, leftPad: nat)
      requires t.Valid() && Splittable(t, reqX, width, 1) && width > 0
      requires leftPad == LeftPad(t, reqX) && Bytes(t, reqX, width, 1) > t.available
      modifies this
      ensures sent == old(sent) + Pieces(t, reqX, reqY, x, y, width, 1)
      decreases width + 1, 0
    {
      BytesOfRows(t, reqX, width, 1);
      WidthCut(t, reqX, width);
      var subImageWidth := RoundDown(t.available * 8, t.destScanlinePad) - leftPad;
      PiecesOfWidths(t, reqX, reqY, x, y, width, subImageWidth);
      PutSubImage(t, reqX, reqY, x, y, subImageWidth, 1);
      PutSubImage(t, reqX + subImageWidth, reqY, x + subImageWidth, y, width - subImageWidth, 1);
    }
  }
}
