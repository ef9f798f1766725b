/** Where an image keeps each bit of each pixel (XImage, libX11 ImUtil.c). The definitions follow the
    meaning of the byte and bit orders, not the routines that read and write pixels. */
module ImageLayout {
  import opened Arith
  import opened Bits

  datatype Order = LSBFirst | MSBFirst

  datatype Format = XYBitmap | XYPixmap | ZPixmap

  datatype Layout = Layout(
    width: nat, height: nat, xoffset: nat, format: Format, byteOrder: Order,
    bitmapUnit: nat, bitmapBitOrder: Order, bitmapPad: nat,
    depth: nat, bytesPerLine: nat, bitsPerPixel: nat)
  {
    /** (bits_per_pixel | depth) == 1 */
    predicate OneBit() { bitsPerPixel == 1 && depth == 1 }

    /** Pixels are spread over bitmap units, one bit in each plane. */
    predicate InUnits() { OneBit() || format == XYPixmap }

    /** The combination of fields for which there is no pixel format. */
    predicate Bad() { format == XYBitmap && !OneBit() }

    /** Bytes a scanline needs. */
    function RowBytes(): nat
      requires bitmapPad in {8, 16, 32}
    {
      if InUnits() || Bad() then PadBytes(width + xoffset, bitmapPad) else PadBytes(bitsPerPixel * width, bitmapPad)
    }

    /** What ImUtil.c assumes of an image. */
    ghost predicate Valid() {
      && bitmapUnit in {8, 16, 32} && bitmapPad in {8, 16, 32}
      && 1 <= depth <= 32
      && (format != ZPixmap ==> bitsPerPixel == 1)
      && (format == ZPixmap ==> bitsPerPixel in {1, 4, 8, 16, 24, 32} && depth <= bitsPerPixel)
      && (InUnits() ==> bitmapUnit <= bitmapPad)
      && RowBytes() <= bytesPerLine
    }

    /** How many planes of bytesPerLine * height bytes the data has. */
    function Planes(): nat { if format == XYPixmap && !OneBit() then depth else 1 }

    function PlaneBytes(): nat { height * bytesPerLine }

    function DataBytes(): nat { Planes() * PlaneBytes() }

    /** The bits of a pixel that can be read back. */
    function PixelDepth(): nat { if Bad() then 0 else depth }

    /** The bits the image sets aside for a pixel. */
    function Stored(): nat { if Bad() then 0 else if InUnits() then depth else bitsPerPixel }

    predicate Has(x: int, y: int) { 0 <= x < width && 0 <= y < height }
  }

  /** The bytes that hold n bits, padded. */
  function PadBytes(n: nat, pad: nat): nat
    requires pad in {8, 16, 32}
  {
    if pad == 8 then (n + 7) / 8 else if pad == 16 then (n + 15) / 16 * 2 else (n + 31) / 32 * 4
  }

  lemma PadBytesMore(n: nat, pad: nat, more: nat)
    requires pad in {8, 16, 32} && more in {8, 16, 32} && pad <= more
    ensures PadBytes(n, pad) <= PadBytes(n, more)
  {
    var bytes := PadBytes(n, more);
    if more == 16 {
      assert n <= 8 * bytes && bytes == 2 * ((n + 15) / 16);
    } else if more == 32 {
      assert n <= 8 * bytes && bytes == 4 * ((n + 31) / 32);
      assert pad == 16 ==> (n + 15) / 16 <= 2 * ((n + 31) / 32);
    }
  }

  /** ROUNDUP of ImUtil.c: the same, in unsigned ints. */
  function LineBytes(n: nat, pad: nat): nat
    requires pad in {8, 16, 32}
  {
    if pad == 8 then Unsigned(n + 7) / 8 else if pad == 16 then Unsigned(n + 15) / 16 * 2 else Unsigned(n + 31) / 32 * 4
  }

  /** That is right as long as the sum is below 2 ^ 32; otherwise the bytes are too few. */
  lemma LineBytesIs(n: nat, pad: nat)
    requires pad in {8, 16, 32}
    ensures n + pad - 1 < 0x1_0000_0000 ==> LineBytes(n, pad) == PadBytes(n, pad)
    ensures n + pad - 1 >= 0x1_0000_0000 ==> 8 * LineBytes(n, pad) < n
    ensures n <= 8 * PadBytes(n, pad) < n + pad
    ensures LineBytes(n, pad) < 0x4000_0000
  {
    UnsignedIs(n + pad - 1);
  }

  // ---------- bitmap units ----------

  /** First byte of the unit that holds scanline bit pos. */
  function UnitStart(unit: nat, pos: nat): nat {
    if unit == 8 then pos / 8 else if unit == 16 then pos / 16 * 2 else pos / 32 * 4
  }

  function UnitPos(unit: nat, pos: nat): nat {
    if unit == 8 then pos % 8 else if unit == 16 then pos % 16 else pos % 32
  }

  /** The significance, in the number a unit stands for, of its i-th bit from the left. */
  function Significance(unit: nat, bitOrder: Order, i: int): int {
    if bitOrder == LSBFirst then i else unit - 1 - i
  }

  /** The byte of a unit that holds the bits of significance 8 * (n / 8) and up. */
  function ByteOfUnit(unit: nat, byteOrder: Order, n: int): int {
    if byteOrder == LSBFirst then n / 8 else unit / 8 - 1 - n / 8
  }

  // ---------- the place of a pixel bit ----------

  datatype Spot = Spot(byte: int, bit: int)

  /** First byte of a Z format pixel within its scanline. */
  function PixelStart(bitsPerPixel: nat, x: nat): nat {
    if bitsPerPixel == 4 then x / 2
    else if bitsPerPixel == 8 then x
    else if bitsPerPixel == 16 then 2 * x
    else if bitsPerPixel == 24 then 3 * x
    else 4 * x
  }

  /** The place of the i-th bit of a unit, in the given byte and bit order. */
  function UnitSpot(unit: nat, byteOrder: Order, bitOrder: Order, i: int): Spot {
    var n := Significance(unit, bitOrder, i);
    Spot(ByteOfUnit(unit, byteOrder, n), n % 8)
  }

  /** The place, in a bitmap unit, of its i-th bit. */
  function InUnit(l: Layout, i: int): Spot { UnitSpot(l.bitmapUnit, l.byteOrder, l.bitmapBitOrder, i) }

  /** The place, in the bytes of the Z format pixel in column x, of bit k. */
  function InPixel(l: Layout, x: nat, k: int): Spot {
    if l.bitsPerPixel == 4 then Spot(0, if (x % 2 == 0) == (l.byteOrder == LSBFirst) then k else 4 + k)
    else Spot(ByteOfUnit(l.bitsPerPixel, l.byteOrder, k), k % 8)
  }

  function Shifted(start: int, s: Spot): Spot { Spot(start + s.byte, s.bit) }

  /** Bit k of the pixel in column x, within the scanline (and plane) it is in. */
  function RowSpot(l: Layout, x: nat, k: nat): Spot {
    if l.InUnits() then
      Shifted(UnitStart(l.bitmapUnit, x + l.xoffset), InUnit(l, UnitPos(l.bitmapUnit, x + l.xoffset)))
    else
      Shifted(PixelStart(l.bitsPerPixel, x), InPixel(l, x, k))
  }

  /** The plane of pixel bit k: the most significant plane is first. */
  function PlaneOf(l: Layout, k: nat): int { if l.Planes() == 1 then 0 else l.depth - 1 - k }

  function Place(l: Layout, x: nat, y: nat, k: nat): Spot {
    Shifted(PlaneOf(l, k) * l.PlaneBytes() + y * l.bytesPerLine, RowSpot(l, x, k))
  }

  predicate Inside(s: Spot, size: int) { 0 <= s.byte < size && 0 <= s.bit < 8 }

  // ---------- rows ----------

  /** A bitmap unit lies in its scanline. */
  lemma UnitFits(l: Layout, x: nat)
    requires l.Valid() && l.InUnits() && x < l.width
    ensures UnitStart(l.bitmapUnit, x + l.xoffset) + l.bitmapUnit / 8 <= l.bytesPerLine
  {
    var pos, n := x + l.xoffset, l.width + l.xoffset;
    if l.bitmapPad == 8 {
      assert pos / 8 + 1 <= (n + 7) / 8;
    } else if l.bitmapPad == 16 {
      assert pos / 16 + 1 <= (n + 15) / 16;
      assert pos / 8 <= pos / 16 * 2 + 1;
    } else {
      assert pos / 32 + 1 <= (n + 31) / 32;
      assert pos / 8 <= pos / 32 * 4 + 3 && pos / 16 <= pos / 32 * 2 + 1;
    }
  }

  function PixelBytes(bitsPerPixel: nat): nat { (bitsPerPixel + 7) / 8 }

  /** A Z format pixel lies in its scanline. */
  lemma PixelFits(l: Layout, x: nat)
    requires l.Valid() && !l.InUnits() && !l.Bad() && x < l.width
    ensures PixelStart(l.bitsPerPixel, x) + PixelBytes(l.bitsPerPixel) <= l.bytesPerLine
  {
    var bits := l.bitsPerPixel * l.width;
    assert bits <= 8 * PadBytes(bits, l.bitmapPad);
    if l.bitsPerPixel == 4 {
      assert 4 * l.width == bits;
    } else {
      assert l.bitsPerPixel in {8, 16, 24, 32};
    }
  }

  /** The byte and the bit opposite a position of a unit. */
  lemma Opposite(unit: nat, i: nat)
    requires unit in {8, 16, 32} && i < unit
    ensures i / 8 < unit / 8 && (unit - 1 - i) / 8 == unit / 8 - 1 - i / 8 && (unit - 1 - i) % 8 == 7 - i % 8
  {
  }

  lemma UnitOfBytes(unit: nat, pos: nat)
    requires unit in {8, 16, 32}
    ensures UnitStart(unit, pos) + UnitPos(unit, pos) / 8 == pos / 8 && UnitPos(unit, pos) % 8 == pos % 8
  {
  }

  lemma UnitSpotInside(l: Layout, i: nat)
    requires l.bitmapUnit in {8, 16, 32} && i < l.bitmapUnit
    ensures 0 <= Significance(l.bitmapUnit, l.bitmapBitOrder, i) < l.bitmapUnit
    ensures Inside(InUnit(l, i), l.bitmapUnit / 8)
  {
  }

  lemma RowSpotInside(l: Layout, x: nat, k: nat)
    requires l.Valid() && x < l.width && k < l.Stored()
    ensures Inside(RowSpot(l, x, k), l.bytesPerLine)
  {
    if l.InUnits() {
      UnitFits(l, x);
      UnitSpotInside(l, UnitPos(l.bitmapUnit, x + l.xoffset));
    } else {
      PixelFits(l, x);
    }
  }

  /** Within a unit, byte and bit determine the position. */
  lemma UnitSpotInjective(l: Layout, i: nat, j: nat)
    requires l.bitmapUnit in {8, 16, 32} && i < l.bitmapUnit && j < l.bitmapUnit && InUnit(l, i) == InUnit(l, j)
    ensures i == j
  {
  }

  lemma UnitsApart(unit: nat, p: nat, q: nat, a: nat, b: nat)
    requires unit in {8, 16, 32} && a < unit / 8 && b < unit / 8
    requires UnitStart(unit, p) + a == UnitStart(unit, q) + b
    ensures a == b && UnitStart(unit, p) == UnitStart(unit, q)
  {
    if unit == 16 {
      assert p / 16 == q / 16;
    } else if unit == 32 {
      assert p / 32 == q / 32;
    }
  }

  lemma UnitColumns(l: Layout, x: nat, x': nat, k: nat, k': nat)
    requires l.Valid() && l.InUnits() && RowSpot(l, x, k) == RowSpot(l, x', k')
    ensures x == x'
  {
    var unit, p, q := l.bitmapUnit, x + l.xoffset, x' + l.xoffset;
    var i, j := UnitPos(unit, p), UnitPos(unit, q);
    UnitSpotInside(l, i);
    UnitSpotInside(l, j);
    UnitsApart(unit, p, q, InUnit(l, i).byte, InUnit(l, j).byte);
    UnitSpotInjective(l, i, j);
    SameUnitPos(unit, p, q);
  }

  lemma SameUnitPos(unit: nat, p: nat, q: nat)
    requires unit in {8, 16, 32} && UnitStart(unit, p) == UnitStart(unit, q) && UnitPos(unit, p) == UnitPos(unit, q)
    ensures p == q
  {
  }

  lemma PixelColumns(l: Layout, x: nat, x': nat, k: nat, k': nat)
    requires l.Valid() && !l.InUnits() && k < l.Stored() && k' < l.Stored()
    requires RowSpot(l, x, k) == RowSpot(l, x', k')
    ensures x == x' && k == k'
  {
  }

  // ---------- the whole image ----------

  /** A row of a plane lies in the plane, a plane in the data. */
  lemma RowInside(l: Layout, y: nat, n: nat)
    requires y < l.height && n <= l.bytesPerLine
    ensures y * l.bytesPerLine + n <= l.PlaneBytes()
  {
    MulMonotonic(y + 1, l.height, l.bytesPerLine);
    MulDistributes(y, 1, l.bytesPerLine);
  }

  lemma PlaneInside(l: Layout, k: nat, n: nat)
    requires l.Valid() && k < l.Stored() && n <= l.PlaneBytes()
    ensures 0 <= PlaneOf(l, k) < l.Planes()
    ensures 0 <= PlaneOf(l, k) * l.PlaneBytes()
    ensures PlaneOf(l, k) * l.PlaneBytes() + n <= l.DataBytes()
  {
    MulMonotonic(PlaneOf(l, k) + 1, l.Planes(), l.PlaneBytes());
    MulDistributes(PlaneOf(l, k), 1, l.PlaneBytes());
    MulMonotonic(0, PlaneOf(l, k), l.PlaneBytes());
  }

  /** Every pixel bit has a place in the data. */
  lemma PlaceInside(l: Layout, x: nat, y: nat, k: nat)
    requires l.Valid() && l.Has(x, y) && k < l.Stored()
    ensures Inside(Place(l, x, y, k), l.DataBytes())
  {
    RowSpotInside(l, x, k);
    var n := RowSpot(l, x, k).byte;
    RowInside(l, y, n + 1);
    assert 0 <= y * l.bytesPerLine by { MulMonotonic(0, y, l.bytesPerLine); }
    PlaneInside(l, k, y * l.bytesPerLine + n + 1);
  }

  /** No two pixel bits have the same place. */
  lemma PlaceInjective(l: Layout, x: nat, y: nat, k: nat, x': nat, y': nat, k': nat)
    requires l.Valid() && l.Has(x, y) && l.Has(x', y') && k < l.Stored() && k' < l.Stored()
    requires Place(l, x, y, k) == Place(l, x', y', k')
    ensures x == x' && y == y' && k == k'
  {
    var s, s' := RowSpot(l, x, k), RowSpot(l, x', k');
    RowSpotInside(l, x, k);
    RowSpotInside(l, x', k');
    SamePlane(l, k, y, s.byte, k', y', s'.byte);
    if l.InUnits() { UnitColumns(l, x, x', k, k'); } else { PixelColumns(l, x, x', k, k'); }
  }

  lemma SamePlane(l: Layout, k: nat, y: nat, n: nat, k': nat, y': nat, n': nat)
    requires l.Valid() && k < l.Stored() && k' < l.Stored() && y < l.height && y' < l.height
    requires n < l.bytesPerLine && n' < l.bytesPerLine
    requires PlaneOf(l, k) * l.PlaneBytes() + y * l.bytesPerLine + n == PlaneOf(l, k') * l.PlaneBytes() + y' * l.bytesPerLine + n'
    ensures PlaneOf(l, k) == PlaneOf(l, k') && y == y' && n == n'
    ensures l.InUnits() ==> k == k'
  {
    var a, b := y * l.bytesPerLine + n, y' * l.bytesPerLine + n';
    RowInside(l, y, n + 1);
    RowInside(l, y', n' + 1);
    MulMonotonic(0, y, l.bytesPerLine);
    MulMonotonic(0, y', l.bytesPerLine);
    var at := PlaneOf(l, k) * l.PlaneBytes() + a;
    DivMod(PlaneOf(l, k), l.PlaneBytes(), a, at);
    DivMod(PlaneOf(l, k'), l.PlaneBytes(), b, at);
    DivMod(y, l.bytesPerLine, n, a);
    DivMod(y', l.bytesPerLine, n', b);
  }
}
