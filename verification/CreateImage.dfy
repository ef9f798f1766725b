/** Making an image, and when there is room in it for what the pixel routines read and write (libX11 ImUtil.c). */
module CreateImage {
  import opened Arith
  import opened Bits
  import opened ImageLayout
  import opened Options
  import opened PixelAccess
  import opened XImageObject

  // ---------- making an image ----------

  datatype ScreenFormat = ScreenFormat(depth: int, bitsPerPixel: nat, scanlinePad: nat)

  datatype Display = Display(
    byteOrder: Order, bitmapUnit: nat, bitmapBitOrder: Order, bitmapPad: nat, formats: seq<ScreenFormat>)

  /** The first format of a depth. */
  function FormatOf(formats: seq<ScreenFormat>, depth: int): Option<ScreenFormat> {
    if formats == [] then None
    else if formats[0].depth == depth then Some(formats[0])
    else FormatOf(formats[1..], depth)
  }

  /** _XGetBitsPerPixel */
  function BitsPerPixel(d: Display, depth: int): nat {
    match FormatOf(d.formats, depth)
    case Some(f) => f.bitsPerPixel
    case None => if depth <= 4 then 4 else if depth <= 8 then 8 else if depth <= 16 then 16 else 32
  }

  /** A size in an int field of an image. One of 2 ^ 31 or more becomes negative, and then there are no pixels, as with
      zero. */
  function Extent(n: UInt): nat { if n < 0x8000_0000 then n else 0 }

  /** The bits of a scanline that XCreateImage makes room for. */
  function ScanlineBits(d: Display, depth: nat, format: Format, offset: nat, width: nat): nat {
    if format == ZPixmap then BitsPerPixel(d, depth) * width else width + offset
  }

  /** The length of the scanlines: the one asked for, or if that is zero, the one computed. */
  function Line(d: Display, depth: nat, format: Format, offset: nat, width: nat, xpad: nat, bytesPerLine: nat): nat
    requires xpad in {8, 16, 32}
  {
    if bytesPerLine == 0 then LineBytes(ScanlineBits(d, depth, format, offset, width), xpad) else bytesPerLine
  }

  /** The image fields XCreateImage fills in, or None where it returns NULL. */
  function CreatedLayout(d: Display, depth: UInt, format: Format, offset: SInt, width: UInt, height: UInt, xpad: SInt,
                         bytesPerLine: SInt): Option<Layout>
  {
    if Rejected(depth, format, offset, xpad) then None
    else if bytesPerLine != 0 && bytesPerLine < LineBytes(ScanlineBits(d, depth, format, offset, width), xpad) then None
    else Some(Layout(Extent(width), Extent(height), offset, format, d.byteOrder, d.bitmapUnit, d.bitmapBitOrder, xpad, depth,
                     Line(d, depth, format, offset, width, xpad, bytesPerLine),
                     if format == ZPixmap then BitsPerPixel(d, depth) else 1))
  }

  /** The arguments that XCreateImage rejects whatever the scanline. */
  predicate Rejected(depth: nat, format: Format, offset: int, xpad: int) {
    depth == 0 || depth > 32 || (format == XYBitmap && depth != 1) || xpad !in {8, 16, 32} || offset < 0
  }

  /** The pixel format of the display for a depth is one ImUtil.c knows. */
  predicate Supported(d: Display, depth: nat) {
    d.bitmapUnit in {8, 16, 32} && BitsPerPixel(d, depth) in {1, 4, 8, 16, 24, 32} && depth <= BitsPerPixel(d, depth)
  }

  /** An image made for a supported format is one that ImUtil.c can be given exactly if bitmap units fit the padding of a
      scanline and the scanline is long enough. A computed one is, if the offset of a one-bit ZPixmap does not count,
      unless the sum is 2 ^ 32 or more. */
  lemma CreatedValidIff(d: Display, depth: UInt, format: Format, offset: SInt, width: UInt, height: UInt, xpad: SInt,
                        bytesPerLine: SInt)
    requires Supported(d, depth) && CreatedLayout(d, depth, format, offset, width, height, xpad, bytesPerLine).Some?
    ensures var l := CreatedLayout(d, depth, format, offset, width, height, xpad, bytesPerLine).value;
      && (l.Valid() <==> (l.InUnits() ==> d.bitmapUnit <= xpad) && l.RowBytes() <= l.bytesPerLine)
      && (bytesPerLine == 0 && !(format == ZPixmap && l.OneBit()) && 0 < width < 0x8000_0000 ==>
            (l.RowBytes() <= l.bytesPerLine <==> ScanlineBits(d, depth, format, offset, width) + xpad - 1 < 0x1_0000_0000))
  {
    LineBytesIs(ScanlineBits(d, depth, format, offset, width), xpad);
  }

  /** A one-bit ZPixmap with an offset, which does not count in the length of its scanlines: its first pixel is outside the
      data. */
  lemma OffsetOutside()
    ensures var d := Display(LSBFirst, 8, LSBFirst, 8, [ScreenFormat(1, 1, 8)]);
      var created := CreatedLayout(d, 1, ZPixmap, 8, 8, 1, 8, 0);
      created.Some? && created.value.Has(0, 0) && !Inside(Place(created.value, 0, 0, 0), created.value.DataBytes())
  {
    var d := Display(LSBFirst, 8, LSBFirst, 8, [ScreenFormat(1, 1, 8)]);
    var l := Layout(8, 1, 8, ZPixmap, LSBFirst, 8, LSBFirst, 8, 1, 1, 1);
    assert FormatOf(d.formats, 1) == Some(d.formats[0]);
    assert CreatedLayout(d, 1, ZPixmap, 8, 8, 1, 8, 0) == Some(l);
    assert l.DataBytes() == 1 && RowSpot(l, 0, 0) == Spot(1, 0);
  }

  // ---------- the length of a scanline ----------

  lemma PadBytesFewest(n: nat, pad: nat)
    requires pad in {8, 16, 32}
    ensures Fewest(n, pad, PadBytes(n, pad))
    ensures forall m: nat :: Fewest(n, pad, m) ==> m == PadBytes(n, pad)
  {
    if pad == 8 {
      DivMod((n + 7) / 8, 8, 0, 8 * PadBytes(n, pad));
    } else if pad == 16 {
      DivMod((n + 15) / 16, 16, 0, 8 * PadBytes(n, pad));
    } else {
      DivMod((n + 31) / 32, 32, 0, 8 * PadBytes(n, pad));
    }
    forall m: nat | Fewest(n, pad, m)
      ensures m == PadBytes(n, pad)
    {
      MultiplesApart(m, PadBytes(n, pad), n, pad);
    }
  }

  /** ROUNDUP gives that length exactly as long as its sum is below 2 ^ 32. */
  lemma LineBytesFewest(n: nat, pad: nat)
    requires pad in {8, 16, 32}
    ensures Fewest(n, pad, LineBytes(n, pad)) <==> n + pad - 1 < 0x1_0000_0000
  {
    PadBytesFewest(n, pad);
    LineBytesIs(n, pad);
  }

  // ---------- room ----------

  /** Where the bytes that the routines touch for a pixel in column x end, within a scanline. */
  function WindowEnd(l: Layout, x: nat): nat {
    if l.InUnits() then UnitStart(l.bitmapUnit, x + l.xoffset) + l.bitmapUnit / 8
    else PixelStart(l.bitsPerPixel, x) + PixelBytes(l.bitsPerPixel)
  }

  /** The bytes that the routines touch for bit k of a pixel are among the first `size` bytes of the data. */
  predicate WindowFits(l: Layout, x: nat, y: nat, k: nat, size: int) {
    0 <= PlaneOf(l, k) * l.PlaneBytes() && PlaneOf(l, k) * l.PlaneBytes() + y * l.bytesPerLine + WindowEnd(l, x) <= size
  }

  /** There is room for all of every pixel in `size` bytes. */
  ghost predicate RoomIn(l: Layout, size: int) {
    forall x: nat, y: nat, k: nat :: l.Has(x, y) && k < l.Stored() ==> WindowFits(l, x, y, k, size)
  }

  /** There is room in the data that the fields of the image stand for. */
  ghost predicate Room(l: Layout) { RoomIn(l, l.DataBytes()) }

  /** The fields have values that ImUtil.c knows. */
  predicate Known(l: Layout) {
    l.bitmapUnit in {8, 16, 32} && l.depth >= 1 && !l.Bad() && (l.InUnits() || l.bitsPerPixel in {4, 8, 16, 24, 32})
  }

  lemma EndsLater(l: Layout, x: nat, z: nat)
    requires Known(l) && x <= z
    ensures WindowEnd(l, x) <= WindowEnd(l, z)
  {
    if l.InUnits() {
      var a, b := x + l.xoffset, z + l.xoffset;
      assert a / 8 <= b / 8 && a / 16 <= b / 16 && a / 32 <= b / 32;
    }
  }

  lemma LastRow(l: Layout)
    requires l.height > 0 && l.depth >= 1
    ensures PlaneOf(l, 0) == l.Planes() - 1
    ensures PlaneOf(l, 0) * l.PlaneBytes() + (l.height - 1) * l.bytesPerLine == l.DataBytes() - l.bytesPerLine
  {
    MulDistributes(l.Planes(), 1, l.PlaneBytes());
    MulDistributes(l.height, 1, l.bytesPerLine);
  }

  lemma RowInData(l: Layout, y: nat, k: nat, n: nat)
    requires y < l.height && k < l.depth && n <= l.bytesPerLine
    ensures 0 <= PlaneOf(l, k) * l.PlaneBytes() && PlaneOf(l, k) * l.PlaneBytes() + y * l.bytesPerLine + n <= l.DataBytes()
  {
    RowInside(l, y, n);
    MulMonotonic(PlaneOf(l, k) + 1, l.Planes(), l.PlaneBytes());
    MulDistributes(PlaneOf(l, k), 1, l.PlaneBytes());
    MulMonotonic(0, PlaneOf(l, k), l.PlaneBytes());
  }

  lemma PlaneZero(l: Layout, k: nat)
    requires l.Planes() == 1
    ensures PlaneOf(l, k) == PlaneOf(l, 0) == 0
  {
  }

  /** There is room exactly if the last column fits into a scanline. */
  lemma RoomIff(l: Layout)
    requires Known(l)
    ensures Room(l) <==> (l.width > 0 && l.height > 0 ==> WindowEnd(l, l.width - 1) <= l.bytesPerLine)
  {
    if l.width > 0 && l.height > 0 && WindowEnd(l, l.width - 1) <= l.bytesPerLine {
      forall x: nat, y: nat, k: nat | l.Has(x, y) && k < l.Stored()
        ensures WindowFits(l, x, y, k, l.DataBytes())
      {
        EndsLater(l, x, l.width - 1);
        if l.Planes() == 1 { PlaneZero(l, k); }
        RowInData(l, y, if l.Planes() == 1 then 0 else k, WindowEnd(l, x));
      }
    }
    if l.width > 0 && l.height > 0 && Room(l) {
      LastRow(l);
      assert WindowFits(l, l.width - 1, l.height - 1, 0, l.DataBytes());
    }
  }

  /** Bytes that a scanline needs for all of its columns. */
  function Needed(l: Layout): nat
    requires l.bitmapUnit in {8, 16, 32}
  {
    if l.InUnits() then PadBytes(l.width + l.xoffset, l.bitmapUnit) else PadBytes(l.bitsPerPixel * l.width, 8)
  }

  lemma NeededIs(l: Layout)
    requires Known(l) && l.width > 0
    ensures WindowEnd(l, l.width - 1) == Needed(l)
  {
    if l.InUnits() {
      UnitsNeeded(l.bitmapUnit, l.width + l.xoffset);
    } else if l.bitsPerPixel == 4 {
      assert l.bitsPerPixel * l.width == 4 * l.width;
    } else if l.bitsPerPixel == 8 {
      assert l.bitsPerPixel * l.width == 8 * l.width;
    } else if l.bitsPerPixel == 16 {
      assert l.bitsPerPixel * l.width == 16 * l.width;
    } else if l.bitsPerPixel == 24 {
      assert l.bitsPerPixel * l.width == 24 * l.width;
    } else {
      assert l.bitsPerPixel * l.width == 32 * l.width;
    }
  }

  lemma UnitsNeeded(unit: nat, n: nat)
    requires unit in {8, 16, 32} && n > 0
    ensures UnitStart(unit, n - 1) + unit / 8 == PadBytes(n, unit)
  {
    if unit == 8 {
      assert (n + 7) / 8 == (n - 1) / 8 + 1;
    } else if unit == 16 {
      assert (n + 15) / 16 == (n - 1) / 16 + 1;
    } else {
      assert (n + 31) / 32 == (n - 1) / 32 + 1;
    }
  }

  /** The bytes of a scanline that the arguments call for. */
  function Called(d: Display, depth: nat, format: Format, offset: nat, width: nat): nat
    requires d.bitmapUnit in {8, 16, 32}
  {
    if Bitwise(d, depth, format) then PadBytes(width + offset, d.bitmapUnit) else PadBytes(BitsPerPixel(d, depth) * width, 8)
  }

  /** The pixels are kept in bitmap units. */
  predicate Bitwise(d: Display, depth: nat, format: Format) { format != ZPixmap || (depth == 1 && BitsPerPixel(d, depth) == 1) }

  /** An image made for a supported format has room for all its pixels exactly if it has none, or what the arguments call
      for is no more than the length of the scanlines. A length that is computed is enough exactly if the sum that pads
      it is below 2 ^ 32 and, for pixels in bitmap units, the last unit ends within it: it may be padded to less than a
      unit, and for a ZPixmap the offset does not count. */
  lemma CreatedRoomIff(d: Display, depth: UInt, format: Format, offset: SInt, width: UInt, height: UInt, xpad: SInt, bytesPerLine: SInt)
    requires Supported(d, depth) && CreatedLayout(d, depth, format, offset, width, height, xpad, bytesPerLine).Some?
    ensures var l := CreatedLayout(d, depth, format, offset, width, height, xpad, bytesPerLine).value;
      Room(l) <==>
        Extent(width) == 0 || Extent(height) == 0
        || Called(d, depth, format, offset, width) <= Line(d, depth, format, offset, width, xpad, bytesPerLine)
    ensures var n := ScanlineBits(d, depth, format, offset, width);
      width > 0 && bytesPerLine == 0 ==>
        (Called(d, depth, format, offset, width) <= Line(d, depth, format, offset, width, xpad, bytesPerLine) <==>
          n + xpad - 1 < 0x1_0000_0000
          && (Bitwise(d, depth, format) ==> PadBytes(width + offset, d.bitmapUnit) <= PadBytes(n, xpad)))
  {
    var l := CreatedLayout(d, depth, format, offset, width, height, xpad, bytesPerLine).value;
    RoomIff(l);
    if l.width > 0 { NeededIs(l); }
    var n := ScanlineBits(d, depth, format, offset, width);
    LineBytesIs(n, xpad);
    CalledBits(d, depth, format, offset, width);
  }

  /** What the arguments call for holds the bits that are computed. */
  lemma CalledBits(d: Display, depth: nat, format: Format, offset: nat, width: nat)
    requires d.bitmapUnit in {8, 16, 32}
    ensures ScanlineBits(d, depth, format, offset, width) <= 8 * Called(d, depth, format, offset, width)
    ensures !Bitwise(d, depth, format) ==>
              8 * Called(d, depth, format, offset, width) < ScanlineBits(d, depth, format, offset, width) + 8
  {
    LineBytesIs(width + offset, d.bitmapUnit);
    LineBytesIs(BitsPerPixel(d, depth) * width, 8);
  }

  /** A unit is larger than the padding: there is no room. */
  lemma UnitTooLarge()
    ensures var d := Display(LSBFirst, 32, LSBFirst, 8, [ScreenFormat(1, 1, 8)]);
      var created := CreatedLayout(d, 1, XYBitmap, 0, 8, 1, 8, 0);
      created.Some? && created.value.bytesPerLine == 1 && !Room(created.value)
  {
    var d := Display(LSBFirst, 32, LSBFirst, 8, [ScreenFormat(1, 1, 8)]);
    CreatedRoomIff(d, 1, XYBitmap, 0, 8, 1, 8, 0);
  }

  /** The scanline is longer than the padding, and so there is room despite the offset. */
  lemma RoomDespiteOffset()
    ensures var d := Display(LSBFirst, 8, LSBFirst, 32, [ScreenFormat(1, 1, 32)]);
      var created := CreatedLayout(d, 1, ZPixmap, 32, 8, 1, 32, 5);
      created.Some? && Room(created.value)
  {
    var d := Display(LSBFirst, 8, LSBFirst, 32, [ScreenFormat(1, 1, 32)]);
    CreatedRoomIff(d, 1, ZPixmap, 32, 8, 1, 32, 5);
  }

  /** 2 ^ 27 pixels of 32 bits: the length of the scanline is computed as zero. */
  lemma WideImage()
    ensures var d := Display(LSBFirst, 32, LSBFirst, 32, [ScreenFormat(24, 32, 32)]);
      var created := CreatedLayout(d, 24, ZPixmap, 0, 0x800_0000, 1, 32, 0);
      Supported(d, 24) && created.Some? && created.value.bytesPerLine == 0 && !Room(created.value)
  {
    var d := Display(LSBFirst, 32, LSBFirst, 32, [ScreenFormat(24, 32, 32)]);
    CreatedRoomIff(d, 24, ZPixmap, 0, 0x800_0000, 1, 32, 0);
  }

  // ---------- XCreateImage ----------

  /** The image is what was asked for, for a display. */
  ghost predicate AskedFor(l: Layout, d: Display, depth: nat, format: Format, offset: int, width: UInt, height: UInt, xpad: int) {
    && (if width < 0x8000_0000 then l.width == width else l.width == 0)
    && (if height < 0x8000_0000 then l.height == height else l.height == 0)
    && l.xoffset == offset && l.format == format && l.depth == depth
    && l.bitmapPad == xpad && l.byteOrder == d.byteOrder && l.bitmapUnit == d.bitmapUnit && l.bitmapBitOrder == d.bitmapBitOrder
    && l.bitsPerPixel == if format == ZPixmap then BitsPerPixel(d, depth) else 1
  }

  /** _XGetBitsPerPixel: the first format for the depth, or a guess. */
  method GetBitsPerPixel(d: Display, depth: nat) returns (n: nat)
    ensures (forall i :: 0 <= i < |d.formats| ==> d.formats[i].depth != depth) ==>
              n == if depth <= 4 then 4 else if depth <= 8 then 8 else if depth <= 16 then 16 else 32
    ensures forall i :: 0 <= i < |d.formats| && d.formats[i].depth == depth && (forall j :: 0 <= j < i ==> d.formats[j].depth != depth) ==>
              n == d.formats[i].bitsPerPixel
    ensures n == BitsPerPixel(d, depth)
  {
    for i := 0 to |d.formats|
      invariant forall j :: 0 <= j < i ==> d.formats[j].depth != depth
      invariant FormatOf(d.formats, depth) == FormatOf(d.formats[i..], depth)
    {
      if d.formats[i].depth == depth {
        return d.formats[i].bitsPerPixel;
      }
    }
    if depth <= 4 {
      return 4;
    } else if depth <= 8 {
      return 8;
    } else if depth <= 16 {
      return 16;
    }
    return 32;
  }

  /** XCreateImage, for a given store of pixel data. Without a length asked for, the scanline is the shortest that is
      padded to xpad and holds its bits, unless the sum that pads it is 2 ^ 32 or more; a length that is shorter than the
      one computed is rejected. For a supported format it is told when there is room for every pixel. */
  method XCreateImage(d: Display, depth: UInt, format: Format, offset: SInt, data: array<Byte>, width: UInt, height: UInt,
                      xpad: SInt, bytesPerLine: SInt, host: Order)
    returns (image: XImage?)
    ensures Rejected(depth, format, offset, xpad) ==> image == null
    ensures !Rejected(depth, format, offset, xpad) ==>
              var n := ScanlineBits(d, depth, format, offset, width);
              && (Fewest(n, xpad, LineBytes(n, xpad)) <==> n + xpad - 1 < 0x1_0000_0000)
              && (image == null <==> bytesPerLine != 0 && bytesPerLine < LineBytes(n, xpad))
              && (image != null ==> image.layout.bytesPerLine == if bytesPerLine == 0 then LineBytes(n, xpad) else bytesPerLine)
    ensures image != null ==>
              && fresh(image) && image.data == data && image.host == host
              && AskedFor(image.layout, d, depth, format, offset, width, height, xpad)
              && FastestFor(image.getPixel, image.layout) && image.putPixel == image.getPixel
    ensures image != null && Supported(d, depth) ==>
              (Room(image.layout) <==>
                Extent(width) == 0 || Extent(height) == 0
                || Called(d, depth, format, offset, width) <= Line(d, depth, format, offset, width, xpad, bytesPerLine))
  {
    if depth == 0 || depth > 32 || (format == XYBitmap && depth != 1) || (xpad != 8 && xpad != 16 && xpad != 32) || offset < 0 {
      return null;
    }
    var bitsPerPixel, minBytesPerLine := MinBytesPerLine(d, depth, format, offset, width, xpad);
    LineBytesFewest(ScanlineBits(d, depth, format, offset, width), xpad);
    var line: nat;
    if bytesPerLine == 0 {
      line := minBytesPerLine;
    } else if bytesPerLine < minBytesPerLine {
      return null;
    } else {
      line := bytesPerLine;
    }
    if Supported(d, depth) { CreatedRoomIff(d, depth, format, offset, width, height, xpad, bytesPerLine); }
    image := new XImage(Layout(Extent(width), Extent(height), offset, format, d.byteOrder, d.bitmapUnit, d.bitmapBitOrder, xpad,
                               depth, line, bitsPerPixel),
                        data, host);
  }

  /** The bits of a pixel, and the least length of a scanline. */
  method MinBytesPerLine(d: Display, depth: UInt, format: Format, offset: nat, width: UInt, xpad: nat) returns (bitsPerPixel: nat, bytes: nat)
    requires xpad in {8, 16, 32}
    ensures bitsPerPixel == if format == ZPixmap then BitsPerPixel(d, depth) else 1
    ensures bytes == LineBytes(ScanlineBits(d, depth, format, offset, width), xpad)
  {
    ghost var n := ScanlineBits(d, depth, format, offset, width);
    bitsPerPixel := 1;
    if format == ZPixmap {
      bitsPerPixel := GetBitsPerPixel(d, depth);
    }
    var bits: int := if format == ZPixmap then bitsPerPixel * width else width + offset;
    assert bits == n;
    bytes := RoundUp(Unsigned(bits), n, xpad);
  }

  /** The ROUNDUP macro on an unsigned int: bits computed modulo 2 ^ 32 are padded modulo 2 ^ 32. */
  method RoundUp(nbytes: UInt, ghost n: nat, pad: nat) returns (bytes: nat)
    requires pad in {8, 16, 32} && nbytes == Unsigned(n)
    ensures bytes == LineBytes(n, pad)
  {
    UnsignedSum(n, pad - 1);
    bytes := Unsigned(nbytes + (pad - 1)) / pad * (pad / 8);
  }
}
