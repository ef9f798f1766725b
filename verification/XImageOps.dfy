/** Operations on whole images: adding to every pixel, cutting out a part (libX11 ImUtil.c). */
module XImageOps {
  import opened Arith
  import opened Bits
  import opened ImageLayout
  import opened Image
  import opened PixelAccess
  import opened AddPixel
  import opened XImageObject
  import opened CreateImage
  import opened Options

  // ---------- adding to every pixel ----------

  /** Complements n bytes. */
  method ComplementBytes(data: array<Byte>, n: nat)
    requires n <= data.Length
    modifies data
    ensures Complemented(old(data[..]), data[..], n)
  {
    var x, dp := n, 0;
    while x > 0
      invariant 0 <= x && dp == n - x
      invariant forall b :: 0 <= b < dp ==> data[b] == Not(old(data[b]))
      invariant forall b :: dp <= b < data.Length ==> data[b] == old(data[b])
    {
      data[dp] := Not(data[dp]);
      dp := dp + 1;
      x := x - 1;
    }
  }

  /** Adds value to one unit of the machine, in place. */
  method AddToUnit(l: Layout, data: array<Byte>, j: nat, value: int)
    requires l.bitsPerPixel in {8, 16, 32} && PixelStart(l.bitsPerPixel, j + 1) <= data.Length
    modifies data
    ensures UnitAt(l, data[..], j) == Grown(l, value, UnitAt(l, old(data[..]), j))
    ensures forall b :: 0 <= b < data.Length && (b < PixelStart(l.bitsPerPixel, j) || b >= PixelStart(l.bitsPerPixel, j + 1)) ==>
              data[b] == old(data[b])
  {
    var unit := Grown(l, value, UnitAt(l, data[..], j));
    StoreUnit(l, data, j, unit);
  }

  method StoreUnit(l: Layout, data: array<Byte>, j: nat, unit: seq<Byte>)
    requires l.bitsPerPixel in {8, 16, 32} && PixelStart(l.bitsPerPixel, j + 1) <= data.Length && |unit| == l.bitsPerPixel / 8
    modifies data
    ensures UnitAt(l, data[..], j) == unit
    ensures forall b :: 0 <= b < data.Length && (b < PixelStart(l.bitsPerPixel, j) || b >= PixelStart(l.bitsPerPixel, j + 1)) ==>
              data[b] == old(data[b])
  {
    var dp := PixelStart(l.bitsPerPixel, j);
    for i := 0 to l.bitsPerPixel / 8
      invariant forall b :: dp <= b < dp + i ==> data[b] == unit[b - dp]
      invariant forall b :: 0 <= b < data.Length && (b < dp || b >= dp + i) ==> data[b] == old(data[b])
    {
      data[dp + i] := unit[i];
    }
    assert UnitAt(l, data[..], j) == unit;
  }

  /** The loops of _XAddPixel over bytes, shorts or words of the machine. */
  method AddToUnits(l: Layout, data: array<Byte>, n: nat, value: int)
    requires l.bitsPerPixel in {8, 16, 32} && PixelStart(l.bitsPerPixel, n) <= data.Length
    modifies data
    ensures UnitsAdded(l, old(data[..]), data[..], n, value)
  {
    var x, j: nat := n, 0;
    while x > 0
      invariant 0 <= x && j == n - x
      invariant UnitsAdded(l, old(data[..]), data[..], j, value)
    {
      ghost var was := data[..];
      AddToUnit(l, data, j, value);
      OneMoreUnit(l, old(data[..]), was, data[..], j, unit => Grown(l, value, unit));
      j := j + 1;
      x := x - 1;
    }
  }

  lemma OneMoreUnit(l: Layout, first: seq<Byte>, was: seq<Byte>, now: seq<Byte>, n: nat, f: seq<Byte> -> seq<Byte>)
    requires l.bitsPerPixel in {8, 16, 32} && |first| == |was| == |now| && PixelStart(l.bitsPerPixel, n + 1) <= |now|
    requires UnitsMapped(l, first, was, n, f) && UnitAt(l, now, n) == f(UnitAt(l, was, n))
    requires forall b :: 0 <= b < |now| && (b < PixelStart(l.bitsPerPixel, n) || b >= PixelStart(l.bitsPerPixel, n + 1)) ==> now[b] == was[b]
    ensures UnitsMapped(l, first, now, n + 1, f)
  {
    assert UnitAt(l, was, n) == UnitAt(l, first, n);
    forall j: nat | j < n
      ensures UnitAt(l, now, j) == f(UnitAt(l, first, j))
    {
      assert UnitAt(l, now, j) == UnitAt(l, was, j);
    }
  }

  /** Pixels from (x, y) on, in the order of the scanlines, have grown by value and the others are unchanged. */
  ghost predicate AddedFrom(l: Layout, was: seq<Byte>, now: seq<Byte>, value: int, x: int, y: int) {
    forall i: nat, j: nat :: l.Has(i, j) ==> AddedOrNot(l, was, now, value, i, j, j > y || (j == y && i >= x))
  }

  ghost predicate AddedOrNot(l: Layout, was: seq<Byte>, now: seq<Byte>, value: int, i: nat, j: nat, done: bool) {
    if done then AddedAt(l, was, now, value, i, j) else Pixel(l, now, i, j) == Pixel(l, was, i, j)
  }

  lemma SamePixel(l: Layout, first: seq<Byte>, was: seq<Byte>, now: seq<Byte>, value: int, i: nat, j: nat, done: bool)
    requires AddedOrNot(l, first, was, value, i, j, done) && Pixel(l, now, i, j) == Pixel(l, was, i, j)
    ensures AddedOrNot(l, first, now, value, i, j, done)
  {
  }

  lemma OneMorePixel(l: Layout, first: seq<Byte>, was: seq<Byte>, now: seq<Byte>, value: int, x: nat, y: nat, p: int)
    requires l.Valid() && l.Has(x, y) && AddedFrom(l, first, was, value, x + 1, y)
    requires p == Pixel(l, was, x, y) + value && Written(l, was, now, x, y, p, l.PixelDepth())
    ensures AddedFrom(l, first, now, value, x, y)
  {
    PutThenGet(l, was, now, x, y, p);
    assert AddedOrNot(l, first, was, value, x, y, false);
    assert AddedAt(l, first, now, value, x, y);
    forall i: nat, j: nat | l.Has(i, j)
      ensures AddedOrNot(l, first, now, value, i, j, j > y || (j == y && i >= x))
    {
      if (i, j) != (x, y) {
        PutElsewhere(l, was, now, x, y, p, l.PixelDepth(), i, j);
        SamePixel(l, first, was, now, value, i, j, j > y || (j == y && i >= x + 1));
      }
    }
  }

  method AddToRow(image: XImage, value: int, y: nat, ghost first: seq<Byte>)
    requires image.Valid() && y < image.layout.height && AddedFrom(image.layout, first, image.data[..], value, 0, y + 1)
    modifies image`getPixel, image`putPixel, image.data
    ensures AddedFrom(image.layout, first, image.data[..], value, 0, y)
  {
    var x: nat := image.layout.width;
    NextRow(image.layout, first, image.data[..], value, y);
    while x > 0
      invariant x <= image.layout.width
      invariant AddedFrom(image.layout, first, image.data[..], value, x, y)
    {
      x := x - 1;
      var pixel := image.GetPixel(x, y);
      ghost var was := image.data[..];
      var sum := pixel + value;
      var status := image.PutPixel(x, y, sum);
      OneMorePixel(image.layout, first, was, image.data[..], value, x, y, sum);
    }
  }

  /** The loops of _XAddPixel that get and put every pixel. */
  method AddToPixels(image: XImage, value: int)
    requires image.Valid()
    modifies image`getPixel, image`putPixel, image.data
    ensures Added(image.layout, old(image.data[..]), image.data[..], value)
  {
    ghost var first := image.data[..];
    var y: nat := image.layout.height;
    while y > 0
      invariant y <= image.layout.height
      invariant AddedFrom(image.layout, first, image.data[..], value, 0, y)
    {
      y := y - 1;
      AddToRow(image, value, y, first);
    }
    AllAdded(image.layout, first, image.data[..], value);
  }

  lemma AllAdded(l: Layout, first: seq<Byte>, now: seq<Byte>, value: int)
    requires AddedFrom(l, first, now, value, 0, 0)
    ensures Added(l, first, now, value)
  {
    forall i: nat, j: nat | l.Has(i, j)
      ensures AddedAt(l, first, now, value, i, j)
    {
      assert AddedOrNot(l, first, now, value, i, j, j > 0 || (j == 0 && i >= 0));
    }
  }

  lemma NextRow(l: Layout, first: seq<Byte>, now: seq<Byte>, value: int, y: nat)
    requires AddedFrom(l, first, now, value, 0, y + 1)
    ensures AddedFrom(l, first, now, value, l.width, y)
  {
    forall i: nat, j: nat | l.Has(i, j)
      ensures AddedOrNot(l, first, now, value, i, j, j > y || (j == y && i >= l.width))
    {
      assert AddedOrNot(l, first, now, value, i, j, j > y + 1 || (j == y + 1 && i >= 0));
    }
  }

  /** _XAddPixel */
  method XAddPixel(image: XImage, value: int)
    requires image.Valid()
    modifies image`getPixel, image`putPixel, image.data
    ensures Outcome(image.layout, image.host, value, old(image.data[..]), image.data[..])
    ensures Exact(image.layout, image.host, value) ==> Added(image.layout, old(image.data[..]), image.data[..], value)
    ensures image.layout.OneBit() && Added(image.layout, old(image.data[..]), image.data[..], value) ==> Exact(image.layout, image.host, value)
  {
    ghost var l, was := image.layout, image.data[..];
    if value == 0 {
    } else if image.layout.OneBit() {
      ComplementBytes(image.data, image.layout.bytesPerLine * image.layout.height);
    } else if image.layout.format == ZPixmap && image.layout.bitsPerPixel == 8 {
      UnitsInside(l);
      AddToUnits(image.layout, image.data, image.layout.bytesPerLine * image.layout.height, value);
    } else if image.layout.format == ZPixmap && image.layout.bitsPerPixel == 16 && image.host == image.layout.byteOrder {
      UnitsInside(l);
      AddToUnits(image.layout, image.data, image.layout.bytesPerLine / 2 * image.layout.height, value);
    } else if image.layout.format == ZPixmap && image.layout.bitsPerPixel == 32 && image.host == image.layout.byteOrder {
      UnitsInside(l);
      AddToUnits(image.layout, image.data, image.layout.bytesPerLine / 4 * image.layout.height, value);
    } else {
      AddToPixels(image, value);
    }
    ExactlyAdded(l, image.host, value, was, image.data[..]);
  }

  // ---------- cutting out a part ----------

  /** The bits of a scanline of a part of the given width. */
  function PartBits(l: Layout, width: nat): nat { if l.format == ZPixmap then l.bitsPerPixel * width else width }

  /** The image fields _XSubImage fills in. */
  function SubLayout(l: Layout, width: UInt, height: UInt): Layout
    requires l.bitmapPad in {8, 16, 32}
  {
    l.(width := Extent(width), height := Extent(height), xoffset := 0, bytesPerLine := LineBytes(PartBits(l, width), l.bitmapPad))
  }

  /** The part has the size asked for, no offset, scanlines of the fewest padded bytes and data for all of them, and
      is otherwise laid out like the image. */
  ghost predicate PartOf(l: Layout, sub: Layout, size: int, width: UInt, height: UInt) {
    && sub.width == width && sub.height == height && sub.xoffset == 0
    && sub.format == l.format && sub.byteOrder == l.byteOrder
    && sub.bitmapUnit == l.bitmapUnit && sub.bitmapBitOrder == l.bitmapBitOrder && sub.bitmapPad == l.bitmapPad
    && sub.depth == l.depth && sub.bitsPerPixel == l.bitsPerPixel
    && Fewest(if l.format == ZPixmap then width * l.bitsPerPixel else width, l.bitmapPad, sub.bytesPerLine)
    && size == sub.bytesPerLine * height * if l.format == XYPixmap then l.depth else 1
  }

  lemma SubLayoutIsPart(l: Layout, width: UInt, height: UInt)
    requires l.Valid() && SizesFit(l, width, height)
    ensures PartOf(l, SubLayout(l, width, height), PartSize(l, width, height), width, height)
  {
    PartFields(l, width, height);
    PartProduct(SubLayout(l, width, height), PadBytes(PartBits(l, width), l.bitmapPad), height, l.Planes());
    PadBytesFewest(PartBits(l, width), l.bitmapPad);
    LineBytesIs(PartBits(l, width), l.bitmapPad);
    assert l.bitsPerPixel * width == width * l.bitsPerPixel;
  }

  /** The bytes of data that _XSubImage asks for: an int. */
  function PartSize(l: Layout, width: UInt, height: UInt): SInt
    requires l.bitmapPad in {8, 16, 32}
  {
    Signed(LineBytes(PartBits(l, width), l.bitmapPad) * height * l.Planes())
  }

  /** The sizes of the part fit into the ints they are kept in. */
  predicate SizesFit(l: Layout, width: UInt, height: UInt)
    requires l.bitmapPad in {8, 16, 32}
  {
    && width < 0x8000_0000 && height < 0x8000_0000
    && PartBits(l, width) + l.bitmapPad - 1 < 0x1_0000_0000
    && PadBytes(PartBits(l, width), l.bitmapPad) * height * l.Planes() < 0x8000_0000
  }

  lemma SubLayoutValid(l: Layout, width: UInt, height: UInt)
    requires l.Valid() && SizesFit(l, width, height)
    ensures SubLayout(l, width, height).Valid()
    ensures SubLayout(l, width, height).PixelDepth() == l.PixelDepth()
    ensures SubLayout(l, width, height).DataBytes() == PartSize(l, width, height)
  {
    PartFields(l, width, height);
    PartProduct(SubLayout(l, width, height), PadBytes(PartBits(l, width), l.bitmapPad), height, l.Planes());
  }

  lemma PartFields(l: Layout, width: UInt, height: UInt)
    requires l.Valid() && width < 0x8000_0000 && height < 0x8000_0000 && PartBits(l, width) + l.bitmapPad - 1 < 0x1_0000_0000
    ensures var sub, line := SubLayout(l, width, height), PadBytes(PartBits(l, width), l.bitmapPad);
      && sub.Valid() && sub.PixelDepth() == l.PixelDepth()
      && sub.bytesPerLine == line && sub.height == height && sub.Planes() == l.Planes()
  {
    LineBytesIs(PartBits(l, width), l.bitmapPad);
    if l.OneBit() { assert 1 * width == width; }
  }

  lemma PartProduct(sub: Layout, line: nat, height: nat, planes: nat)
    requires sub.bytesPerLine == line && sub.height == height && sub.Planes() == planes
    ensures sub.DataBytes() == line * height * planes && line * height * planes >= 0
    ensures line * height * planes < 0x8000_0000 ==> Signed(line * height * planes) == line * height * planes
  {
    assert 0 <= line * height by { MulMonotonic(0, line, height); }
    MulMonotonic(0, line * height, planes);
    SignedIs(line * height * planes);
  }

  /** A part that has pixels has room for them in its data exactly if its sizes fit. */
  lemma PartRoomIff(l: Layout, width: UInt, height: UInt)
    requires l.Valid() && !l.Bad() && 0 < width < 0x8000_0000 && 0 < height < 0x8000_0000
    ensures RoomIn(SubLayout(l, width, height), PartSize(l, width, height)) <==> SizesFit(l, width, height)
  {
    var sub, size := SubLayout(l, width, height), PartSize(l, width, height);
    var line, total := sub.bytesPerLine, sub.DataBytes();
    LineBytesIs(PartBits(l, width), l.bitmapPad);
    PartProduct(sub, line, height, l.Planes());
    RoomIff(sub);
    NeededIs(sub);
    NeededBits(l, width, height);
    if SizesFit(l, width, height) {
      assert size == total;
    } else if RoomIn(sub, size) {
      LastRow(sub);
      assert WindowFits(sub, sub.width - 1, sub.height - 1, 0, size);
      assert size >= total - line + Needed(sub);
      TooSmall(total, line, Needed(sub), size, PartBits(l, width), l.bitmapPad);
    }
  }

  /** A part of 2 ^ 27 columns of 32 bits: no data are asked for. */
  lemma WidePart()
    ensures var l := Layout(1, 1, 0, ZPixmap, LSBFirst, 32, LSBFirst, 32, 24, 4, 32);
      && l.Valid() && PartSize(l, 0x800_0000, 1) == 0 && !RoomIn(SubLayout(l, 0x800_0000, 1), PartSize(l, 0x800_0000, 1))
  {
    var l := Layout(1, 1, 0, ZPixmap, LSBFirst, 32, LSBFirst, 32, 24, 4, 32);
    assert LineBytes(PartBits(l, 0x800_0000), 32) == 0;
    PartRoomIff(l, 0x800_0000, 1);
  }

  /** What a scanline of the part needs: no more than its padded bits, and at least its bits. */
  lemma NeededBits(l: Layout, width: UInt, height: UInt)
    requires l.Valid() && !l.Bad() && 0 < width < 0x8000_0000
    ensures var need := Needed(SubLayout(l, width, height));
      PartBits(l, width) <= 8 * need && need <= PadBytes(PartBits(l, width), l.bitmapPad) && need > 0
  {
    var unit := if l.InUnits() then l.bitmapUnit else 8;
    NeededUnit(l, width, height, unit);
    assert PartBits(l, width) > 0 by { if l.format == ZPixmap { MulMonotonic(1, l.bitsPerPixel, width); } }
    LineBytesIs(PartBits(l, width), unit);
    PadBytesMore(PartBits(l, width), unit, l.bitmapPad);
  }

  lemma NeededUnit(l: Layout, width: UInt, height: UInt, unit: nat)
    requires l.Valid() && !l.Bad() && width < 0x8000_0000 && unit == if l.InUnits() then l.bitmapUnit else 8
    ensures Needed(SubLayout(l, width, height)) == PadBytes(PartBits(l, width), unit)
  {
    var sub := SubLayout(l, width, height);
    assert sub.InUnits() <==> l.InUnits();
    assert l.InUnits() || l.format == ZPixmap;
    if l.OneBit() { assert 1 * width == width; }
  }

  lemma TooSmall(total: int, line: int, need: int, size: int, n: nat, pad: nat)
    requires pad in {8, 16, 32} && line == LineBytes(n, pad) && n <= 8 * need && need <= PadBytes(n, pad) && need > 0
    requires size == Signed(total) && size >= total - line + need && total >= 0
    ensures n + pad - 1 < 0x1_0000_0000 && total < 0x8000_0000
  {
    LineBytesIs(n, pad);
    SignedIs(total);
  }

  /** What pixel (i, j) of the part shows: the pixel of the image, or zero outside it. */
  function Shown(l: Layout, data: seq<Byte>, x: nat, y: nat, i: nat, j: nat): nat {
    if l.Has(x + i, y + j) then Pixel(l, data, x + i, y + j) else 0
  }

  ghost predicate ShownOrZero(l: Layout, data: seq<Byte>, x: nat, y: nat, sub: Layout, part: seq<Byte>, i: nat, j: nat, done: bool) {
    Pixel(sub, part, i, j) == if done then Shown(l, data, x, y, i, j) else 0
  }

  /** The pixels of the part before (i, j), in the order of the scanlines, are those of the image; the others
      are zero. */
  ghost predicate CopiedUpTo(l: Layout, data: seq<Byte>, x: nat, y: nat, sub: Layout, part: seq<Byte>, i: int, j: int) {
    forall a: nat, b: nat :: sub.Has(a, b) ==>
      ShownOrZero(l, data, x, y, sub, part, a, b, b < j || (b == j && a < i))
  }

  /** The pixel copied shows the pixel of the image. */
  lemma CopiedHere(l: Layout, data: seq<Byte>, x: nat, y: nat, sub: Layout, was: seq<Byte>, now: seq<Byte>, i: nat, j: nat, p: nat)
    requires sub.Valid() && sub.PixelDepth() == l.PixelDepth() && sub.Has(i, j) && l.Has(x + i, y + j)
    requires p == Pixel(l, data, x + i, y + j) && Written(sub, was, now, i, j, p, sub.PixelDepth())
    ensures Pixel(sub, now, i, j) == p
  {
    PutThenGet(sub, was, now, i, j, p);
    ToNatBound(PixelBits(l, data, x + i, y + j));
    DivMod(0, Pow2(l.PixelDepth()), p, p);
  }

  lemma CopiedPixel(l: Layout, data: seq<Byte>, x: nat, y: nat, sub: Layout, was: seq<Byte>, now: seq<Byte>, i: nat, j: nat, p: nat)
    requires sub.Valid() && sub.PixelDepth() == l.PixelDepth() && sub.Has(i, j) && l.Has(x + i, y + j)
    requires CopiedUpTo(l, data, x, y, sub, was, i, j)
    requires p == Pixel(l, data, x + i, y + j) && Written(sub, was, now, i, j, p, sub.PixelDepth())
    ensures CopiedUpTo(l, data, x, y, sub, now, i + 1, j)
  {
    CopiedHere(l, data, x, y, sub, was, now, i, j, p);
    forall a: nat, b: nat | sub.Has(a, b)
      ensures ShownOrZero(l, data, x, y, sub, now, a, b, b < j || (b == j && a < i + 1))
    {
      if (a, b) != (i, j) {
        PutElsewhere(sub, was, now, i, j, p, sub.PixelDepth(), a, b);
        assert ShownOrZero(l, data, x, y, sub, was, a, b, b < j || (b == j && a < i));
      }
    }
  }

  /** The end of a row: further pixels of it are outside the image. */
  lemma RowCopied(l: Layout, data: seq<Byte>, x: nat, y: nat, sub: Layout, part: seq<Byte>, i: nat, j: nat)
    requires CopiedUpTo(l, data, x, y, sub, part, i, j) && (i >= sub.width || x + i >= l.width)
    ensures CopiedUpTo(l, data, x, y, sub, part, 0, j + 1)
  {
    forall a: nat, b: nat | sub.Has(a, b)
      ensures ShownOrZero(l, data, x, y, sub, part, a, b, b < j + 1 || (b == j + 1 && a < 0))
    {
      assert ShownOrZero(l, data, x, y, sub, part, a, b, b < j || (b == j && a < i));
    }
  }

  lemma AllCopied(l: Layout, data: seq<Byte>, x: nat, y: nat, sub: Layout, part: seq<Byte>, j: nat)
    requires CopiedUpTo(l, data, x, y, sub, part, 0, j) && (j >= sub.height || y + j >= l.height)
    ensures forall a: nat, b: nat :: sub.Has(a, b) ==> Pixel(sub, part, a, b) == Shown(l, data, x, y, a, b)
  {
    forall a: nat, b: nat | sub.Has(a, b)
      ensures Pixel(sub, part, a, b) == Shown(l, data, x, y, a, b)
    {
      assert ShownOrZero(l, data, x, y, sub, part, a, b, b < j || (b == j && a < 0));
    }
  }

  lemma NothingCopied(l: Layout, data: seq<Byte>, x: nat, y: nat, sub: Layout, part: seq<Byte>)
    requires part == Zeros(|part|)
    ensures CopiedUpTo(l, data, x, y, sub, part, 0, 0)
  {
    forall a: nat, b: nat | sub.Has(a, b)
      ensures ShownOrZero(l, data, x, y, sub, part, a, b, b < 0 || (b == 0 && a < 0))
    {
      ToNatZeros(PixelBits(sub, part, a, b));
    }
  }

  method CopyOne(image: XImage, x: nat, y: nat, col: nat, row: nat, sub: XImage)
    requires image.Valid() && sub.Valid() && image != sub && image.data != sub.data
    requires sub.layout.PixelDepth() == image.layout.PixelDepth()
    requires sub.layout.Has(col, row) && image.layout.Has(x + col, y + row)
    requires CopiedUpTo(image.layout, image.data[..], x, y, sub.layout, sub.data[..], col, row)
    modifies image`getPixel, image`putPixel, sub`getPixel, sub`putPixel, sub.data
    ensures CopiedUpTo(image.layout, image.data[..], x, y, sub.layout, sub.data[..], col + 1, row)
    ensures image.data[..] == old(image.data[..])
  {
    ghost var picture := image.data[..];
    var pixel := image.GetPixel(x + col, y + row);
    var status := sub.PutPixel(col, row, pixel);
    assert image.data[..] == picture;
    CopiedPixel(image.layout, picture, x, y, sub.layout, old(sub.data[..]), sub.data[..], col, row, pixel);
  }

  method CopyRow(image: XImage, x: nat, y: nat, width: nat, row: nat, sub: XImage)
    requires image.Valid() && sub.Valid() && image != sub && image.data != sub.data
    requires sub.layout.PixelDepth() == image.layout.PixelDepth()
    requires width <= sub.layout.width && x + width <= image.layout.width && (width == sub.layout.width || x + width == image.layout.width)
    requires row < sub.layout.height && y + row < image.layout.height
    requires CopiedUpTo(image.layout, image.data[..], x, y, sub.layout, sub.data[..], 0, row)
    modifies image`getPixel, image`putPixel, sub`getPixel, sub`putPixel, sub.data
    ensures CopiedUpTo(image.layout, image.data[..], x, y, sub.layout, sub.data[..], 0, row + 1)
    ensures image.data[..] == old(image.data[..])
  {
    var col: nat := 0;
    while col < width
      invariant col <= width
      invariant image.data[..] == old(image.data[..])
      invariant CopiedUpTo(image.layout, image.data[..], x, y, sub.layout, sub.data[..], col, row)
    {
      CopyOne(image, x, y, col, row, sub);
      col := col + 1;
    }
    RowCopied(image.layout, image.data[..], x, y, sub.layout, sub.data[..], width, row);
  }

  /** The loops of _XSubImage: the part of the image from (x, y) on, of the given size, is copied. */
  method CopyPart(image: XImage, x: nat, y: nat, width: nat, height: nat, sub: XImage)
    requires image.Valid() && sub.Valid() && image != sub && image.data != sub.data
    requires sub.layout.PixelDepth() == image.layout.PixelDepth()
    requires width <= sub.layout.width && x + width <= image.layout.width && (width == sub.layout.width || x + width == image.layout.width)
    requires height <= sub.layout.height && y + height <= image.layout.height
    requires height == sub.layout.height || y + height == image.layout.height
    requires sub.data[..] == Zeros(sub.data.Length)
    modifies image`getPixel, image`putPixel, sub`getPixel, sub`putPixel, sub.data
    ensures forall i: nat, j: nat :: sub.layout.Has(i, j) ==>
              Pixel(sub.layout, sub.data[..], i, j) == Shown(image.layout, image.data[..], x, y, i, j)
    ensures image.data[..] == old(image.data[..])
  {
    NothingCopied(image.layout, image.data[..], x, y, sub.layout, sub.data[..]);
    var row: nat := 0;
    while row < height
      invariant row <= height
      invariant image.data[..] == old(image.data[..])
      invariant CopiedUpTo(image.layout, image.data[..], x, y, sub.layout, sub.data[..], 0, row)
    {
      CopyRow(image, x, y, width, row, sub);
      row := row + 1;
    }
    AllCopied(image.layout, image.data[..], x, y, sub.layout, sub.data[..], height);
  }

  /** How a call of _XSubImage ends. When the sizes do not fit, or a pixel outside the image is read, what it does to
      the memory is not part of this model. */
  datatype SubStatus = NoMemory | SizesWrapped | ReadsOutside | Made

  /** How many columns (or rows) of the part lie in the image: size - start, compared as an unsigned int. */
  function Kept(size: int, start: SInt, n: UInt): UInt { if n > Unsigned(size - start) then Unsigned(size - start) else n }

  /** The turns of the loop from start, an int, while it is below start + n, an unsigned int. */
  function Turns(start: SInt, n: UInt): nat {
    if Unsigned(start) < Unsigned(start + n) then Unsigned(start + n) - Unsigned(start) else 0
  }

  /** for (i = start; i < start + n; i++) enters its body after j steps: an int is compared with an unsigned int. */
  predicate Enters(start: SInt, n: UInt, j: nat) { Unsigned(start + j) < Unsigned(start + n) }

  /** The loop takes exactly these turns. */
  lemma TurnsOfLoop(start: SInt, n: UInt, j: nat)
    ensures j <= Turns(start, n) <==> forall i :: 0 <= i < j ==> Enters(start, n, i)
  {
    forall i: nat | i <= Turns(start, n) && i <= j
      ensures Enters(start, n, i) <==> i < Turns(start, n)
    {
      if i > 0 {
        SameMod(start + i, Unsigned(start) + i, start / 0x1_0000_0000, 0x1_0000_0000);
        UnsignedIs(Unsigned(start) + i);
      }
    }
    if j > Turns(start, n) { assert !Enters(start, n, Turns(start, n)); }
  }

  /** Something is copied. */
  predicate Copies(l: Layout, x: SInt, y: SInt, width: UInt, height: UInt) {
    Turns(x, Kept(l.width, x, width)) > 0 && Turns(y, Kept(l.height, y, height)) > 0
  }

  /** From a column of the image the loop copies as far as image and part go, and from one that is not in it but not
      negative, nothing or what is right of it. */
  lemma TurnsAre(size: nat, start: SInt, n: UInt)
    requires size < 0x8000_0000
    ensures 0 <= start < size ==> Turns(start, Kept(size, start, n)) == if n <= size - start then n else size - start
    ensures start == size ==> Turns(start, Kept(size, start, n)) == 0
  {
    if 0 <= start <= size {
      UnsignedIs(start);
      UnsignedIs(size - start);
      UnsignedIs(start + Kept(size, start, n));
    }
  }

  /** What pixel (i, j) of a part with the given corner shows. A negative corner shows nothing. */
  function PartPixel(l: Layout, data: seq<Byte>, x: int, y: int, i: nat, j: nat): nat {
    if x >= 0 && y >= 0 then Shown(l, data, x, y, i, j) else 0
  }

  lemma CopiesNothing(l: Layout, data: seq<Byte>, x: SInt, y: SInt, width: UInt, height: UInt, sub: Layout, part: seq<Byte>)
    requires l.width < 0x8000_0000 && l.height < 0x8000_0000 && !Copies(l, x, y, width, height) && part == Zeros(|part|)
    requires sub.width <= width && sub.height <= height
    ensures forall i: nat, j: nat :: sub.Has(i, j) ==> Pixel(sub, part, i, j) == PartPixel(l, data, x, y, i, j)
  {
    TurnsAre(l.width, x, width);
    TurnsAre(l.height, y, height);
    forall i: nat, j: nat | sub.Has(i, j)
      ensures Pixel(sub, part, i, j) == PartPixel(l, data, x, y, i, j)
    {
      ToNatZeros(PixelBits(sub, part, i, j));
    }
  }

  /** _XSubImage, whose memory may not be granted. A call with a corner outside the image goes wrong just if it copies
      anything. */
  method XSubImage(image: XImage, x: SInt, y: SInt, width: UInt, height: UInt, granted: bool) returns (sub: XImage?, status: SubStatus)
    requires image.Valid() && image.layout.width < 0x8000_0000 && image.layout.height < 0x8000_0000
    modifies image`getPixel, image`putPixel
    ensures status == NoMemory <==> !granted
    ensures status == SizesWrapped <==> granted && !SizesFit(image.layout, width, height)
    ensures status == ReadsOutside <==>
              granted && SizesFit(image.layout, width, height)
              && Copies(image.layout, x, y, width, height) && !image.layout.Has(x, y)
    ensures 0 <= x <= image.layout.width && 0 <= y <= image.layout.height ==> status != ReadsOutside
    ensures sub != null <==> status == Made
    ensures image.data[..] == old(image.data[..])
    ensures sub != null ==>
              && fresh(sub) && fresh(sub.data) && sub.Valid() && sub.layout == SubLayout(image.layout, width, height)
              && PartOf(image.layout, sub.layout, sub.data.Length, width, height)
              && forall i: nat, j: nat :: sub.layout.Has(i, j) ==>
                   Pixel(sub.layout, sub.data[..], i, j) == PartPixel(image.layout, image.data[..], x, y, i, j)
  {
    ghost var L := image.layout;
    TurnsAre(L.width, x, width);
    TurnsAre(L.height, y, height);
    if !granted {
      return null, NoMemory;
    }
    if !SizesFit(image.layout, width, height) {
      return null, SizesWrapped;
    }
    SubLayoutValid(L, width, height);
    SubLayoutIsPart(L, width, height);
    sub := NewPart(image.layout, width, height, image.host);
    var h := Turns(y, Kept(image.layout.height, y, height));
    var w := Turns(x, Kept(image.layout.width, x, width));
    if h == 0 || w == 0 {
      CopiesNothing(L, image.data[..], x, y, width, height, sub.layout, sub.data[..]);
    } else if !image.layout.Has(x, y) {
      return null, ReadsOutside;
    } else {
      CopyPart(image, x, y, w, h, sub);
    }
    status := Made;
  }

  /** The length of a scanline and the size of the data, in 32 bits. */
  method PartBytes(l: Layout, width: UInt, height: UInt) returns (line: nat, dsize: SInt)
    requires l.Valid()
    ensures line == LineBytes(PartBits(l, width), l.bitmapPad) && dsize == PartSize(l, width, height)
  {
    if l.format == ZPixmap {
      line := RoundUp(Unsigned(l.bitsPerPixel * width), l.bitsPerPixel * width, l.bitmapPad);
    } else {
      UnsignedIs(width);
      line := RoundUp(width, width, l.bitmapPad);
    }
    dsize := Signed(line * height);
    SignedProduct(line * height, l.depth);
    if l.format == XYPixmap {
      dsize := Signed(dsize * l.depth);
    }
  }

  /** The fields of the part, and data of zeros. */
  method NewPart(l: Layout, width: UInt, height: UInt, host: Order) returns (sub: XImage)
    requires l.Valid() && SizesFit(l, width, height)
    ensures fresh(sub) && fresh(sub.data) && sub.Valid() && sub.layout == SubLayout(l, width, height)
    ensures sub.data[..] == Zeros(sub.data.Length) && sub.data.Length == PartSize(l, width, height)
  {
    SubLayoutValid(l, width, height);
    var line, dsize := PartBytes(l, width, height);
    var fields := l.(width := Extent(width), height := Extent(height), xoffset := 0, bytesPerLine := line);
    var store := new Byte[dsize](i => ZERO);
    assert store[..] == Zeros(store.Length);
    sub := new XImage(fields, store, host);
  }
}
