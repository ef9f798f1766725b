/** The image object and its pixel routines (libX11 ImUtil.c). */
module XImageObject {
  import opened Arith
  import opened Bits
  import opened BitCopy
  import opened ImageLayout
  import opened Image
  import opened ImageWindow
  import opened PixelAccess

  /** Which of the get or put routines is installed. */
  datatype Routine = Generic | One | Eight | Sixteen | ThirtyTwo

  /** The check a fast routine makes before it trusts its layout. */
  predicate Accepts(r: Routine, l: Layout) {
    match r
    case Generic => true
    case One => l.OneBit() && l.byteOrder == l.bitmapBitOrder
    case Eight => l.format == ZPixmap && l.bitsPerPixel == 8
    case Sixteen => l.format == ZPixmap && l.bitsPerPixel == 16
    case ThirtyTwo => l.format == ZPixmap && l.bitsPerPixel == 32
  }

  /** The routine takes the layout, and it is the fast one if there is one that does. */
  ghost predicate FastestFor(r: Routine, l: Layout) {
    Accepts(r, l) && forall s :: s != Generic && Accepts(s, l) ==> r == s
  }

  predicate AnyFast(l: Layout) { Accepts(One, l) || Accepts(Eight, l) || Accepts(Sixteen, l) || Accepts(ThirtyTwo, l) }

  /** Put through this routine, a pixel of depth 4 loses its upper bits: the generic routine does the work. */
  predicate Narrows(r: Routine, l: Layout) { r == Generic || !AnyFast(l) }

  /** What is written for p. */
  function PutAs(l: Layout, narrows: bool, p: int): int { if narrows then Narrowed(l, p) else p }

  /** All bits set aside for a pixel are written, so those that are read back. */
  lemma StoredWritten(l: Layout, narrows: bool, was: seq<Byte>, now: seq<Byte>, x: nat, y: nat, p: int)
    requires l.Valid() && Written(l, was, now, x, y, PutAs(l, narrows, p), l.Stored())
    ensures Written(l, was, now, x, y, p, l.PixelDepth())
  {
    if narrows { DepthFour(l, was, now, x, y, p); }
  }

  class XImage {
    var layout: Layout
    var data: array<Byte>
    var getPixel: Routine
    var putPixel: Routine
    const host: Order                // the byte order of the machine

    /** The data has room for every scanline of every plane. */
    ghost predicate Valid()
      reads this
    {
      layout.Valid() && layout.DataBytes() <= data.Length
    }

    constructor (l: Layout, d: array<Byte>, hostOrder: Order)
      ensures layout == l && data == d && host == hostOrder
      ensures getPixel == putPixel && FastestFor(getPixel, l)
    {
      host := hostOrder;
      layout := l;
      data := d;
      getPixel, putPixel := Generic, Generic;
      new;
      InitImageFuncPtrs();
    }

    /** _XInitImageFuncPtrs: the routines installed take the layout without falling back, and if there is a fast one
        that does, it is installed. */
    method InitImageFuncPtrs()
      modifies this`getPixel, this`putPixel
      ensures getPixel == putPixel && FastestFor(getPixel, layout)
    {
      if layout.format == ZPixmap && layout.bitsPerPixel == 8 {
        getPixel, putPixel := Eight, Eight;
      } else if layout.OneBit() && layout.byteOrder == layout.bitmapBitOrder {
        getPixel, putPixel := One, One;
      } else if layout.format == ZPixmap && layout.bitsPerPixel == 32 {
        getPixel, putPixel := ThirtyTwo, ThirtyTwo;
      } else if layout.format == ZPixmap && layout.bitsPerPixel == 16 {
        getPixel, putPixel := Sixteen, Sixteen;
      } else {
        getPixel, putPixel := Generic, Generic;
      }
    }

    // ---------- words ----------

    /** n bytes of the data, copied to the front of a cleared word. */
    static method Load(data: array<Byte>, start: nat, n: nat) returns (px: array<Byte>)
      requires start + n <= data.Length && n <= LONG_BYTES
      ensures fresh(px) && px[..] == Window(data[..], start, n)
    {
      px := new Byte[LONG_BYTES](i => ZERO);
      var i := n;
      while i > 0
        invariant 0 <= i <= n
        invariant forall j :: 0 <= j < n - i ==> px[j] == data[start + j]
        invariant forall j :: n - i <= j < LONG_BYTES ==> px[j] == ZERO
        invariant data[..] == old(data[..])
      {
        px[n - i] := data[start + n - i];
        i := i - 1;
      }
    }

    /** The first n bytes of a word, copied back. */
    static method Store(data: array<Byte>, start: nat, n: nat, px: array<Byte>)
      requires start + n <= data.Length && n <= px.Length && px != data
      modifies data
      ensures data[..] == Replaced(old(data[..]), start, n, px[..])
    {
      var i := n;
      while i > 0
        invariant 0 <= i <= n
        invariant forall j :: start <= j < start + n - i ==> data[j] == px[j - start]
        invariant forall j :: 0 <= j < data.Length && (j < start || j >= start + n - i) ==> data[j] == old(data[j])
        invariant px[..] == old(px[..])
      {
        data[start + n - i] := px[n - i];
        i := i - 1;
      }
    }

    /** _XReverse_Bytes */
    static method ReverseBytes(bpt: array<Byte>, nb: nat)
      requires 1 <= nb <= bpt.Length
      modifies bpt
      ensures forall j :: 0 <= j < nb ==> bpt[j] == Reverse(old(bpt[j]))
      ensures forall j :: nb <= j < bpt.Length ==> bpt[j] == old(bpt[j])
    {
      var i := 0;
      while true
        invariant 0 <= i < nb
        invariant forall j :: 0 <= j < i ==> bpt[j] == Reverse(old(bpt[j]))
        invariant forall j :: i <= j < bpt.Length ==> bpt[j] == old(bpt[j])
        decreases nb - i
      {
        bpt[i] := Reverse(bpt[i]);
        i := i + 1;
        if i == nb { break; }
      }
    }

    /** _xynormalizeimagebits, under the condition of XYNORMALIZE. */
    static method XYNormalize(l: Layout, bp: array<Byte>)
      requires l.bitmapUnit in {8, 16, 32} && bp.Length == LONG_BYTES
      modifies bp
      ensures bp[..] == UnitNormal(l, old(bp[..]))
    {
      if l.byteOrder == MSBFirst || l.bitmapBitOrder == MSBFirst {
        if l.byteOrder != l.bitmapBitOrder {
          if l.bitmapUnit == 16 {
            bp[0], bp[1] := bp[1], bp[0];
          } else if l.bitmapUnit == 32 {
            bp[3], bp[0] := bp[0], bp[3];
            bp[2], bp[1] := bp[1], bp[2];
          }
        }
        if l.bitmapBitOrder == MSBFirst {
          ReverseBytes(bp, l.bitmapUnit / 8);
        }
      }
    }

    /** _znormalizeimagebits, under the condition of ZNORMALIZE. */
    static method ZNormalize(l: Layout, bp: array<Byte>)
      requires bp.Length == LONG_BYTES
      modifies bp
      ensures bp[..] == PixelNormal(l, old(bp[..]))
    {
      if l.byteOrder == MSBFirst {
        match l.bitsPerPixel {
          case 4 =>
            bp[0] := Or(And(ShiftRight(bp[0], 4), LowMask(4)), And(ShiftLeft(bp[0], 4), HighMask(4)));
            assert bp[0] == old(bp[0])[4..] + old(bp[0])[..4];
          case 16 =>
            bp[0], bp[1] := bp[1], bp[0];
          case 24 =>
            bp[2], bp[0] := bp[0], bp[2];
          case 32 =>
            bp[3], bp[0] := bp[0], bp[3];
            bp[2], bp[1] := bp[1], bp[2];
          case _ =>
        }
      }
    }

    /** The number in a word, assembled from its most significant byte down. */
    static method WordOf(px: array<Byte>) returns (pixel: nat)
      requires px.Length == LONG_BYTES
      ensures pixel == ToNat(Flat(px[..]))
    {
      pixel := 0;
      var i: nat := LONG_BYTES;
      while i > 0
        invariant i <= LONG_BYTES
        invariant pixel == ToNat(Flat(px[i..]))
      {
        i := i - 1;
        FlatCons(px[i..]);
        assert px[i..][1..] == px[i + 1..];
        pixel := pixel * 256 + ToNat(px[i]);
      }
      assert px[0..] == px[..];
    }

    // ---------- the generic reader ----------

    /** The bit at position i of the unit at start. */
    static method UnitBit(l: Layout, data: array<Byte>, start: nat, i: nat) returns (bit: nat)
      requires l.bitmapUnit in {8, 16, 32} && i < l.bitmapUnit && start + l.bitmapUnit / 8 <= data.Length
      ensures bit == if SpotBit(data[..], Shifted(start, InUnit(l, i))) then 1 else 0
      ensures data[..] == old(data[..])
    {
      var px := Load(data, start, l.bitmapUnit / 8);
      XYNormalize(l, px);
      UnitRead(l, data[..], start, i);
      bit := if ShiftRight(px[i / 8], i % 8)[0] then 1 else 0;
    }

    /** The planes of an XYPixmap, most significant first. */
    static method PlanesOfPixel(l: Layout, data: array<Byte>, x: nat, y: nat) returns (pixel: nat)
      requires l.Valid() && l.DataBytes() <= data.Length && l.Has(x, y) && l.InUnits() && !l.OneBit()
      ensures pixel == Pixel(l, data[..], x, y)
      ensures data[..] == old(data[..])
    {
      pixel := 0;
      var plane: nat := 0;
      var i: nat := l.depth;
      ghost var bits := PixelBits(l, data[..], x, y);
      while i > 0
        invariant i <= l.depth
        invariant plane == (l.depth - i) * l.PlaneBytes()
        invariant pixel == ToNat(bits[i..])
        invariant data[..] == old(data[..])
      {
        i := i - 1;
        WindowInside(l, x, y, i);
        UnitPlace(l, x, y, i);
        var bit := UnitBit(l, data, plane + XYIndex(l, x, y), UnitPos(l.bitmapUnit, x + l.xoffset));
        BitBelow(bits, i);
        pixel := pixel * 2 + bit;
        NextPlane(l, plane, l.depth - i - 1);
        plane := plane + l.bytesPerLine * l.height;
      }
      assert bits[0..] == bits;
    }

    /** The bytes of a Z format pixel as a number. */
    static method ZPixel(l: Layout, data: array<Byte>, x: nat, y: nat) returns (pixel: nat)
      requires l.Valid() && l.DataBytes() <= data.Length && l.Has(x, y) && !l.InUnits() && !l.Bad()
      ensures LowBits(pixel, l.depth) == Pixel(l, data[..], x, y)
      ensures l.depth == l.bitsPerPixel ==> pixel == Pixel(l, data[..], x, y)
      ensures data[..] == old(data[..])
    {
      ZPixelRead(l, data[..], x, y);
      var px := Load(data, ZIndex(l, x, y), PixelBytes(l.bitsPerPixel));
      ZNormalize(l, px);
      pixel := WordOf(px);
      if l.bitsPerPixel == 4 {
        if x % 2 == 1 {
          pixel := pixel / 16;
        } else {
          pixel := pixel % 16;
        }
      }
    }

    /** _XGetPixel */
    method GetPixelGeneric(x: nat, y: nat) returns (pixel: nat)
      requires Valid() && layout.Has(x, y)
      ensures pixel == Pixel(layout, data[..], x, y)
      ensures data[..] == old(data[..])
    {
      if layout.OneBit() {
        WindowInside(layout, x, y, 0);
        OneBitPlace(layout, data[..], x, y);
        pixel := UnitBit(layout, data, XYIndex(layout, x, y), UnitPos(layout.bitmapUnit, x + layout.xoffset));
      } else if layout.format == XYPixmap {
        pixel := PlanesOfPixel(layout, data, x, y);
        PixelMasked(layout, data[..], x, y);
      } else if layout.format == ZPixmap {
        pixel := ZPixel(layout, data, x, y);
      } else {
        assert PixelBits(layout, data[..], x, y) == [];
        return 0;
      }
      if layout.bitsPerPixel != layout.depth {
        pixel := LowBits(pixel, layout.depth);
      }
    }

    // ---------- the generic writer ----------

    /** The bytes of an unsigned long, least significant first. */
    static method LongBytes(p: int) returns (s: seq<Byte>)
      ensures |s| == LONG_BYTES && Flat(s) == ToBits(p, LONG_BITS)
    {
      s := LowBytes(p, LONG_BYTES);
    }

    /** The n low bytes of a number, least significant first. */
    static method LowBytes(p: int, n: nat) returns (s: seq<Byte>)
      ensures |s| == n && Flat(s) == ToBits(p, 8 * n)
    {
      s := [];
      var px := p;
      ghost var all, w: nat := ToBits(p, 8 * n), 8 * n;
      for i := 0 to n
        invariant |s| == i && w == 8 * (n - i) && Emitted(s, px, w, all)
      {
        var b := LowByte(px, s, w, all);
        s := s + [b];
        px := px / 256;
        w := w - 8;
      }
      AllEmitted(s, px, all);
    }

    static method LowByte(px: int, ghost s: seq<Byte>, ghost w: nat, ghost all: seq<bool>) returns (b: Byte)
      requires w >= 8 && Emitted(s, px, w, all)
      ensures Emitted(s + [b], px / 256, w - 8, all)
    {
      b := ToBits(px, 8);
      NextByte(s, px, b, w, all);
    }

    /** Writes the low bit of pixel to position i of the unit at start. */
    static method PutUnitBit(l: Layout, data: array<Byte>, start: nat, i: nat, pixel: seq<Byte>)
      requires l.bitmapUnit in {8, 16, 32} && i < l.bitmapUnit && start + l.bitmapUnit / 8 <= data.Length && |pixel| > 0
      modifies data
      ensures BitSet(old(data[..]), data[..], Shifted(start, InUnit(l, i)), pixel[0][0])
    {
      var px := Load(data, start, l.bitmapUnit / 8);
      XYNormalize(l, px);
      PutBits(pixel, i, 1, px);
      ghost var t := px[..];
      XYNormalize(l, px);
      Store(data, start, l.bitmapUnit / 8, px);
      UnitBitSet(l, old(data[..]), start, i, pixel, t);
    }

    /** Writes bit k of a pixel, the low bit of npixel, to its plane. */
    static method PutPlane(l: Layout, data: array<Byte>, x: nat, y: nat, ghost p: int, npixel: int, plane: int, ghost k: nat, ghost first: seq<Byte>)
      requires l.Valid() && l.DataBytes() <= data.Length && l.Has(x, y) && l.InUnits() && !l.OneBit() && k < l.depth
      requires plane == (l.depth - k - 1) * l.PlaneBytes() && Shifts(npixel, p, k) && WrittenBelow(l, first, data[..], x, y, p, k)
      modifies data
      ensures Shifts(npixel / 2, p, k + 1) && WrittenBelow(l, first, data[..], x, y, p, k + 1)
    {
      WindowInside(l, x, y, k);
      UnitPlace(l, x, y, k);
      var pixel := LongBytes(npixel);
      LowestBit(p, npixel, k, pixel);
      ghost var was := data[..];
      PutUnitBit(l, data, plane + XYIndex(l, x, y), UnitPos(l.bitmapUnit, x + l.xoffset), pixel);
      OneMoreBit(l, first, was, data[..], x, y, p, k);
    }

    /** Writes the bits of a pixel to the planes of an XYPixmap, least significant first. */
    static method PutPlanes(l: Layout, data: array<Byte>, x: nat, y: nat, p: int)
      requires l.Valid() && l.DataBytes() <= data.Length && l.Has(x, y) && l.InUnits() && !l.OneBit()
      modifies data
      ensures Written(l, old(data[..]), data[..], x, y, p, l.Stored())
    {
      var plane := l.bytesPerLine * l.height * (l.depth - 1);
      NextPlane(l, plane, l.depth - 1);
      var npixel := p;
      var j: nat := l.depth;
      while j > 0
        invariant j <= l.depth
        invariant plane == (j - 1) * l.PlaneBytes()
        invariant Shifts(npixel, p, l.depth - j)
        invariant WrittenBelow(l, old(data[..]), data[..], x, y, p, l.depth - j)
      {
        PutPlane(l, data, x, y, p, npixel, plane, l.depth - j, old(data[..]));
        npixel := npixel / 2;
        NextPlane(l, plane, j - 1);
        plane := plane - l.bytesPerLine * l.height;
        j := j - 1;
      }
    }

    static method PutZPixel(l: Layout, data: array<Byte>, x: nat, y: nat, p: int)
      requires l.Valid() && l.DataBytes() <= data.Length && l.Has(x, y) && !l.InUnits() && !l.Bad()
      modifies data
      ensures Written(l, old(data[..]), data[..], x, y, p, l.Stored())
    {
      WindowInside(l, x, y, 0);
      var pixel := LongBytes(p);
      var px := Load(data, ZIndex(l, x, y), PixelBytes(l.bitsPerPixel));
      ZNormalize(l, px);
      PutBits(pixel, BitOffset(l.bitsPerPixel, x), l.bitsPerPixel, px);
      ghost var t := px[..];
      ZNormalize(l, px);
      Store(data, ZIndex(l, x, y), PixelBytes(l.bitsPerPixel), px);
      ZPixelWritten(l, old(data[..]), x, y, p, pixel, t);
    }

    /** The three ways to write a pixel; none for a bad image. */
    static method PutStored(l: Layout, data: array<Byte>, x: nat, y: nat, pixel: int) returns (status: int)
      requires l.Valid() && l.DataBytes() <= data.Length && l.Has(x, y)
      modifies data
      ensures status == if l.Bad() then 0 else 1
      ensures Written(l, old(data[..]), data[..], x, y, pixel, l.Stored())
    {
      if l.OneBit() {
        WindowInside(l, x, y, 0);
        UnitPlace(l, x, y, 0);
        var bytes := LongBytes(pixel);
        PutUnitBit(l, data, XYIndex(l, x, y), UnitPos(l.bitmapUnit, x + l.xoffset), bytes);
        assert bytes[0][0] == Flat(bytes)[0];
        OneBitWritten(l, old(data[..]), data[..], x, y, pixel, bytes[0][0]);
      } else if l.format == XYPixmap {
        PutPlanes(l, data, x, y, pixel);
      } else if l.format == ZPixmap {
        PutZPixel(l, data, x, y, pixel);
      } else {
        return 0;
      }
      return 1;
    }

    /** _XPutPixel: writes every bit the image sets aside for the pixel. */
    method PutPixelGeneric(x: nat, y: nat, p: int) returns (status: int)
      requires Valid() && layout.Has(x, y)
      modifies data
      ensures status == if layout.Bad() then 0 else 1
      ensures Written(layout, old(data[..]), data[..], x, y, Narrowed(layout, p), layout.Stored())
    {
      var pixel := p;
      if layout.depth == 4 {
        pixel := pixel % 16;
      }
      status := PutStored(layout, data, x, y, pixel);
    }

    // ---------- the fast routines ----------

    /** _XGetPixel8 */
    method GetPixelEight(x: nat, y: nat) returns (pixel: nat)
      requires Valid() && layout.Has(x, y)
      modifies this`getPixel, this`putPixel
      ensures pixel == Pixel(layout, data[..], x, y)
      ensures data[..] == old(data[..])
      decreases if Accepts(Eight, layout) then 0 else 1, 0
    {
      if layout.format == ZPixmap && layout.bitsPerPixel == 8 {
        FastRead(layout, data[..], x, y);
        pixel := ToNat(data[y * layout.bytesPerLine + x]);
        if layout.depth != 8 {
          pixel := LowBits(pixel, layout.depth);
        }
      } else {
        InitImageFuncPtrs();
        pixel := GetPixel(x, y);
      }
    }

    /** _XGetPixel16 */
    method GetPixelSixteen(x: nat, y: nat) returns (pixel: nat)
      requires Valid() && layout.Has(x, y)
      modifies this`getPixel, this`putPixel
      ensures pixel == Pixel(layout, data[..], x, y)
      ensures data[..] == old(data[..])
      decreases if Accepts(Sixteen, layout) then 0 else 1, 0
    {
      if layout.format == ZPixmap && layout.bitsPerPixel == 16 {
        FastRead(layout, data[..], x, y);
        var addr := y * layout.bytesPerLine + 2 * x;
        if layout.byteOrder == MSBFirst {
          pixel := 256 * ToNat(data[addr]) + ToNat(data[addr + 1]);
        } else {
          pixel := 256 * ToNat(data[addr + 1]) + ToNat(data[addr]);
        }
        if layout.depth != 16 {
          pixel := LowBits(pixel, layout.depth);
        }
      } else {
        InitImageFuncPtrs();
        pixel := GetPixel(x, y);
      }
    }

    /** _XGetPixel32 */
    method GetPixelThirtyTwo(x: nat, y: nat) returns (pixel: nat)
      requires Valid() && layout.Has(x, y)
      modifies this`getPixel, this`putPixel
      ensures pixel == Pixel(layout, data[..], x, y)
      ensures data[..] == old(data[..])
      decreases if Accepts(ThirtyTwo, layout) then 0 else 1, 0
    {
      if layout.format == ZPixmap && layout.bitsPerPixel == 32 {
        FastRead(layout, data[..], x, y);
        var addr := y * layout.bytesPerLine + 4 * x;
        if host == layout.byteOrder {
          pixel := Native(host, data[addr..addr + 4]);
        } else if layout.byteOrder == MSBFirst {
          pixel := 0x100_0000 * ToNat(data[addr]) + 0x1_0000 * ToNat(data[addr + 1]) + 0x100 * ToNat(data[addr + 2])
                   + ToNat(data[addr + 3]);
        } else {
          pixel := 0x100_0000 * ToNat(data[addr + 3]) + 0x1_0000 * ToNat(data[addr + 2]) + 0x100 * ToNat(data[addr + 1])
                   + ToNat(data[addr]);
        }
        if layout.depth != 32 {
          pixel := LowBits(pixel, layout.depth);
        }
      } else {
        InitImageFuncPtrs();
        pixel := GetPixel(x, y);
      }
    }

    static method ReadOne(l: Layout, data: array<Byte>, x: nat, y: nat) returns (pixel: nat)
      requires l.Valid() && l.DataBytes() <= data.Length && l.Has(x, y) && l.OneBit() && l.byteOrder == l.bitmapBitOrder
      ensures pixel == Pixel(l, data[..], x, y)
    {
      var xoff := x + l.xoffset;
      OneRead(l, data[..], x, y);
      var yoff := y * l.bytesPerLine + xoff / 8;
      xoff := xoff % 8;
      pixel := if And(data[yoff], OneMask(l, xoff)) != ZERO then 1 else 0;
    }

    /** _XGetPixel1 */
    method GetPixelOne(x: nat, y: nat) returns (pixel: nat)
      requires Valid() && layout.Has(x, y)
      modifies this`getPixel, this`putPixel
      ensures pixel == Pixel(layout, data[..], x, y)
      ensures data[..] == old(data[..])
      decreases if Accepts(One, layout) then 0 else 1, 0
    {
      if layout.OneBit() && layout.byteOrder == layout.bitmapBitOrder {
        pixel := ReadOne(layout, data, x, y);
      } else {
        InitImageFuncPtrs();
        pixel := GetPixel(x, y);
      }
    }

    /** XGetPixel: whatever routine is installed, stale or not, the pixel is read. */
    method GetPixel(x: nat, y: nat) returns (pixel: nat)
      requires Valid() && layout.Has(x, y)
      modifies this`getPixel, this`putPixel
      ensures pixel == Pixel(layout, data[..], x, y)
      ensures data[..] == old(data[..])
      decreases if Accepts(getPixel, layout) then 0 else 1, 1
    {
      match getPixel {
        case Generic => pixel := GetPixelGeneric(x, y);
        case One => pixel := GetPixelOne(x, y);
        case Eight => pixel := GetPixelEight(x, y);
        case Sixteen => pixel := GetPixelSixteen(x, y);
        case ThirtyTwo => pixel := GetPixelThirtyTwo(x, y);
      }
    }

    static method WriteEight(l: Layout, data: array<Byte>, x: nat, y: nat, p: int)
      requires l.Valid() && l.DataBytes() <= data.Length && l.Has(x, y) && Accepts(Eight, l)
      modifies data
      ensures Written(l, old(data[..]), data[..], x, y, p, l.Stored())
    {
      WindowInside(l, x, y, 0);
      var addr := y * l.bytesPerLine + x;
      data[addr] := NumberByte(p, 0);
      FastWritten(l, old(data[..]), data[..], x, y, p);
    }

    /** _XPutPixel8 */
    method PutPixelEight(x: nat, y: nat, p: int) returns (status: int)
      requires Valid() && layout.Has(x, y)
      modifies this`getPixel, this`putPixel, data
      ensures status == if layout.Bad() then 0 else 1
      ensures Written(layout, old(data[..]), data[..], x, y, PutAs(layout, !AnyFast(layout), p), layout.Stored())
      ensures putPixel == old(putPixel) || FastestFor(putPixel, layout)
      decreases if Accepts(Eight, layout) then 0 else 1, 0
    {
      if layout.format == ZPixmap && layout.bitsPerPixel == 8 {
        WriteEight(layout, data, x, y, p);
        return 1;
      } else {
        InitImageFuncPtrs();
        status := PutPixel(x, y, p);
      }
    }

    static method StoreTwo(data: array<Byte>, addr: nat, first: Byte, second: Byte)
      requires addr + 2 <= data.Length
      modifies data
      ensures data[addr] == first && data[addr + 1] == second
      ensures forall j :: 0 <= j < data.Length && (j < addr || j >= addr + 2) ==> data[j] == old(data[j])
    {
      data[addr] := first;
      data[addr + 1] := second;
    }

    static method WriteSixteen(l: Layout, data: array<Byte>, x: nat, y: nat, p: int)
      requires l.Valid() && l.DataBytes() <= data.Length && l.Has(x, y) && Accepts(Sixteen, l)
      modifies data
      ensures Written(l, old(data[..]), data[..], x, y, p, l.Stored())
    {
      WindowInside(l, x, y, 0);
      var addr := y * l.bytesPerLine + 2 * x;
      if l.byteOrder == MSBFirst {
        StoreTwo(data, addr, NumberByte(p, 1), NumberByte(p, 0));
      } else {
        StoreTwo(data, addr, NumberByte(p, 0), NumberByte(p, 1));
      }
      assert addr == ZIndex(l, x, y) && l.bitsPerPixel / 8 == 2;
      assert data[addr] == FastBytes(l, p)[0] && data[addr + 1] == FastBytes(l, p)[1];
      FastWritten(l, old(data[..]), data[..], x, y, p);
    }

    /** _XPutPixel16 */
    method PutPixelSixteen(x: nat, y: nat, p: int) returns (status: int)
      requires Valid() && layout.Has(x, y)
      modifies this`getPixel, this`putPixel, data
      ensures status == if layout.Bad() then 0 else 1
      ensures Written(layout, old(data[..]), data[..], x, y, PutAs(layout, !AnyFast(layout), p), layout.Stored())
      ensures putPixel == old(putPixel) || FastestFor(putPixel, layout)
      decreases if Accepts(Sixteen, layout) then 0 else 1, 0
    {
      if layout.format == ZPixmap && layout.bitsPerPixel == 16 {
        WriteSixteen(layout, data, x, y, p);
        return 1;
      } else {
        InitImageFuncPtrs();
        status := PutPixel(x, y, p);
      }
    }

    static method StoreFour(data: array<Byte>, addr: nat, b: seq<Byte>)
      requires addr + 4 <= data.Length && |b| == 4
      modifies data
      ensures forall j :: addr <= j < addr + 4 ==> data[j] == b[j - addr]
      ensures forall j :: 0 <= j < data.Length && (j < addr || j >= addr + 4) ==> data[j] == old(data[j])
    {
      data[addr] := b[0];
      data[addr + 1] := b[1];
      data[addr + 2] := b[2];
      data[addr + 3] := b[3];
    }

    static method WriteThirtyTwo(l: Layout, host: Order, data: array<Byte>, x: nat, y: nat, p: int)
      requires l.Valid() && l.DataBytes() <= data.Length && l.Has(x, y) && Accepts(ThirtyTwo, l)
      modifies data
      ensures Written(l, old(data[..]), data[..], x, y, p, l.Stored())
    {
      WindowInside(l, x, y, 0);
      var addr := y * l.bytesPerLine + 4 * x;
      var b :=
        if host == l.byteOrder then NativeBytes(host, p)
        else if l.byteOrder == MSBFirst then [NumberByte(p, 3), NumberByte(p, 2), NumberByte(p, 1), NumberByte(p, 0)]
        else [NumberByte(p, 0), NumberByte(p, 1), NumberByte(p, 2), NumberByte(p, 3)];
      StoreFour(data, addr, b);
      FastWritten(l, old(data[..]), data[..], x, y, p);
    }

    /** _XPutPixel32 */
    method PutPixelThirtyTwo(x: nat, y: nat, p: int) returns (status: int)
      requires Valid() && layout.Has(x, y)
      modifies this`getPixel, this`putPixel, data
      ensures status == if layout.Bad() then 0 else 1
      ensures Written(layout, old(data[..]), data[..], x, y, PutAs(layout, !AnyFast(layout), p), layout.Stored())
      ensures putPixel == old(putPixel) || FastestFor(putPixel, layout)
      decreases if Accepts(ThirtyTwo, layout) then 0 else 1, 0
    {
      if layout.format == ZPixmap && layout.bitsPerPixel == 32 {
        WriteThirtyTwo(layout, host, data, x, y, p);
        return 1;
      } else {
        InitImageFuncPtrs();
        status := PutPixel(x, y, p);
      }
    }

    static method WriteOne(l: Layout, data: array<Byte>, x: nat, y: nat, p: int)
      requires l.Valid() && l.DataBytes() <= data.Length && l.Has(x, y) && l.OneBit() && l.byteOrder == l.bitmapBitOrder
      modifies data
      ensures Written(l, old(data[..]), data[..], x, y, p, l.Stored())
    {
      var xoff := x + l.xoffset;
      OneRead(l, data[..], x, y);
      var yoff := y * l.bytesPerLine + xoff / 8;
      xoff := xoff % 8;
      var bit := OneMask(l, xoff);
      if p % 2 == 1 {
        data[yoff] := Or(data[yoff], bit);
      } else {
        data[yoff] := And(data[yoff], Not(bit));
      }
      OneWritten(l, old(data[..]), data[..], x, y, p);
    }

    /** _XPutPixel1 */
    method PutPixelOne(x: nat, y: nat, p: int) returns (status: int)
      requires Valid() && layout.Has(x, y)
      modifies this`getPixel, this`putPixel, data
      ensures status == if layout.Bad() then 0 else 1
      ensures Written(layout, old(data[..]), data[..], x, y, PutAs(layout, !AnyFast(layout), p), layout.Stored())
      ensures putPixel == old(putPixel) || FastestFor(putPixel, layout)
      decreases if Accepts(One, layout) then 0 else 1, 0
    {
      if layout.OneBit() && layout.byteOrder == layout.bitmapBitOrder {
        WriteOne(layout, data, x, y, p);
        return 1;
      } else {
        InitImageFuncPtrs();
        status := PutPixel(x, y, p);
      }
    }

    /** XPutPixel: whatever routine is installed, the pixel is written. */
    method PutPixel(x: nat, y: nat, p: int) returns (status: int)
      requires Valid() && layout.Has(x, y)
      modifies this`getPixel, this`putPixel, data
      ensures status == if layout.Bad() then 0 else 1
      ensures Written(layout, old(data[..]), data[..], x, y, PutAs(layout, Narrows(old(putPixel), layout), p), layout.Stored())
      ensures Written(layout, old(data[..]), data[..], x, y, p, layout.PixelDepth())
      ensures putPixel == old(putPixel) || FastestFor(putPixel, layout)
      ensures Narrows(putPixel, layout) == Narrows(old(putPixel), layout)
      decreases if Accepts(putPixel, layout) then 0 else 1, 1
    {
      match putPixel {
        case Generic => status := PutPixelGeneric(x, y, p);
        case One => status := PutPixelOne(x, y, p);
        case Eight => status := PutPixelEight(x, y, p);
        case Sixteen => status := PutPixelSixteen(x, y, p);
        case ThirtyTwo => status := PutPixelThirtyTwo(x, y, p);
      }
      StoredWritten(layout, Narrows(old(putPixel), layout), old(data[..]), data[..], x, y, p);
    }
  }
}
