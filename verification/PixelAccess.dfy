/** What the pixel routines of ImUtil.c read and write, on the data before and after. */
module PixelAccess {
  import opened Arith
  import opened Bits
  import opened BitCopy
  import opened ImageLayout
  import opened Image
  import opened ImageWindow

  /** The d low bits of a pixel: masking with low_bits_table[d]. */
  function LowBits(pixel: nat, d: nat): nat { pixel % Pow2(d) }

  /** XYINDEX */
  function XYIndex(l: Layout, x: nat, y: nat): nat { y * l.bytesPerLine + UnitStart(l.bitmapUnit, x + l.xoffset) }

  /** ZINDEX */
  function ZIndex(l: Layout, x: nat, y: nat): nat { y * l.bytesPerLine + PixelStart(l.bitsPerPixel, x) }

  /** The macros as they are written: the index functions are these quotients. */
  lemma IndexFormulas(l: Layout, x: nat, y: nat)
    requires l.bitmapUnit in {8, 16, 32} && l.bitsPerPixel in {4, 8, 16, 24, 32}
    ensures XYIndex(l, x, y) == y * l.bytesPerLine + ((x + l.xoffset) / l.bitmapUnit) * (l.bitmapUnit / 8)
    ensures UnitPos(l.bitmapUnit, x + l.xoffset) == (x + l.xoffset) % l.bitmapUnit
    ensures ZIndex(l, x, y) == y * l.bytesPerLine + (x * l.bitsPerPixel) / 8
    ensures BitOffset(l.bitsPerPixel, x) == (x * l.bitsPerPixel) % 8
  {
  }

  /** The window of a pixel lies in its plane of the data. */
  lemma WindowInside(l: Layout, x: nat, y: nat, k: nat)
    requires l.Valid() && l.Has(x, y) && k < l.Stored()
    ensures 0 <= PlaneOf(l, k) * l.PlaneBytes()
    ensures l.InUnits() ==> PlaneOf(l, k) * l.PlaneBytes() + XYIndex(l, x, y) + l.bitmapUnit / 8 <= l.DataBytes()
    ensures !l.InUnits() ==> ZIndex(l, x, y) + PixelBytes(l.bitsPerPixel) <= l.DataBytes()
  {
    var n: nat := if l.InUnits() then UnitStart(l.bitmapUnit, x + l.xoffset) + l.bitmapUnit / 8
                  else PixelStart(l.bitsPerPixel, x) + PixelBytes(l.bitsPerPixel);
    if l.InUnits() { UnitFits(l, x); } else { PixelFits(l, x); }
    RowInside(l, y, n);
    MulMonotonic(0, y, l.bytesPerLine);
    PlaneInside(l, k, y * l.bytesPerLine + n);
  }

  /** A unit's bit is the bit of the pixel in its plane. */
  lemma UnitPlace(l: Layout, x: nat, y: nat, k: nat)
    requires l.InUnits()
    ensures Place(l, x, y, k) == Shifted(PlaneOf(l, k) * l.PlaneBytes() + XYIndex(l, x, y), InUnit(l, UnitPos(l.bitmapUnit, x + l.xoffset)))
  {
  }

  lemma PixelPlace(l: Layout, x: nat, y: nat, k: nat)
    requires !l.InUnits()
    ensures Place(l, x, y, k) == Shifted(ZIndex(l, x, y), InPixel(l, x, k))
  {
  }

  lemma FlatCons(s: seq<Byte>)
    requires s != []
    ensures Flat(s) == s[0] + Flat(s[1..])
    ensures ToNat(Flat(s)) == ToNat(s[0]) + 256 * ToNat(Flat(s[1..]))
  {
    forall j | 0 <= j < 8 * |s|
      ensures Flat(s)[j] == (s[0] + Flat(s[1..]))[j]
    {
      if j >= 8 { assert (j - 8) / 8 == j / 8 - 1 && (j - 8) % 8 == j % 8; }
    }
    assert Flat(s) == s[0] + Flat(s[1..]);
    ToNatAppend(s[0], Flat(s[1..]));
    SmallPowers();
  }

  lemma WindowShows(l: Layout, data: seq<Byte>, x: nat, y: nat)
    requires l.Valid() && !l.InUnits() && !l.Bad()
    ensures WindowBits(l, data, ZIndex(l, x, y), x, l.bitsPerPixel)[..l.depth] == PixelBits(l, data, x, y)
  {
    forall k: nat | k < l.depth
      ensures WindowBits(l, data, ZIndex(l, x, y), x, l.bitsPerPixel)[k] == SpotBit(data, Place(l, x, y, k))
    {
      PixelPlace(l, x, y, k);
    }
  }

  /** The value read from the window at start of a pixel, masked to d bits. */
  lemma WindowValue(l: Layout, data: seq<Byte>, start: nat, x: nat, d: nat)
    requires Whole(l) && d <= l.bitsPerPixel && start + PixelBytes(l.bitsPerPixel) <= |data|
    ensures var word := ToNat(Flat(PixelNormal(l, Window(data, start, PixelBytes(l.bitsPerPixel)))));
      var pixel := if l.bitsPerPixel != 4 then word else if x % 2 == 1 then word / 16 else word % 16;
      var bits := WindowBits(l, data, start, x, l.bitsPerPixel);
      LowBits(pixel, d) == ToNat(bits[..d]) && pixel == ToNat(bits)
  {
    var o := BitOffset(l.bitsPerPixel, x);
    var bits := Flat(PixelNormal(l, Window(data, start, PixelBytes(l.bitsPerPixel))));
    PixelRead(l, data, start, x);
    WordToPixel(bits, l.bitsPerPixel, x, d);
    assert bits[o..o + d] == bits[o..o + l.bitsPerPixel][..d];
  }

  /** The value read from the window of a Z format pixel, masked to the depth, is the pixel. */
  lemma ZPixelRead(l: Layout, data: seq<Byte>, x: nat, y: nat)
    requires l.Valid() && l.Has(x, y) && !l.InUnits() && !l.Bad() && l.DataBytes() <= |data|
    ensures ZIndex(l, x, y) + PixelBytes(l.bitsPerPixel) <= |data|
    ensures var word := ToNat(Flat(PixelNormal(l, Window(data, ZIndex(l, x, y), PixelBytes(l.bitsPerPixel)))));
      var pixel := if l.bitsPerPixel != 4 then word else if x % 2 == 1 then word / 16 else word % 16;
      && LowBits(pixel, l.depth) == Pixel(l, data, x, y)
      && (l.depth == l.bitsPerPixel ==> pixel == Pixel(l, data, x, y))
  {
    WindowInside(l, x, y, 0);
    WindowValue(l, data, ZIndex(l, x, y), x, l.depth);
    WindowShows(l, data, x, y);
    var bits := WindowBits(l, data, ZIndex(l, x, y), x, l.bitsPerPixel);
    assert bits[..l.bitsPerPixel] == bits;
  }

  lemma OneBitPlace(l: Layout, data: seq<Byte>, x: nat, y: nat)
    requires l.OneBit()
    ensures Pixel(l, data, x, y) ==
      if SpotBit(data, Shifted(XYIndex(l, x, y), InUnit(l, UnitPos(l.bitmapUnit, x + l.xoffset)))) then 1 else 0
  {
    UnitPlace(l, x, y, 0);
    var bits := PixelBits(l, data, x, y);
    assert bits == [SpotBit(data, Place(l, x, y, 0))];
    assert ToNat(bits[1..]) == 0 by { assert bits[1..] == []; }
    assert PlaneOf(l, 0) == 0;
    assert Place(l, x, y, 0) == Shifted(XYIndex(l, x, y), InUnit(l, UnitPos(l.bitmapUnit, x + l.xoffset)));
  }

  lemma PixelMasked(l: Layout, data: seq<Byte>, x: nat, y: nat)
    requires !l.Bad()
    ensures LowBits(Pixel(l, data, x, y), l.depth) == Pixel(l, data, x, y)
  {
    ToNatBound(PixelBits(l, data, x, y));
    DivMod(0, Pow2(l.depth), Pixel(l, data, x, y), Pixel(l, data, x, y));
  }

  // ---------- what the generic writer writes ----------

  /** Exactly one bit may have changed. */
  ghost predicate BitSet(was: seq<Byte>, now: seq<Byte>, at: Spot, bit: bool) {
    |now| == |was| && forall s :: SpotBit(now, s) == if s == at then bit else SpotBit(was, s)
  }

  /** As Written, of the k low bits only. */
  ghost predicate WrittenBelow(l: Layout, was: seq<Byte>, now: seq<Byte>, x: nat, y: nat, p: int, k: nat)
    requires k <= LONG_BITS
  {
    && |now| == |was|
    && (forall i: nat :: i < k ==> SpotBit(now, Place(l, x, y, i)) == ToBits(p, LONG_BITS)[i])
    && (forall s :: !Owns(l, x, y, k, s) ==> SpotBit(now, s) == SpotBit(was, s))
  }

  lemma OneMoreBit(l: Layout, first: seq<Byte>, was: seq<Byte>, now: seq<Byte>, x: nat, y: nat, p: int, k: nat)
    requires l.Valid() && l.Has(x, y) && k < l.Stored() && WrittenBelow(l, first, was, x, y, p, k)
    requires BitSet(was, now, Place(l, x, y, k), ToBits(p, LONG_BITS)[k])
    ensures WrittenBelow(l, first, now, x, y, p, k + 1)
  {
    forall i: nat | i < k
      ensures SpotBit(now, Place(l, x, y, i)) == ToBits(p, LONG_BITS)[i]
    {
      if Place(l, x, y, i) == Place(l, x, y, k) { PlaceInjective(l, x, y, i, x, y, k); }
    }
    var n := k + 1;
    forall s | !Owns(l, x, y, n, s)
      ensures SpotBit(now, s) == SpotBit(first, s)
    {
      assert s != Place(l, x, y, k);
      assert !Owns(l, x, y, k, s);
    }
  }

  /** npixel has the bits of p from bit k on. */
  predicate Shifts(npixel: int, p: int, k: nat) { k <= LONG_BITS && ToBits(npixel, LONG_BITS - k) == ToBits(p, LONG_BITS)[k..] }

  /** The low bit of the pixel shifted right by k, and what is left of it. */
  lemma LowestBit(p: int, npixel: int, k: nat, bits: seq<Byte>)
    requires k < LONG_BITS && |bits| == LONG_BYTES && Flat(bits) == ToBits(npixel, LONG_BITS)
    requires Shifts(npixel, p, k)
    ensures bits[0][0] == ToBits(p, LONG_BITS)[k] && Shifts(npixel / 2, p, k + 1)
  {
    assert bits[0][0] == Flat(bits)[0] == (npixel % 2 == 1);
    assert ToBits(p, LONG_BITS)[k..][0] == (npixel % 2 == 1);
    assert ToBits(p, LONG_BITS)[k..][1..] == ToBits(p, LONG_BITS)[k + 1..];
  }

  lemma UnitBitSet(l: Layout, was: seq<Byte>, start: nat, i: nat, bits: seq<Byte>, t: seq<Byte>)
    requires l.bitmapUnit in {8, 16, 32} && i < l.bitmapUnit && |bits| > 0 && start + l.bitmapUnit / 8 <= |was|
    requires Copied(bits, i, 1, UnitNormal(l, Window(was, start, l.bitmapUnit / 8)), t)
    ensures BitSet(was, Replaced(was, start, l.bitmapUnit / 8, UnitNormal(l, t)), Shifted(start, InUnit(l, i)), bits[0][0])
  {
    forall at: Spot {
      UnitReplaced(l, was, start, i, bits, t, at);
    }
  }

  lemma OneBitWritten(l: Layout, was: seq<Byte>, now: seq<Byte>, x: nat, y: nat, p: int, bit: bool)
    requires l.Valid() && l.OneBit() && l.Has(x, y) && bit == ToBits(p, LONG_BITS)[0]
    requires BitSet(was, now, Shifted(XYIndex(l, x, y), InUnit(l, UnitPos(l.bitmapUnit, x + l.xoffset))), bit)
    ensures Written(l, was, now, x, y, p, 1)
  {
    UnitPlace(l, x, y, 0);
    assert PlaneOf(l, 0) == 0;
    forall s | !Owns(l, x, y, 1, s)
      ensures s != Place(l, x, y, 0)
    {
    }
  }

  /** The bytes of s, and the w low bits of px above them, make up the string. */
  predicate Emitted(s: seq<Byte>, px: int, w: nat, all: seq<bool>) { Flat(s) + ToBits(px, w) == all }

  lemma AllEmitted(s: seq<Byte>, px: int, all: seq<bool>)
    requires Emitted(s, px, 0, all)
    ensures Flat(s) == all
  {
    assert ToBits(px, 0) == [];
  }

  lemma NextBits(low: seq<bool>, px: int, w: nat, all: seq<bool>)
    requires w >= 8 && low + ToBits(px, w) == all
    ensures (low + ToBits(px, 8)) + ToBits(px / 256, w - 8) == all
  {
    SmallPowers();
    ToBitsSplit(px, w, 8);
  }

  lemma NextByte(s: seq<Byte>, px: int, b: Byte, w: nat, all: seq<bool>)
    requires w >= 8 && Emitted(s, px, w, all) && b == ToBits(px, 8)
    ensures Emitted(s + [b], px / 256, w - 8, all)
  {
    NextBits(Flat(s), px, w, all);
    FlatSnoc(s, b);
  }

  lemma BitBelow(bits: seq<bool>, i: nat)
    requires i < |bits|
    ensures ToNat(bits[i..]) == (if bits[i] then 1 else 0) + 2 * ToNat(bits[i + 1..])
  {
    assert bits[i..][1..] == bits[i + 1..];
  }

  /** The offsets of the planes. */
  lemma NextPlane(l: Layout, plane: int, k: int)
    ensures l.bytesPerLine * l.height * k == k * l.PlaneBytes()
    ensures plane == k * l.PlaneBytes() ==> plane + l.bytesPerLine * l.height == (k + 1) * l.PlaneBytes()
    ensures plane == k * l.PlaneBytes() ==> plane - l.bytesPerLine * l.height == (k - 1) * l.PlaneBytes()
  {
    MulDistributes(k, 1, l.PlaneBytes());
  }

  lemma ZPixelWritten(l: Layout, was: seq<Byte>, x: nat, y: nat, p: int, bits: seq<Byte>, t: seq<Byte>)
    requires l.Valid() && !l.InUnits() && !l.Bad() && l.Has(x, y) && |bits| == LONG_BYTES && Flat(bits) == ToBits(p, LONG_BITS)
    requires ZIndex(l, x, y) + PixelBytes(l.bitsPerPixel) <= |was|
    requires Copied(bits, BitOffset(l.bitsPerPixel, x), l.bitsPerPixel,
                    PixelNormal(l, Window(was, ZIndex(l, x, y), PixelBytes(l.bitsPerPixel))), t)
    ensures Written(l, was, Replaced(was, ZIndex(l, x, y), PixelBytes(l.bitsPerPixel), PixelNormal(l, t)), x, y, p, l.Stored())
  {
    var start := ZIndex(l, x, y);
    var now := Replaced(was, start, PixelBytes(l.bitsPerPixel), PixelNormal(l, t));
    forall k: nat | k < l.Stored()
      ensures SpotBit(now, Place(l, x, y, k)) == ToBits(p, LONG_BITS)[k]
    {
      PixelPlaced(l, was, start, x, bits, t, k);
      PixelPlace(l, x, y, k);
      assert BitAt(bits, k) == Flat(bits)[k];
    }
    forall s | !Owns(l, x, y, l.Stored(), s)
      ensures SpotBit(now, s) == SpotBit(was, s)
    {
      var rel := Spot(s.byte - start, s.bit);
      if InWindow(l, x, rel) {
        var k: nat :| k < l.bitsPerPixel && InPixel(l, x, k) == rel;
        PixelPlace(l, x, y, k);
      }
      PixelReplaced(l, was, start, x, bits, t, s);
    }
  }

  // ---------- the fast routines ----------

  /** The number four bytes stand for on a machine of the given byte order. */
  function Native(host: Order, b: seq<Byte>): nat
    requires |b| == 4
  {
    if host == MSBFirst then ToNat(b[3]) + 0x100 * ToNat(b[2]) + 0x1_0000 * ToNat(b[1]) + 0x100_0000 * ToNat(b[0])
    else ToNat(b[0]) + 0x100 * ToNat(b[1]) + 0x1_0000 * ToNat(b[2]) + 0x100_0000 * ToNat(b[3])
  }

  /** The bit tested in the byte of a one-bit pixel. */
  function OneMask(l: Layout, xoff: nat): Byte {
    if l.bitmapBitOrder == MSBFirst then ShiftRight(HighMask(7), xoff) else ShiftLeft(LowMask(1), xoff)
  }

  /** The value of a word of which at most four bytes are used. */
  lemma WordValue(w: seq<Byte>)
    requires |w| == LONG_BYTES && w[4] == w[5] == w[6] == w[7] == ZERO
    ensures ToNat(Flat(w)) == ToNat(w[0]) + 0x100 * ToNat(w[1]) + 0x1_0000 * ToNat(w[2]) + 0x100_0000 * ToNat(w[3])
  {
    ToNatZeros(Flat(w[4..]));
    FlatCons(w);
    FlatCons(w[1..]);
    FlatCons(w[2..]);
    FlatCons(w[3..]);
    assert w[1..][1..] == w[2..] && w[2..][1..] == w[3..] && w[3..][1..] == w[4..];
  }

  /** The number the fast readers make of the bytes of a pixel. */
  function FastValue(l: Layout, b: seq<Byte>): nat
    requires l.bitsPerPixel in {8, 16, 32} && |b| == l.bitsPerPixel / 8
  {
    if l.bitsPerPixel == 8 then ToNat(b[0])
    else if l.bitsPerPixel == 16 then
      if l.byteOrder == MSBFirst then 256 * ToNat(b[0]) + ToNat(b[1]) else 256 * ToNat(b[1]) + ToNat(b[0])
    else Native(l.byteOrder, b)
  }

  lemma FastWord(l: Layout, b: seq<Byte>)
    requires l.bitsPerPixel in {8, 16, 32} && |b| == l.bitsPerPixel / 8
    ensures ToNat(Flat(PixelNormal(l, b + seq(LONG_BYTES - |b|, i => ZERO)))) == FastValue(l, b)
  {
    var w := PixelNormal(l, b + seq(LONG_BYTES - |b|, i => ZERO));
    ToNatZeros(ZERO);
    if l.bitsPerPixel == 8 {
      assert w[0] == b[0] && w[1] == w[2] == w[3] == ZERO;
    } else if l.bitsPerPixel == 16 {
      assert w[2] == w[3] == ZERO;
    }
    WordValue(w);
  }

  /** The fast readers compute what the generic reader does. */
  lemma FastRead(l: Layout, data: seq<Byte>, x: nat, y: nat)
    requires l.Valid() && l.Has(x, y) && l.format == ZPixmap && l.bitsPerPixel in {8, 16, 32} && l.DataBytes() <= |data|
    ensures var at := ZIndex(l, x, y);
      && at + l.bitsPerPixel / 8 <= |data|
      && var pixel := FastValue(l, data[at..at + l.bitsPerPixel / 8]);
         && LowBits(pixel, l.depth) == Pixel(l, data, x, y)
         && (l.depth == l.bitsPerPixel ==> pixel == Pixel(l, data, x, y))
  {
    ZPixelRead(l, data, x, y);
    FastWord(l, data[ZIndex(l, x, y)..ZIndex(l, x, y) + l.bitsPerPixel / 8]);
  }

  /** The place of a pixel of a one-bit image whose byte and bit orders agree. */
  lemma OnePlace(l: Layout, x: nat, y: nat)
    requires l.Valid() && l.OneBit() && l.byteOrder == l.bitmapBitOrder
    ensures var xoff := x + l.xoffset;
      Place(l, x, y, 0) == Spot(y * l.bytesPerLine + xoff / 8, if l.bitmapBitOrder == MSBFirst then 7 - xoff % 8 else xoff % 8)
  {
    UnitPlace(l, x, y, 0);
    assert PlaneOf(l, 0) == 0;
    Opposite(l.bitmapUnit, UnitPos(l.bitmapUnit, x + l.xoffset));
    UnitOfBytes(l.bitmapUnit, x + l.xoffset);
  }

  lemma OneRead(l: Layout, data: seq<Byte>, x: nat, y: nat)
    requires l.Valid() && l.OneBit() && l.byteOrder == l.bitmapBitOrder && l.Has(x, y) && l.DataBytes() <= |data|
    ensures var xoff := x + l.xoffset;
      var yoff := y * l.bytesPerLine + xoff / 8;
      0 <= yoff < |data| && Pixel(l, data, x, y) == if And(data[yoff], OneMask(l, xoff % 8)) != ZERO then 1 else 0
  {
    PlaceInside(l, x, y, 0);
    OnePlace(l, x, y);
    OneBitPlace(l, data, x, y);
    UnitPlace(l, x, y, 0);
    var s := Place(l, x, y, 0);
    MaskBit(data[s.byte], OneMask(l, (x + l.xoffset) % 8), s.bit);
  }

  lemma MaskBit(b: Byte, mask: Byte, i: nat)
    requires i < 8 && forall j :: 0 <= j < 8 ==> mask[j] == (j == i)
    ensures (And(b, mask) != ZERO) == b[i]
  {
    if !b[i] {
      assert And(b, mask) == ZERO;
    } else {
      assert And(b, mask)[i] && !ZERO[i];
    }
  }

  /** Byte b of a number. */
  function NumberByte(p: int, b: nat): Byte {
    if b == 0 then ToBits(p, 8)
    else if b == 1 then ToBits(p / 0x100, 8)
    else if b == 2 then ToBits(p / 0x1_0000, 8)
    else ToBits(p / 0x100_0000, 8)
  }

  /** The four bytes of a number on a machine of the given byte order. */
  function NativeBytes(host: Order, p: int): (b: seq<Byte>)
    ensures |b| == 4
  {
    if host == MSBFirst then [NumberByte(p, 3), NumberByte(p, 2), NumberByte(p, 1), NumberByte(p, 0)]
    else [NumberByte(p, 0), NumberByte(p, 1), NumberByte(p, 2), NumberByte(p, 3)]
  }

  /** The bytes the fast writers make of a pixel. */
  function FastBytes(l: Layout, p: int): (b: seq<Byte>)
    requires l.bitsPerPixel in {8, 16, 32}
    ensures |b| == l.bitsPerPixel / 8
  {
    if l.bitsPerPixel == 8 then [NumberByte(p, 0)]
    else if l.bitsPerPixel == 16 then
      if l.byteOrder == MSBFirst then [NumberByte(p, 1), NumberByte(p, 0)] else [NumberByte(p, 0), NumberByte(p, 1)]
    else NativeBytes(l.byteOrder, p)
  }

  lemma BitOfNumber(p: int, b: nat, d: int, j: nat)
    requires d == Pow2(8 * b) && b < 4 && j < 8
    ensures ToBits(p / d, 8)[j] == ToBits(p, LONG_BITS)[8 * b + j]
  {
    ToBitsDrop(p, LONG_BITS, 8 * b);
    ToBitsTake(p / d, LONG_BITS - 8 * b, 8);
    assert ToBits(p, LONG_BITS)[8 * b..][j] == ToBits(p, LONG_BITS)[8 * b + j];
  }

  lemma ByteOfNumber(p: int, b: nat, j: nat)
    requires b < 4 && j < 8
    ensures NumberByte(p, b)[j] == ToBits(p, LONG_BITS)[8 * b + j]
  {
    var d := if b == 0 then 1 else if b == 1 then 0x100 else if b == 2 then 0x1_0000 else 0x100_0000;
    assert d == Pow2(8 * b) by { SmallPowers(); }
    BitOfNumber(p, b, d, j);
    assert p / 1 == p;
  }

  lemma FastByte(l: Layout, p: int, b: nat)
    requires l.bitsPerPixel in {8, 16, 32} && b < l.bitsPerPixel / 8
    ensures FastBytes(l, p)[if l.byteOrder == LSBFirst then b else l.bitsPerPixel / 8 - 1 - b] == NumberByte(p, b)
  {
  }

  /** Bit k of the pixel is where its byte order puts it in the bytes of the fast writers. */
  lemma FastBit(l: Layout, x: nat, p: int, k: nat)
    requires l.bitsPerPixel in {8, 16, 32} && k < l.bitsPerPixel
    ensures Inside(InPixel(l, x, k), l.bitsPerPixel / 8)
    ensures FastBytes(l, p)[InPixel(l, x, k).byte][InPixel(l, x, k).bit] == ToBits(p, LONG_BITS)[k]
  {
    var b, j := k / 8, k % 8;
    FastByte(l, p, b);
    ByteOfNumber(p, b, j);
    assert 8 * b + j == k;
  }

  /** The fast writers write what the generic writer does. */
  lemma FastWritten(l: Layout, was: seq<Byte>, now: seq<Byte>, x: nat, y: nat, p: int)
    requires l.Valid() && l.Has(x, y) && l.format == ZPixmap && l.bitsPerPixel in {8, 16, 32} && l.DataBytes() <= |was| == |now|
    requires var at := ZIndex(l, x, y);
      && at + l.bitsPerPixel / 8 <= |was|
      && (forall b :: at <= b < at + l.bitsPerPixel / 8 ==> now[b] == FastBytes(l, p)[b - at])
      && (forall b :: 0 <= b < |was| && (b < at || b >= at + l.bitsPerPixel / 8) ==> now[b] == was[b])
    ensures Written(l, was, now, x, y, p, l.Stored())
  {
    var at := ZIndex(l, x, y);
    forall k: nat | k < l.Stored()
      ensures SpotBit(now, Place(l, x, y, k)) == ToBits(p, LONG_BITS)[k]
    {
      FastBit(l, x, p, k);
      PixelPlace(l, x, y, k);
    }
    forall s | !Owns(l, x, y, l.Stored(), s)
      ensures SpotBit(now, s) == SpotBit(was, s)
    {
      var rel := Spot(s.byte - at, s.bit);
      if Inside(rel, l.bitsPerPixel / 8) {
        WindowOwned(l, x, rel);
        PixelPlace(l, x, y, BitOfPixel(l, rel));
      }
    }
  }

  lemma OneWritten(l: Layout, was: seq<Byte>, now: seq<Byte>, x: nat, y: nat, p: int)
    requires l.Valid() && l.OneBit() && l.byteOrder == l.bitmapBitOrder && l.Has(x, y) && l.DataBytes() <= |was|
    requires var xoff := x + l.xoffset;
      var yoff := y * l.bytesPerLine + xoff / 8;
      && 0 <= yoff < |was|
      && now == was[yoff := if p % 2 == 1 then Or(was[yoff], OneMask(l, xoff % 8)) else And(was[yoff], Not(OneMask(l, xoff % 8)))]
    ensures Written(l, was, now, x, y, p, 1)
  {
    OnePlace(l, x, y);
    UnitPlace(l, x, y, 0);
    PlaceInside(l, x, y, 0);
    assert PlaneOf(l, 0) == 0;
    var at := Place(l, x, y, 0);
    forall s
      ensures SpotBit(now, s) == if s == at then p % 2 == 1 else SpotBit(was, s)
    {
    }
    OneBitWritten(l, was, now, x, y, p, p % 2 == 1);
  }

  /** A pixel of depth 4 is masked before it is written. */
  function Narrowed(l: Layout, p: int): int { if l.depth == 4 then p % 16 else p }

  /** The mask changes none of the bits that are read back. */
  lemma DepthFour(l: Layout, was: seq<Byte>, now: seq<Byte>, x: nat, y: nat, p: int)
    requires l.Valid() && Written(l, was, now, x, y, Narrowed(l, p), l.Stored())
    ensures Written(l, was, now, x, y, p, l.PixelDepth())
  {
    if l.depth == 4 {
      FourBits(p);
      forall k: nat | k < l.PixelDepth()
        ensures SpotBit(now, Place(l, x, y, k)) == ToBits(p, LONG_BITS)[k]
      {
        assert ToBits(p, LONG_BITS)[..4][k] == ToBits(p % 16, LONG_BITS)[..4][k];
      }
    }
  }

  lemma FourBits(p: int)
    ensures ToBits(p, LONG_BITS)[..4] == ToBits(p % 16, LONG_BITS)[..4]
  {
    ToBitsTake(p, LONG_BITS, 4);
    ToBitsTake(p % 16, LONG_BITS, 4);
    SmallPowers();
    ToBitsMod(p, 4);
  }
}
