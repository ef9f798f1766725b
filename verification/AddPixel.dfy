/** Adding a constant to every pixel: when the loops over whole bytes, shorts and words of _XAddPixel do
    what getting, adding and putting each pixel would (libX11 ImUtil.c). */
module AddPixel {
  import opened Arith
  import opened Bits
  import opened ImageLayout
  import opened Image
  import opened ImageWindow
  import opened PixelAccess

  /** What the function is for: every pixel has grown by value, modulo 2 ^ depth. */
  ghost predicate Added(l: Layout, was: seq<Byte>, now: seq<Byte>, value: int) {
    forall x: nat, y: nat :: l.Has(x, y) ==> AddedAt(l, was, now, value, x, y)
  }

  ghost predicate AddedAt(l: Layout, was: seq<Byte>, now: seq<Byte>, value: int, x: nat, y: nat) {
    Pixel(l, now, x, y) == (Pixel(l, was, x, y) + value) % Pow2(l.PixelDepth())
  }

  /** The loops that add to machine units of the size of a pixel, whatever the scanlines are. */
  predicate InUnitsOfHost(l: Layout, host: Order) {
    l.format == ZPixmap && (l.bitsPerPixel == 8 || (l.bitsPerPixel in {16, 32} && host == l.byteOrder))
  }

  /** (bytes_per_line >> 1) * height and the like. */
  function UnitCount(l: Layout): nat
    requires l.bitsPerPixel in {8, 16, 32}
  {
    (if l.bitsPerPixel == 8 then l.bytesPerLine else if l.bitsPerPixel == 16 then l.bytesPerLine / 2 else l.bytesPerLine / 4)
      * l.height
  }

  /** Unit j of the data. */
  function UnitAt(l: Layout, data: seq<Byte>, j: nat): (r: seq<Byte>)
    requires l.bitsPerPixel in {8, 16, 32} && PixelStart(l.bitsPerPixel, j + 1) <= |data|
    ensures |r| == l.bitsPerPixel / 8
  {
    data[PixelStart(l.bitsPerPixel, j)..PixelStart(l.bitsPerPixel, j + 1)]
  }

  /** f has been applied to the first n units, and the bytes after them are unchanged. */
  ghost predicate UnitsMapped(l: Layout, was: seq<Byte>, now: seq<Byte>, n: nat, f: seq<Byte> -> seq<Byte>)
    requires l.bitsPerPixel in {8, 16, 32}
  {
    && |now| == |was| && PixelStart(l.bitsPerPixel, n) <= |was|
    && (forall j: nat :: j < n ==> UnitAt(l, now, j) == f(UnitAt(l, was, j)))
    && (forall b :: PixelStart(l.bitsPerPixel, n) <= b < |was| ==> now[b] == was[b])
  }

  /** Adding value to a machine unit. */
  function Grown(l: Layout, value: int, unit: seq<Byte>): seq<Byte>
    requires l.bitsPerPixel in {8, 16, 32}
  {
    if |unit| == l.bitsPerPixel / 8 then FastBytes(l, FastValue(l, unit) + value) else unit
  }

  /** The first n units have grown by value, and the bytes after them are unchanged. */
  ghost predicate UnitsAdded(l: Layout, was: seq<Byte>, now: seq<Byte>, n: nat, value: int)
    requires l.bitsPerPixel in {8, 16, 32}
  {
    UnitsMapped(l, was, now, n, unit => Grown(l, value, unit))
  }

  /** The first n bytes are complemented, and the others are unchanged. */
  ghost predicate Complemented(was: seq<Byte>, now: seq<Byte>, n: nat) {
    && |now| == |was| && n <= |was|
    && (forall b :: 0 <= b < n ==> now[b] == Not(was[b]))
    && (forall b :: n <= b < |was| ==> now[b] == was[b])
  }

  /** What _XAddPixel does to the data. */
  ghost predicate Outcome(l: Layout, host: Order, value: int, was: seq<Byte>, now: seq<Byte>) {
    if value == 0 then now == was
    else if l.OneBit() then Complemented(was, now, l.DataBytes())
    else if InUnitsOfHost(l, host) then UnitsAdded(l, was, now, UnitCount(l), value)
    else Added(l, was, now, value)
  }

  /** The scanlines of the image start at machine units. */
  predicate Aligned(l: Layout) {
    l.height <= 1 || l.width == 0
    || ((l.bitsPerPixel == 16 ==> l.bytesPerLine % 2 == 0) && (l.bitsPerPixel == 32 ==> l.bytesPerLine % 4 == 0))
  }

  // ---------- one-bit images ----------

  lemma ComplementedPixel(l: Layout, was: seq<Byte>, now: seq<Byte>, x: nat, y: nat)
    requires l.Valid() && l.OneBit() && l.Has(x, y) && Complemented(was, now, l.DataBytes())
    ensures Pixel(l, now, x, y) == 1 - Pixel(l, was, x, y)
  {
    PlaceInside(l, x, y, 0);
    OneBitPlace(l, was, x, y);
    OneBitPlace(l, now, x, y);
    UnitPlace(l, x, y, 0);
    assert PlaneOf(l, 0) == 0;
  }

  lemma OneBitAddedAt(l: Layout, was: seq<Byte>, now: seq<Byte>, value: int, x: nat, y: nat)
    requires l.Valid() && l.OneBit() && l.Has(x, y) && Complemented(was, now, l.DataBytes())
    ensures AddedAt(l, was, now, value, x, y) <==> value % 2 == 1
  {
    ComplementedPixel(l, was, now, x, y);
    OneBitPlace(l, was, x, y);
    assert Pow2(l.PixelDepth()) == 2 by { assert Pow2(1) == 2; }
    Flipped(Pixel(l, was, x, y), value);
  }

  lemma Flipped(bit: nat, value: int)
    requires bit <= 1
    ensures 1 - bit == (bit + value) % 2 <==> value % 2 == 1
  {
    AddMod(value, bit, 2);
  }

  /** Complementing adds an odd number to every pixel, and an even number to none. */
  lemma OneBitAdded(l: Layout, was: seq<Byte>, now: seq<Byte>, value: int)
    requires l.Valid() && l.OneBit() && Complemented(was, now, l.DataBytes())
    ensures Added(l, was, now, value) <==> (value % 2 == 1 || l.width == 0 || l.height == 0)
  {
    if value % 2 == 1 {
      forall x: nat, y: nat | l.Has(x, y)
        ensures AddedAt(l, was, now, value, x, y)
      {
        OneBitAddedAt(l, was, now, value, x, y);
      }
    } else if l.width > 0 && l.height > 0 {
      OneBitAddedAt(l, was, now, value, 0, 0);
      assert l.Has(0, 0);
    }
  }

  // ---------- machine units ----------

  /** A pixel of an aligned image is a machine unit, and one of those the loop visits. */
  lemma PixelIsUnit(l: Layout, x: nat, y: nat) returns (j: nat)
    requires l.Valid() && l.format == ZPixmap && l.bitsPerPixel in {8, 16, 32} && l.Has(x, y) && Aligned(l)
    ensures j < UnitCount(l) && ZIndex(l, x, y) == PixelStart(l.bitsPerPixel, j)
  {
    var n := l.bitsPerPixel / 8;
    var row := if n == 1 then l.bytesPerLine else if n == 2 then l.bytesPerLine / 2 else l.bytesPerLine / 4;
    PixelFits(l, x);
    assert PixelStart(l.bitsPerPixel, x) == n * x;
    assert x + 1 <= row;
    assert l.height > 1 ==> l.bytesPerLine == n * row;
    UnitIndex(n, l.bytesPerLine, row, x, y, l.height);
    j := y * row + x;
  }

  /** Rows of a whole number of units are numbered through. */
  lemma UnitIndex(n: nat, bytesPerLine: nat, row: nat, x: nat, y: nat, height: nat)
    requires x < row && y < height && (height > 1 ==> bytesPerLine == n * row)
    ensures 0 <= y * row + x < row * height && y * bytesPerLine + n * x == n * (y * row + x)
  {
    MulMonotonic(y + 1, height, row);
    MulMonotonic(0, y, row);
    MulDistributes(y, 1, row);
    if height > 1 {
      MulAssoc(n, y, row);
      MulAssoc(y, n, row);
      assert n * (y * row + x) == n * (y * row) + n * x;
    } else {
      assert y == 0;
    }
  }

  lemma UnitShows(l: Layout, now: seq<Byte>, x: nat, y: nat, j: nat, p: int)
    requires l.Valid() && l.format == ZPixmap && l.bitsPerPixel in {8, 16, 32} && ZIndex(l, x, y) == PixelStart(l.bitsPerPixel, j)
    requires PixelStart(l.bitsPerPixel, j + 1) <= |now| && UnitAt(l, now, j) == FastBytes(l, p)
    ensures Pixel(l, now, x, y) == p % Pow2(l.PixelDepth())
  {
    forall k: nat | k < l.PixelDepth()
      ensures SpotBit(now, Place(l, x, y, k)) == ToBits(p, LONG_BITS)[k]
    {
      FastBit(l, x, p, k);
      PixelPlace(l, x, y, k);
      assert UnitAt(l, now, j)[InPixel(l, x, k).byte] == now[Place(l, x, y, k).byte];
    }
    ShownPixel(l, now, x, y, p);
  }

  lemma UnitIsPixel(l: Layout, was: seq<Byte>, x: nat, y: nat, j: nat)
    requires l.Valid() && l.format == ZPixmap && l.bitsPerPixel in {8, 16, 32} && l.Has(x, y) && l.DataBytes() <= |was|
    requires PixelStart(l.bitsPerPixel, j + 1) <= |was| && ZIndex(l, x, y) == PixelStart(l.bitsPerPixel, j)
    ensures Pixel(l, was, x, y) == FastValue(l, UnitAt(l, was, j)) % Pow2(l.depth)
  {
    FastRead(l, was, x, y);
  }

  lemma PixelGrown(l: Layout, was: seq<Byte>, now: seq<Byte>, value: int, x: nat, y: nat, j: nat, v: nat)
    requires l.Valid() && l.format == ZPixmap && l.bitsPerPixel in {8, 16, 32} && l.Has(x, y) && l.DataBytes() <= |was|
    requires PixelStart(l.bitsPerPixel, j + 1) <= |was| == |now| && v == FastValue(l, UnitAt(l, was, j))
    requires UnitAt(l, now, j) == FastBytes(l, v + value) && ZIndex(l, x, y) == PixelStart(l.bitsPerPixel, j)
    ensures AddedAt(l, was, now, value, x, y)
  {
    var d := Pow2(l.depth);
    UnitIsPixel(l, was, x, y, j);
    UnitShows(l, now, x, y, j, v + value);
    GrownMod(Pixel(l, was, x, y), Pixel(l, now, x, y), v, value, d);
  }

  lemma GrownMod(a: int, b: int, v: int, value: int, d: int)
    requires d > 0 && a == v % d && b == (v + value) % d
    ensures b == (a + value) % d
  {
    AddMod(v, value, d);
  }

  lemma UnitsOfPixels(l: Layout, was: seq<Byte>, now: seq<Byte>, value: int)
    requires l.Valid() && l.format == ZPixmap && l.bitsPerPixel in {8, 16, 32} && l.DataBytes() <= |was| && Aligned(l)
    requires UnitsAdded(l, was, now, UnitCount(l), value)
    ensures Added(l, was, now, value)
  {
    forall x: nat, y: nat | l.Has(x, y)
      ensures AddedAt(l, was, now, value, x, y)
    {
      var j := PixelIsUnit(l, x, y);
      assert UnitAt(l, now, j) == Grown(l, value, UnitAt(l, was, j));
      PixelGrown(l, was, now, value, x, y, j, FastValue(l, UnitAt(l, was, j)));
    }
  }

  /** Zeros, and the result of adding one to every machine unit of them. */
  function Zeros(n: nat): (r: seq<Byte>)
    ensures |r| == n
  {
    seq(n, b => ZERO)
  }

  /** Byte b of n copies of a machine unit followed by zeros. */
  function RepeatedByte(l: Layout, unit: seq<Byte>, n: nat, b: nat): Byte
    requires l.bitsPerPixel in {8, 16, 32} && |unit| == l.bitsPerPixel / 8
  {
    if b >= PixelStart(l.bitsPerPixel, n) then ZERO
    else unit[if l.bitsPerPixel == 8 then 0 else if l.bitsPerPixel == 16 then b % 2 else b % 4]
  }

  function Repeated(l: Layout, unit: seq<Byte>, n: nat, size: nat): (r: seq<Byte>)
    requires l.bitsPerPixel in {8, 16, 32} && |unit| == l.bitsPerPixel / 8
    ensures |r| == size
  {
    seq(size, b requires b >= 0 => RepeatedByte(l, unit, n, b))
  }

  /** Zeros to whose first n machine units value has been added. */
  function ZerosAdded(l: Layout, value: int, n: nat, size: nat): (r: seq<Byte>)
    requires l.bitsPerPixel in {8, 16, 32}
    ensures |r| == size
  {
    Repeated(l, FastBytes(l, value), n, size)
  }

  lemma FastZero(l: Layout, b: seq<Byte>)
    requires l.bitsPerPixel in {8, 16, 32} && |b| == l.bitsPerPixel / 8 && forall i :: 0 <= i < |b| ==> b[i] == ZERO
    ensures FastValue(l, b) == 0
  {
    ToNatZeros(ZERO);
  }

  lemma RepeatedUnit(l: Layout, unit: seq<Byte>, n: nat, size: nat, j: nat)
    requires l.bitsPerPixel in {8, 16, 32} && |unit| == l.bitsPerPixel / 8 && j < n && PixelStart(l.bitsPerPixel, n) <= size
    ensures UnitAt(l, Repeated(l, unit, n, size), j) == unit
  {
    var start := PixelStart(l.bitsPerPixel, j);
    forall i: nat | i < |unit|
      ensures UnitAt(l, Repeated(l, unit, n, size), j)[i] == unit[i]
    {
      assert UnitAt(l, Repeated(l, unit, n, size), j)[i] == RepeatedByte(l, unit, n, start + i);
    }
  }

  lemma ZeroUnit(l: Layout, value: int, n: nat, size: nat, j: nat)
    requires l.bitsPerPixel in {8, 16, 32} && PixelStart(l.bitsPerPixel, n) <= size && j < n
    ensures UnitAt(l, ZerosAdded(l, value, n, size), j) == Grown(l, value, UnitAt(l, Zeros(size), j))
  {
    RepeatedUnit(l, FastBytes(l, value), n, size, j);
    UnitOfZeros(l, size, j);
    ZeroGrown(l, value, UnitAt(l, Zeros(size), j));
  }

  lemma UnitOfZeros(l: Layout, size: nat, j: nat)
    requires l.bitsPerPixel in {8, 16, 32} && PixelStart(l.bitsPerPixel, j + 1) <= size
    ensures forall i :: 0 <= i < l.bitsPerPixel / 8 ==> UnitAt(l, Zeros(size), j)[i] == ZERO
  {
    forall i | 0 <= i < l.bitsPerPixel / 8
      ensures UnitAt(l, Zeros(size), j)[i] == ZERO
    {
      assert UnitAt(l, Zeros(size), j)[i] == Zeros(size)[PixelStart(l.bitsPerPixel, j) + i];
    }
  }

  lemma ZeroGrown(l: Layout, value: int, unit: seq<Byte>)
    requires l.bitsPerPixel in {8, 16, 32} && |unit| == l.bitsPerPixel / 8 && forall i :: 0 <= i < |unit| ==> unit[i] == ZERO
    ensures Grown(l, value, unit) == FastBytes(l, value)
  {
    FastZero(l, unit);
  }

  lemma ZeroUnits(l: Layout, value: int, n: nat, size: nat)
    requires l.bitsPerPixel in {8, 16, 32} && PixelStart(l.bitsPerPixel, n) <= size
    ensures UnitsAdded(l, Zeros(size), ZerosAdded(l, value, n, size), n, value)
  {
    var was, now := Zeros(size), ZerosAdded(l, value, n, size);
    forall j: nat | j < n
      ensures UnitAt(l, now, j) == Grown(l, value, UnitAt(l, was, j))
    {
      ZeroUnit(l, value, n, size, j);
    }
  }

  lemma UpperBytesOfOne(b: nat)
    requires 1 <= b < 4
    ensures NumberByte(1, b)[0] == false
  {
    assert 1 / 0x100 == 0 && 1 / 0x1_0000 == 0 && 1 / 0x100_0000 == 0;
  }

  /** The byte that should have grown is not the low byte of a machine unit. */
  lemma NotALowByte(l: Layout, value: int, i: nat)
    requires l.bitsPerPixel in {16, 32} && value == 1 && i < l.bitsPerPixel / 8
    requires i != LowByteOf(l)
    ensures FastBytes(l, value)[i][0] == false
  {
    var b := if l.byteOrder == LSBFirst then i else l.bitsPerPixel / 8 - 1 - i;
    FastByte(l, value, b);
    UpperBytesOfOne(b);
  }

  lemma StillEven(l: Layout, was: seq<Byte>, now: seq<Byte>)
    requires l.Valid() && !l.Bad() && !SpotBit(now, Place(l, 0, 1, 0)) && was == Zeros(|was|)
    ensures Pixel(l, was, 0, 1) == 0 && Pixel(l, now, 0, 1) % 2 == 0
  {
    ToNatZeros(PixelBits(l, was, 0, 1));
    assert PixelBits(l, now, 0, 1)[0] == false;
  }

  /** Where the low bit of the first pixel of the second scanline is. */
  lemma SecondLine(l: Layout)
    requires l.bitsPerPixel in {16, 32} && !l.InUnits() && l.bytesPerLine % (l.bitsPerPixel / 8) != 0
    ensures Place(l, 0, 1, 0) == Spot(l.bytesPerLine + LowByteOf(l), 0)
    ensures (l.bytesPerLine + LowByteOf(l)) % (l.bitsPerPixel / 8) != LowByteOf(l)
  {
    PixelPlace(l, 0, 1, 0);
    NotAMultiple(l.bytesPerLine, LowByteOf(l), l.bitsPerPixel / 8);
  }

  /** The byte of a machine unit with its low bit. */
  function LowByteOf(l: Layout): nat
    requires l.bitsPerPixel in {16, 32}
  {
    if l.byteOrder == LSBFirst then 0 else l.bitsPerPixel / 8 - 1
  }

  lemma NotAMultiple(a: int, r: int, d: int)
    requires d > 0 && a % d != 0 && 0 <= r < d
    ensures (a + r) % d != r
  {
    var q := (a + r) / d;
    if (a + r) % d == r { DivMod(q, d, 0, a); }
  }

  lemma LowBitStays(l: Layout, value: int, size: nat)
    requires l.Valid() && l.format == ZPixmap && l.bitsPerPixel in {16, 32} && !Aligned(l) && l.DataBytes() <= size && value == 1
    ensures !SpotBit(ZerosAdded(l, value, UnitCount(l), size), Place(l, 0, 1, 0))
  {
    SecondLine(l);
    var at := Place(l, 0, 1, 0);
    var i := if l.bitsPerPixel == 16 then at.byte % 2 else at.byte % 4;
    NotALowByte(l, value, i);
    RepeatedSpot(l, FastBytes(l, value), UnitCount(l), size, at);
  }

  lemma RepeatedSpot(l: Layout, unit: seq<Byte>, n: nat, size: nat, at: Spot)
    requires l.bitsPerPixel in {16, 32} && |unit| == l.bitsPerPixel / 8 && at.bit == 0
    requires !unit[if l.bitsPerPixel == 16 then at.byte % 2 else at.byte % 4][0]
    ensures !SpotBit(Repeated(l, unit, n, size), at)
  {
  }

  /** The first pixel of the second scanline of an image that is not aligned keeps its low bit. */
  lemma Misplaced(l: Layout, value: int, size: nat)
    requires l.Valid() && l.format == ZPixmap && l.bitsPerPixel in {16, 32} && !Aligned(l) && l.DataBytes() <= size && value == 1
    ensures !Added(l, Zeros(size), ZerosAdded(l, value, UnitCount(l), size), value)
  {
    LowBitStays(l, value, size);
    StillEven(l, Zeros(size), ZerosAdded(l, value, UnitCount(l), size));
    OneInBits(l.depth);
    NotGrown(l, Zeros(size), ZerosAdded(l, value, UnitCount(l), size), value);
  }

  lemma NotGrown(l: Layout, was: seq<Byte>, now: seq<Byte>, value: int)
    requires l.Has(0, 1) && Pixel(l, was, 0, 1) == 0 && Pixel(l, now, 0, 1) % 2 == 0 && value % Pow2(l.PixelDepth()) == 1
    ensures !Added(l, was, now, value)
  {
    assert !AddedAt(l, was, now, value, 0, 1);
  }

  lemma OneInBits(d: nat)
    requires d >= 1
    ensures 1 % Pow2(d) == 1
  {
    assert Pow2(d) == 2 * Pow2(d - 1);
    DivMod(0, Pow2(d), 1, 1);
  }

  // ---------- the result ----------

  /** When _XAddPixel adds value to every pixel, whatever the pixels are. */
  predicate Exact(l: Layout, host: Order, value: int) {
    value == 0
    || (if l.OneBit() then value % 2 == 1 || l.width == 0 || l.height == 0
        else InUnitsOfHost(l, host) ==> Aligned(l))
  }

  /** In these cases every pixel has grown; an image of one bit a pixel has grown in no other case. */
  lemma ExactlyAdded(l: Layout, host: Order, value: int, was: seq<Byte>, now: seq<Byte>)
    requires l.Valid() && l.DataBytes() <= |was| && Outcome(l, host, value, was, now)
    ensures Exact(l, host, value) ==> Added(l, was, now, value)
    ensures l.OneBit() && Added(l, was, now, value) ==> Exact(l, host, value)
  {
    if value == 0 {
      forall x: nat, y: nat | l.Has(x, y)
        ensures AddedAt(l, was, now, value, x, y)
      {
        ToNatBound(PixelBits(l, was, x, y));
        DivMod(0, Pow2(l.PixelDepth()), Pixel(l, was, x, y), Pixel(l, was, x, y));
      }
    } else if l.OneBit() {
      OneBitAdded(l, was, now, value);
    } else if InUnitsOfHost(l, host) && Aligned(l) {
      UnitsOfPixels(l, was, now, value);
    }
  }

  /** On an image of several bits a pixel, every value is added to every pixel of every data exactly if the
      loops over machine units are not used or the scanlines are aligned. */
  lemma AlignedIff(l: Layout, host: Order)
    requires l.Valid() && !l.OneBit()
    ensures (InUnitsOfHost(l, host) ==> Aligned(l)) <==>
      forall value: int, was: seq<Byte>, now: seq<Byte> ::
        l.DataBytes() <= |was| && Outcome(l, host, value, was, now) ==> Added(l, was, now, value)
  {
    if InUnitsOfHost(l, host) ==> Aligned(l) {
      forall value: int, was: seq<Byte>, now: seq<Byte> | l.DataBytes() <= |was| && Outcome(l, host, value, was, now)
        ensures Added(l, was, now, value)
      {
        ExactlyAdded(l, host, value, was, now);
      }
    } else {
      OneMissed(l, host);
    }
  }

  /** One is not added to every pixel of zeros that are not aligned. */
  lemma OneMissed(l: Layout, host: Order)
    requires l.Valid() && !l.OneBit() && InUnitsOfHost(l, host) && !Aligned(l)
    ensures var was, now := Zeros(l.DataBytes()), ZerosAdded(l, 1, UnitCount(l), l.DataBytes());
      Outcome(l, host, 1, was, now) && !Added(l, was, now, 1)
  {
    UnitsInside(l);
    ZeroUnits(l, 1, UnitCount(l), l.DataBytes());
    Misplaced(l, 1, l.DataBytes());
  }

  /** The machine units lie in the data. */
  lemma UnitsInside(l: Layout)
    requires l.bitsPerPixel in {8, 16, 32} && l.format == ZPixmap
    ensures PixelStart(l.bitsPerPixel, UnitCount(l)) <= l.DataBytes()
  {
    var n := l.bitsPerPixel / 8;
    var row := if n == 1 then l.bytesPerLine else if n == 2 then l.bytesPerLine / 2 else l.bytesPerLine / 4;
    MulMonotonic(n * row, l.bytesPerLine, l.height);
    MulAssoc(n, row, l.height);
  }

  /** Two scanlines of one pixel of 16 bits, three bytes apart. */
  function OddScanlines(): Layout { Layout(1, 2, 0, ZPixmap, LSBFirst, 8, LSBFirst, 8, 16, 3, 16) }

  /** Adding one to them adds nothing to the second pixel. */
  lemma SecondPixelMissed()
    ensures var l := OddScanlines();
      && l.Valid() && !Aligned(l) && l.DataBytes() == 6
      && Outcome(l, LSBFirst, 1, Zeros(6), ZerosAdded(l, 1, UnitCount(l), 6))
      && !Added(l, Zeros(6), ZerosAdded(l, 1, UnitCount(l), 6), 1)
  {
    OddScanlinesAre();
    OneMissed(OddScanlines(), LSBFirst);
  }

  lemma OddScanlinesAre()
    ensures var l := OddScanlines();
      l.Valid() && !l.OneBit() && InUnitsOfHost(l, LSBFirst) && !Aligned(l) && l.DataBytes() == 6
  {
  }
}
