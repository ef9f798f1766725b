/** Reading and writing pixels (libX11 ImUtil.c). */
module Image {
  import opened Arith
  import opened Bits
  import opened ImageLayout

  /** Bytes of an unsigned long. */
  const LONG_BYTES: nat := 8

  const LONG_BITS: nat := 64

  // ---------- normalisation ----------

  /** Byte b of a unit whose bits are put in order of position. */
  function UnitByte(l: Layout, s: seq<Byte>, b: nat): Byte
    requires |s| == LONG_BYTES && l.bitmapUnit in {8, 16, 32} && b < LONG_BYTES
  {
    if b >= l.bitmapUnit / 8 then s[b]
    else
      var c := if l.byteOrder == l.bitmapBitOrder then s[b] else s[l.bitmapUnit / 8 - 1 - b];
      if l.bitmapBitOrder == LSBFirst then c else Reverse(c)
  }

  /** The unit at the front of s with its bits in order of position. */
  function UnitNormal(l: Layout, s: seq<Byte>): (r: seq<Byte>)
    requires |s| == LONG_BYTES && l.bitmapUnit in {8, 16, 32}
    ensures |r| == LONG_BYTES
  {
    seq(LONG_BYTES, b requires 0 <= b < LONG_BYTES => UnitByte(l, s, b))
  }

  /** The Z format pixel at the front of s, least significant byte (and nibble) first. */
  function PixelNormal(l: Layout, s: seq<Byte>): (r: seq<Byte>)
    requires |s| == LONG_BYTES
    ensures |r| == LONG_BYTES
  {
    if l.byteOrder == LSBFirst then s
    else if l.bitsPerPixel == 4 then [s[0][4..] + s[0][..4]] + s[1..]
    else if l.bitsPerPixel == 16 then [s[1], s[0]] + s[2..]
    else if l.bitsPerPixel == 24 then [s[2], s[1], s[0]] + s[3..]
    else if l.bitsPerPixel == 32 then [s[3], s[2], s[1], s[0]] + s[4..]
    else s
  }

  /** Position i of a normalised unit is where the orders of the image put it. */
  lemma UnitNormalBit(l: Layout, s: seq<Byte>, i: nat)
    requires |s| == LONG_BYTES && l.bitmapUnit in {8, 16, 32} && i < l.bitmapUnit
    ensures Inside(InUnit(l, i), l.bitmapUnit / 8)
    ensures UnitNormal(l, s)[i / 8][i % 8] == s[InUnit(l, i).byte][InUnit(l, i).bit]
  {
    UnitSpotInside(l, i);
    Opposite(l.bitmapUnit, i);
    var b, j := i / 8, i % 8;
    assert UnitNormal(l, s)[b] == UnitByte(l, s, b);
  }

  lemma UnitNormalTwice(l: Layout, s: seq<Byte>)
    requires |s| == LONG_BYTES && l.bitmapUnit in {8, 16, 32}
    ensures UnitNormal(l, UnitNormal(l, s)) == s
    ensures UnitNormal(l, s)[l.bitmapUnit / 8..] == s[l.bitmapUnit / 8..]
  {
    forall b: Byte
      ensures Reverse(Reverse(b)) == b
    {
    }
  }

  // ---------- what an image shows ----------

  predicate SpotBit(data: seq<Byte>, s: Spot) { Inside(s, |data|) && data[s.byte][s.bit] }

  function PixelBits(l: Layout, data: seq<Byte>, x: nat, y: nat): (r: seq<bool>)
    ensures |r| == l.PixelDepth()
  {
    seq(l.PixelDepth(), k requires k >= 0 => SpotBit(data, Place(l, x, y, k)))
  }

  /** The pixel at (x, y): the number whose bit k is the bit at its place. */
  function Pixel(l: Layout, data: seq<Byte>, x: nat, y: nat): nat { ToNat(PixelBits(l, data, x, y)) }

  /** s is the place of one of the n low bits of the pixel at (x, y). */
  ghost predicate Owns(l: Layout, x: nat, y: nat, n: nat, s: Spot) {
    exists k: nat :: k < n && Place(l, x, y, k) == s
  }

  /** The n low bits of pixel p have been written at (x, y), and no bit of another pixel, of the padding
      or outside the image has changed. */
  ghost predicate Written(l: Layout, was: seq<Byte>, now: seq<Byte>, x: nat, y: nat, p: int, n: nat)
    requires n <= LONG_BITS
  {
    && |now| == |was|
    && (forall k: nat :: k < n ==> SpotBit(now, Place(l, x, y, k)) == ToBits(p, LONG_BITS)[k])
    && (forall s :: !Owns(l, x, y, l.Stored(), s) ==> SpotBit(now, s) == SpotBit(was, s))
  }

  /** The places of the pixel at (x, y) hold the low bits of p. */
  ghost predicate Shows(l: Layout, data: seq<Byte>, x: nat, y: nat, p: int)
    requires l.PixelDepth() <= LONG_BITS
  {
    forall k: nat :: k < l.PixelDepth() ==> SpotBit(data, Place(l, x, y, k)) == ToBits(p, LONG_BITS)[k]
  }

  lemma ShownPixel(l: Layout, data: seq<Byte>, x: nat, y: nat, p: int)
    requires l.Valid() && Shows(l, data, x, y, p)
    ensures Pixel(l, data, x, y) == p % Pow2(l.PixelDepth())
  {
    ToBitsTake(p, LONG_BITS, l.PixelDepth());
    assert PixelBits(l, data, x, y) == ToBits(p, LONG_BITS)[..l.PixelDepth()];
    ToNatToBits(p, l.PixelDepth());
  }

  /** What is put is what is got, modulo 2 ^ depth. */
  lemma PutThenGet(l: Layout, was: seq<Byte>, now: seq<Byte>, x: nat, y: nat, p: int)
    requires l.Valid() && l.Has(x, y) && Written(l, was, now, x, y, p, l.PixelDepth())
    ensures Pixel(l, now, x, y) == p % Pow2(l.PixelDepth())
  {
    ShownPixel(l, now, x, y, p);
  }

  /** All bits set aside for another pixel are unchanged. */
  lemma StoredElsewhere(l: Layout, was: seq<Byte>, now: seq<Byte>, x: nat, y: nat, p: int, n: nat, x': nat, y': nat, k: nat)
    requires l.Valid() && l.Has(x, y) && l.Has(x', y') && n <= LONG_BITS && Written(l, was, now, x, y, p, n)
    requires (x, y) != (x', y') && k < l.Stored()
    ensures SpotBit(now, Place(l, x', y', k)) == SpotBit(was, Place(l, x', y', k))
  {
    if Owns(l, x, y, l.Stored(), Place(l, x', y', k)) {
      var j: nat :| j < l.Stored() && Place(l, x, y, j) == Place(l, x', y', k);
      PlaceInjective(l, x, y, j, x', y', k);
    }
  }

  /** Every other pixel is unchanged. */
  lemma PutElsewhere(l: Layout, was: seq<Byte>, now: seq<Byte>, x: nat, y: nat, p: int, n: nat, x': nat, y': nat)
    requires l.Valid() && l.Has(x, y) && l.Has(x', y') && n <= LONG_BITS && Written(l, was, now, x, y, p, n)
    requires (x, y) != (x', y')
    ensures Pixel(l, now, x', y') == Pixel(l, was, x', y')
  {
    forall k: nat | k < l.PixelDepth()
      ensures SpotBit(now, Place(l, x', y', k)) == SpotBit(was, Place(l, x', y', k))
    {
      StoredElsewhere(l, was, now, x, y, p, n, x', y', k);
    }
    assert PixelBits(l, now, x', y') == PixelBits(l, was, x', y');
  }
}
