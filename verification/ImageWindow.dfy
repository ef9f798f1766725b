/** The part of an image that one access reads and writes back: a bitmap unit or a Z format pixel. */
module ImageWindow {
  import opened Bits
  import opened BitCopy
  import opened ImageLayout
  import opened Image

  /** n bytes of the data at the front of an unsigned long of zeros. */
  function Window(data: seq<Byte>, start: nat, n: nat): (r: seq<Byte>)
    requires start + n <= |data| && n <= LONG_BYTES
    ensures |r| == LONG_BYTES
  {
    data[start..start + n] + seq(LONG_BYTES - n, b => ZERO)
  }

  /** The data with the n bytes at start replaced by those at the front of px. */
  function Replaced(data: seq<Byte>, start: nat, n: nat, px: seq<Byte>): (r: seq<Byte>)
    requires start + n <= |data| && n <= |px|
    ensures |r| == |data|
  {
    data[..start] + px[..n] + data[start + n..]
  }

  lemma ReplacedBit(data: seq<Byte>, start: nat, n: nat, px: seq<Byte>, s: Spot)
    requires start + n <= |data| && n <= LONG_BYTES && n <= |px|
    ensures SpotBit(Replaced(data, start, n, px), s) ==
      if start <= s.byte < start + n && 0 <= s.bit < 8 then px[s.byte - start][s.bit] else SpotBit(data, s)
    ensures start <= s.byte < start + n && 0 <= s.bit < 8 ==> SpotBit(data, s) == Window(data, start, n)[s.byte - start][s.bit]
  {
  }

  /** One bit of the window has been written. */
  lemma ReplacedSpot(data: seq<Byte>, start: nat, n: nat, px: seq<Byte>, w: Spot, bit: bool, at: Spot)
    requires start + n <= |data| && n <= LONG_BYTES == |px| && Inside(w, n)
    requires forall rel :: Inside(rel, n) ==>
      px[rel.byte][rel.bit] == if rel == w then bit else Window(data, start, n)[rel.byte][rel.bit]
    ensures SpotBit(Replaced(data, start, n, px), at) == if at == Shifted(start, w) then bit else SpotBit(data, at)
  {
    ReplacedBit(data, start, n, px, at);
    var rel := Spot(at.byte - start, at.bit);
    assert Shifted(start, rel) == at;
    assert !Inside(rel, n) ==> rel != w;
  }

  // ---------- one bit of a bitmap unit ----------

  /** The position of a place in a unit: the inverse of InUnit. */
  function PositionOf(l: Layout, s: Spot): int {
    var n := 8 * (if l.byteOrder == LSBFirst then s.byte else l.bitmapUnit / 8 - 1 - s.byte) + s.bit;
    Significance(l.bitmapUnit, l.bitmapBitOrder, n)
  }

  lemma PositionInverse(l: Layout, s: Spot)
    requires l.bitmapUnit in {8, 16, 32} && Inside(s, l.bitmapUnit / 8)
    ensures 0 <= PositionOf(l, s) < l.bitmapUnit && InUnit(l, PositionOf(l, s)) == s
  {
    var m := if l.byteOrder == LSBFirst then s.byte else l.bitmapUnit / 8 - 1 - s.byte;
    assert (8 * m + s.bit) / 8 == m && (8 * m + s.bit) % 8 == s.bit;
  }

  lemma CopiedBits(bits: seq<Byte>, offset: nat, n: nat, was: seq<Byte>, now: seq<Byte>, j: nat)
    requires n <= 8 * |bits| && j < 8 * |was| && Copied(bits, offset, n, was, now)
    ensures now[j / 8][j % 8] == if offset <= j < offset + n then BitAt(bits, j - offset) else was[j / 8][j % 8]
  {
    assert CopiedByte(bits, offset, n, was, j / 8, now[j / 8]);
    assert 8 * (j / 8) + j % 8 == j;
    assert now[j / 8][j % 8] == CopiedBit(bits, offset, n, was, j);
  }

  lemma CopiedOne(bits: seq<Byte>, i: nat, was: seq<Byte>, now: seq<Byte>, j: nat)
    requires |bits| > 0 && j < 8 * |was| && Copied(bits, i, 1, was, now)
    ensures now[j / 8][j % 8] == if j == i then bits[0][0] else was[j / 8][j % 8]
  {
    CopiedBits(bits, i, 1, was, now, j);
  }

  /** Normalising again puts the bit at position j back at the place of j. */
  lemma UnitBack(l: Layout, t: seq<Byte>, j: nat)
    requires |t| == LONG_BYTES && l.bitmapUnit in {8, 16, 32} && j < l.bitmapUnit
    ensures Inside(InUnit(l, j), l.bitmapUnit / 8)
    ensures UnitNormal(l, t)[InUnit(l, j).byte][InUnit(l, j).bit] == t[j / 8][j % 8]
  {
    UnitNormalTwice(l, t);
    UnitNormalBit(l, UnitNormal(l, t), j);
  }

  /** Normalising, writing bit i and normalising again changes the bit at the place of i only. */
  lemma UnitWrite(l: Layout, s: seq<Byte>, i: nat, bits: seq<Byte>, t: seq<Byte>, at: Spot)
    requires |s| == LONG_BYTES && l.bitmapUnit in {8, 16, 32} && i < l.bitmapUnit && |bits| > 0
    requires Copied(bits, i, 1, UnitNormal(l, s), t) && Inside(at, l.bitmapUnit / 8)
    ensures UnitNormal(l, t)[at.byte][at.bit] == if at == InUnit(l, i) then bits[0][0] else s[at.byte][at.bit]
  {
    PositionInverse(l, at);
    WrittenAt(l, s, i, bits, t, PositionOf(l, at));
  }

  lemma WrittenAt(l: Layout, s: seq<Byte>, i: nat, bits: seq<Byte>, t: seq<Byte>, j: nat)
    requires |s| == LONG_BYTES && l.bitmapUnit in {8, 16, 32} && i < l.bitmapUnit && j < l.bitmapUnit && |bits| > 0
    requires Copied(bits, i, 1, UnitNormal(l, s), t)
    ensures Inside(InUnit(l, j), l.bitmapUnit / 8)
    ensures UnitNormal(l, t)[InUnit(l, j).byte][InUnit(l, j).bit] ==
            if InUnit(l, j) == InUnit(l, i) then bits[0][0] else s[InUnit(l, j).byte][InUnit(l, j).bit]
  {
    UnitNormalBit(l, s, j);
    UnitBack(l, t, j);
    CopiedOne(bits, i, UnitNormal(l, s), t, j);
    if InUnit(l, j) == InUnit(l, i) { UnitSpotInjective(l, i, j); }
  }

  /** The data after bit i of the unit at start has been written. */
  lemma UnitReplaced(l: Layout, data: seq<Byte>, start: nat, i: nat, bits: seq<Byte>, t: seq<Byte>, at: Spot)
    requires l.bitmapUnit in {8, 16, 32} && i < l.bitmapUnit && |bits| > 0 && start + l.bitmapUnit / 8 <= |data|
    requires Copied(bits, i, 1, UnitNormal(l, Window(data, start, l.bitmapUnit / 8)), t)
    ensures SpotBit(Replaced(data, start, l.bitmapUnit / 8, UnitNormal(l, t)), at) ==
      if at == Shifted(start, InUnit(l, i)) then bits[0][0] else SpotBit(data, at)
  {
    var n := l.bitmapUnit / 8;
    UnitSpotInside(l, i);
    forall rel | Inside(rel, n)
      ensures UnitNormal(l, t)[rel.byte][rel.bit] ==
              if rel == InUnit(l, i) then bits[0][0] else Window(data, start, n)[rel.byte][rel.bit]
    {
      UnitWrite(l, Window(data, start, n), i, bits, t, rel);
    }
    ReplacedSpot(data, start, n, UnitNormal(l, t), InUnit(l, i), bits[0][0], at);
  }

  // ---------- a Z format pixel ----------

  /** The offset of a pixel's bits in its first byte: (x * bits_per_pixel) & 7. */
  function BitOffset(bitsPerPixel: nat, x: nat): nat { if bitsPerPixel == 4 then 4 * (x % 2) else 0 }

  predicate Whole(l: Layout) { l.bitsPerPixel in {4, 8, 16, 24, 32} }

  lemma PixelNormalBit(l: Layout, s: seq<Byte>, x: nat, k: nat)
    requires |s| == LONG_BYTES && Whole(l) && k < l.bitsPerPixel
    ensures Inside(InPixel(l, x, k), PixelBytes(l.bitsPerPixel))
    ensures var j := BitOffset(l.bitsPerPixel, x) + k;
      j / 8 < LONG_BYTES && PixelNormal(l, s)[j / 8][j % 8] == s[InPixel(l, x, k).byte][InPixel(l, x, k).bit]
  {
  }

  lemma PixelNormalTwice(l: Layout, s: seq<Byte>)
    requires |s| == LONG_BYTES
    ensures PixelNormal(l, PixelNormal(l, s)) == s
  {
    var c := s[0];
    assert (c[4..] + c[..4])[4..] + (c[4..] + c[..4])[..4] == c;
  }

  lemma PixelBack(l: Layout, t: seq<Byte>, x: nat, k: nat)
    requires |t| == LONG_BYTES && Whole(l) && k < l.bitsPerPixel
    ensures var at, j := InPixel(l, x, k), BitOffset(l.bitsPerPixel, x) + k;
      Inside(at, PixelBytes(l.bitsPerPixel)) && j / 8 < LONG_BYTES && PixelNormal(l, t)[at.byte][at.bit] == t[j / 8][j % 8]
  {
    PixelNormalBit(l, PixelNormal(l, t), x, k);
    PixelNormalTwice(l, t);
  }

  /** Normalising, writing the pixel's bits and normalising again puts bit k at its place. */
  lemma PixelWrite(l: Layout, s: seq<Byte>, x: nat, bits: seq<Byte>, t: seq<Byte>, k: nat)
    requires |s| == LONG_BYTES && Whole(l) && k < l.bitsPerPixel <= 8 * |bits|
    requires Copied(bits, BitOffset(l.bitsPerPixel, x), l.bitsPerPixel, PixelNormal(l, s), t)
    ensures var at := InPixel(l, x, k);
      Inside(at, PixelBytes(l.bitsPerPixel)) && PixelNormal(l, t)[at.byte][at.bit] == BitAt(bits, k)
  {
    PixelBack(l, t, x, k);
    CopiedBack(PixelNormal(l, t), InPixel(l, x, k), bits, BitOffset(l.bitsPerPixel, x), l.bitsPerPixel, PixelNormal(l, s), t, k);
  }

  lemma CopiedBack(px: seq<Byte>, at: Spot, bits: seq<Byte>, offset: nat, n: nat, was: seq<Byte>, t: seq<Byte>, k: nat)
    requires k < n <= 8 * |bits| && offset + k < 8 * |was| && Copied(bits, offset, n, was, t)
    requires Inside(at, |px|) && px[at.byte][at.bit] == t[(offset + k) / 8][(offset + k) % 8]
    ensures px[at.byte][at.bit] == BitAt(bits, k)
  {
    CopiedInto(bits, offset, n, was, t, k);
  }

  lemma CopiedInto(bits: seq<Byte>, offset: nat, n: nat, was: seq<Byte>, now: seq<Byte>, k: nat)
    requires k < n <= 8 * |bits| && offset + k < 8 * |was| && Copied(bits, offset, n, was, now)
    ensures now[(offset + k) / 8][(offset + k) % 8] == BitAt(bits, k)
  {
    CopiedBits(bits, offset, n, was, now, offset + k);
  }

  /** The other pixel of a byte of two. */
  lemma OtherNibble(l: Layout, s: seq<Byte>, x: nat, bits: seq<Byte>, t: seq<Byte>, j: nat)
    requires |s| == LONG_BYTES && l.bitsPerPixel == 4 <= 8 * |bits| && j < 8
    requires Copied(bits, BitOffset(4, x), 4, PixelNormal(l, s), t)
    requires forall k: nat :: k < 4 ==> InPixel(l, x, k) != Spot(0, j)
    ensures PixelNormal(l, t)[0][j] == s[0][j]
  {
    var i := Nibbled(l, j);
    NibbleBit(l, t, j);
    NibbleBit(l, s, i);
    NibbleOutside(l, x, j);
    assert i / 8 == 0 && i % 8 == i;
    CopiedBits(bits, BitOffset(4, x), 4, PixelNormal(l, s), t, i);
  }

  lemma NibbleOutside(l: Layout, x: nat, j: nat)
    requires l.bitsPerPixel == 4 && j < 8
    requires forall k: nat :: k < 4 ==> InPixel(l, x, k) != Spot(0, j)
    ensures var i := Nibbled(l, j);
      Nibbled(l, i) == j && !(BitOffset(4, x) <= i < BitOffset(4, x) + 4)
  {
    assert InPixel(l, x, j % 4).byte == 0;
  }

  /** The bit of the first byte that is at bit j when the image's nibbles are put in order. */
  function Nibbled(l: Layout, j: nat): nat { if l.byteOrder == LSBFirst then j else (j + 4) % 8 }

  lemma NibbleBit(l: Layout, s: seq<Byte>, j: nat)
    requires |s| == LONG_BYTES && l.bitsPerPixel == 4 && j < 8
    ensures PixelNormal(l, s)[0][j] == s[0][Nibbled(l, j)]
  {
  }

  /** Every bit of the window of a pixel of whole bytes belongs to the pixel. */
  function BitOfPixel(l: Layout, at: Spot): int {
    8 * (if l.byteOrder == LSBFirst then at.byte else l.bitsPerPixel / 8 - 1 - at.byte) + at.bit
  }

  lemma WindowOwned(l: Layout, x: nat, at: Spot)
    requires Whole(l) && l.bitsPerPixel != 4 && Inside(at, PixelBytes(l.bitsPerPixel))
    ensures 0 <= BitOfPixel(l, at) < l.bitsPerPixel && InPixel(l, x, BitOfPixel(l, at)) == at
  {
    var m := if l.byteOrder == LSBFirst then at.byte else l.bitsPerPixel / 8 - 1 - at.byte;
    assert (8 * m + at.bit) / 8 == m && (8 * m + at.bit) % 8 == at.bit;
  }

  ghost predicate InWindow(l: Layout, x: nat, at: Spot) {
    exists k: nat :: k < l.bitsPerPixel && InPixel(l, x, k) == at
  }

  /** The data after the pixel of column x, whose window is at start, has been written. */
  lemma PixelReplaced(l: Layout, data: seq<Byte>, start: nat, x: nat, bits: seq<Byte>, t: seq<Byte>, at: Spot)
    requires Whole(l) && l.bitsPerPixel <= 8 * |bits| && start + PixelBytes(l.bitsPerPixel) <= |data|
    requires Copied(bits, BitOffset(l.bitsPerPixel, x), l.bitsPerPixel,
                    PixelNormal(l, Window(data, start, PixelBytes(l.bitsPerPixel))), t)
    requires !InWindow(l, x, Spot(at.byte - start, at.bit))
    ensures SpotBit(Replaced(data, start, PixelBytes(l.bitsPerPixel), PixelNormal(l, t)), at) == SpotBit(data, at)
  {
    var n := PixelBytes(l.bitsPerPixel);
    var rel := Spot(at.byte - start, at.bit);
    ReplacedBit(data, start, n, PixelNormal(l, t), at);
    if Inside(rel, n) {
      if l.bitsPerPixel == 4 {
        OtherNibble(l, Window(data, start, n), x, bits, t, rel.bit);
      } else {
        WindowOwned(l, x, rel);
      }
    }
  }

  lemma PixelPlaced(l: Layout, data: seq<Byte>, start: nat, x: nat, bits: seq<Byte>, t: seq<Byte>, k: nat)
    requires Whole(l) && k < l.bitsPerPixel <= 8 * |bits| && start + PixelBytes(l.bitsPerPixel) <= |data|
    requires Copied(bits, BitOffset(l.bitsPerPixel, x), l.bitsPerPixel,
                    PixelNormal(l, Window(data, start, PixelBytes(l.bitsPerPixel))), t)
    ensures SpotBit(Replaced(data, start, PixelBytes(l.bitsPerPixel), PixelNormal(l, t)),
                    Shifted(start, InPixel(l, x, k))) == BitAt(bits, k)
  {
    var n := PixelBytes(l.bitsPerPixel);
    PixelWrite(l, Window(data, start, n), x, bits, t, k);
    ReplacedBit(data, start, n, PixelNormal(l, t), Shifted(start, InPixel(l, x, k)));
  }

  // ---------- reading ----------

  /** Position i of a normalised unit is the bit of the image at the place of i. */
  lemma UnitRead(l: Layout, data: seq<Byte>, start: nat, i: nat)
    requires l.bitmapUnit in {8, 16, 32} && i < l.bitmapUnit && start + l.bitmapUnit / 8 <= |data|
    ensures UnitNormal(l, Window(data, start, l.bitmapUnit / 8))[i / 8][i % 8] == SpotBit(data, Shifted(start, InUnit(l, i)))
  {
    var n := l.bitmapUnit / 8;
    UnitNormalBit(l, Window(data, start, n), i);
    ReplacedBit(data, start, n, Window(data, start, n), Shifted(start, InUnit(l, i)));
  }

  /** The bits of the pixel in column x, in a window at start. */
  function WindowBits(l: Layout, data: seq<Byte>, start: nat, x: nat, d: nat): (r: seq<bool>)
    ensures |r| == d
  {
    seq(d, k requires k >= 0 => SpotBit(data, Shifted(start, InPixel(l, x, k))))
  }

  lemma PixelRead(l: Layout, data: seq<Byte>, start: nat, x: nat)
    requires Whole(l) && start + PixelBytes(l.bitsPerPixel) <= |data|
    ensures var bits := Flat(PixelNormal(l, Window(data, start, PixelBytes(l.bitsPerPixel))));
      var o := BitOffset(l.bitsPerPixel, x);
      && bits[o..o + l.bitsPerPixel] == WindowBits(l, data, start, x, l.bitsPerPixel)
      && forall j :: 8 * PixelBytes(l.bitsPerPixel) <= j < LONG_BITS ==> !bits[j]
  {
    var n := PixelBytes(l.bitsPerPixel);
    var s := Window(data, start, n);
    var bits := Flat(PixelNormal(l, s));
    var o := BitOffset(l.bitsPerPixel, x);
    forall k: nat | k < l.bitsPerPixel
      ensures bits[o + k] == SpotBit(data, Shifted(start, InPixel(l, x, k)))
    {
      PixelReadBit(l, data, start, x, k);
    }
    forall j | 8 * n <= j < LONG_BITS
      ensures !bits[j]
    {
      UnusedBytes(l, s, j / 8);
    }
  }

  lemma PixelReadBit(l: Layout, data: seq<Byte>, start: nat, x: nat, k: nat)
    requires Whole(l) && start + PixelBytes(l.bitsPerPixel) <= |data| && k < l.bitsPerPixel
    ensures var j := BitOffset(l.bitsPerPixel, x) + k;
      && j / 8 < LONG_BYTES
      && PixelNormal(l, Window(data, start, PixelBytes(l.bitsPerPixel)))[j / 8][j % 8] == SpotBit(data, Shifted(start, InPixel(l, x, k)))
  {
    var n := PixelBytes(l.bitsPerPixel);
    PixelNormalBit(l, Window(data, start, n), x, k);
    ReplacedBit(data, start, n, Window(data, start, n), Shifted(start, InPixel(l, x, k)));
  }

  lemma UnusedBytes(l: Layout, s: seq<Byte>, b: nat)
    requires |s| == LONG_BYTES && Whole(l) && PixelBytes(l.bitsPerPixel) <= b < LONG_BYTES
    ensures PixelNormal(l, s)[b] == s[b]
  {
  }

  /** The value the generic reader computes from the assembled word of a Z format pixel. */
  lemma WordToPixel(bits: seq<bool>, bitsPerPixel: nat, x: nat, d: nat)
    requires |bits| == LONG_BITS && bitsPerPixel in {4, 8, 16, 24, 32} && d <= bitsPerPixel
    requires forall j :: 8 * PixelBytes(bitsPerPixel) <= j < LONG_BITS ==> !bits[j]
    ensures var word := ToNat(bits);
      var o := BitOffset(bitsPerPixel, x);
      var pixel := if bitsPerPixel != 4 then word else if x % 2 == 1 then word / 16 else word % 16;
      && pixel == ToNat(bits[o..o + bitsPerPixel])
      && pixel % Pow2(d) == ToNat(bits[o..o + d])
  {
    var o := BitOffset(bitsPerPixel, x);
    var part := bits[o..o + bitsPerPixel];
    if bitsPerPixel == 4 {
      NibbleValues(bits);
      assert part == if x % 2 == 1 then bits[4..8] else bits[..4];
    } else {
      ToNatTrim(bits, bitsPerPixel);
      assert part == bits[..bitsPerPixel];
    }
    ToNatTake(part, d);
    assert part[..d] == bits[o..o + d];
  }

  lemma NibbleValues(bits: seq<bool>)
    requires |bits| == LONG_BITS && forall j :: 8 <= j < LONG_BITS ==> !bits[j]
    ensures ToNat(bits[..4]) == ToNat(bits) % 16 && ToNat(bits[4..8]) == ToNat(bits) / 16
  {
    SmallPowers();
    ToNatTake(bits, 4);
    ToNatSlice(bits, 4, 8);
  }
}
