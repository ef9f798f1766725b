/** What XGetImage does to a captured image while screenshots are prohibited (libX11 GetImage.c). */
module GetImage {
  import opened Arith
  import opened Bits
  import opened ImageLayout
  import opened Image
  import opened XImageObject
  import opened XImageOps
  import opened Options

  /** The lock image: three bytes a pixel, red first. */
  datatype LockImage = LockImage(width: nat, height: nat, data: seq<nat>)
  {
    ghost predicate Valid() { width > 0 && height > 0 && |data| == 3 * (width * height) && forall i :: 0 <= i < |data| ==> data[i] < 256 }
  }

  // ---------- the picture ----------

  /** (r << 16) | (g << 8) | b of the three bytes at start. */
  function Colour(lock: LockImage, start: nat): nat
    requires start + 2 < |lock.data|
  {
    0x1_0000 * lock.data[start] + 0x100 * lock.data[start + 1] + lock.data[start + 2]
  }

  /** The colour of pixel (u, v) of the lock image. */
  function LockPixel(lock: LockImage, u: nat, v: nat): nat
    requires lock.Valid() && u < lock.width && v < lock.height
  {
    LockIndex(lock, u, v);
    Colour(lock, (v * lock.width + u) * 3)
  }

  lemma LockIndex(lock: LockImage, u: nat, v: nat)
    requires lock.Valid() && u < lock.width && v < lock.height
    ensures 0 <= (v * lock.width + u) * 3 && (v * lock.width + u) * 3 + 2 < |lock.data|
  {
    MulMonotonic(v + 1, lock.height, lock.width);
    MulDistributes(v, 1, lock.width);
    MulMonotonic(0, v, lock.width);
    assert lock.height * lock.width == lock.width * lock.height;
  }

  /** Where the copying starts and stops, in one direction: in the lock image (src, stop) and in the image. */
  function SrcStart(lockSize: nat, size: nat): nat { if lockSize > size then (lockSize - size) / 2 else 0 }

  function SrcStop(lockSize: nat, size: nat): nat { if lockSize > size then size else lockSize }

  function DstStart(lockSize: nat, size: nat): nat { if lockSize < size then (size - lockSize) / 2 else 0 }

  /** The column or row of the lock image that goes to column or row x of the image. */
  function Source(lockSize: nat, size: nat, x: nat): int { x - DstStart(lockSize, size) + SrcStart(lockSize, size) }

  predicate InSpan(lockSize: nat, size: nat, x: nat) {
    SrcStart(lockSize, size) <= Source(lockSize, size, x) < SrcStop(lockSize, size)
  }

  predicate Overlaid(lock: LockImage, l: Layout, x: nat, y: nat) {
    InSpan(lock.width, l.width, x) && InSpan(lock.height, l.height, y)
  }

  /** The colour of the masked image at (x, y). */
  function Masked(lock: Option<LockImage>, l: Layout, x: nat, y: nat): nat
    requires lock.Some? ==> lock.value.Valid()
  {
    if lock == None then 0
    else if Overlaid(lock.value, l, x, y) then
      LockPixel(lock.value, Source(lock.value.width, l.width, x), Source(lock.value.height, l.height, y))
    else LockPixel(lock.value, 0, 0)
  }

  /** All bits set aside for the pixel are those that putting p leaves. */
  ghost predicate PixelIs(l: Layout, narrows: bool, data: seq<Byte>, x: nat, y: nat, p: int)
    requires l.Stored() <= LONG_BITS
  {
    forall k: nat :: k < l.Stored() ==> SpotBit(data, Place(l, x, y, k)) == ToBits(PutAs(l, narrows, p), LONG_BITS)[k]
  }

  /** Every pixel of the image shows the picture, in all the bits set aside for it. */
  ghost predicate ShowsMask(l: Layout, narrows: bool, data: seq<Byte>, lock: Option<LockImage>)
    requires l.Stored() <= LONG_BITS && (lock.Some? ==> lock.value.Valid())
  {
    forall x: nat, y: nat :: l.Has(x, y) ==> PixelIs(l, narrows, data, x, y, Masked(lock, l, x, y))
  }

  /** What reading gives is the picture, modulo 2 ^ depth. */
  lemma MaskRead(l: Layout, narrows: bool, data: seq<Byte>, lock: Option<LockImage>, x: nat, y: nat)
    requires l.Valid() && (lock.Some? ==> lock.value.Valid()) && ShowsMask(l, narrows, data, lock) && l.Has(x, y)
    ensures Pixel(l, data, x, y) == Masked(lock, l, x, y) % Pow2(l.PixelDepth())
  {
    var p := Masked(lock, l, x, y);
    assert PixelIs(l, narrows, data, x, y, p);
    assert Written(l, data, data, x, y, PutAs(l, narrows, p), l.Stored());
    StoredWritten(l, narrows, data, data, x, y, p);
    PutThenGet(l, data, data, x, y, p);
  }

  /** From the top, the bytes of c are the red, green and blue byte of the pixel that belongs at (x, y): the one that
      is overlaid there, or else the first; without a lock image c is black. */
  ghost predicate HasColour(lock: Option<LockImage>, l: Layout, x: nat, y: nat, c: nat)
    requires lock.Some? ==> lock.value.Valid()
  {
    match lock
    case None => c == 0
    case Some(i) =>
      var (u, v) := if Overlaid(i, l, x, y) then (Source(i.width, l.width, x), Source(i.height, l.height, y)) else (0, 0);
      LockIndex(i, u, v);
      var at := (v * i.width + u) * 3;
      c / 0x1_0000 == i.data[at] && c / 0x100 % 0x100 == i.data[at + 1] && c % 0x100 == i.data[at + 2]
  }

  /** What is read at (x, y) is the colour that belongs there, modulo 2 ^ depth. */
  ghost predicate ReadsColour(lock: Option<LockImage>, l: Layout, data: seq<Byte>, x: nat, y: nat)
    requires l.Valid() && l.Has(x, y) && (lock.Some? ==> lock.value.Valid())
  {
    exists c: nat :: HasColour(lock, l, x, y, c) && Pixel(l, data, x, y) == c % Pow2(l.PixelDepth())
  }

  lemma BytesOf(r: nat, g: nat, b: nat)
    requires r < 0x100 && g < 0x100 && b < 0x100
    ensures var c := 0x1_0000 * r + 0x100 * g + b;
      c / 0x1_0000 == r && c / 0x100 % 0x100 == g && c % 0x100 == b
  {
    var c := 0x1_0000 * r + 0x100 * g + b;
    assert c / 0x100 == 0x100 * r + g;
  }

  /** The mask has the bytes of the lock image in their order, red on top. */
  lemma MaskColour(lock: Option<LockImage>, l: Layout, x: nat, y: nat)
    requires lock.Some? ==> lock.value.Valid()
    ensures HasColour(lock, l, x, y, Masked(lock, l, x, y))
  {
    if lock.Some? {
      var i := lock.value;
      var u, v := if Overlaid(i, l, x, y) then Source(i.width, l.width, x) else 0, if Overlaid(i, l, x, y) then Source(i.height, l.height, y) else 0;
      LockIndex(i, u, v);
      var at := (v * i.width + u) * 3;
      BytesOf(i.data[at], i.data[at + 1], i.data[at + 2]);
    }
  }

  /** Every pixel of a masked image reads as the colour that belongs there. */
  lemma MaskReads(l: Layout, narrows: bool, data: seq<Byte>, lock: Option<LockImage>)
    requires l.Valid() && (lock.Some? ==> lock.value.Valid()) && ShowsMask(l, narrows, data, lock)
    ensures forall x: nat, y: nat :: l.Has(x, y) ==> ReadsColour(lock, l, data, x, y)
  {
    forall x: nat, y: nat | l.Has(x, y)
      ensures ReadsColour(lock, l, data, x, y)
    {
      MaskRead(l, narrows, data, lock, x, y);
      MaskColour(lock, l, x, y);
    }
  }

  /** Two captures of the same size and layout have the same bits in every pixel once masked: none depends on what
      was captured. */
  lemma NothingCaptured(l: Layout, narrows: bool, first: seq<Byte>, second: seq<Byte>, lock: Option<LockImage>, x: nat, y: nat, k: nat)
    requires l.Stored() <= LONG_BITS && (lock.Some? ==> lock.value.Valid())
    requires ShowsMask(l, narrows, first, lock) && ShowsMask(l, narrows, second, lock) && l.Has(x, y) && k < l.Stored()
    ensures SpotBit(first, Place(l, x, y, k)) == SpotBit(second, Place(l, x, y, k))
  {
    assert PixelIs(l, narrows, first, x, y, Masked(lock, l, x, y)) && PixelIs(l, narrows, second, x, y, Masked(lock, l, x, y));
  }

  /** A lock image no larger than the screenshot appears whole, with margins that differ by at most one. */
  lemma Centred(lock: LockImage, l: Layout, u: nat, v: nat)
    requires lock.Valid() && lock.width <= l.width && lock.height <= l.height && u < lock.width && v < lock.height
    ensures var left, top := DstStart(lock.width, l.width), DstStart(lock.height, l.height);
      var right, bottom := l.width - lock.width - left, l.height - lock.height - top;
      && left <= right <= left + 1 && top <= bottom <= top + 1
      && Masked(Some(lock), l, left + u, top + v) == LockPixel(lock, u, v)
  {
  }

  /** Of a lock image larger than the screenshot as much is left out on the left as on the right, or one less. */
  lemma CutEvenly(lockSize: nat, size: nat)
    requires lockSize > size > 0
    ensures var left := Source(lockSize, size, 0);
      var right := lockSize - (Source(lockSize, size, size - 1) + 1);
      0 <= left <= right <= left + 1
  {
  }

  /** Only the pixels of the whole lock image are overlaid. */
  lemma Frame(lock: LockImage, l: Layout, x: nat, y: nat)
    requires lock.Valid() && lock.width <= l.width && lock.height <= l.height
    ensures Overlaid(lock, l, x, y) <==>
      && DstStart(lock.width, l.width) <= x < DstStart(lock.width, l.width) + lock.width
      && DstStart(lock.height, l.height) <= y < DstStart(lock.height, l.height) + lock.height
  {
  }

  /** The pixel of a centred lock image that belongs at (x, y), whether or not it is copied. */
  predicate Belongs(lock: LockImage, l: Layout, x: nat, y: nat) {
    0 <= Source(lock.width, l.width, x) < lock.width && 0 <= Source(lock.height, l.height, y) < lock.height
  }

  /** The copying loops stop at the size of the screenshot, not at that size past the start: everything that
      belongs in the screenshot is copied exactly if the lock image is at most one pixel larger each way. */
  lemma CopiedWholeIff(lock: LockImage, l: Layout)
    requires lock.Valid() && l.width > 0 && l.height > 0
    ensures (forall x: nat, y: nat :: l.Has(x, y) && Belongs(lock, l, x, y) ==> Overlaid(lock, l, x, y)) <==>
            lock.width <= l.width + 1 && lock.height <= l.height + 1
  {
    if lock.width > l.width + 1 {
      var x, y: nat := l.width - 1, DstStart(lock.height, l.height);
      assert Belongs(lock, l, x, y) && !Overlaid(lock, l, x, y);
    }
    if lock.height > l.height + 1 {
      var x: nat, y := DstStart(lock.width, l.width), l.height - 1;
      assert Belongs(lock, l, x, y) && !Overlaid(lock, l, x, y);
    }
  }

  /** A lock image of four by one pixels on a screenshot of two by one: its middle is two pixels, and the second is
      not copied. */
  lemma MiddleClipped()
    ensures var lock := LockImage(4, 1, [0, 0, 0, 0, 0, 0, 0, 0, 0, 0, 0, 0]);
      var l := Layout(2, 1, 0, ZPixmap, LSBFirst, 8, LSBFirst, 8, 24, 8, 32);
      lock.Valid() && l.Valid() && l.Has(1, 0) && Belongs(lock, l, 1, 0) && Source(lock.width, l.width, 1) == 2 && !Overlaid(lock, l, 1, 0)
  {
  }

  // ---------- the loops ----------

  /** Pixels before (i, j), in the order of the scanlines, are p. */
  ghost predicate FilledUpTo(l: Layout, narrows: bool, data: seq<Byte>, p: int, i: int, j: int)
    requires l.Stored() <= LONG_BITS
  {
    forall x: nat, y: nat :: l.Has(x, y) && (y < j || (y == j && x < i)) ==> PixelIs(l, narrows, data, x, y, p)
  }

  lemma PixelPut(l: Layout, narrows: bool, was: seq<Byte>, now: seq<Byte>, x: nat, y: nat, p: int)
    requires l.Valid() && Written(l, was, now, x, y, PutAs(l, narrows, p), l.Stored())
    ensures PixelIs(l, narrows, now, x, y, p)
  {
  }

  lemma PixelStays(l: Layout, narrows: bool, was: seq<Byte>, now: seq<Byte>, x: nat, y: nat, q: int, a: nat, b: nat, p: int)
    requires l.Valid() && l.Has(x, y) && l.Has(a, b) && (x, y) != (a, b) && Written(l, was, now, x, y, q, l.Stored())
    requires PixelIs(l, narrows, was, a, b, p)
    ensures PixelIs(l, narrows, now, a, b, p)
  {
    forall k: nat | k < l.Stored()
      ensures SpotBit(now, Place(l, a, b, k)) == SpotBit(was, Place(l, a, b, k))
    {
      StoredElsewhere(l, was, now, x, y, q, l.Stored(), a, b, k);
    }
  }

  lemma OneMoreFilled(l: Layout, narrows: bool, was: seq<Byte>, now: seq<Byte>, p: int, i: nat, j: nat)
    requires l.Valid() && l.Has(i, j) && FilledUpTo(l, narrows, was, p, i, j) && Written(l, was, now, i, j, PutAs(l, narrows, p), l.Stored())
    ensures FilledUpTo(l, narrows, now, p, i + 1, j)
  {
    PixelPut(l, narrows, was, now, i, j, p);
    forall x: nat, y: nat | l.Has(x, y) && (y < j || (y == j && x < i + 1))
      ensures PixelIs(l, narrows, now, x, y, p)
    {
      if (x, y) != (i, j) {
        PixelStays(l, narrows, was, now, i, j, PutAs(l, narrows, p), x, y, p);
      }
    }
  }

  /** Puts bg_color everywhere. */
  method Fill(image: XImage, p: int, ghost narrows: bool)
    requires image.Valid() && narrows == Narrows(image.putPixel, image.layout)
    modifies image`getPixel, image`putPixel, image.data
    ensures FilledUpTo(image.layout, narrows, image.data[..], p, 0, image.layout.height) && narrows == Narrows(image.putPixel, image.layout)
  {
    ghost var l := image.layout;
    var y: nat := 0;
    while y < image.layout.height
      invariant y <= l.height
      invariant FilledUpTo(l, narrows, image.data[..], p, 0, y) && narrows == Narrows(image.putPixel, l)
    {
      var x: nat := 0;
      while x < image.layout.width
        invariant x <= l.width
        invariant FilledUpTo(l, narrows, image.data[..], p, x, y) && narrows == Narrows(image.putPixel, l)
      {
        ghost var was := image.data[..];
        var status := image.PutPixel(x, y, p);
        OneMoreFilled(l, narrows, was, image.data[..], p, x, y);
        x := x + 1;
      }
      y := y + 1;
    }
  }

  /** The overlaid pixels whose source is before (u, v) are done; the others are the background. */
  predicate Done(lock: LockImage, l: Layout, x: nat, y: nat, u: int, v: int) {
    && Overlaid(lock, l, x, y)
    && (Source(lock.height, l.height, y) < v || (Source(lock.height, l.height, y) == v && Source(lock.width, l.width, x) < u))
  }

  function SoFar(lock: LockImage, l: Layout, x: nat, y: nat, u: int, v: int): nat
    requires lock.Valid()
  {
    if Done(lock, l, x, y, u, v) then Masked(Some(lock), l, x, y) else LockPixel(lock, 0, 0)
  }

  ghost predicate OverlaidUpTo(l: Layout, narrows: bool, data: seq<Byte>, lock: LockImage, u: int, v: int)
    requires lock.Valid() && l.Stored() <= LONG_BITS
  {
    forall x: nat, y: nat :: l.Has(x, y) ==> PixelIs(l, narrows, data, x, y, SoFar(lock, l, x, y, u, v))
  }

  /** One more column of the source changes what is due at one pixel only. */
  lemma OneMoreSource(lock: LockImage, l: Layout, u: nat, v: nat, x: nat, y: nat, a: nat, b: nat)
    requires lock.Valid() && Overlaid(lock, l, x, y)
    requires Source(lock.width, l.width, x) == u && Source(lock.height, l.height, y) == v
    ensures SoFar(lock, l, a, b, u + 1, v) == if (a, b) == (x, y) then LockPixel(lock, u, v) else SoFar(lock, l, a, b, u, v)
  {
  }

  lemma OneMoreOverlaid(l: Layout, narrows: bool, was: seq<Byte>, now: seq<Byte>, lock: LockImage, u: nat, v: nat, x: nat, y: nat, p: nat)
    requires l.Valid() && lock.Valid() && l.Has(x, y) && Overlaid(lock, l, x, y)
    requires Source(lock.width, l.width, x) == u && Source(lock.height, l.height, y) == v
    requires u < lock.width && v < lock.height && p == LockPixel(lock, u, v)
    requires OverlaidUpTo(l, narrows, was, lock, u, v) && Written(l, was, now, x, y, PutAs(l, narrows, p), l.Stored())
    ensures OverlaidUpTo(l, narrows, now, lock, u + 1, v)
  {
    PixelPut(l, narrows, was, now, x, y, p);
    forall a: nat, b: nat | l.Has(a, b)
      ensures PixelIs(l, narrows, now, a, b, SoFar(lock, l, a, b, u + 1, v))
    {
      OneMoreSource(lock, l, u, v, x, y, a, b);
      if (a, b) != (x, y) {
        PixelStays(l, narrows, was, now, x, y, PutAs(l, narrows, p), a, b, SoFar(lock, l, a, b, u, v));
      }
    }
  }

  lemma RowOverlaid(l: Layout, narrows: bool, data: seq<Byte>, lock: LockImage, u: int, v: int)
    requires l.Stored() <= LONG_BITS && lock.Valid() && OverlaidUpTo(l, narrows, data, lock, u, v) && u >= SrcStop(lock.width, l.width)
    ensures OverlaidUpTo(l, narrows, data, lock, SrcStart(lock.width, l.width), v + 1)
  {
    forall x: nat, y: nat | l.Has(x, y)
      ensures PixelIs(l, narrows, data, x, y, SoFar(lock, l, x, y, SrcStart(lock.width, l.width), v + 1))
    {
      assert PixelIs(l, narrows, data, x, y, SoFar(lock, l, x, y, u, v));
    }
  }

  method OverlayOne(image: XImage, lock: LockImage, u: nat, v: nat, ghost narrows: bool)
    requires image.Valid() && lock.Valid() && narrows == Narrows(image.putPixel, image.layout)
    requires SrcStart(lock.width, image.layout.width) <= u < SrcStop(lock.width, image.layout.width)
    requires SrcStart(lock.height, image.layout.height) <= v < SrcStop(lock.height, image.layout.height)
    requires OverlaidUpTo(image.layout, narrows, image.data[..], lock, u, v)
    modifies image`getPixel, image`putPixel, image.data
    ensures OverlaidUpTo(image.layout, narrows, image.data[..], lock, u + 1, v) && narrows == Narrows(image.putPixel, image.layout)
  {
    var x := DstStart(lock.width, image.layout.width) + u - SrcStart(lock.width, image.layout.width);
    var y := DstStart(lock.height, image.layout.height) + v - SrcStart(lock.height, image.layout.height);
    LockIndex(lock, u, v);
    var start := (v * lock.width + u) * 3;
    var rgb := Colour(lock, start);
    ghost var was := image.data[..];
    var status := image.PutPixel(x, y, rgb);
    OneMoreOverlaid(image.layout, narrows, was, image.data[..], lock, u, v, x, y, rgb);
  }

  /** Copies the lock image over the background. */
  method Overlay(image: XImage, lock: LockImage, ghost narrows: bool)
    requires image.Valid() && lock.Valid() && narrows == Narrows(image.putPixel, image.layout)
    requires FilledUpTo(image.layout, narrows, image.data[..], LockPixel(lock, 0, 0), 0, image.layout.height)
    modifies image`getPixel, image`putPixel, image.data
    ensures ShowsMask(image.layout, narrows, image.data[..], Some(lock))
  {
    ghost var l := image.layout;
    var srcX, srcY := SrcStart(lock.width, image.layout.width), SrcStart(lock.height, image.layout.height);
    var srcWidth, srcHeight := SrcStop(lock.width, image.layout.width), SrcStop(lock.height, image.layout.height);
    OverlayStarts(l, narrows, image.data[..], lock);
    var y := srcY;
    while y < srcHeight
      invariant srcY <= y && (y <= srcHeight || y == srcY)
      invariant OverlaidUpTo(l, narrows, image.data[..], lock, srcX, y) && narrows == Narrows(image.putPixel, l)
    {
      var x := srcX;
      while x < srcWidth
        invariant srcX <= x
        invariant OverlaidUpTo(l, narrows, image.data[..], lock, x, y) && narrows == Narrows(image.putPixel, l)
      {
        OverlayOne(image, lock, x, y, narrows);
        x := x + 1;
      }
      RowOverlaid(l, narrows, image.data[..], lock, x, y);
      y := y + 1;
    }
    OverlayEnds(l, narrows, image.data[..], lock, y);
  }

  lemma OverlayStarts(l: Layout, narrows: bool, data: seq<Byte>, lock: LockImage)
    requires l.Stored() <= LONG_BITS && lock.Valid() && FilledUpTo(l, narrows, data, LockPixel(lock, 0, 0), 0, l.height)
    ensures OverlaidUpTo(l, narrows, data, lock, SrcStart(lock.width, l.width), SrcStart(lock.height, l.height))
  {
    forall x: nat, y: nat | l.Has(x, y)
      ensures PixelIs(l, narrows, data, x, y, SoFar(lock, l, x, y, SrcStart(lock.width, l.width), SrcStart(lock.height, l.height)))
    {
      assert PixelIs(l, narrows, data, x, y, LockPixel(lock, 0, 0));
    }
  }

  lemma OverlayEnds(l: Layout, narrows: bool, data: seq<Byte>, lock: LockImage, v: int)
    requires l.Stored() <= LONG_BITS && lock.Valid() && OverlaidUpTo(l, narrows, data, lock, SrcStart(lock.width, l.width), v) && v >= SrcStop(lock.height, l.height)
    ensures ShowsMask(l, narrows, data, Some(lock))
  {
    forall x: nat, y: nat | l.Has(x, y)
      ensures PixelIs(l, narrows, data, x, y, Masked(Some(lock), l, x, y))
    {
      assert PixelIs(l, narrows, data, x, y, SoFar(lock, l, x, y, SrcStart(lock.width, l.width), v));
    }
  }

  // ---------- XGetImage ----------

  /** What XGetImage keeps between calls. */
  class Screen {
    var lockImage: Option<LockImage>
    var lockImageId: int

    constructor ()
      ensures Valid() && lockImage == None && lockImageId == 0
    {
      lockImage := None;
      lockImageId := 0;
    }

    ghost predicate Valid()
      reads this
    {
      lockImage.Some? ==> lockImage.value.Valid()
    }

    /** XGetImage, for the image captured, the number of prohibiting windows, the id of the lock image in
        force and the image that loading it would give. */
    method XGetImage(image: XImage?, count: nat, id: int, stored: Option<LockImage>) returns (result: XImage?)
      requires Valid() && (image != null ==> image.Valid()) && (stored.Some? ==> stored.value.Valid())
      modifies this, if image == null then {} else {image, image.data}
      ensures Valid() && result == image
      ensures image != null ==> image.layout == old(image.layout) && image.data == old(image.data)
      ensures (image == null || count == 0) ==>
                lockImage == old(lockImage) && lockImageId == old(lockImageId)
      ensures image != null && count == 0 ==> image.data[..] == old(image.data[..])
      ensures image != null && count != 0 ==>
                && lockImage == (if old(lockImage) == None || id != old(lockImageId) then stored else old(lockImage))
                && lockImageId == id
                && ShowsMask(image.layout, Narrows(old(image.putPixel), image.layout), image.data[..], lockImage)
                && forall x: nat, y: nat :: image.layout.Has(x, y) ==> ReadsColour(lockImage, image.layout, image.data[..], x, y)
    {
      result := image;
      if image == null || count == 0 {
        return;
      }
      if lockImage == None || id != lockImageId {
        lockImage := stored;
        lockImageId := id;
      }
      ghost var narrows := Narrows(image.putPixel, image.layout);
      Mask(image, lockImage, narrows);
      MaskReads(image.layout, narrows, image.data[..], lockImage);
    }

    /** The mask over a captured image: the background, and the lock image on it. */
    static method Mask(image: XImage, lock: Option<LockImage>, ghost narrows: bool)
      requires image.Valid() && (lock.Some? ==> lock.value.Valid()) && narrows == Narrows(image.putPixel, image.layout)
      modifies image`getPixel, image`putPixel, image.data
      ensures ShowsMask(image.layout, narrows, image.data[..], lock)
    {
      var bgColor := 0;
      if lock != None {
        LockIndex(lock.value, 0, 0);
        bgColor := Colour(lock.value, 0);
      }
      Fill(image, bgColor, narrows);
      if lock != None {
        Overlay(image, lock.value, narrows);
      } else {
        BlankMask(image.layout, narrows, image.data[..]);
      }
    }
  }

  lemma BlankMask(l: Layout, narrows: bool, data: seq<Byte>)
    requires l.Stored() <= LONG_BITS && FilledUpTo(l, narrows, data, 0, 0, l.height)
    ensures ShowsMask(l, narrows, data, None)
  {
    forall x: nat, y: nat | l.Has(x, y)
      ensures PixelIs(l, narrows, data, x, y, Masked(None, l, x, y))
    {
      assert PixelIs(l, narrows, data, x, y, 0);
    }
  }
}
