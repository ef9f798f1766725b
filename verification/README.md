# Algorithms of Xlib, verified

This project models the parts of libX11 1.6.12.1 that are algorithms rather than
wire requests, and proves what they are for. Every routine that works in place is a
method on the state it changes, with the branches of the C code, and is proved against a
specification that does not mention how the code works. The main results:

* **Regions** (`Boxes`, `Sweep`, `BandOps`, `SweepSteps`, `SpanRows`, `Region`, `RegionApi`,
  `RegionRect`, `RegionShrink`). A region is a list of half-open boxes in y-x-banded form, of which
  boxes may touch or could be merged. The band-by-band sweep `miRegionOp` with its three overlap
  routines and the in-place `miCoalesce` computes exactly the union, intersection, difference and
  symmetric difference of sets of points, keeps the canonical form where the sources have it, and
  works when source and destination are the same object. The canonical form is unique, so
  `XEqualRegion` decides equality of sets for regions that have it. `XShrinkRegion` is erosion or
  dilation; `XRectInRegion` tells whether each row of the rectangle lies in one box.
* **Polygons** (`Bresenham`, `EdgeOrder`, `EdgeList`, `EdgeTable`, `Polygon*`, `ScanPoints`,
  `ScanConversion`).
  From the stepping macros through the edge table, the doubly linked active edge list and its
  winding links to the boxes: the region of a polygon holds exactly the points that its rule
  puts inside, where inside is defined by counting the sides left of a point, exactly and
  without reference to drawing; and it is canonical exactly if the points of the scan, which are computed from the
  sides of the polygon, meet a condition.
* **Images** (`Bits`, `ImageLayout`, `Image`, `BitCopy`, `ImageWindow`, `PixelAccess`, `AddPixel`,
  `XImage`, `XImageOps`, `CreateImage`, `GetImage`). `ImageLayout.Place` says where each bit of each pixel is,
  from the meaning of formats, byte orders and bit orders. The generic routine and the four fast
  ones get and put exactly the bits at these places. `_XAddPixel`, `_XSubImage`, `XCreateImage`
  and this repository's masking of screenshots in `XGetImage` are built on them.
* **Image transfer** (`BitmapSwap`, `BitmapConvert`, `PutImageSplit`). The routine in the table for
  any two of the twelve scanline orders puts every scanline bit where the other order wants it.
  `PutSubImage` tiles the image it is given with requests.
* **Tables** (`Quarks`, `Context`). String interning by open addressing and double hashing, and
  a chained table that grows and shrinks, each against a map.
* **Graphics contexts** (`GraphicsContext`). The client's cache and the server as one state
  machine over create, change, copy, set clip rectangles, set dashes and flush; each method is
  proved to make the step of the machine.
* **Requests** (`PolyText`, `TextOutput`, `DrawPoints`). The element stream of `XDrawText` is decoded
  as section 9 of the X Window System Protocol (PolyText8) says, and written through an output
  buffer that is flushed when it is full; split point lists draw what the whole list does.

`Arith`, `Tally` and `Options` hold shared arithmetic, sums and an option type.

Where the code does not do what one would expect, the model follows the code, a lemma gives
an input on which it fails, and another says exactly when it succeeds:

* `PtsToRegion` never makes the last box taller with the last pair of points or at the end of a block, and
  leaves spans that touch as boxes of their own, so the region of a polygon need not be canonical
  (`ScanConversion.FiveCornersUntidy`, `LastRowApart`; exactly when: `ScanConversion.XPolygonRegion`,
  `PolygonSpans.PtsToRegion`). On such regions `XEqualRegion` compares boxes instead of points
  (`ScanConversion.EqualPolygons`; exactly when: `RegionApi.XEqualRegion`), and `XRectInRegion` does not
  see that boxes that touch cover a row (`RegionRect.TouchingBoxes`; exactly when: `RegionRect.XRectInRegion`);
* `XDrawText` writes the characters behind a delta through a pointer to its header, which a flush of the
  output buffer in between leaves behind: the characters are lost (`TextOutput.LongTextLost`; exactly when:
  `TextOutput.WholeIff`; never when the items fit into the buffer: `FittingDraws`), and the length of the
  request is kept in 16 bits (`TooLongText`; exactly when the server reads what was meant: `ReadIff`);
* the width cut of `PutSubImage` counts the bits of one plane, so for other images whose scanlines do
  not fit it recurses for ever (`PutImageSplit.TwoPlanesNeverEnd`; exactly when: `TerminatesIff`), and the
  size that it compares with the room is a product of 32 bits (`SentWhole`; exactly when: `FitIff`);
* `SwapWords` on an odd number of bytes at the end of the last scanline loses bits, as does copying part of a
  unit between orders that exchange bytes in the same way, equal ones included
  (`BitmapConvert.OddByteLost`, `OddByteNotCopied`; exactly when: `ConvertedIff`, and in a call for several
  scanlines: `ConvertedAtIff`);
* the loops of `_XAddPixel` over shorts and words assume that scanlines start at such units,
  and its comment assumes a one-bit image is only ever given the value one
  (`AddPixel.SecondPixelMissed`; exactly when: `AlignedIff`, `OneBitAdded`);
* `XCreateImage` does not count the offset in the size of a one-bit ZPixmap, pads scanlines to less than a
  bitmap unit if asked to, and computes their length in 32 bits (`CreateImage.OffsetOutside`, `UnitTooLarge`,
  `WideImage`; exactly when: `CreatedRoomIff`), and so does `_XSubImage` (`XImageOps.WidePart`; exactly when:
  `PartRoomIff`), which also reads outside the image for some corners outside it (exactly when: `XSubImage`);
* the overlay loops of `XGetImage` stop at the size of the screenshot instead of that size past their start
  (`GetImage.MiddleClipped`; exactly when: `CopiedWholeIff`);
* with big requests `XDrawPoints` compares no request with the limit (`DrawPoints.OverLimit`; exactly when
  one is over it: `XDrawPoints`).

## Model

| member | source | states |
|---|---|---|
| `Boxes.CanonicalUnique` | libx11-1.6.12.1/src/Region.c:48-71 | Two regions in canonical form (bands in order, spans separated, no two bands that could be merged) with the same points are the same list of boxes. |
| `Sweep.CoalesceRestores` | libx11-1.6.12.1/src/Region.c:570-691 | miCoalesce keeps the points of any boxes in bands; when no boxes touch and only the pair of bands at the place of the call may be mergeable, what it leaves is canonical, in the two-band case and in the case of a tail of several bands. |
| `Sweep.MergedPoints` | libx11-1.6.12.1/src/Region.c:649-690 | Merging a band into the one above it neither adds nor loses a point. |
| `Region.Region.Coalesce` | libx11-1.6.12.1/src/Region.c:570-691 | miCoalesce in place: the boxes afterwards are those of the specification. The start returned is that of the last band; where a tail of several bands has been merged at its front, it is the place of the last band before the boxes moved up, as in the source, whose caller does not use it then. |
| `Region.Region.MergeBand` | libx11-1.6.12.1/src/Region.c:649-690 | The in-place part: the bottoms of the earlier band go down, the later boxes move up, and nothing else changes. |
| `Region.Region.IntersectO` | libx11-1.6.12.1/src/Region.c:423-484 | One band of an intersection: the boxes appended cover exactly the columns that both bands cover. |
| `Region.Region.UnionO` | libx11-1.6.12.1/src/Region.c:1078-1141 | One band of a union: the boxes appended, merged where they touch, cover exactly the columns that either band covers. |
| `Region.Region.SubtractO` | libx11-1.6.12.1/src/Region.c:1278-1409 | One band of a difference: the boxes appended cover exactly the columns of the minuend that the subtrahend does not cover. |
| `Region.Region.CopyBand` | libx11-1.6.12.1/src/Region.c:1029-1057 | miUnionNonO: the spans of the band are appended as rows y1..y2. miSubtractNonO1 (1231-1260) is the same loop. |
| `BandOps.OverlapStep` | libx11-1.6.12.1/src/Region.c:423-484 | Advancing past the box that ends first loses only the overlap that was just taken. |
| `BandOps.FenceStep` | libx11-1.6.12.1/src/Region.c:1297-1328 | Moving the left fence over covered columns changes nothing of what is left to subtract. |
| `BandOps.EmitStep` | libx11-1.6.12.1/src/Region.c:1329-1383 | Emitting the columns up to the next subtrahend takes exactly those columns from what is left. |
| `SweepSteps.SkipRows` | libx11-1.6.12.1/src/Region.c:859-886 | The rows above both current bands hold no point of the result. |
| `SweepSteps.CoalescedBand` | libx11-1.6.12.1/src/Region.c:888-914 | Once a band has been appended and coalesced, the output is exact down to its bottom row, and canonical if the sources are. |
| `SweepSteps.TailDone` | libx11-1.6.12.1/src/Region.c:930-969 | Copying the rest of one region when the other is used up completes the combination; only the bands at the seam may still merge. |
| `Region.Region.RegionOp` | libx11-1.6.12.1/src/Region.c:721-1004 | miRegionOp: for any two regions in bands, boxes that touch or could be merged included, and either alias, the points of the boxes left are the union, intersection or difference of those before; they are in bands, and canonical if both sources were. |
| `RegionApi.SetExtents` | libx11-1.6.12.1/src/Region.c:206-252 | The extents are the smallest box around the points, and Box(0, 0, 0, 0) when no box is left. |
| `RegionApi.RegionCopy` | libx11-1.6.12.1/src/Region.c:512-545 | The destination gets boxes and extents of the source, also when they are the same object. |
| `RegionApi.XUnionRegion` | libx11-1.6.12.1/src/Region.c:1144-1208 | Exactly the union of the points the sources had, with exact extents, for every aliasing of the three regions and through every shortcut; canonical if the sources were. The extents of an empty region hold no point; two empty sources leave those of the second. |
| `RegionApi.XIntersectRegion` | libx11-1.6.12.1/src/Region.c:487-509 | Exactly the intersection, likewise; the extents of an empty intersection are Box(0, 0, 0, 0). |
| `RegionApi.XSubtractRegion` | libx11-1.6.12.1/src/Region.c:1427-1451 | Exactly the difference, likewise; the extents of an empty difference are Box(0, 0, 0, 0), or those of the minuend if that was empty already. |
| `RegionApi.XXorRegion` | libx11-1.6.12.1/src/Region.c:1454-1470 | Exactly the symmetric difference, likewise. |
| `RegionApi.XUnionRectWithRegion` | libx11-1.6.12.1/src/Region.c:171-188 | The union with a rectangle; an empty rectangle leaves the destination alone even when it is not the source. |
| `RegionApi.XOffsetRegion` | libx11-1.6.12.1/src/Region.c:300-324 | Exactly the points moved by (x, y), with exact extents; canonical if the region was. |
| `RegionApi.XEmptyRegion` | libx11-1.6.12.1/src/Region.c:1477-1482 | True if and only if the region has no point. |
| `RegionApi.XClipBox` | libx11-1.6.12.1/src/Region.c:158-168 | The rectangle given holds every point of the region and is as small as any box that does; around an empty region it has no width or no height. |
| `RegionApi.XEqualRegion` | libx11-1.6.12.1/src/Region.c:1488-1505 | Comparing the fields tells whether the boxes are the same; then the points are the same, and for two canonical regions also the other way round. On other regions it can deny it, as ScanConversion.EqualPolygons shows. |
| `RegionApi.XPointInRegion` | libx11-1.6.12.1/src/Region.c:1508-1524 | True if and only if the point is in the region. |
| `RegionRect.XRectInRegion` | libx11-1.6.12.1/src/Region.c:1527-1606 | For a rectangle that is not empty: RectangleOut iff none of its points is in the region, RectangleIn iff each of its rows is covered by one box, RectanglePart otherwise, despite the early exits. Where no boxes touch, RectangleIn iff all its points are in the region. |
| `RegionRect.SpannedIff` | libx11-1.6.12.1/src/Region.c:1527-1606 | A rectangle whose rows are each covered by one box is in the region; where no two boxes touch, the converse holds. |
| `RegionRect.TouchingBoxes` | libx11-1.6.12.1/src/Region.c:1577-1600 | Two boxes that touch, and a rectangle with all its points in them that XRectInRegion does not call in. |
| `RegionRect.NextBand` | libx11-1.6.12.1/src/Region.c:1577-1600 | When a box reaches the right side of the rectangle, its band is settled, and the verdict holds if the scan stops there. |
| `RegionShrink.Compress` | libx11-1.6.12.1/src/Region.c:353-373 | The result holds exactly the points from which a run of dx + 1 points lies in the region (or meets it, when growing); it is canonical if the region was. |
| `RegionShrink.HeadsJoin` | libx11-1.6.12.1/src/Region.c:362-370 | One shift and combination turns runs of length l and k into runs of length k + l: both uses in the doubling loop. |
| `RegionShrink.DoublingStep` | libx11-1.6.12.1/src/Region.c:361-372 | The quotient of dx by shift strictly decreases and shift keeps dividing what is left, so the doubling ends. |
| `RegionShrink.XShrinkRegion` | libx11-1.6.12.1/src/Region.c:380-402 | Shrinking by (dx, dy) for all four signs of the amounts: rows first, then columns, recentred; canonical if the region was. |
| `RegionShrink.ShrunkIsErosion` | libx11-1.6.12.1/src/Region.c:380-402 | For amounts of at least zero that is the erosion by the box [-dx, dx] x [-dy, dy]. |
| `RegionShrink.ShrunkIsDilation` | libx11-1.6.12.1/src/Region.c:380-402 | For amounts of at most zero it is the dilation by that box. |
| `Bresenham.StepsCross` | libx11-1.6.12.1/src/poly.h:83-124 | After k steps an edge stands at the first integer at or right of its exact crossing of scanline k, and the decision variable is the exact distance that the macros keep. |
| `Bresenham.EndsAtOtherEnd` | libx11-1.6.12.1/src/poly.h:83-124 | After as many steps as it is high, an edge is at its other end. |
| `EdgeOrder.InsertionSorts` | libx11-1.6.12.1/src/PolyReg.c:337-368 | Sorting by insertion from the right gives a sorted permutation, and stably: the edges of each key stay in order. |
| `EdgeOrder.MergeSorts` | libx11-1.6.12.1/src/PolyReg.c:249-275 | Merging edges in order of x into edges in order of x keeps the order. |
| `EdgeOrder.OddCrossings` | libx11-1.6.12.1/src/PolyReg.c:298-325 | After any number of edges the winding number is non-zero if and only if an odd number of winding edges has gone by. |
| `EdgeList.InsertionSort` | libx11-1.6.12.1/src/PolyReg.c:337-368 | On the doubly linked list: the list is relinked to the stable sorting of its edges, with forward and back links that agree, and "changed" is returned exactly if the order is another. |
| `EdgeList.LoadAET` | libx11-1.6.12.1/src/PolyReg.c:249-275 | The list is relinked to the merge of both lists, with forward and back links that agree. |
| `EdgeList.ComputeWAET` | libx11-1.6.12.1/src/PolyReg.c:298-325 | The winding links go through exactly the edges at which the winding number moves between zero and non-zero, and end in null. |
| `EdgeTable.InsertEdgeInET` | libx11-1.6.12.1/src/PolyReg.c:70-129 | The edge joins the bucket of its scanline before the first that starts no further left; scanlines stay in order; all other edges stay where they were. |
| `EdgeTable.CreateETandAET` | libx11-1.6.12.1/src/PolyReg.c:157-237 | The table holds one fresh edge for every side that is not horizontal, with the right direction and last scanline, each bucket in the order in which its sides enter it, and ymin and ymax are the limits of the points before the sides. |
| `PolygonLoop.EmitEvenOdd` | libx11-1.6.12.1/src/PolyReg.c:546-568 | The inner loop of the even-odd rule emits a point for every active edge, drops those that end, and steps the others. |
| `PolygonLoop.EmitWinding` | libx11-1.6.12.1/src/PolyReg.c:586-615 | The inner loop of the winding rule emits a point for every winding edge, drops and steps edges, and sets fixWAET exactly if an edge was dropped. |
| `PolygonRule.Balanced` | libx11-1.6.12.1/src/PolyReg.c:188-236 | On every scanline a closed polygon has as many sides going down as up. |
| `PolygonRule.DrawnLeft` | libx11-1.6.12.1/src/poly.h:83-124 | The x at which an edge is drawn is at most px if and only if the exact crossing is. |
| `PolygonScan.EvenOddSpans` | libx11-1.6.12.1/src/PolyReg.c:537-570 | A column lies in one of the spans between consecutive drawn edges, taken in pairs, if and only if the point is inside by the even-odd rule. |
| `PolygonScan.WindingSpans` | libx11-1.6.12.1/src/PolyReg.c:576-625 | The same of the winding edges and the winding number rule. |
| `PolygonState.LoadedOrder` | libx11-1.6.12.1/src/PolyReg.c:542-545 | Merging the bucket of a scanline into the running edges gives exactly the edges that meet the scanline, in order of x. |
| `PolygonState.NextRunning` | libx11-1.6.12.1/src/PolyReg.c:337-368 | The edges that continue, sorted, are exactly the running edges of the next scanline. |
| `PolygonRegion.EvenOddScanline` | libx11-1.6.12.1/src/PolyReg.c:537-569 | One whole scanline of the even-odd rule keeps the state of the scan and appends the points of exactly the edges that meet it. |
| `PolygonRegion.WindingScanline` | libx11-1.6.12.1/src/PolyReg.c:576-625 | One whole scanline of the winding rule, including that the winding links are right whenever they are not recomputed. |
| `PolygonSpans.PtsToRegion` | libx11-1.6.12.1/src/PolyReg.c:395-463 | The boxes cover exactly the spans of the point pairs, are in bands, and the extents bound them. They are canonical if and only if the points are tidy: no two non-empty spans of a scanline touch, and every scanline that repeats the spans of the one above makes its box taller. |
| `PolygonBands.GrowsIff` | libx11-1.6.12.1/src/PolyReg.c:427-437 | The test for making the last box taller succeeds exactly if this scanline and the one above consist of the same single span, the pair is not cut off by the end of a block of 200 points, and a pair on a later scanline follows. |
| `PolygonBands.CanonicalIfTidy` | libx11-1.6.12.1/src/PolyReg.c:421-452 | Once all pairs are entered, the boxes are canonical exactly if the points are tidy. |
| `SpanRows.CanonicalIff` | libx11-1.6.12.1/src/Region.c:48-71 | Row by row: boxes in bands are canonical exactly if no spans of a row touch and every row that repeats the one above is inside a box. |
| `PolygonRectangle.RectangleInside` | libx11-1.6.12.1/src/PolyReg.c:497-519 | By either rule a polygon accepted by the shortcut for rectangles contains exactly the points of its box. |
| `PolygonRectangle.RectangleIff` | libx11-1.6.12.1/src/PolyReg.c:499-508 | The shortcut is taken exactly for points that go once around a rectangle along the axes, in either direction and with or without the first corner again at the end. |
| `ScanConversion.XPolygonRegion` | libx11-1.6.12.1/src/PolyReg.c:473-636 | End to end: for any points with short coordinates and either rule, the region is valid and holds exactly the points that are inside the polygon, defined by counting sides left of a point. It is canonical, of at most one box, for fewer than two points and for rectangles, which take shortcuts, and otherwise if and only if the points of the scan, a function of the sides, are tidy. Its extents are those of the rectangle, or the smallest box around the points, or Box(0, 0, 0, 0) when there are none. |
| `ScanPoints.StepTaken` | libx11-1.6.12.1/src/PolyReg.c:537-625 | One scanline by either rule keeps active edges and points in step with the function that computes the points from the sides alone. |
| `PolygonOrder.MergeValues` | libx11-1.6.12.1/src/PolyReg.c:249-275 | Merging edges merges their sides: the order of a scanline depends on nothing but the sides. |
| `PolygonOrder.SortedValues` | libx11-1.6.12.1/src/PolyReg.c:337-368 | So does sorting. |
| `PolygonOrder.CrossingValues` | libx11-1.6.12.1/src/PolyReg.c:298-325 | So does the choice of the winding edges. |
| `ScanConversion.EvenOddScanUnique` | libx11-1.6.12.1/src/PolyReg.c:537-570 | By the even-odd rule the sides of the polygon determine the points of the scan, and so whether they are tidy. |
| `ScanConversion.LastRowApart` | libx11-1.6.12.1/src/PolyReg.c:432-437 | If the lowest scanline repeats the spans of the one above, the points are not tidy: it never joins the box above. |
| `ScanConversion.FiveCornersUntidy` | libx11-1.6.12.1/src/PolyReg.c:395-463 | Whatever the rule, a square with a fifth corner on one side has a scan that is not tidy. |
| `ScanConversion.EqualPolygons` | libx11-1.6.12.1/src/Region.c:1488-1505 | Two polygons with the same points, of which one has a canonical region and the other has not, and which XEqualRegion calls different. |
| `ImageLayout.PlaceInside` | libx11-1.6.12.1/src/ImUtil.c:245-260 | In every layout each bit of each pixel lies in the data implied by bytes_per_line, height and planes. |
| `ImageLayout.PlaceInjective` | libx11-1.6.12.1/src/ImUtil.c:245-260 | No two bits of pixels share a place. |
| `BitCopy.PutBits` | libx11-1.6.12.1/src/ImUtil.c:184-215 | _putbits copies exactly numbits bits to the given bit offset and changes no other bit. |
| `Image.PutThenGet` | libx11-1.6.12.1/src/ImUtil.c:470-529 | Where a write is as specified, reading the same pixel gives the value modulo 2 to the depth. |
| `Image.PutElsewhere` | libx11-1.6.12.1/src/ImUtil.c:648-719 | Every other pixel of the image is unchanged by it. |
| `XImageObject.XImage.GetPixelGeneric` | libx11-1.6.12.1/src/ImUtil.c:470-529 | _XGetPixel returns the pixel, in every format, depth, byte order and bit order; the bytes are not changed. |
| `XImageObject.XImage.PutPixelGeneric` | libx11-1.6.12.1/src/ImUtil.c:648-719 | _XPutPixel writes all the bits set aside for the pixel and no other bit, and rejects exactly the bad layouts. |
| `XImageObject.XImage.InitImageFuncPtrs` | libx11-1.6.12.1/src/ImUtil.c:271-298 | The routines installed take the layout without falling back to another, and the fast routine that takes it is installed whenever there is one. |
| `XImageObject.XImage.GetPixelOne` | libx11-1.6.12.1/src/ImUtil.c:608-630 | _XGetPixel1 reads what the generic routine reads, also after the layout has changed under it. |
| `XImageObject.XImage.GetPixelEight` | libx11-1.6.12.1/src/ImUtil.c:589-606 | _XGetPixel8, likewise. |
| `XImageObject.XImage.GetPixelSixteen` | libx11-1.6.12.1/src/ImUtil.c:565-587 | _XGetPixel16, likewise. |
| `XImageObject.XImage.GetPixelThirtyTwo` | libx11-1.6.12.1/src/ImUtil.c:533-563 | _XGetPixel32, likewise, on hosts of either byte order. |
| `XImageObject.XImage.PutPixelOne` | libx11-1.6.12.1/src/ImUtil.c:792-819 | _XPutPixel1 writes what the generic routine writes. |
| `XImageObject.XImage.PutPixelEight` | libx11-1.6.12.1/src/ImUtil.c:777-790 | _XPutPixel8, likewise. |
| `XImageObject.XImage.PutPixelSixteen` | libx11-1.6.12.1/src/ImUtil.c:752-775 | _XPutPixel16, likewise. |
| `XImageObject.XImage.PutPixelThirtyTwo` | libx11-1.6.12.1/src/ImUtil.c:721-750 | _XPutPixel32, likewise, on hosts of either byte order. |
| `XImageObject.XImage.GetPixel` | libx11-1.6.12.1/src/ImUtil.c:470-630 | Whatever routine is installed, the pixel is read. |
| `XImageObject.XImage.PutPixel` | libx11-1.6.12.1/src/ImUtil.c:648-819 | Whatever routine is installed, stale or not, all the bits set aside for the pixel are written and no other bit. |
| `CreateImage.XCreateImage` | libx11-1.6.12.1/src/ImUtil.c:308-386 | No image exactly for the arguments rejected or a length asked for that is below the one computed; otherwise the fields asked for, the length asked for or computed, and the fastest routines that take the layout. The computed length is the fewest padded bytes that hold the bits exactly if the sum that pads them is below 2 to the 32. For a supported format it is told exactly when there is room for every pixel. |
| `CreateImage.CreatedRoomIff` | libx11-1.6.12.1/src/ImUtil.c:353-380 | For a supported format, the bytes that the routines touch for every pixel lie in the data if and only if there is no pixel or the bytes that the arguments call for are no more than the length of a scanline; and a computed length is enough if and only if the sum that pads it is below 2 to the 32 and, for pixels in bitmap units, the last unit ends within it. |
| `CreateImage.RoomIff` | libx11-1.6.12.1/src/ImUtil.c:245-260 | The same for any layout: there is room for all of every pixel exactly if the last column fits into a scanline. |
| `CreateImage.OffsetOutside` | libx11-1.6.12.1/src/ImUtil.c:364-371 | A one-bit ZPixmap with an offset, which the size arithmetic does not count: its first pixel lies outside its data. |
| `CreateImage.UnitTooLarge` | libx11-1.6.12.1/src/ImUtil.c:359-371 | A bitmap with a unit larger than its padding: there is no room for the unit. |
| `CreateImage.PadBytesFewest` | libx11-1.6.12.1/src/ImUtil.c:245 | The exactly rounded length is the one multiple of the pad that holds the bits with less than a pad to spare. |
| `CreateImage.LineBytesFewest` | libx11-1.6.12.1/src/ImUtil.c:245 | The ROUNDUP macro, in unsigned ints, gives that length if and only if its sum is below 2 to the 32. |
| `CreateImage.WideImage` | libx11-1.6.12.1/src/ImUtil.c:364-371 | 2 to the 27 pixels of 32 bits: the length of the scanline is computed as zero, and there is no room. |
| `XImageOps.XSubImage` | libx11-1.6.12.1/src/ImUtil.c:831-893 | For any corner, negative or beyond the image included, and any size: exactly when the sizes do not fit into the ints they are kept in, and exactly when a pixel outside the image is read; otherwise the new image has the size asked for, no offset, the orders, units, pad, depth, format and bits per pixel of the old one, scanlines of the fewest padded bytes and data for exactly these, and shows the part of the old one, zero beyond it, and only zeros if the corner is negative. |
| `XImageOps.TurnsOfLoop` | libx11-1.6.12.1/src/ImUtil.c:886-887 | The copying loops take exactly the turns for which the int counter, compared as an unsigned int, is below the end. |
| `XImageOps.PartRoomIff` | libx11-1.6.12.1/src/ImUtil.c:853-871 | A part that has pixels has room for them in the data asked for if and only if its sizes fit into these ints. |
| `XImageOps.WidePart` | libx11-1.6.12.1/src/ImUtil.c:853-871 | A part of 2 to the 27 columns of 32 bits, for which no data are asked for. |
| `XImageOps.XAddPixel` | libx11-1.6.12.1/src/ImUtil.c:963-1016 | _XAddPixel leaves the bytes of the specified outcome; whenever the layout and value are exact, every pixel has grown by value modulo 2 to the depth, and an image of one bit a pixel in no other case. |
| `AddPixel.OneBitAdded` | libx11-1.6.12.1/src/ImUtil.c:976-983 | Complementing a one-bit image adds the value if and only if the value is odd or there is no pixel. |
| `AddPixel.ExactlyAdded` | libx11-1.6.12.1/src/ImUtil.c:963-1016 | In the exact cases the outcome of the loops over bytes, shorts and words is the same as getting, adding and putting every pixel; for an image of one bit a pixel it is so in no other case. |
| `AddPixel.AlignedIff` | libx11-1.6.12.1/src/ImUtil.c:984-1003 | For images of several bits a pixel the loops over machine units add correctly to all data if and only if they are not used or the scanlines start at machine units. |
| `AddPixel.SecondPixelMissed` | libx11-1.6.12.1/src/ImUtil.c:991-998 | Two scanlines of one pixel of 16 bits, three bytes apart: adding one adds nothing to the second pixel. |
| `BitmapSwap.OrderingTableIsMeaning` | libx11-1.6.12.1/src/PutImage.c:460-490 | The ordering table in the comment is what the byte and bit orders mean: for all twelve orders and all 32 bits, and for both ends of every byte. |
| `BitmapSwap.SwapFunctionIsRight` | libx11-1.6.12.1/src/PutImage.c:508-548 | For every two of the twelve orders the table has the routine that undoes the one and does the other, with the half order that fits. |
| `BitmapSwap.ScanSpotTwist` | libx11-1.6.12.1/src/PutImage.c:460-490 | An order exchanges bytes in pairs, fours or not at all, and reverses their bits or not. |
| `BitmapSwap.SwapScanline` | libx11-1.6.12.1/src/PutImage.c:139-456 | One scanline through any of the eight routines: each byte is the one due, also in the part of a unit at the end of the last scanline, and no other byte is written. |
| `BitmapConvert.Convert` | libx11-1.6.12.1/src/PutImage.c:548-600 | Any number of scanlines: every scanline on which the routine is complete has each of its bits where the destination order wants it, and so have all but the last when NoSwap copies them together; where scanlines are not written into one another, every byte of every scanline is told. |
| `BitmapConvert.ConvertedIff` | libx11-1.6.12.1/src/PutImage.c:139-456 | One scanline through a routine is converted whatever its bits are if and only if it is made of whole units where orders exchange the same bytes, and does not end in an odd number of bytes, as the last one, from units of 16 to units of 32. |
| `BitmapConvert.FlipsFewest` | libx11-1.6.12.1/src/PutImage.c:139-456 | What is asked of the distance of two scanlines of the destination is just that every byte of one, where it belongs, comes before the next. |
| `BitmapConvert.ConvertedAtIff` | libx11-1.6.12.1/src/PutImage.c:139-600 | In a call for several scanlines, one of them is converted whatever its bits are if and only if it is so by itself or NoSwap copies it together with those after it, which are equally far apart in source and destination. |
| `BitmapConvert.OnesLost` | libx11-1.6.12.1/src/PutImage.c:139-600 | On every other scanline of any call, ones over zeros lose a bit. |
| `BitmapConvert.FirstOfTwoCopied` | libx11-1.6.12.1/src/PutImage.c:148-149 | Two scanlines of one byte in units of 16 bits, four bytes apart: the first is converted, the last is not. |
| `BitmapConvert.OddByteLost` | libx11-1.6.12.1/src/PutImage.c:264-287 | A scanline of one byte for which SwapWords loses the bits. |
| `BitmapConvert.OddByteNotCopied` | libx11-1.6.12.1/src/PutImage.c:139-158 | A scanline of one byte in units of 16 bits, copied between equal orders, whose bits are in the byte that is not copied. |
| `BitmapConvert.ThereAndBack` | libx11-1.6.12.1/src/PutImage.c:508-548 | Converting from a to b and then from b to a gives every scanline bit again. |
| `BitmapConvert.SameBytes` | libx11-1.6.12.1/src/PutImage.c:508-548 | In whole units of 32 bits it gives the bytes again. |
| `BitmapConvert.ConvertBothWays` | libx11-1.6.12.1/src/PutImage.c:508-600 | Two calls through the table, there and back, on any number of scanlines of whole 32-bit units, give the bytes again. |
| `PutImageSplit.TerminatesIff` | libx11-1.6.12.1/src/PutImage.c:866-929 | PutSubImage terminates if and only if the image is empty, one scanline fits, it is made of bits in one plane, or its size modulo 2 to the 32 seems to fit. |
| `PutImageSplit.LeftPadIs` | libx11-1.6.12.1/src/PutImage.c:888-889 | left_pad is the one number of bits below a bitmap unit that leaves the first pixel, counted with the x offset, at a unit. |
| `PutImageSplit.RowTakesIs` | libx11-1.6.12.1/src/PutImage.c:888-897 | BytesPerRow is the size of the data of a row: for bits, the fewest whole pads that hold the left pad and the pixels, for every plane; for pixels, the fewest that hold all their bits; and nothing else is. |
| `PutImageSplit.HeightCut` | libx11-1.6.12.1/src/PutImage.c:903-916 | The height cut leaves two smaller parts, fits where a scanline does, and one scanline more would not. |
| `PutImageSplit.WidthCut` | libx11-1.6.12.1/src/PutImage.c:917-927 | The width cut of a row of one plane of bits is smaller than the row and fits, and one bit more would not. |
| `PutImageSplit.NeverEnds` | libx11-1.6.12.1/src/PutImage.c:911-926 | On all other images no depth of recursion is enough: the width cut counts bits of one plane. |
| `PutImageSplit.TwoPlanesNeverEnd` | libx11-1.6.12.1/src/PutImage.c:911-926 | A concrete scanline of two planes on which it does not terminate. |
| `PutImageSplit.SplitIsTiling` | libx11-1.6.12.1/src/PutImage.c:866-929 | Whatever is sent tiles the rectangle: the requests are disjoint, cover it exactly, keep source and destination in step, and the size computed for each, modulo 2 to the 32, is within the room. |
| `PutImageSplit.PiecesTile` | libx11-1.6.12.1/src/PutImage.c:866-929 | So it is for every image on which it terminates. |
| `PutImageSplit.FitIff` | libx11-1.6.12.1/src/PutImage.c:890-900 | Where a scanline fits, the data of every request sent, measured as above, fit if and only if the image is empty in width or its size is below 2 to the 32. |
| `PutImageSplit.RowsAreInts` | libx11-1.6.12.1/src/PutImage.c:888-897 | The scanlines of images of up to 2 to the 28 columns have lengths that an int can tell, as FitIff asks. |
| `PutImageSplit.SmallFits` | libx11-1.6.12.1/src/PutImage.c:866-929 | Below that size all requests really fit, also those of scanlines cut in width. |
| `PutImageSplit.SentWhole` | libx11-1.6.12.1/src/PutImage.c:890-897 | An image of 32768 by 32768 pixels of 32 bits, which is sent in one request, because its size is zero modulo 2 to the 32. |
| `PutImageSplit.Connection.PutSubImage` | libx11-1.6.12.1/src/PutImage.c:866-929 | The recursive routine sends exactly those requests, in that order: they tile the rectangle, go where the whole would put it, and the data of each fit into a request whenever those of the whole are below 2 to the 32 bytes. |
| `GetImage.Screen.XGetImage` | libx11-1.6.12.1/src/GetImage.c:138-222 | With a lock in force every bit set aside for every pixel shows the mask, made from the cached or newly loaded lock image, and every pixel reads as the colour whose bytes from the top are the red, green and blue byte of the lock pixel that belongs there, or of the first outside the overlay, or as black without a lock image; without a lock in force nothing changes. |
| `GetImage.NothingCaptured` | libx11-1.6.12.1/src/GetImage.c:186-220 | Two captures of the same size and layout have the same bits in every pixel once masked, the bits above the depth included. |
| `GetImage.MaskRead` | libx11-1.6.12.1/src/GetImage.c:186-220 | Reading a pixel of a masked image gives the mask, modulo 2 to the depth. |
| `GetImage.MaskColour` | libx11-1.6.12.1/src/GetImage.c:178-216 | The mask at a pixel has, from the top, the three bytes of the lock pixel overlaid there, elsewhere the first three bytes of the lock image, and is 0 without one. |
| `GetImage.Centred` | libx11-1.6.12.1/src/GetImage.c:191-208 | A lock image no larger than the screenshot appears whole, with opposite margins that differ by at most one. |
| `GetImage.CutEvenly` | libx11-1.6.12.1/src/GetImage.c:194-201 | Of a larger lock image as much is left out before as after the part shown, or one less. |
| `GetImage.Frame` | libx11-1.6.12.1/src/GetImage.c:191-220 | Then exactly the pixels of its frame are overlaid, and all others have the background colour. |
| `GetImage.CopiedWholeIff` | libx11-1.6.12.1/src/GetImage.c:209-210 | All that belongs in the screenshot is copied if and only if the lock image is at most one pixel larger each way. |
| `GetImage.MiddleClipped` | libx11-1.6.12.1/src/GetImage.c:209-210 | A lock image of four by one pixels over a screenshot of two by one: the second of its two middle pixels is not copied. |
| `Quarks.WalkHits` | libx11-1.6.12.1/src/Quarks.c:97-99 | An odd step visits every slot of a table of a power-of-two size. |
| `Quarks.ProbeEnds` | libx11-1.6.12.1/src/Quarks.c:250-288 | The probe sequence of any signature reaches an empty slot of a table with more slots than entries. |
| `Quarks.StoreKeepsSearchable` | libx11-1.6.12.1/src/Quarks.c:332-338 | Storing a quark in the first empty slot of its way keeps every stored quark reachable through full slots only. |
| `Quarks.QuarkTable.ExpandQuarkTable` | libx11-1.6.12.1/src/Quarks.c:175-236 | Doubling the table files every entry again so that each is reachable, and changes no name. |
| `Quarks.QuarkTable.Lookup` | libx11-1.6.12.1/src/Quarks.c:250-288 | The probe loop ends with the quark of the name or with the slot where it belongs, and then the name is not stored. |
| `Quarks.QuarkTable.InternalStringToQuark` | libx11-1.6.12.1/src/Quarks.c:239-344 | A known name gives its quark. A new one is appended and gives the next quark, unless the next unique quark has met it, or the load test fails and the doubled table is more than the allocator supplies; exactly then it gives NULLQUARK and nothing is stored. The table doubles exactly when the load test fails and it can. |
| `Quarks.QuarkTable.StringToQuark` | libx11-1.6.12.1/src/Quarks.c:347-360 | One interning step of the visible state, with the size of the table in it: NULLQUARK exactly for a null string and for a new name when the quarks have met or the table is too full and cannot grow; every other new name is appended and gets the next quark. |
| `Quarks.QuarkTable.UniqueQuark` | libx11-1.6.12.1/src/Quarks.c:378-389 | One step that hands out a unique quark, or NULLQUARK when they meet the interned ones, with the wrap-around of a signed int. |
| `Quarks.QuarkTable.QuarkToString` | libx11-1.6.12.1/src/Quarks.c:391-409 | The name of an interned quark, null for any other. |
| `Quarks.QuarksIdentifyNames` | libx11-1.6.12.1/src/Quarks.c:239-360 | Over any run, two calls that name a stored string or have room give quarks, and these are the same if and only if the names are equal. |
| `Quarks.InternedIff` | libx11-1.6.12.1/src/Quarks.c:332-360 | Over any run, interning gives a quark if and only if the string is not null and is stored already or there is room: the quarks have not met, and the load test passes or the doubled table can be had. |
| `Quarks.RunExtends` | libx11-1.6.12.1/src/Quarks.c:239-389 | A run goes on with any step from where it ended. |
| `Quarks.InternedForEver` | libx11-1.6.12.1/src/Quarks.c:239-288 | A name interned once gets the same quark at any later time, whether or not there still is room. |
| `Quarks.QuarkOfName` | libx11-1.6.12.1/src/Quarks.c:347-409 | At any later time the string of a quark is the name it was interned for. |
| `Quarks.QuarksAreStable` | libx11-1.6.12.1/src/Quarks.c:391-409 | A quark never changes its meaning. |
| `Quarks.UniqueQuarksAreFresh` | libx11-1.6.12.1/src/Quarks.c:378-389 | Unique quarks are never handed out twice, never equal an interned quark and never denote a name. |
| `Context.ContextTable.SaveContext` | libx11-1.6.12.1/src/Context.c:159-227 | The bindings change as a map does, for every success and failure of the three allocations. |
| `Context.ContextTable.FindContext` | libx11-1.6.12.1/src/Context.c:236-262 | The bound data, or XCNOENT exactly if nothing is bound. |
| `Context.ContextTable.DeleteContext` | libx11-1.6.12.1/src/Context.c:271-302 | The binding is removed, or XCNOENT exactly if there was none. |
| `Context.ContextTable.ResizeTable` | libx11-1.6.12.1/src/Context.c:105-130 | Every entry moves to the bucket of its key in the new table; a failed resize leaves all as it was. |
| `Context.HistoryBalanced` | libx11-1.6.12.1/src/Context.c:204-227 | With tables granted, the number of entries is at most four times the mask at all times. |
| `Context.ResizesAreRare` | libx11-1.6.12.1/src/Context.c:105-130 | Each resize doubles or halves the table, and after one to i buckets at least i - 1 insertions or removals happen before the next. |
| `Context.HistoryGrows` | libx11-1.6.12.1/src/Context.c:216-300 | A new table starts such a history, and every call that adds or removes an entry goes on with it. |
| `GraphicsContext.DecodeEncode` | libx11-1.6.12.1/src/CrGC.c:110-161 | Decoding the value list by ascending mask bit sets exactly the dirty components, to their cached values. |
| `GraphicsContext.GC.UpdateCache` | libx11-1.6.12.1/src/CrGC.c:164-311 | The values and dirty bits afterwards, component by component, with the exceptions for tile, stipple, clip mask and dashes. |
| `GraphicsContext.GC.Flush` | libx11-1.6.12.1/src/CrGC.c:315-332 | Nothing is dirty afterwards, the cache stays coherent, and the server has exactly the dirty components changed, of this context only. |
| `GraphicsContext.XCreateGC` | libx11-1.6.12.1/src/CrGC.c:64-98 | The shadow of every component is the value asked for if its bit is in the value mask and the initial one otherwise, whatever other bits the mask has; the server has the values asked for that differ, or that are a tile, stipple or clip mask, and its defaults otherwise; nothing is dirty. Clients and server are those that the call of the modelled system leads to. |
| `GraphicsContext.XChangeGC` | libx11-1.6.12.1/src/ChGC.c:34-51 | The shadows of exactly the components asked for take the values given. A component waits if it did already, or is asked for and either differs, or is a tile, stipple or clip mask, or a dash list whose shadow is out of date; what waits is dirty, or all of it is on the server if a font, tile or stipple is among it. |
| `GraphicsContext.XCopyGC` | libx11-1.6.12.1/src/CopyGC.c:33-131 | Every component asked for has the value of the source in the destination and on the server and is not dirty there, every other is as before; all that is dirty in the source is sent first if a component asked for is. Also when source and destination are the same. |
| `GraphicsContext.SetClipRectanglesOf` | libx11-1.6.12.1/src/SetCRects.c:33-62 | The clip origin is the one given in the shadow and on the server and is not dirty, the clip mask is marked unknown and is the list given on the server, and every other component is as before. |
| `GraphicsContext.XSetDashes` | libx11-1.6.12.1/src/SetDashes.c:33-50 | Likewise for the dash offset and the dash list. |
| `GraphicsContext.XFlushGC` | libx11-1.6.12.1/src/CrGC.c:315-340 | Likewise for a flush, after which nothing is dirty and no shadow has changed. |
| `GraphicsContext.CalledCoherent` | libx11-1.6.12.1/src/CrGC.c:110-332 | Each of the six calls of the modelled system, which the six methods are proved to follow, keeps every cache coherent. |
| `GraphicsContext.RunCoherent` | libx11-1.6.12.1/src/CrGC.c:33-57 | Over any run, each component that is neither dirty nor marked unknown is what the server has, and after a flush each that is not marked unknown. |
| `GraphicsContext.RunsGrow` | libx11-1.6.12.1/src/CrGC.c:64-340 | A run starts without contexts and goes on with any call on the contexts there are. |
| `PolyText.CountItem` | libx11-1.6.12.1/src/PolyTxt.c:55-79 | The first pass counts the bytes of an item, in closed form. |
| `PolyText.ItemLengthIs` | libx11-1.6.12.1/src/PolyTxt.c:55-79 | That is the number of bytes of the elements of the item. |
| `PolyText.ItemDraws` | libx11-1.6.12.1/src/PolyTxt.c:92-206 | The elements of an item draw it: every character once, in order, in the font of the item or else of the pen, its total delta further on, and nothing drawn before changes. |
| `PolyText.DecodeAll` | libx11-1.6.12.1/src/PolyTxt.c:92-206 | A stream of elements is read back as it was written; no chunk is taken for a font shift. |
| `PolyText.DecodePadding` | libx11-1.6.12.1/src/PolyTxt.c:208-216 | The padding is read as nothing, or as one empty element. |
| `TextOutput.Display.EmitItem` | libx11-1.6.12.1/src/PolyTxt.c:92-206 | The second pass on a real output buffer: what it adds to what the server gets, and where the buffer ends. If a flush falls between the last header of the delta and the characters behind it, the header goes out with length zero and zeros follow. |
| `TextOutput.Display.BufAlloc` | libx11-1.6.12.1/include/X11/Xlibint.h:664-669 | Room for n zero bytes at the end of what the server gets, after a flush if they do not fit. |
| `TextOutput.Display.XDrawText` | libx11-1.6.12.1/src/PolyTxt.c:33-221 | The length declared is that of the items in words, modulo 2 to the 16. All that the server gets is what was meant if and only if no item is torn by a flush in this way; and what it takes for the body of the request is, if and only if also the length field can tell the length. |
| `TextOutput.WholeIff` | libx11-1.6.12.1/src/PolyTxt.c:92-206 | For any items, buffer size and place in it: the bytes are those meant if and only if no item is torn. |
| `TextOutput.FittingDraws` | libx11-1.6.12.1/src/PolyTxt.c:81-90 | Whenever the items fit into the buffer none is torn, and what the server takes for the body draws them, unless the buffer holds more than the length field can tell. |
| `TextOutput.WholeDraws` | libx11-1.6.12.1/src/PolyTxt.c:92-216 | If no item is torn and the length field can tell the length, what the server takes for the body, padding included, draws the items. |
| `TextOutput.ReadIff` | libx11-1.6.12.1/src/PolyTxt.c:80-216 | The server reads the elements that were meant if and only if no item is torn and the length field can tell the length. |
| `PolyText.DecodedBytes` | libx11-1.6.12.1/src/PolyTxt.c:92-206 | Whatever a body holds, the elements read from it are written in the same bytes, up to where reading ends. |
| `TextOutput.TooLongText` | libx11-1.6.12.1/src/PolyTxt.c:80 | 270000 characters: no item is torn, but of 68032 words the request declares 2496, and the server does not read what was meant. |
| `TextOutput.DrawnAlthoughCut` | libx11-1.6.12.1/src/PolyTxt.c:80 | 60000 shifts to one font: the server reads 7571 of them for the body, and what is drawn is nevertheless the same. |
| `TextOutput.LongTextLost` | libx11-1.6.12.1/src/PolyTxt.c:163-206 | 16254 characters and one more with a delta of one, in a buffer of 16384 bytes: the last character is not drawn. |
| `DrawPoints.XDrawPoints` | libx11-1.6.12.1/src/DrPoints.c:33-85 | In both coordinate modes the positions drawn are those of one unsplit request, modulo 16 bits; no request is empty; coordinates sent are shorts if those given are; the loop ends. All requests are within the limit if and only if there are no big requests, no points, or the whole list, with its header and the extra word of a list too long for the length field, is within the limit of big requests. |
| `DrawPoints.OverLimit` | libx11-1.6.12.1/src/DrPoints.c:55-58 | 70000 points where big requests may have 65536 words are sent in one request, over the limit. |
| `DrawPoints.ChunkPosition` | libx11-1.6.12.1/src/DrPoints.c:52-76 | A request that starts with the sum of all earlier points draws where the whole list would. |
| `DrawPoints.ShortIs` | libx11-1.6.12.1/src/DrPoints.c:66-68 | What is stored in a short fits into it and differs from the sum by whole turns of 16 bits only; a sum that fits is not changed. |

## Left out

Of the modelled files:

- Regions and polygons use unbounded coordinates, where the source has 16 bits. XPolygonRegion takes points of 16 bits, as XPoint has; the other operations are exact as long as no coordinate overflows.
- Growing, shrinking and failing to allocate the arrays of boxes and blocks of points: they are sequences that grow. The block boundary that keeps `PtsToRegion` from making a box taller is modelled.
- Function pointers are enumerations (`Op`, `Routine`, `Swap`), and macros with different function pointers are one method with a parameter.
- `RegionRect.XRectInRegion`: says nothing of empty rectangles, of which all and none of the points are in every region.
- The list of scanlines of the edge table is a sequence whose entries hold the linked edges, instead of a linked list in blocks.
- `Quarks.QuarkTable.ExpandQuarkTable`: the only allocation that fails is that of the table, when it would exceed a fixed number of slots; those of names and of the string table succeed. Locks and permanent strings are not modelled.
- `Context.ContextTable.Find`: bucket chains are sequences, so unlinking an entry is not shown pointer by pointer. Locks are not modelled.
- `GraphicsContext.XChangeGC`: extension hooks are not modelled, and the server accepts values of components as they are sent; requests that the server would reject for their values are not modelled.
- `TextOutput.Display.XDrawText`: a negative nchars is not modelled (the source treats it like zero in the first pass), nor are the glyphs' widths and the fixed part of the request, which is in the buffer before. What is written behind the end of the buffer is not part of this model; the claim is about the bytes that the server gets. The length of all items is an exact number, where the source adds it up in an int: it is right below 2 to the 31. Of the length field of the request its 16 bits are modelled.
- `TextOutput.Display.Flush`: the bytes sent are appended to a sequence; the connection and its errors are not modelled.
- `DrawPoints.XDrawPoints`: a request consists of its points, without drawable and context. With a limit that leaves no room for a point the loop of the source never ends; this is excluded by a precondition.
- `PutImageSplit.Connection.PutSubImage`: has as precondition that the image is one on which the source terminates, which `TerminatesIff` shows to be exact.
- `PutImageSplit.TerminatesIff`: the bytes of a scanline are taken as an exact number and have to be below 2 to the 32, and in `FitIff` below 2 to the 31; the source keeps them in an int. Only their product with the height wraps around.
- Of `PutImage.c`, the prologue of XPutImage, SendXYImage and SendZImage around the conversions, and the conversions of Z format pixels (SwapThreeBytes, SwapNibbles, ShiftNibblesLeft): they repeat the argument of the routines that are modelled.
- The table `_reverse_byte` is given by its law, bit i of the entry is bit 7 - i of the byte, instead of its 256 numbers.
- An unsigned long is taken to be 64 bits wide. Masks of low bits are modelled as remainders by powers of two.
- `_XSetImage`, which with negative offsets does not place the source where one would expect, and XInitImage, a set of field checks.
- `XImageOps.XSubImage`: what a call does to the memory once a size does not fit or a pixel outside the image is read is not part of this model. The width and height of an image are those an int can hold. That one of the two allocations fails is one parameter.
- `CreateImage.XCreateImage`: the allocation of the image succeeds. The source rejects other formats than the three.
- `ImageLayout.PlaceInside`: places in the data, and the offsets by which the pixel routines reach them, are exact numbers, where ZINDEX and XYINDEX are computed in ints: they are right for images of fewer than 2 to the 31 bits in a scanline and bytes in all.
- `XImageOps.XAddPixel`: the same holds of the product of bytes_per_line and height.
- `BitmapConvert.Convert`: lengths are exact numbers, where NoSwap casts them to int: they are right below 2 to the 31.
- `GraphicsContext.SetClipRectanglesOf`: the length of the request, 16 bits without the extension for big requests, is not modelled; a list of rectangles that does not fit is cut to one word by the source.
- `GraphicsContext.XSetDashes`: nor is the number of dashes, which has 16 bits in the request.
- `GetImage.NothingCaptured`: is about the bits set aside for pixels; the padding of scanlines keeps what was captured, as in the source.
- `AddPixel.ExactlyAdded`: for one value on scanlines that are not aligned it is sufficient only; over all values `AlignedIff` is exact.
- `GetImage.Screen.XGetImage`: the lock state, its id and the loaded lock image are inputs; the captured image has the width and height asked for; reading it off the wire, freeing the old lock image, and the shared memory behind the lock are not modelled. A lock image has three bytes a pixel and at least one pixel.

Of the repository:

- Requests that only copy fields to the wire, sockets, replies and events, the screenshot and lock programs, and their files: input and output.
- Keysym tables, locales, colour parsing, fonts and hints: tables and calls into code that is not part of this model.
- PolyTxt16.c and the other users of the same patterns, which repeat the arguments above.
