/** XDrawText: splitting text items into the elements of a PolyText8 request (libX11 PolyTxt.c). */
module PolyText {

  type Byte = b: int | 0 <= b < 256

  /** An item to draw: characters after a horizontal delta, in a new font unless font is 0. */
  datatype TextItem = TextItem(chars: seq<Byte>, delta: int, font: nat)

  const FONT_CHANGE := 255

  // ---------- the request body ----------

  /** An element of a request body: a font shift, or a delta followed by up to 254 characters. */
  datatype Element = FontShift(font: nat) | Elt(delta: int, chars: seq<Byte>)

  predicate Encodable(e: Element) {
    match e
    case FontShift(font) => font < 0x1_0000_0000
    case Elt(delta, chars) => -128 <= delta <= 127 && |chars| <= 254
  }

  /** A delta byte holds a signed 8-bit number. */
  function DeltaByte(d: int): Byte { d % 256 }

  function SignedByte(b: Byte): int { if b < 128 then b else b - 256 }

  /** The bytes of one element: 255 and a font id, big end first, or length, delta, characters. */
  function Bytes(e: Element): seq<Byte>
    requires Encodable(e)
  {
    match e
    case FontShift(f) => [FONT_CHANGE, f / 0x100_0000, f / 0x1_0000 % 256, f / 0x100 % 256, f % 256]
    case Elt(delta, chars) => [|chars|, DeltaByte(delta)] + chars
  }

  ghost predicate AllEncodable(es: seq<Element>) { forall k :: 0 <= k < |es| ==> Encodable(es[k]) }

  function AllBytes(es: seq<Element>): seq<Byte>
    requires AllEncodable(es)
  {
    if es == [] then [] else AllBytes(es[..|es| - 1]) + Bytes(es[|es| - 1])
  }

  /** The element at the front of a body and the bytes it takes, if there is a whole one. */
  datatype Front = NoElement | Front(e: Element, size: nat)

  function BigEndian(a: int, b: int, c: int, d: int): int { ((a * 256 + b) * 256 + c) * 256 + d }

  function ReadFront(bytes: seq<Byte>): (r: Front)
    ensures r.Front? ==> 0 < r.size <= |bytes|
  {
    if |bytes| < 2 then NoElement
    else if bytes[0] == FONT_CHANGE then
      if |bytes| < 5 then NoElement
      else
        var f := BigEndian(bytes[1], bytes[2], bytes[3], bytes[4]);
        Front(FontShift(f), 5)
    else
      var n: int := bytes[0];
      if |bytes| < 2 + n then NoElement else Front(Elt(SignedByte(bytes[1]), bytes[2..2 + n]), 2 + n)
  }

  /** How a server reads a request body. An element needs at least two bytes; fewer are padding.
      (PolyText8, section 9 of the X Window System Protocol.) */
  function Decode(bytes: seq<Byte>): seq<Element> {
    match ReadFront(bytes)
    case NoElement => []
    case Front(e, size) => [e] + Decode(bytes[size..])
  }

  lemma BigEndianOf(f: nat)
    requires f < 0x1_0000_0000
    ensures BigEndian(f / 0x100_0000, f / 0x1_0000 % 256, f / 0x100 % 256, f % 256) == f
  {
    var a, b, c := f / 0x100, f / 0x1_0000, f / 0x100_0000;
    assert f == a * 256 + f % 256;
    assert a / 256 == b && a == b * 256 + a % 256;
    assert b / 256 == c && b == c * 256 + b % 256;
  }

  lemma ReadFrontOfElement(e: Element, rest: seq<Byte>)
    requires Encodable(e)
    ensures ReadFront(Bytes(e) + rest) == Front(e, |Bytes(e)|)
  {
    var b := Bytes(e) + rest;
    match e
    case FontShift(f) =>
      BigEndianOf(f);
      assert b[0] == 255 && b[1] == f / 0x100_0000 && b[2] == f / 0x1_0000 % 256;
    case Elt(delta, chars) =>
      assert b[2..2 + |chars|] == chars;
      assert SignedByte(DeltaByte(delta)) == delta;
  }

  lemma DecodeOne(e: Element, rest: seq<Byte>)
    requires Encodable(e)
    ensures ReadsAs(Bytes(e) + rest, [e], rest)
  {
    ReadFrontOfElement(e, rest);
    assert (Bytes(e) + rest)[|Bytes(e)|..] == rest;
  }

  /** The body bytes read as es, with rest left over. */
  ghost predicate ReadsAs(bytes: seq<Byte>, es: seq<Element>, rest: seq<Byte>) {
    Decode(bytes) == es + Decode(rest)
  }

  /** A body ending in one element: the element is read after the elements before it. */
  lemma ReadsJoin(before: seq<Byte>, mid: seq<Byte>, rest: seq<Byte>, init: seq<Element>, last: Element)
    requires ReadsAs(before + (mid + rest), init, mid + rest) && ReadsAs(mid + rest, [last], rest)
    ensures ReadsAs(before + mid + rest, init + [last], rest)
  {
    assert before + mid + rest == before + (mid + rest);
    assert init + ([last] + Decode(rest)) == (init + [last]) + Decode(rest);
  }

  /** Reading back what was written. */
  lemma {:induction false} DecodeAll(es: seq<Element>, rest: seq<Byte>)
    requires AllEncodable(es)
    ensures ReadsAs(AllBytes(es) + rest, es, rest)
    decreases |es|
  {
    if es == [] {
      ReadsNothing(rest);
    } else {
      var init, last := es[..|es| - 1], es[|es| - 1];
      DecodeAll(init, Bytes(last) + rest);
      DecodeOne(last, rest);
      ReadsJoin(AllBytes(init), Bytes(last), rest, init, last);
      assert es == init + [last];
    }
  }

  /** The bytes of the element at the front. */
  lemma ReadFrontBytes(bytes: seq<Byte>)
    requires ReadFront(bytes).Front?
    ensures var r := ReadFront(bytes);
      Encodable(r.e) && Bytes(r.e) == bytes[..r.size]
  {
    var r := ReadFront(bytes);
    match r.e
    case FontShift(f) =>
      BigEndianBytes(bytes[1], bytes[2], bytes[3], bytes[4]);
    case Elt(delta, chars) =>
      assert DeltaByte(SignedByte(bytes[1])) == bytes[1];
  }

  lemma BigEndianBytes(a: Byte, b: Byte, c: Byte, d: Byte)
    ensures var f := BigEndian(a, b, c, d);
      0 <= f < 0x1_0000_0000 && f / 0x100_0000 == a && f / 0x1_0000 % 256 == b && f / 0x100 % 256 == c && f % 256 == d
  {
    var f := BigEndian(a, b, c, d);
    assert f / 0x100 == (a * 256 + b) * 256 + c;
    assert f / 0x1_0000 == a * 256 + b;
    assert f / 0x100_0000 == a;
  }

  /** Whatever a body holds, the elements that are read from it are written in the same bytes, up to where reading ends. */
  lemma {:induction false} DecodedBytes(bytes: seq<Byte>)
    ensures AllEncodable(Decode(bytes)) && AllBytes(Decode(bytes)) <= bytes
    decreases |bytes|
  {
    match ReadFront(bytes)
    case NoElement =>
    case Front(e, size) =>
      ReadFrontBytes(bytes);
      DecodedBytes(bytes[size..]);
      DecodedStep(bytes[..size], bytes[size..], e, Decode(bytes[size..]));
      assert bytes == bytes[..size] + bytes[size..];
  }

  lemma DecodedStep(front: seq<Byte>, rest: seq<Byte>, e: Element, es: seq<Element>)
    requires Encodable(e) && Bytes(e) == front && AllEncodable(es) && AllBytes(es) <= rest
    ensures AllEncodable([e] + es) && AllBytes([e] + es) <= front + rest
  {
    OneElement(Pen(0, 0, []), e);
    BytesJoin([e], es);
    PrefixJoin(front, AllBytes(es), rest);
  }

  lemma PrefixJoin(a: seq<Byte>, b: seq<Byte>, c: seq<Byte>)
    requires b <= c
    ensures a + b <= a + c
  {
  }

  lemma ReadsNothing(rest: seq<Byte>)
    ensures ReadsAs([] + rest, [], rest)
  {
    assert [] + rest == rest;
  }

  /** The padding of a body reads as nothing, or as one empty element. */
  lemma DecodePadding(n: nat)
    requires n < 4
    ensures Decode(Zeros(n)) == if n < 2 then [] else [Elt(0, [])]
  {
    var pad := Zeros(n);
    if n >= 2 {
      assert pad[2..2] == [];
      assert |pad[2..]| < 2;
    }
  }

  // ---------- what a body draws ----------

  /** A character drawn in a font, after deltas that sum to shift. */
  datatype Glyph = Glyph(font: nat, shift: int, code: Byte)

  datatype Pen = Pen(font: nat, shift: int, glyphs: seq<Glyph>)

  /** The pen moved by a delta. */
  function Shifted(p: Pen, delta: int): Pen { p.(shift := p.shift + delta) }

  /** The pen after drawing characters. */
  function Typed(p: Pen, chars: seq<Byte>): Pen {
    p.(glyphs := p.glyphs + seq(|chars|, k requires 0 <= k < |chars| => Glyph(p.font, p.shift, chars[k])))
  }

  lemma TypedNothing(p: Pen)
    ensures Typed(p, []) == p
  {
  }

  lemma TypedTwice(p: Pen, a: seq<Byte>, b: seq<Byte>)
    ensures Typed(Typed(p, a), b) == Typed(p, a + b)
  {
  }

  function DrawElement(p: Pen, e: Element): Pen {
    match e
    case FontShift(f) => p.(font := f)
    case Elt(delta, chars) => Typed(Shifted(p, delta), chars)
  }

  function Draw(p: Pen, es: seq<Element>): Pen {
    if es == [] then p else DrawElement(Draw(p, es[..|es| - 1]), es[|es| - 1])
  }

  /** What XDrawText promises for an item: its characters, after its delta, in its font. */
  function DrawItem(p: Pen, item: TextItem): Pen {
    var q := if item.font != 0 then p.(font := item.font) else p;
    Typed(Shifted(q, item.delta), item.chars)
  }

  function DrawItems(p: Pen, items: seq<TextItem>): Pen {
    if items == [] then p else DrawItem(DrawItems(p, items[..|items| - 1]), items[|items| - 1])
  }

  lemma DrawSnoc(p: Pen, es: seq<Element>, e: Element)
    ensures Draw(p, es + [e]) == DrawElement(Draw(p, es), e)
  {
    assert (es + [e])[..|es|] == es;
  }

  lemma BytesSnoc(es: seq<Element>, e: Element)
    requires AllEncodable(es) && Encodable(e)
    ensures AllEncodable(es + [e]) && AllBytes(es + [e]) == AllBytes(es) + Bytes(e)
  {
    assert (es + [e])[..|es|] == es;
  }

  lemma LastIs(es: seq<Element>)
    requires es != []
    ensures es[..|es| - 1] + [es[|es| - 1]] == es
  {
  }

  lemma {:induction false} BytesJoin(a: seq<Element>, b: seq<Element>)
    requires AllEncodable(a) && AllEncodable(b)
    ensures AllEncodable(a + b) && AllBytes(a + b) == AllBytes(a) + AllBytes(b)
    decreases |b|
  {
    if b == [] {
      assert a + b == a;
    } else {
      var init, last := b[..|b| - 1], b[|b| - 1];
      LastIs(b);
      BytesJoin(a, init);
      BytesGrow(a, init, last, AllBytes(a), AllBytes(init));
    }
  }

  lemma BytesGrow(a: seq<Element>, init: seq<Element>, last: Element, x: seq<Byte>, y: seq<Byte>)
    requires AllEncodable(a + init) && AllEncodable(init) && Encodable(last)
    requires AllBytes(a + init) == x + y && AllBytes(init) == y
    ensures AllEncodable(a + (init + [last])) && AllBytes(a + (init + [last])) == x + AllBytes(init + [last])
  {
    assert a + (init + [last]) == (a + init) + [last];
    BytesSnoc(a + init, last);
    BytesSnoc(init, last);
    var z := Bytes(last);
    Associate(x, y, z);
  }

  lemma Associate(a: seq<Byte>, b: seq<Byte>, c: seq<Byte>)
    ensures (a + b) + c == a + (b + c)
  {
  }

  lemma {:induction false} DrawJoin(p: Pen, a: seq<Element>, b: seq<Element>)
    ensures Draw(p, a + b) == Draw(Draw(p, a), b)
    decreases |b|
  {
    if b == [] {
      assert a + b == a;
    } else {
      var init, last := b[..|b| - 1], b[|b| - 1];
      DrawJoin(p, a, init);
      DrawSnoc(p, a + init, last);
      assert a + b == (a + init) + [last];
    }
  }

  lemma OneElement(p: Pen, e: Element)
    requires Encodable(e)
    ensures AllEncodable([e]) && AllBytes([e]) == Bytes(e) && Draw(p, [e]) == DrawElement(p, e)
  {
    assert [e][..0] == [];
  }

  // ---------- the elements of an item ----------

  /** Headers that add up to a delta, the last of them with characters. */
  function DeltaElements(d: int, chars: seq<Byte>): (es: seq<Element>)
    requires d != 0
    decreases if d > 0 then d else -d
  {
    if d > 127 then [Elt(127, [])] + DeltaElements(d - 127, chars)
    else if d < -128 then [Elt(-128, [])] + DeltaElements(d + 128, chars)
    else [Elt(d, chars)]
  }

  /** The characters of one element, and those that are left. */
  function FirstPart(chars: seq<Byte>): (c: seq<Byte>)
    ensures |c| <= 254
  {
    if |chars| > 254 then chars[..254] else chars
  }

  function OtherParts(chars: seq<Byte>): seq<Byte> { if |chars| > 254 then chars[254..] else [] }

  /** Elements of up to 254 characters each. */
  function Chunks(chars: seq<Byte>): seq<Element>
    decreases |chars|
  {
    if chars == [] then [] else [Elt(0, FirstPart(chars))] + Chunks(OtherParts(chars))
  }

  function FontElements(font: nat): seq<Element> { if font != 0 then [FontShift(font)] else [] }

  /** The elements of an item: its font, and its characters. */
  function ItemElements(item: TextItem): seq<Element> {
    FontElements(item.font) + CharsElements(item)
  }

  /** The characters, the first of them behind the delta. */
  function CharsElements(item: TextItem): seq<Element> {
    if item.delta == 0 then Chunks(item.chars)
    else DeltaElements(item.delta, FirstPart(item.chars)) + Chunks(OtherParts(item.chars))
  }

  function ItemsElements(items: seq<TextItem>): seq<Element> {
    if items == [] then [] else ItemsElements(items[..|items| - 1]) + ItemElements(items[|items| - 1])
  }

  lemma {:induction false} DeltaDraws(p: Pen, d: int, chars: seq<Byte>)
    requires d != 0 && |chars| <= 254
    ensures AllEncodable(DeltaElements(d, chars)) && Draw(p, DeltaElements(d, chars)) == Typed(Shifted(p, d), chars)
    decreases if d > 0 then d else -d
  {
    if -128 <= d <= 127 {
      OneElement(p, Elt(d, chars));
    } else {
      var part := if d > 0 then 127 else -128;
      DeltaDraws(Shifted(p, part), d - part, chars);
      OneElement(p, Elt(part, []));
      TypedNothing(Shifted(p, part));
      DrawJoin(p, [Elt(part, [])], DeltaElements(d - part, chars));
    }
  }

  lemma {:induction false} ChunksDraw(p: Pen, chars: seq<Byte>)
    ensures AllEncodable(Chunks(chars)) && Draw(p, Chunks(chars)) == Typed(p, chars)
    decreases |chars|
  {
    if chars == [] {
      TypedNothing(p);
    } else {
      var c, rest := FirstPart(chars), OtherParts(chars);
      assert chars == c + rest;
      ChunksDraw(Typed(p, c), rest);
      OneElement(p, Elt(0, c));
      assert Shifted(p, 0) == p;
      DrawJoin(p, [Elt(0, c)], Chunks(rest));
      TypedTwice(p, c, rest);
    }
  }

  /** From p to n every character of the item is drawn once, in their order, in the font of the item or else of the
      pen, its delta further on; nothing that was drawn before changes. */
  ghost predicate ItemDrawn(p: Pen, n: Pen, item: TextItem) {
    && n.font == (if item.font != 0 then item.font else p.font)
    && n.shift == p.shift + item.delta
    && |n.glyphs| == |p.glyphs| + |item.chars|
    && (forall k :: 0 <= k < |p.glyphs| ==> n.glyphs[k] == p.glyphs[k])
    && forall k :: 0 <= k < |item.chars| ==> n.glyphs[|p.glyphs| + k] == Glyph(n.font, n.shift, item.chars[k])
  }

  /** The elements of an item draw the item. */
  lemma ItemDraws(p: Pen, item: TextItem)
    requires item.font < 0x1_0000_0000
    ensures AllEncodable(ItemElements(item)) && Draw(p, ItemElements(item)) == DrawItem(p, item)
    ensures ItemDrawn(p, Draw(p, ItemElements(item)), item)
  {
    var q := if item.font != 0 then p.(font := item.font) else p;
    if item.font != 0 { OneElement(p, FontShift(item.font)); }
    CharsDraw(q, item);
    DrawJoin(p, FontElements(item.font), CharsElements(item));
  }

  lemma CharsDraw(q: Pen, item: TextItem)
    ensures AllEncodable(CharsElements(item)) && Draw(q, CharsElements(item)) == Typed(Shifted(q, item.delta), item.chars)
  {
    if item.delta == 0 {
      ChunksDraw(q, item.chars);
      assert Shifted(q, 0) == q;
    } else {
      var c, rest := FirstPart(item.chars), OtherParts(item.chars);
      assert item.chars == c + rest;
      DeltaDraws(q, item.delta, c);
      ChunksDraw(Typed(Shifted(q, item.delta), c), rest);
      TypedTwice(Shifted(q, item.delta), c, rest);
      DrawJoin(q, DeltaElements(item.delta, c), Chunks(rest));
    }
  }

  ghost predicate FontsFit(items: seq<TextItem>) { forall k :: 0 <= k < |items| ==> items[k].font < 0x1_0000_0000 }

  /** The elements of the items draw the items. */
  lemma {:induction false} ItemsDraw(p: Pen, items: seq<TextItem>)
    requires FontsFit(items)
    ensures AllEncodable(ItemsElements(items)) && Draw(p, ItemsElements(items)) == DrawItems(p, items)
  {
    if items != [] {
      var init, last := items[..|items| - 1], items[|items| - 1];
      ItemsDraw(p, init);
      ItemDraws(DrawItems(p, init), last);
      DrawJoin(p, ItemsElements(init), ItemElements(last));
    }
  }

  // ---------- the length pass ----------

  /** How many elements a delta takes. */
  function DeltaCount(d: int): nat {
    if d > 0 then (d + 126) / 127 else (127 - d) / 128
  }

  lemma DeltaStep(d: int)
    ensures d > 127 ==> DeltaCount(d) == 1 + DeltaCount(d - 127)
    ensures d < -128 ==> DeltaCount(d) == 1 + DeltaCount(d + 128)
    ensures -128 <= d <= 127 ==> DeltaCount(d) == if d == 0 then 0 else 1
  {
  }

  /** How many chunks of characters an item takes. */
  function ChunkCount(n: nat): nat { (n + 253) / 254 }

  /** The bytes of one item, as the first pass counts them. */
  function ItemLength(item: TextItem): nat {
    (if item.font != 0 then 5 else 0)
    + 2 * DeltaCount(item.delta)
    + CharBytes(|item.chars|, item.delta != 0)
  }

  /** The bytes of n characters: a header for every chunk, but for one if the delta has left one. */
  function CharBytes(n: nat, header: bool): nat {
    if n == 0 then 0 else n + 2 * ChunkCount(n) - if header then 2 else 0
  }

  lemma ChunkStep(n: nat, header: bool)
    requires n > 254
    ensures CharBytes(n, header) == 254 + (if header then 0 else 2) + CharBytes(n - 254, false)
  {
  }

  lemma LastChunk(n: nat, header: bool)
    requires n <= 254
    ensures CharBytes(n, header) == if n == 0 then 0 else n + if header then 0 else 2
  {
  }

  function TotalLength(items: seq<TextItem>): nat {
    if items == [] then 0 else TotalLength(items[..|items| - 1]) + ItemLength(items[|items| - 1])
  }

  lemma {:induction false} DeltaLength(d: int, chars: seq<Byte>)
    requires d != 0 && |chars| <= 254
    ensures AllEncodable(DeltaElements(d, chars)) && |AllBytes(DeltaElements(d, chars))| == 2 * DeltaCount(d) + |chars|
    decreases if d > 0 then d else -d
  {
    DeltaStep(d);
    var p := Pen(0, 0, []);
    if -128 <= d <= 127 {
      OneElement(p, Elt(d, chars));
    } else {
      var part := if d > 0 then 127 else -128;
      DeltaLength(d - part, chars);
      OneElement(p, Elt(part, []));
      BytesJoin([Elt(part, [])], DeltaElements(d - part, chars));
    }
  }

  lemma {:induction false} ChunksLength(chars: seq<Byte>)
    ensures AllEncodable(Chunks(chars)) && |AllBytes(Chunks(chars))| == CharBytes(|chars|, false)
    decreases |chars|
  {
    if chars != [] {
      var c, rest := FirstPart(chars), OtherParts(chars);
      ChunksLength(rest);
      OneElement(Pen(0, 0, []), Elt(0, c));
      BytesJoin([Elt(0, c)], Chunks(rest));
      if |chars| > 254 { ChunkStep(|chars|, false); } else { LastChunk(|chars|, false); }
    }
  }

  lemma CharsBehindDelta(chars: seq<Byte>)
    ensures |FirstPart(chars)| + CharBytes(|OtherParts(chars)|, false) == CharBytes(|chars|, true)
  {
    if |chars| > 254 { ChunkStep(|chars|, true); } else { LastChunk(|chars|, true); }
  }

  lemma JoinLength(a: seq<Element>, b: seq<Element>)
    requires AllEncodable(a) && AllEncodable(b)
    ensures AllEncodable(a + b) && |AllBytes(a + b)| == |AllBytes(a)| + |AllBytes(b)|
  {
    BytesJoin(a, b);
  }

  lemma CharsLength(item: TextItem)
    ensures AllEncodable(CharsElements(item))
    ensures |AllBytes(CharsElements(item))| == 2 * DeltaCount(item.delta) + CharBytes(|item.chars|, item.delta != 0)
  {
    if item.delta == 0 {
      ChunksLength(item.chars);
    } else {
      var c, rest := FirstPart(item.chars), OtherParts(item.chars);
      DeltaLength(item.delta, c);
      ChunksLength(rest);
      CharsBehindDelta(item.chars);
      JoinLength(DeltaElements(item.delta, c), Chunks(rest));
    }
  }

  lemma FontLength(font: nat)
    requires font < 0x1_0000_0000
    ensures AllEncodable(FontElements(font)) && |AllBytes(FontElements(font))| == if font != 0 then 5 else 0
  {
    if font != 0 { OneElement(Pen(0, 0, []), FontShift(font)); }
  }

  /** The first pass counts the bytes of the elements. */
  lemma ItemLengthIs(item: TextItem)
    requires item.font < 0x1_0000_0000
    ensures AllEncodable(ItemElements(item)) && |AllBytes(ItemElements(item))| == ItemLength(item)
  {
    FontLength(item.font);
    CharsLength(item);
    JoinLength(FontElements(item.font), CharsElements(item));
  }

  lemma {:induction false} TotalLengthIs(items: seq<TextItem>)
    requires FontsFit(items)
    ensures AllEncodable(ItemsElements(items)) && |AllBytes(ItemsElements(items))| == TotalLength(items)
  {
    if items != [] {
      var init, last := items[..|items| - 1], items[|items| - 1];
      TotalLengthIs(init);
      ItemLengthIs(last);
      BytesJoin(ItemsElements(init), ItemElements(last));
    }
  }

  method CountItem(item: TextItem) returns (length: nat)
    ensures length == ItemLength(item)
  {
    length := 0;
    if item.font != 0 {
      length := length + 5;
    }
    if item.delta != 0 {
      if item.delta > 0 {
        length := length + 2 * ((item.delta + 126) / 127);
      } else {
        length := length + 2 * ((-item.delta + 127) / 128);
      }
    }
    if |item.chars| > 0 {
      length := length + 2 * ((|item.chars| + 253) / 254 - 1);
      if item.delta == 0 {
        length := length + 2;
      }
      length := length + |item.chars|;
    }
  }

  method CountLength(items: seq<TextItem>) returns (length: nat)
    ensures length == TotalLength(items)
  {
    length := 0;
    for i := 0 to |items|
      invariant length == TotalLength(items[..i])
    {
      assert items[..i + 1][..i] == items[..i];
      var n := CountItem(items[i]);
      length := length + n;
    }
    assert items[..|items|] == items;
  }

  /** The padding that fills up the last 32-bit word. */
  function PadBytes(length: nat): (n: nat)
    ensures n < 4
  {
    if length % 4 == 0 then 0 else 4 - length % 4
  }

  lemma WordsHold(length: nat)
    ensures length + PadBytes(length) == 4 * ((length + 3) / 4)
  {
  }

  function Zeros(n: nat): seq<Byte> { seq(n, _ => 0) }

  /** A padded body draws what its elements draw. */
  lemma BodyDraws(p: Pen, es: seq<Element>, n: nat)
    requires AllEncodable(es) && n < 4
    ensures Draw(p, Decode(AllBytes(es) + Zeros(n))) == Draw(p, es)
  {
    DecodeAll(es, Zeros(n));
    DecodePadding(n);
    if n >= 2 {
      DrawSnoc(p, es, Elt(0, []));
      TypedNothing(Shifted(Draw(p, es), 0));
    } else {
      assert es + [] == es;
    }
  }
}
