/** XDrawText over the output buffer of a display: what reaches the server, also when the buffer is flushed within the
    request (libX11 PolyTxt.c, BufAlloc of Xlibint.h). */
module TextOutput {
  import opened PolyText

  // ---------- where the buffer is flushed ----------

  /** The end of the buffer after room for n more bytes, which flushes it if they do not fit. */
  function After(size: nat, p: nat, n: nat): nat { if p + n > size then n else p + n }

  /** The end of the buffer after the headers of a delta. */
  function DeltaEnd(size: nat, p: nat, d: int): nat
    decreases if d > 0 then d else -d
  {
    if d > 127 then DeltaEnd(size, After(size, p, 2), d - 127)
    else if d < -128 then DeltaEnd(size, After(size, p, 2), d + 128)
    else if d != 0 then After(size, p, 2)
    else p
  }

  function ChunksEnd(size: nat, p: nat, chars: seq<Byte>): nat
    decreases |chars|
  {
    if chars == [] then p else ChunksEnd(size, After(size, p, 2 + |FirstPart(chars)|), OtherParts(chars))
  }

  function FontEnd(size: nat, p: nat, font: nat): nat { if font != 0 then After(size, p, 5) else p }

  /** Where the last header of an item's delta ends. */
  function HeaderEnd(size: nat, p: nat, item: TextItem): nat { DeltaEnd(size, FontEnd(size, p, item.font), item.delta) }

  function ItemEnd(size: nat, p: nat, item: TextItem): nat {
    var q := HeaderEnd(size, p, item);
    if item.delta == 0 then ChunksEnd(size, q, item.chars)
    else if item.chars == [] then q
    else ChunksEnd(size, After(size, q, |FirstPart(item.chars)|), OtherParts(item.chars))
  }

  function ItemsEnd(size: nat, p: nat, items: seq<TextItem>): nat {
    if items == [] then p else ItemEnd(size, ItemsEnd(size, p, items[..|items| - 1]), items[|items| - 1])
  }

  /** The buffer is flushed between the last header of the item's delta and the characters that belong behind it. */
  predicate Torn(size: nat, p: nat, item: TextItem) {
    item.delta != 0 && item.chars != [] && HeaderEnd(size, p, item) + |FirstPart(item.chars)| > size
  }

  predicate TornAt(size: nat, p: nat, items: seq<TextItem>, k: nat)
    requires k < |items|
  {
    Torn(size, ItemsEnd(size, p, items[..k]), items[k])
  }

  ghost predicate SomeTorn(size: nat, p: nat, items: seq<TextItem>) { exists k: nat :: k < |items| && TornAt(size, p, items, k) }

  // ---------- what reaches the server ----------

  /** The bytes of an item. When it is torn, its last header has gone out with a length of zero, and zeros are left
      where the characters should be: they are written where the header was, and that is behind the new data. */
  function ItemWire(item: TextItem, torn: bool): seq<Byte>
    requires item.font < 0x1_0000_0000
  {
    var c, rest := FirstPart(item.chars), OtherParts(item.chars);
    AllEncode(item);
    AllBytes(FontElements(item.font))
    + (if item.delta == 0 then AllBytes(Chunks(item.chars))
       else (if torn then AllBytes(DeltaElements(item.delta, [])) + Zeros(|c|) else AllBytes(DeltaElements(item.delta, c)))
            + AllBytes(Chunks(rest)))
  }

  lemma AllEncode(item: TextItem)
    requires item.font < 0x1_0000_0000
    ensures AllEncodable(FontElements(item.font)) && AllEncodable(Chunks(item.chars)) && AllEncodable(Chunks(OtherParts(item.chars)))
    ensures item.delta != 0 ==> AllEncodable(DeltaElements(item.delta, FirstPart(item.chars))) && AllEncodable(DeltaElements(item.delta, []))
  {
    FontLength(item.font);
    ChunksLength(item.chars);
    ChunksLength(OtherParts(item.chars));
    if item.delta != 0 {
      DeltaLength(item.delta, FirstPart(item.chars));
      DeltaLength(item.delta, []);
    }
  }

  function ItemsWire(size: nat, p: nat, items: seq<TextItem>): seq<Byte>
    requires forall k :: 0 <= k < |items| ==> items[k].font < 0x1_0000_0000
  {
    if items == [] then []
    else
      var init, last := items[..|items| - 1], items[|items| - 1];
      ItemsWire(size, p, init) + ItemWire(last, Torn(size, ItemsEnd(size, p, init), last))
  }

  /** The stream that XDrawText means to send. */
  function Meant(items: seq<TextItem>): seq<Byte>
    requires forall k :: 0 <= k < |items| ==> items[k].font < 0x1_0000_0000
  {
    TotalLengthIs(items);
    AllBytes(ItemsElements(items))
  }

  lemma WholeItem(item: TextItem)
    requires item.font < 0x1_0000_0000
    ensures AllEncodable(ItemElements(item)) && ItemWire(item, false) == AllBytes(ItemElements(item))
  {
    AllEncode(item);
    ItemLengthIs(item);
    if item.delta == 0 {
      BytesJoin(FontElements(item.font), Chunks(item.chars));
    } else {
      BytesJoin(DeltaElements(item.delta, FirstPart(item.chars)), Chunks(OtherParts(item.chars)));
      BytesJoin(FontElements(item.font), DeltaElements(item.delta, FirstPart(item.chars)) + Chunks(OtherParts(item.chars)));
    }
  }

  // ---------- a torn item is not what was meant ----------

  /** bc is b with a length of |c| in its last header and c behind it. */
  predicate Headed(b: seq<Byte>, c: seq<Byte>, bc: seq<Byte>) {
    && |b| >= 2 && |c| <= 254 && b[|b| - 2] == 0
    && bc == b[|b| - 2 := |c|] + c
  }

  /** The last header of a delta, with and without characters behind it. */
  lemma {:induction false} LastHeader(d: int, c: seq<Byte>)
    requires d != 0 && |c| <= 254
    ensures AllEncodable(DeltaElements(d, c)) && AllEncodable(DeltaElements(d, []))
    ensures Headed(AllBytes(DeltaElements(d, [])), c, AllBytes(DeltaElements(d, c)))
    decreases if d > 0 then d else -d
  {
    DeltaLength(d, c);
    DeltaLength(d, []);
    if -128 <= d <= 127 {
      OneHeader(d, c);
    } else if d > 127 {
      LastHeader(d - 127, c);
      HeaderBefore(Elt(127, []), DeltaElements(d - 127, []), c, DeltaElements(d - 127, c));
    } else {
      LastHeader(d + 128, c);
      HeaderBefore(Elt(-128, []), DeltaElements(d + 128, []), c, DeltaElements(d + 128, c));
    }
  }

  lemma OneHeader(d: int, c: seq<Byte>)
    requires -128 <= d <= 127 && |c| <= 254
    ensures AllEncodable([Elt(d, c)]) && AllEncodable([Elt(d, [])]) && Headed(AllBytes([Elt(d, [])]), c, AllBytes([Elt(d, c)]))
  {
    OneElement(Pen(0, 0, []), Elt(d, c));
    OneElement(Pen(0, 0, []), Elt(d, []));
    assert Headed(Bytes(Elt(d, [])), c, Bytes(Elt(d, c)));
  }

  lemma HeaderBefore(e: Element, es: seq<Element>, c: seq<Byte>, esc: seq<Element>)
    requires Encodable(e) && AllEncodable(es) && AllEncodable(esc) && Headed(AllBytes(es), c, AllBytes(esc))
    ensures AllEncodable([e] + es) && AllEncodable([e] + esc) && Headed(AllBytes([e] + es), c, AllBytes([e] + esc))
  {
    OneElement(Pen(0, 0, []), e);
    BytesJoin([e], es);
    BytesJoin([e], esc);
    HeadedJoin(Bytes(e), AllBytes(es), c, AllBytes(esc));
  }

  lemma HeadedJoin(h: seq<Byte>, b: seq<Byte>, c: seq<Byte>, bc: seq<Byte>)
    requires Headed(b, c, bc)
    ensures Headed(h + b, c, h + bc)
  {
  }

  lemma SameTail(f: seq<Byte>, x: seq<Byte>, y: seq<Byte>, r: seq<Byte>)
    requires f + (x + r) == f + (y + r)
    ensures x == y
  {
    assert (f + (x + r))[|f|..] == x + r && (f + (y + r))[|f|..] == y + r;
    assert |x| == |y|;
    assert (x + r)[..|x|] == x && (y + r)[..|x|] == y;
  }

  /** As long as what was meant, but different: the header has length zero. */
  lemma TornDiffers(item: TextItem)
    requires item.font < 0x1_0000_0000 && item.delta != 0 && item.chars != []
    ensures |ItemWire(item, true)| == |ItemWire(item, false)| && ItemWire(item, true) != ItemWire(item, false)
  {
    AllEncode(item);
    var c := FirstPart(item.chars);
    LastHeader(item.delta, c);
    DeltaLength(item.delta, c);
    DeltaLength(item.delta, []);
    var b := AllBytes(DeltaElements(item.delta, []));
    var x, y := b + Zeros(|c|), AllBytes(DeltaElements(item.delta, c));
    assert x[|b| - 2] == 0 && y[|b| - 2] == |c|;
    if ItemWire(item, true) == ItemWire(item, false) {
      SameTail(AllBytes(FontElements(item.font)), x, y, AllBytes(Chunks(OtherParts(item.chars))));
    }
  }

  lemma ItemWireLength(item: TextItem, torn: bool)
    requires item.font < 0x1_0000_0000 && (torn ==> item.delta != 0 && item.chars != [])
    ensures |ItemWire(item, torn)| == ItemLength(item)
  {
    WholeItem(item);
    ItemLengthIs(item);
    if torn { TornDiffers(item); }
  }

  lemma {:induction false} WireLength(size: nat, p: nat, items: seq<TextItem>)
    requires FontsFit(items)
    ensures |ItemsWire(size, p, items)| == TotalLength(items)
  {
    if items != [] {
      var init, last := items[..|items| - 1], items[|items| - 1];
      WireLength(size, p, init);
      ItemWireLength(last, Torn(size, ItemsEnd(size, p, init), last));
    }
  }

  lemma SplitEqual(a: seq<Byte>, b: seq<Byte>, x: seq<Byte>, y: seq<Byte>)
    requires |a| == |b|
    ensures a + x == b + y <==> a == b && x == y
  {
    if a + x == b + y {
      assert (a + x)[..|a|] == a && (b + y)[..|a|] == b && (a + x)[|a|..] == x && (b + y)[|a|..] == y;
    }
  }

  lemma TornOfFront(size: nat, p: nat, items: seq<TextItem>)
    requires items != []
    ensures var init, last := items[..|items| - 1], items[|items| - 1];
      SomeTorn(size, p, items) <==> SomeTorn(size, p, init) || Torn(size, ItemsEnd(size, p, init), last)
  {
    var n: nat := |items| - 1;
    var init, last := items[..n], items[n];
    assert TornAt(size, p, items, n) <==> Torn(size, ItemsEnd(size, p, init), last);
    if SomeTorn(size, p, init) {
      var k: nat :| k < |init| && TornAt(size, p, init, k);
      TornInFront(size, p, items, k);
      assert TornAt(size, p, items, k);
    }
    if SomeTorn(size, p, items) {
      var k: nat :| k < |items| && TornAt(size, p, items, k);
      if k < n { TornInFront(size, p, items, k); assert TornAt(size, p, init, k); }
    }
  }

  lemma TornInFront(size: nat, p: nat, items: seq<TextItem>, k: nat)
    requires k < |items| - 1
    ensures TornAt(size, p, items[..|items| - 1], k) <==> TornAt(size, p, items, k)
  {
    assert items[..|items| - 1][..k] == items[..k];
  }

  /** The server gets the stream that was meant exactly if no item is torn. */
  lemma {:induction false} WholeIff(size: nat, p: nat, items: seq<TextItem>)
    requires FontsFit(items)
    ensures ItemsWire(size, p, items) == Meant(items) <==> !SomeTorn(size, p, items)
  {
    if items != [] {
      var init, last := items[..|items| - 1], items[|items| - 1];
      var torn := Torn(size, ItemsEnd(size, p, init), last);
      WholeIff(size, p, init);
      TornOfFront(size, p, items);
      WireLength(size, p, init);
      TotalLengthIs(init);
      WholeItem(last);
      BytesJoin(ItemsElements(init), ItemElements(last));
      SplitEqual(ItemsWire(size, p, init), Meant(init), ItemWire(last, torn), AllBytes(ItemElements(last)));
      if torn { TornDiffers(last); }
    } else {
      assert ItemsElements(items) == [];
    }
  }

  /** Without a flush within the items none is torn: enough room from the start, or a buffer that holds them all. */
  lemma {:induction false} RoomEnough(size: nat, p: nat, items: seq<TextItem>)
    requires FontsFit(items) && p + TotalLength(items) <= size
    ensures !SomeTorn(size, p, items) && ItemsEnd(size, p, items) == p + TotalLength(items)
  {
    if items != [] {
      var init, last := items[..|items| - 1], items[|items| - 1];
      RoomEnough(size, p, init);
      RoomForItem(size, p + TotalLength(init), last);
      TornOfFront(size, p, items);
    }
  }

  lemma {:induction false} RoomForDelta(size: nat, p: nat, d: int)
    requires p + 2 * DeltaCount(d) <= size
    ensures DeltaEnd(size, p, d) == p + 2 * DeltaCount(d)
    decreases if d > 0 then d else -d
  {
    DeltaStep(d);
    if d > 127 { RoomForDelta(size, p + 2, d - 127); } else if d < -128 { RoomForDelta(size, p + 2, d + 128); }
  }

  lemma {:induction false} RoomForChunks(size: nat, p: nat, chars: seq<Byte>)
    requires p + CharBytes(|chars|, false) <= size
    ensures ChunksEnd(size, p, chars) == p + CharBytes(|chars|, false)
    decreases |chars|
  {
    if chars != [] {
      if |chars| > 254 { ChunkStep(|chars|, false); } else { LastChunk(|chars|, false); }
      RoomForChunks(size, p + 2 + |FirstPart(chars)|, OtherParts(chars));
    }
  }

  lemma RoomForItem(size: nat, p: nat, item: TextItem)
    requires p + ItemLength(item) <= size
    ensures ItemEnd(size, p, item) == p + ItemLength(item) && !Torn(size, p, item)
  {
    var q := if item.font != 0 then p + 5 else p;
    DeltaStep(item.delta);
    CharsBehindDelta(item.chars);
    RoomForDelta(size, q, item.delta);
    var h := q + 2 * DeltaCount(item.delta);
    if item.delta == 0 {
      RoomForChunks(size, h, item.chars);
    } else {
      RoomForChunks(size, h + |FirstPart(item.chars)|, OtherParts(item.chars));
    }
  }

  // ---------- the display ----------

  const XLIBMINBUFSIZE: nat := 2048

  class Display {
    const buffer: array<Byte>        // the output buffer
    var bufptr: nat                  // the end of what is in it
    var sent: seq<Byte>              // the bytes flushed so far

    ghost predicate Valid()
      reads this
    {
      XLIBMINBUFSIZE <= buffer.Length && bufptr <= buffer.Length
    }

    /** What the server gets, in the end. */
    ghost function Wire(): seq<Byte>
      reads this, buffer
      requires Valid()
    {
      sent + buffer[..bufptr]
    }

    constructor (size: nat)
      requires size >= XLIBMINBUFSIZE
      ensures Valid() && fresh(buffer) && buffer.Length == size && Wire() == []
    {
      buffer := new Byte[size](_ => 0);
      bufptr, sent := 0, [];
    }

    /** _XFlush. */
    method Flush()
      requires Valid()
      modifies this
      ensures Valid() && bufptr == 0 && Wire() == old(Wire())
    {
      sent := sent + buffer[..bufptr];
      bufptr := 0;
    }

    /** BufAlloc: room for n bytes, which are zero. */
    method BufAlloc(n: nat) returns (at: nat)
      requires Valid() && n <= buffer.Length
      modifies this, buffer
      ensures Valid() && bufptr == After(buffer.Length, old(bufptr), n) && at == bufptr - n
      ensures Wire() == old(Wire()) + Zeros(n)
    {
      if bufptr + n > buffer.Length {
        Flush();
      }
      at := bufptr;
      ghost var was := buffer[..at];
      forall i | at <= i < at + n {
        buffer[i] := 0;
      }
      bufptr := bufptr + n;
      assert buffer[..at] == was;
      assert buffer[..bufptr] == was + Zeros(n);
    }

    /** A store through a pointer into the buffer. What lies behind the buffer is not part of this model. */
    method Put(at: nat, b: Byte)
      requires Valid()
      modifies buffer
      ensures Wire() == if at < bufptr then old(Wire())[|sent| + at := b] else old(Wire())
    {
      if at < buffer.Length {
        ghost var was := buffer[..bufptr];
        buffer[at] := b;
        assert buffer[..bufptr] == if at < bufptr then was[at := b] else was;
      }
    }

    /** memcpy to the end of the buffer, or behind it. */
    method Copy(at: nat, chars: seq<Byte>)
      requires Valid() && (at + |chars| == bufptr || at >= bufptr)
      modifies buffer
      ensures Wire() == if at < bufptr then old(Wire())[..|old(Wire())| - |chars|] + chars else old(Wire())
    {
      ghost var was := buffer[..bufptr];
      forall i | 0 <= i < |chars| && at + i < buffer.Length {
        buffer[at + i] := chars[i];
      }
      if at < bufptr {
        assert buffer[..bufptr] == was[..at] + chars;
      } else {
        assert buffer[..bufptr] == was;
      }
    }

    // ---------- elements ----------

    /** A font shift: a byte 255 and the font id, big end first. */
    method EmitFont(font: nat)
      requires Valid() && 0 < font < 0x1_0000_0000
      modifies this, buffer
      ensures Valid() && bufptr == After(buffer.Length, old(bufptr), 5) && Wire() == old(Wire()) + Bytes(FontShift(font))
    {
      var f := BufAlloc(5);
      Put(f, 255);
      Put(f + 1, font / 0x100_0000);
      Put(f + 2, font / 0x1_0000 % 256);
      Put(f + 3, font / 0x100 % 256);
      Put(f + 4, font % 256);
    }

    /** A header with no characters yet. */
    method EmitHeader(delta: int) returns (tbuf: nat)
      requires Valid() && -128 <= delta <= 127
      modifies this, buffer
      ensures Valid() && bufptr == After(buffer.Length, old(bufptr), 2) && tbuf + 2 == bufptr
      ensures Wire() == old(Wire()) + Bytes(Elt(delta, []))
    {
      tbuf := BufAlloc(2);
      Put(tbuf, 0);
      Put(tbuf + 1, DeltaByte(delta));
    }

    /** Room for characters behind the header at tbuf. The header and the characters are filled in where the header
        was, even if the buffer has been flushed. */
    method FillLast(tbuf: nat, chars: seq<Byte>)
      requires Valid() && 0 < |chars| <= 254 && tbuf + 2 == bufptr
      modifies this, buffer
      ensures Valid() && bufptr == After(buffer.Length, old(bufptr), |chars|) && |old(Wire())| >= 2
      ensures Wire() == if old(bufptr) + |chars| > buffer.Length then old(Wire()) + Zeros(|chars|)
                        else old(Wire())[|old(Wire())| - 2 := |chars|] + chars
    {
      ghost var was, flushed := Wire(), bufptr + |chars| > buffer.Length;
      var dummy := BufAlloc(|chars|);
      assert !flushed ==> |sent| + tbuf == |was| - 2;
      Put(tbuf, |chars|);
      Copy(tbuf + 2, chars);
      if !flushed { LastFilled(was, chars); }
    }

    /** A chunk with a header of its own. */
    method EmitChunk(chars: seq<Byte>)
      requires Valid() && 0 < |chars| <= 254
      modifies this, buffer
      ensures Valid() && bufptr == After(buffer.Length, old(bufptr), 2 + |chars|)
      ensures Wire() == old(Wire()) + Bytes(Elt(0, chars))
    {
      ghost var was := Wire();
      var tbuf := OpenChunk(|chars|);
      CopyBehind(tbuf + 2, chars, was);
    }

    /** The characters of a chunk, behind its header. */
    method CopyBehind(at: nat, chars: seq<Byte>, ghost was: seq<Byte>)
      requires Valid() && 0 < |chars| <= 254 && at + |chars| == bufptr && Wire() == was + ([|chars|, 0] + Zeros(|chars|))
      modifies buffer
      ensures Wire() == was + Bytes(Elt(0, chars))
    {
      ChunkCopied(was, Wire(), chars);
      Copy(at, chars);
    }

    /** The header of n characters, and room for them. */
    method OpenChunk(n: nat) returns (tbuf: nat)
      requires Valid() && 0 < n <= 254
      modifies this, buffer
      ensures Valid() && bufptr == After(buffer.Length, old(bufptr), 2 + n) && tbuf + 2 + n == bufptr
      ensures Wire() == old(Wire()) + ([n, 0] + Zeros(n))
    {
      ghost var was := Wire();
      tbuf := BufAlloc(2 + n);
      assert |sent| + tbuf == |was|;
      Put(tbuf + 1, 0);
      Put(tbuf, n);
      HeaderPut(was, n);
    }

    // ---------- items ----------

    /** One more header of a delta. */
    method NextDelta(delta: int, ghost goal: Goal) returns (tbuf: nat, rest: int)
      requires Valid() && delta != 0 && HeadersAhead(buffer.Length, Wire(), bufptr, delta, goal)
      modifies this, buffer
      ensures Valid() && tbuf + 2 == bufptr && (rest == 0 <==> -128 <= delta <= 127)
      ensures rest == if delta > 127 then delta - 127 else if delta < -128 then delta + 128 else 0
      ensures HeadersAhead(buffer.Length, Wire(), bufptr, rest, goal)
    {
      var part := if delta > 127 then 127 else if delta < -128 then -128 else delta;
      NextHeader(buffer.Length, Wire(), bufptr, delta, part, goal);
      tbuf := EmitHeader(part);
      rest := delta - part;
    }

    /** The headers of a delta; tbuf is the last of them. */
    method EmitDeltas(delta: int, ghost goal: Goal) returns (tbuf: nat)
      requires Valid() && delta != 0 && HeadersAhead(buffer.Length, Wire(), bufptr, delta, goal)
      modifies this, buffer
      ensures Valid() && Reached(Wire(), bufptr, goal) && tbuf + 2 == bufptr
    {
      var partialDelta := delta;
      while partialDelta < -128 || partialDelta > 127
        invariant Valid() && partialDelta != 0 && HeadersAhead(buffer.Length, Wire(), bufptr, partialDelta, goal)
        decreases if partialDelta > 0 then partialDelta else -partialDelta
      {
        tbuf, partialDelta := NextDelta(partialDelta, goal);
      }
      var none;
      tbuf, none := NextDelta(partialDelta, goal);
    }

    /** One more chunk with a header of its own. */
    method NextPart(chars: seq<Byte>, ghost goal: Goal)
      requires Valid() && chars != [] && ChunksAhead(buffer.Length, Wire(), bufptr, chars, goal)
      modifies this, buffer
      ensures Valid() && ChunksAhead(buffer.Length, Wire(), bufptr, OtherParts(chars), goal)
    {
      NextChunk(buffer.Length, Wire(), bufptr, chars, goal);
      EmitChunk(FirstPart(chars));
    }

    /** The next characters of an item: behind the header of its delta, or with a header of their own. */
    method EmitPart(behind: bool, tbuf: nat, chars: seq<Byte>, ghost goal: Goal)
      requires Valid() && chars != [] && PartsAhead(behind, buffer.Length, Wire(), bufptr, chars, goal)
      requires behind ==> tbuf + 2 == bufptr
      modifies this, buffer
      ensures Valid() && PartsAhead(false, buffer.Length, Wire(), bufptr, OtherParts(chars), goal)
    {
      if behind {
        FillLast(tbuf, FirstPart(chars));
      } else {
        NextPart(chars, goal);
      }
    }

    /** The characters of an item, 254 at a time. */
    method EmitChars(chars: seq<Byte>, delta: int, tbuf: nat, ghost goal: Goal)
      requires Valid() && PartsAhead(delta != 0, buffer.Length, Wire(), bufptr, chars, goal) && (delta != 0 ==> tbuf + 2 == bufptr)
      modifies this, buffer
      ensures Valid() && Reached(Wire(), bufptr, goal)
    {
      var firstTimeThrough, rest := true, chars;
      while |rest| > 254
        invariant Valid() && PartsAhead(firstTimeThrough && delta != 0, buffer.Length, Wire(), bufptr, rest, goal)
        invariant firstTimeThrough && delta != 0 ==> tbuf + 2 == bufptr
        decreases |rest|
      {
        EmitPart(firstTimeThrough && delta != 0, tbuf, rest, goal);
        firstTimeThrough, rest := false, OtherParts(rest);
      }
      if |rest| > 0 {
        EmitPart(firstTimeThrough && delta != 0, tbuf, rest, goal);
      }
    }

    /** One item. */
    method EmitItem(item: TextItem)
      requires Valid() && item.font < 0x1_0000_0000
      modifies this, buffer
      ensures Valid() && bufptr == ItemEnd(buffer.Length, old(bufptr), item)
      ensures Wire() == old(Wire()) + ItemWire(item, Torn(buffer.Length, old(bufptr), item))
    {
      ghost var w0, p0 := Wire(), bufptr;
      if item.font != 0 {
        EmitFont(item.font);
      }
      ghost var w1, p1 := Wire(), bufptr;
      FontWire(item.font, w0, w1);
      AllEncode(item);
      var tbuf := 0;
      if item.delta != 0 {
        tbuf := EmitDeltas(item.delta, Goal(w1 + AllBytes(DeltaElements(item.delta, [])), DeltaEnd(buffer.Length, p1, item.delta)));
      }
      ghost var goal := Goal(w0 + ItemWire(item, Torn(buffer.Length, p0, item)), ItemEnd(buffer.Length, p0, item));
      CharsAhead(buffer.Length, w0, p0, w1, item, Wire(), goal);
      EmitChars(item.chars, item.delta, tbuf, goal);
    }

    /** The second pass over the items. */
    method EmitItems(items: seq<TextItem>, font: nat) returns (gcFont: nat)
      requires Valid() && FontsFit(items)
      modifies this, buffer
      ensures Valid() && bufptr == ItemsEnd(buffer.Length, old(bufptr), items)
      ensures Wire() == old(Wire()) + ItemsWire(buffer.Length, old(bufptr), items)
      ensures gcFont == DrawItems(Pen(font, 0, []), items).font
    {
      gcFont := font;
      ghost var w0, p0 := Wire(), bufptr;
      NothingEmitted(w0, p0, items, font, buffer.Length);
      for i := 0 to |items|
        invariant Valid() && Emitted(w0, p0, items, i, gcFont, font, buffer.Length, bufptr, Wire())
      {
        gcFont := EmitNext(items, i, gcFont, font, w0, p0);
      }
      assert items[..|items|] == items;
    }

    /** The item after those that have been written. */
    method EmitNext(items: seq<TextItem>, i: nat, gcFont0: nat, ghost font: nat, ghost w0: seq<Byte>, ghost p0: nat)
      returns (gcFont: nat)
      requires Valid() && i < |items| && Emitted(w0, p0, items, i, gcFont0, font, buffer.Length, bufptr, Wire())
      modifies this, buffer
      ensures Valid() && Emitted(w0, p0, items, i + 1, gcFont, font, buffer.Length, bufptr, Wire())
    {
      EmittedNext(w0, p0, items, i, gcFont0, font, buffer.Length, bufptr, Wire());
      EmitItem(items[i]);
      gcFont := if items[i].font != 0 then items[i].font else gcFont0;
    }

    /** Pads the request out to a 32-bit boundary. */
    method Pad(length: nat)
      requires Valid()
      modifies this, buffer
      ensures Valid() && Wire() == old(Wire()) + Zeros(PadBytes(length))
    {
      if length % 4 != 0 {
        var pad := BufAlloc(4 - length % 4);
        Put(pad, 0);
      }
    }

    /** The items, from the start of an empty buffer if they do not fit into what is left of this one, and the padding. */
    method SendItems(items: seq<TextItem>, font: nat, bytes: nat, ghost declared: nat) returns (gcFont: nat)
      requires Valid() && FontsFit(items) && bytes == TotalLength(items) && declared == Declared(Words(items))
      modifies this, buffer
      ensures Valid() && gcFont == DrawItems(Pen(font, 0, []), items).font
      ensures ServerGets(old(Wire()), buffer.Length, Start(buffer.Length, old(bufptr), items), items, declared, Wire())
    {
      ghost var was, start := Wire(), Start(buffer.Length, bufptr, items);
      if bufptr + bytes > buffer.Length {
        Flush();
      }
      gcFont := EmitItems(items, font);
      Pad(bytes);
      SentAfter(was, buffer.Length, start, items, declared, Wire());
    }

    /** XDrawText, once the fixed part of the request is in the buffer: the length declared in the request, the font
        shadow, and what the server gets and takes for the body of the request. */
    method XDrawText(items: seq<TextItem>, font: nat) returns (length: nat, gcFont: nat)
      requires Valid() && FontsFit(items)
      modifies this, buffer
      ensures Valid() && gcFont == DrawItems(Pen(font, 0, []), items).font
      ensures length == Declared(Words(items))
      ensures ServerGets(old(Wire()), buffer.Length, Start(buffer.Length, old(bufptr), items), items, length, Wire())
    {
      var bytes := CountLength(items);
      length := (REQUEST_WORDS + (bytes + 3) / 4) % 0x1_0000;
      gcFont := SendItems(items, font, bytes, length);
    }
  }

  /** The first i items are on the wire after w0, the buffer ends at p, and the font shadow is that of the last of them. */
  ghost predicate Emitted(w0: seq<Byte>, p0: nat, items: seq<TextItem>, i: nat, gcFont: nat, font: nat, size: nat, p: nat, w: seq<Byte>) {
    && FontsFit(items) && i <= |items|
    && p == ItemsEnd(size, p0, items[..i]) && w == w0 + ItemsWire(size, p0, items[..i])
    && gcFont == DrawItems(Pen(font, 0, []), items[..i]).font
  }

  lemma NothingEmitted(w0: seq<Byte>, p0: nat, items: seq<TextItem>, font: nat, size: nat)
    requires FontsFit(items)
    ensures Emitted(w0, p0, items, 0, font, font, size, p0, w0)
  {
    assert items[..0] == [] && w0 + [] == w0;
  }

  lemma EmittedNext(w0: seq<Byte>, p0: nat, items: seq<TextItem>, i: nat, gcFont: nat, font: nat, size: nat, p: nat, w: seq<Byte>)
    requires i < |items| && Emitted(w0, p0, items, i, gcFont, font, size, p, w)
    ensures Emitted(w0, p0, items, i + 1, if items[i].font != 0 then items[i].font else gcFont, font, size, ItemEnd(size, p, items[i]),
                    w + ItemWire(items[i], Torn(size, p, items[i])))
  {
    assert items[..i + 1][..i] == items[..i];
    Associate(w0, ItemsWire(size, p0, items[..i]), ItemWire(items[i], Torn(size, p, items[i])));
  }

  lemma LastFilled(was: seq<Byte>, chars: seq<Byte>)
    requires |was| >= 2 && |chars| <= 254
    ensures var w := (was + Zeros(|chars|))[|was| - 2 := |chars|];
      w[..|w| - |chars|] + chars == was[|was| - 2 := |chars|] + chars
  {
    var w := (was + Zeros(|chars|))[|was| - 2 := |chars|];
    assert w[..|w| - |chars|] == was[|was| - 2 := |chars|];
  }

  /** The stores that make up a chunk. */
  lemma HeaderPut(was: seq<Byte>, n: nat)
    requires n <= 254
    ensures (was + Zeros(2 + n))[|was| + 1 := 0][|was| := n] == was + ([n, 0] + Zeros(n))
  {
  }

  lemma ChunkCopied(was: seq<Byte>, w: seq<Byte>, chars: seq<Byte>)
    requires |chars| <= 254 && w == was + ([|chars|, 0] + Zeros(|chars|))
    ensures w[..|w| - |chars|] + chars == was + Bytes(Elt(0, chars))
  {
    assert w[..|w| - |chars|] == was + [|chars|, 0];
  }

  /** What the server gets after what it got before: all that was meant exactly if no item is torn, and as the body of the
      request exactly if also the length field can tell the length. */
  ghost predicate ServerGets(was: seq<Byte>, size: nat, p: nat, items: seq<TextItem>, declared: nat, now: seq<Byte>)
    requires FontsFit(items)
  {
    && |was| <= |now| && now == was + Sent(size, p, items)
    && (now == was + Padded(items) <==> !SomeTorn(size, p, items))
    && (Body(now[|was|..], declared) == Padded(items) <==> !SomeTorn(size, p, items) && Declarable(items))
  }

  // ---------- what the server reads ----------

  /** The words of the request before its body. */
  const REQUEST_WORDS := 4

  /** The length field of a request has 16 bits. */
  function Declared(words: nat): nat { (REQUEST_WORDS + words) % 0x1_0000 }

  /** The words of the body. */
  function Words(items: seq<TextItem>): nat { (TotalLength(items) + 3) / 4 }

  /** The length field can tell the length. */
  predicate Declarable(items: seq<TextItem>) { REQUEST_WORDS + Words(items) < 0x1_0000 }

  /** What the server takes for the body, in what follows the fixed part of the request: as many words as are declared. */
  function Body(wire: seq<Byte>, declared: nat): seq<Byte> {
    if REQUEST_WORDS < declared && 4 * (declared - REQUEST_WORDS) <= |wire| then wire[..4 * (declared - REQUEST_WORDS)]
    else if declared <= REQUEST_WORDS then []
    else wire
  }

  /** What is sent, and what is meant to be sent: the elements, padded. */
  function Sent(size: nat, p: nat, items: seq<TextItem>): seq<Byte>
    requires FontsFit(items)
  {
    ItemsWire(size, p, items) + Zeros(PadBytes(TotalLength(items)))
  }

  function Padded(items: seq<TextItem>): seq<Byte>
    requires FontsFit(items)
  {
    Meant(items) + Zeros(PadBytes(TotalLength(items)))
  }

  lemma SentLength(size: nat, p: nat, items: seq<TextItem>)
    requires FontsFit(items)
    ensures |Meant(items)| == TotalLength(items) && |Padded(items)| == |Sent(size, p, items)| == 4 * Words(items)
    ensures |Meant(items)| > 4 * Words(items) - 4
  {
    WireLength(size, p, items);
    TotalLengthIs(items);
    PaddedLength(ItemsWire(size, p, items), TotalLength(items));
    PaddedLength(Meant(items), TotalLength(items));
  }

  lemma PaddedLength(bytes: seq<Byte>, n: nat)
    requires |bytes| == n
    ensures |bytes + Zeros(PadBytes(n))| == 4 * ((n + 3) / 4) && n > 4 * ((n + 3) / 4) - 4
  {
    WordsHold(n);
  }

  lemma SentAfter(was: seq<Byte>, size: nat, p: nat, items: seq<TextItem>, declared: nat, now: seq<Byte>)
    requires FontsFit(items) && declared == Declared(Words(items))
    requires now == was + ItemsWire(size, p, items) + Zeros(PadBytes(TotalLength(items)))
    ensures ServerGets(was, size, p, items, declared, now)
  {
    var sent := Sent(size, p, items);
    Associate(was, ItemsWire(size, p, items), Zeros(PadBytes(TotalLength(items))));
    SplitEqual(was, was, sent, Padded(items));
    assert (was + sent)[|was|..] == sent;
    SentIff(size, p, items);
    BodyIff(size, p, items);
  }

  lemma SentIff(size: nat, p: nat, items: seq<TextItem>)
    requires FontsFit(items)
    ensures Sent(size, p, items) == Padded(items) <==> !SomeTorn(size, p, items)
  {
    WholeIff(size, p, items);
    WireLength(size, p, items);
    TotalLengthIs(items);
    SplitEqual(ItemsWire(size, p, items), Meant(items), Zeros(PadBytes(TotalLength(items))), Zeros(PadBytes(TotalLength(items))));
  }

  /** The body is all that is sent, or too short by 2 ^ 18 bytes or more. */
  lemma BodyLength(wire: seq<Byte>, words: nat)
    requires |wire| == 4 * words
    ensures REQUEST_WORDS + words < 0x1_0000 ==> Body(wire, Declared(words)) == wire
    ensures REQUEST_WORDS + words >= 0x1_0000 ==> |Body(wire, Declared(words))| + 4 <= |wire|
  {
    if REQUEST_WORDS + words < 0x1_0000 {
      assert Declared(words) == REQUEST_WORDS + words;
      assert wire[..|wire|] == wire;
    } else {
      assert Declared(words) < 0x1_0000 <= REQUEST_WORDS + words;
    }
  }

  /** The server takes what was meant for the body exactly if no item is torn and the length field can tell the length. */
  lemma BodyIff(size: nat, p: nat, items: seq<TextItem>)
    requires FontsFit(items)
    ensures Body(Sent(size, p, items), Declared(Words(items))) == Padded(items) <==> !SomeTorn(size, p, items) && Declarable(items)
  {
    SentLength(size, p, items);
    SentIff(size, p, items);
    BodyLength(Sent(size, p, items), Words(items));
  }

  /** That is exactly when it reads the elements that were meant. */
  lemma ReadIff(size: nat, p: nat, items: seq<TextItem>)
    requires FontsFit(items)
    ensures Decode(Body(Sent(size, p, items), Declared(Words(items)))) == Decode(Padded(items))
            <==> !SomeTorn(size, p, items) && Declarable(items)
  {
    var body := Body(Sent(size, p, items), Declared(Words(items)));
    BodyIff(size, p, items);
    if Decode(body) == Decode(Padded(items)) {
      SentLength(size, p, items);
      BodyLength(Sent(size, p, items), Words(items));
      DecodedBytes(body);
      MeantIsRead(items);
      SamePrefix(body, AllBytes(Decode(body)), Meant(items));
      if Declarable(items) {
        assert Sent(size, p, items)[..|Meant(items)|] == ItemsWire(size, p, items) by { WireLength(size, p, items); }
        WholeIff(size, p, items);
      }
    }
  }

  lemma SamePrefix(b: seq<Byte>, a: seq<Byte>, m: seq<Byte>)
    requires a <= b && m <= a
    ensures m <= b
  {
    assert b[..|m|] == a[..|m|];
  }

  /** What is read of the body that was meant has all of its bytes but the padding. */
  lemma MeantIsRead(items: seq<TextItem>)
    requires FontsFit(items)
    ensures AllEncodable(Decode(Padded(items))) && Meant(items) <= AllBytes(Decode(Padded(items)))
  {
    var es, pad := ItemsElements(items), Zeros(PadBytes(TotalLength(items)));
    TotalLengthIs(items);
    DecodeAll(es, pad);
    DecodedBytes(pad);
    BytesJoin(es, Decode(pad));
  }

  /** A request that does not fit into what is left of the buffer starts in an empty one. */
  function Start(size: nat, p: nat, items: seq<TextItem>): nat { if p + TotalLength(items) > size then 0 else p }

  /** What the server reads of the items: when none is torn and the length field can tell the length, it draws them. */
  lemma WholeDraws(size: nat, p: nat, items: seq<TextItem>, pen: Pen)
    requires FontsFit(items) && !SomeTorn(size, p, items) && Declarable(items)
    ensures Draw(pen, Decode(Body(Sent(size, p, items), Declared(Words(items))))) == DrawItems(pen, items)
  {
    BodyIff(size, p, items);
    TotalLengthIs(items);
    ItemsDraw(pen, items);
    BodyDraws(pen, ItemsElements(items), PadBytes(TotalLength(items)));
  }

  /** No item is torn whenever the items fit into the buffer, and then the server draws them, unless the buffer holds more
      than the length field can tell. */
  lemma FittingDraws(size: nat, p: nat, items: seq<TextItem>, pen: Pen)
    requires FontsFit(items) && TotalLength(items) <= size
    ensures !SomeTorn(size, Start(size, p, items), items)
    ensures size <= 4 * (0xffff - REQUEST_WORDS) || Declarable(items) ==>
              Draw(pen, Decode(Body(Sent(size, Start(size, p, items), items), Declared(Words(items))))) == DrawItems(pen, items)
  {
    RoomEnough(size, Start(size, p, items), items);
    if size <= 4 * (0xffff - REQUEST_WORDS) || Declarable(items) { WholeDraws(size, Start(size, p, items), items, pen); }
  }

  lemma FontWire(font: nat, w0: seq<Byte>, w1: seq<Byte>)
    requires font < 0x1_0000_0000 && w1 == if font != 0 then w0 + Bytes(FontShift(font)) else w0
    ensures AllEncodable(FontElements(font)) && w1 == w0 + AllBytes(FontElements(font))
  {
    if font != 0 { OneElement(Pen(0, 0, []), FontShift(font)); } else { assert w0 + [] == w0; }
  }

  /** After the headers of its delta, the characters of an item are ahead. */
  lemma CharsAhead(size: nat, w0: seq<Byte>, p0: nat, w1: seq<Byte>, item: TextItem, w: seq<Byte>, goal: Goal)
    requires item.font < 0x1_0000_0000 && AllEncodable(FontElements(item.font)) && w1 == w0 + AllBytes(FontElements(item.font))
    requires item.delta != 0 ==> AllEncodable(DeltaElements(item.delta, []))
    requires w == if item.delta != 0 then w1 + AllBytes(DeltaElements(item.delta, [])) else w1
    requires goal == Goal(w0 + ItemWire(item, Torn(size, p0, item)), ItemEnd(size, p0, item))
    ensures PartsAhead(item.delta != 0, size, w, HeaderEnd(size, p0, item), item.chars, goal)
  {
    var f, c, rest := AllBytes(FontElements(item.font)), FirstPart(item.chars), OtherParts(item.chars);
    AllEncode(item);
    if item.delta == 0 {
      Associate(w0, f, AllBytes(Chunks(item.chars)));
    } else {
      var b, bc, tail := AllBytes(DeltaElements(item.delta, [])), AllBytes(DeltaElements(item.delta, c)), AllBytes(Chunks(rest));
      LastHeader(item.delta, c);
      HeadedJoin(w1, b, c, bc);
      FourParts(w0, f, if Torn(size, p0, item) then b + Zeros(|c|) else bc, tail);
      Associate(w1, b, Zeros(|c|));
    }
  }

  lemma FourParts(a: seq<Byte>, b: seq<Byte>, c: seq<Byte>, d: seq<Byte>)
    ensures ((a + b) + c) + d == a + (b + (c + d))
  {
  }

  // ---------- what is still to come ----------

  /** Characters are ahead; if they come behind a header, what they will do to it depends on whether they fit. */
  ghost predicate PartsAhead(behind: bool, size: nat, w: seq<Byte>, p: nat, chars: seq<Byte>, goal: Goal) {
    if !behind || chars == [] then ChunksAhead(size, w, p, chars, goal)
    else
      var c := FirstPart(chars);
      && |w| >= 2
      && ChunksAhead(size, if p + |c| > size then w + Zeros(|c|) else w[|w| - 2 := |c|] + c, After(size, p, |c|), OtherParts(chars), goal)
  }

  /** What is on the wire, and where the buffer ends, once a part of the request is written. */
  datatype Goal = Goal(wire: seq<Byte>, end: nat)

  predicate Reached(w: seq<Byte>, p: nat, goal: Goal) { w == goal.wire && p == goal.end }

  ghost predicate HeadersAhead(size: nat, w: seq<Byte>, p: nat, d: int, goal: Goal) {
    if d == 0 then Reached(w, p, goal)
    else
      && AllEncodable(DeltaElements(d, []))
      && Reached(w + AllBytes(DeltaElements(d, [])), DeltaEnd(size, p, d), goal)
  }

  ghost predicate ChunksAhead(size: nat, w: seq<Byte>, p: nat, chars: seq<Byte>, goal: Goal) {
    AllEncodable(Chunks(chars)) && Reached(w + AllBytes(Chunks(chars)), ChunksEnd(size, p, chars), goal)
  }

  lemma NextHeader(size: nat, w: seq<Byte>, p: nat, d: int, part: int, goal: Goal)
    requires d != 0 && part == (if d > 127 then 127 else if d < -128 then -128 else d) && HeadersAhead(size, w, p, d, goal)
    ensures HeadersAhead(size, w + Bytes(Elt(part, [])), After(size, p, 2), d - part, goal)
  {
    OneElement(Pen(0, 0, []), Elt(part, []));
    if part != d {
      DeltaLength(d - part, []);
      BytesJoin([Elt(part, [])], DeltaElements(d - part, []));
      Associate(w, Bytes(Elt(part, [])), AllBytes(DeltaElements(d - part, [])));
    }
  }

  lemma NextChunk(size: nat, w: seq<Byte>, p: nat, chars: seq<Byte>, goal: Goal)
    requires chars != [] && ChunksAhead(size, w, p, chars, goal)
    ensures ChunksAhead(size, w + Bytes(Elt(0, FirstPart(chars))), After(size, p, 2 + |FirstPart(chars)|), OtherParts(chars), goal)
  {
    var c, rest := FirstPart(chars), OtherParts(chars);
    ChunksLength(rest);
    OneElement(Pen(0, 0, []), Elt(0, c));
    BytesJoin([Elt(0, c)], Chunks(rest));
    Associate(w, Bytes(Elt(0, c)), AllBytes(Chunks(rest)));
  }

  // ---------- a text that is torn ----------

  /** 16254 characters and, one unit further, one more: in the usual buffer of 16384 bytes, the header of the last
      character ends where the buffer does. */
  function LongText(chars: seq<Byte>, c: Byte): seq<TextItem> { [TextItem(chars, 0, 0), TextItem([c], 1, 0)] }

  lemma LongTextTorn(chars: seq<Byte>, c: Byte, p: nat)
    requires |chars| == 16254 && p <= 16384
    ensures Start(16384, p, LongText(chars, c)) == 0 && SomeTorn(16384, 0, LongText(chars, c))
    ensures TotalLength(LongText(chars, c)) == 16385
  {
    var items := LongText(chars, c);
    var one := [items[0]];
    assert items[..1] == one && one[..0] == [];
    assert TotalLength(one) == ItemLength(items[0]) == 16382;
    assert TotalLength(items) == TotalLength(one) + ItemLength(items[1]);
    RoomEnough(16384, 0, one);
    assert TornAt(16384, 0, items, 1);
  }

  lemma TornWire(c: Byte)
    ensures ItemWire(TextItem([c], 1, 0), true) == Bytes(Elt(1, [])) + Zeros(1)
  {
    OneElement(Pen(0, 0, []), Elt(1, []));
    AllEncode(TextItem([c], 1, 0));
    assert AllBytes(DeltaElements(1, [])) == Bytes(Elt(1, []));
  }

  lemma FourZeros()
    ensures Decode(Zeros(4)) == [Elt(0, []), Elt(0, [])]
  {
    var z := Zeros(4);
    assert z[2..2] == [] && z[2..] == Zeros(2);
    DecodePadding(2);
  }

  lemma NothingDrawn(p: Pen)
    ensures Draw(p, [Elt(0, []), Elt(0, [])]) == p
  {
    var one := [Elt(0, [])];
    TypedNothing(Shifted(p, 0));
    assert Shifted(p, 0) == p;
    OneElement(p, Elt(0, []));
    DrawSnoc(p, one, Elt(0, []));
    assert one + [Elt(0, [])] == [Elt(0, []), Elt(0, [])];
  }

  /** Its last character is not drawn. */
  lemma LongTextLost(chars: seq<Byte>, c: Byte, pen: Pen)
    requires |chars| == 16254
    ensures var items := LongText(chars, c);
      Draw(pen, Decode(Body(Sent(16384, 0, items), Declared(Words(items))))) == Shifted(Typed(pen, chars), 1) != DrawItems(pen, items)
  {
    var items, one, e := LongText(chars, c), [TextItem(chars, 0, 0)], Elt(1, []);
    LongTextTorn(chars, c, 0);
    SentLength(16384, 0, items);
    BodyLength(Sent(16384, 0, items), Words(items));
    LongTextWire(chars, c);
    var es := ItemsElements(one);
    ItemsDraw(pen, one);
    BytesSnoc(es, e);
    LostBody(es, e, ItemsWire(16384, 0, items));
    DecodeAll(es + [e], Zeros(4));
    LostDraws(pen, es, e, DrawItems(pen, one));
    LongTextMeant(pen, chars, c);
  }

  lemma LostDraws(pen: Pen, es: seq<Element>, e: Element, q: Pen)
    requires Draw(pen, es) == q && e == Elt(1, [])
    ensures Draw(pen, (es + [e]) + Decode(Zeros(4))) == Shifted(q, 1)
  {
    FourZeros();
    DrawSnoc(pen, es, e);
    DrawJoin(pen, es + [e], Decode(Zeros(4)));
    TypedNothing(Shifted(q, 1));
    NothingDrawn(Shifted(q, 1));
  }

  lemma LongTextWire(chars: seq<Byte>, c: Byte)
    requires |chars| == 16254
    ensures var es := ItemsElements([TextItem(chars, 0, 0)]);
      AllEncodable(es) && ItemsWire(16384, 0, LongText(chars, c)) == AllBytes(es) + (Bytes(Elt(1, [])) + Zeros(1))
  {
    var items, one := LongText(chars, c), [TextItem(chars, 0, 0)];
    assert items[..1] == one;
    OneLength(one[0]);
    assert ItemLength(one[0]) == 16382;
    RoomEnough(16384, 0, one);
    WholeIff(16384, 0, one);
    TotalLengthIs(one);
    TornWire(c);
    assert Torn(16384, ItemsEnd(16384, 0, one), items[1]);
  }

  lemma LostBody(es: seq<Element>, e: Element, wire: seq<Byte>)
    requires AllEncodable(es) && AllEncodable(es + [e]) && Encodable(e) && AllBytes(es + [e]) == AllBytes(es) + Bytes(e)
    requires wire == AllBytes(es) + (Bytes(e) + Zeros(1))
    ensures wire + Zeros(3) == AllBytes(es + [e]) + Zeros(4)
  {
    assert Zeros(1) + Zeros(3) == Zeros(4);
    FourParts(AllBytes(es), Bytes(e), Zeros(1), Zeros(3));
    Associate(AllBytes(es), Bytes(e), Zeros(1));
    Associate(AllBytes(es) + Bytes(e), Zeros(1), Zeros(3));
  }

  lemma LongTextMeant(pen: Pen, chars: seq<Byte>, c: Byte)
    ensures DrawItems(pen, [TextItem(chars, 0, 0)]) == Typed(pen, chars)
    ensures DrawItems(pen, LongText(chars, c)) == Typed(Shifted(Typed(pen, chars), 1), [c])
    ensures |DrawItems(pen, LongText(chars, c)).glyphs| == |pen.glyphs| + |chars| + 1
  {
    var items := LongText(chars, c);
    var one := [items[0]];
    assert items[..1] == one && one[..0] == [];
    assert Shifted(pen, 0) == pen;
  }

  // ---------- a text that is too long for its length field ----------

  /** 270000 characters: no item is torn, but of 68032 words only 2496 are declared. */
  lemma TooLongText(chars: seq<Byte>, size: nat, p: nat)
    requires |chars| == 270000
    ensures var items := [TextItem(chars, 0, 0)];
      && !SomeTorn(size, p, items) && Words(items) == 68032 && Declared(Words(items)) == REQUEST_WORDS + 2496
      && Decode(Body(Sent(size, p, items), Declared(Words(items)))) != Decode(Padded(items))
  {
    var items := [TextItem(chars, 0, 0)];
    OneLength(items[0]);
    TooLong(items);
    ReadIff(size, p, items);
  }

  lemma TooLong(items: seq<TextItem>)
    requires TotalLength(items) == CharBytes(270000, false)
    ensures Words(items) == 68032 && Declared(Words(items)) == REQUEST_WORDS + 2496 && !Declarable(items)
  {
    assert CharBytes(270000, false) == 272126;
  }

  lemma OneLength(item: TextItem)
    ensures TotalLength([item]) == ItemLength(item)
  {
    assert [item][..0] == [];
  }

  /** A font shift, k times. */
  function Shifts(font: nat, k: nat): (es: seq<Element>)
    ensures |es| == k
  {
    if k == 0 then [] else Shifts(font, k - 1) + [FontShift(font)]
  }

  function EmptyItems(font: nat, k: nat): (items: seq<TextItem>)
    ensures |items| == k
  {
    if k == 0 then [] else EmptyItems(font, k - 1) + [TextItem([], 0, font)]
  }

  lemma {:induction false} ShiftsBytes(font: nat, k: nat)
    requires 0 < font < 0x1_0000_0000
    ensures AllEncodable(Shifts(font, k)) && |AllBytes(Shifts(font, k))| == 5 * k
  {
    if k > 0 {
      ShiftsBytes(font, k - 1);
      SnocBytes(Shifts(font, k - 1), font);
    }
  }

  lemma SnocBytes(es: seq<Element>, font: nat)
    requires AllEncodable(es) && 0 < font < 0x1_0000_0000
    ensures AllEncodable(es + [FontShift(font)]) && |AllBytes(es + [FontShift(font)])| == |AllBytes(es)| + 5
  {
    BytesSnoc(es, FontShift(font));
  }

  lemma {:induction false} ShiftsDraw(pen: Pen, font: nat, k: nat)
    ensures Draw(pen, Shifts(font, k)) == if k == 0 then pen else pen.(font := font)
  {
    if k > 0 {
      ShiftsDraw(pen, font, k - 1);
      DrawSnoc(pen, Shifts(font, k - 1), FontShift(font));
    }
  }

  lemma {:induction false} EmptyElements(font: nat, k: nat)
    requires 0 < font < 0x1_0000_0000
    ensures FontsFit(EmptyItems(font, k)) && ItemsElements(EmptyItems(font, k)) == Shifts(font, k)
  {
    if k > 0 {
      EmptyElements(font, k - 1);
      assert EmptyItems(font, k)[..k - 1] == EmptyItems(font, k - 1);
      assert ItemElements(TextItem([], 0, font)) == [FontShift(font)];
    }
  }

  lemma {:induction false} ShiftsJoin(font: nat, j: nat, n: nat)
    ensures Shifts(font, j) + Shifts(font, n) == Shifts(font, j + n)
  {
    if n > 0 { ShiftsJoin(font, j, n - 1); }
  }

  /** Fewer of them are at the front. */
  lemma ShiftsFront(font: nat, j: nat, k: nat)
    requires 0 < font < 0x1_0000_0000 && j <= k
    ensures AllEncodable(Shifts(font, j)) && AllEncodable(Shifts(font, k)) && AllBytes(Shifts(font, j)) <= AllBytes(Shifts(font, k))
  {
    ShiftsBytes(font, j);
    ShiftsBytes(font, k - j);
    ShiftsJoin(font, j, k - j);
    BytesJoin(Shifts(font, j), Shifts(font, k - j));
  }

  /** What is drawn can be the same although the server does not read what was meant: of 60000 shifts to the same font it
      takes 7571 for the body, and then the font is the same. */
  lemma DrawnAlthoughCut(font: nat, k: nat, size: nat, p: nat, pen: Pen)
    requires 0 < font < 0x1_0000_0000 && k == 60000
    ensures var items := EmptyItems(font, k);
      && FontsFit(items) && !Declarable(items)
      && Draw(pen, Decode(Body(Sent(size, p, items), Declared(Words(items))))) == DrawItems(pen, items)
  {
    var items := EmptyItems(font, k);
    EmptyElements(font, k);
    TotalLengthIs(items);
    ShiftsBytes(font, k);
    assert Words(items) == 75000;
    CutShifts(font, k, 7571, Declared(75000), size, p, pen);
  }

  lemma CutShifts(font: nat, k: nat, j: nat, declared: nat, size: nat, p: nat, pen: Pen)
    requires 0 < font < 0x1_0000_0000 && 0 < j < k && declared > REQUEST_WORDS && 4 * (declared - REQUEST_WORDS) == 5 * j + 1
    ensures FontsFit(EmptyItems(font, k))
    ensures Draw(pen, Decode(Body(Sent(size, p, EmptyItems(font, k)), declared))) == DrawItems(pen, EmptyItems(font, k))
  {
    var items, cut := EmptyItems(font, k), Shifts(font, j);
    EmptyElements(font, k);
    ItemsDraw(pen, items);
    ShiftsDraw(pen, font, k);
    ShiftsDraw(pen, font, j);
    CutBody(font, k, j, declared, size, p);
    DecodeCut(cut);
  }

  lemma DecodeCut(es: seq<Element>)
    requires AllEncodable(es)
    ensures Decode(AllBytes(es) + [FONT_CHANGE]) == es
  {
    DecodeAll(es, [FONT_CHANGE]);
    assert Decode([FONT_CHANGE]) == [];
    assert es + [] == es;
  }

  lemma CutBody(font: nat, k: nat, j: nat, declared: nat, size: nat, p: nat)
    requires 0 < font < 0x1_0000_0000 && 0 < j < k && declared > REQUEST_WORDS && 4 * (declared - REQUEST_WORDS) == 5 * j + 1
    ensures FontsFit(EmptyItems(font, k)) && AllEncodable(Shifts(font, j))
    ensures Body(Sent(size, p, EmptyItems(font, k)), declared) == AllBytes(Shifts(font, j)) + [FONT_CHANGE]
  {
    var items := EmptyItems(font, k);
    EmptyElements(font, k);
    TotalLengthIs(items);
    NoneTorn(size, p, font, k);
    SentIff(size, p, items);
    CutBytes(font, k, j, Padded(items));
  }

  lemma CutBytes(font: nat, k: nat, j: nat, bytes: seq<Byte>)
    requires 0 < font < 0x1_0000_0000 && 0 < j < k && AllEncodable(Shifts(font, k)) && AllBytes(Shifts(font, k)) <= bytes
    ensures AllEncodable(Shifts(font, j)) && 5 * j + 1 <= |bytes| && bytes[..5 * j + 1] == AllBytes(Shifts(font, j)) + [FONT_CHANGE]
  {
    ShiftsBytes(font, j);
    ShiftsFront(font, j + 1, k);
    BytesSnoc(Shifts(font, j), FontShift(font));
    CutWithin(AllBytes(Shifts(font, j)), Bytes(FontShift(font)), AllBytes(Shifts(font, k)), bytes);
  }

  lemma CutWithin(a: seq<Byte>, b: seq<Byte>, c: seq<Byte>, d: seq<Byte>)
    requires b != [] && a + b <= c <= d
    ensures |a| + 1 <= |d| && d[..|a| + 1] == a + [b[0]]
  {
    var n := |a| + 1;
    assert d[..n] == c[..n] == (a + b)[..n];
    assert (a + b)[..n] == a + [b[0]];
  }

  lemma NoneTorn(size: nat, p: nat, font: nat, k: nat)
    ensures !SomeTorn(size, p, EmptyItems(font, k))
  {
    EmptyItemsAre(font, k);
  }

  lemma {:induction false} EmptyItemsAre(font: nat, k: nat)
    ensures forall i :: 0 <= i < k ==> EmptyItems(font, k)[i] == TextItem([], 0, font)
  {
    if k > 0 { EmptyItemsAre(font, k - 1); }
  }
}
