/** Converting scanlines of bits between bit and byte orders (libX11 PutImage.c). */
module BitmapSwap {
  import opened Arith
  import opened Bits
  import opened Image
  import opened ImageLayout

  /** The order of the bits of a scanline: unit of 8, 16 or 32 bits, order of its bytes, order of its bits. */
  datatype ScanOrder = ScanOrder(unit: nat, byteOrder: Order, bitOrder: Order)
  {
    ghost predicate Valid() { unit in {8, 16, 32} }
  }

  /** The place of bit n of a scanline: the n-th from the left on the display. */
  function ScanSpot(f: ScanOrder, n: nat): Spot {
    Shifted(UnitStart(f.unit, n), UnitSpot(f.unit, f.byteOrder, f.bitOrder, UnitPos(f.unit, n)))
  }

  /** ComposeIndex */
  function ComposeIndex(f: ScanOrder): nat {
    (if f.unit == 32 then 2 else if f.unit == 16 then 1 else 0)
    + (if f.bitOrder == MSBFirst then 0 else 3) + (if f.byteOrder == MSBFirst then 0 else 6)
  }

  // ---------- the tables ----------

  /** The ordering table, formats 1Mm to 4Ll: the four bytes of 32 bits, each from its most significant bit
      to its least significant. */
  function OrderingTable(i: nat): seq<(nat, nat)> {
    if i == 3 then [(7, 0), (15, 8), (23, 16), (31, 24)]
    else if i == 4 then [(15, 8), (7, 0), (31, 24), (23, 16)]
    else if i == 5 then [(31, 24), (23, 16), (15, 8), (7, 0)]
    else if i == 7 then [(8, 15), (0, 7), (24, 31), (16, 23)]
    else if i == 8 then [(24, 31), (16, 23), (8, 15), (0, 7)]
    else if i >= 9 then [(7, 0), (15, 8), (23, 16), (31, 24)]
    else [(0, 7), (8, 15), (16, 23), (24, 31)]
  }

  /** The scanline bit at a bit of a byte, according to a table entry. */
  function TableBit(entry: (nat, nat), bit: nat): int {
    if entry.0 < entry.1 then entry.1 - bit else entry.1 + bit
  }

  /** The conversion routines. */
  datatype Swap = NoSwap | SwapTwoBytes | SwapFourBytes | SwapWords
                | SwapBits | SwapBitsAndTwoBytes | SwapBitsAndFourBytes | SwapBitsAndWords

  /** Row i of the table of routines. */
  function SwapRow(i: nat): seq<Swap> {
    var n, s, l, w := NoSwap, SwapTwoBytes, SwapFourBytes, SwapWords;
    var R, S, L, W := SwapBits, SwapBitsAndTwoBytes, SwapBitsAndFourBytes, SwapBitsAndWords;
    if i in {0, 1, 2, 6} then [n, n, n, R, S, L, n, s, l, R, R, R]
    else if i == 4 then [S, S, S, s, n, w, S, R, W, s, s, s]
    else if i == 5 then [L, L, L, l, w, n, L, W, R, l, l, l]
    else if i == 7 then [s, s, s, S, R, W, s, n, w, S, S, S]
    else if i == 8 then [l, l, l, L, W, R, l, w, n, L, L, L]
    else [R, R, R, n, s, l, R, S, L, n, n, n]
  }

  /** SwapFunction[a][b] */
  function SwapFunction(a: ScanOrder, b: ScanOrder): Swap
    requires a.Valid() && b.Valid()
  {
    SwapRow(ComposeIndex(a))[ComposeIndex(b)]
  }

  /** HalfOrder: whether the first half of a unit has the first half of the data. */
  function HalfOrder(i: nat): Order { if i in {4, 5, 7, 8} then MSBFirst else LSBFirst }

  function HalfOrderWord(i: nat): Order { if i in {5, 8} then LSBFirst else MSBFirst }

  /** The half order passed to the routine. */
  function PassedHalfOrder(a: ScanOrder, b: ScanOrder): Order {
    if HalfOrder(ComposeIndex(a)) == MSBFirst then HalfOrderWord(ComposeIndex(b)) else HalfOrder(ComposeIndex(a))
  }

  // ---------- what an order does to the bytes ----------

  /** How the bytes of an order are out of sequence: not at all, in pairs (1), or in fours (3). */
  function Twist(f: ScanOrder): (x: nat)
    ensures x in {0, 1, 3}
  {
    if f.byteOrder == f.bitOrder || f.unit == 8 then 0 else if f.unit == 16 then 1 else 3
  }

  /** Exchange x of four places: 1 in pairs, 2 of pairs, 3 both. */
  function FlipOfFour(r: nat, x: nat): (f: nat)
    requires r < 4 && x < 4
    ensures f < 4
  {
    if x == 0 then r
    else if x == 1 then if r == 0 then 1 else if r == 1 then 0 else if r == 2 then 3 else 2
    else if x == 2 then if r < 2 then r + 2 else r - 2
    else 3 - r
  }

  /** Exchange x of the places of each unit of four. */
  function Flip(i: nat, x: nat): nat
    requires x < 4
  {
    if i < 4 then FlipOfFour(i, x) else 4 + Flip(i - 4, x)
  }

  lemma {:induction false} FlipInFour(q: nat, i: nat, x: nat)
    requires i < 4 && x < 4
    ensures Flip(4 * q + i, x) == 4 * q + FlipOfFour(i, x)
  {
    if q > 0 { FlipInFour(q - 1, i, x); }
  }

  lemma {:induction false} FlipNone(i: nat)
    ensures Flip(i, 0) == i
  {
    if i >= 4 { FlipNone(i - 4); }
  }

  /** One exchange after another. */
  function Both(x: nat, y: nat): (z: nat)
    requires x < 4 && y < 4
    ensures z < 4
  {
    if x == y then 0 else if x == 0 then y else if y == 0 then x else 6 - x - y
  }

  lemma {:induction false} FlipBoth(i: nat, x: nat, y: nat)
    requires x < 4 && y < 4
    ensures Flip(Flip(i, x), y) == Flip(i, Both(x, y))
  {
    if i >= 4 { FlipBoth(i - 4, x, y); }
  }

  lemma UnitPeriod(unit: nat, q: nat, r: nat)
    requires unit in {8, 16, 32} && r < 32
    ensures UnitStart(unit, 32 * q + r) == 4 * q + UnitStart(unit, r) && UnitPos(unit, 32 * q + r) == UnitPos(unit, r)
  {
    var n := 32 * q + r;
    if unit == 8 {
      DivMod(4 * q + r / 8, 8, r % 8, n);
    } else if unit == 16 {
      DivMod(2 * q + r / 16, 16, r % 16, n);
    } else {
      DivMod(q, 32, r, n);
    }
  }

  /** Scanlines repeat every 32 bits. */
  lemma ScanSpotPeriod(f: ScanOrder, q: nat, r: nat)
    requires f.Valid() && r < 32
    ensures ScanSpot(f, 32 * q + r) == Shifted(4 * q, ScanSpot(f, r))
  {
    UnitPeriod(f.unit, q, r);
  }

  /** The place of bit j of byte m of a scanline, by the twist of its order. */
  function TwistedSpot(f: ScanOrder, m: nat, j: nat): Spot {
    Spot(Flip(m, Twist(f)), if f.bitOrder == MSBFirst then 7 - j else j)
  }

  lemma TwistOfFour(f: ScanOrder, r: nat)
    requires f.Valid() && r < 32
    ensures ScanSpot(f, r) == Spot(FlipOfFour(r / 8, Twist(f)), if f.bitOrder == MSBFirst then 7 - r % 8 else r % 8)
  {
    var p := UnitPos(f.unit, r);
    UnitOfBytes(f.unit, r);
    Opposite(f.unit, p);
    var b := p / 8;
    var start := UnitStart(f.unit, r);
    assert ScanSpot(f, r).byte == start + if f.byteOrder == f.bitOrder then b else f.unit / 8 - 1 - b;
    if f.unit == 16 { assert start in {0, 2}; }
    if f.unit == 32 { assert start == 0; }
  }

  /** The table is what the byte and bit orders mean: its entries lead from the most significant bit of each byte to
      the least. */
  lemma OrderingTableIsMeaning(f: ScanOrder, n: nat)
    requires f.Valid() && n < 32
    ensures var s := ScanSpot(f, n);
      && Inside(s, 4) && TableBit(OrderingTable(ComposeIndex(f))[s.byte], s.bit) == n
      && (s.bit == 7 ==> OrderingTable(ComposeIndex(f))[s.byte].0 == n)
      && (s.bit == 0 ==> OrderingTable(ComposeIndex(f))[s.byte].1 == n)
  {
    TwistOfFour(f, n);
  }

  /** An order exchanges the bytes, and reverses their bits if it starts with the most significant. */
  lemma ScanSpotTwist(f: ScanOrder, n: nat)
    requires f.Valid()
    ensures ScanSpot(f, n) == TwistedSpot(f, n / 8, n % 8)
  {
    var q, r := n / 32, n % 32;
    ScanSpotPeriod(f, q, r);
    TwistOfFour(f, r);
    ByteInFour(q, r);
    FlipInFour(q, r / 8, Twist(f));
  }

  lemma ByteInFour(q: nat, r: nat)
    requires r < 32
    ensures (32 * q + r) / 8 == 4 * q + r / 8 && (32 * q + r) % 8 == r % 8 && r / 8 < 4
  {
    DivMod(4 * q + r / 8, 8, r % 8, 32 * q + r);
  }

  /** The exchange of a routine. */
  function Exchange(k: Swap): (x: nat)
    ensures x < 4
  {
    match k
    case NoSwap => 0 case SwapBits => 0
    case SwapTwoBytes => 1 case SwapBitsAndTwoBytes => 1
    case SwapWords => 2 case SwapBitsAndWords => 2
    case SwapFourBytes => 3 case SwapBitsAndFourBytes => 3
  }

  predicate Reverses(k: Swap) { k.SwapBits? || k.SwapBitsAndTwoBytes? || k.SwapBitsAndFourBytes? || k.SwapBitsAndWords? }

  /** The table has, for every two orders, the routine that undoes the one and does the other. */
  lemma SwapFunctionIsRight(a: ScanOrder, b: ScanOrder)
    requires a.Valid() && b.Valid()
    ensures Exchange(SwapFunction(a, b)) == Both(Twist(a), Twist(b))
    ensures Reverses(SwapFunction(a, b)) == (a.bitOrder != b.bitOrder)
    ensures PassedHalfOrder(a, b) == if Twist(a) == 0 || Twist(b) == 3 then LSBFirst else MSBFirst
  {
  }

  // ---------- one scanline ----------

  /** The bytes a routine works through: srclen, rounded up to its unit. */
  function Rounded(k: Swap, srclen: nat): nat {
    if Exchange(k) == 0 then srclen else if Exchange(k) == 1 then (srclen + 1) / 2 * 2 else (srclen + 3) / 4 * 4
  }

  /** The last scanline ends in part of a unit, which the routine treats apart. */
  predicate Partial(k: Swap, srclen: nat, last: bool) { last && srclen != Rounded(k, srclen) }

  /** The whole units a routine works through. */
  function Whole(k: Swap, srclen: nat, last: bool): nat {
    if !Partial(k, srclen, last) then Rounded(k, srclen)
    else Rounded(k, srclen) - (if Exchange(k) == 1 then 2 else 4)
  }

  /** Which bytes of the part of a unit at the end are written, of t bytes of source. */
  predicate InPart(k: Swap, half: Order, t: nat, i: nat) {
    if Exchange(k) == 1 then i == if half == MSBFirst then 0 else 1
    else if Exchange(k) == 3 then
      || (half == MSBFirst && (i == 0 || (i == 1 && t >= 2) || (i == 2 && t == 3)))
      || (half == LSBFirst && (i == 3 || (i == 2 && t >= 2) || (i == 1 && t == 3)))
    else
      || (half == MSBFirst && (i == 1 || (i == 0 && t >= 2) || (i == 3 && t == 3)))
      || (half == LSBFirst && (i == 2 || (i == 3 && t >= 2) || (i == 0 && t == 3)))
  }

  /** Byte i of the destination is written, by a routine that works through `whole` bytes and then t bytes
      of a part of a unit. */
  predicate Assigned(k: Swap, half: Order, whole: nat, t: nat, i: nat) {
    i < whole || (t > 0 && InPart(k, half, t, i - whole))
  }

  /** The bytes of the part of a unit. */
  function Rest(k: Swap, srclen: nat, last: bool): nat {
    if Partial(k, srclen, last) then srclen - Whole(k, srclen, last) else 0
  }

  function At(s: seq<Byte>, i: nat): Byte { if i < |s| then s[i] else ZERO }

  function Moved(k: Swap, b: Byte): Byte { if Reverses(k) then Reverse(b) else b }

  /** What byte i of the destination is written with, for a source scanline that starts at s. */
  function Value(k: Swap, src: seq<Byte>, s: nat, i: nat): Byte { Moved(k, At(src, s + Flip(i, Exchange(k)))) }

  /** The first i bytes, and the bytes of the part of a unit, are written, and no others. */
  ghost predicate Swapped(k: Swap, half: Order, whole: nat, t: nat, src: seq<Byte>, s: nat, i: nat,
                          was: seq<Byte>, now: seq<Byte>, d: nat)
  {
    && |now| == |was|
    && forall j: nat {:trigger now[j]} :: j < |was| ==>
         now[j] == if j >= d && (j - d < i || (j - d >= whole && Assigned(k, half, whole, t, j - d)))
                   then Value(k, src, s, j - d) else was[j]
  }

  /** The scanline at d is the scanline at s converted. */
  ghost predicate RowSwapped(k: Swap, half: Order, whole: nat, t: nat, src: seq<Byte>, s: nat,
                             was: seq<Byte>, now: seq<Byte>, d: nat)
  {
    && |now| == |was|
    && forall j: nat {:trigger now[j]} :: j < |was| ==>
         now[j] == if j >= d && Assigned(k, half, whole, t, j - d) then Value(k, src, s, j - d) else was[j]
  }

  /** The source bytes a routine reads reach to here. */
  function SourceReach(k: Swap, half: Order, whole: nat, t: nat): nat {
    if t == 0 then whole else if half == LSBFirst then whole + t else whole + (if Exchange(k) == 1 then 2 else 4)
  }

  /** The destination bytes it writes reach to here. */
  function DestReach(k: Swap, half: Order, whole: nat, t: nat): nat {
    if t == 0 then whole
    else if half == MSBFirst && Exchange(k) != 2 then whole + t
    else whole + (if Exchange(k) == 1 then 2 else 4)
  }

  lemma OneMore(k: Swap, half: Order, whole: nat, t: nat, src: seq<Byte>, s: nat, i: nat, was: seq<Byte>, now: seq<Byte>, d: nat)
    requires Swapped(k, half, whole, t, src, s, i, was, now, d) && d + i < |was| && i < whole
    ensures Swapped(k, half, whole, t, src, s, i + 1, was, now[d + i := Value(k, src, s, i)], d)
  {
  }

  lemma AllDone(k: Swap, half: Order, whole: nat, t: nat, src: seq<Byte>, s: nat, was: seq<Byte>, now: seq<Byte>, d: nat)
    requires Swapped(k, half, whole, t, src, s, whole, was, now, d)
    ensures RowSwapped(k, half, whole, t, src, s, was, now, d)
  {
  }

  /** *dest++ = byte, where the byte is the one due. */
  method WriteNext(ghost k: Swap, ghost half: Order, ghost whole: nat, ghost t: nat, ghost src: seq<Byte>, ghost s0: nat,
                   dest: array<Byte>, ghost d0: nat, d: nat, ghost i: nat, byte: Byte, ghost was: seq<Byte>)
    requires d == d0 + i < dest.Length && i < whole && byte == Value(k, src, s0, i)
    requires Swapped(k, half, whole, t, src, s0, i, was, dest[..], d0)
    modifies dest
    ensures Swapped(k, half, whole, t, src, s0, i + 1, was, dest[..], d0)
  {
    OneMore(k, half, whole, t, src, s0, i, was, dest[..], d0);
    ghost var now := dest[..];
    dest[d] := byte;
    assert dest[..] == now[d := byte];
  }

  /** The places exchanged in pairs and in fours. */
  lemma FlipPair(q: nat)
    ensures Flip(2 * q, 1) == 2 * q + 1 && Flip(2 * q + 1, 1) == 2 * q
  {
    var h := q / 2;
    if q == 2 * h {
      FlipInFour(h, 0, 1);
      FlipInFour(h, 1, 1);
    } else {
      FlipInFour(h, 2, 1);
      FlipInFour(h, 3, 1);
    }
  }

  lemma FlipFour(q: nat)
    ensures Flip(4 * q, 2) == 4 * q + 2 && Flip(4 * q + 1, 2) == 4 * q + 3 && Flip(4 * q + 2, 2) == 4 * q && Flip(4 * q + 3, 2) == 4 * q + 1
    ensures Flip(4 * q, 3) == 4 * q + 3 && Flip(4 * q + 1, 3) == 4 * q + 2 && Flip(4 * q + 2, 3) == 4 * q + 1 && Flip(4 * q + 3, 3) == 4 * q
  {
    FlipInFour(q, 0, 2);
    FlipInFour(q, 1, 2);
    FlipInFour(q, 2, 2);
    FlipInFour(q, 3, 2);
    FlipInFour(q, 0, 3);
    FlipInFour(q, 1, 3);
    FlipInFour(q, 2, 3);
    FlipInFour(q, 3, 3);
  }

  /** The routines without exchange: SwapBits, and NoSwap on a scanline of its own. */
  method CopyScanline(k: Swap, src: array<Byte>, s0: nat, dest: array<Byte>, d0: nat, srclen: nat, half: Order)
    requires Exchange(k) == 0 && src != dest && s0 + srclen <= src.Length && d0 + srclen <= dest.Length
    modifies dest
    ensures RowSwapped(k, half, srclen, 0, src[..], s0, old(dest[..]), dest[..], d0)
  {
    var s, d, n: nat := s0, d0, srclen;
    ghost var from, was := src[..], dest[..];
    while n > 0
      invariant n <= srclen && s == s0 + (srclen - n) && d == d0 + (srclen - n) && src[..] == from
      invariant Swapped(k, half, srclen, 0, from, s0, srclen - n, was, dest[..], d0)
    {
      FlipNone(srclen - n);
      WriteNext(k, half, srclen, 0, from, s0, dest, d0, d, srclen - n, Moved(k, src[s]), was);
      s, d, n := s + 1, d + 1, n - 1;
    }
    AllDone(k, half, srclen, 0, from, s0, was, dest[..], d0);
  }

  /** SwapTwoBytes and SwapBitsAndTwoBytes: the byte of a pair at the end of the last scanline. */
  method PartOfPair(k: Swap, src: array<Byte>, s0: nat, dest: array<Byte>, d0: nat, length: nat, ghost q: nat, half: Order)
    requires Exchange(k) == 1 && src != dest && length == 2 * q
    requires s0 + SourceReach(k, half, length, 1) <= src.Length && d0 + DestReach(k, half, length, 1) <= dest.Length
    modifies dest
    ensures Swapped(k, half, length, 1, src[..], s0, 0, old(dest[..]), dest[..], d0)
  {
    FlipPair(q);
    if half == MSBFirst {
      dest[d0 + length] := Moved(k, src[s0 + length + 1]);
    } else {
      dest[d0 + length + 1] := Moved(k, src[s0 + length]);
    }
  }

  /** Their inner loop. */
  method SwapPairs(k: Swap, src: array<Byte>, s0: nat, dest: array<Byte>, d0: nat, length: nat, ghost q: nat, ghost t: nat,
                   half: Order, ghost was: seq<Byte>)
    requires Exchange(k) == 1 && src != dest && length == 2 * q && s0 + length <= src.Length && d0 + length <= dest.Length
    requires Swapped(k, half, length, t, src[..], s0, 0, was, dest[..], d0)
    modifies dest
    ensures RowSwapped(k, half, length, t, src[..], s0, was, dest[..], d0)
  {
    ghost var from := src[..];
    var s, d, n: nat := s0, d0, length;
    ghost var i: nat := 0;
    while n > 0
      invariant i <= q && n == 2 * (q - i) && s == s0 + 2 * i && d == d0 + 2 * i && src[..] == from
      invariant Swapped(k, half, length, t, from, s0, 2 * i, was, dest[..], d0)
    {
      FlipPair(i);
      WriteNext(k, half, length, t, from, s0, dest, d0, d, 2 * i, Moved(k, src[s + 1]), was);
      WriteNext(k, half, length, t, from, s0, dest, d0, d + 1, 2 * i + 1, Moved(k, src[s]), was);
      s, d, n := s + 2, d + 2, n - 2;
      i := i + 1;
    }
    AllDone(k, half, length, t, from, s0, was, dest[..], d0);
  }

  /** Four times *dest++ = byte. */
  method WriteFour(ghost k: Swap, ghost half: Order, ghost whole: nat, ghost t: nat, ghost src: seq<Byte>, ghost s0: nat,
                   dest: array<Byte>, ghost d0: nat, d: nat, ghost i: nat, b: seq<Byte>, ghost was: seq<Byte>)
    requires d == d0 + i && d + 4 <= dest.Length && i + 4 <= whole && |b| == 4
    requires b[0] == Value(k, src, s0, i) && b[1] == Value(k, src, s0, i + 1)
    requires b[2] == Value(k, src, s0, i + 2) && b[3] == Value(k, src, s0, i + 3)
    requires Swapped(k, half, whole, t, src, s0, i, was, dest[..], d0)
    modifies dest
    ensures Swapped(k, half, whole, t, src, s0, i + 4, was, dest[..], d0)
  {
    WriteNext(k, half, whole, t, src, s0, dest, d0, d, i, b[0], was);
    WriteNext(k, half, whole, t, src, s0, dest, d0, d + 1, i + 1, b[1], was);
    WriteNext(k, half, whole, t, src, s0, dest, d0, d + 2, i + 2, b[2], was);
    WriteNext(k, half, whole, t, src, s0, dest, d0, d + 3, i + 3, b[3], was);
  }

  /** What is written for a unit of four. */
  lemma FourValues(k: Swap, src: seq<Byte>, s: nat, q: nat)
    requires s + 4 * q + 4 <= |src| && Exchange(k) in {2, 3}
    ensures var at := s + 4 * q;
      Value(k, src, s, 4 * q) == Moved(k, src[if Exchange(k) == 3 then at + 3 else at + 2])
      && Value(k, src, s, 4 * q + 1) == Moved(k, src[if Exchange(k) == 3 then at + 2 else at + 3])
      && Value(k, src, s, 4 * q + 2) == Moved(k, src[if Exchange(k) == 3 then at + 1 else at])
      && Value(k, src, s, 4 * q + 3) == Moved(k, src[if Exchange(k) == 3 then at else at + 1])
  {
    FlipFour(q);
  }

  /** Byte i of the part of a unit at d is written from the part at s, or left. */
  ghost predicate PartByte(k: Swap, half: Order, t: nat, src: seq<Byte>, s: nat, was: seq<Byte>, now: seq<Byte>, d: nat, i: nat)
    requires i < 4 && |now| == |was|
  {
    d + i < |was| ==> now[d + i] == if InPart(k, half, t, i) then Moved(k, At(src, s + FlipOfFour(i, Exchange(k)))) else was[d + i]
  }

  ghost predicate PartBytes(k: Swap, half: Order, t: nat, src: seq<Byte>, s: nat, was: seq<Byte>, now: seq<Byte>, d: nat) {
    && |now| == |was|
    && (forall j: nat :: j < |was| && (j < d || j >= d + 4) ==> now[j] == was[j])
    && PartByte(k, half, t, src, s, was, now, d, 0) && PartByte(k, half, t, src, s, was, now, d, 1)
    && PartByte(k, half, t, src, s, was, now, d, 2) && PartByte(k, half, t, src, s, was, now, d, 3)
  }

  lemma PartOnly(k: Swap, half: Order, t: nat, i: nat)
    requires InPart(k, half, t, i)
    ensures i < 4
  {
  }

  lemma PartValue(k: Swap, src: seq<Byte>, s: nat, q: nat, i: nat)
    requires i < 4
    ensures Value(k, src, s, 4 * q + i) == Moved(k, At(src, s + 4 * q + FlipOfFour(i, Exchange(k))))
  {
    FlipInFour(q, i, Exchange(k));
  }

  lemma PartDone(k: Swap, half: Order, q: nat, t: nat, src: seq<Byte>, s: nat, was: seq<Byte>, now: seq<Byte>, d: nat)
    requires PartBytes(k, half, t, src, s + 4 * q, was, now, d + 4 * q) && t in {1, 2, 3}
    ensures Swapped(k, half, 4 * q, t, src, s, 0, was, now, d)
  {
    var whole := 4 * q;
    forall j: nat | j < |was|
      ensures now[j] == if j >= d && j - d >= whole && Assigned(k, half, whole, t, j - d) then Value(k, src, s, j - d) else was[j]
    {
      if d + whole <= j < d + whole + 4 {
        PartDoneByte(k, half, q, t, src, s, was, now, d, j - d - whole);
      } else if j >= d + whole + 4 {
        if InPart(k, half, t, j - d - whole) { PartOnly(k, half, t, j - d - whole); }
      }
    }
  }

  lemma PartDoneByte(k: Swap, half: Order, q: nat, t: nat, src: seq<Byte>, s: nat, was: seq<Byte>, now: seq<Byte>, d: nat, i: nat)
    requires PartBytes(k, half, t, src, s + 4 * q, was, now, d + 4 * q) && t in {1, 2, 3} && i < 4 && d + 4 * q + i < |was|
    ensures now[d + 4 * q + i] == if Assigned(k, half, 4 * q, t, 4 * q + i) then Value(k, src, s, 4 * q + i) else was[d + 4 * q + i]
  {
    PartValue(k, src, s, q, i);
    assert PartByte(k, half, t, src, s + 4 * q, was, now, d + 4 * q, i) by {
      if i == 0 {} else if i == 1 {} else if i == 2 {} else {}
    }
  }

  /** *(dest + d) = *(src + s), under a condition. */
  method MoveIf(moved: bool, k: Swap, src: array<Byte>, s: nat, dest: array<Byte>, d: nat)
    requires src != dest && (moved ==> s < src.Length && d < dest.Length)
    modifies dest
    ensures forall j :: 0 <= j < dest.Length && j != d ==> dest[j] == old(dest[j])
    ensures d < dest.Length ==> dest[d] == if moved then Moved(k, src[s]) else old(dest[d])
  {
    if moved {
      dest[d] := Moved(k, src[s]);
    }
  }

  /** SwapFourBytes and SwapBitsAndFourBytes: the bytes of a unit at the end of the last scanline. */
  method PartOfFour(k: Swap, src: array<Byte>, s: nat, dest: array<Byte>, d: nat, t: nat, half: Order)
    requires Exchange(k) == 3 && src != dest && 1 <= t <= 3
    requires s + SourceReach(k, half, 0, t) <= src.Length && d + DestReach(k, half, 0, t) <= dest.Length
    modifies dest
    ensures PartBytes(k, half, t, src[..], s, old(dest[..]), dest[..], d)
  {
    ghost var was := dest[..];
    MoveIf(half == MSBFirst, k, src, s + 3, dest, d);
    MoveIf((half == LSBFirst && t == 3) || (half == MSBFirst && t >= 2), k, src, s + 2, dest, d + 1);
    MoveIf((half == MSBFirst && t == 3) || (half == LSBFirst && t >= 2), k, src, s + 1, dest, d + 2);
    MoveIf(half == LSBFirst, k, src, s, dest, d + 3);
    FourPart(k, half, t, src[..], s, was, dest[..], d);
  }

  lemma FourPart(k: Swap, half: Order, t: nat, src: seq<Byte>, s: nat, was: seq<Byte>, now: seq<Byte>, d: nat)
    requires Exchange(k) == 3 && 1 <= t <= 3 && |was| == |now|
    requires forall j: nat :: j < |was| && (j < d || j >= d + 4) ==> now[j] == was[j]
    requires d < |was| ==> now[d] == if half == MSBFirst then Moved(k, At(src, s + 3)) else was[d]
    requires d + 1 < |was| ==>
      now[d + 1] == if (half == LSBFirst && t == 3) || (half == MSBFirst && t >= 2) then Moved(k, At(src, s + 2)) else was[d + 1]
    requires d + 2 < |was| ==>
      now[d + 2] == if (half == MSBFirst && t == 3) || (half == LSBFirst && t >= 2) then Moved(k, At(src, s + 1)) else was[d + 2]
    requires d + 3 < |was| ==> now[d + 3] == if half == LSBFirst then Moved(k, At(src, s)) else was[d + 3]
    ensures PartBytes(k, half, t, src, s, was, now, d)
  {
  }

  /** Their inner loop. */
  method SwapFours(k: Swap, src: array<Byte>, s0: nat, dest: array<Byte>, d0: nat, length: nat, ghost q: nat, ghost t: nat,
                   half: Order, ghost was: seq<Byte>)
    requires Exchange(k) == 3 && src != dest && length == 4 * q && s0 + length <= src.Length && d0 + length <= dest.Length
    requires Swapped(k, half, length, t, src[..], s0, 0, was, dest[..], d0)
    modifies dest
    ensures RowSwapped(k, half, length, t, src[..], s0, was, dest[..], d0)
  {
    ghost var from := src[..];
    var s, d, n: nat := s0, d0, length;
    ghost var i: nat := 0;
    while n > 0
      invariant i <= q && n == 4 * (q - i) && s == s0 + 4 * i && d == d0 + 4 * i && src[..] == from
      invariant Swapped(k, half, length, t, from, s0, 4 * i, was, dest[..], d0)
    {
      FourValues(k, from, s0, i);
      WriteFour(k, half, length, t, from, s0, dest, d0, d, 4 * i,
                [Moved(k, src[s + 3]), Moved(k, src[s + 2]), Moved(k, src[s + 1]), Moved(k, src[s])], was);
      s, d, n := s + 4, d + 4, n - 4;
      i := i + 1;
    }
    AllDone(k, half, length, t, from, s0, was, dest[..], d0);
  }

  /** SwapWords and SwapBitsAndWords: the bytes of a unit at the end of the last scanline. */
  method PartOfWords(k: Swap, src: array<Byte>, s: nat, dest: array<Byte>, d: nat, t: nat, half: Order)
    requires Exchange(k) == 2 && src != dest && 1 <= t <= 3
    requires s + (if half == LSBFirst then t else 4) <= src.Length && d + 4 <= dest.Length
    modifies dest
    ensures PartBytes(k, half, t, src[..], s, old(dest[..]), dest[..], d)
  {
    ghost var was := dest[..];
    MoveIf(half == MSBFirst, k, src, s + 3, dest, d + 1);
    MoveIf((half == LSBFirst && t == 3) || (half == MSBFirst && t >= 2), k, src, s + 2, dest, d);
    MoveIf((half == MSBFirst && t == 3) || (half == LSBFirst && t >= 2), k, src, s + 1, dest, d + 3);
    MoveIf(half == LSBFirst, k, src, s, dest, d + 2);
    WordPart(k, half, t, src[..], s, was, dest[..], d);
  }

  lemma WordPart(k: Swap, half: Order, t: nat, src: seq<Byte>, s: nat, was: seq<Byte>, now: seq<Byte>, d: nat)
    requires Exchange(k) == 2 && 1 <= t <= 3 && d + 4 <= |was| == |now|
    requires forall j: nat :: j < |was| && (j < d || j >= d + 4) ==> now[j] == was[j]
    requires now[d + 1] == if half == MSBFirst then Moved(k, At(src, s + 3)) else was[d + 1]
    requires now[d] == if (half == LSBFirst && t == 3) || (half == MSBFirst && t >= 2) then Moved(k, At(src, s + 2)) else was[d]
    requires now[d + 3] == if (half == MSBFirst && t == 3) || (half == LSBFirst && t >= 2) then Moved(k, At(src, s + 1)) else was[d + 3]
    requires now[d + 2] == if half == LSBFirst then Moved(k, At(src, s)) else was[d + 2]
    ensures PartBytes(k, half, t, src, s, was, now, d)
  {
  }

  /** Their inner loop. */
  method SwapWordPairs(k: Swap, src: array<Byte>, s0: nat, dest: array<Byte>, d0: nat, length: nat, ghost q: nat, ghost t: nat,
                   half: Order, ghost was: seq<Byte>)
    requires Exchange(k) == 2 && src != dest && length == 4 * q && s0 + length <= src.Length && d0 + length <= dest.Length
    requires Swapped(k, half, length, t, src[..], s0, 0, was, dest[..], d0)
    modifies dest
    ensures RowSwapped(k, half, length, t, src[..], s0, was, dest[..], d0)
  {
    ghost var from := src[..];
    var s, d, n: nat := s0, d0, length;
    ghost var i: nat := 0;
    while n > 0
      invariant i <= q && n == 4 * (q - i) && s == s0 + 4 * i && d == d0 + 4 * i && src[..] == from
      invariant Swapped(k, half, length, t, from, s0, 4 * i, was, dest[..], d0)
    {
      FourValues(k, from, s0, i);
      WriteFour(k, half, length, t, from, s0, dest, d0, d, 4 * i,
                [Moved(k, src[s + 2]), Moved(k, src[s + 3]), Moved(k, src[s]), Moved(k, src[s + 1])], was);
      s, d, n := s + 4, d + 4, n - 4;
      i := i + 1;
    }
    AllDone(k, half, length, t, from, s0, was, dest[..], d0);
  }

  lemma Unstarted(k: Swap, half: Order, whole: nat, src: seq<Byte>, s: nat, was: seq<Byte>, d: nat)
    ensures Swapped(k, half, whole, 0, src, s, 0, was, was, d)
  {
  }

  lemma Units(k: Swap, srclen: nat, last: bool)
    ensures var whole, t := Whole(k, srclen, last), Rest(k, srclen, last);
      && whole == (if t == 0 then Rounded(k, srclen) else srclen - t)
      && (Partial(k, srclen, last) <==> t != 0)
      && (t != 0 ==> Rounded(k, srclen) == whole + if Exchange(k) == 1 then 2 else 4)
      && (Exchange(k) == 1 ==> whole % 2 == 0 && t <= 1) && (Exchange(k) > 1 ==> whole % 4 == 0 && t <= 3)
      && (Exchange(k) == 0 ==> t == 0)
  {
  }

  /** One turn of the outer loop of SwapTwoBytes and SwapBitsAndTwoBytes: whole units, and t bytes of one more. */
  method PairScanline(k: Swap, src: array<Byte>, s0: nat, dest: array<Byte>, d0: nat, length: nat, ghost q: nat, t: nat, half: Order)
    requires Exchange(k) == 1 && src != dest && length == 2 * q && t <= 1
    requires s0 + SourceReach(k, half, length, t) <= src.Length && d0 + DestReach(k, half, length, t) <= dest.Length
    modifies dest
    ensures RowSwapped(k, half, length, t, src[..], s0, old(dest[..]), dest[..], d0)
  {
    ghost var from, was := src[..], dest[..];
    if t > 0 {
      PartOfPair(k, src, s0, dest, d0, length, q, half);
    } else {
      Unstarted(k, half, length, from, s0, was, d0);
    }
    SwapPairs(k, src, s0, dest, d0, length, q, t, half, was);
  }

  /** One turn of the outer loop of SwapFourBytes and SwapBitsAndFourBytes: whole units, and t bytes of one more. */
  method FourScanline(k: Swap, src: array<Byte>, s0: nat, dest: array<Byte>, d0: nat, length: nat, ghost q: nat, t: nat, half: Order)
    requires Exchange(k) == 3 && src != dest && length == 4 * q && t <= 3
    requires s0 + SourceReach(k, half, length, t) <= src.Length && d0 + DestReach(k, half, length, t) <= dest.Length
    modifies dest
    ensures RowSwapped(k, half, length, t, src[..], s0, old(dest[..]), dest[..], d0)
  {
    ghost var from, was := src[..], dest[..];
    if t > 0 {
      PartOfFour(k, src, s0 + length, dest, d0 + length, t, half);
      PartDone(k, half, q, t, from, s0, was, dest[..], d0);
    } else {
      Unstarted(k, half, length, from, s0, was, d0);
    }
    SwapFours(k, src, s0, dest, d0, length, q, t, half, was);
  }

  /** One turn of the outer loop of SwapWords and SwapBitsAndWords: whole units, and t bytes of one more. */
  method WordScanline(k: Swap, src: array<Byte>, s0: nat, dest: array<Byte>, d0: nat, length: nat, ghost q: nat, t: nat, half: Order)
    requires Exchange(k) == 2 && src != dest && length == 4 * q && t <= 3
    requires s0 + SourceReach(k, half, length, t) <= src.Length && d0 + DestReach(k, half, length, t) <= dest.Length
    modifies dest
    ensures RowSwapped(k, half, length, t, src[..], s0, old(dest[..]), dest[..], d0)
  {
    ghost var from, was := src[..], dest[..];
    if t > 0 {
      PartOfWords(k, src, s0 + length, dest, d0 + length, t, half);
      PartDone(k, half, q, t, from, s0, was, dest[..], d0);
    } else {
      Unstarted(k, half, length, from, s0, was, d0);
    }
    SwapWordPairs(k, src, s0, dest, d0, length, q, t, half, was);
  }

  /** One turn of the outer loop of the routine k. */
  method SwapScanline(k: Swap, src: array<Byte>, s0: nat, dest: array<Byte>, d0: nat, srclen: nat, last: bool, half: Order)
    requires src != dest
    requires s0 + SourceReach(k, half, Whole(k, srclen, last), Rest(k, srclen, last)) <= src.Length
    requires d0 + DestReach(k, half, Whole(k, srclen, last), Rest(k, srclen, last)) <= dest.Length
    modifies dest
    ensures RowSwapped(k, half, Whole(k, srclen, last), Rest(k, srclen, last), src[..], s0, old(dest[..]), dest[..], d0)
  {
    Units(k, srclen, last);
    var length, t := Rounded(k, srclen), 0;
    if last && srclen != length {
      length := length - if Exchange(k) == 1 then 2 else 4;
      t := srclen - length;
    }
    match k {
      case NoSwap => CopyScanline(k, src, s0, dest, d0, srclen, half);
      case SwapBits => CopyScanline(k, src, s0, dest, d0, srclen, half);
      case SwapTwoBytes => PairScanline(k, src, s0, dest, d0, length, length / 2, t, half);
      case SwapBitsAndTwoBytes => PairScanline(k, src, s0, dest, d0, length, length / 2, t, half);
      case SwapFourBytes => FourScanline(k, src, s0, dest, d0, length, length / 4, t, half);
      case SwapBitsAndFourBytes => FourScanline(k, src, s0, dest, d0, length, length / 4, t, half);
      case SwapWords => WordScanline(k, src, s0, dest, d0, length, length / 4, t, half);
      case SwapBitsAndWords => WordScanline(k, src, s0, dest, d0, length, length / 4, t, half);
    }
  }
}
