/** Copying a string of bits into a string of bytes (_putbits, libX11 ImUtil.c). */
module BitCopy {
  import opened Arith
  import opened Bits

  function BitAt(s: seq<Byte>, j: nat): bool
    requires j < 8 * |s|
  {
    s[j / 8][j % 8]
  }

  lemma BitAtByte(s: seq<Byte>, b: nat, i: nat)
    requires b < |s| && i < 8
    ensures BitAt(s, 8 * b + i) == s[b][i]
  {
  }

  /** Bit j of the destination after n bits of src have been copied to bit offset. */
  function CopiedBit(src: seq<Byte>, offset: nat, n: nat, was: seq<Byte>, j: nat): bool
    requires n <= 8 * |src| && j < 8 * |was|
  {
    if offset <= j < offset + n then BitAt(src, j - offset) else BitAt(was, j)
  }

  ghost predicate CopiedByte(src: seq<Byte>, offset: nat, n: nat, was: seq<Byte>, b: nat, byte: Byte)
    requires n <= 8 * |src| && b < |was|
  {
    forall i: nat :: i < 8 ==> byte[i] == CopiedBit(src, offset, n, was, 8 * b + i)
  }

  ghost predicate Copied(src: seq<Byte>, offset: nat, n: nat, was: seq<Byte>, now: seq<Byte>)
    requires n <= 8 * |src|
  {
    |now| == |was| && forall b: nat :: b < |was| ==> CopiedByte(src, offset, n, was, b, now[b])
  }

  /** The bits of the next source byte that go to destination byte d: those from offset % 8 up. */
  lemma UpperBits(src: seq<Byte>, offset: nat, n: nat, was: seq<Byte>, s: nat, i: nat)
    requires n <= 8 * |src| && s < |src| && offset % 8 <= i < 8 && offset / 8 + s < |was| && 8 * s < n
    ensures CopiedBit(src, offset, n, was, 8 * (offset / 8 + s) + i) ==
      if i - offset % 8 < n - 8 * s then src[s][i - offset % 8] else was[offset / 8 + s][i]
  {
    var j := 8 * (offset / 8 + s) + i;
    BitAtByte(was, offset / 8 + s, i);
    assert j - offset == 8 * s + (i - offset % 8);
    BitAtByte(src, s, i - offset % 8);
  }

  /** The bits of the source byte before destination byte d that spill into it: those below offset % 8. */
  lemma LowerBits(src: seq<Byte>, offset: nat, n: nat, was: seq<Byte>, s: nat, i: nat)
    requires n <= 8 * |src| && s < |src| && i < offset % 8 && offset / 8 + s + 1 < |was| && 8 * s + 8 - offset % 8 < n
    ensures CopiedBit(src, offset, n, was, 8 * (offset / 8 + s + 1) + i) ==
      if i < n - 8 * s - (8 - offset % 8) then src[s][i + 8 - offset % 8] else was[offset / 8 + s + 1][i]
  {
    var j := 8 * (offset / 8 + s + 1) + i;
    BitAtByte(was, offset / 8 + s + 1, i);
    assert j - offset == 8 * s + (i + 8 - offset % 8);
    BitAtByte(src, s, i + 8 - offset % 8);
  }

  lemma OutsideBits(src: seq<Byte>, offset: nat, n: nat, was: seq<Byte>, b: nat, i: nat)
    requires n <= 8 * |src| && b < |was| && i < 8 && (8 * b + i < offset || 8 * b + i >= offset + n)
    ensures CopiedBit(src, offset, n, was, 8 * b + i) == was[b][i]
  {
    BitAtByte(was, b, i);
  }

  /** What the loop carries from one source byte to the next destination byte. */
  ghost predicate Carried(src: seq<Byte>, offset: nat, n: nat, was: seq<Byte>, b: nat, carry: Byte)
    requires n <= 8 * |src| && b < |was|
  {
    forall i: nat :: i < 8 ==> carry[i] == (i < offset % 8 && CopiedBit(src, offset, n, was, 8 * b + i))
  }

  /** Destination bytes up to `to` are done and the others untouched. */
  ghost predicate Progress(src: seq<Byte>, offset: nat, n: nat, was: seq<Byte>, to: nat, now: seq<Byte>)
    requires n <= 8 * |src|
  {
    && |now| == |was|
    && (forall b: nat {:trigger now[b]} :: b < to && b < |was| ==> CopiedByte(src, offset, n, was, b, now[b]))
    && (forall b {:trigger now[b]} :: to <= b < |was| ==> now[b] == was[b])
  }

  lemma Start(src: seq<Byte>, offset: nat, n: nat, was: seq<Byte>)
    requires n <= 8 * |src| && offset / 8 < |was|
    ensures Progress(src, offset, n, was, offset / 8, was)
    ensures Carried(src, offset, n, was, offset / 8, And(was[offset / 8], LowMask(offset % 8)))
  {
    forall b: nat | b < offset / 8
      ensures CopiedByte(src, offset, n, was, b, was[b])
    {
      forall i: nat | i < 8
        ensures was[b][i] == CopiedBit(src, offset, n, was, 8 * b + i)
      {
        OutsideBits(src, offset, n, was, b, i);
      }
    }
    StartCarried(src, offset, n, was);
  }

  lemma StartCarried(src: seq<Byte>, offset: nat, n: nat, was: seq<Byte>)
    requires n <= 8 * |src| && offset / 8 < |was|
    ensures Carried(src, offset, n, was, offset / 8, And(was[offset / 8], LowMask(offset % 8)))
  {
    var d, o := offset / 8, offset % 8;
    var carry := And(was[d], LowMask(o));
    forall i: nat | i < 8
      ensures carry[i] == (i < o && CopiedBit(src, offset, n, was, 8 * d + i))
    {
      if i < o { OutsideBits(src, offset, n, was, d, i); }
    }
  }

  /** Upper part of a destination byte. */
  function UpperPart(src: Byte, offset: nat): Byte { And(ShiftLeft(src, offset), HighMask(offset)) }

  /** Lower part of the next destination byte. */
  function SpilledPart(src: Byte, hibits: nat): Byte { ShiftRight(And(src, HighMask(hibits)), hibits) }

  lemma FullByte(src: seq<Byte>, offset: nat, n: nat, was: seq<Byte>, s: nat, carry: Byte)
    requires n <= 8 * |src| && 8 * s + 8 - offset % 8 < n && offset / 8 + s + 1 < |was|
    requires Carried(src, offset, n, was, offset / 8 + s, carry)
    ensures CopiedByte(src, offset, n, was, offset / 8 + s, Or(UpperPart(src[s], offset % 8), carry))
  {
    var d, o := offset / 8 + s, offset % 8;
    var byte := Or(UpperPart(src[s], o), carry);
    forall i: nat | i < 8
      ensures byte[i] == CopiedBit(src, offset, n, was, 8 * d + i)
    {
      if i >= o { UpperBits(src, offset, n, was, s, i); }
    }
  }

  lemma LastUpper(src: seq<Byte>, offset: nat, n: nat, was: seq<Byte>, s: nat, carry: Byte)
    requires n <= 8 * |src| && 8 * s < n <= 8 * s + 8 - offset % 8 && offset / 8 + s < |was|
    requires Carried(src, offset, n, was, offset / 8 + s, carry)
    ensures var o, m := offset % 8, n - 8 * s;
      CopiedByte(src, offset, n, was, offset / 8 + s,
                 Or(Or(And(was[offset / 8 + s], HighMask(o + m)), carry), And(UpperPart(src[s], o), LowMask(o + m))))
  {
    var d, o, m := offset / 8 + s, offset % 8, n - 8 * s;
    var byte := Or(Or(And(was[d], HighMask(o + m)), carry), And(UpperPart(src[s], o), LowMask(o + m)));
    forall i: nat | i < 8
      ensures byte[i] == CopiedBit(src, offset, n, was, 8 * d + i)
    {
      if i >= o { UpperBits(src, offset, n, was, s, i); }
    }
  }

  lemma Spill(src: seq<Byte>, offset: nat, n: nat, was: seq<Byte>, s: nat)
    requires n <= 8 * |src| && 8 * s + 8 < n && offset / 8 + s + 1 < |was|
    ensures Carried(src, offset, n, was, offset / 8 + s + 1, SpilledPart(src[s], 8 - offset % 8))
  {
    var d, o := offset / 8 + s + 1, offset % 8;
    var byte := SpilledPart(src[s], 8 - o);
    forall i: nat | i < 8
      ensures byte[i] == (i < o && CopiedBit(src, offset, n, was, 8 * d + i))
    {
      if i < o { LowerBits(src, offset, n, was, s, i); }
    }
  }

  lemma LastLower(src: seq<Byte>, offset: nat, n: nat, was: seq<Byte>, s: nat)
    requires n <= 8 * |src| && 8 * s + 8 - offset % 8 < n <= 8 * s + 8 && offset / 8 + s + 1 < |was|
    ensures var o, m, d := offset % 8, n - 8 * s - (8 - offset % 8), offset / 8 + s + 1;
      CopiedByte(src, offset, n, was, d, Or(And(was[d], HighMask(m)), And(SpilledPart(src[s], 8 - o), LowMask(m))))
  {
    var o, m, d := offset % 8, n - 8 * s - (8 - offset % 8), offset / 8 + s + 1;
    var byte := Or(And(was[d], HighMask(m)), And(SpilledPart(src[s], 8 - o), LowMask(m)));
    forall i: nat | i < 8
      ensures byte[i] == CopiedBit(src, offset, n, was, 8 * d + i)
    {
      if i < o { LowerBits(src, offset, n, was, s, i); } else { OutsideBits(src, offset, n, was, d, i); }
    }
  }

  lemma OneMore(src: seq<Byte>, offset: nat, n: nat, was: seq<Byte>, to: nat, now: seq<Byte>, byte: Byte)
    requires n <= 8 * |src| && Progress(src, offset, n, was, to, now) && to < |was|
    requires CopiedByte(src, offset, n, was, to, byte)
    ensures Progress(src, offset, n, was, to + 1, now[to := byte])
  {
  }

  /** Nothing is copied past the last bit. */
  lemma Last(src: seq<Byte>, offset: nat, n: nat, was: seq<Byte>, to: nat, now: seq<Byte>, byte: Byte)
    requires n <= 8 * |src| && Progress(src, offset, n, was, to, now) && to < |was| && 8 * (to + 1) >= offset + n
    requires CopiedByte(src, offset, n, was, to, byte)
    ensures Copied(src, offset, n, was, now[to := byte])
  {
    forall b: nat | to < b < |was|
      ensures CopiedByte(src, offset, n, was, b, now[b])
    {
      forall i: nat | i < 8
        ensures CopiedBit(src, offset, n, was, 8 * b + i) == was[b][i]
      {
        OutsideBits(src, offset, n, was, b, i);
      }
    }
  }

  /** The copy ends within the upper part of a byte. */
  method EndUpper(src: seq<Byte>, ghost dstoffset: nat, ghost numbits: nat, ghost was: seq<Byte>,
                  s: nat, d: nat, offset: nat, n: nat, chlo: Byte, dst: array<Byte>)
    requires offset == dstoffset % 8 && d == dstoffset / 8 + s && 8 * s + n == numbits && 0 < n <= 8 - offset
    requires numbits <= 8 * |src| && d < dst.Length
    requires Progress(src, dstoffset, numbits, was, d, dst[..]) && Carried(src, dstoffset, numbits, was, d, chlo)
    modifies dst
    ensures Copied(src, dstoffset, numbits, was, dst[..])
  {
    LastUpper(src, dstoffset, numbits, was, s, chlo);
    var chhi := And(UpperPart(src[s], offset), LowMask(offset + n));
    StoreLast(src, dstoffset, numbits, was, d, Or(Or(And(dst[d], HighMask(offset + n)), chlo), chhi), dst);
  }

  /** The copy ends within the lower part of the byte after that of source byte s. */
  method EndLower(src: seq<Byte>, ghost dstoffset: nat, ghost numbits: nat, ghost was: seq<Byte>,
                  s: nat, d: nat, offset: nat, n: nat, dst: array<Byte>)
    requires offset == dstoffset % 8 && d == dstoffset / 8 + s + 1 && 8 * s + 8 - offset + n == numbits && 0 < n <= offset
    requires numbits <= 8 * |src| && d < dst.Length
    requires Progress(src, dstoffset, numbits, was, d, dst[..])
    modifies dst
    ensures Copied(src, dstoffset, numbits, was, dst[..])
  {
    LastLower(src, dstoffset, numbits, was, s);
    var chlo := And(SpilledPart(src[s], 8 - offset), LowMask(n));
    StoreLast(src, dstoffset, numbits, was, d, Or(And(dst[d], HighMask(n)), chlo), dst);
  }

  /** The last destination byte. */
  method StoreLast(src: seq<Byte>, ghost dstoffset: nat, ghost numbits: nat, ghost was: seq<Byte>, d: nat, byte: Byte, dst: array<Byte>)
    requires numbits <= 8 * |src| && d < dst.Length && 8 * (d + 1) >= dstoffset + numbits
    requires Progress(src, dstoffset, numbits, was, d, dst[..]) && CopiedByte(src, dstoffset, numbits, was, d, byte)
    modifies dst
    ensures Copied(src, dstoffset, numbits, was, dst[..])
  {
    ghost var now := dst[..];
    dst[d] := byte;
    assert dst[..] == now[d := byte];
    Last(src, dstoffset, numbits, was, d, now, byte);
  }

  /** _putbits: copies numbits bits of src to bit dstoffset of dst. */
  method PutBits(src: seq<Byte>, dstoffset: nat, numbits: nat, dst: array<Byte>)
    requires 0 < numbits <= 8 * |src| && dstoffset + numbits <= 8 * dst.Length
    modifies dst
    ensures Copied(src, dstoffset, numbits, old(dst[..]), dst[..])
  {
    ghost var was := dst[..];
    Start(src, dstoffset, numbits, was);
    var d: nat := dstoffset / 8;
    var offset := dstoffset % 8;
    var s: nat, n: nat := 0, numbits;
    var chlo := And(dst[d], LowMask(offset));
    var done := false;
    while !done
      invariant done ==> Copied(src, dstoffset, numbits, was, dst[..])
      invariant !done ==> Copying(src, dstoffset, numbits, was, s, d, n, chlo, dst[..])
      decreases if done then 0 else n
    {
      done, s, d, n, chlo := CopyByte(src, dstoffset, numbits, was, s, d, offset, n, chlo, dst);
    }
  }

  /** The copy so far: source bytes before s are done, n bits are left, chlo goes to the lower part of byte d. */
  ghost predicate Copying(src: seq<Byte>, dstoffset: nat, numbits: nat, was: seq<Byte>, s: nat, d: nat, n: nat, chlo: Byte, now: seq<Byte>) {
    && numbits <= 8 * |src| && dstoffset + numbits <= 8 * |was|
    && d == dstoffset / 8 + s && 8 * s + n == numbits && n > 0 && d < |was|
    && Progress(src, dstoffset, numbits, was, d, now) && Carried(src, dstoffset, numbits, was, d, chlo)
  }

  /** One turn of the loop: the bits of source byte s. */
  method CopyByte(src: seq<Byte>, ghost dstoffset: nat, ghost numbits: nat, ghost was: seq<Byte>,
                  s0: nat, d0: nat, offset: nat, n0: nat, chlo0: Byte, dst: array<Byte>)
    returns (done: bool, s: nat, d: nat, n: nat, chlo: Byte)
    requires offset == dstoffset % 8 && Copying(src, dstoffset, numbits, was, s0, d0, n0, chlo0, dst[..])
    modifies dst
    ensures done ==> Copied(src, dstoffset, numbits, was, dst[..])
    ensures !done ==> n < n0 && Copying(src, dstoffset, numbits, was, s, d, n, chlo, dst[..])
  {
    var hibits := 8 - offset;
    s, d, n, chlo := s0, d0, n0, chlo0;
    if n <= hibits {
      EndUpper(src, dstoffset, numbits, was, s, d, offset, n, chlo, dst);
      return true, s, d, n, chlo;
    }
    StoreFull(src, dstoffset, numbits, was, s, d, offset, chlo, dst);
    d := d + 1;
    n := n - hibits;
    if n <= offset {
      EndLower(src, dstoffset, numbits, was, s, d, offset, n, dst);
      return true, s, d, n, chlo;
    }
    Spill(src, dstoffset, numbits, was, s);
    chlo := SpilledPart(src[s], hibits);
    s := s + 1;
    n := n - offset;
    done := false;
  }

  /** A destination byte with the upper bits of this source byte and the lower ones of the byte before. */
  method StoreFull(src: seq<Byte>, ghost dstoffset: nat, ghost numbits: nat, ghost was: seq<Byte>,
                   s: nat, d: nat, offset: nat, chlo: Byte, dst: array<Byte>)
    requires offset == dstoffset % 8 && numbits <= 8 * |src| && d == dstoffset / 8 + s && d + 1 < |was|
    requires 8 * s + 8 - offset < numbits
    requires Progress(src, dstoffset, numbits, was, d, dst[..]) && Carried(src, dstoffset, numbits, was, d, chlo)
    modifies dst
    ensures Progress(src, dstoffset, numbits, was, d + 1, dst[..])
  {
    ghost var now := dst[..];
    var byte := Or(UpperPart(src[s], offset), chlo);
    FullByte(src, dstoffset, numbits, was, s, chlo);
    dst[d] := byte;
    OneMore(src, dstoffset, numbits, was, d, now, byte);
    assert dst[..] == now[d := byte];
  }
}
