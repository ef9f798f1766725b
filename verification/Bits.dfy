/** Bytes as eight bits, least significant first, and the numbers they stand for. */
module Bits {
  import opened Arith

  type Byte = b: seq<bool> | |b| == 8
    witness [false, false, false, false, false, false, false, false]

  const ZERO: Byte := [false, false, false, false, false, false, false, false]

  // ---------- operations on one byte ----------

  function ShiftLeft(a: Byte, n: nat): (r: Byte)
    ensures forall i :: 0 <= i < 8 ==> r[i] == (i >= n && a[i - n])
  {
    seq(8, i requires 0 <= i < 8 => i >= n && a[i - n])
  }

  function ShiftRight(a: Byte, n: nat): (r: Byte)
    ensures forall i :: 0 <= i < 8 ==> r[i] == (i + n < 8 && a[i + n])
  {
    seq(8, i requires 0 <= i < 8 => i + n < 8 && a[i + n])
  }

  function And(a: Byte, b: Byte): (r: Byte)
    ensures forall i :: 0 <= i < 8 ==> r[i] == (a[i] && b[i])
  {
    seq(8, i requires 0 <= i < 8 => a[i] && b[i])
  }

  function Or(a: Byte, b: Byte): (r: Byte)
    ensures forall i :: 0 <= i < 8 ==> r[i] == (a[i] || b[i])
  {
    seq(8, i requires 0 <= i < 8 => a[i] || b[i])
  }

  function Not(a: Byte): (r: Byte)
    ensures forall i :: 0 <= i < 8 ==> r[i] == !a[i]
  {
    seq(8, i requires 0 <= i < 8 => !a[i])
  }

  /** The entry of _reverse_byte for a byte. */
  function Reverse(a: Byte): (r: Byte)
    ensures forall i :: 0 <= i < 8 ==> r[i] == a[7 - i]
  {
    [a[7], a[6], a[5], a[4], a[3], a[2], a[1], a[0]]
  }

  /** _lomask[n]: the n lowest bits. */
  function LowMask(n: nat): (r: Byte)
    ensures forall i :: 0 <= i < 8 ==> r[i] == (i < n)
  {
    seq(8, i requires 0 <= i < 8 => i < n)
  }

  /** _himask[n]: all but the n lowest bits. */
  function HighMask(n: nat): (r: Byte)
    ensures forall i :: 0 <= i < 8 ==> r[i] == (i >= n)
  {
    seq(8, i requires 0 <= i < 8 => i >= n)
  }

  // ---------- bit strings and numbers ----------

  /** The bits of a string of bytes, in order of significance. */
  function Flat(s: seq<Byte>): (r: seq<bool>)
    ensures |r| == 8 * |s|
    ensures forall j :: 0 <= j < |r| ==> r[j] == s[j / 8][j % 8]
  {
    seq(8 * |s|, j requires 0 <= j < 8 * |s| => s[j / 8][j % 8])
  }

  function Pow2(n: nat): (r: nat)
    ensures r > 0
  {
    if n == 0 then 1 else 2 * Pow2(n - 1)
  }

  function ToNat(s: seq<bool>): nat {
    if s == [] then 0 else (if s[0] then 1 else 0) + 2 * ToNat(s[1..])
  }

  /** The w low bits of a number, negative numbers in two's complement. */
  function ToBits(n: int, w: nat): (r: seq<bool>)
    ensures |r| == w
    decreases w
  {
    if w == 0 then [] else [n % 2 == 1] + ToBits(n / 2, w - 1)
  }

  lemma {:induction false} ToBitsToNat(s: seq<bool>)
    ensures ToBits(ToNat(s), |s|) == s
  {
    if s != [] {
      ToBitsToNat(s[1..]);
      assert s == [s[0]] + s[1..];
    }
  }

  /** n % 2d, from n / 2 % d. */
  lemma HalfMod(n: int, d: int)
    requires d > 0
    ensures n % (2 * d) == n % 2 + 2 * (n / 2 % d)
  {
    var q := n / 2 / d;
    assert n / 2 == q * d + n / 2 % d;
    assert n == 2 * (n / 2) + n % 2;
    MulAssoc(2, q, d);
    MulAssoc(q, 2, d);
    DivMod(q, 2 * d, n % 2 + 2 * (n / 2 % d), n);
  }

  lemma {:induction false} ToNatToBits(n: int, w: nat)
    ensures ToNat(ToBits(n, w)) == n % Pow2(w)
    decreases w
  {
    if w > 0 {
      ToNatToBits(n / 2, w - 1);
      HalfMod(n, Pow2(w - 1));
      assert ToBits(n, w)[1..] == ToBits(n / 2, w - 1);
    }
  }

  /** Fewer bits of the same number. */
  lemma {:induction false} ToBitsTake(n: int, w: nat, d: nat)
    requires d <= w
    ensures ToBits(n, w)[..d] == ToBits(n, d)
    decreases d
  {
    if d > 0 {
      ToBitsTake(n / 2, w - 1, d - 1);
      assert ToBits(n, w)[..d] == [n % 2 == 1] + ToBits(n / 2, w - 1)[..d - 1];
    }
  }

  /** Bit k of a number is the lowest bit of the number shifted right by k. */
  lemma {:induction false} ToBitsDrop(n: int, w: nat, k: nat)
    requires k <= w
    ensures ToBits(n, w)[k..] == ToBits(n / Pow2(k), w - k)
    decreases k
  {
    if k > 0 {
      ToBitsDrop(n / 2, w - 1, k - 1);
      assert ToBits(n, w)[k..] == ToBits(n / 2, w - 1)[k - 1..];
      DivTwice(n, Pow2(k - 1));
    } else {
      assert n / 1 == n;
    }
  }

  lemma DivTwice(n: int, d: int)
    requires d > 0
    ensures n / 2 / d == n / (2 * d)
  {
    HalfMod(n, d);
    var q := n / 2 / d;
    assert n / 2 == q * d + n / 2 % d;
    MulAssoc(2, q, d);
    MulAssoc(q, 2, d);
    DivMod(q, 2 * d, n % 2 + 2 * (n / 2 % d), n);
  }

  lemma {:induction false} ToNatTake(s: seq<bool>, d: nat)
    requires d <= |s|
    ensures ToNat(s[..d]) == ToNat(s) % Pow2(d)
  {
    ToBitsToNat(s);
    ToBitsTake(ToNat(s), |s|, d);
    ToNatToBits(ToNat(s), d);
  }

  lemma {:induction false} ToNatAppend(a: seq<bool>, b: seq<bool>)
    ensures ToNat(a + b) == ToNat(a) + Pow2(|a|) * ToNat(b)
  {
    if a == [] {
      assert a + b == b;
    } else {
      ToNatAppend(a[1..], b);
      assert (a + b)[1..] == a[1..] + b;
      MulAssoc(2, Pow2(|a| - 1), ToNat(b));
    }
  }

  lemma {:induction false} ToNatBound(s: seq<bool>)
    ensures ToNat(s) < Pow2(|s|)
  {
    ToBitsToNat(s);
    ToNatToBits(ToNat(s), |s|);
  }

  lemma {:induction false} ToNatZeros(s: seq<bool>)
    requires forall i :: 0 <= i < |s| ==> !s[i]
    ensures ToNat(s) == 0
  {
    if s != [] { ToNatZeros(s[1..]); }
  }

  lemma SmallPowers()
    ensures Pow2(4) == 16 && Pow2(8) == 0x100 && Pow2(16) == 0x1_0000 && Pow2(24) == 0x100_0000
  {
    assert Pow2(2) == 4 && Pow2(4) == 16 && Pow2(6) == 64 && Pow2(8) == 0x100;
    assert Pow2(10) == 0x400 && Pow2(12) == 0x1000 && Pow2(14) == 0x4000 && Pow2(16) == 0x1_0000;
    assert Pow2(18) == 0x4_0000 && Pow2(20) == 0x10_0000 && Pow2(22) == 0x40_0000 && Pow2(24) == 0x100_0000;
  }

  /** The low bits depend only on the number modulo a power of two. */
  lemma ToBitsMod(n: int, w: nat)
    ensures ToBits(n % Pow2(w), w) == ToBits(n, w)
  {
    ToNatToBits(n, w);
    ToBitsToNat(ToBits(n, w));
  }

  /** A shift right drops the bits below. */
  lemma {:induction false} ToNatDrop(s: seq<bool>, k: nat)
    requires k <= |s|
    ensures ToNat(s[k..]) == ToNat(s) / Pow2(k)
    decreases k
  {
    if k > 0 {
      ToNatDrop(s[1..], k - 1);
      assert s[k..] == s[1..][k - 1..];
      assert ToNat(s) / 2 == ToNat(s[1..]);
      DivTwice(ToNat(s), Pow2(k - 1));
    } else {
      assert s[0..] == s;
    }
  }

  /** Zeros above do not count. */
  lemma ToNatTrim(s: seq<bool>, k: nat)
    requires k <= |s| && forall j :: k <= j < |s| ==> !s[j]
    ensures ToNat(s[..k]) == ToNat(s)
  {
    ToNatAppend(s[..k], s[k..]);
    assert s == s[..k] + s[k..];
    ToNatZeros(s[k..]);
  }

  lemma ToNatSlice(s: seq<bool>, from: nat, to: nat)
    requires from <= to <= |s| && forall j :: to <= j < |s| ==> !s[j]
    ensures ToNat(s[from..to]) == ToNat(s) / Pow2(from)
  {
    ToNatDrop(s, from);
    ToNatTrim(s[from..], to - from);
    assert s[from..][..to - from] == s[from..to];
  }

  lemma FlatSnoc(s: seq<Byte>, b: Byte)
    ensures Flat(s + [b]) == Flat(s) + b
  {
    forall j | 0 <= j < 8 * |s| + 8
      ensures Flat(s + [b])[j] == (Flat(s) + b)[j]
    {
      if j >= 8 * |s| { assert j / 8 == |s| && j % 8 == j - 8 * |s|; }
    }
  }

  /** The low bits of a number, and those of the number shifted right. */
  lemma ToBitsSplit(n: int, w: nat, k: nat)
    requires k <= w
    ensures ToBits(n, k) + ToBits(n / Pow2(k), w - k) == ToBits(n, w)
  {
    ToBitsTake(n, w, k);
    ToBitsDrop(n, w, k);
    var t := ToBits(n, w);
    assert t == t[..k] + t[k..];
  }
}
