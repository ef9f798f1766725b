/** Integer facts shared by the hash tables, the region scan and the encoders. */
module Arith {

  lemma MulMonotonic(a: int, b: int, d: int)
    requires a <= b && d >= 0
    ensures a * d <= b * d
  {
  }

  lemma SmallMultiple(t: int, d: int)
    requires d > 0 && -d < t * d < d
    ensures t == 0
  {
    if t >= 1 { MulMonotonic(1, t, d); }
    if t <= -1 { MulMonotonic(t, -1, d); }
  }

  /** Quotient and remainder are determined by n == q * d + r. */
  lemma DivMod(q: int, d: int, r: int, n: int)
    requires d > 0 && n == q * d + r && 0 <= r < d
    ensures n / d == q && n % d == r
  {
    var t := n / d - q;
    assert t * d == (n / d) * d - q * d;
    SmallMultiple(t, d);
  }

  lemma SameMod(a: int, b: int, k: int, d: int)
    requires d > 0 && a == b + k * d
    ensures a % d == b % d
  {
    MulDistributes(b / d, k, d);
    DivMod(b / d + k, d, b % d, a);
  }

  lemma AddMod(a: int, b: int, d: int)
    requires d > 0
    ensures (a % d + b) % d == (a + b) % d
  {
    SameMod(a + b, a % d + b, a / d, d);
  }

  lemma MulDistributes(a: int, b: int, c: int)
    ensures (a + b) * c == a * c + b * c
    ensures (a - b) * c == a * c - b * c
  {
  }

  lemma MulAssoc(a: int, b: int, c: int)
    ensures (a * b) * c == a * (b * c)
  {
  }

  // ---------- bytes that hold bits ----------

  /** m bytes are the fewest that hold n bits and are a multiple of the pad. */
  predicate Fewest(n: nat, pad: nat, m: nat) { pad in {8, 16, 32} && 8 * m % pad == 0 && n <= 8 * m < n + pad }

  /** There is only one such number. */
  lemma MultiplesApart(a: nat, b: nat, n: nat, pad: nat)
    requires Fewest(n, pad, a) && Fewest(n, pad, b)
    ensures a == b
  {
    var p, q := 8 * a / pad, 8 * b / pad;
    assert 8 * a == pad * p && 8 * b == pad * q;
    assert p == q;
  }

  // ---------- units of two and four ----------

  lemma HalfOfFours(n: int)
    requires n % 4 == 0
    ensures n % 2 == 0
  {
    DivMod(2 * (n / 4), 2, 0, n);
  }

  lemma OddRest(n: int)
    requires n % 2 != 0
    ensures n % 4 in {1, 3}
  {
    var q := n / 4;
    if n % 4 == 0 { DivMod(2 * q, 2, 0, n); }
    if n % 4 == 2 { DivMod(2 * q + 1, 2, 0, n); }
  }

  lemma OddIs(n: int)
    requires n % 2 != 0
    ensures n == 2 * (n / 2) + 1
  {
  }

  // ---------- ints of 32 bits ----------

  type UInt = n: int | 0 <= n < 0x1_0000_0000

  type SInt = n: int | -0x8000_0000 <= n < 0x8000_0000

  /** A number stored in an unsigned int. */
  function Unsigned(n: int): UInt { n % 0x1_0000_0000 }

  /** A number stored in an int. */
  function Signed(n: int): SInt {
    if Unsigned(n) < 0x8000_0000 then Unsigned(n) else Unsigned(n) - 0x1_0000_0000
  }

  lemma UnsignedIs(n: nat)
    ensures Unsigned(n) <= n && (n < 0x1_0000_0000 ==> Unsigned(n) == n)
    ensures n >= 0x1_0000_0000 ==> Unsigned(n) <= n - 0x1_0000_0000
  {
    if n < 0x1_0000_0000 { DivMod(0, 0x1_0000_0000, n, n); }
  }

  lemma SignedIs(n: nat)
    ensures n < 0x8000_0000 ==> Signed(n) == n
    ensures n >= 0x8000_0000 ==> Signed(n) <= n - 0x1_0000_0000
  {
    UnsignedIs(n);
  }

  /** Storing an intermediate sum or product in 32 bits does not change the result. */
  lemma UnsignedSum(a: int, b: int)
    ensures Unsigned(Unsigned(a) + b) == Unsigned(a + b)
  {
    AddMod(a, b, 0x1_0000_0000);
  }

  lemma SignedProduct(a: int, b: int)
    ensures Signed(Signed(a) * b) == Signed(a * b)
  {
    var k := a / 0x1_0000_0000;
    var c := if Unsigned(a) < 0x8000_0000 then k else k + 1;
    assert a == Signed(a) + c * 0x1_0000_0000;
    MulDistributes(Signed(a), c * 0x1_0000_0000, b);
    MulAssoc(c, 0x1_0000_0000, b);
    MulAssoc(c, b, 0x1_0000_0000);
    SameMod(a * b, Signed(a) * b, c * b, 0x1_0000_0000);
  }
}
