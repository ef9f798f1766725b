/** String interning by open addressing with double hashing (libX11 Quarks.c). */
module Quarks {
  import opened Arith

  /** A C char other than the terminating NUL. */
  type Char = c: int | -128 <= c < 128 && c != 0 witness 1

  type Name = seq<Char>

  const WORD := 0x1_0000_0000_0000_0000
  const LARGEQUARK := 0x8000_0000
  const SIGSIZE := 0x4_0000        // XSIGMASK + 1, that is 1 << QUARKSHIFT
  const QUARKMASK := 8191          // (LARGEQUARK - 1) >> QUARKSHIFT
  const NULLQUARK := 0

  /** The signature of a name: sig = (sig << 1) + c in an unsigned long. */
  function Sig(s: Name): nat
    ensures Sig(s) < WORD
  {
    if s == [] then 0 else (2 * Sig(s[..|s| - 1]) + s[|s| - 1]) % WORD
  }

  // ---------- table entries ----------

  /** The entry stored for quark q: small quarks carry 18 bits of the signature. */
  function Pack(q: nat, sig: nat): nat {
    if q <= QUARKMASK then q * SIGSIZE + sig % SIGSIZE else q + LARGEQUARK
  }

  predicate IsLarge(entry: nat) { (entry / LARGEQUARK) % 2 == 1 }

  /** The quark of an entry. */
  function Unpack(entry: nat): nat {
    if IsLarge(entry) then entry % LARGEQUARK else (entry / SIGSIZE) % (QUARKMASK + 1)
  }

  lemma UnpackPack(q: nat, sig: nat)
    requires 0 < q < LARGEQUARK
    ensures Unpack(Pack(q, sig)) == q && Pack(q, sig) != 0
    ensures IsLarge(Pack(q, sig)) <==> q > QUARKMASK
    ensures q <= QUARKMASK ==> (Pack(q, sig) - sig) % SIGSIZE == 0
  {
    if q <= QUARKMASK {
      var e := Pack(q, sig);
      DivMod(q, SIGSIZE, sig % SIGSIZE, e);
      DivMod(q - sig / SIGSIZE, SIGSIZE, 0, e - sig);
    }
  }

  // ---------- probe sequences ----------

  /** The remainder of x by d, which is x & (d - 1) for a power of two d. */
  function Mod(x: nat, d: nat): (r: nat)
    requires d > 0
    ensures r < d
  {
    if x < d then x else Mod(x - d, d)
  }

  lemma {:induction false} ModIsRemainder(x: nat, d: nat)
    requires d > 0
    ensures Mod(x, d) == x % d
  {
    if x >= d {
      ModIsRemainder(x - d, d);
      SameMod(x, x - d, 1, d);
    } else {
      DivMod(0, d, x, x);
    }
  }

  ghost predicate Pow2(n: nat) { n == 1 || (n > 1 && n % 2 == 0 && Pow2(n / 2)) }

  /** REHASHVAL: an odd step. */
  function RehashVal(sig: nat, quarkRehash: nat): (r: nat)
    requires quarkRehash > 0
    ensures r % 2 == 1 && 2 <= r - sig % quarkRehash <= 3
  {
    ModIsRemainder(sig, quarkRehash);
    var v := Mod(sig, quarkRehash) + 2;
    if v % 2 == 0 then v + 1 else v
  }

  /** The slot reached from h after j steps of r. */
  function Walk(h: nat, r: nat, size: nat, j: nat): (i: nat)
    requires h < size
    ensures i < size
  {
    if j == 0 then h else Mod(Walk(h, r, size, j - 1) + r, size)
  }

  /** The slot looked at after j rehashes, in a table of the given size. */
  function Probe(sig: nat, size: nat, j: nat): (i: nat)
    requires size > 0
    ensures i < size
  {
    if size < 4 then 0 else Walk(Mod(sig, size), RehashVal(sig, size - 3), size, j)
  }

  lemma {:induction false} ModTurns(x: nat, d: nat) returns (c: nat)
    requires d > 0
    ensures Mod(x, d) == x - c * d
  {
    if x < d {
      c := 0;
    } else {
      var c0 := ModTurns(x - d, d);
      c := c0 + 1;
      MulDistributes(c0, 1, d);
    }
  }

  lemma WrapOnce(w: int, r: int, h: int, j: int, k: int, c: int, w': int, size: int)
    requires w + k * size == h + (j - 1) * r && w' == w + r - c * size
    ensures w' + (k + c) * size == h + j * r
  {
    MulDistributes(k, c, size);
    MulDistributes(j, 1, r);
  }

  /** The slot after j steps is h + j * r with k whole turns of the table taken off. */
  lemma {:induction false} WalkClosed(h: nat, r: nat, size: nat, j: nat) returns (k: int)
    requires h < size
    ensures Walk(h, r, size, j) + k * size == h + j * r
  {
    if j == 0 {
      k := 0;
    } else {
      var k0 := WalkClosed(h, r, size, j - 1);
      var w := Walk(h, r, size, j - 1);
      var c := ModTurns(w + r, size);
      WrapOnce(w, r, h, j, k0, c, Mod(w + r, size), size);
      k := k0 + c;
    }
  }

  lemma HalfStep(i: int, h: int, step: int, u: int)
    requires i * step == 1 + u * h
    ensures u % 2 == 0 ==> i * step == 1 + (u / 2) * (2 * h)
    ensures (u + step) % 2 == 0 ==> (i + h) * step == 1 + ((u + step) / 2) * (2 * h)
  {
    if u % 2 == 0 {
      var w := u / 2;
      assert u * h == w * (2 * h);
    }
    if (u + step) % 2 == 0 {
      var w := (u + step) / 2;
      assert (u + step) * h == w * (2 * h);
      MulDistributes(i, h, step);
      MulDistributes(u, step, h);
    }
  }

  /** An odd number is invertible modulo a power of two. */
  lemma {:induction false} OddInverse(step: nat, size: nat) returns (inv: nat, t: int)
    requires step % 2 == 1 && Pow2(size)
    ensures inv * step == 1 + t * size
    decreases size
  {
    if size == 1 {
      inv := 1;
      t := step - 1;
    } else {
      var h := size / 2;
      var i, u := OddInverse(step, h);
      HalfStep(i, h, step, u);
      if u % 2 == 0 {
        inv, t := i, u / 2;
      } else {
        inv, t := i + h, (u + step) / 2;
      }
    }
  }

  /** If inv * r is 1 modulo size, then (d * inv) modulo size steps of r advance by d modulo size. */
  lemma SolveStep(d: int, inv: int, r: int, t: int, size: int) returns (m: int)
    requires size > 0 && inv * r == 1 + t * size
    ensures ((d * inv) % size) * r == d + m * size
  {
    var j, k := (d * inv) % size, (d * inv) / size;
    m := d * t - k * r;
    assert d * inv == k * size + j;
    MulDistributes(d * inv, k * size, r);
    MulAssoc(d, inv, r);
    MulAssoc(k, size, r);
    MulAssoc(k, r, size);
    MulAssoc(d, t, size);
    assert d * (1 + t * size) == d + d * (t * size);
    MulDistributes(d * t, k * r, size);
  }

  /** An odd step visits every slot of a power-of-two table. */
  lemma WalkHits(h: nat, r: nat, size: nat, e: nat) returns (j: nat)
    requires Pow2(size) && h < size && e < size && r % 2 == 1
    ensures Walk(h, r, size, j) == e
  {
    var inv, t := OddInverse(r, size);
    var m := SolveStep(e - h, inv, r, t, size);
    j := ((e - h) * inv) % size;
    var k := WalkClosed(h, r, size, j);
    MulDistributes(m, k, size);
    SmallMultiple(m - k, size);
  }

  // ---------- searchable tables ----------

  /** The j-th slot on the way of a signature is not empty. */
  ghost predicate TakenAt(table: seq<nat>, sig: nat, j: nat)
    requires |table| > 0
  {
    table[Probe(sig, |table|, j)] != 0
  }

  /** The first n slots on the way of a signature are not empty. */
  ghost predicate Taken(table: seq<nat>, sig: nat, n: nat)
    requires |table| > 0
  {
    forall j :: 0 <= j < n ==> TakenAt(table, sig, j)
  }

  /** Quark q sits dist[q] probes from its home slot, and no slot before it is empty. */
  ghost predicate Placed(table: seq<nat>, names: seq<Name>, dist: map<nat, nat>, q: nat)
    requires q in dist
  {
    && 0 < q < |names| && q < LARGEQUARK
    && |table| > 0
    && table[Probe(Sig(names[q]), |table|, dist[q])] == Pack(q, Sig(names[q]))
    && Taken(table, Sig(names[q]), dist[q])
  }

  /** Every stored quark can be found, and every non-empty slot holds a stored quark. */
  ghost predicate Searchable(table: seq<nat>, names: seq<Name>, dist: map<nat, nat>) {
    && |table| > 0
    && (forall q {:trigger Placed(table, names, dist, q)} :: q in dist ==> Placed(table, names, dist, q))
    && (forall i {:trigger Filed(table, names, dist, i)} :: 0 <= i < |table| ==> Filed(table, names, dist, i))
  }

  /** Slot i is empty or is where the quark of its entry sits. */
  ghost predicate Filed(table: seq<nat>, names: seq<Name>, dist: map<nat, nat>, i: nat)
    requires i < |table|
  {
    table[i] != 0 ==>
      && Unpack(table[i]) in dist && Unpack(table[i]) < |names|
      && Probe(Sig(names[Unpack(table[i])]), |table|, dist[Unpack(table[i])]) == i
  }

  /** Filling an empty slot leaves the placed quarks where they are. */
  lemma StillPlaced(table: seq<nat>, names: seq<Name>, dist: map<nat, nat>, names': seq<Name>, p: nat, s: nat, entry: nat,
                    dist': map<nat, nat>)
    requires p in dist && Placed(table, names, dist, p) && names <= names'
    requires s < |table| && table[s] == 0 && entry != 0
    requires p in dist' && dist'[p] == dist[p]
    ensures Placed(table[s := entry], names', dist', p)
  {
    assert names'[p] == names[p];
    var sig := Sig(names[p]);
    UnpackPack(p, sig);
    var table' := table[s := entry];
    forall j | 0 <= j < dist[p]
      ensures TakenAt(table', sig, j)
    {
      assert TakenAt(table, sig, j);
    }
  }

  /** Storing a quark in the first empty slot of its probe sequence keeps the table searchable. */
  lemma StoreKeepsSearchable(table: seq<nat>, names: seq<Name>, dist: map<nat, nat>, names': seq<Name>, q: nat, n: nat)
    requires Searchable(table, names, dist) && q !in dist
    requires names <= names' && 0 < q < |names'| && q < LARGEQUARK
    requires table[Probe(Sig(names'[q]), |table|, n)] == 0
    requires Taken(table, Sig(names'[q]), n)
    ensures var s := Probe(Sig(names'[q]), |table|, n);
      Searchable(table[s := Pack(q, Sig(names'[q]))], names', dist[q := n])
  {
    var sig := Sig(names'[q]);
    var s := Probe(sig, |table|, n);
    var entry := Pack(q, sig);
    var table', dist' := table[s := entry], dist[q := n];
    UnpackPack(q, sig);
    forall p | p in dist'
      ensures Placed(table', names', dist', p)
    {
      if p != q {
        StillPlaced(table, names, dist, names', p, s, entry, dist');
      } else {
        forall j | 0 <= j < n ensures TakenAt(table', sig, j) { assert TakenAt(table, sig, j); }
      }
    }
    forall i | 0 <= i < |table'|
      ensures Filed(table', names', dist', i)
    {
      if i != s {
        assert Filed(table, names, dist, i);
        if table[i] != 0 { assert names'[Unpack(table[i])] == names[Unpack(table[i])]; }
      }
    }
  }

  function UpTo(n: nat): (s: set<nat>)
    ensures forall k :: k in s <==> 0 <= k < n
    ensures |s| == n
  {
    if n == 0 then {} else UpTo(n - 1) + {n - 1}
  }

  lemma {:induction false} ImageSize(dom: set<nat>, f: nat -> nat, img: set<nat>)
    requires forall i :: i in img ==> exists q :: q in dom && f(q) == i
    ensures |img| <= |dom|
    decreases |dom|
  {
    if img != {} {
      var i :| i in img;
      var q :| q in dom && f(q) == i;
      forall k | k in img - {i}
        ensures exists p :: p in dom - {q} && f(p) == k
      {
        var p :| p in dom && f(p) == k;
        assert p in dom - {q};
      }
      ImageSize(dom - {q}, f, img - {i});
    }
  }

  /** A table with more slots than stored quarks has an empty slot. */
  lemma HasEmptySlot(table: seq<nat>, names: seq<Name>, dist: map<nat, nat>) returns (e: nat)
    requires Searchable(table, names, dist) && |dist.Keys| < |table|
    ensures e < |table| && table[e] == 0
  {
    if forall i :: 0 <= i < |table| ==> table[i] != 0 {
      var f := (q: nat) => if q in dist && q < |names| then Probe(Sig(names[q]), |table|, dist[q]) else 0;
      forall i | i in UpTo(|table|)
        ensures exists q :: q in dist.Keys && f(q) == i
      {
        assert Filed(table, names, dist, i);
        assert f(Unpack(table[i])) == i;
      }
      ImageSize(dist.Keys, f, UpTo(|table|));
      assert false;
    }
    e :| 0 <= e < |table| && table[e] == 0;
  }

  /** The probe sequence of any signature reaches an empty slot. */
  lemma ProbeEnds(table: seq<nat>, names: seq<Name>, dist: map<nat, nat>, sig: nat) returns (last: nat)
    requires Searchable(table, names, dist) && |dist.Keys| < |table| && Pow2(|table|)
    requires |table| == 1 || |table| >= 4
    ensures table[Probe(sig, |table|, last)] == 0
  {
    var e := HasEmptySlot(table, names, dist);
    if |table| == 1 { last := 0; } else { last := WalkHits(Mod(sig, |table|), RehashVal(sig, |table| - 3), |table|, e); }
  }

  lemma TakenHas(table: seq<nat>, sig: nat, n: nat, j: nat)
    requires |table| > 0 && Taken(table, sig, n) && j < n
    ensures table[Probe(sig, |table|, j)] != 0
  {
    assert TakenAt(table, sig, j);
  }

  /** When the way of a name ends in an empty slot and holds only other names, the name is not stored. */
  lemma NotStored(table: seq<nat>, names: seq<Name>, dist: map<nat, nat>, name: Name, n: nat, p: nat)
    requires Searchable(table, names, dist) && p in dist && p < |names|
    requires table[Probe(Sig(name), |table|, n)] == 0 && OtherNames(table, names, name, Sig(name), n)
    ensures names[p] != name
  {
    if names[p] == name {
      assert Placed(table, names, dist, p);
      UnpackPack(p, Sig(name));
      StoredIsFound(table, names, dist, p, n);
      OtherNamesHas(table, names, name, Sig(name), n, dist[p]);
    }
  }

  lemma OtherNamesHas(table: seq<nat>, names: seq<Name>, name: Name, sig: nat, n: nat, j: nat)
    requires |table| > 0 && OtherNames(table, names, name, sig, n) && j < n
    ensures var q := Unpack(table[Probe(sig, |table|, j)]); q >= |names| || names[q] != name
  {
    assert OtherName(table, names, name, sig, j);
  }

  /** A stored name is found before the first empty slot of its probe sequence. */
  lemma StoredIsFound(table: seq<nat>, names: seq<Name>, dist: map<nat, nat>, q: nat, n: nat)
    requires Searchable(table, names, dist) && q in dist
    requires q < |names| && table[Probe(Sig(names[q]), |table|, n)] == 0
    ensures dist[q] < n
  {
    assert Placed(table, names, dist, q);
    UnpackPack(q, Sig(names[q]));
    if n < dist[q] { TakenHas(table, Sig(names[q]), dist[q], n); }
  }

  // ---------- the table as an object ----------

  /** A possibly null C string. */
  datatype CString = Null | Str(s: Name)

  /** A 32-bit quark read as unsigned: interned quarks count up from 1, unique ones down from the top. */
  function InUnsigned(q: int): int { if q < 0 then q + 0x1_0000_0000 else q }

  /** q-- in a 32-bit int. */
  function Decrement(q: int): int { if q == -0x8000_0000 then 0x7fff_ffff else q - 1 }

  function NewMask(mask: nat): nat { if mask != 0 then 2 * mask + 1 else 0x1ff }

  /** The load test: quark q would make the table too full. */
  predicate Crowded(q: nat, mask: nat) { q + q / 4 > mask }

  ghost predicate Distinct(names: seq<Name>) {
    forall p, q :: 0 < p < q < |names| ==> names[p] != names[q]
  }

  lemma StoredCount(dist: map<nat, nat>, n: nat)
    requires n > 0 && forall q :: q in dist <==> 0 < q < n
    ensures |dist.Keys| == n - 1
  {
    assert dist.Keys == UpTo(n) - {0};
  }

  lemma Pow2Double(n: nat)
    requires Pow2(n)
    ensures Pow2(2 * n)
  {
  }

  class QuarkTable {
    const maxSlots: nat             // the largest table the allocator can supply
    var quarkTable: seq<nat>
    var quarkMask: nat
    var quarkRehash: nat
    var names: seq<Name>            // NAME(q)
    var nextQuark: nat
    var nextUniq: int
    ghost var dist: map<nat, nat>   // how many rehashes lead to each quark

    ghost predicate Valid()
      reads this
    {
      && maxSlots <= 0x4000_0000
      && |quarkTable| == quarkMask + 1 && Pow2(|quarkTable|)
      && (quarkMask != 0 ==> 512 <= |quarkTable| <= maxSlots && quarkRehash == quarkMask - 2)
      && nextQuark == |names| > 0
      && (nextQuark - 1) + (nextQuark - 1) / 4 <= quarkMask
      && Searchable(quarkTable, names, dist)
      && (forall q :: q in dist <==> 0 < q < nextQuark)
      && Distinct(names)
      && -0x8000_0000 <= nextUniq <= 0x7fff_ffff && nextQuark <= InUnsigned(nextUniq)
    }

    ghost predicate Stored(name: Name)
      reads this
    {
      exists p :: 0 < p < |names| && names[p] == name
    }

    /** A new name can be interned: neither the quarks nor the memory for the table are used up. */
    ghost predicate Room()
      reads this
    {
      && nextUniq != |names|
      && (|names| + |names| / 4 <= quarkMask || (if quarkMask == 0 then 512 else 2 * (quarkMask + 1)) <= maxSlots)
    }

    constructor (slots: nat)
      requires slots <= 0x4000_0000
      ensures Valid() && names == [[]] && nextUniq == -1 && maxSlots == slots
    {
      maxSlots := slots;
      quarkTable, quarkMask, quarkRehash := [0], 0, 0;
      names, nextQuark, nextUniq := [[]], 1, -1;
      dist := map[];
    }

    /** for (sig = 0; c = *s++; ) sig = (sig << 1) + c; */
    static method ComputeSig(name: Name) returns (sig: nat)
      ensures sig == Sig(name)
    {
      sig := 0;
      for i := 0 to |name|
        invariant sig == Sig(name[..i])
      {
        assert name[..i + 1][..i] == name[..i];
        sig := (2 * sig + name[i]) % WORD;
      }
      assert name[..|name|] == name;
    }

    /** ExpandQuarkTable: doubles the table and stores every entry again. */
    method ExpandQuarkTable() returns (ok: bool)
      requires Valid()
      modifies this`quarkTable, this`quarkMask, this`quarkRehash, this`dist
      ensures Valid()
      ensures ok <==> NewMask(old(quarkMask)) < maxSlots
      ensures quarkMask == if ok then NewMask(old(quarkMask)) else old(quarkMask)
      ensures Abstract() == if ok then old(Abstract()).(slots := Grown(old(quarkMask) + 1)) else old(Abstract())
    {
      var oldmask := quarkMask;
      var newmask := if oldmask != 0 then (oldmask * 2) + 1 else 0x1ff;
      if newmask + 1 > maxSlots {
        return false;
      }
      assert Pow2(newmask + 1) by { if oldmask != 0 { Pow2Double(oldmask + 1); } else { Pow2Of512(); } }
      StoredCount(dist, nextQuark);
      quarkTable, dist := Reenter(quarkTable, newmask + 1, names, dist);
      quarkMask := newmask;
      quarkRehash := quarkMask - 2;
      return true;
    }

    /** The loop of ExpandQuarkTable: every old entry goes to a slot of the new table. */
    static method Reenter(oldentries: seq<nat>, size: nat, names: seq<Name>, ghost dist: map<nat, nat>)
        returns (entries: seq<nat>, ghost nd: map<nat, nat>)
      requires Searchable(oldentries, names, dist) && |dist.Keys| < size && size >= 512 && Pow2(size)
      ensures |entries| == size && Searchable(entries, names, nd)
      ensures forall q :: q in nd <==> q in dist
    {
      entries, nd := seq(size, _ => 0), map[];
      var oldidx := 0;
      while oldidx < |oldentries|
        invariant 0 <= oldidx <= |oldentries| && |entries| == size
        invariant Searchable(entries, names, nd)
        invariant Moved(oldentries, names, dist, nd, oldidx)
      {
        var entry := oldentries[oldidx];
        if entry != 0 {
          var q := Unpack(entry);
          assert Filed(oldentries, names, dist, oldidx) && Placed(oldentries, names, dist, q);
          var sig := ComputeSig(names[q]);
          SubsetSize(nd, dist);
          var newidx, n := FindEmpty(entries, sig, names, nd);
          MovedOne(oldentries, names, dist, nd, oldidx, n);
          StoreKeepsSearchable(entries, names, nd, names, q, n);
          entries, nd := entries[newidx := entry], nd[q := n];
        }
        oldidx := oldidx + 1;
      }
      MovedAll(oldentries, names, dist, nd);
    }

    /** Rehashes from the home slot of sig until a slot is empty. */
    static method FindEmpty(entries: seq<nat>, sig: nat, ghost names: seq<Name>, ghost nd: map<nat, nat>)
        returns (idx: nat, ghost n: nat)
      requires |entries| >= 512 && Pow2(|entries|)
      requires Searchable(entries, names, nd) && |nd.Keys| < |entries|
      ensures idx == Probe(sig, |entries|, n) && entries[idx] == 0
      ensures Taken(entries, sig, n)
    {
      ghost var last := ProbeEnds(entries, names, nd, sig);
      idx, n := Mod(sig, |entries|), 0;
      if entries[idx] != 0 {
        var rehash := RehashVal(sig, |entries| - 3);
        while entries[idx] != 0
          invariant n <= last && idx == Probe(sig, |entries|, n)
          invariant Taken(entries, sig, n)
          decreases last - n
        {
          idx, n := Mod(idx + rehash, |entries|), n + 1;
        }
      }
    }

    /** Whether the entry in slot idx is for name: the signature filter, then the string comparison. */
    static method Matches(table: seq<nat>, names: seq<Name>, ghost dist: map<nat, nat>, idx: nat, name: Name, sig: nat)
        returns (found: bool, q: nat)
      requires Searchable(table, names, dist) && idx < |table| && table[idx] != 0 && sig == Sig(name)
      ensures q == Unpack(table[idx]) && 0 < q < |names|
      ensures found <==> names[q] == name
    {
      var entry := table[idx];
      assert Filed(table, names, dist, idx) && Placed(table, names, dist, Unpack(entry));
      UnpackPack(Unpack(entry), Sig(names[Unpack(entry)]));
      q := Unpack(entry);
      if !IsLarge(entry) && (entry - sig) % SIGSIZE != 0 {
        return false, q;
      }
      var s2 := names[q];
      if |s2| < |name| || s2[..|name|] != name {
        return false, q;
      }
      found := |s2| == |name|;
      assert found ==> s2[..|name|] == s2;
    }

    /** The probe loop: the quark of name, or the empty slot where it belongs. */
    static method Lookup(table: seq<nat>, quarkRehash: nat, names: seq<Name>, ghost dist: map<nat, nat>, name: Name, sig: nat)
        returns (q: nat, idx: nat, ghost n: nat)
      requires Searchable(table, names, dist) && |dist.Keys| < |table| && Pow2(|table|) && sig == Sig(name)
      requires dist != map[] ==> |table| >= 4 && quarkRehash == |table| - 3
      requires |table| == 1 || |table| >= 4
      ensures q != 0 ==> q < |names| && names[q] == name
      ensures q == 0 ==> idx == Probe(sig, |table|, n) && table[idx] == 0 && Taken(table, sig, n)
      ensures q == 0 ==> forall p :: p in dist && p < |names| ==> names[p] != name
    {
      ghost var last := ProbeEnds(table, names, dist, sig);
      n := 0;
      var rehash := 0;
      idx := Mod(sig, |table|);
      while table[idx] != 0
        invariant n <= last && idx == Probe(sig, |table|, n)
        invariant rehash != 0 ==> |table| >= 4 && rehash == RehashVal(sig, |table| - 3)
        invariant Taken(table, sig, n) && OtherNames(table, names, name, sig, n)
        decreases last - n
      {
        var found, p := Matches(table, names, dist, idx, name, sig);
        if found {
          return p, idx, n;
        }
        TableIsLarge(table, names, dist, idx);
        if rehash == 0 {
          rehash := RehashVal(sig, quarkRehash);
        }
        idx, n := Mod(idx + rehash, |table|), n + 1;
      }
      q := 0;
      forall p | p in dist && p < |names|
        ensures names[p] != name
      {
        NotStored(table, names, dist, name, n, p);
      }
    }

    /** Files a new name in the empty slot idx. */
    method Store(name: Name, sig: nat, idx: nat, ghost n: nat)
      requires Valid() && sig == Sig(name) && nextUniq != nextQuark && !Crowded(nextQuark, quarkMask)
      requires forall p :: 0 < p < |names| ==> names[p] != name
      requires idx == Probe(sig, quarkMask + 1, n) && quarkTable[idx] == 0
      requires Taken(quarkTable, sig, n)
      modifies this
      ensures Valid() && Abstract() == old(Abstract()).(names := old(names) + [name])
    {
      var q := nextQuark;
      var entry := if q <= QUARKMASK then q * SIGSIZE + sig % SIGSIZE else q + LARGEQUARK;
      StoreKeepsSearchable(quarkTable, names, dist, names + [name], q, n);
      names := names + [name];
      quarkTable := quarkTable[idx := entry];
      dist := dist[q := n];
      nextQuark := nextQuark + 1;
    }

    /** _XrmInternalStringToQuark. */
    method InternalStringToQuark(name: Name, sig: nat) returns (q: nat)
      requires Valid() && sig == Sig(name)
      modifies this
      ensures Valid() && Step(old(Abstract()), Abstract(), Intern(Str(name)), q)
      decreases Crowded(nextQuark, quarkMask)
    {
      ghost var before := Abstract();
      StoredCount(dist, nextQuark);
      var idx; ghost var n;
      q, idx, n := Lookup(quarkTable, quarkRehash, names, dist, name, sig);
      if q != 0 {
        return;
      }
      assert !StoredIn(before, name);
      if nextUniq == nextQuark {
        return NULLQUARK;
      }
      if nextQuark + nextQuark / 4 > quarkMask {
        var ok := ExpandQuarkTable();
        if !ok {
          return NULLQUARK;
        }
        StepOfGrown(before, name);
        q := InternalStringToQuark(name, sig);
        return;
      }
      q := nextQuark;
      Store(name, sig, idx, n);
    }

    /** XrmStringToQuark and XrmPermStringToQuark. */
    method StringToQuark(name: CString) returns (q: nat)
      requires Valid()
      modifies this
      ensures Valid()
      ensures Step(old(Abstract()), Abstract(), Intern(name), q)
      ensures name.Str? && !old(Stored(name.s)) && old(Room()) ==> q == |old(names)| && names == old(names) + [name.s]
      ensures q == NULLQUARK <==> name.Null? || (!old(Stored(name.s)) && !old(Room()))
    {
      if name.Null? {
        return NULLQUARK;
      }
      var sig := ComputeSig(name.s);
      q := InternalStringToQuark(name.s, sig);
    }

    /** XrmUniqueQuark. */
    method UniqueQuark() returns (q: int)
      requires Valid()
      modifies this`nextUniq
      ensures Valid()
      ensures Step(old(Abstract()), Abstract(), Unique, q)
    {
      if nextUniq == nextQuark {
        q := NULLQUARK;
      } else {
        q := nextUniq;
        nextUniq := Decrement(nextUniq);
      }
    }

    /** XrmQuarkToString. */
    method QuarkToString(quark: int) returns (s: CString)
      requires Valid()
      ensures s == Meaning(Abstract(), quark)
    {
      if quark <= 0 || quark >= nextQuark {
        s := Null;
      } else {
        s := Str(names[quark]);
      }
    }

    ghost function Abstract(): (a: Interned)
      reads this
      ensures Valid() ==> Sound(a)
    {
      Interned(names, nextUniq, quarkMask + 1, maxSlots)
    }
  }

  /** The j-th slot on the way of a signature does not hold the quark of name. */
  ghost predicate OtherName(table: seq<nat>, names: seq<Name>, name: Name, sig: nat, j: nat)
    requires |table| > 0
  {
    var q := Unpack(table[Probe(sig, |table|, j)]);
    q >= |names| || names[q] != name
  }

  ghost predicate OtherNames(table: seq<nat>, names: seq<Name>, name: Name, sig: nat, n: nat)
    requires |table| > 0
  {
    forall j :: 0 <= j < n ==> OtherName(table, names, name, sig, j)
  }

  lemma Pow2Of512()
    ensures Pow2(512)
  {
    assert Pow2(2) && Pow2(4) && Pow2(8);
    assert Pow2(16) && Pow2(32) && Pow2(64);
  }

  lemma SubsetSize(nd: map<nat, nat>, dist: map<nat, nat>)
    requires forall q :: q in nd ==> q in dist
    ensures |nd.Keys| <= |dist.Keys|
  {
    var rest := dist.Keys - nd.Keys;
    assert dist.Keys == rest + nd.Keys;
  }

  /** nd holds exactly the quarks stored in the slots before idx of the old table. */
  ghost predicate Moved(old': seq<nat>, names: seq<Name>, dist: map<nat, nat>, nd: map<nat, nat>, idx: nat)
    requires Searchable(old', names, dist)
  {
    && (forall i :: 0 <= i < idx && i < |old'| && old'[i] != 0 ==> Unpack(old'[i]) in nd)
    && (forall q :: q in nd ==> q in dist && q < |names| && Probe(Sig(names[q]), |old'|, dist[q]) < idx)
  }

  lemma MovedOne(old': seq<nat>, names: seq<Name>, dist: map<nat, nat>, nd: map<nat, nat>, idx: nat, n: nat)
    requires Searchable(old', names, dist) && Moved(old', names, dist, nd, idx)
    requires idx < |old'| && old'[idx] != 0
    ensures Unpack(old'[idx]) !in nd
    ensures Moved(old', names, dist, nd[Unpack(old'[idx]) := n], idx + 1)
  {
    assert Filed(old', names, dist, idx) && Placed(old', names, dist, Unpack(old'[idx]));
  }

  lemma MovedAll(old': seq<nat>, names: seq<Name>, dist: map<nat, nat>, nd: map<nat, nat>)
    requires Searchable(old', names, dist) && Moved(old', names, dist, nd, |old'|)
    ensures forall q :: q in nd <==> q in dist
  {
    forall q | q in dist
      ensures q in nd
    {
      assert Placed(old', names, dist, q);
      UnpackPack(q, Sig(names[q]));
    }
  }

  /** A table with a stored quark is not the initial one-slot table. */
  lemma TableIsLarge(table: seq<nat>, names: seq<Name>, dist: map<nat, nat>, i: nat)
    requires Searchable(table, names, dist) && i < |table| && table[i] != 0
    ensures dist != map[]
  {
    assert Filed(table, names, dist, i);
  }

  // ---------- runs ----------

  /** What the rest of the program can see: the interned names, the next unique quark, the slots of the table
      and the most that the allocator can supply. */
  datatype Interned = Interned(names: seq<Name>, uniq: int, slots: nat, maxSlots: nat)

  datatype Call = Intern(name: CString) | Unique

  ghost function Meaning(s: Interned, q: int): CString {
    if 0 < q < |s.names| then Str(s.names[q]) else Null
  }

  ghost predicate StoredIn(s: Interned, name: Name) {
    exists p :: 0 < p < |s.names| && s.names[p] == name
  }

  /** The load test: another name would fill more than four fifths of the slots. */
  predicate LoadTestFails(s: Interned) { |s.names| + |s.names| / 4 >= s.slots }

  /** The next size of the table. */
  function Grown(slots: nat): nat { if slots == 1 then 512 else 2 * slots }

  /** The next unique quark has not met the next quark, and the table has room or can grow. */
  ghost predicate HasRoom(s: Interned) {
    s.uniq != |s.names| && (LoadTestFails(s) ==> Grown(s.slots) <= s.maxSlots)
  }

  /** Interning name gives a quark. */
  ghost predicate CanIntern(s: Interned, name: CString) {
    name.Str? && (StoredIn(s, name.s) || HasRoom(s))
  }

  /** One call and its result. A failed call returns NULLQUARK and changes nothing; interning fails only for a new
      name without room. */
  ghost predicate Step(s: Interned, s': Interned, c: Call, q: int) {
    match c
    case Intern(Null) => s' == s && q == NULLQUARK
    case Intern(Str(name)) =>
      if StoredIn(s, name) then s' == s && 0 < q < |s.names| && s.names[q] == name
      else if HasRoom(s) then
        q == |s.names| && s' == s.(names := s.names + [name], slots := if LoadTestFails(s) then Grown(s.slots) else s.slots)
      else q == NULLQUARK && s' == s
    case Unique =>
      s' == s.(uniq := s'.uniq) &&
      if s.uniq == |s.names| then q == NULLQUARK && s' == s
      else q == s.uniq && InUnsigned(s'.uniq) == InUnsigned(s.uniq) - 1 && -0x8000_0000 <= s'.uniq <= 0x7fff_ffff
  }

  /** Interning a new name after the table has grown is interning it before. */
  lemma StepOfGrown(s: Interned, name: Name)
    requires !StoredIn(s, name) && HasRoom(s) && LoadTestFails(s) && s.slots > 0 && !LoadTestFails(s.(slots := Grown(s.slots)))
    ensures forall s', q :: Step(s.(slots := Grown(s.slots)), s', Intern(Str(name)), q) ==> Step(s, s', Intern(Str(name)), q)
  {
  }

  /** What Valid promises about the visible state. */
  ghost predicate Sound(s: Interned) {
    && |s.names| > 0 && Distinct(s.names)
    && -0x8000_0000 <= s.uniq <= 0x7fff_ffff && |s.names| <= InUnsigned(s.uniq)
  }

  datatype Event = Event(before: Interned, call: Call, result: int, after: Interned)

  /** A run from a sound state: each event starts where the previous one ended. */
  ghost predicate IsRun(run: seq<Event>) {
    && (forall i :: 0 <= i < |run| ==> Sound(run[i].before) && Sound(run[i].after))
    && (forall i :: 0 <= i < |run| ==> Step(run[i].before, run[i].after, run[i].call, run[i].result))
    && (forall i, j :: 0 <= i < |run| && j == i + 1 && j < |run| ==> run[j].before == run[i].after)
  }

  /** A run starts anywhere, and goes on with any step from where it ended. */
  lemma RunExtends(run: seq<Event>, e: Event)
    requires Sound(e.before) && Sound(e.after) && Step(e.before, e.after, e.call, e.result)
    ensures IsRun([e])
    ensures IsRun(run) && run != [] && run[|run| - 1].after == e.before ==> IsRun(run + [e])
  {
  }

  /** Names are only ever added and unique quarks only ever go down. */
  lemma {:induction false} RunGrows(run: seq<Event>, i: nat, j: nat)
    requires IsRun(run) && i <= j < |run|
    ensures run[i].before.names <= run[j].after.names
    ensures i < j ==> run[i].after.names <= run[j].before.names
    ensures InUnsigned(run[j].after.uniq) <= InUnsigned(run[i].before.uniq)
    ensures i < j ==> InUnsigned(run[j].before.uniq) <= InUnsigned(run[i].after.uniq)
    decreases j - i
  {
    assert Step(run[j].before, run[j].after, run[j].call, run[j].result);
    if i < j {
      var m := j - 1;
      RunGrows(run, i, m);
      assert run[j].before == run[m].after;
      assert Step(run[i].before, run[i].after, run[i].call, run[i].result);
    }
  }

  /** A quark keeps its meaning for ever. */
  lemma QuarksAreStable(run: seq<Event>, i: nat, j: nat, q: int)
    requires IsRun(run) && i <= j < |run| && Meaning(run[i].before, q) != Null
    ensures Meaning(run[j].after, q) == Meaning(run[i].before, q)
  {
    RunGrows(run, i, j);
  }

  /** The string of an interned quark is the name it was interned for, at any later time. */
  lemma QuarkOfName(run: seq<Event>, i: nat, j: nat)
    requires IsRun(run) && i <= j < |run| && run[i].call.Intern? && run[i].result != NULLQUARK
    ensures Meaning(run[j].after, run[i].result) == run[i].call.name
  {
    assert Step(run[i].before, run[i].after, run[i].call, run[i].result);
    RunGrows(run, i, j);
    if i < j { RunGrows(run, i + 1, j); }
    assert Meaning(run[i].after, run[i].result) == run[i].call.name;
  }

  /** Over any run, interning fails exactly for a null string, and for a new name when there is no room. */
  lemma InternedIff(run: seq<Event>, i: nat)
    requires IsRun(run) && i < |run| && run[i].call.Intern?
    ensures run[i].result != NULLQUARK <==> CanIntern(run[i].before, run[i].call.name)
  {
    assert Sound(run[i].before) && Step(run[i].before, run[i].after, run[i].call, run[i].result);
  }

  /** A name interned once gets the same quark for ever, whether or not there still is room. */
  lemma InternedForEver(run: seq<Event>, i: nat, j: nat)
    requires IsRun(run) && i <= j < |run| && run[i].call.Intern? && run[j].call == run[i].call
    requires CanIntern(run[i].before, run[i].call.name)
    ensures CanIntern(run[j].before, run[j].call.name) && run[j].result == run[i].result != NULLQUARK
  {
    InternedIff(run, i);
    InternedIff(run, j);
    if i < j {
      QuarkOfName(run, i, j - 1);
      assert run[j].before == run[j - 1].after;
    }
    QuarksIdentifyNames(run, i, j);
  }

  /** Over any run, equal names get equal quarks and different names different ones, as far as there is room. */
  lemma QuarksIdentifyNames(run: seq<Event>, i: nat, j: nat)
    requires IsRun(run) && i <= j < |run| && run[i].call.Intern? && run[j].call.Intern?
    requires CanIntern(run[i].before, run[i].call.name) && CanIntern(run[j].before, run[j].call.name)
    ensures run[i].result != NULLQUARK && run[j].result != NULLQUARK
    ensures run[i].result == run[j].result <==> run[i].call.name == run[j].call.name
  {
    InternedIff(run, i);
    InternedIff(run, j);
    QuarkOfName(run, i, j);
    QuarkOfName(run, j, j);
    assert Distinct(run[j].after.names);
  }

  /** Unique quarks are never handed out twice and never denote a name. */
  lemma UniqueQuarksAreFresh(run: seq<Event>, i: nat, j: nat)
    requires IsRun(run) && i < |run| && j < |run| && i != j
    requires run[i].call.Unique? && run[i].result != NULLQUARK
    ensures run[j].result != run[i].result
    ensures Meaning(run[j].after, run[i].result) == Null
  {
    assert Step(run[i].before, run[i].after, run[i].call, run[i].result);
    assert Step(run[j].before, run[j].after, run[j].call, run[j].result);
    if i < j { RunGrows(run, i, j); RunGrows(run, i + 1, j); } else { RunGrows(run, j, i); RunGrows(run, j + 1, i); }
  }
}
