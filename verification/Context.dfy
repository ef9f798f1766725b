/** The context table: a chained hash table that grows and shrinks (libX11 Context.c). */
module Context {
  import opened Arith
  import opened Options

  type Key = (nat, int)    // resource id, context

  datatype Entry = Entry(rid: nat, context: int, data: int)

  const INITHASHMASK := 63
  const SUCCESS := 0
  const XCNOMEM := 1
  const XCNOENT := 2

  function KeyOf(e: Entry): Key { (e.rid, e.context) }

  /** The bucket of a key: ((rid << 1) + context) & mask, for a table of a power-of-two size. */
  function Hash(key: Key, size: nat): (b: nat)
    requires size > 0
    ensures b < size && (2 * key.0 + key.1 - b) % size == 0
  {
    SameMod(2 * key.0 + key.1 - (2 * key.0 + key.1) % size, 0, (2 * key.0 + key.1) / size, size);
    (2 * key.0 + key.1) % size
  }

  /** What a walk along a bucket finds. */
  function Lookup(bucket: seq<Entry>, key: Key): Option<int> {
    if bucket == [] then None
    else if KeyOf(bucket[0]) == key then Some(bucket[0].data)
    else Lookup(bucket[1..], key)
  }

  /** The keys of a bucket are distinct and belong there. */
  ghost predicate BucketOk(bucket: seq<Entry>, b: nat, size: nat)
    requires size > 0
  {
    && (forall k :: 0 <= k < |bucket| ==> Hash(KeyOf(bucket[k]), size) == b)
    && (forall k, l :: 0 <= k < l < |bucket| ==> KeyOf(bucket[k]) != KeyOf(bucket[l]))
  }

  ghost predicate TableOk(table: seq<seq<Entry>>) {
    |table| > 0 && forall b :: 0 <= b < |table| ==> BucketOk(table[b], b, |table|)
  }

  /** The table holds exactly the bindings of M. */
  ghost predicate Holds(table: seq<seq<Entry>>, M: map<Key, int>)
    requires |table| > 0
  {
    forall key :: HoldsAt(table, M, key)
  }

  ghost predicate HoldsAt(table: seq<seq<Entry>>, M: map<Key, int>, key: Key)
    requires |table| > 0
  {
    Lookup(table[Hash(key, |table|)], key) == if key in M then Some(M[key]) else None
  }

  // ---------- walking and editing one bucket ----------

  lemma {:induction false} LookupAt(bucket: seq<Entry>, k: nat, key: Key)
    requires k < |bucket| && KeyOf(bucket[k]) == key
    requires forall l :: 0 <= l < k ==> KeyOf(bucket[l]) != key
    ensures Lookup(bucket, key) == Some(bucket[k].data)
  {
    if k > 0 { LookupAt(bucket[1..], k - 1, key); }
  }

  lemma {:induction false} LookupNone(bucket: seq<Entry>, key: Key)
    ensures Lookup(bucket, key) == None <==> forall k :: 0 <= k < |bucket| ==> KeyOf(bucket[k]) != key
  {
    if bucket != [] {
      LookupNone(bucket[1..], key);
      assert forall k :: 1 <= k < |bucket| ==> bucket[k] == bucket[1..][k - 1];
    }
  }

  lemma {:induction false} LookupConcat(a: seq<Entry>, b: seq<Entry>, key: Key)
    ensures Lookup(a + b, key) == if Lookup(a, key) != None then Lookup(a, key) else Lookup(b, key)
  {
    if a == [] {
      assert a + b == b;
    } else {
      LookupConcat(a[1..], b, key);
      assert (a + b)[1..] == a[1..] + b;
    }
  }

  /** Changing the data of entry k. */
  lemma LookupUpdate(bucket: seq<Entry>, k: nat, data: int, key: Key)
    requires k < |bucket| && forall l :: 0 <= l < |bucket| && l != k ==> KeyOf(bucket[l]) != KeyOf(bucket[k])
    ensures Lookup(bucket[k := bucket[k].(data := data)], key) ==
      if key == KeyOf(bucket[k]) then Some(data) else Lookup(bucket, key)
  {
    var a, e, c := bucket[..k], bucket[k], bucket[k + 1..];
    assert bucket == a + ([e] + c);
    assert bucket[k := e.(data := data)] == a + ([e.(data := data)] + c);
    LookupConcat(a, [e] + c, key);
    LookupConcat(a, [e.(data := data)] + c, key);
    LookupConcat([e], c, key);
    LookupConcat([e.(data := data)], c, key);
    LookupNone(a, KeyOf(e));
  }

  /** Unlinking entry k. */
  lemma LookupRemove(bucket: seq<Entry>, k: nat, key: Key)
    requires k < |bucket| && forall l :: 0 <= l < |bucket| && l != k ==> KeyOf(bucket[l]) != KeyOf(bucket[k])
    ensures Lookup(bucket[..k] + bucket[k + 1..], key) == if key == KeyOf(bucket[k]) then None else Lookup(bucket, key)
  {
    var a, e, c := bucket[..k], bucket[k], bucket[k + 1..];
    assert bucket == a + ([e] + c);
    LookupConcat(a, [e] + c, key);
    LookupConcat(a, c, key);
    LookupConcat([e], c, key);
    LookupNone(a, KeyOf(e));
    LookupNone(c, KeyOf(e));
  }

  // ---------- sizes ----------

  ghost predicate IsSize(size: nat) { size == 64 || (size > 64 && size % 2 == 0 && IsSize(size / 2)) }

  /** for (i = INITHASHMASK + 1; i + i < n; ) i += i; */
  function NewSize(n: nat, i: nat): nat
    requires i > 0
    decreases n - i
  {
    if i + i < n then NewSize(n, i + i) else i
  }

  /** Doubling up from i reaches any size that is too small for n, and stops at the first that is not. */
  lemma {:induction false} NewSizeIs(n: nat, size: nat)
    requires IsSize(size) && 2 * size >= n && (size == 64 || size < n)
    ensures NewSize(n, INITHASHMASK + 1) == size
  {
    if size > 64 {
      NewSizeReaches(n, size);
    }
  }

  lemma {:induction false} NewSizeReaches(n: nat, size: nat)
    requires IsSize(size) && (size == 64 || size < n)
    ensures NewSize(n, INITHASHMASK + 1) == NewSize(n, size)
    decreases size
  {
    if size > 64 {
      NewSizeReaches(n, size / 2);
      assert size / 2 + size / 2 == size;
    }
  }

  /** Number of buckets and of entries. */
  datatype Counts = Counts(size: nat, n: nat)

  /** What holds between operations as long as every resize gets its memory. */
  ghost predicate Balanced(c: Counts) {
    IsSize(c.size) && c.n <= 4 * (c.size - 1) && (c.size == 64 || c.n >= c.size - 1)
  }

  function Inserted(c: Counts): Counts
    requires c.size > 0
  {
    if c.n + 1 > 4 * (c.size - 1) then Counts(NewSize(c.n + 1, INITHASHMASK + 1), c.n + 1) else Counts(c.size, c.n + 1)
  }

  function Removed(c: Counts): Counts
    requires c.size > 0 && c.n > 0
  {
    if c.n - 1 < c.size - 1 && c.size - 1 > INITHASHMASK then Counts(NewSize(c.n - 1, INITHASHMASK + 1), c.n - 1)
    else Counts(c.size, c.n - 1)
  }

  /** An insertion keeps the balance and either keeps the size or doubles it. */
  lemma InsertedSize(c: Counts)
    requires Balanced(c)
    ensures Balanced(Inserted(c))
    ensures Inserted(c).size == if c.n + 1 > 4 * (c.size - 1) then 2 * c.size else c.size
  {
    if c.n + 1 > 4 * (c.size - 1) {
      NewSizeIs(c.n + 1, 2 * c.size);
    }
  }

  /** A removal keeps the balance and either keeps the size or halves it. */
  lemma RemovedSize(c: Counts)
    requires Balanced(c) && c.n > 0
    ensures Balanced(Removed(c))
    ensures Removed(c).size == if c.n < c.size && c.size > 64 then c.size / 2 else c.size
  {
    if c.n < c.size && c.size > 64 {
      NewSizeIs(c.n - 1, c.size / 2);
    }
  }

  datatype Change = Insert | Remove

  function Changed(c: Counts, op: Change): Counts
    requires c.size > 0 && (op.Remove? ==> c.n > 0)
  {
    if op.Insert? then Inserted(c) else Removed(c)
  }

  /** cs is what the changes ops make of cs[0]. */
  ghost predicate IsHistory(cs: seq<Counts>, ops: seq<Change>) {
    && |cs| == |ops| + 1 && Balanced(cs[0])
    && forall i :: 0 <= i < |ops| ==> IsChange(cs[i], ops[i], cs[i + 1])
  }

  predicate IsChange(c: Counts, op: Change, c': Counts) {
    c.size > 0 && (op.Remove? ==> c.n > 0) && c' == Changed(c, op)
  }

  /** A new table starts a history, and every change of its size goes on with it. */
  lemma HistoryGrows(cs: seq<Counts>, ops: seq<Change>, op: Change, c: Counts)
    ensures Balanced(c) ==> IsHistory([c], [])
    ensures IsHistory(cs, ops) && IsChange(cs[|ops|], op, c) ==> IsHistory(cs + [c], ops + [op])
  {
    var cs', ops' := cs + [c], ops + [op];
    if IsHistory(cs, ops) && IsChange(cs[|ops|], op, c) {
      forall i | 0 <= i < |ops'|
        ensures IsChange(cs'[i], ops'[i], cs'[i + 1])
      {
        if i < |ops| { assert IsChange(cs[i], ops[i], cs[i + 1]); }
      }
    }
  }

  lemma {:induction false} HistoryBalanced(cs: seq<Counts>, ops: seq<Change>, i: nat)
    requires IsHistory(cs, ops) && i < |cs|
    ensures Balanced(cs[i])
  {
    if i > 0 {
      HistoryBalanced(cs, ops, i - 1);
      assert IsChange(cs[i - 1], ops[i - 1], cs[i]);
      if ops[i - 1].Insert? { InsertedSize(cs[i - 1]); } else { RemovedSize(cs[i - 1]); }
    }
  }

  /** Until the size changes, i changes move the number of entries by at most i. */
  lemma {:induction false} DriftBound(cs: seq<Counts>, ops: seq<Change>, i: nat)
    requires IsHistory(cs, ops) && i < |cs| && forall j :: 0 <= j <= i ==> cs[j].size == cs[0].size
    ensures cs[0].n - i <= cs[i].n <= cs[0].n + i
  {
    if i > 0 {
      DriftBound(cs, ops, i - 1);
      assert IsChange(cs[i - 1], ops[i - 1], cs[i]);
    }
  }

  /** A resize leaves the number of entries at least size - 1 changes away from the next one. */
  lemma AfterResize(c: Counts, op: Change, c': Counts)
    requires Balanced(c) && IsChange(c, op, c') && c'.size != c.size
    ensures
      && Balanced(c') && (c'.size == 2 * c.size || 2 * c'.size == c.size)
      && 2 * c'.size - 3 <= c'.n <= 2 * c'.size - 2
  {
    if op.Insert? { InsertedSize(c); } else { RemovedSize(c); }
  }

  lemma DropHistory(cs: seq<Counts>, ops: seq<Change>)
    requires IsHistory(cs, ops) && |cs| > 1
    ensures IsHistory(cs[1..], ops[1..])
  {
    HistoryBalanced(cs, ops, 1);
    var cs', ops' := cs[1..], ops[1..];
    forall i | 0 <= i < |ops'|
      ensures IsChange(cs'[i], ops'[i], cs'[i + 1])
    {
      assert IsChange(cs[i + 1], ops[i + 1], cs[i + 2]);
    }
  }

  /** Starting right after a resize, the first change that resizes again is number size - 1 or later. */
  lemma NextResize(cs: seq<Counts>, ops: seq<Change>, k: nat)
    requires IsHistory(cs, ops) && 2 * cs[0].size - 3 <= cs[0].n <= 2 * cs[0].size - 2 && 0 < k < |cs|
    requires forall j :: 0 <= j < k ==> cs[j].size == cs[0].size
    requires cs[k].size != cs[0].size
    ensures k >= cs[0].size - 1
    ensures cs[k].size == 2 * cs[0].size || 2 * cs[k].size == cs[0].size
  {
    HistoryBalanced(cs, ops, k - 1);
    DriftBound(cs, ops, k - 1);
    assert IsChange(cs[k - 1], ops[k - 1], cs[k]);
    if ops[k - 1].Insert? { InsertedSize(cs[k - 1]); } else { RemovedSize(cs[k - 1]); }
  }

  /** Between two resizes, the first to i buckets, at least i - 1 insertions or removals happen,
      the one that causes the second resize included. Each resize doubles or halves the table. */
  lemma ResizesAreRare(cs: seq<Counts>, ops: seq<Change>, k: nat)
    requires IsHistory(cs, ops) && 1 < k < |cs| && cs[1].size != cs[0].size
    requires forall j :: 1 <= j < k ==> cs[j].size == cs[1].size
    requires cs[k].size != cs[1].size
    ensures k - 1 >= cs[1].size - 1
    ensures cs[1].size == 2 * cs[0].size || 2 * cs[1].size == cs[0].size
    ensures cs[k].size == 2 * cs[1].size || 2 * cs[k].size == cs[1].size
  {
    assert IsChange(cs[0], ops[0], cs[1]);
    AfterResize(cs[0], ops[0], cs[1]);
    DropHistory(cs, ops);
    assert cs[1..][k - 1] == cs[k];
    NextResize(cs[1..], ops[1..], k - 1);
  }

  // ---------- the table as an object ----------

  class ContextTable {
    var present: bool               // display->context_db is not null
    var table: seq<seq<Entry>>
    var mask: nat
    var numentries: nat
    ghost var M: map<Key, int>      // the bindings

    ghost predicate Valid()
      reads this
    {
      if present then
        && |table| == mask + 1 && IsSize(|table|)
        && TableOk(table) && Holds(table, M) && numentries == |M|
      else
        M == map[]
    }

    ghost function Size(): Counts
      reads this
    {
      if present then Counts(mask + 1, numentries) else Counts(INITHASHMASK + 1, 0)
    }

    constructor ()
      ensures Valid() && M == map[] && Balanced(Size())
    {
      present, table, mask, numentries, M := false, [], 0, 0, map[];
    }

    /** The search loops: the index of the entry for key in bucket b, or its length. */
    static method Find(bucket: seq<Entry>, rid: nat, context: int) returns (k: nat)
      ensures k <= |bucket|
      ensures forall l :: 0 <= l < k ==> KeyOf(bucket[l]) != (rid, context)
      ensures k < |bucket| ==> KeyOf(bucket[k]) == (rid, context)
    {
      k := 0;
      while k < |bucket|
        invariant k <= |bucket|
        invariant forall l :: 0 <= l < k ==> KeyOf(bucket[l]) != (rid, context)
      {
        if bucket[k].rid == rid && bucket[k].context == context {
          return;
        }
        k := k + 1;
      }
    }

    /** ResizeTable; tableOk says whether the new table gets its memory. */
    method ResizeTable(tableOk: bool)
      requires Valid() && present
      modifies this`table, this`mask
      ensures Valid()
      ensures mask + 1 == if tableOk then NewSize(numentries, INITHASHMASK + 1) else old(mask) + 1
    {
      var i := INITHASHMASK + 1;
      while i + i < numentries
        invariant i > 0 && IsSize(i)
        invariant NewSize(numentries, INITHASHMASK + 1) == NewSize(numentries, i)
        decreases numentries - i
      {
        i := i + i;
      }
      if !tableOk {
        return;
      }
      table := Rechain(table, i, M);
      mask := i - 1;
    }

    /** Moves every entry of otable to the head of its bucket in a table of the given size. */
    static method Rechain(otable: seq<seq<Entry>>, size: nat, ghost M: map<Key, int>) returns (table: seq<seq<Entry>>)
      requires size > 0 && TableOk(otable) && Holds(otable, M)
      ensures |table| == size && TableOk(table) && Holds(table, M)
    {
      table := seq(size, _ => []);
      var pold := 0;
      while pold < |otable|
        invariant 0 <= pold <= |otable| && |table| == size && TableOk(table)
        invariant Partly(otable, table, pold, 0)
      {
        var chain := otable[pold];
        var k := 0;
        while k < |chain|
          invariant 0 <= k <= |chain| && |table| == size && TableOk(table)
          invariant Partly(otable, table, pold, k)
        {
          var entry := chain[k];
          var head := Hash(KeyOf(entry), size);
          PartlyStep(otable, table, pold, k);
          table := table[head := [entry] + table[head]];
          k := k + 1;
        }
        PartlyBucket(otable, table, pold);
        pold := pold + 1;
      }
      forall key
        ensures HoldsAt(table, M, key)
      {
        assert Moved(otable, table, pold, 0, key);
        assert HoldsAt(otable, M, key);
      }
    }

    /** Links a new entry at the head of its bucket and counts it. */
    method Insert(e: Entry, tableOk: bool)
      requires Valid() && present && KeyOf(e) !in M
      modifies this
      ensures Valid() && present && M == old(M)[KeyOf(e) := e.data]
      ensures tableOk ==> Size() == Inserted(old(Size()))
      ensures tableOk && old(Balanced(Size())) ==> Balanced(Size())
    {
      ghost var c := Size();
      var head := Hash(KeyOf(e), mask + 1);
      BucketInsert(table, e, M);
      table := table[head := [e] + table[head]];
      M := M[KeyOf(e) := e.data];
      numentries := numentries + 1;
      if numentries > mask * 4 {
        ResizeTable(tableOk);
      }
      if Balanced(c) { InsertedSize(c); }
    }

    /** Unlinks entry k of bucket prev and counts it off. */
    method Unlink(prev: nat, k: nat, tableOk: bool)
      requires Valid() && present && prev < |table| && k < |table[prev]|
      modifies this
      ensures Valid() && present && M == old(M) - {KeyOf(old(table)[prev][k])}
      ensures tableOk ==> old(Size()).n > 0 && Size() == Removed(old(Size()))
      ensures tableOk && old(Balanced(Size())) ==> Balanced(Size())
    {
      ghost var c := Size();
      BucketRemove(table, prev, k, M);
      M := M - {KeyOf(table[prev][k])};
      table := table[prev := table[prev][..k] + table[prev][k + 1..]];
      numentries := numentries - 1;
      if numentries < mask && mask > INITHASHMASK {
        ResizeTable(tableOk);
      }
      if Balanced(c) { RemovedSize(c); }
    }

    /** XSaveContext. */
    method SaveContext(rid: nat, context: int, data: int, dbOk: bool, entryOk: bool, tableOk: bool) returns (code: int)
      requires Valid()
      modifies this
      ensures Valid()
      ensures code == if (old(present) || dbOk) && ((rid, context) in old(M) || entryOk) then SUCCESS else XCNOMEM
      ensures M == if code == SUCCESS then old(M)[(rid, context) := data] else old(M)
      ensures tableOk ==>
                if code == SUCCESS && (rid, context) !in old(M) then IsChange(old(Size()), Change.Insert, Size()) else Size() == old(Size())
      ensures tableOk && old(Balanced(Size())) ==> Balanced(Size())
    {
      if !present {
        if !dbOk {
          return XCNOMEM;
        }
        present, mask, table, numentries := true, INITHASHMASK, seq(INITHASHMASK + 1, _ => []), 0;
        EmptyTable(table);
      }
      var head := Hash((rid, context), mask + 1);
      var k := Find(table[head], rid, context);
      if k < |table[head]| {
        BucketUpdate(table, head, k, data, M);
        table := table[head := table[head][k := table[head][k].(data := data)]];
        M := M[(rid, context) := data];
        return SUCCESS;
      }
      NotBound(table, M, (rid, context));
      if !entryOk {
        return XCNOMEM;
      }
      Insert(Entry(rid, context, data), tableOk);
      return SUCCESS;
    }

    /** XFindContext. */
    method FindContext(rid: nat, context: int) returns (code: int, data: int)
      requires Valid()
      ensures code == if (rid, context) in M then SUCCESS else XCNOENT
      ensures (rid, context) in M ==> data == M[(rid, context)]
    {
      data := 0;
      if !present {
        return XCNOENT, data;
      }
      var bucket := table[Hash((rid, context), mask + 1)];
      var k := Find(bucket, rid, context);
      if k < |bucket| {
        LookupAt(bucket, k, (rid, context));
        assert HoldsAt(table, M, (rid, context));
        return SUCCESS, bucket[k].data;
      }
      NotBound(table, M, (rid, context));
      return XCNOENT, data;
    }

    /** XDeleteContext. */
    method DeleteContext(rid: nat, context: int, tableOk: bool) returns (code: int)
      requires Valid()
      modifies this
      ensures Valid()
      ensures code == if (rid, context) in old(M) then SUCCESS else XCNOENT
      ensures M == old(M) - {(rid, context)}
      ensures tableOk ==> old(Size()).n >= |old(M)| &&
                          if code == SUCCESS then IsChange(old(Size()), Change.Remove, Size()) else Size() == old(Size())
      ensures tableOk && old(Balanced(Size())) ==> Balanced(Size())
    {
      if !present {
        return XCNOENT;
      }
      var prev := Hash((rid, context), mask + 1);
      var k := Find(table[prev], rid, context);
      if k < |table[prev]| {
        BucketRemove(table, prev, k, M);
        Unlink(prev, k, tableOk);
        return SUCCESS;
      }
      NotBound(table, M, (rid, context));
      return XCNOENT;
    }
  }

  // ---------- moving entries to a new table ----------

  /** Key has been moved if its old bucket is before pold, or it is among the first k of bucket pold. */
  ghost predicate Moved(otable: seq<seq<Entry>>, table: seq<seq<Entry>>, pold: nat, k: nat, key: Key)
    requires |otable| > 0 && |table| > 0 && pold <= |otable| && (pold < |otable| ==> k <= |otable[pold]|)
  {
    var b := Hash(key, |otable|);
    Lookup(table[Hash(key, |table|)], key) ==
      if b < pold then Lookup(otable[b], key)
      else if b == pold then Lookup(otable[b][..k], key)
      else None
  }

  ghost predicate Partly(otable: seq<seq<Entry>>, table: seq<seq<Entry>>, pold: nat, k: nat)
    requires |otable| > 0 && |table| > 0 && pold <= |otable| && (pold < |otable| ==> k <= |otable[pold]|)
  {
    forall key :: Moved(otable, table, pold, k, key)
  }

  lemma PartlyStep(otable: seq<seq<Entry>>, table: seq<seq<Entry>>, pold: nat, k: nat)
    requires TableOk(otable) && TableOk(table) && pold < |otable| && k < |otable[pold]|
    requires Partly(otable, table, pold, k)
    ensures var e := otable[pold][k]; var head := Hash(KeyOf(e), |table|);
      var table' := table[head := [e] + table[head]];
      TableOk(table') && Partly(otable, table', pold, k + 1)
  {
    var chain := otable[pold];
    var e := chain[k];
    var head := Hash(KeyOf(e), |table|);
    var table' := table[head := [e] + table[head]];
    assert BucketOk(chain, pold, |otable|);
    LookupNone(chain[..k], KeyOf(e));
    assert Moved(otable, table, pold, k, KeyOf(e));
    LookupNone(table[head], KeyOf(e));
    assert BucketOk(table[head], head, |table|);
    var k' := k + 1;
    forall key
      ensures Moved(otable, table', pold, k', key)
    {
      assert Moved(otable, table, pold, k, key);
      assert chain[..k + 1] == chain[..k] + [e];
      LookupConcat(chain[..k], [e], key);
      LookupConcat([e], table[head], key);
    }
  }

  lemma PartlyBucket(otable: seq<seq<Entry>>, table: seq<seq<Entry>>, pold: nat)
    requires |otable| > 0 && |table| > 0 && pold < |otable| && Partly(otable, table, pold, |otable[pold]|)
    ensures Partly(otable, table, pold + 1, 0)
  {
    assert otable[pold][..|otable[pold]|] == otable[pold];
    var pold' := pold + 1;
    forall key
      ensures Moved(otable, table, pold', 0, key)
    {
      assert Moved(otable, table, pold, |otable[pold]|, key);
      if pold + 1 < |otable| { assert otable[pold + 1][..0] == []; }
    }
  }

  lemma EmptyTable(table: seq<seq<Entry>>)
    requires |table| > 0 && forall b :: 0 <= b < |table| ==> table[b] == []
    ensures TableOk(table) && Holds(table, map[])
  {
    forall key
      ensures HoldsAt(table, map[], key)
    {
    }
  }

  /** A key that its bucket does not hold is not bound. */
  lemma NotBound(table: seq<seq<Entry>>, M: map<Key, int>, key: Key)
    requires |table| > 0 && Holds(table, M)
    requires forall k :: 0 <= k < |table[Hash(key, |table|)]| ==> KeyOf(table[Hash(key, |table|)][k]) != key
    ensures key !in M
  {
    LookupNone(table[Hash(key, |table|)], key);
    assert HoldsAt(table, M, key);
  }

  lemma BucketUpdate(table: seq<seq<Entry>>, b: nat, k: nat, data: int, M: map<Key, int>)
    requires TableOk(table) && Holds(table, M) && b < |table| && k < |table[b]|
    ensures var key := KeyOf(table[b][k]);
      var table' := table[b := table[b][k := table[b][k].(data := data)]];
      key in M && TableOk(table') && Holds(table', M[key := data]) && |M[key := data]| == |M|
  {
    var key := KeyOf(table[b][k]);
    var table' := table[b := table[b][k := table[b][k].(data := data)]];
    assert BucketOk(table[b], b, |table|);
    LookupNone(table[b], key);
    assert HoldsAt(table, M, key);
    var M' := M[key := data];
    forall key'
      ensures HoldsAt(table', M', key')
    {
      assert HoldsAt(table, M, key');
      LookupUpdate(table[b], k, data, key');
    }
    assert M[key := data].Keys == M.Keys;
  }

  lemma BucketInsert(table: seq<seq<Entry>>, e: Entry, M: map<Key, int>)
    requires TableOk(table) && Holds(table, M) && KeyOf(e) !in M
    ensures var b := Hash(KeyOf(e), |table|);
      var table' := table[b := [e] + table[b]];
      TableOk(table') && Holds(table', M[KeyOf(e) := e.data]) && |M[KeyOf(e) := e.data]| == |M| + 1
  {
    var b := Hash(KeyOf(e), |table|);
    var table' := table[b := [e] + table[b]];
    assert HoldsAt(table, M, KeyOf(e));
    LookupNone(table[b], KeyOf(e));
    assert BucketOk(table[b], b, |table|);
    var M' := M[KeyOf(e) := e.data];
    forall key'
      ensures HoldsAt(table', M', key')
    {
      assert HoldsAt(table, M, key');
      LookupConcat([e], table[b], key');
    }
  }

  lemma BucketRemove(table: seq<seq<Entry>>, b: nat, k: nat, M: map<Key, int>)
    requires TableOk(table) && Holds(table, M) && b < |table| && k < |table[b]|
    ensures var key := KeyOf(table[b][k]);
      var table' := table[b := table[b][..k] + table[b][k + 1..]];
      key in M && TableOk(table') && Holds(table', M - {key}) && |M - {key}| == |M| - 1
  {
    var key := KeyOf(table[b][k]);
    var bucket' := table[b][..k] + table[b][k + 1..];
    var table' := table[b := bucket'];
    assert BucketOk(table[b], b, |table|);
    LookupNone(table[b], key);
    assert HoldsAt(table, M, key);
    assert forall l :: 0 <= l < |bucket'| ==> bucket'[l] == table[b][if l < k then l else l + 1];
    var M' := M - {key};
    forall key'
      ensures HoldsAt(table', M', key')
    {
      assert HoldsAt(table, M, key');
      LookupRemove(table[b], k, key');
    }
    assert (M - {key}).Keys == M.Keys - {key};
  }
}
