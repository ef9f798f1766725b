/** The orders of edges that the polygon scan keeps: sorted by x, merged, and picked by winding number. */
module EdgeOrder {

  /** x of each edge, or which way it goes. */
  predicate Keyed<E, K>(key: map<E, K>, s: seq<E>) { forall e :: e in s ==> e in key }

  predicate Sorted<E>(key: map<E, int>, s: seq<E>)
    requires Keyed(key, s)
  {
    forall i, j :: 0 <= i < j < |s| ==> key[s[i]] <= key[s[j]]
  }

  /** The elements with key v, in order. */
  function Filter<E>(key: map<E, int>, v: int, s: seq<E>): seq<E>
    requires Keyed(key, s)
  {
    if s == [] then [] else Filter(key, v, s[..|s| - 1]) + (if key[s[|s| - 1]] == v then [s[|s| - 1]] else [])
  }

  /** t is s in the order of its keys, and elements with equal keys are in the order they were. */
  ghost predicate StablySorted<E>(key: map<E, int>, s: seq<E>, t: seq<E>) {
    && Keyed(key, s) && Keyed(key, t)
    && Sorted(key, t) && multiset(t) == multiset(s)
    && (forall v :: Filter(key, v, t) == Filter(key, v, s))
  }

  // ---------- insertion ----------

  /** Where an insertion from the right stops: after the last element not greater than x. */
  function Place<E>(key: map<E, int>, s: seq<E>, x: int): (c: nat)
    requires Keyed(key, s)
    ensures c <= |s|
    ensures c > 0 ==> key[s[c - 1]] <= x
    ensures forall i :: c <= i < |s| ==> key[s[i]] > x
  {
    if s == [] || key[s[|s| - 1]] <= x then |s| else Place(key, s[..|s| - 1], x)
  }

  function Insert<E>(key: map<E, int>, s: seq<E>, x: E): (r: seq<E>)
    requires Keyed(key, s) && x in key
    ensures Keyed(key, r) && |r| == |s| + 1
  {
    var c := Place(key, s, key[x]);
    s[..c] + [x] + s[c..]
  }

  function InsertionSorted<E>(key: map<E, int>, s: seq<E>): (r: seq<E>)
    requires Keyed(key, s)
    ensures Keyed(key, r) && |r| == |s|
  {
    if s == [] then [] else Insert(key, InsertionSorted(key, s[..|s| - 1]), s[|s| - 1])
  }

  lemma {:induction false} FilterJoin<E>(key: map<E, int>, v: int, a: seq<E>, b: seq<E>)
    requires Keyed(key, a) && Keyed(key, b)
    ensures Keyed(key, a + b) && Filter(key, v, a + b) == Filter(key, v, a) + Filter(key, v, b)
  {
    if b == [] {
      assert a + b == a;
    } else {
      var b' := b[..|b| - 1];
      FilterJoin(key, v, a, b');
      assert (a + b)[..|a + b| - 1] == a + b';
    }
  }

  lemma {:induction false} FilterNone<E>(key: map<E, int>, v: int, s: seq<E>)
    requires Keyed(key, s) && forall i :: 0 <= i < |s| ==> key[s[i]] != v
    ensures Filter(key, v, s) == []
  {
    if s != [] { FilterNone(key, v, s[..|s| - 1]); }
  }

  lemma InsertHolds<E>(key: map<E, int>, s: seq<E>, x: E)
    requires Keyed(key, s) && x in key
    ensures multiset(Insert(key, s, x)) == multiset(s) + multiset{x}
  {
    var c := Place(key, s, key[x]);
    assert s == s[..c] + s[c..];
  }

  lemma InsertSorts<E>(key: map<E, int>, s: seq<E>, x: E)
    requires Keyed(key, s) && x in key && Sorted(key, s)
    ensures Sorted(key, Insert(key, s, x))
  {
    var c := Place(key, s, key[x]);
    var r := Insert(key, s, x);
    forall i, j | 0 <= i < j < |r|
      ensures key[r[i]] <= key[r[j]]
    {
      if i < c {
        assert key[s[i]] <= key[s[c - 1]];
      }
      if i < c < j { assert key[s[i]] <= key[s[j - 1]]; }
    }
  }

  lemma InsertFilters<E>(key: map<E, int>, s: seq<E>, x: E, v: int)
    requires Keyed(key, s) && x in key
    ensures Filter(key, v, Insert(key, s, x)) == Filter(key, v, s + [x])
  {
    var c := Place(key, s, key[x]);
    var a, b := s[..c], s[c..];
    assert s == a + b;
    if v == key[x] { FilterNone(key, v, b); }
    FilterMoved(key, a, b, x, v);
  }

  /** Elements of another key do not mind in which order they are. */
  lemma FilterMoved<E>(key: map<E, int>, a: seq<E>, b: seq<E>, x: E, v: int)
    requires Keyed(key, a) && Keyed(key, b) && x in key && (v == key[x] ==> Filter(key, v, b) == [])
    ensures Keyed(key, a + [x] + b) && Keyed(key, a + b + [x])
    ensures Filter(key, v, a + [x] + b) == Filter(key, v, a + b + [x])
  {
    var one := [x];
    assert v != key[x] ==> Filter(key, v, one) == [] by { FilterNone(key, v, if v != key[x] then one else []); }
    FilterJoin(key, v, a, one);
    FilterJoin(key, v, a + one, b);
    FilterJoin(key, v, a, b);
    FilterJoin(key, v, a + b, one);
  }

  /** Insertion sort is stable sorting. */
  lemma {:induction false} InsertionSorts<E>(key: map<E, int>, s: seq<E>)
    requires Keyed(key, s)
    ensures StablySorted(key, s, InsertionSorted(key, s))
  {
    if s != [] {
      var s', x := s[..|s| - 1], s[|s| - 1];
      var t := InsertionSorted(key, s');
      InsertionSorts(key, s');
      InsertSorts(key, t, x);
      InsertHolds(key, t, x);
      assert s == s' + [x];
      forall v
        ensures Filter(key, v, InsertionSorted(key, s)) == Filter(key, v, s)
      {
        InsertFilters(key, t, x, v);
        FilterJoin(key, v, t, [x]);
        FilterJoin(key, v, s', [x]);
      }
    }
  }

  /** It leaves exactly the sorted sequences alone. */
  lemma {:induction false} SortedUnchanged<E>(key: map<E, int>, s: seq<E>)
    requires Keyed(key, s) && Sorted(key, s)
    ensures InsertionSorted(key, s) == s
  {
    if s != [] {
      var s' := s[..|s| - 1];
      SortedUnchanged(key, s');
      assert s == s' + [s[|s| - 1]];
    }
  }

  /** One more element keeps a sequence sorted if it is not smaller than the greatest so far. */
  lemma SortedGrows<E>(key: map<E, int>, s: seq<E>, x: E)
    requires Keyed(key, s) && x in key
    ensures var t := InsertionSorted(key, s);
      Keyed(key, s + [x]) && (Sorted(key, s + [x]) <==> Sorted(key, s) && (t == [] || key[t[|t| - 1]] <= key[x]))
  {
    var u := s + [x];
    if Sorted(key, u) {
      assert forall i, j :: 0 <= i < j < |s| ==> s[i] == u[i] && s[j] == u[j];
      SortedUnchanged(key, s);
      assert s != [] ==> key[u[|s| - 1]] <= key[u[|s|]];
    }
    if Sorted(key, s) { SortedUnchanged(key, s); }
  }

  // ---------- merging ----------

  /** Elements of b go before the elements of a that are not smaller. */
  function Merge<E>(key: map<E, int>, a: seq<E>, b: seq<E>): (r: seq<E>)
    requires Keyed(key, a) && Keyed(key, b)
    ensures Keyed(key, r) && |r| == |a| + |b|
    decreases |a| + |b|
  {
    if b == [] then a
    else if a != [] && key[a[0]] < key[b[0]] then [a[0]] + Merge(key, a[1..], b)
    else [b[0]] + Merge(key, a, b[1..])
  }

  lemma FrontCounts<E>(s: seq<E>)
    requires s != []
    ensures multiset(s) == multiset{s[0]} + multiset(s[1..])
  {
    assert s == [s[0]] + s[1..];
  }

  lemma {:induction false} MergeHolds<E>(key: map<E, int>, a: seq<E>, b: seq<E>)
    requires Keyed(key, a) && Keyed(key, b)
    ensures multiset(Merge(key, a, b)) == multiset(a) + multiset(b)
    decreases |a| + |b|
  {
    if b == [] {
    } else if a != [] && key[a[0]] < key[b[0]] {
      MergeHolds(key, a[1..], b);
      FrontCounts(a);
      FrontCounts([a[0]] + Merge(key, a[1..], b));
    } else {
      MergeHolds(key, a, b[1..]);
      FrontCounts(b);
      FrontCounts([b[0]] + Merge(key, a, b[1..]));
    }
  }

  predicate AtLeast<E>(key: map<E, int>, v: int, s: seq<E>)
    requires Keyed(key, s)
  {
    forall i :: 0 <= i < |s| ==> v <= key[s[i]]
  }

  lemma {:induction false} MergeAtLeast<E>(key: map<E, int>, v: int, a: seq<E>, b: seq<E>)
    requires Keyed(key, a) && Keyed(key, b) && AtLeast(key, v, a) && AtLeast(key, v, b)
    ensures AtLeast(key, v, Merge(key, a, b))
    decreases |a| + |b|
  {
    if b == [] {
    } else if a != [] && key[a[0]] < key[b[0]] {
      MergeAtLeast(key, v, a[1..], b);
    } else {
      MergeAtLeast(key, v, a, b[1..]);
    }
  }

  lemma SortedCons<E>(key: map<E, int>, x: E, s: seq<E>)
    requires x in key && Keyed(key, s) && Sorted(key, s) && AtLeast(key, key[x], s)
    ensures Sorted(key, [x] + s)
  {
  }

  /** Merging sorted sequences sorts them. */
  lemma {:induction false} MergeSorts<E>(key: map<E, int>, a: seq<E>, b: seq<E>)
    requires Keyed(key, a) && Keyed(key, b) && Sorted(key, a) && Sorted(key, b)
    ensures Sorted(key, Merge(key, a, b))
    decreases |a| + |b|
  {
    if b == [] {
    } else if a != [] && key[a[0]] < key[b[0]] {
      MergeSorts(key, a[1..], b);
      MergeAtLeast(key, key[a[0]], a[1..], b);
      SortedCons(key, a[0], Merge(key, a[1..], b));
    } else {
      MergeSorts(key, a, b[1..]);
      MergeAtLeast(key, key[b[0]], a, b[1..]);
      SortedCons(key, b[0], Merge(key, a, b[1..]));
    }
  }

  // ---------- winding numbers ----------

  /** Clockwise edges minus the others. */
  function Winding<E>(clockwise: map<E, bool>, s: seq<E>): int
    requires Keyed(clockwise, s)
  {
    if s == [] then 0 else Winding(clockwise, s[..|s| - 1]) + if clockwise[s[|s| - 1]] then 1 else -1
  }

  /** The edges at which the running winding number moves between zero and non-zero. */
  function Crossings<E>(clockwise: map<E, bool>, s: seq<E>): (r: seq<E>)
    requires Keyed(clockwise, s)
    ensures forall e :: e in r ==> e in s
  {
    if s == [] then []
    else
      Crossings(clockwise, s[..|s| - 1])
      + if (Winding(clockwise, s[..|s| - 1]) == 0) != (Winding(clockwise, s) == 0) then [s[|s| - 1]] else []
  }

  /** Taken in pairs, the crossings delimit exactly the non-zero winding numbers: after any number of edges the
      winding number is non-zero if and only if the crossings so far are odd in number. */
  lemma {:induction false} OddCrossings<E>(clockwise: map<E, bool>, s: seq<E>)
    requires Keyed(clockwise, s)
    ensures |Crossings(clockwise, s)| % 2 == 1 <==> Winding(clockwise, s) != 0
  {
    if s != [] { OddCrossings(clockwise, s[..|s| - 1]); }
  }
}
