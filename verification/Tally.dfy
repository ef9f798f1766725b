/** Sums over sequences that do not depend on the order. */
module Tally {

  function Sum<E>(f: E -> int, s: seq<E>): int {
    if s == [] then 0 else Sum(f, s[..|s| - 1]) + f(s[|s| - 1])
  }

  /** The elements for which p holds, in order. */
  function Keep<E>(p: E -> bool, s: seq<E>): (r: seq<E>)
    ensures forall e :: e in r ==> e in s && p(e)
    ensures forall e :: e in s && p(e) ==> e in r
  {
    if s == [] then [] else Keep(p, s[..|s| - 1]) + if p(s[|s| - 1]) then [s[|s| - 1]] else []
  }

  predicate Distinct<E(==)>(s: seq<E>) { forall i, j :: 0 <= i < j < |s| ==> s[i] != s[j] }

  lemma {:induction false} SumJoin<E>(f: E -> int, a: seq<E>, b: seq<E>)
    ensures Sum(f, a + b) == Sum(f, a) + Sum(f, b)
  {
    if b == [] {
      assert a + b == a;
    } else {
      SumJoin(f, a, b[..|b| - 1]);
      assert (a + b)[..|a + b| - 1] == a + b[..|b| - 1];
    }
  }

  /** Sums do not depend on the order. */
  lemma {:induction false} SumPermuted<E>(f: E -> int, a: seq<E>, b: seq<E>)
    requires multiset(a) == multiset(b)
    ensures Sum(f, a) == Sum(f, b)
    decreases |a|
  {
    if a == [] {
      assert |multiset(b)| == 0;
    } else {
      var a', x := a[..|a| - 1], a[|a| - 1];
      assert a == a' + [x];
      assert x in multiset(b);
      var i :| 0 <= i < |b| && b[i] == x;
      var b' := b[..i] + b[i + 1..];
      assert b == b[..i] + [x] + b[i + 1..];
      assert multiset(a') == multiset(a) - multiset{x} == multiset(b');
      SumPermuted(f, a', b');
      SumJoin(f, b[..i], b[i + 1..]);
      SumJoin(f, b[..i] + [x], b[i + 1..]);
      SumJoin(f, b[..i], [x]);
      assert Sum(f, [x]) == f(x) by { assert [x][..0] == []; }
    }
  }

  /** Elements that add nothing may be left out. */
  lemma {:induction false} SumKeep<E>(f: E -> int, p: E -> bool, s: seq<E>)
    requires forall e :: e in s && !p(e) ==> f(e) == 0
    ensures Sum(f, Keep(p, s)) == Sum(f, s)
  {
    if s != [] {
      var s', x := s[..|s| - 1], s[|s| - 1];
      SumKeep(f, p, s');
      var k := Keep(p, s');
      if p(x) {
        assert Keep(p, s) == k + [x] && (k + [x])[..|k|] == k;
      } else {
        assert Keep(p, s) == k + [] == k;
      }
    }
  }

  lemma {:induction false} KeepDistinct<E>(p: E -> bool, s: seq<E>)
    requires Distinct(s)
    ensures Distinct(Keep(p, s))
  {
    if s != [] {
      var s' := s[..|s| - 1];
      KeepDistinct(p, s');
      assert s[|s| - 1] !in s';
    }
  }

  lemma {:induction false} DistinctOnce<E>(s: seq<E>, e: E)
    requires Distinct(s)
    ensures multiset(s)[e] == if e in s then 1 else 0
  {
    if s != [] {
      var s', x := s[..|s| - 1], s[|s| - 1];
      DistinctOnce(s', e);
      assert s == s' + [x];
      assert x !in s';
    }
  }

  /** Sequences without repetitions and with the same elements are permutations of each other. */
  lemma SameElements<E>(a: seq<E>, b: seq<E>)
    requires Distinct(a) && Distinct(b) && (forall e :: e in a ==> e in b) && (forall e :: e in b ==> e in a)
    ensures multiset(a) == multiset(b)
  {
    forall e | e in multiset(a) || e in multiset(b)
      ensures multiset(a)[e] == multiset(b)[e]
    {
      DistinctOnce(a, e);
      DistinctOnce(b, e);
    }
  }
}
