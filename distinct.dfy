// Duplicate-free lists. Both the start handlers (`filter((v, i, a) =>
// a.indexOf(v) === i)`) and the client (`Array.from(new Set(xs))`) keep the first
// occurrence of every value, in order of first occurrence.

module Distinct {

  predicate NoDups<T(==,!new)>(s: seq<T>)
  {
    forall i, j :: 0 <= i < j < |s| ==> s[i] != s[j]
  }

  /** `a.indexOf(x)` for a value that occurs in `a`. */
  function FirstIndex<T(==,!new)>(a: seq<T>, x: T): (k: nat)
    requires x in a
    ensures k < |a| && a[k] == x
    ensures forall j :: 0 <= j < k ==> a[j] != x
  {
    if a[0] == x then 0 else 1 + FirstIndex(a[1..], x)
  }

  /** The elements of `a[i..]` whose first occurrence in `a` is at their own
      index, that is, the filter `a.indexOf(v) === i` run from index `i` on. */
  function DedupFrom<T(==,!new)>(a: seq<T>, i: nat): (r: seq<T>)
    requires i <= |a|
    ensures forall x :: x in r ==> x in a
    ensures forall x :: x in r <==> x in a[i..] && x !in a[..i]
    ensures NoDups(r)
    decreases |a| - i
  {
    if i == |a| then []
    else
      var rest := DedupFrom(a, i + 1);
      assert a[..i + 1] == a[..i] + [a[i]];
      assert a[i..] == [a[i]] + a[i + 1..];
      if a[i] in a[..i] then rest
      else
        NoDupsCons(a[i], rest);
        [a[i]] + rest
  }

  lemma NoDupsCons<T(!new)>(x: T, s: seq<T>)
    requires x !in s && NoDups(s)
    ensures NoDups([x] + s)
  {
    var t := [x] + s;
    forall i, j | 0 <= i < j < |t| ensures t[i] != t[j] {
      assert t[j] == s[j - 1];
      if i > 0 {
        assert t[i] == s[i - 1];
      }
    }
  }

  /** The first-occurrence dedup of `a`. */
  function Dedup<T(==,!new)>(a: seq<T>): (r: seq<T>)
    ensures forall x :: x in r <==> x in a
    ensures NoDups(r)
    ensures |r| <= |a|
  {
    assert a[0..] == a;
    DedupLength(a, 0);
    DedupFrom(a, 0)
  }

  lemma {:induction false} DedupLength<T(!new)>(a: seq<T>, i: nat)
    requires i <= |a|
    ensures |DedupFrom(a, i)| <= |a| - i
    decreases |a| - i
  {
    if i < |a| {
      DedupLength(a, i + 1);
    }
  }

  /** `r` lists values of `a` in the order in which they first occur in `a`. */
  predicate InFirstOccurrenceOrder<T(==,!new)>(a: seq<T>, r: seq<T>)
  {
    forall p, q :: 0 <= p < q < |r| ==>
      r[p] in a && r[q] in a && FirstIndex(a, r[p]) < FirstIndex(a, r[q])
  }

  lemma DedupFromBound<T(!new)>(a: seq<T>, i: nat)
    requires i <= |a|
    ensures forall x :: x in DedupFrom(a, i) ==> i <= FirstIndex(a, x)
  {
    forall x | x in DedupFrom(a, i) ensures i <= FirstIndex(a, x) {
      FirstIndexAfterPrefix(a, x, i);
    }
  }

  lemma OrderedCons<T(!new)>(a: seq<T>, x: T, rest: seq<T>)
    requires x in a && InFirstOccurrenceOrder(a, rest)
    requires forall y :: y in rest ==> y in a && FirstIndex(a, x) < FirstIndex(a, y)
    ensures InFirstOccurrenceOrder(a, [x] + rest)
  {
    var r := [x] + rest;
    forall p, q | 0 <= p < q < |r|
      ensures r[p] in a && r[q] in a && FirstIndex(a, r[p]) < FirstIndex(a, r[q])
    {
      var y := rest[q - 1];
      assert r[q] == y && y in rest;
      if p == 0 {
        assert r[p] == x;
        assert FirstIndex(a, x) < FirstIndex(a, y);
      } else {
        var z := rest[p - 1];
        assert r[p] == z;
        assert 0 <= p - 1 < q - 1 < |rest|;
        assert FirstIndex(a, z) < FirstIndex(a, y);
      }
    }
  }

  /** The kept values appear in the order of their first occurrence in `a`. */
  lemma {:induction false} DedupFromOrder<T(!new)>(a: seq<T>, i: nat)
    requires i <= |a|
    ensures InFirstOccurrenceOrder(a, DedupFrom(a, i))
    decreases |a| - i
  {
    if i < |a| {
      DedupFromOrder(a, i + 1);
      var rest := DedupFrom(a, i + 1);
      if a[i] !in a[..i] {
        DedupFromBound(a, i + 1);
        FirstIndexAfterPrefix(a, a[i], i);
        OrderedCons(a, a[i], rest);
        assert DedupFrom(a, i) == [a[i]] + rest;
      } else {
        assert DedupFrom(a, i) == rest;
      }
    }
  }

  /** A value that does not occur in `a[..i]` first occurs at index `i` or later. */
  lemma FirstIndexAfterPrefix<T(!new)>(a: seq<T>, x: T, i: nat)
    requires x in a && i <= |a| && x !in a[..i]
    ensures FirstIndex(a, x) >= i
  {
    forall j | 0 <= j < i ensures a[j] != x {
      assert a[j] == a[..i][j];
    }
  }

  /** The dedup lists every value of `a` exactly once, in the order in which
      the values first occur in `a`. */
  lemma DedupOrder<T(!new)>(a: seq<T>)
    ensures InFirstOccurrenceOrder(a, Dedup(a))
  {
    assert Dedup(a) == DedupFrom(a, 0);
    DedupFromOrder(a, 0);
  }

  /** A duplicate-free list is its own dedup. */
  lemma {:induction false} DedupOfDistinct<T(!new)>(a: seq<T>, i: nat)
    requires i <= |a| && NoDups(a)
    ensures DedupFrom(a, i) == a[i..]
    decreases |a| - i
  {
    if i < |a| {
      DedupOfDistinct(a, i + 1);
      assert a[i] !in a[..i];
      assert a[i..] == [a[i]] + a[i + 1..];
    }
  }

  /** In a duplicate-free list every value occurs once or not at all. */
  lemma {:induction false} DistinctMultiplicity<T(!new)>(s: seq<T>, x: T)
    requires NoDups(s)
    ensures multiset(s)[x] == if x in s then 1 else 0
  {
    if s != [] {
      NoDupsTail(s);
      DistinctMultiplicity(s[1..], x);
      assert s == [s[0]] + s[1..];
      assert s[0] !in s[1..];
    }
  }

  /** Two duplicate-free lists with the same elements are permutations of each other. */
  lemma DistinctSameElementsPermutation<T(!new)>(a: seq<T>, b: seq<T>)
    requires NoDups(a) && NoDups(b)
    requires forall x :: x in a <==> x in b
    ensures multiset(a) == multiset(b)
  {
    forall x ensures multiset(a)[x] == multiset(b)[x] {
      DistinctMultiplicity(a, x);
      DistinctMultiplicity(b, x);
    }
  }

  lemma NoDupsTail<T(!new)>(a: seq<T>)
    requires NoDups(a) && a != []
    ensures NoDups(a[1..])
  {
    forall i, j | 0 <= i < j < |a| - 1 ensures a[1..][i] != a[1..][j] {
      assert a[1..][i] == a[i + 1] && a[1..][j] == a[j + 1];
    }
  }

  /** A list in which no value occurs twice is duplicate-free. */
  lemma {:induction false} AtMostOnceIsDistinct<T(!new)>(s: seq<T>)
    requires forall x :: multiset(s)[x] <= 1
    ensures NoDups(s)
  {
    forall i, j | 0 <= i < j < |s| ensures s[i] != s[j] {
      var x := s[i];
      assert s == s[..j] + [s[j]] + s[j + 1..];
      assert s[..j][i] == x;
      assert multiset(s)[x] == multiset(s[..j])[x] + multiset([s[j]])[x] + multiset(s[j + 1..])[x];
    }
  }

  /** A permutation of a duplicate-free list is duplicate-free. */
  lemma PermutationDistinct<T(!new)>(a: seq<T>, b: seq<T>)
    requires NoDups(a) && multiset(a) == multiset(b)
    ensures NoDups(b)
  {
    forall x ensures multiset(b)[x] <= 1 {
      DistinctMultiplicity(a, x);
    }
    AtMostOnceIsDistinct(b);
  }
}
