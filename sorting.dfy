// Sorting by a comparator, as `Array.prototype.sort` does on the client: a
// strict total order `less` (the default code-unit order or `localeCompare`)
// and an insertion sort that yields a sorted permutation of its input.

module Sorting {
  import opened Distinct

  /** `less` is irreflexive, transitive and total on distinct values. */
  ghost predicate IsStrictTotalOrder<T(!new)>(less: (T, T) -> bool)
  {
    && (forall a :: !less(a, a))
    && (forall a, b, c :: less(a, b) && less(b, c) ==> less(a, c))
    && (forall a, b :: a != b ==> less(a, b) || less(b, a))
  }

  /** No later element is `less` than an earlier one. */
  predicate Sorted<T(!new)>(s: seq<T>, less: (T, T) -> bool)
  {
    forall i, j :: 0 <= i < j < |s| ==> !less(s[j], s[i])
  }

  /** Every earlier element is `less` than every later one. */
  predicate StrictlySorted<T(!new)>(s: seq<T>, less: (T, T) -> bool)
  {
    forall i, j :: 0 <= i < j < |s| ==> less(s[i], s[j])
  }

  /** Inserts `x` before the first element it does not follow. */
  function Insert<T(!new)>(x: T, s: seq<T>, less: (T, T) -> bool): (r: seq<T>)
    requires IsStrictTotalOrder(less)
    ensures multiset(r) == multiset(s) + multiset{x}
    ensures Sorted(s, less) ==> Sorted(r, less)
  {
    if s == [] then [x]
    else if less(s[0], x) then
      var rest := Insert(x, s[1..], less);
      assert s == [s[0]] + s[1..];
      assert forall y :: y in multiset(rest) ==> y == x || y in multiset(s[1..]);
      InsertHead(s[0], rest, s, x, less);
      [s[0]] + rest
    else
      assert multiset([x] + s) == multiset(s) + multiset{x};
      InsertFront(x, s, less);
      [x] + s
  }

  lemma InsertHead<T(!new)>(h: T, rest: seq<T>, s: seq<T>, x: T, less: (T, T) -> bool)
    requires IsStrictTotalOrder(less)
    requires s != [] && h == s[0] && less(h, x)
    requires forall y :: y in multiset(rest) ==> y == x || y in multiset(s[1..])
    requires Sorted(s, less) ==> Sorted(rest, less)
    ensures Sorted(s, less) ==> Sorted([h] + rest, less)
  {
    if Sorted(s, less) {
      var r := [h] + rest;
      forall i, j | 0 <= i < j < |r| ensures !less(r[j], r[i]) {
        if i > 0 {
          assert r[i] == rest[i - 1] && r[j] == rest[j - 1];
        } else {
          var y := rest[j - 1];
          assert r[j] == y && y in multiset(rest);
          if y != x {
            assert y in s[1..];
            var k :| 0 <= k < |s[1..]| && s[1..][k] == y;
            assert s[k + 1] == y;
          }
        }
      }
    }
  }

  lemma InsertFront<T(!new)>(x: T, s: seq<T>, less: (T, T) -> bool)
    requires IsStrictTotalOrder(less)
    requires s != [] && !less(s[0], x)
    ensures Sorted(s, less) ==> Sorted([x] + s, less)
  {
    if Sorted(s, less) {
      var r := [x] + s;
      forall i, j | 0 <= i < j < |r| ensures !less(r[j], r[i]) {
        if i > 0 {
          assert r[i] == s[i - 1] && r[j] == s[j - 1];
        } else {
          var y := s[j - 1];
          assert r[j] == y;
          if j - 1 > 0 {
            assert !less(y, s[0]);
          }
        }
      }
    }
  }

  /** `s.slice().sort(comparator)`: a sorted permutation of `s`. */
  function SortBy<T(!new)>(s: seq<T>, less: (T, T) -> bool): (r: seq<T>)
    requires IsStrictTotalOrder(less)
    ensures multiset(r) == multiset(s)
    ensures Sorted(r, less)
  {
    if s == [] then []
    else
      assert s == [s[0]] + s[1..];
      Insert(s[0], SortBy(s[1..], less), less)
  }

  /** A sorted duplicate-free list is strictly sorted. */
  lemma SortedDistinctIsStrict<T(!new)>(s: seq<T>, less: (T, T) -> bool)
    requires IsStrictTotalOrder(less) && Sorted(s, less) && NoDups(s)
    ensures StrictlySorted(s, less)
  {
    forall i, j | 0 <= i < j < |s| ensures less(s[i], s[j]) {
      assert s[i] != s[j] && !less(s[j], s[i]);
    }
  }

  /** Two strictly sorted lists with the same elements are the same list: the
      sorted name list of a set of names is determined by the set alone. */
  lemma {:induction false} StrictlySortedUnique<T(!new)>(a: seq<T>, b: seq<T>, less: (T, T) -> bool)
    requires IsStrictTotalOrder(less)
    requires StrictlySorted(a, less) && StrictlySorted(b, less)
    requires forall x :: x in a <==> x in b
    ensures a == b
    decreases |a|
  {
    if a != [] {
      assert a[0] in b;
    }
    if b != [] {
      assert b[0] in a;
    }
    if a != [] && b != [] {
      HeadIsLeast(a, b[0], less);
      HeadIsLeast(b, a[0], less);
      assert a[0] == b[0];
      forall x ensures x in a[1..] <==> x in b[1..] {
        TailMembers(a, x, less);
        TailMembers(b, x, less);
      }
      StrictlySortedTail(a, less);
      StrictlySortedTail(b, less);
      StrictlySortedUnique(a[1..], b[1..], less);
      assert a == [a[0]] + a[1..] && b == [b[0]] + b[1..];
    }
  }

  lemma HeadIsLeast<T(!new)>(s: seq<T>, x: T, less: (T, T) -> bool)
    requires IsStrictTotalOrder(less) && StrictlySorted(s, less) && x in s
    ensures x == s[0] || less(s[0], x)
  {
    var k :| 0 <= k < |s| && s[k] == x;
    if k > 0 {
      assert less(s[0], s[k]);
    }
  }

  lemma TailMembers<T(!new)>(s: seq<T>, x: T, less: (T, T) -> bool)
    requires IsStrictTotalOrder(less) && StrictlySorted(s, less) && s != []
    ensures x in s[1..] <==> x in s && x != s[0]
  {
    assert s == [s[0]] + s[1..];
    forall k | 1 <= k < |s| ensures s[k] != s[0] {
      assert less(s[0], s[k]);
    }
  }

  lemma StrictlySortedTail<T(!new)>(s: seq<T>, less: (T, T) -> bool)
    requires StrictlySorted(s, less) && s != []
    ensures StrictlySorted(s[1..], less)
  {
    forall i, j | 0 <= i < j < |s| - 1 ensures less(s[1..][i], s[1..][j]) {
      assert s[1..][i] == s[i + 1] && s[1..][j] == s[j + 1];
    }
  }
}
