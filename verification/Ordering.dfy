/**
 Sorting, and why a sorted result depends on nothing but what was sorted. Go
 compares strings byte by byte and its sort package promises a permutation in
 order, nothing about ties.
 */
module Ordering {

  ghost predicate IsStrictOrder<T(!new)>(less: (T, T) -> bool) {
    && (forall a :: !less(a, a))
    && (forall a, b, c :: less(a, b) && less(b, c) ==> less(a, c))
    && (forall a, b :: a == b || less(a, b) || less(b, a))
  }

  /** No element comes before a smaller one. */
  predicate InOrder<T>(s: seq<T>, less: (T, T) -> bool) {
    forall i, j :: 0 <= i < j < |s| ==> !less(s[j], s[i])
  }

  predicate StrictlyIncreasing<T>(s: seq<T>, less: (T, T) -> bool) {
    forall i, j :: 0 <= i < j < |s| ==> less(s[i], s[j])
  }

  // ---------- Uniqueness ----------

  /** A set of elements has one strictly increasing enumeration. */
  lemma {:induction false} IncreasingIsUnique<T(!new)>(s: seq<T>, t: seq<T>, less: (T, T) -> bool)
    requires IsStrictOrder(less) && StrictlyIncreasing(s, less) && StrictlyIncreasing(t, less)
    requires forall x :: x in s <==> x in t
    ensures s == t
  {
    assert s != [] ==> s[0] in t;
    assert t != [] ==> t[0] in s;
    if s != [] {
      assert s[0] == t[0];
      forall x
        ensures x in s[1..] <==> x in t[1..]
      {
        RestOf(s, less, x);
        RestOf(t, less, x);
      }
      IncreasingIsUnique(s[1..], t[1..], less);
      assert s == [s[0]] + s[1..] && t == [t[0]] + t[1..];
    }
  }

  lemma RestOf<T(!new)>(s: seq<T>, less: (T, T) -> bool, x: T)
    requires IsStrictOrder(less) && StrictlyIncreasing(s, less) && s != []
    ensures x in s[1..] <==> x in s && x != s[0]
  {
    assert s == [s[0]] + s[1..];
    forall i | 0 <= i < |s[1..]|
      ensures s[1..][i] != s[0]
    {
      assert less(s[0], s[i + 1]);
    }
  }

  lemma HeadsOccur<T>(s: seq<T>, t: seq<T>)
    requires multiset(s) == multiset(t)
    ensures |s| == |t| && (s != [] ==> s[0] in t && t[0] in s)
  {
    assert |multiset(s)| == |multiset(t)|;
    if s != [] {
      assert s[0] in multiset(s) && t[0] in multiset(t);
    }
  }

  lemma TailsMatch<T>(s: seq<T>, t: seq<T>)
    requires multiset(s) == multiset(t) && s != [] && t != [] && s[0] == t[0]
    ensures multiset(s[1..]) == multiset(t[1..])
    ensures s == [s[0]] + s[1..] && t == [t[0]] + t[1..]
  {
    assert s == [s[0]] + s[1..] && t == [t[0]] + t[1..];
    assert multiset(s[1..]) == multiset(s) - multiset{s[0]};
    assert multiset(t[1..]) == multiset(t) - multiset{t[0]};
  }

  /** A collection of elements has one ordered permutation, ties being equal. */
  lemma {:induction false} OrderIsUnique<T(!new)>(s: seq<T>, t: seq<T>, less: (T, T) -> bool)
    requires IsStrictOrder(less) && InOrder(s, less) && InOrder(t, less)
    requires multiset(s) == multiset(t)
    ensures s == t
  {
    HeadsOccur(s, t);
    if s != [] {
      assert s[0] == t[0];
      TailsMatch(s, t);
      OrderIsUnique(s[1..], t[1..], less);
    }
  }

  /** Sorting what is strictly increasing already changes nothing, however ties elsewhere would be treated. */
  lemma {:induction false} SortingIncreasingIsIdentity<T(!new)>(s: seq<T>, t: seq<T>, less: (T, T) -> bool)
    requires StrictlyIncreasing(s, less) && InOrder(t, less) && multiset(s) == multiset(t)
    ensures s == t
  {
    HeadsOccur(s, t);
    if s != [] {
      assert s[0] == t[0];
      TailsMatch(s, t);
      SortingIncreasingIsIdentity(s[1..], t[1..], less);
    }
  }

  // ---------- Sorting ----------

  function Insert<T>(s: seq<T>, x: T, less: (T, T) -> bool): seq<T> {
    if s == [] || less(x, s[0]) then [x] + s else [s[0]] + Insert(s[1..], x, less)
  }

  function Sort<T>(s: seq<T>, less: (T, T) -> bool): seq<T> {
    if s == [] then [] else Insert(Sort(s[1..], less), s[0], less)
  }

  lemma {:induction false} InsertKeepsElements<T(!new)>(s: seq<T>, x: T, less: (T, T) -> bool)
    ensures multiset(Insert(s, x, less)) == multiset(s) + multiset{x}
  {
    if s != [] && !less(x, s[0]) {
      InsertKeepsElements(s[1..], x, less);
      assert s == [s[0]] + s[1..];
    } else {
      assert multiset([x] + s) == multiset{x} + multiset(s);
    }
  }

  lemma {:induction false} InsertKeepsOrder<T(!new)>(s: seq<T>, x: T, less: (T, T) -> bool)
    requires IsStrictOrder(less) && InOrder(s, less)
    ensures InOrder(Insert(s, x, less), less)
  {
    if s != [] && !less(x, s[0]) {
      var rest := Insert(s[1..], x, less);
      InsertKeepsOrder(s[1..], x, less);
      InsertKeepsElements(s[1..], x, less);
      assert forall y :: y in rest <==> y in multiset(rest);
      assert forall y :: y in s[1..] <==> y in multiset(s[1..]);
      PrependKeepsOrder(s[0], rest, less);
    } else {
      SmallestKeepsOrder(x, s, less);
    }
  }

  lemma PrependKeepsOrder<T(!new)>(x: T, s: seq<T>, less: (T, T) -> bool)
    requires InOrder(s, less) && forall y | y in s :: !less(y, x)
    ensures InOrder([x] + s, less)
  {
  }

  lemma SmallestKeepsOrder<T(!new)>(x: T, s: seq<T>, less: (T, T) -> bool)
    requires IsStrictOrder(less) && InOrder(s, less) && (s != [] ==> less(x, s[0]))
    ensures InOrder([x] + s, less)
  {
    if s != [] {
      var first := s[0];
      forall y | y in s
        ensures !less(y, x)
      {
        assert less(y, x) ==> less(y, first);
      }
    }
    PrependKeepsOrder(x, s, less);
  }

  lemma {:induction false} SortIsSorted<T(!new)>(s: seq<T>, less: (T, T) -> bool)
    requires IsStrictOrder(less)
    ensures InOrder(Sort(s, less), less) && multiset(Sort(s, less)) == multiset(s)
  {
    hide Insert, IsStrictOrder, InOrder;
    if s == [] {
      NothingToSort(less);
    } else {
      SortIsSorted(s[1..], less);
      InsertKeepsOrder(Sort(s[1..], less), s[0], less);
      InsertKeepsElements(Sort(s[1..], less), s[0], less);
      assert s == [s[0]] + s[1..];
    }
  }

  lemma NothingToSort<T(!new)>(less: (T, T) -> bool)
    ensures Sort([], less) == [] && InOrder([], less)
  {
  }

  /** The sorted elements of a set: the keys of a map are collected and then sorted. */
  method SortedElements<T(!new, ==)>(elements: set<T>, less: (T, T) -> bool) returns (sorted: seq<T>)
    requires IsStrictOrder(less)
    ensures StrictlyIncreasing(sorted, less)
    ensures forall x :: x in sorted <==> x in elements
  {
    var keys := [];
    var rest := elements;
    while rest != {}
      invariant forall x :: x in keys <==> x in elements && x !in rest
      invariant rest <= elements
      invariant forall i, j :: 0 <= i < j < |keys| ==> keys[i] != keys[j]
      decreases rest
    {
      var x :| x in rest;
      rest, keys := rest - {x}, keys + [x];
    }
    sorted := Sort(keys, less);
    SortIsSorted(keys, less);
    DistinctInOrderIsIncreasing(keys, sorted, less);
    assert forall x :: x in sorted <==> x in multiset(sorted);
    assert forall x :: x in keys <==> x in multiset(keys);
  }

  lemma DistinctInOrderIsIncreasing<T(!new)>(keys: seq<T>, sorted: seq<T>, less: (T, T) -> bool)
    requires IsStrictOrder(less) && InOrder(sorted, less) && multiset(keys) == multiset(sorted)
    requires forall i, j :: 0 <= i < j < |keys| ==> keys[i] != keys[j]
    ensures StrictlyIncreasing(sorted, less)
  {
    forall i, j | 0 <= i < j < |sorted|
      ensures sorted[i] != sorted[j]
    {
      if sorted[i] == sorted[j] {
        OccursTwice(sorted, i, j);
        OccursOnce(keys, sorted[i]);
        assert false;
      }
    }
  }

  lemma OccursTwice<T>(s: seq<T>, i: nat, j: nat)
    requires i < j < |s| && s[i] == s[j]
    ensures multiset(s)[s[i]] >= 2
  {
    assert s == s[..i] + [s[i]] + s[i + 1..j] + [s[j]] + s[j + 1..];
  }

  lemma {:induction false} OccursOnce<T(!new)>(s: seq<T>, x: T)
    requires forall i, j :: 0 <= i < j < |s| ==> s[i] != s[j]
    ensures multiset(s)[x] <= 1
  {
    if s != [] {
      OccursOnce(s[1..], x);
      assert s == [s[0]] + s[1..];
      assert s[0] !in s[1..];
      assert s[0] !in multiset(s[1..]);
    }
  }

  // ---------- Strings ----------

  predicate StringLess(a: string, b: string) {
    b != [] && (a == [] || a[0] < b[0] || (a[0] == b[0] && StringLess(a[1..], b[1..])))
  }

  /** A string comes before another if it is a proper prefix, or smaller in the first character in which they differ. */
  lemma {:induction false} StringLessIff(a: string, b: string)
    ensures StringLess(a, b) <==> exists n: nat :: n <= |a| && n < |b| && a[..n] == b[..n] && (n == |a| || a[n] < b[n])
  {
    if a == [] || b == [] || a[0] != b[0] {
      assert a[..0] == b[..0];
      assert forall n: nat | 0 < n <= |a| && n < |b| :: a[..n][0] == a[0] && b[..n][0] == b[0];
    } else {
      StringLessIff(a[1..], b[1..]);
      forall n: nat | n <= |a[1..]| && n < |b[1..]|
        ensures a[1..][..n] == b[1..][..n] <==> a[..n + 1] == b[..n + 1]
      {
        assert a[..n + 1] == [a[0]] + a[1..][..n] && b[..n + 1] == [b[0]] + b[1..][..n];
        assert a[..n + 1][1..] == a[1..][..n] && b[..n + 1][1..] == b[1..][..n];
      }
      assert forall n: nat | 0 < n <= |a| && n < |b| :: a[n..] == a[1..][n - 1..];
    }
  }

  lemma StringOrder()
    ensures IsStrictOrder(StringLess)
  {
    forall a: string
      ensures !StringLess(a, a)
    {
      StringLessIrreflexive(a);
    }
    forall a: string, b: string, c: string | StringLess(a, b) && StringLess(b, c)
      ensures StringLess(a, c)
    {
      StringLessTransitive(a, b, c);
    }
    forall a: string, b: string
      ensures a == b || StringLess(a, b) || StringLess(b, a)
    {
      StringLessTotal(a, b);
    }
  }

  lemma {:induction false} StringLessIrreflexive(a: string)
    ensures !StringLess(a, a)
  {
    if a != [] {
      StringLessIrreflexive(a[1..]);
    }
  }

  lemma {:induction false} StringLessTransitive(a: string, b: string, c: string)
    requires StringLess(a, b) && StringLess(b, c)
    ensures StringLess(a, c)
  {
    if a != [] && a[0] == b[0] == c[0] {
      StringLessTransitive(a[1..], b[1..], c[1..]);
    }
  }

  lemma {:induction false} StringLessTotal(a: string, b: string)
    ensures a == b || StringLess(a, b) || StringLess(b, a)
  {
    if a != [] && b != [] && a[0] == b[0] {
      StringLessTotal(a[1..], b[1..]);
      assert a == [a[0]] + a[1..] && b == [b[0]] + b[1..];
    }
  }
}
