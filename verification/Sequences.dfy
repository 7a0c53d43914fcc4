/** Order-preserving sequence operations: JavaScript's `filter`, and the
    insertion-ordered `Set` used to drop repeats. */
module Sequences {

  ghost predicate NoDup<T>(s: seq<T>) {
    forall i, j :: 0 <= i < j < |s| ==> s[i] != s[j]
  }

  /** Array.prototype.filter. */
  function Filter<T(!new)>(s: seq<T>, p: T -> bool): (r: seq<T>)
    ensures |r| <= |s|
    ensures forall x :: x in r <==> x in s && p(x)
  {
    if s == [] then []
    else if p(s[0]) then [s[0]] + Filter(s[1..], p)
    else Filter(s[1..], p)
  }

  /** Each value once, at the place where it first occurs. */
  function FirstOccurrences<T(==,!new)>(s: seq<T>): (r: seq<T>)
    ensures forall x :: x in r <==> x in s
  {
    if s == [] then []
    else
      var r := FirstOccurrences(s[..|s| - 1]);
      if s[|s| - 1] in r then r else r + [s[|s| - 1]]
  }

  lemma {:induction false} FilterAppend<T(!new)>(a: seq<T>, b: seq<T>, p: T -> bool)
    ensures Filter(a + b, p) == Filter(a, p) + Filter(b, p)
  {
    if a == [] {
      assert a + b == b;
    } else {
      assert (a + b)[1..] == a[1..] + b;
      FilterAppend(a[1..], b, p);
    }
  }

  lemma {:induction false} FilterNoDup<T(!new)>(s: seq<T>, p: T -> bool)
    requires NoDup(s)
    ensures NoDup(Filter(s, p))
  {
    if s != [] {
      assert forall x :: x in s[1..] ==> x != s[0];
      FilterNoDup(s[1..], p);
    }
  }

  /** Filtering keeps the order of what it keeps. */
  lemma {:induction false} FilterInOrder<T(!new)>(s: seq<T>, p: T -> bool, i: nat, j: nat)
    requires NoDup(s) && i < j < |Filter(s, p)|
    ensures FirstIndex(s, Filter(s, p)[i]) < FirstIndex(s, Filter(s, p)[j])
  {
    var r := Filter(s, p);
    var t := s[1..];
    FilterNoDup(s, p);
    if p(s[0]) {
      if i > 0 { FilterInOrder(t, p, i - 1, j - 1); }
    } else {
      FilterInOrder(t, p, i, j);
    }
  }

  lemma {:induction false} FilterAgrees<T(!new)>(s: seq<T>, p: T -> bool, q: T -> bool)
    requires forall x :: x in s ==> p(x) == q(x)
    ensures Filter(s, p) == Filter(s, q)
  {
    if s != [] { FilterAgrees(s[1..], p, q); }
  }

  lemma {:induction false} FirstOccurrencesNoDup<T(!new)>(s: seq<T>)
    ensures NoDup(FirstOccurrences(s))
  {
    if s != [] { FirstOccurrencesNoDup(s[..|s| - 1]); }
  }

  /** The position of the first occurrence; what indexOf returns for a member. */
  function FirstIndex<T(==,!new)>(s: seq<T>, x: T): (i: nat)
    requires x in s
    ensures i < |s| && s[i] == x && x !in s[..i]
  {
    if s[0] == x then 0
    else
      var i := 1 + FirstIndex(s[1..], x);
      assert s[..i] == [s[0]] + s[1..][..i - 1];
      i
  }

  /** What makes FirstOccurrences the right list: it keeps the order of first occurrences. */
  lemma {:induction false} FirstOccurrencesInOrder<T(!new)>(s: seq<T>, i: nat, j: nat)
    requires i < j < |FirstOccurrences(s)|
    ensures FirstIndex(s, FirstOccurrences(s)[i]) < FirstIndex(s, FirstOccurrences(s)[j])
  {
    var t := s[..|s| - 1];
    var r := FirstOccurrences(t);
    FirstOccurrencesNoDup(s);
    assert s == t + [s[|s| - 1]];
    if j < |r| {
      FirstOccurrencesInOrder(t, i, j);
      FirstIndexPrefix(t, s, r[i]);
      FirstIndexPrefix(t, s, r[j]);
    } else {
      FirstIndexPrefix(t, s, r[i]);
      assert s[|s| - 1] !in t;
    }
  }

  /** r lists what occurs in s, each value once, in the order of first appearance. */
  ghost predicate FirstAppearances<T(!new)>(r: seq<T>, s: seq<T>) {
    && NoDup(r)
    && (forall x :: x in r <==> x in s)
    && forall i, j :: 0 <= i < j < |r| ==>
         r[i] in s && r[j] in s && FirstIndex(s, r[i]) < FirstIndex(s, r[j])
  }

  lemma FirstOccurrencesSpec<T(!new)>(s: seq<T>)
    ensures FirstAppearances(FirstOccurrences(s), s)
  {
    var r := FirstOccurrences(s);
    FirstOccurrencesNoDup(s);
    forall i, j | 0 <= i < j < |r|
      ensures r[i] in s && r[j] in s && FirstIndex(s, r[i]) < FirstIndex(s, r[j])
    {
      FirstOccurrencesInOrder(s, i, j);
    }
  }

  lemma FirstIndexPrefix<T(!new)>(t: seq<T>, s: seq<T>, x: T)
    requires t <= s && x in t
    ensures FirstIndex(s, x) == FirstIndex(t, x)
  {
    var i, k := FirstIndex(t, x), FirstIndex(s, x);
    assert s[i] == t[i] == x;
  }

  lemma NoDupAppend<T>(a: seq<T>, b: seq<T>)
    requires NoDup(a) && NoDup(b)
    requires forall x :: x in a ==> x !in b
    ensures NoDup(a + b)
  {
    forall i, j | 0 <= i < j < |a + b| ensures (a + b)[i] != (a + b)[j] {
      if i < |a| <= j {
        assert a[i] in a && b[j - |a|] in b;
      }
    }
  }

  lemma MultisetWithout<T>(s: seq<T>, i: nat)
    requires i < |s|
    ensures multiset(s) == multiset(s[..i] + s[i + 1..]) + multiset{s[i]}
  {
    assert s == s[..i] + [s[i]] + s[i + 1..];
  }

  /** The partner of the last element in a permutation, and what remains. */
  lemma PermutationPartner<T>(a: seq<T>, b: seq<T>) returns (k: nat, front: seq<T>, rest: seq<T>)
    requires multiset(a) == multiset(b) && a != []
    ensures k < |b| && b[k] == a[|a| - 1]
    ensures front == a[..|a| - 1] && rest == b[..k] + b[k + 1..]
    ensures multiset(front) == multiset(rest)
    ensures forall x :: x in front ==> x in rest
  {
    var n := |a| - 1;
    assert a[n] in multiset(b);
    k :| 0 <= k < |b| && b[k] == a[n];
    front, rest := a[..n], b[..k] + b[k + 1..];
    MultisetWithout(a, n);
    MultisetWithout(b, k);
    assert a[..n] + a[n + 1..] == front;
    assert multiset(front) == multiset(a) - multiset{a[n]} == multiset(rest);
    forall x | x in front ensures x in rest {
      assert x in multiset(front) && x in multiset(rest);
    }
  }

  /** Without repeats on either side, equal element sets mean equal multisets. */
  lemma {:induction false} SameElemsSameMultiset<T(!new)>(a: seq<T>, b: seq<T>)
    requires NoDup(a) && NoDup(b)
    requires forall x :: x in a <==> x in b
    ensures multiset(a) == multiset(b)
  {
    forall x ensures multiset(a)[x] == multiset(b)[x] {
      NoDupCount(a, x);
      NoDupCount(b, x);
    }
  }

  lemma {:induction false} NoDupCount<T(!new)>(s: seq<T>, x: T)
    requires NoDup(s)
    ensures multiset(s)[x] == if x in s then 1 else 0
  {
    if s != [] {
      assert s == [s[0]] + s[1..];
      assert forall y :: y in s[1..] ==> y != s[0];
      NoDupCount(s[1..], x);
    }
  }

  /** Array.prototype.slice for bounds that are not negative. */
  function Slice<T>(s: seq<T>, from: nat, until: nat): seq<T> {
    if from < until && from < |s| then s[from..if until < |s| then until else |s|] else []
  }
}
