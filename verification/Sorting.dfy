/** Stable sorting by a key order, as the built-in sorted() does it. */
module Sorting {
  import opened Sequences

  ghost predicate TotalPreorder<T(!new)>(leq: (T, T) -> bool) {
    && (forall x, y :: leq(x, y) || leq(y, x))
    && (forall x, y, z :: leq(x, y) && leq(y, z) ==> leq(x, z))
  }

  ghost predicate SortedBy<T>(s: seq<T>, leq: (T, T) -> bool) {
    forall i, j | 0 <= i < j < |s| :: leq(s[i], s[j])
  }

  /** `x` goes after every element that is not greater. */
  function Insert<T>(x: T, s: seq<T>, leq: (T, T) -> bool): seq<T> {
    if s != [] && leq(s[0], x) then [s[0]] + Insert(x, s[1..], leq) else [x] + s
  }

  function Sort<T>(s: seq<T>, leq: (T, T) -> bool): seq<T> {
    if s == [] then [] else Insert(s[|s| - 1], Sort(s[..|s| - 1], leq), leq)
  }

  lemma {:induction false} InsertKeepsElements<T>(x: T, s: seq<T>, leq: (T, T) -> bool)
    ensures multiset(Insert(x, s, leq)) == multiset(s) + multiset{x}
  {
    if s != [] && leq(s[0], x) {
      InsertKeepsElements(x, s[1..], leq);
      assert s == [s[0]] + s[1..];
    }
  }

  lemma {:induction false} InsertedMembers<T>(x: T, s: seq<T>, leq: (T, T) -> bool, y: T)
    requires y in Insert(x, s, leq)
    ensures y == x || y in s
  {
    InsertKeepsElements(x, s, leq);
    assert y in multiset(Insert(x, s, leq));
  }

  lemma {:induction false} InsertKeepsOrder<T(!new)>(x: T, s: seq<T>, leq: (T, T) -> bool)
    requires TotalPreorder(leq) && SortedBy(s, leq)
    ensures SortedBy(Insert(x, s, leq), leq)
  {
    if s != [] && leq(s[0], x) {
      assert forall y | y in s[1..] :: leq(s[0], y);
      assert SortedBy(s[1..], leq);
      hide SortedBy, TotalPreorder;
      InsertKeepsOrder(x, s[1..], leq);
      forall y | y in Insert(x, s[1..], leq) ensures leq(s[0], y) {
        InsertedMembers(x, s[1..], leq, y);
      }
    }
  }

  lemma {:induction false} SortKeepsElements<T>(s: seq<T>, leq: (T, T) -> bool)
    ensures multiset(Sort(s, leq)) == multiset(s) && |Sort(s, leq)| == |s|
  {
    if s != [] {
      var front := s[..|s| - 1];
      assert s == front + [s[|s| - 1]];
      SortKeepsElements(front, leq);
      InsertKeepsElements(s[|s| - 1], Sort(front, leq), leq);
    }
    assert |multiset(Sort(s, leq))| == |multiset(s)|;
  }

  lemma {:induction false} SortSorts<T(!new)>(s: seq<T>, leq: (T, T) -> bool)
    requires TotalPreorder(leq)
    ensures SortedBy(Sort(s, leq), leq) && multiset(Sort(s, leq)) == multiset(s) && |Sort(s, leq)| == |s|
  {
    SortKeepsElements(s, leq);
    if s != [] {
      SortSorts(s[..|s| - 1], leq);
      InsertKeepsOrder(s[|s| - 1], Sort(s[..|s| - 1], leq), leq);
    }
  }

  /** Distinct elements never tie. */
  ghost predicate NoTies<T>(s: seq<T>, leq: (T, T) -> bool) {
    forall x, y | x in s && y in s && leq(x, y) && leq(y, x) :: x == y
  }

  lemma {:induction false} SameFirst<T>(a: seq<T>, b: seq<T>, leq: (T, T) -> bool)
    requires SortedBy(a, leq) && SortedBy(b, leq) && multiset(a) == multiset(b) && NoTies(a, leq)
    requires a != [] && b != []
    ensures a[0] == b[0]
  {
    SameMembers(a, b);
    assert a[0] in b && b[0] in a;
    var i :| 0 <= i < |a| && a[i] == b[0];
    var j :| 0 <= j < |b| && b[j] == a[0];
    assert i > 0 ==> leq(a[0], b[0]);
    assert j > 0 ==> leq(b[0], a[0]);
  }

  lemma {:induction false} RestSorted<T>(a: seq<T>, leq: (T, T) -> bool)
    requires a != [] && SortedBy(a, leq) && NoTies(a, leq)
    ensures SortedBy(a[1..], leq) && NoTies(a[1..], leq)
  {
    assert forall x | x in a[1..] :: x in a;
  }

  lemma {:induction false} RestsAgree<T>(x: T, a: seq<T>, b: seq<T>)
    requires multiset([x] + a) == multiset([x] + b)
    ensures multiset(a) == multiset(b)
  {
    assert multiset([x] + a) == multiset{x} + multiset(a);
    assert multiset([x] + b) == multiset{x} + multiset(b);
    assert multiset(a) == multiset([x] + a) - multiset{x};
    assert multiset(b) == multiset([x] + b) - multiset{x};
  }

  lemma {:induction false} SameLength<T>(a: seq<T>, b: seq<T>)
    requires multiset(a) == multiset(b)
    ensures |a| == |b|
  {
    assert |multiset(a)| == |a| && |multiset(b)| == |b|;
  }

  lemma {:induction false} NoTiesElsewhere<T>(a: seq<T>, b: seq<T>, leq: (T, T) -> bool)
    requires multiset(a) == multiset(b) && NoTies(a, leq)
    ensures NoTies(b, leq)
  {
    SameMembers(a, b);
  }

  lemma {:induction false} SortedIsUnique<T>(a: seq<T>, b: seq<T>, leq: (T, T) -> bool)
    requires SortedBy(a, leq) && SortedBy(b, leq) && multiset(a) == multiset(b) && NoTies(a, leq)
    ensures a == b
  {
    hide SortedBy, NoTies;
    SameLength(a, b);
    if a != [] {
      SameFirst(a, b, leq);
      NoTiesElsewhere(a, b, leq);
      RestSorted(a, leq);
      RestSorted(b, leq);
      var x, restA, restB := a[0], a[1..], b[1..];
      assert a == [x] + restA && b == [x] + restB;
      RestsAgree(x, restA, restB);
      SortedIsUnique(restA, restB, leq);
    }
  }

  /** The result of sorting does not depend on the order of the input when elements never tie. */
  lemma {:induction false} SortIgnoresOrder<T(!new)>(a: seq<T>, b: seq<T>, leq: (T, T) -> bool)
    requires TotalPreorder(leq) && multiset(a) == multiset(b) && NoTies(a, leq)
    ensures Sort(a, leq) == Sort(b, leq)
  {
    SortSorts(a, leq);
    SortSorts(b, leq);
    forall x | x in Sort(a, leq) ensures x in a {
      assert x in multiset(Sort(a, leq));
    }
    SortedIsUnique(Sort(a, leq), Sort(b, leq), leq);
  }
}
