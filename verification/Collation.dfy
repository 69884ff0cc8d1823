/** Texts in a fixed order, as a query sorts them. */
module Collation {
  import opened Sorting
  import opened Sequences

  predicate TextLeq(a: string, b: string) {
    a == "" || (b != "" && (a[0] < b[0] || (a[0] == b[0] && TextLeq(a[1..], b[1..]))))
  }

  const BY_TEXT := (a: string, b: string) => TextLeq(a, b)

  lemma {:induction false} Total(a: string, b: string)
    ensures TextLeq(a, b) || TextLeq(b, a)
    ensures TextLeq(a, b) && TextLeq(b, a) ==> a == b
  {
    if a != "" && b != "" {
      Total(a[1..], b[1..]);
      assert a == [a[0]] + a[1..] && b == [b[0]] + b[1..];
    }
  }

  lemma {:induction false} Transitive(a: string, b: string, c: string)
    requires TextLeq(a, b) && TextLeq(b, c)
    ensures TextLeq(a, c)
  {
    if a != "" && a[0] == b[0] == c[0] {
      Transitive(a[1..], b[1..], c[1..]);
    }
  }

  lemma {:induction false} TextOrder()
    ensures TotalPreorder(BY_TEXT)
    ensures forall s: seq<string> :: NoTies(s, BY_TEXT)
  {
    forall x: string, y: string ensures (BY_TEXT(x, y) || BY_TEXT(y, x))
        && (BY_TEXT(x, y) && BY_TEXT(y, x) ==> x == y) {
      Total(x, y);
    }
    forall x: string, y: string, z: string | BY_TEXT(x, y) && BY_TEXT(y, z) ensures BY_TEXT(x, z) {
      Transitive(x, y, z);
    }
  }

  /** An array aggregated in text order. */
  function Sorted(s: seq<string>): seq<string> {
    Sort(s, BY_TEXT)
  }

  /** Sorted arrays are equal exactly when they hold the same texts equally often. */
  lemma {:induction false} SortedAgree(a: seq<string>, b: seq<string>)
    ensures Sorted(a) == Sorted(b) <==> multiset(a) == multiset(b)
  {
    TextOrder();
    SortSorts(a, BY_TEXT);
    SortSorts(b, BY_TEXT);
    if multiset(a) == multiset(b) {
      SortIgnoresOrder(a, b, BY_TEXT);
    }
  }
}
