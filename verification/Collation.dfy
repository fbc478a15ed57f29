/** The order of plain strings, and sorting by it, as the source's default array sort gives them. */
module Collation {
  import opened Sorting

  predicate AtMost(a: string, b: string) {
    if a == [] then true
    else if b == [] then false
    else a[0] < b[0] || (a[0] == b[0] && AtMost(a[1..], b[1..]))
  }

  lemma {:induction false} AtMostIsTotal(a: string, b: string)
    ensures AtMost(a, b) || AtMost(b, a)
    ensures AtMost(a, b) && AtMost(b, a) ==> a == b
  {
    if a != [] && b != [] && a[0] == b[0] {
      AtMostIsTotal(a[1..], b[1..]);
      assert a == [a[0]] + a[1..] && b == [b[0]] + b[1..];
    }
  }

  lemma {:induction false} AtMostIsTransitive(a: string, b: string, c: string)
    requires AtMost(a, b) && AtMost(b, c)
    ensures AtMost(a, c)
  {
    if a != [] && b != [] && c != [] && a[0] == b[0] == c[0] {
      AtMostIsTransitive(a[1..], b[1..], c[1..]);
    }
  }

  ghost predicate Sorted(keys: seq<string>) {
    forall i, k :: 0 <= i < k < |keys| ==> AtMost(keys[i], keys[k])
  }

  lemma AtMostOrders()
    ensures Orders(AtMost)
  {
    forall a, b ensures AtMost(a, b) || AtMost(b, a) { AtMostIsTotal(a, b); }
    forall a, b, c | AtMost(a, b) && AtMost(b, c) ensures AtMost(a, c) { AtMostIsTransitive(a, b, c); }
  }

  function SortStrings(keys: seq<string>): (r: seq<string>)
    ensures Sorted(r) && multiset(r) == multiset(keys)
  {
    AtMostOrders();
    SortIsSorted(keys, AtMost);
    SortBy(keys, AtMost)
  }
}
