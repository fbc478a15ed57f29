/** Stable sorting by a comparison, as the source's array sort does it. */
module Sorting {

  ghost predicate Orders<T(!new)>(le: (T, T) -> bool) {
    && (forall a, b {:trigger le(a, b)} :: le(a, b) || le(b, a))
    && forall a, b, c {:trigger le(a, b), le(b, c)} :: le(a, b) && le(b, c) ==> le(a, c)
  }

  ghost predicate SortedBy<T>(xs: seq<T>, le: (T, T) -> bool) {
    forall i, k :: 0 <= i < k < |xs| ==> le(xs[i], xs[k])
  }

  /** After everything it does not come before. */
  function InsertBy<T>(x: T, xs: seq<T>, le: (T, T) -> bool): (r: seq<T>)
    ensures multiset(r) == multiset(xs) + multiset{x}
  {
    if xs == [] then [x]
    else
      assert xs == [xs[0]] + xs[1..];
      if le(xs[0], x) then [xs[0]] + InsertBy(x, xs[1..], le) else [x] + xs
  }

  function SortBy<T>(xs: seq<T>, le: (T, T) -> bool): (r: seq<T>)
    ensures multiset(r) == multiset(xs)
  {
    if xs == [] then []
    else
      var n := |xs| - 1;
      assert xs == xs[..n] + [xs[n]];
      InsertBy(xs[n], SortBy(xs[..n], le), le)
  }

  lemma {:induction false} InsertIsSorted<T(!new)>(x: T, xs: seq<T>, le: (T, T) -> bool)
    requires Orders(le) && SortedBy(xs, le)
    ensures SortedBy(InsertBy(x, xs, le), le)
  {
    if xs != [] {
      var r := InsertBy(x, xs, le);
      if le(xs[0], x) {
        InsertIsSorted(x, xs[1..], le);
        var rest := InsertBy(x, xs[1..], le);
        forall k | 0 <= k < |rest| ensures le(xs[0], rest[k]) {
          assert rest[k] in multiset(rest);
          if rest[k] != x {
            assert rest[k] in xs[1..];
            var j :| 0 <= j < |xs[1..]| && xs[1..][j] == rest[k];
            assert xs[j + 1] == rest[k];
          }
        }
      } else {
        forall k | 0 <= k < |xs| ensures le(x, xs[k]) {
          assert le(x, xs[0]);
          if k > 0 { assert le(xs[0], xs[k]); }
        }
      }
    }
  }

  lemma {:induction false} SortIsSorted<T(!new)>(xs: seq<T>, le: (T, T) -> bool)
    requires Orders(le)
    ensures SortedBy(SortBy(xs, le), le)
  {
    if xs != [] {
      var n := |xs| - 1;
      SortIsSorted(xs[..n], le);
      InsertIsSorted(xs[n], SortBy(xs[..n], le), le);
    }
  }

  ghost predicate AntisymmetricOn<T>(xs: seq<T>, le: (T, T) -> bool) {
    forall i, k :: 0 <= i < |xs| && 0 <= k < |xs| && le(xs[i], xs[k]) && le(xs[k], xs[i]) ==> xs[i] == xs[k]
  }

  lemma PlaceIn<T>(a: seq<T>, b: seq<T>, i: nat) returns (k: nat)
    requires multiset(a) == multiset(b) && i < |a|
    ensures k < |b| && b[k] == a[i]
  {
    assert a[i] in multiset(b);
    k :| 0 <= k < |b| && b[k] == a[i];
  }

  lemma HeadsAgree<T(!new)>(a: seq<T>, b: seq<T>, le: (T, T) -> bool)
    requires SortedBy(a, le) && SortedBy(b, le) && multiset(a) == multiset(b) && AntisymmetricOn(a, le) && Orders(le)
    requires a != [] && b != []
    ensures a[0] == b[0]
  {
    var i := PlaceIn(b, a, 0);
    var k := PlaceIn(a, b, 0);
    if i > 0 && k > 0 {
      assert le(a[0], a[i]) && le(b[0], b[k]);
    }
  }

  lemma TailsAgree<T>(a: seq<T>, b: seq<T>)
    requires multiset(a) == multiset(b) && a != [] && b != [] && a[0] == b[0]
    ensures multiset(a[1..]) == multiset(b[1..])
  {
    assert a == [a[0]] + a[1..] && b == [b[0]] + b[1..];
    assert multiset(a) == multiset{a[0]} + multiset(a[1..]);
    assert multiset(b) == multiset{b[0]} + multiset(b[1..]);
    assert multiset(a[1..]) == multiset(a) - multiset{a[0]};
  }

  lemma TailFits<T>(a: seq<T>, le: (T, T) -> bool)
    requires SortedBy(a, le) && a != []
    ensures SortedBy(a[1..], le) && (AntisymmetricOn(a, le) ==> AntisymmetricOn(a[1..], le))
  {
    assert forall i :: 0 <= i < |a| - 1 ==> a[1..][i] == a[i + 1];
  }

  /** One order of the same elements is sorted, when no two of them tie. */
  lemma {:induction false} SortedIsUnique<T(!new)>(a: seq<T>, b: seq<T>, le: (T, T) -> bool)
    requires SortedBy(a, le) && SortedBy(b, le) && multiset(a) == multiset(b) && AntisymmetricOn(a, le) && Orders(le)
    ensures a == b
    decreases |a|
  {
    assert |multiset(a)| == |a| && |multiset(b)| == |b|;
    if a != [] {
      HeadsAgree(a, b, le);
      TailsAgree(a, b);
      TailFits(a, le);
      TailFits(b, le);
      SortedIsUnique(a[1..], b[1..], le);
      assert a == [a[0]] + a[1..] && b == [b[0]] + b[1..];
    }
  }
}
