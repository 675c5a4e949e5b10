/**
 * Sorting by a total preorder, as Python's `sorted(..., reverse=True)` and SQL's
 * `ORDER BY ... DESC` order rows: an element precedes the ones it `Geq`s.
 */
module Sorting {

  /** `geq` is total and transitive, so every sequence has a sorted arrangement. */
  ghost predicate TotalPreorder<T(!new)>(geq: (T, T) -> bool) {
    (forall a, b :: geq(a, b) || geq(b, a)) &&
    (forall a, b, c :: geq(a, b) && geq(b, c) ==> geq(a, c))
  }

  /** Each element is `geq` every element after it. */
  ghost predicate SortedBy<T>(s: seq<T>, geq: (T, T) -> bool) {
    forall i, j :: 0 <= i < j < |s| ==> geq(s[i], s[j])
  }

  /** `x` placed before the first element it is `geq`, so `x` stays ahead of its equals. */
  function Insert<T>(x: T, s: seq<T>, geq: (T, T) -> bool): (r: seq<T>)
    ensures |r| == |s| + 1
    ensures multiset(r) == multiset(s) + multiset{x}
  {
    if s == [] then [x]
    else if geq(x, s[0]) then [x] + s
    else
      assert s == [s[0]] + s[1..];
      [s[0]] + Insert(x, s[1..], geq)
  }

  /** Insertion sort; elements that are `geq` each other keep their input order. */
  function Sort<T>(s: seq<T>, geq: (T, T) -> bool): (r: seq<T>)
    ensures |r| == |s|
    ensures multiset(r) == multiset(s)
  {
    if s == [] then []
    else
      assert s == [s[0]] + s[1..];
      Insert(s[0], Sort(s[1..], geq), geq)
  }

  lemma {:induction false} InsertSorted<T(!new)>(x: T, s: seq<T>, geq: (T, T) -> bool)
    requires TotalPreorder(geq)
    requires SortedBy(s, geq)
    ensures SortedBy(Insert(x, s, geq), geq)
  {
    if s != [] && !geq(x, s[0]) {
      var t := Insert(x, s[1..], geq);
      InsertSorted(x, s[1..], geq);
      assert geq(s[0], x);
      forall j | 0 <= j < |t| ensures geq(s[0], t[j]) {
        assert t[j] in multiset(t);
        assert t[j] == x || t[j] in multiset(s[1..]);
        if t[j] != x {
          var k :| 0 <= k < |s[1..]| && s[1..][k] == t[j];
          assert s[k + 1] == t[j];
        }
      }
      ConsSorted(s[0], t, geq);
      assert Insert(x, s, geq) == [s[0]] + t;
    } else if s != [] {
      forall j | 0 <= j < |s| ensures geq(x, s[j]) {
        if j > 0 {
          assert geq(s[0], s[j]);
        }
      }
      ConsSorted(x, s, geq);
    }
  }

  /** An element `geq` every element of a sorted sequence can go in front of it. */
  lemma ConsSorted<T>(h: T, t: seq<T>, geq: (T, T) -> bool)
    requires SortedBy(t, geq)
    requires forall j :: 0 <= j < |t| ==> geq(h, t[j])
    ensures SortedBy([h] + t, geq)
  {
    var r := [h] + t;
    assert forall i :: 0 < i < |r| ==> r[i] == t[i - 1];
  }

  /** The result of `Sort` is ordered and is a permutation of its input. */
  lemma {:induction false} SortSorted<T(!new)>(s: seq<T>, geq: (T, T) -> bool)
    requires TotalPreorder(geq)
    ensures SortedBy(Sort(s, geq), geq)
    ensures multiset(Sort(s, geq)) == multiset(s)
  {
    if s != [] {
      SortSorted(s[1..], geq);
      InsertSorted(s[0], Sort(s[1..], geq), geq);
    }
  }
}
