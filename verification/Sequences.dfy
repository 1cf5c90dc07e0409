/** Sequences: regrouping a concatenation, and the stable insertion sort that stands for `sorted`. */
module Sequences {

  lemma Regroup<T>(a: seq<T>, b: seq<T>, c: seq<T>)
    ensures (a + b) + c == a + (b + c)
  {}

  /** `x` put before the first element it may stand before. */
  function Insert<T>(x: T, s: seq<T>, before: (T, T) -> bool): seq<T> {
    if s == [] || before(x, s[0]) then [x] + s else [s[0]] + Insert(x, s[1..], before)
  }

  function Sorted<T>(s: seq<T>, before: (T, T) -> bool): seq<T> {
    if s == [] then [] else Insert(s[0], Sorted(s[1..], before), before)
  }

  lemma {:induction false} InsertCounts<T>(x: T, s: seq<T>, before: (T, T) -> bool)
    ensures multiset(Insert(x, s, before)) == multiset(s) + multiset{x}
    ensures |Insert(x, s, before)| == |s| + 1
  {
    if !(s == [] || before(x, s[0])) {
      InsertCounts(x, s[1..], before);
      assert s == [s[0]] + s[1..];
    }
  }

  lemma InsertHas<T>(x: T, s: seq<T>, before: (T, T) -> bool, y: T)
    ensures y in Insert(x, s, before) <==> y == x || y in s
  {
    InsertCounts(x, s, before);
    assert y in Insert(x, s, before) <==> y in multiset(Insert(x, s, before));
  }

  /** The sort keeps each element as often as it is there. */
  lemma {:induction false} SortedCounts<T>(s: seq<T>, before: (T, T) -> bool)
    ensures multiset(Sorted(s, before)) == multiset(s)
    ensures |Sorted(s, before)| == |s|
  {
    if s != [] {
      SortedCounts(s[1..], before);
      InsertCounts(s[0], Sorted(s[1..], before), before);
      assert s == [s[0]] + s[1..];
    }
  }

  lemma SortedHas<T>(s: seq<T>, before: (T, T) -> bool, x: T)
    ensures x in Sorted(s, before) <==> x in s
  {
    SortedCounts(s, before);
    assert x in Sorted(s, before) <==> x in multiset(Sorted(s, before));
  }

  predicate Ordered<T>(s: seq<T>, before: (T, T) -> bool) {
    forall i, j :: 0 <= i < j < |s| ==> before(s[i], s[j])
  }

  /** Of two elements one may stand before the other, and the relation is transitive. */
  ghost predicate IsOrder<T(!new)>(before: (T, T) -> bool) {
    && (forall a, b :: before(a, b) || before(b, a))
    && (forall a, b, c :: before(a, b) && before(b, c) ==> before(a, c))
  }

  lemma {:induction false} InsertOrdered<T(!new)>(x: T, s: seq<T>, before: (T, T) -> bool)
    requires IsOrder(before) && Ordered(s, before)
    ensures Ordered(Insert(x, s, before), before)
  {
    if s == [] {
    } else if before(x, s[0]) {
      forall j | 0 <= j < |s| ensures before(x, s[j]) { assert j > 0 ==> before(s[0], s[j]); }
    } else {
      var rest := Insert(x, s[1..], before);
      InsertOrdered(x, s[1..], before);
      forall j | 0 <= j < |rest| ensures before(s[0], rest[j]) {
        InsertHas(x, s[1..], before, rest[j]);
      }
    }
  }

  /** The sort orders the elements. */
  lemma {:induction false} SortedOrdered<T(!new)>(s: seq<T>, before: (T, T) -> bool)
    requires IsOrder(before)
    ensures Ordered(Sorted(s, before), before)
  {
    if s != [] {
      SortedOrdered(s[1..], before);
      InsertOrdered(s[0], Sorted(s[1..], before), before);
    }
  }
}
