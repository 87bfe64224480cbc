/** Sorting by a strict order that decides any two different items of the list. */
module Sorting {
  function Insert<T>(less: (T, T) -> bool, x: T, s: seq<T>): seq<T> {
    if s == [] then [x] else if less(s[0], x) then [s[0]] + Insert(less, x, s[1..]) else [x] + s
  }

  function Sort<T>(less: (T, T) -> bool, s: seq<T>): seq<T> {
    if s == [] then [] else Insert(less, s[0], Sort(less, s[1..]))
  }

  ghost predicate Transitive<T(!new)>(less: (T, T) -> bool) {
    forall a, b, c :: less(a, b) && less(b, c) ==> less(a, c)
  }

  ghost predicate Decides<T>(less: (T, T) -> bool, x: T, s: seq<T>) {
    forall i :: 0 <= i < |s| ==> less(x, s[i]) || less(s[i], x)
  }

  ghost predicate Comparable<T>(less: (T, T) -> bool, s: seq<T>) {
    forall i, j :: 0 <= i < j < |s| ==> less(s[i], s[j]) || less(s[j], s[i])
  }

  /** Each item comes before all later ones. */
  ghost predicate Ordered<T>(less: (T, T) -> bool, s: seq<T>) {
    forall i, j :: 0 <= i < j < |s| ==> less(s[i], s[j])
  }

  lemma {:induction false} InsertMembers<T>(less: (T, T) -> bool, x: T, s: seq<T>)
    ensures forall y :: y in Insert(less, x, s) <==> y == x || y in s
  {
    if s != [] {
      assert s == [s[0]] + s[1..];
      InsertMembers(less, x, s[1..]);
    }
  }

  lemma {:induction false} InsertOrdered<T(!new)>(less: (T, T) -> bool, x: T, s: seq<T>)
    requires Transitive(less) && Ordered(less, s) && Decides(less, x, s)
    ensures Ordered(less, Insert(less, x, s))
  {
    if s != [] {
      if less(s[0], x) {
        InsertOrdered(less, x, s[1..]);
        InsertMembers(less, x, s[1..]);
        var rest := Insert(less, x, s[1..]);
        forall i | 0 <= i < |rest| ensures less(s[0], rest[i]) {
          assert rest[i] in rest;
        }
      } else {
        forall i | 0 <= i < |s| ensures less(x, s[i]) {
          assert less(x, s[0]);
        }
      }
    }
  }

  lemma {:induction false} SortOrders<T(!new)>(less: (T, T) -> bool, s: seq<T>)
    requires Transitive(less) && Comparable(less, s)
    ensures Ordered(less, Sort(less, s)) && forall y :: y in Sort(less, s) <==> y in s
  {
    if s != [] {
      var rest := Sort(less, s[1..]);
      SortOrders(less, s[1..]);
      InsertMembers(less, s[0], rest);
      forall i | 0 <= i < |rest| ensures less(s[0], rest[i]) || less(rest[i], s[0]) {
        assert rest[i] in s[1..];
      }
      InsertOrdered(less, s[0], rest);
      assert s == [s[0]] + s[1..];
    }
  }
}
