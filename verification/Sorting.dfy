/** Insertion sort by any total order. */
module Sorting {

  ghost predicate TotalOrder<T(!new)>(leq: (T, T) -> bool) {
    && (forall a, b :: leq(a, b) || leq(b, a))
    && (forall a, b, c :: leq(a, b) && leq(b, c) ==> leq(a, c))
  }

  function InsertBy<T>(leq: (T, T) -> bool, x: T, s: seq<T>): seq<T> {
    if s == [] || leq(x, s[0]) then [x] + s else [s[0]] + InsertBy(leq, x, s[1..])
  }

  function SortBy<T>(leq: (T, T) -> bool, s: seq<T>): seq<T> {
    if s == [] then [] else InsertBy(leq, s[0], SortBy(leq, s[1..]))
  }

  ghost predicate RisingBy<T>(leq: (T, T) -> bool, s: seq<T>) {
    forall i, j :: 0 <= i < j < |s| ==> leq(s[i], s[j])
  }

  lemma {:induction false} InsertByHolds<T>(leq: (T, T) -> bool, x: T, s: seq<T>)
    ensures multiset(InsertBy(leq, x, s)) == multiset([x] + s)
  {
    if s != [] && !leq(x, s[0]) {
      InsertByHolds(leq, x, s[1..]);
      assert s == [s[0]] + s[1..];
      assert [x] + s == [x] + [s[0]] + s[1..];
    }
  }

  lemma {:induction false} SortByHolds<T>(leq: (T, T) -> bool, s: seq<T>)
    ensures multiset(SortBy(leq, s)) == multiset(s)
  {
    if s != [] {
      SortByHolds(leq, s[1..]);
      InsertByHolds(leq, s[0], SortBy(leq, s[1..]));
      assert s == [s[0]] + s[1..];
    }
  }

  lemma SameMembers<T>(s: seq<T>, t: seq<T>)
    requires multiset(s) == multiset(t)
    ensures forall x :: x in s <==> x in t
  {
    forall x ensures x in s <==> x in t {
      assert x in s <==> x in multiset(s);
      assert x in t <==> x in multiset(t);
    }
  }

  lemma {:induction false} InsertByRising<T(!new)>(leq: (T, T) -> bool, x: T, s: seq<T>)
    requires TotalOrder(leq) && RisingBy(leq, s)
    ensures RisingBy(leq, InsertBy(leq, x, s))
  {
    if s != [] && !leq(x, s[0]) {
      var t := InsertBy(leq, x, s[1..]);
      assert RisingBy(leq, s[1..]);
      InsertByRising(leq, x, s[1..]);
      InsertByHolds(leq, x, s[1..]);
      SameMembers(t, [x] + s[1..]);
      forall j | 0 <= j < |t| ensures leq(s[0], t[j]) {
        assert t[j] in [x] + s[1..];
        if t[j] != x {
          assert t[j] in s[1..];
        }
      }
    }
  }

  lemma {:induction false} SortByRising<T(!new)>(leq: (T, T) -> bool, s: seq<T>)
    requires TotalOrder(leq)
    ensures RisingBy(leq, SortBy(leq, s))
  {
    if s != [] {
      SortByRising(leq, s[1..]);
      InsertByRising(leq, s[0], SortBy(leq, s[1..]));
    }
  }

  /** Sorting a sorted list changes nothing. */
  lemma {:induction false} SortBySame<T>(leq: (T, T) -> bool, s: seq<T>)
    requires RisingBy(leq, s)
    ensures SortBy(leq, s) == s
  {
    if s != [] {
      assert RisingBy(leq, s[1..]);
      SortBySame(leq, s[1..]);
      assert s == [s[0]] + s[1..];
      assert |s| > 1 ==> leq(s[0], s[1]);
    }
  }
}
