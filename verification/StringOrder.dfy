/**
  The order of strings by their characters, and sorting a set of strings by a key.
 */
module StringOrder {
  import opened Sorting

  predicate AtMost(a: string, b: string) {
    a == [] || (b != [] && (a[0] < b[0] || (a[0] == b[0] && AtMost(a[1..], b[1..]))))
  }

  lemma {:induction false} Total(a: string, b: string)
    ensures AtMost(a, b) || AtMost(b, a)
  {
    if a != [] && b != [] {
      Total(a[1..], b[1..]);
    }
  }

  lemma {:induction false} Transitive(a: string, b: string, c: string)
    requires AtMost(a, b) && AtMost(b, c)
    ensures AtMost(a, c)
  {
    if a != [] && a[0] == b[0] && b[0] == c[0] {
      Transitive(a[1..], b[1..], c[1..]);
    }
  }

  lemma {:induction false} Antisymmetric(a: string, b: string)
    requires AtMost(a, b) && AtMost(b, a)
    ensures a == b
  {
    if a != [] {
      Antisymmetric(a[1..], b[1..]);
      assert a == [a[0]] + a[1..] && b == [b[0]] + b[1..];
    }
  }

  function Lower(s: string): string {
    seq(|s|, i requires 0 <= i < |s| => if 'A' <= s[i] <= 'Z' then s[i] - 'A' + 'a' else s[i])
  }

  function Same(s: string): string {
    s
  }

  ghost predicate Ordered(key: string -> string, r: seq<string>) {
    && (forall i, j :: 0 <= i < j < |r| ==> AtMost(key(r[i]), key(r[j])))
    && (forall i, j :: 0 <= i < j < |r| ==> r[i] != r[j])
  }

  /** `r` lists the set, each element once, by increasing key. */
  ghost predicate Lists(key: string -> string, r: seq<string>, s: set<string>) {
    Ordered(key, r) && forall x :: x in r <==> x in s
  }

  function Inserted(r: seq<string>, k: nat, x: string): seq<string>
    requires k <= |r|
  {
    r[..k] + [x] + r[k..]
  }

  lemma InsertedHolds(r: seq<string>, k: nat, x: string)
    requires k <= |r|
    ensures forall y :: y in Inserted(r, k, x) <==> y in r || y == x
  {
    assert r == r[..k] + r[k..];
  }

  lemma InsertedOrdered(key: string -> string, r: seq<string>, k: nat, x: string)
    requires Ordered(key, r) && k <= |r| && x !in r
    requires forall i :: 0 <= i < k ==> AtMost(key(r[i]), key(x))
    requires forall i :: k <= i < |r| ==> AtMost(key(x), key(r[i]))
    ensures Ordered(key, Inserted(r, k, x))
  {
    var t := Inserted(r, k, x);
    forall i, j | 0 <= i < j < |t| ensures AtMost(key(t[i]), key(t[j])) && t[i] != t[j] {
      var a := if i < k then i else i - 1;
      var b := if j < k then j else j - 1;
      if i == k {
        assert t[i] == x && t[j] == r[b];
      } else if j == k {
        assert t[i] == r[a] && t[j] == x;
      } else {
        assert t[i] == r[a] && t[j] == r[b];
      }
    }
  }

  method Insert(key: string -> string, r: seq<string>, x: string) returns (t: seq<string>)
    requires Ordered(key, r) && x !in r
    ensures Ordered(key, t)
    ensures forall y :: y in t <==> y in r || y == x
  {
    var k := |r|;
    while k > 0 && !AtMost(key(r[k - 1]), key(x))
      invariant 0 <= k <= |r|
      invariant forall i :: k <= i < |r| ==> AtMost(key(x), key(r[i]))
    {
      Total(key(r[k - 1]), key(x));
      k := k - 1;
    }
    forall i | 0 <= i < k ensures AtMost(key(r[i]), key(x)) {
      if i < k - 1 {
        Transitive(key(r[i]), key(r[k - 1]), key(x));
      }
    }
    InsertedOrdered(key, r, k, x);
    InsertedHolds(r, k, x);
    t := Inserted(r, k, x);
  }

  method Sorted(key: string -> string, s: set<string>) returns (r: seq<string>)
    ensures Lists(key, r, s)
  {
    var rest := s;
    r := [];
    while rest != {}
      invariant rest <= s
      invariant Lists(key, r, s - rest)
    {
      var x :| x in rest;
      r := Insert(key, r, x);
      rest := rest - {x};
    }
  }

  // ----- sorting a list

  predicate Rising(s: seq<string>) {
    forall i :: 0 < i < |s| ==> AtMost(s[i - 1], s[i])
  }

  function Alphabetical(): (string, string) -> bool {
    (a: string, b: string) => AtMost(a, b)
  }

  lemma AlphabeticalOrder()
    ensures TotalOrder(Alphabetical())
  {
    forall a, b ensures Alphabetical()(a, b) || Alphabetical()(b, a) {
      Total(a, b);
    }
    forall a, b, c | Alphabetical()(a, b) && Alphabetical()(b, c) ensures Alphabetical()(a, c) {
      Transitive(a, b, c);
    }
  }

  function SortList(s: seq<string>): seq<string> {
    SortBy(Alphabetical(), s)
  }

  /** Rising from each element to the next is rising throughout. */
  lemma {:induction false} RisingThroughout(s: seq<string>)
    requires Rising(s)
    ensures RisingBy(Alphabetical(), s)
  {
    if s != [] {
      assert forall i :: 0 < i < |s[1..]| ==> s[1..][i - 1] == s[i] && s[1..][i] == s[i + 1];
      RisingThroughout(s[1..]);
      forall j | 1 <= j < |s|
        ensures AtMost(s[0], s[j])
      {
        assert AtMost(s[0], s[1]);
        if j > 1 {
          assert Alphabetical()(s[1..][0], s[1..][j - 1]);
          Transitive(s[0], s[1], s[j]);
        }
      }
      forall i, j | 0 <= i < j < |s|
        ensures Alphabetical()(s[i], s[j])
      {
        if i > 0 {
          assert Alphabetical()(s[1..][i - 1], s[1..][j - 1]);
        }
      }
    }
  }

  lemma SortListRising(s: seq<string>)
    ensures Rising(SortList(s)) && multiset(SortList(s)) == multiset(s)
  {
    AlphabeticalOrder();
    SortByRising(Alphabetical(), s);
    SortByHolds(Alphabetical(), s);
    var t := SortList(s);
    forall i | 0 < i < |t|
      ensures AtMost(t[i - 1], t[i])
    {
      assert Alphabetical()(t[i - 1], t[i]);
    }
  }

  /** Sorting a sorted list changes nothing. */
  lemma SortListSame(s: seq<string>)
    requires Rising(s)
    ensures SortList(s) == s
  {
    RisingThroughout(s);
    SortBySame(Alphabetical(), s);
  }
}
