/**
  The two generated tables of GL enums: from a value, within a group, to a name, and from a name to
  its value.
 */
module EnumTables {
  import opened Prelude
  import opened Sorting
  import opened StringOrder

  datatype Pair = Pair(name: string, value: int)

  const MAX_VALUE := 0xFFFFFFFF

  // ----- the two orders

  /** By value, then by the length of the name, then by the name. */
  function ByValue(): (Pair, Pair) -> bool {
    (a: Pair, b: Pair) =>
      a.value < b.value
      || (a.value == b.value && (|a.name| < |b.name| || (|a.name| == |b.name| && AtMost(a.name, b.name))))
  }

  /** By name, then by value. */
  function ByName(): (Pair, Pair) -> bool {
    (a: Pair, b: Pair) => (a.name != b.name && AtMost(a.name, b.name)) || (a.name == b.name && a.value <= b.value)
  }

  lemma ByValueOrder()
    ensures TotalOrder(ByValue())
  {
    forall a, b ensures ByValue()(a, b) || ByValue()(b, a) {
      Total(a.name, b.name);
    }
    forall a, b, c | ByValue()(a, b) && ByValue()(b, c) ensures ByValue()(a, c) {
      if AtMost(a.name, b.name) && AtMost(b.name, c.name) {
        Transitive(a.name, b.name, c.name);
      }
    }
  }

  lemma ByNameOrder()
    ensures TotalOrder(ByName())
  {
    forall a, b ensures ByName()(a, b) || ByName()(b, a) {
      Total(a.name, b.name);
    }
    forall a, b, c | ByName()(a, b) && ByName()(b, c) ensures ByName()(a, c) {
      if a.name != b.name && b.name != c.name {
        Transitive(a.name, b.name, c.name);
        if a.name == c.name {
          Antisymmetric(a.name, b.name);
        }
      }
    }
  }

  // ----- from values to names

  /** The bound has nine digits. */
  predicate InRange(p: Pair) {
    0 <= p.value <= 0xFFFFFFFFF
  }

  function Filter(s: seq<Pair>): seq<Pair> {
    if s == [] then [] else (if InRange(s[0]) then [s[0]] else []) + Filter(s[1..])
  }

  lemma {:induction false} FilterHolds(s: seq<Pair>, p: Pair)
    ensures p in Filter(s) <==> p in s && InRange(p)
  {
    if s != [] {
      FilterHolds(s[1..], p);
      assert s == [s[0]] + s[1..];
    }
  }

  /** The pairs that differ in value from the one before. */
  function Dedupe(s: seq<Pair>): seq<Pair> {
    if s == [] then []
    else
      var n := |s| - 1;
      Dedupe(s[..n]) + if n == 0 || s[n].value != s[n - 1].value then [s[n]] else []
  }

  type Order = (Pair, Pair) -> bool

  ghost predicate ValuesFirst(leq: Order) {
    (forall a, b :: leq(a, b) ==> a.value <= b.value) && forall a :: leq(a, a)
  }

  /** `q` comes before every pair of `s` with the same value. */
  ghost predicate Best(leq: Order, s: seq<Pair>, q: Pair) {
    q in s && forall p :: p in s && p.value == q.value ==> leq(q, p)
  }

  predicate Increasing(d: seq<Pair>) {
    forall i, j :: 0 <= i < j < |d| ==> d[i].value < d[j].value
  }

  predicate HasValue(d: seq<Pair>, value: int) {
    exists q :: q in d && q.value == value
  }

  ghost predicate Deduped(leq: Order, s: seq<Pair>, d: seq<Pair>) {
    && Increasing(d)
    && (forall q :: q in d ==> Best(leq, s, q))
    && (forall p :: p in s ==> HasValue(d, p.value))
  }

  lemma LastIsLargest(leq: Order, s: seq<Pair>, x: Pair)
    requires ValuesFirst(leq) && RisingBy(leq, s + [x])
    ensures forall p :: p in s ==> leq(p, x)
    ensures s != [] ==> forall p :: p in s ==> p.value <= s[|s| - 1].value
  {
    var t := s + [x];
    forall p | p in s ensures leq(p, x) && p.value <= s[|s| - 1].value {
      var i :| 0 <= i < |s| && s[i] == p;
      assert t[i] == p && t[|s|] == x && leq(t[i], t[|s|]);
      if i < |s| - 1 {
        assert t[|s| - 1] == s[|s| - 1] && leq(t[i], t[|s| - 1]);
      }
    }
  }

  lemma BestStays(leq: Order, s: seq<Pair>, q: Pair, x: Pair)
    requires Best(leq, s, q) && (x.value == q.value ==> leq(q, x))
    ensures Best(leq, s + [x], q)
  {
  }

  lemma NewValue(leq: Order, s: seq<Pair>, d: seq<Pair>, x: Pair)
    requires ValuesFirst(leq) && RisingBy(leq, s + [x]) && Deduped(leq, s, d)
    requires s != [] ==> x.value != s[|s| - 1].value
    ensures Deduped(leq, s + [x], d + [x])
  {
    LastIsLargest(leq, s, x);
    forall p | p in s ensures p.value < x.value {
      assert leq(s[|s| - 1], x);
    }
    assert leq(x, x);
    assert Best(leq, s + [x], x);
    forall q | q in d ensures Best(leq, s + [x], q) && q.value < x.value {
      assert Best(leq, s, q);
      BestStays(leq, s, q, x);
    }
    assert forall i :: 0 <= i < |d| ==> d[i] in d;
    assert (d + [x])[|d|] == x;
    forall p | p in s + [x] ensures HasValue(d + [x], p.value) {
      if p in s {
        var q :| q in d && q.value == p.value;
        assert q in d + [x];
      }
    }
  }

  lemma SameValue(leq: Order, s: seq<Pair>, d: seq<Pair>, x: Pair)
    requires ValuesFirst(leq) && RisingBy(leq, s + [x]) && Deduped(leq, s, d)
    requires s != [] && x.value == s[|s| - 1].value
    ensures Deduped(leq, s + [x], d)
  {
    LastIsLargest(leq, s, x);
    forall q | q in d ensures Best(leq, s + [x], q) {
      assert Best(leq, s, q);
      BestStays(leq, s, q, x);
    }
    assert HasValue(d, s[|s| - 1].value);
  }

  lemma DedupeSnoc(s: seq<Pair>, x: Pair)
    ensures Dedupe(s + [x]) == Dedupe(s) + if s == [] || x.value != s[|s| - 1].value then [x] else []
  {
    assert (s + [x])[..|s|] == s;
  }

  lemma RisingPrefix(leq: Order, s: seq<Pair>, x: Pair)
    requires RisingBy(leq, s + [x])
    ensures RisingBy(leq, s)
  {
    forall i, j | 0 <= i < j < |s| ensures leq(s[i], s[j]) {
      assert s[i] == (s + [x])[i] && s[j] == (s + [x])[j];
    }
  }

  lemma DedupeStep(leq: Order, s: seq<Pair>, x: Pair)
    requires ValuesFirst(leq) && RisingBy(leq, s + [x]) && Deduped(leq, s, Dedupe(s))
    ensures Deduped(leq, s + [x], Dedupe(s + [x]))
  {
    DedupeSnoc(s, x);
    if s == [] || x.value != s[|s| - 1].value {
      NewValue(leq, s, Dedupe(s), x);
    } else {
      SameValue(leq, s, Dedupe(s), x);
      assert Dedupe(s + [x]) == Dedupe(s);
    }
  }

  lemma {:induction false} DedupeIs(leq: Order, s: seq<Pair>)
    requires ValuesFirst(leq) && RisingBy(leq, s)
    ensures Deduped(leq, s, Dedupe(s))
  {
    if s != [] {
      var before, x := s[..|s| - 1], s[|s| - 1];
      assert s == before + [x];
      RisingPrefix(leq, before, x);
      DedupeIs(leq, before);
      DedupeStep(leq, before, x);
    }
  }

  /** The cases of the generated switch over the values of a group. */
  method DumpGroup(items: seq<Pair>) returns (cases: seq<Pair>)
    ensures cases == Dedupe(SortBy(ByValue(), Filter(items)))
    ensures Increasing(cases)
  {
    var sorted := SortBy(ByValue(), Filter(items));
    cases := [];
    var i := 0;
    while i < |sorted|
      invariant 0 <= i <= |sorted|
      invariant cases == Dedupe(sorted[..i])
    {
      assert sorted[..i + 1][..i] == sorted[..i];
      if i == 0 || sorted[i].value != sorted[i - 1].value {
        cases := cases + [sorted[i]];
      }
      i := i + 1;
    }
    assert sorted[..i] == sorted;
    ByValueFirst();
    ByValueOrder();
    SortByRising(ByValue(), Filter(items));
    DedupeIs(ByValue(), sorted);
  }

  /** The switch; its labels differ, so at most one case applies. */
  function Switch(cases: seq<Pair>, value: int): Option<string> {
    if cases == [] then None
    else if cases[0].value == value then Some(cases[0].name)
    else Switch(cases[1..], value)
  }

  lemma {:induction false} SwitchIs(cases: seq<Pair>, value: int)
    ensures Switch(cases, value).Some? ==> Pair(Switch(cases, value).value, value) in cases
    ensures Switch(cases, value).None? ==> forall p :: p in cases ==> p.value != value
  {
    if cases != [] && cases[0].value != value {
      SwitchIs(cases[1..], value);
      assert cases == [cases[0]] + cases[1..];
    }
  }

  function ToName(items: seq<Pair>, value: int): Option<string> {
    Switch(Dedupe(SortBy(ByValue(), Filter(items))), value)
  }

  lemma ByValueFirst()
    ensures ValuesFirst(ByValue())
  {
    forall a: Pair ensures ByValue()(a, a) {
      Total(a.name, a.name);
    }
  }

  /** The switch over a sorted list names exactly its values, each by its first name. */
  lemma SwitchOfSorted(leq: Order, s: seq<Pair>, value: int)
    requires ValuesFirst(leq) && RisingBy(leq, s)
    ensures var name := Switch(Dedupe(s), value);
            if HasValue(s, value) then name.Some? && Best(leq, s, Pair(name.value, value)) else name.None?
  {
    DedupeIs(leq, s);
    SwitchIs(Dedupe(s), value);
    if HasValue(s, value) {
      var p :| p in s && p.value == value;
      assert HasValue(Dedupe(s), value);
    }
  }

  lemma SortedMembers(leq: Order, items: seq<Pair>, p: Pair)
    ensures p in SortBy(leq, Filter(items)) <==> p in items && InRange(p)
  {
    SortByHolds(leq, Filter(items));
    SameMembers(SortBy(leq, Filter(items)), Filter(items));
    FilterHolds(items, p);
  }

  /** The shortest name of the value, and the alphabetically first of those. */
  ghost predicate FirstName(items: seq<Pair>, name: string, value: int) {
    && Pair(name, value) in items
    && forall p :: p in items && p.value == value ==>
         |name| < |p.name| || (|name| == |p.name| && AtMost(name, p.name))
  }

  lemma SortedHasValue(items: seq<Pair>, value: int)
    ensures HasValue(SortBy(ByValue(), Filter(items)), value) <==> HasValue(items, value) && 0 <= value <= 0xFFFFFFFFF
  {
    var sorted := SortBy(ByValue(), Filter(items));
    forall p ensures p in sorted <==> p in items && InRange(p) {
      SortedMembers(ByValue(), items, p);
    }
    if HasValue(items, value) && 0 <= value <= 0xFFFFFFFFF {
      var p :| p in items && p.value == value;
      assert p in sorted;
    }
  }

  lemma BestIsFirst(items: seq<Pair>, name: string, value: int)
    requires Best(ByValue(), SortBy(ByValue(), Filter(items)), Pair(name, value))
    ensures FirstName(items, name, value)
  {
    var q := Pair(name, value);
    SortedMembers(ByValue(), items, q);
    forall p | p in items && p.value == value ensures ByValue()(q, p) {
      SortedMembers(ByValue(), items, p);
    }
  }

  /** A value of the group is named by the shortest, then alphabetically first, of its names. */
  lemma NameOfValue(items: seq<Pair>, value: int)
    ensures var name := ToName(items, value);
            if HasValue(items, value) && 0 <= value <= 0xFFFFFFFFF
            then name.Some? && FirstName(items, name.value, value)
            else name.None?
  {
    var sorted := SortBy(ByValue(), Filter(items));
    ByValueFirst();
    ByValueOrder();
    SortByRising(ByValue(), Filter(items));
    SwitchOfSorted(ByValue(), sorted, value);
    SortedHasValue(items, value);
    if HasValue(sorted, value) {
      BestIsFirst(items, ToName(items, value).value, value);
    }
  }

  // ----- from names to values

  /** A value as the table stores it: an unsigned number of 32 bits. */
  function Stored(value: int): int {
    if value < 0 then value % 0x1_0000_0000 else if value <= MAX_VALUE then value else MAX_VALUE
  }

  /** The first entry of a name. */
  function Search(table: seq<Pair>, name: string): Option<int> {
    if table == [] then None
    else if table[0].name == name then Some(Stored(table[0].value))
    else Search(table[1..], name)
  }

  predicate Before(a: string, b: string) {
    AtMost(a, b) && a != b
  }

  ghost predicate Partition(table: seq<Pair>, name: string, k: nat) {
    && k <= |table|
    && (forall i :: 0 <= i < k ==> Before(table[i].name, name))
    && (forall i :: k <= i < |table| ==> !Before(table[i].name, name))
  }

  lemma RisingNames(table: seq<Pair>, i: nat, j: nat)
    requires RisingBy(ByName(), table) && i <= j < |table|
    ensures AtMost(table[i].name, table[j].name)
  {
    Total(table[i].name, table[i].name);
    if i < j {
      assert ByName()(table[i], table[j]);
    }
  }

  lemma BeforeAll(table: seq<Pair>, name: string, m: nat)
    requires RisingBy(ByName(), table) && m < |table|
    ensures Before(table[m].name, name) ==> forall i :: 0 <= i <= m ==> Before(table[i].name, name)
    ensures !Before(table[m].name, name) ==> forall i :: m <= i < |table| ==> !Before(table[i].name, name)
  {
    forall i | 0 <= i <= m && Before(table[m].name, name) ensures Before(table[i].name, name) {
      RisingNames(table, i, m);
      Transitive(table[i].name, table[m].name, name);
      if table[i].name == name {
        Antisymmetric(table[i].name, table[m].name);
      }
    }
    forall i | m <= i < |table| && !Before(table[m].name, name) ensures !Before(table[i].name, name) {
      RisingNames(table, m, i);
      if Before(table[i].name, name) {
        Transitive(table[m].name, table[i].name, name);
        if table[m].name == name {
          Antisymmetric(table[i].name, table[m].name);
        }
      }
    }
  }

  method LowerBound(table: seq<Pair>, name: string) returns (first: nat)
    requires RisingBy(ByName(), table)
    ensures Partition(table, name, first)
  {
    first := 0;
    var count := |table|;
    while count > 0
      invariant 0 <= first <= first + count <= |table|
      invariant forall i :: 0 <= i < first ==> Before(table[i].name, name)
      invariant forall i :: first + count <= i < |table| ==> !Before(table[i].name, name)
      decreases count
    {
      var step := count / 2;
      BeforeAll(table, name, first + step);
      if Before(table[first + step].name, name) {
        first, count := first + step + 1, count - step - 1;
      } else {
        count := step;
      }
    }
  }

  lemma {:induction false} SearchAt(table: seq<Pair>, name: string, k: nat)
    requires k <= |table| && forall i :: 0 <= i < k ==> table[i].name != name
    ensures Search(table, name) == Search(table[k..], name)
  {
    if k > 0 {
      assert table[k..] == table[1..][k - 1..];
      SearchAt(table[1..], name, k - 1);
    } else {
      assert table[k..] == table;
    }
  }

  lemma {:induction false} SearchNone(table: seq<Pair>, name: string)
    requires forall i :: 0 <= i < |table| ==> table[i].name != name
    ensures Search(table, name) == None
  {
    if table != [] {
      SearchNone(table[1..], name);
    }
  }

  /** Binary search finds what a search from the front finds. */
  method ToValue(table: seq<Pair>, name: string) returns (r: Option<int>)
    requires RisingBy(ByName(), table)
    ensures r == Search(table, name)
  {
    var k := LowerBound(table, name);
    SearchAt(table, name, k);
    if k < |table| && table[k].name == name {
      r := Some(Stored(table[k].value));
    } else {
      forall i | k <= i < |table| ensures table[i].name != name {
        if i > k {
          RisingNames(table, k, i);
        }
      }
      SearchNone(table, name);
      r := None;
    }
  }

  /** The least of the values listed for a name. */
  ghost predicate Least(enums: seq<Pair>, name: string, value: int) {
    Pair(name, value) in enums && forall v :: Pair(name, v) in enums ==> value <= v
  }

  lemma FrontIsLeast(table: seq<Pair>)
    requires table != [] && RisingBy(ByName(), table)
    ensures Least(table, table[0].name, table[0].value)
  {
    var p := table[0];
    assert p == Pair(p.name, p.value);
    forall v | Pair(p.name, v) in table
      ensures p.value <= v
    {
      var i :| 0 <= i < |table| && table[i] == Pair(p.name, v);
      if i > 0 {
        assert ByName()(p, table[i]);
      }
    }
  }

  /** In a sorted table a search finds the least value of the name, as it is stored. */
  lemma {:induction false} SearchFindsLeast(table: seq<Pair>, name: string, value: int) returns (least: int)
    requires RisingBy(ByName(), table) && Pair(name, value) in table
    ensures Least(table, name, least) && Search(table, name) == Some(Stored(least))
  {
    var rest := table[1..];
    assert table == [table[0]] + rest;
    if table[0].name == name {
      least := table[0].value;
      FrontIsLeast(table);
    } else {
      assert forall i :: 0 <= i < |rest| ==> rest[i] == table[i + 1];
      least := SearchFindsLeast(rest, name, value);
      assert forall v :: Pair(name, v) in table <==> Pair(name, v) in rest;
    }
  }

  /** The table of all enums, whatever group they are in. */
  function NameTable(enums: seq<Pair>): seq<Pair> {
    SortBy(ByName(), enums)
  }

  lemma NameTableIs(enums: seq<Pair>)
    ensures RisingBy(ByName(), NameTable(enums))
    ensures forall p :: p in NameTable(enums) <==> p in enums
  {
    ByNameOrder();
    SortByRising(ByName(), enums);
    SortByHolds(ByName(), enums);
    SameMembers(NameTable(enums), enums);
  }

  /**
    For every table: the name generated for a value leads back to it exactly if the least value listed
    for that name, as it is stored, is the value.
   */
  lemma NamesLeadBack(items: seq<Pair>, enums: seq<Pair>, value: int) returns (least: int)
    requires forall p :: p in items ==> p in enums
    requires HasValue(items, value) && 0 <= value <= 0xFFFFFFFFF
    ensures ToName(items, value).Some? && Least(enums, ToName(items, value).value, least)
    ensures Search(NameTable(enums), ToName(items, value).value) == Some(value) <==> Stored(least) == value
  {
    NameOfValue(items, value);
    var name := ToName(items, value).value;
    NameTableIs(enums);
    assert Pair(name, value) in enums;
    least := SearchFindsLeast(NameTable(enums), name, value);
  }

  /** A name with one value leads back exactly if the value fits 32 bits. */
  lemma OneValueLeadsBack(items: seq<Pair>, enums: seq<Pair>, value: int)
    requires forall p :: p in items ==> p in enums
    requires HasValue(items, value) && 0 <= value <= 0xFFFFFFFFF
    requires forall name, v :: Pair(name, value) in items && Pair(name, v) in enums ==> v == value
    ensures ToName(items, value).Some?
    ensures Search(NameTable(enums), ToName(items, value).value) == Some(value) <==> value <= MAX_VALUE
  {
    var least := NamesLeadBack(items, enums, value);
    NameOfValue(items, value);
  }

  /** A name that is listed with a smaller value too leads to that one. */
  lemma TwoValuesLost(name: string, small: int, value: int)
    requires 0 <= small < value <= MAX_VALUE
    ensures var items, enums := [Pair(name, value)], [Pair(name, small), Pair(name, value)];
            && ToName(items, value) == Some(name)
            && Search(NameTable(enums), name) == Some(small) && small != value
  {
    var items, enums := [Pair(name, value)], [Pair(name, small), Pair(name, value)];
    assert items[0] in items;
    assert enums[0] in enums && enums[1] in enums;
    NameOfValue(items, value);
    NameTableIs(enums);
    var least := SearchFindsLeast(NameTable(enums), name, value);
    assert Pair(name, small) in NameTable(enums);
  }
}
