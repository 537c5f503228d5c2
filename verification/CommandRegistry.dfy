/**
  The registry of API commands: features and extensions list commands, and each command is
  registered once, for the first of its definers.
 */
module CommandRegistry {
  import opened Prelude

  /** One list of commands: where it comes from and under which key it is registered. */
  datatype Source = Source(origin: string, key: string, names: seq<string>)

  // ----- lists

  function Keep(s: seq<string>, known: set<string>): seq<string> {
    if s == [] then [] else (if s[0] in known then [s[0]] else []) + Keep(s[1..], known)
  }

  function Drop(s: seq<string>, known: set<string>): seq<string> {
    if s == [] then [] else (if s[0] in known then [] else [s[0]]) + Drop(s[1..], known)
  }

  predicate NoDup(s: seq<string>) {
    forall i, j :: 0 <= i < j < |s| ==> s[i] != s[j]
  }

  predicate Apart(s: seq<string>, t: seq<string>) {
    forall x :: x in s ==> x !in t
  }

  lemma {:induction false} DropHolds(s: seq<string>, known: set<string>, x: string)
    ensures x in Drop(s, known) <==> x in s && x !in known
  {
    if s != [] {
      DropHolds(s[1..], known, x);
      assert s == [s[0]] + s[1..];
    }
  }

  lemma {:induction false} KeepHolds(s: seq<string>, known: set<string>, x: string)
    ensures x in Keep(s, known) <==> x in s && x in known
  {
    if s != [] {
      KeepHolds(s[1..], known, x);
      assert s == [s[0]] + s[1..];
    }
  }

  /** What is kept and what is dropped partition the list. */
  lemma {:induction false} KeepDrop(s: seq<string>, known: set<string>)
    ensures multiset(Keep(s, known)) + multiset(Drop(s, known)) == multiset(s)
  {
    if s != [] {
      KeepDrop(s[1..], known);
      assert s == [s[0]] + s[1..];
    }
  }

  lemma NoDupConcat(s: seq<string>, t: seq<string>)
    ensures NoDup(s + t) <==> NoDup(s) && NoDup(t) && Apart(s, t)
  {
    var u := s + t;
    if NoDup(u) {
      forall i, j | 0 <= i < j < |s| ensures s[i] != s[j] {
        assert u[i] == s[i] && u[j] == s[j];
      }
      forall i, j | 0 <= i < j < |t| ensures t[i] != t[j] {
        assert u[|s| + i] == t[i] && u[|s| + j] == t[j];
      }
      forall i, j | 0 <= i < |s| && 0 <= j < |t| ensures s[i] != t[j] {
        assert u[i] == s[i] && u[|s| + j] == t[j];
      }
    }
    if NoDup(s) && NoDup(t) && Apart(s, t) {
      forall i, j | 0 <= i < j < |u| ensures u[i] != u[j] {
        if i < |s| <= j {
          assert s[i] in s && t[j - |s|] in t;
        }
      }
    }
  }

  // ----- what a history of sources means

  function Known(history: seq<Source>): set<string> {
    if history == [] then {} else Known(history[..|history| - 1]) + SetOf(history[|history| - 1].names)
  }

  /** The commands a source is the first to define. */
  function Owned(history: seq<Source>, i: nat): seq<string>
    requires i < |history|
  {
    Drop(history[i].names, Known(history[..i]))
  }

  /** The commands registered under a key. */
  function Registered(history: seq<Source>, key: string): seq<string> {
    if history == [] then []
    else
      var last, before := |history| - 1, history[..|history| - 1];
      Registered(before, key) + if history[last].key == key then Drop(history[last].names, Known(before)) else []
  }

  function Times(origin: string, names: seq<string>, cmd: string): seq<string> {
    if names == [] then []
    else Times(origin, names[..|names| - 1], cmd) + if names[|names| - 1] == cmd then [origin] else []
  }

  /** All the definers of a command, in order. */
  function Definers(history: seq<Source>, cmd: string): seq<string> {
    if history == [] then []
    else Definers(history[..|history| - 1], cmd) + Times(history[|history| - 1].origin, history[|history| - 1].names, cmd)
  }

  lemma {:induction false} KnownIff(history: seq<Source>, cmd: string)
    ensures cmd in Known(history) <==> exists i :: 0 <= i < |history| && cmd in history[i].names
  {
    if history != [] {
      var before := history[..|history| - 1];
      KnownIff(before, cmd);
      assert forall i :: 0 <= i < |before| ==> before[i] == history[i];
      if cmd in Known(before) {
        var i :| 0 <= i < |before| && cmd in before[i].names;
        assert cmd in history[i].names;
      }
    }
  }

  /** A command belongs to the first source that lists it. */
  lemma OwnedIff(history: seq<Source>, i: nat, cmd: string)
    requires i < |history|
    ensures cmd in Owned(history, i) <==>
      && cmd in history[i].names
      && forall j :: 0 <= j < i ==> cmd !in history[j].names
  {
    DropHolds(history[i].names, Known(history[..i]), cmd);
    KnownIff(history[..i], cmd);
    assert forall j :: 0 <= j < i ==> history[..i][j] == history[j];
  }

  predicate OwnedUnder(history: seq<Source>, key: string, cmd: string) {
    exists i :: 0 <= i < |history| && history[i].key == key && cmd in Owned(history, i)
  }

  lemma OwnedUnderStep(history: seq<Source>, key: string, cmd: string)
    requires history != []
    ensures var n := |history| - 1;
            OwnedUnder(history, key, cmd) <==>
              OwnedUnder(history[..n], key, cmd) || (history[n].key == key && cmd in Owned(history, n))
  {
    var n, before := |history| - 1, history[..|history| - 1];
    if OwnedUnder(before, key, cmd) {
      var i :| 0 <= i < n && before[i].key == key && cmd in Owned(before, i);
      assert before[..i] == history[..i];
      assert history[i].key == key && cmd in Owned(history, i);
    }
    if OwnedUnder(history, key, cmd) {
      var i :| 0 <= i <= n && history[i].key == key && cmd in Owned(history, i);
      if i < n {
        assert before[..i] == history[..i];
        assert before[i].key == key && cmd in Owned(before, i);
      }
    }
  }

  lemma {:induction false} RegisteredHolds(history: seq<Source>, key: string, cmd: string)
    ensures cmd in Registered(history, key) <==> OwnedUnder(history, key, cmd)
  {
    if history != [] {
      RegisteredHolds(history[..|history| - 1], key, cmd);
      OwnedUnderStep(history, key, cmd);
    }
  }

  lemma OwnedApart(history: seq<Source>, i: nat, j: nat)
    requires i < j < |history|
    ensures Apart(Owned(history, i), Owned(history, j))
  {
    forall x | x in Owned(history, i) ensures x !in Owned(history, j) {
      OwnedIff(history, i, x);
      OwnedIff(history, j, x);
    }
  }

  predicate OwnedOnce(history: seq<Source>) {
    forall i :: 0 <= i < |history| ==> NoDup(Owned(history, i))
  }

  predicate KeyOwnedOnce(history: seq<Source>, key: string) {
    forall i :: 0 <= i < |history| && history[i].key == key ==> NoDup(Owned(history, i))
  }

  lemma KeyOwnedOnceStep(history: seq<Source>, key: string)
    requires history != []
    ensures var n := |history| - 1;
            KeyOwnedOnce(history, key) <==>
              KeyOwnedOnce(history[..n], key) && (history[n].key == key ==> NoDup(Owned(history, n)))
  {
    var n, before := |history| - 1, history[..|history| - 1];
    forall i | 0 <= i < n ensures Owned(before, i) == Owned(history, i) && before[i] == history[i] {
      assert before[..i] == history[..i];
    }
  }

  lemma LastApart(history: seq<Source>, key: string)
    requires history != []
    ensures Apart(Registered(history[..|history| - 1], key), Owned(history, |history| - 1))
  {
    var n, before := |history| - 1, history[..|history| - 1];
    forall x | x in Registered(before, key) ensures x !in Owned(history, n) {
      RegisteredHolds(before, key, x);
      var i :| 0 <= i < n && before[i].key == key && x in Owned(before, i);
      assert before[..i] == history[..i];
      OwnedApart(history, i, n);
    }
  }

  lemma {:induction false} RegisteredNoDup(history: seq<Source>, key: string)
    ensures NoDup(Registered(history, key)) <==> KeyOwnedOnce(history, key)
  {
    if history != [] {
      var n, before := |history| - 1, history[..|history| - 1];
      RegisteredNoDup(before, key);
      KeyOwnedOnceStep(history, key);
      LastApart(history, key);
      NoDupConcat(Registered(before, key), Owned(history, n));
      if history[n].key != key {
        assert Registered(history, key) == Registered(before, key);
      }
    }
  }

  // ----- all the registered commands, key by key

  type Table = map<string, seq<string>>

  function Concat(table: Table, keys: seq<string>): seq<string>
    requires forall k :: k in keys ==> k in table
  {
    if keys == [] then [] else Concat(table, keys[..|keys| - 1]) + table[keys[|keys| - 1]]
  }

  lemma {:induction false} ConcatHolds(table: Table, keys: seq<string>, x: string)
    requires forall k :: k in keys ==> k in table
    ensures x in Concat(table, keys) <==> exists k :: k in keys && x in table[k]
  {
    if keys != [] {
      var before, last := keys[..|keys| - 1], keys[|keys| - 1];
      assert keys == before + [last];
      ConcatHolds(table, before, x);
    }
  }

  lemma {:induction false} ConcatNoDup(table: Table, keys: seq<string>)
    requires forall k :: k in keys ==> k in table
    requires NoDup(keys)
    requires forall k, l :: k in keys && l in keys && k != l ==> Apart(table[k], table[l])
    ensures NoDup(Concat(table, keys)) <==> forall k :: k in keys ==> NoDup(table[k])
  {
    if keys != [] {
      var before, last := keys[..|keys| - 1], keys[|keys| - 1];
      assert keys == before + [last];
      assert last !in before;
      ConcatNoDup(table, before);
      NoDupConcat(Concat(table, before), table[last]);
      forall x | x in Concat(table, before) ensures x !in table[last] {
        ConcatHolds(table, before, x);
      }
    }
  }

  /** The table of a history. */
  ghost predicate TableOf(table: Table, history: seq<Source>) {
    && (forall k :: k in table <==> exists i :: 0 <= i < |history| && history[i].key == k)
    && (forall k :: k in table ==> table[k] == Registered(history, k))
  }

  lemma RegisteredApart(history: seq<Source>, k: string, l: string)
    requires k != l
    ensures Apart(Registered(history, k), Registered(history, l))
  {
    forall x | x in Registered(history, k) ensures x !in Registered(history, l) {
      RegisteredHolds(history, k, x);
      RegisteredHolds(history, l, x);
      var i :| 0 <= i < |history| && history[i].key == k && x in Owned(history, i);
      if x in Registered(history, l) {
        var j :| 0 <= j < |history| && history[j].key == l && x in Owned(history, j);
        if i < j {
          OwnedApart(history, i, j);
        } else {
          OwnedApart(history, j, i);
        }
      }
    }
  }

  lemma AllComplete(table: Table, history: seq<Source>, keys: seq<string>, cmd: string)
    requires TableOf(table, history) && forall k :: k in keys <==> k in table
    ensures cmd in Concat(table, keys) <==> cmd in Known(history)
  {
    ConcatHolds(table, keys, cmd);
    KnownIff(history, cmd);
    if cmd in Concat(table, keys) {
      var k :| k in keys && cmd in table[k];
      RegisteredHolds(history, k, cmd);
      var i :| 0 <= i < |history| && history[i].key == k && cmd in Owned(history, i);
      OwnedIff(history, i, cmd);
    }
    if cmd in Known(history) {
      var i := FirstDefiner(history, cmd);
      OwnedIff(history, i, cmd);
      RegisteredHolds(history, history[i].key, cmd);
      assert history[i].key in keys;
    }
  }

  lemma {:induction false} FirstDefiner(history: seq<Source>, cmd: string) returns (i: nat)
    requires cmd in Known(history)
    ensures i < |history| && cmd in history[i].names && forall j :: 0 <= j < i ==> cmd !in history[j].names
  {
    var before := history[..|history| - 1];
    if cmd in Known(before) {
      i := FirstDefiner(before, cmd);
      assert forall j :: 0 <= j <= i ==> before[j] == history[j];
    } else {
      i := |history| - 1;
      KnownIff(before, cmd);
      assert forall j :: 0 <= j < i ==> before[j] == history[j];
    }
  }

  /** The list of all commands has no duplicates exactly when no source lists a new command twice. */
  lemma AllNoDup(table: Table, history: seq<Source>, keys: seq<string>)
    requires TableOf(table, history) && NoDup(keys) && forall k :: k in keys <==> k in table
    ensures NoDup(Concat(table, keys)) <==> OwnedOnce(history)
  {
    forall k, l | k in keys && l in keys && k != l ensures Apart(table[k], table[l]) {
      RegisteredApart(history, k, l);
    }
    ConcatNoDup(table, keys);
    forall k | k in keys ensures NoDup(table[k]) <==> KeyOwnedOnce(history, k) {
      RegisteredNoDup(history, k);
    }
    forall i | 0 <= i < |history| ensures history[i].key in keys {
    }
    if forall k :: k in keys ==> KeyOwnedOnce(history, k) {
      forall i | 0 <= i < |history| ensures NoDup(Owned(history, i)) {
        assert KeyOwnedOnce(history, history[i].key);
      }
    }
  }

  // ----- removing what is already registered

  function RemoveFirst(s: seq<string>, x: string): seq<string> {
    if s == [] then [] else if s[0] == x then s[1..] else [s[0]] + RemoveFirst(s[1..], x)
  }

  lemma {:induction false} RemoveFirstAfter(front: seq<string>, x: string, back: seq<string>)
    requires x !in front
    ensures RemoveFirst(front + [x] + back, x) == front + back
  {
    if front == [] {
      assert front + [x] + back == [x] + back && front + back == back;
    } else {
      var s := front + [x] + back;
      assert s[0] == front[0] && s[1..] == front[1..] + [x] + back;
      RemoveFirstAfter(front[1..], x, back);
    }
  }

  function RemoveEach(s: seq<string>, xs: seq<string>): seq<string>
    decreases |xs|
  {
    if xs == [] then s else RemoveEach(RemoveFirst(s, xs[0]), xs[1..])
  }

  /** Removing every duplicate once, from the front, leaves exactly the new commands in order. */
  lemma {:induction false} RemoveKept(front: seq<string>, s: seq<string>, known: set<string>)
    requires forall x :: x in front ==> x !in known
    ensures RemoveEach(front + s, Keep(s, known)) == front + Drop(s, known)
    decreases |s|
  {
    if s != [] {
      var x, rest := s[0], s[1..];
      assert s == [x] + rest;
      assert front + s == front + [x] + rest;
      if x in known {
        RemoveFirstAfter(front, x, rest);
        assert Keep(s, known)[0] == x && Keep(s, known)[1..] == Keep(rest, known);
        RemoveKept(front, rest, known);
        assert Drop(s, known) == Drop(rest, known);
      } else {
        RemoveKept(front + [x], rest, known);
        assert Keep(s, known) == Keep(rest, known);
        assert front + Drop(s, known) == front + [x] + Drop(rest, known);
      }
    }
  }

  method FindDupes(names: seq<string>, all: seq<string>, ghost known: set<string>) returns (dupes: seq<string>)
    requires forall x :: x in all <==> x in known
    ensures dupes == Keep(names, known)
  {
    dupes := [];
    var i := 0;
    while i < |names|
      invariant 0 <= i <= |names|
      invariant dupes + Keep(names[i..], known) == Keep(names, known)
    {
      assert names[i..][1..] == names[i + 1..];
      if names[i] in all {
        dupes := dupes + [names[i]];
      }
      i := i + 1;
    }
  }

  method RemoveAll(names: seq<string>, dupes: seq<string>) returns (left: seq<string>)
    ensures left == RemoveEach(names, dupes)
  {
    left := names;
    var i := 0;
    while i < |dupes|
      invariant 0 <= i <= |dupes|
      invariant RemoveEach(left, dupes[i..]) == RemoveEach(names, dupes)
    {
      assert dupes[i..][1..] == dupes[i + 1..];
      left := RemoveFirst(left, dupes[i]);
      i := i + 1;
    }
  }
}
