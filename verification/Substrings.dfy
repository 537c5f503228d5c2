/**
  Searching, counting and replacing inside strings.
 */
module Substrings {

  predicate OccursAt(s: string, w: string, i: int) {
    0 <= i <= |s| - |w| && s[i..i + |w|] == w
  }

  predicate Contains(s: string, w: string) {
    exists i :: 0 <= i <= |s| && OccursAt(s, w, i)
  }

  /** Replaces every occurrence, from the left, without overlaps. */
  function Replace(s: string, w: string, r: string): string
    requires w != []
  {
    if |s| < |w| then s
    else if w <= s then r + Replace(s[|w|..], w, r)
    else [s[0]] + Replace(s[1..], w, r)
  }

  function Count(s: string, w: string): nat
    requires w != []
  {
    if |s| < |w| then 0
    else if w <= s then 1 + Count(s[|w|..], w)
    else Count(s[1..], w)
  }

  lemma OccursInside(s: string, w: string, i: int, k: int)
    requires OccursAt(s, w, i) && 0 <= k < |w|
    ensures s[i + k] == w[k]
  {
    assert s[i..i + |w|][k] == s[i + k];
  }

  /** Where `b` starts with a character that is not in `w`, nothing straddles the border. */
  lemma ContainsCut(a: string, b: string, w: string)
    requires w != [] && b != [] && b[0] !in w
    ensures Contains(a + b, w) <==> Contains(a, w) || Contains(b, w)
  {
    if i :| OccursAt(a + b, w, i) {
      if i + |w| <= |a| {
        assert a[i..i + |w|] == (a + b)[i..i + |w|];
        assert OccursAt(a, w, i);
      } else if i >= |a| {
        assert b[i - |a|..i - |a| + |w|] == (a + b)[i..i + |w|];
        assert OccursAt(b, w, i - |a|);
      } else {
        OccursInside(a + b, w, i, |a| - i);
      }
    }
    if i :| OccursAt(a, w, i) {
      assert (a + b)[i..i + |w|] == a[i..i + |w|];
      assert OccursAt(a + b, w, i);
    }
    if i :| OccursAt(b, w, i) {
      assert (a + b)[i + |a|..i + |a| + |w|] == b[i..i + |w|];
      assert OccursAt(a + b, w, i + |a|);
    }
  }

  lemma PrefixCut(a: string, b: string, w: string)
    requires w != [] && b != [] && b[0] !in w
    ensures w <= a + b <==> w <= a
  {
    if |w| <= |a| {
      assert (a + b)[..|w|] == a[..|w|];
    } else {
      assert (a + b)[|a|] == b[0] && w[|a|] in w;
    }
  }

  lemma {:induction false} ReplaceCut(a: string, b: string, w: string, r: string)
    requires w != [] && b != [] && b[0] !in w
    ensures Replace(a + b, w, r) == Replace(a, w, r) + Replace(b, w, r)
    decreases |a|
  {
    PrefixCut(a, b, w);
    if a == [] {
      assert a + b == b;
    } else if w <= a {
      var rest := a[|w|..];
      assert (a + b)[|w|..] == rest + b;
      ReplaceCut(rest, b, w, r);
      Grouped(r, Replace(rest, w, r), Replace(b, w, r));
    } else {
      var rest := a[1..];
      assert (a + b)[0] == a[0] && (a + b)[1..] == rest + b;
      ReplaceShort(a, w, r);
      ReplaceShort(a + b, w, r);
      ReplaceCut(rest, b, w, r);
      Grouped([a[0]], Replace(rest, w, r), Replace(b, w, r));
    }
  }

  lemma Grouped(a: string, b: string, c: string)
    ensures a + (b + c) == a + b + c
  {
  }

  /** A string that does not start with the word keeps its first character. */
  lemma {:induction false} ReplaceShort(s: string, w: string, r: string)
    requires w != [] && s != [] && !(w <= s)
    ensures Replace(s, w, r) == [s[0]] + Replace(s[1..], w, r)
  {
    if |s| < |w| {
      assert s == [s[0]] + s[1..];
    }
  }

  lemma {:induction false} CountCut(a: string, b: string, w: string)
    requires w != [] && b != [] && b[0] !in w
    ensures Count(a + b, w) == Count(a, w) + Count(b, w)
    decreases |a|
  {
    PrefixCut(a, b, w);
    if a == [] {
      assert a + b == b;
    } else if w <= a {
      assert (a + b)[|w|..] == a[|w|..] + b;
      CountCut(a[|w|..], b, w);
    } else {
      assert (a + b)[1..] == a[1..] + b;
      CountCut(a[1..], b, w);
      if |a| < |w| {
        assert Count(a[1..], w) == 0;
        CountShort(a + b, w);
      }
    }
  }

  lemma {:induction false} CountShort(s: string, w: string)
    requires w != [] && s != [] && !(w <= s)
    ensures Count(s, w) == Count(s[1..], w)
  {
  }

  lemma ContainsTail(s: string, w: string)
    requires s != [] && !Contains(s, w)
    ensures !Contains(s[1..], w) && !(w <= s)
  {
    if i :| OccursAt(s[1..], w, i) {
      assert s[i + 1..i + 1 + |w|] == s[1..][i..i + |w|];
      assert OccursAt(s, w, i + 1);
    }
    if w <= s {
      assert OccursAt(s, w, 0);
    }
  }

  lemma {:induction false} ReplaceFree(s: string, w: string, r: string)
    requires w != [] && !Contains(s, w)
    ensures Replace(s, w, r) == s && Count(s, w) == 0
  {
    if s != [] {
      ContainsTail(s, w);
      ReplaceFree(s[1..], w, r);
      assert s == [s[0]] + s[1..];
    }
  }

  lemma CharFree(s: string, w: string, c: char)
    requires c in w && c !in s
    ensures !Contains(s, w)
  {
    if i :| OccursAt(s, w, i) {
      var k :| 0 <= k < |w| && w[k] == c;
      OccursInside(s, w, i, k);
    }
  }

  /** A word of `b` followed by `m` occurs nowhere if neither has it and no start of it ends `b`. */
  lemma NoOccurrence(b: string, m: string, w: string, n: nat)
    requires m != [] && 0 < n <= |w| && !Contains(b, w[..n]) && m[0] !in w[1..n] && !Contains(m, w)
    ensures !Contains(b + m, w)
  {
    if i :| OccursAt(b + m, w, i) {
      if i >= |b| {
        assert m[i - |b|..i - |b| + |w|] == (b + m)[i..i + |w|];
        assert OccursAt(m, w, i - |b|);
      } else {
        NoStraddle(b, m, w, n, i);
      }
    }
  }

  lemma NoStraddle(b: string, m: string, w: string, n: nat, i: nat)
    requires m != [] && 0 < n <= |w| && !Contains(b, w[..n]) && m[0] !in w[1..n] && i < |b|
    ensures !OccursAt(b + m, w, i)
  {
    if i + |w| <= |b + m| {
      if i + n <= |b| {
        assert !OccursAt(b, w[..n], i);
        var k :| 0 <= k < n && b[i..i + n][k] != w[..n][k];
        assert (b + m)[i..i + |w|][k] == b[i + k];
      } else {
        var k := |b| - i;
        assert w[1..n][k - 1] == w[k];
        assert (b + m)[i..i + |w|][k] == m[0];
      }
    }
  }

  /** Removing a marker from the end of a string that does not have it. */
  lemma {:induction false} ReplaceEnd(b: string, m: string, n: nat)
    requires 0 < n <= |m| && !Contains(b, m[..n]) && m[0] !in m[1..n]
    ensures Replace(b + m, m, "") == b
  {
    if b == [] {
      assert b + m == m && m[|m|..] == "";
    } else {
      NoStraddle(b, m, m, n, 0);
      assert (b + m)[0..|m|] == (b + m)[..|m|];
      ContainsTail(b, m[..n]);
      assert (b + m)[1..] == b[1..] + m;
      ReplaceEnd(b[1..], m, n);
    }
  }

  lemma ContainsEnd(b: string, m: string)
    ensures Contains(b + m, m)
  {
    assert (b + m)[|b|..|b| + |m|] == m;
    assert OccursAt(b + m, m, |b|);
  }
}
