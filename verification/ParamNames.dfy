/**
  Splitting a C parameter into its type and its name, and joining them again.
 */
module ParamNames {
  import opened Prelude
  import opened Whitespace

  // ----- strings

  predicate IdChar(c: char) {
    'a' <= c <= 'z' || 'A' <= c <= 'Z' || '0' <= c <= '9' || c == '_'
  }

  predicate Identifier(s: string) {
    s != [] && forall i :: 0 <= i < |s| ==> IdChar(s[i])
  }

  predicate HasIdChar(s: string) {
    exists i :: 0 <= i < |s| && IdChar(s[i])
  }

  /** The first index of a character, or -1. */
  function Find(s: string, c: char): int {
    if s == [] then -1
    else if s[0] == c then 0
    else
      var i := Find(s[1..], c);
      if i < 0 then -1 else i + 1
  }

  function LeftStrip(s: string): string {
    if s != [] && Space(s[0]) then LeftStrip(s[1..]) else s
  }

  function RightStrip(s: string): string {
    if s != [] && Space(s[|s| - 1]) then RightStrip(s[..|s| - 1]) else s
  }

  function Strip(s: string): string {
    RightStrip(LeftStrip(s))
  }

  predicate Stripped(s: string) {
    s == [] || (!Space(s[0]) && !Space(s[|s| - 1]))
  }

  /** A slice whose bounds may count from the end. */
  function Bound(s: string, i: int): nat {
    if i < -|s| then 0 else if i < 0 then i + |s| else if i > |s| then |s| else i
  }

  function Slice(s: string, from: int, to: int): string {
    var a, b := Bound(s, from), Bound(s, to);
    if a <= b then s[a..b] else []
  }

  lemma {:induction false} FindIs(s: string, c: char)
    ensures -1 <= Find(s, c) < |s|
    ensures Find(s, c) < 0 <==> c !in s
    ensures Find(s, c) >= 0 ==> s[Find(s, c)] == c && c !in s[..Find(s, c)]
  {
    if s != [] && s[0] != c {
      FindIs(s[1..], c);
      var i := Find(s[1..], c);
      if i >= 0 {
        assert s[..i + 1] == [s[0]] + s[1..][..i];
      }
      assert s == [s[0]] + s[1..];
    }
  }

  lemma {:induction false} FindAt(front: string, c: char, back: string)
    requires c !in front
    ensures Find(front + [c] + back, c) == |front|
  {
    var s := front + [c] + back;
    if front != [] {
      assert s[0] == front[0] && s[1..] == front[1..] + [c] + back;
      FindAt(front[1..], c, back);
    } else {
      assert s[0] == c;
    }
  }

  lemma {:induction false} LeftStripIs(s: string)
    ensures |LeftStrip(s)| <= |s|
    ensures LeftStrip(s) == [] || !Space(LeftStrip(s)[0])
    ensures LeftStrip(s) != s ==> |LeftStrip(s)| < |s|
    ensures LeftStrip(s) == s[|s| - |LeftStrip(s)|..]
  {
    if s != [] && Space(s[0]) {
      LeftStripIs(s[1..]);
    }
  }

  lemma {:induction false} RightStripIs(s: string)
    ensures |RightStrip(s)| <= |s|
    ensures RightStrip(s) == [] || !Space(RightStrip(s)[|RightStrip(s)| - 1])
    ensures RightStrip(s) == s[..|RightStrip(s)|]
    ensures RightStrip(s) != s ==> |RightStrip(s)| < |s|
  {
    if s != [] && Space(s[|s| - 1]) {
      RightStripIs(s[..|s| - 1]);
    }
  }

  lemma StripIs(s: string)
    ensures |Strip(s)| <= |s| && Stripped(Strip(s))
    ensures Strip(s) == s <==> Stripped(s)
    ensures Strip(s) != s ==> |Strip(s)| < |s|
  {
    LeftStripIs(s);
    RightStripIs(LeftStrip(s));
  }

  lemma {:induction false} LeftStripConcat(s: string, t: string)
    ensures LeftStrip(s + t) == if LeftStrip(s) == [] then LeftStrip(t) else LeftStrip(s) + t
  {
    if s == [] {
      assert s + t == t;
    } else if Space(s[0]) {
      assert (s + t)[1..] == s[1..] + t;
      LeftStripConcat(s[1..], t);
    }
  }

  lemma StripSpace(s: string)
    ensures Strip(s + " ") == Strip(s)
  {
    LeftStripConcat(s, " ");
    assert LeftStrip(" ") == LeftStrip("") by { assert " "[1..] == ""; }
    var l := LeftStrip(s);
    if l != [] {
      assert (l + " ")[..|l|] == l;
    }
  }

  /** Stripping both halves of a string keeps it exactly when both were stripped already. */
  lemma StripHalves(a: string, b: string)
    ensures Strip(a) + Strip(b) == a + b <==> Stripped(a) && Stripped(b)
  {
    StripIs(a);
    StripIs(b);
    if Strip(a) + Strip(b) == a + b {
      assert |Strip(a)| + |Strip(b)| == |a| + |b|;
    }
  }

  // ----- finding the name

  /** The end of the last identifier before `end`, but not before `min`. */
  function LastEnd(p: string, min: int, end: int): int
    requires end <= |p| && 0 <= min
    decreases end - min
  {
    if end > min && !IdChar(p[end - 1]) then LastEnd(p, min, end - 1) else end
  }

  function RunStart(p: string, min: int, start: int): int
    requires start <= |p| && 0 <= min
    decreases start - min
  {
    if start > min && IdChar(p[start - 1]) then RunStart(p, min, start - 1) else start
  }

  function SearchRange(p: string): Option<(int, int)> {
    if Find(p, '(') < 0 then Some((0, |p|))
    else if Find(p, ')') < 0 then None
    else Some((Find(p, '(') + 1, Find(p, ')')))
  }

  /** The range of the name, or None where the search fails. */
  function NameRange(p: string): Option<(int, int)> {
    FindIs(p, '(');
    FindIs(p, ')');
    match SearchRange(p)
    case None => None
    case Some((min, end)) =>
      var e := LastEnd(p, min, end);
      LastEndBounds(p, min, end);
      if e == min then None else Some((RunStart(p, min, e - 1), e))
  }

  lemma {:induction false} LastEndBounds(p: string, min: int, end: int)
    requires end <= |p| && 0 <= min
    ensures LastEnd(p, min, end) <= end
    ensures min <= end ==> min <= LastEnd(p, min, end)
    ensures LastEnd(p, min, end) > min ==> LastEnd(p, min, end) > 0 && IdChar(p[LastEnd(p, min, end) - 1])
    decreases end - min
  {
    if end > min && !IdChar(p[end - 1]) {
      LastEndBounds(p, min, end - 1);
    }
  }

  method FindNameRange(p: string) returns (r: Option<(int, int)>)
    ensures r == NameRange(p)
  {
    FindIs(p, '(');
    FindIs(p, ')');
    var left, min, end := Find(p, '('), 0, |p|;
    if left >= 0 {
      if Find(p, ')') < 0 {
        return None;
      }
      min, end := left + 1, Find(p, ')');
    }
    ghost var range := SearchRange(p).value;
    while end > min && !IdChar(p[end - 1])
      invariant end <= |p| && LastEnd(p, min, end) == LastEnd(p, range.0, range.1)
    {
      end := end - 1;
    }
    if end == min {
      return None;
    }
    var start := end - 1;
    while start > min && IdChar(p[start - 1])
      invariant start <= |p| && RunStart(p, min, start) == RunStart(p, min, end - 1)
    {
      start := start - 1;
    }
    r := Some((start, end));
  }

  function JustTheType(p: string): Option<string> {
    match NameRange(p)
    case None => None
    case Some((start, end)) => Some(Strip(Slice(p, 0, start)) + Strip(Slice(p, end, |p|)))
  }

  function JustTheName(p: string): Option<string> {
    match NameRange(p)
    case None => None
    case Some((start, end)) => Some(Slice(p, start, end))
  }

  function InsertName(t: string, name: string, pos: nat): string
    requires pos <= |t|
  {
    t[..pos] + " " + name + t[pos..]
  }

  function MakeParam(t: string, name: string): Option<string> {
    FindIs(t, ')');
    FindIs(t, '[');
    if Find(t, '(') >= 0 then
      if Find(t, ')') < 0 then None else Some(InsertName(t, name, Find(t, ')')))
    else if Find(t, '[') >= 0 then Some(InsertName(t, name, Find(t, '[')))
    else Some(t + " " + name)
  }

  // ----- where the name is found

  lemma {:induction false} LastEndAt(p: string, min: int, end: int, e: int)
    requires 0 <= min < e <= end <= |p| && IdChar(p[e - 1])
    requires forall k :: e <= k < end ==> !IdChar(p[k])
    ensures LastEnd(p, min, end) == e
    decreases end
  {
    if e < end {
      LastEndAt(p, min, end - 1, e);
    }
  }

  lemma {:induction false} RunStartAt(p: string, min: int, start: int, s: int)
    requires 0 <= min <= s <= start <= |p|
    requires forall k :: s <= k < start ==> IdChar(p[k])
    requires s > min ==> !IdChar(p[s - 1])
    ensures RunStart(p, min, start) == s
    decreases start
  {
    if s < start {
      RunStartAt(p, min, start - 1, s);
    }
  }

  /** The parameter that has `name` between `a` and `b`. */
  function Joined(a: string, name: string, b: string): string {
    a + " " + name + b
  }

  lemma JoinedName(a: string, name: string, b: string, k: nat)
    requires k < |name|
    ensures Joined(a, name, b)[|a| + 1 + k] == name[k]
  {
  }

  lemma JoinedBehind(a: string, name: string, b: string, k: nat)
    requires k < |b|
    ensures Joined(a, name, b)[|a| + 1 + |name| + k] == b[k]
  {
  }

  /** The search finds an identifier behind a space when no other follows it in the range. */
  lemma RangeIs(p: string, min: int, end: int, s: nat, e: nat)
    requires SearchRange(p) == Some((min, end)) && 0 <= min < s < e <= end <= |p|
    requires !IdChar(p[s - 1]) && forall k :: s <= k < e ==> IdChar(p[k])
    requires forall k :: e <= k < end ==> !IdChar(p[k])
    ensures NameRange(p) == Some((s, e))
  {
    LastEndAt(p, min, end, e);
    RunStartAt(p, min, e - 1, s);
  }

  /** The search range is such that the last identifier in it is the name. */
  lemma RangeFound(a: string, name: string, b: string, min: int, end: int)
    requires Identifier(name)
    requires var p := Joined(a, name, b);
             SearchRange(p) == Some((min, end)) && 0 <= min <= |a| && |a| + 1 + |name| <= end <= |p|
    requires forall k :: 0 <= k < end - |a| - 1 - |name| ==> !IdChar(b[k])
    ensures NameRange(Joined(a, name, b)) == Some((|a| + 1, |a| + 1 + |name|))
  {
    var p, s, e := Joined(a, name, b), |a| + 1, |a| + 1 + |name|;
    forall k | s <= k < e ensures IdChar(p[k]) {
      JoinedName(a, name, b, k - s);
    }
    forall k | e <= k < end ensures !IdChar(p[k]) {
      JoinedBehind(a, name, b, k - e);
    }
    RangeIs(p, min, end, s, e);
  }

  lemma SplitJoined(a: string, name: string, b: string)
    requires NameRange(Joined(a, name, b)) == Some((|a| + 1, |a| + 1 + |name|))
    ensures JustTheName(Joined(a, name, b)) == Some(name)
    ensures JustTheType(Joined(a, name, b)) == Some(Strip(a) + Strip(b))
  {
    var p := Joined(a, name, b);
    assert Slice(p, |a| + 1, |a| + 1 + |name|) == name;
    assert Slice(p, 0, |a| + 1) == a + " ";
    assert Slice(p, |a| + 1 + |name|, |p|) == b;
    StripSpace(a);
  }

  lemma NamePlain(name: string, c: char)
    requires Identifier(name) && !IdChar(c)
    ensures c !in name
  {
  }

  /** A character that is first met behind the name. */
  lemma FindBehind(a: string, name: string, b: string, c: char)
    requires Identifier(name) && !IdChar(c) && c != ' ' && c !in a && c in b
    ensures Find(Joined(a, name, b), c) == |a| + 1 + |name| + Find(b, c)
  {
    FindIs(b, c);
    NamePlain(name, c);
    var i, front := Find(b, c), a + " " + name;
    FindAt(front + b[..i], c, b[i + 1..]);
    assert Joined(a, name, b) == front + b[..i] + [c] + b[i + 1..];
  }

  lemma NotBefore(s: string, c: char, n: nat)
    requires n <= Find(s, c)
    ensures n <= |s| && c !in s[..n]
  {
    FindIs(s, c);
    assert s[..n] <= s[..Find(s, c)];
  }

  /** A type without parentheses: the name goes to the end, or in front of the first bracket. */
  lemma PlainJoin(a: string, name: string, b: string)
    requires Identifier(name) && '(' !in a && '(' !in b && !HasIdChar(b)
    ensures JustTheName(Joined(a, name, b)) == Some(name)
    ensures JustTheType(Joined(a, name, b)) == Some(Strip(a) + Strip(b))
  {
    var p := Joined(a, name, b);
    NamePlain(name, '(');
    assert '(' !in p;
    FindIs(p, '(');
    RangeFound(a, name, b, 0, |p|);
    SplitJoined(a, name, b);
  }

  /** A function type: the name goes in front of the first closing parenthesis. */
  lemma FunctionJoin(a: string, name: string, b: string)
    requires Identifier(name) && '(' in a && ')' !in a && b != [] && b[0] == ')'
    ensures JustTheName(Joined(a, name, b)) == Some(name)
    ensures JustTheType(Joined(a, name, b)) == Some(Strip(a) + Strip(b))
  {
    var p, left := Joined(a, name, b), Find(a, '(');
    FindIs(a, '(');
    assert p == a[..left] + ['('] + (a[left + 1..] + " " + name + b);
    FindAt(a[..left], '(', a[left + 1..] + " " + name + b);
    FindBehind(a, name, b, ')');
    RangeFound(a, name, b, left + 1, |a| + 1 + |name|);
    SplitJoined(a, name, b);
  }

  // ----- where the name is lost

  lemma {:induction false} LastEndBeyond(p: string, min: int, end: int, k: int)
    requires 0 <= min <= k < end <= |p| && IdChar(p[k])
    ensures LastEnd(p, min, end) > k
    decreases end
  {
    if !IdChar(p[end - 1]) {
      LastEndBeyond(p, min, end - 1, k);
    }
  }

  lemma {:induction false} RunStartBeyond(p: string, min: int, start: int, k: int)
    requires 0 <= min <= k < start <= |p| && !IdChar(p[k])
    ensures k < RunStart(p, min, start) <= start
    decreases start
  {
    if IdChar(p[start - 1]) && k < start - 1 {
      RunStartBeyond(p, min, start - 1, k);
    }
  }

  lemma {:induction false} RightStripReaches(s: string, k: nat)
    requires k < |s| && !Space(s[k])
    ensures |RightStrip(s)| > k
  {
    if Space(s[|s| - 1]) {
      RightStripReaches(s[..|s| - 1], k);
    }
  }

  lemma {:induction false} LeftStripNonEmpty(s: string, k: nat)
    requires k < |s| && !Space(s[k])
    ensures LeftStrip(s) != []
  {
    if Space(s[0]) {
      LeftStripNonEmpty(s[1..], k - 1);
    }
  }

  /** Stripping a string that goes on with a bracket removes only what leads it. */
  lemma StripBeforeBracket(x: string, y: string)
    requires LeftStrip(x) != [] && y != [] && y[0] == '['
    ensures LeftStrip(x) + ['['] <= Strip(x + y)
  {
    var l := LeftStrip(x);
    LeftStripConcat(x, y);
    assert (l + y)[|l|] == '[';
    RightStripReaches(l + y, |l|);
    RightStripIs(l + y);
  }

  lemma FirstBracket(l: string, s: string)
    requires '[' !in l && l + ['['] <= s
    ensures Find(s, '[') == |l|
  {
    assert s == l + ['['] + s[|l| + 1..];
    FindAt(l, '[', s[|l| + 1..]);
  }

  /** What is left of a prefix that ends behind a bracket cannot start like the type. */
  lemma BracketBehind(a: string, name: string, y: string, rest: string, b: string)
    requires Identifier(name) && '[' !in a && y != [] && y[0] == '[' && b != [] && b[0] == '['
    ensures Strip(a + " " + name + y) + rest != a + b
  {
    var x := a + " " + name;
    var l := LeftStrip(x);
    assert x[|a| + 1] == name[0] && !Space(name[0]);
    LeftStripNonEmpty(x, |a| + 1);
    LeftStripIs(x);
    NamePlain(name, '[');
    assert '[' !in x && '[' !in l;
    StripBeforeBracket(x, y);
    FirstBracket(l, Strip(x + y) + rest);
    FirstBracket(a, a + b);
    assert (Strip(x + y) + rest)[0] == l[0];
    if a != [] {
      assert (a + b)[0] == a[0] && x[0] == a[0];
    }
  }

  /** An identifier behind the bracket is taken for the name. */
  lemma BracketRange(a: string, name: string, b: string) returns (start: int, end: int)
    requires Identifier(name) && '(' !in a && '(' !in b && b != [] && b[0] == '[' && HasIdChar(b)
    ensures NameRange(Joined(a, name, b)) == Some((start, end))
    ensures |a| + 1 + |name| < start <= end <= |Joined(a, name, b)|
  {
    var p := Joined(a, name, b);
    var m := |a| + 1 + |name|;
    NamePlain(name, '(');
    assert '(' !in p;
    FindIs(p, '(');
    var k :| 0 <= k < |b| && IdChar(b[k]);
    assert p[m] == '[' && p[m + k] == b[k] && k > 0;
    LastEndBeyond(p, 0, |p|, m + k);
    LastEndBounds(p, 0, |p|);
    end := LastEnd(p, 0, |p|);
    RunStartBeyond(p, 0, end - 1, m);
    start := RunStart(p, 0, end - 1);
  }

  lemma BracketJoin(a: string, name: string, b: string)
    requires Identifier(name) && '(' !in a && '(' !in b && '[' !in a && b != [] && b[0] == '[' && HasIdChar(b)
    ensures JustTheType(Joined(a, name, b)) != Some(a + b)
  {
    var p, m := Joined(a, name, b), |a| + 1 + |name|;
    var start, end := BracketRange(a, name, b);
    assert Slice(p, 0, start) == a + " " + name + b[..start - m];
    BracketBehind(a, name, b[..start - m], Strip(Slice(p, end, |p|)), b);
  }

  /** With the parentheses the wrong way round, only the last character counts as the name. */
  lemma ReversedJoin(a: string, name: string, b: string)
    requires Identifier(name) && '(' !in a && ')' !in a && b != [] && b[0] == ')' && '(' in b
    ensures NameRange(Joined(a, name, b)) == Some((|a| + |name|, |a| + |name| + 1))
    ensures JustTheName(Joined(a, name, b)) == Some(name) <==> |name| == 1
  {
    var p := Joined(a, name, b);
    FindBehind(a, name, b, ')');
    FindBehind(a, name, b, '(');
    FindIs(b, '(');
    assert Slice(p, |a| + |name|, |a| + |name| + 1) == name[|name| - 1..];
  }

  // ----- the exact condition

  /** The type can be told apart from a name that is joined to it. */
  predicate Recoverable(t: string, name: string) {
    FindIs(t, ')');
    FindIs(t, '[');
    if '(' in t then
      && ')' in t
      && (Find(t, '(') < Find(t, ')') || |name| == 1)
      && Stripped(t[..Find(t, ')')]) && Stripped(t[Find(t, ')')..])
    else if '[' in t then
      && !HasIdChar(t[Find(t, '[')..])
      && Stripped(t[..Find(t, '[')]) && Stripped(t[Find(t, '[')..])
    else
      Stripped(t)
  }

  predicate Recovered(t: string, name: string) {
    var p := MakeParam(t, name);
    p.Some? && JustTheName(p.value) == Some(name) && JustTheType(p.value) == Some(t)
  }

  /** A parameter whose name is found gives the type back when both halves of it were stripped. */
  lemma HalvesRecovered(t: string, name: string, a: string, b: string)
    requires t == a + b && MakeParam(t, name) == Some(Joined(a, name, b))
    requires JustTheName(Joined(a, name, b)) == Some(name)
    requires JustTheType(Joined(a, name, b)) == Some(Strip(a) + Strip(b))
    ensures Recovered(t, name) <==> Stripped(a) && Stripped(b)
  {
    StripHalves(a, b);
  }

  lemma FunctionMade(t: string, name: string, right: nat)
    requires '(' in t && right < |t| && Find(t, ')') == right
    ensures MakeParam(t, name) == Some(Joined(t[..right], name, t[right..]))
  {
    FindIs(t, '(');
  }

  lemma OrderedRecovered(t: string, name: string, left: nat, right: nat)
    requires Identifier(name) && left < right < |t| && Find(t, '(') == left && Find(t, ')') == right
    ensures Recovered(t, name) <==> Stripped(t[..right]) && Stripped(t[right..])
  {
    var a, b := t[..right], t[right..];
    FindIs(t, '(');
    FindIs(t, ')');
    FunctionMade(t, name, right);
    assert a[left] == '(' && t == a + b;
    FunctionJoin(a, name, b);
    HalvesRecovered(t, name, a, b);
  }

  lemma ReversedRecovered(t: string, name: string, left: nat, right: nat)
    requires Identifier(name) && right < left < |t| && Find(t, '(') == left && Find(t, ')') == right
    ensures Recovered(t, name) <==> |name| == 1 && Stripped(t[..right]) && Stripped(t[right..])
  {
    var a, b := t[..right], t[right..];
    FindIs(t, '(');
    FindIs(t, ')');
    FunctionMade(t, name, right);
    assert b[left - right] == '(' && t == a + b;
    NotBefore(t, '(', right);
    ReversedJoin(a, name, b);
    if |name| == 1 {
      SplitJoined(a, name, b);
      HalvesRecovered(t, name, a, b);
    }
  }

  lemma FunctionRecovered(t: string, name: string)
    requires Identifier(name) && '(' in t
    ensures Recovered(t, name) <==> Recoverable(t, name)
  {
    FindIs(t, '(');
    FindIs(t, ')');
    var left, right := Find(t, '('), Find(t, ')');
    if ')' in t {
      if left < right {
        OrderedRecovered(t, name, left, right);
      } else {
        assert t[left] != t[right];
        ReversedRecovered(t, name, left, right);
      }
    }
  }

  lemma BracketRecovered(t: string, name: string)
    requires Identifier(name) && '(' !in t && '[' in t
    ensures Recovered(t, name) <==> Recoverable(t, name)
  {
    FindIs(t, '(');
    FindIs(t, '[');
    var pos := Find(t, '[');
    var a, b := t[..pos], t[pos..];
    assert MakeParam(t, name) == Some(Joined(a, name, b)) && t == a + b;
    if HasIdChar(b) {
      BracketJoin(a, name, b);
    } else {
      PlainJoin(a, name, b);
      HalvesRecovered(t, name, a, b);
    }
  }

  /** Joining a type and a name and splitting the result gives both back exactly for these types. */
  lemma JoinSplit(t: string, name: string)
    requires Identifier(name)
    ensures Recovered(t, name) <==> Recoverable(t, name)
  {
    if '(' in t {
      FunctionRecovered(t, name);
    } else if '[' in t {
      BracketRecovered(t, name);
    } else {
      FindIs(t, '(');
      FindIs(t, '[');
      assert MakeParam(t, name) == Some(Joined(t, name, "")) by { assert Joined(t, name, "") == t + " " + name; }
      PlainJoin(t, name, "");
      StripHalves(t, "");
      assert t + "" == t;
    }
  }

  /** An array type with its size is not given back: the size is taken for the name. */
  lemma SizedArrayLost(name: string)
    requires Identifier(name)
    ensures !Recovered("GLint[4]", name)
  {
    var t := "GLint[4]";
    assert t == "GLint" + ['['] + "4]";
    FindAt("GLint", '[', "4]");
    assert t[5..][1] == '4';
    assert '(' !in t && '[' in t by { assert t[5] == '['; }
    assert HasIdChar(t[5..]);
    JoinSplit(t, name);
  }
}
