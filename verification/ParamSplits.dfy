/**
  Splitting any parameter, joining what was split and splitting again: exactly when that gives the
  same type and the same name.
 */
module ParamSplits {
  import opened Prelude
  import opened Whitespace
  import opened ParamNames

  // ----- what stripping keeps

  predicate Blank(s: string) {
    forall i :: 0 <= i < |s| ==> Space(s[i])
  }

  /** What is left is the stretch from `i` to `j`; around it there is only white space. */
  predicate Kept(s: string, i: nat, j: nat) {
    && i <= j <= |s| && Strip(s) == s[i..j] && Blank(s[..i]) && Blank(s[j..])
    && (i < j ==> !Space(s[i]) && !Space(s[j - 1]))
  }

  lemma BlankCons(c: char, s: string)
    requires Space(c) && Blank(s)
    ensures Blank([c] + s) && Blank(s + [c])
  {
  }

  lemma {:induction false} LeftBlank(s: string)
    ensures |LeftStrip(s)| <= |s| && Blank(s[..|s| - |LeftStrip(s)|])
  {
    LeftStripIs(s);
    if s != [] && Space(s[0]) {
      var t := s[1..];
      LeftBlank(t);
      var n := |t| - |LeftStrip(t)|;
      BlankCons(s[0], t[..n]);
      assert s[..n + 1] == [s[0]] + t[..n];
    }
  }

  lemma {:induction false} RightBlank(s: string)
    ensures |RightStrip(s)| <= |s| && Blank(s[|RightStrip(s)|..])
  {
    RightStripIs(s);
    if s != [] && Space(s[|s| - 1]) {
      var t := s[..|s| - 1];
      RightBlank(t);
      var n := |RightStrip(t)|;
      BlankCons(s[|s| - 1], t[n..]);
      assert s[n..] == t[n..] + [s[|s| - 1]];
    }
  }

  lemma StripKeeps(s: string) returns (i: nat, j: nat)
    ensures Kept(s, i, j)
  {
    var l := LeftStrip(s);
    LeftStripIs(s);
    LeftBlank(s);
    RightStripIs(l);
    RightBlank(l);
    i := |s| - |l|;
    j := i + |RightStrip(l)|;
    assert s[j..] == l[|RightStrip(l)|..];
    assert s[i..j] == l[..|RightStrip(l)|];
  }

  lemma KeptHolds(s: string, i: nat, j: nat, k: nat)
    requires Kept(s, i, j) && k < |s| && !Space(s[k])
    ensures i <= k < j
  {
    assert forall m :: 0 <= m < i ==> s[..i][m] == s[m] && Space(s[m]);
    assert forall m :: 0 <= m < |s| - j ==> s[j..][m] == s[j + m] && Space(s[j + m]);
    assert k >= j ==> k == j + (k - j);
  }

  lemma {:induction false} StrippedJoin(a: string, b: string)
    ensures Stripped(Strip(a) + Strip(b))
  {
    StripIs(a);
    StripIs(b);
    var t := Strip(a) + Strip(b);
    if t != [] {
      assert t[0] == if Strip(a) != [] then Strip(a)[0] else Strip(b)[0];
      assert t[|t| - 1] == if Strip(b) != [] then Strip(b)[|Strip(b)| - 1] else Strip(a)[|Strip(a)| - 1];
    }
  }

  /** The stretch before a character of the kept part is stripped exactly when it is empty or ends in no space. */
  lemma FrontStripped(front: string, s: string, i: nat, j: nat, k: nat)
    requires Kept(s, i, j) && i <= k < j && Stripped(front)
    ensures Stripped(front + s[i..k]) <==> Blank(s[..k]) || !Space(s[k - 1])
  {
    var t := front + s[i..k];
    if i == k {
      assert t == front && s[..k] == s[..i];
    } else {
      assert t[|t| - 1] == s[k - 1];
      assert s[..k][i] == s[i];
      assert t[0] == if front != [] then front[0] else s[i];
    }
  }

  // ----- the three kinds of parameters

  /** The first bracket of a type that was split around it. */
  lemma CutFirst(t: string, c: char, front: string, back: string)
    requires t == front + [c] + back && c !in front
    ensures Find(t, c) == |front| && c in t && t[..|front|] == front && t[|front|..] == [c] + back
  {
    FindAt(front, c, back);
    assert t[|front|] == c;
  }

  /** The name of a parameter that is found is an identifier, and what follows it in the search range is none. */
  predicate NameIn(p: string, min: int, end: int, s: int, e: int) {
    && 0 <= min <= s < e <= end <= |p| && Identifier(p[s..e])
    && (forall k :: e <= k < end ==> !IdChar(p[k]))
  }

  lemma {:induction false} LastEndIs(p: string, min: int, end: int)
    requires 0 <= min <= end <= |p|
    ensures var e := LastEnd(p, min, end);
            min <= e <= end && (e > min ==> IdChar(p[e - 1])) && forall k :: e <= k < end ==> !IdChar(p[k])
    decreases end
  {
    if end > min && !IdChar(p[end - 1]) {
      LastEndIs(p, min, end - 1);
    }
  }

  lemma {:induction false} RunStartIs(p: string, min: int, start: int)
    requires 0 <= min <= start <= |p|
    ensures var s := RunStart(p, min, start); min <= s <= start && forall k :: s <= k < start ==> IdChar(p[k])
    decreases start
  {
    if start > min && IdChar(p[start - 1]) {
      RunStartIs(p, min, start - 1);
    }
  }

  lemma NameFound(p: string, min: int, end: int, s: int, e: int)
    requires SearchRange(p) == Some((min, end)) && 0 <= min <= end <= |p| && NameRange(p) == Some((s, e))
    ensures NameIn(p, min, end, s, e)
  {
    LastEndIs(p, min, end);
    RunStartIs(p, min, e - 1);
  }

  /** Joining the split parameter is stable. */
  predicate Stable(p: string) {
    var t, n := JustTheType(p), JustTheName(p);
    t.Some? && n.Some? && Recovered(t.value, n.value)
  }

  /** The condition, on the parameter itself. */
  predicate Settled(p: string)
    requires NameRange(p).Some?
  {
    var (s, e) := NameRange(p).value;
    var left, right, bracket := Find(p, '('), Find(p, ')'), Find(p, '[');
    if left < 0 then
      if bracket < 0 then true
      else if bracket < s then !HasIdChar(Slice(p, bracket, s)) && BreaksClean(p, 0, bracket)
      else BreaksClean(p, e, bracket)
    else if left < right then BreaksClean(p, e, right)
    else right > 0
  }

  /** Between `from` and `to` there is only white space, or none in front of `to`. */
  predicate BreaksClean(p: string, from: int, to: int) {
    Blank(Slice(p, from, to)) || (0 < to <= |p| && !Space(p[to - 1]))
  }

  // ----- without parentheses

  lemma PlainSplits(p: string, s: int, e: int)
    requires '(' !in p && NameRange(p) == Some((s, e))
    ensures NameIn(p, 0, |p|, s, e)
    ensures JustTheName(p) == Some(p[s..e]) && JustTheType(p) == Some(Strip(p[..s]) + Strip(p[e..]))
  {
    FindIs(p, '(');
    NameFound(p, 0, |p|, s, e);
    Sliced(p, s, e);
  }

  lemma StripWithout(s: string, c: char)
    requires c !in s
    ensures c !in Strip(s)
  {
    var i, j := StripKeeps(s);
  }

  lemma NoBracketStable(p: string, s: int, e: int)
    requires '(' !in p && '[' !in p && NameRange(p) == Some((s, e))
    ensures Stable(p)
  {
    PlainSplits(p, s, e);
    var a, b := p[..s], p[e..];
    StripWithout(a, '(');
    StripWithout(b, '(');
    StripWithout(a, '[');
    StripWithout(b, '[');
    var t := Strip(a) + Strip(b);
    StrippedJoin(a, b);
    JoinSplit(t, p[s..e]);
    assert '(' !in t && '[' !in t;
  }

  lemma StripNoId(s: string)
    requires !HasIdChar(s)
    ensures !HasIdChar(Strip(s))
  {
    var i, j := StripKeeps(s);
    forall k | 0 <= k < |Strip(s)|
      ensures !IdChar(Strip(s)[k])
    {
      assert Strip(s)[k] == s[i + k];
    }
  }

  /** The identifiers of a stretch and of what stripping leaves behind it. */
  lemma IdAfterCut(a: string, i: nat, j: nat, k: nat, rest: string)
    requires Kept(a, i, j) && i <= k < j && !HasIdChar(rest)
    ensures HasIdChar(a[k..j] + rest) <==> HasIdChar(a[k..])
  {
    var t := a[k..j] + rest;
    if HasIdChar(t) {
      var m :| 0 <= m < |t| && IdChar(t[m]);
      assert forall q :: 0 <= q < |rest| ==> t[j - k + q] == rest[q];
      assert m >= j - k ==> m == j - k + (m - (j - k));
      assert a[k..][m] == t[m];
    }
    if HasIdChar(a[k..]) {
      var m :| 0 <= m < |a[k..]| && IdChar(a[k..][m]);
      KeptHolds(a, i, j, k + m);
      assert t[m] == a[k..][m];
    }
  }

  /** A bracket in front of the name: the type breaks there. */
  lemma BreakBefore(a: string, b: string, c: char, k: nat) returns (t: string, pos: nat)
    requires k < |a| && a[k] == c && !Space(c) && c !in a[..k] && !HasIdChar(b)
    ensures t == Strip(a) + Strip(b) && c in t && pos == Find(t, c) && pos < |t|
    ensures Stripped(t[pos..]) && (HasIdChar(t[pos..]) <==> HasIdChar(a[k..]))
    ensures Stripped(t[..pos]) <==> Blank(a[..k]) || !Space(a[k - 1])
  {
    t := Strip(a) + Strip(b);
    var i, j := StripKeeps(a);
    KeptHolds(a, i, j, k);
    var front, back := a[i..k], a[k + 1..j] + Strip(b);
    assert t == front + [c] + back;
    assert c !in front by { assert front == a[..k][i..]; }
    CutFirst(t, c, front, back);
    pos := |front|;
    assert t[pos..] == a[k..j] + Strip(b);
    StripNoId(b);
    IdAfterCut(a, i, j, k, Strip(b));
    FrontStripped("", a, i, j, k);
    assert "" + front == front;
    BackStripped(a, i, j, k, b);
  }

  lemma BracketBefore(p: string, s: int, e: int)
    requires '(' !in p && NameRange(p) == Some((s, e)) && 0 <= Find(p, '[') < s
    ensures Stable(p) <==> Settled(p)
  {
    PlainSplits(p, s, e);
    FindIs(p, '[');
    FindIs(p, '(');
    var bracket, a, b := Find(p, '['), p[..s], p[e..];
    assert a[..bracket] == p[..bracket];
    StripWithout(a, '(');
    StripWithout(b, '(');
    BehindHasNoId(p, s, e);
    var t, pos := BreakBefore(a, b, '[', bracket);
    JoinSplit(t, p[s..e]);
    assert Slice(p, bracket, s) == a[bracket..] && Slice(p, 0, bracket) == a[..bracket];
    assert bracket > 0 ==> a[bracket - 1] == p[bracket - 1];
  }

  lemma BehindHasNoId(p: string, s: int, e: int)
    requires NameIn(p, 0, |p|, s, e)
    ensures !HasIdChar(p[e..])
  {
    forall k | 0 <= k < |p[e..]|
      ensures !IdChar(p[e..][k])
    {
      assert p[e..][k] == p[e + k];
    }
  }

  /** What follows a bracket of a stripped stretch ends in no space. */
  lemma BackStripped(a: string, i: nat, j: nat, k: nat, b: string)
    requires Kept(a, i, j) && i <= k < j && !Space(a[k])
    ensures Stripped(a[k..j] + Strip(b))
  {
    StripIs(b);
    var t := a[k..j] + Strip(b);
    assert t[0] == a[k];
    assert t[|t| - 1] == if Strip(b) != [] then Strip(b)[|Strip(b)| - 1] else a[j - 1];
  }

  /** Cutting a type in front of a character behind the name. */
  lemma CutBehind(a: string, b: string, c: char, i: nat, j: nat, k: nat)
    requires Kept(b, i, j) && i <= k < j && b[k] == c && c !in b[..k] && c !in a
    ensures var t, front := Strip(a) + Strip(b), Strip(a) + b[i..k];
            && c in t && Find(t, c) == |front| < |t| && t[..|front|] == front && t[|front|..] == b[k..j]
  {
    var t, front, back := Strip(a) + Strip(b), Strip(a) + b[i..k], b[k + 1..j];
    assert t == front + [c] + back;
    StripWithout(a, c);
    assert b[i..k] == b[..k][i..];
    CutFirst(t, c, front, back);
    assert [c] + back == b[k..j];
  }

  /** A bracket or a parenthesis behind the name: the type breaks in front of it. */
  lemma BreakBehind(a: string, b: string, c: char, k: nat) returns (t: string, pos: nat)
    requires k < |b| && b[k] == c && !Space(c) && c !in b[..k] && c !in a
    ensures t == Strip(a) + Strip(b) && c in t && pos == Find(t, c) && |Strip(a)| <= pos < |t|
    ensures Stripped(t[pos..])
    ensures Stripped(t[..pos]) <==> Blank(b[..k]) || !Space(b[k - 1])
  {
    t := Strip(a) + Strip(b);
    var i, j := StripKeeps(b);
    KeptHolds(b, i, j, k);
    CutBehind(a, b, c, i, j, k);
    pos := |Strip(a)| + (k - i);
    StripIs(a);
    FrontStripped(Strip(a), b, i, j, k);
    BackStripped(b, i, j, k, "");
    assert b[k..j] + "" == b[k..j];
  }

  lemma TailHasNoId(a: string, b: string, pos: nat)
    requires |a| <= pos <= |a + b| && !HasIdChar(b)
    ensures !HasIdChar((a + b)[pos..])
  {
    var tail := (a + b)[pos..];
    forall k | 0 <= k < |tail|
      ensures !IdChar(tail[k])
    {
      assert tail[k] == b[pos - |a| + k];
    }
  }

  lemma NameHasNo(p: string, s: int, e: int, k: int)
    requires 0 <= s < e <= |p| && Identifier(p[s..e]) && s <= k < |p| && !IdChar(p[k])
    ensures k >= e
  {
    assert forall m :: 0 <= m < e - s ==> p[s..e][m] == p[s + m] && IdChar(p[s + m]);
    assert k < e ==> k == s + (k - s);
  }

  lemma BracketType(p: string, s: int, e: int, bracket: int) returns (t: string, pos: nat)
    requires '(' !in p && NameIn(p, 0, |p|, s, e) && bracket == Find(p, '[') && s <= bracket
    ensures e <= bracket < |p| && t == Strip(p[..s]) + Strip(p[e..]) && '(' !in t && '[' in t
    ensures pos == Find(t, '[') && pos < |t| && !HasIdChar(t[pos..]) && Stripped(t[pos..])
    ensures Stripped(t[..pos]) <==> Blank(p[e..][..bracket - e]) || !Space(p[e..][bracket - e - 1])
  {
    var a, b := p[..s], p[e..];
    FindIs(p, '[');
    NameHasNo(p, s, e, bracket);
    FirstOf(p, '[', bracket, s, e);
    StripWithout(a, '(');
    StripWithout(b, '(');
    t, pos := BreakBehind(a, b, '[', bracket - e);
    BehindHasNoId(p, s, e);
    StripNoId(b);
    TailHasNoId(Strip(a), Strip(b), pos);
  }

  lemma BracketBehindName(p: string, s: int, e: int)
    requires '(' !in p && NameRange(p) == Some((s, e)) && Find(p, '[') >= s
    ensures Stable(p) <==> Settled(p)
  {
    PlainSplits(p, s, e);
    FindIs(p, '(');
    var bracket := Find(p, '[');
    var t, pos := BracketType(p, s, e, bracket);
    JoinSplit(t, p[s..e]);
    BreaksCleanIs(p, e, bracket);
  }

  // ----- with parentheses

  /** What the search says of the first character of its kind. */
  lemma FirstOf(p: string, c: char, k: int, s: int, e: int)
    requires k == Find(p, c) && 0 <= s <= e <= k < |p|
    ensures c !in p[..s] && p[e..][k - e] == c && c !in p[e..][..k - e]
  {
    FindIs(p, c);
    assert p[..s] == p[..k][..s] && p[e..][..k - e] == p[..k][e..];
  }

  lemma Sliced(p: string, s: int, e: int)
    requires 0 <= s <= e <= |p|
    ensures Slice(p, 0, s) == p[..s] && Slice(p, e, |p|) == p[e..] && Slice(p, s, e) == p[s..e]
  {
  }

  /** A name between the first parentheses. */
  lemma FunctionName(p: string, s: int, e: int, left: int, right: int)
    requires left == Find(p, '(') && right == Find(p, ')') && 0 <= left < right && NameRange(p) == Some((s, e))
    ensures NameIn(p, left + 1, right, s, e) && right < |p| && p[left] == '(' && p[right] == ')'
    ensures JustTheName(p) == Some(p[s..e]) && JustTheType(p) == Some(Strip(p[..s]) + Strip(p[e..]))
  {
    FindIs(p, '(');
    FindIs(p, ')');
    NameFound(p, left + 1, right, s, e);
    Sliced(p, s, e);
  }

  lemma FunctionType(p: string, s: int, e: int, left: int, right: int) returns (t: string, pos: nat)
    requires left == Find(p, '(') && right == Find(p, ')') && 0 <= left < s <= e <= right < |p|
    requires p[left] == '(' && p[right] == ')'
    ensures t == Strip(p[..s]) + Strip(p[e..]) && '(' in t && ')' in t && pos == Find(t, ')') && Find(t, '(') < pos < |t|
    ensures Stripped(t[pos..])
    ensures Stripped(t[..pos]) <==> Blank(p[e..][..right - e]) || !Space(p[e..][right - e - 1])
  {
    var a, b := p[..s], p[e..];
    FirstOf(p, ')', right, s, e);
    t, pos := BreakBehind(a, b, ')', right - e);
    assert a[left] == '(';
    KeepsParenthesis(a, left, t, pos);
  }

  lemma FunctionStable(p: string, s: int, e: int, left: int, right: int)
    requires left == Find(p, '(') && right == Find(p, ')') && 0 <= left < right && NameRange(p) == Some((s, e))
    ensures 0 <= e <= right < |p|
    ensures Stable(p) <==> Blank(p[e..][..right - e]) || !Space(p[e..][right - e - 1])
  {
    FunctionName(p, s, e, left, right);
    var t, pos := FunctionType(p, s, e, left, right);
    JoinSplit(t, p[s..e]);
  }

  lemma FunctionSplits(p: string, s: int, e: int)
    requires '(' in p && NameRange(p) == Some((s, e)) && Find(p, '(') < Find(p, ')')
    ensures Stable(p) <==> Settled(p)
  {
    FindIs(p, '(');
    var right := Find(p, ')');
    FunctionStable(p, s, e, Find(p, '('), right);
    BreaksCleanIs(p, e, right);
  }

  lemma BreaksCleanIs(p: string, e: int, k: int)
    requires 0 <= e <= k < |p|
    ensures BreaksClean(p, e, k) <==> Blank(p[e..][..k - e]) || !Space(p[e..][k - e - 1])
  {
    assert Slice(p, e, k) == p[e..][..k - e];
    assert k > e ==> p[e..][k - e - 1] == p[k - 1];
  }

  lemma KeepsParenthesis(a: string, left: nat, t: string, pos: nat)
    requires left < |a| && a[left] == '(' && Strip(a) <= t && |Strip(a)| <= pos
    ensures '(' in t && Find(t, '(') < pos
  {
    var i, j := StripKeeps(a);
    KeptHolds(a, i, j, left);
    assert t[left - i] == Strip(a)[left - i] == '(';
    FindIs(t, '(');
    assert forall m :: 0 <= m < Find(t, '(') ==> t[..Find(t, '(')][m] == t[m];
  }

  /** Parentheses the wrong way round: the character before the first closing one is taken for the name. */
  lemma ReversedPieces(p: string)
    requires '(' in p && ')' in p && Find(p, ')') < Find(p, '(')
    ensures NameRange(p) == Some((Find(p, ')') - 1, Find(p, ')')))
  {
    FindIs(p, '(');
    FindIs(p, ')');
  }

  /** Joined to a type with the parentheses the wrong way round, any one character comes back. */
  lemma ReversedRecovered(a: string, c: char, b: string)
    requires '(' !in a && ')' !in a && c != '(' && c != ')' && b != [] && b[0] == ')' && '(' in b
    requires Stripped(a) && Stripped(b)
    ensures Recovered(a + b, [c])
  {
    var t, p := a + b, Joined(a, [c], b);
    assert t == a + [')'] + b[1..];
    FindAt(a, ')', b[1..]);
    FindIs(t, '(');
    assert '(' in t by { assert forall x :: x in b ==> x in t; }
    assert t[..|a|] == a && t[|a|..] == b;
    assert MakeParam(t, [c]) == Some(p);
    ReversedRange(a, c, b);
    SplitJoined(a, [c], b);
    StripIs(a);
    StripIs(b);
  }

  lemma ReversedRange(a: string, c: char, b: string)
    requires '(' !in a && ')' !in a && c != '(' && c != ')' && b != [] && b[0] == ')' && '(' in b
    ensures NameRange(Joined(a, [c], b)) == Some((|a| + 1, |a| + 2))
  {
    var p := Joined(a, [c], b);
    assert p == (a + " " + [c]) + [')'] + b[1..];
    FindAt(a + " " + [c], ')', b[1..]);
    FindIs(b, '(');
    var left := Find(b, '(');
    assert p == (a + " " + [c] + b[..left]) + ['('] + b[left + 1..];
    FindAt(a + " " + [c] + b[..left], '(', b[left + 1..]);
    ReversedPieces(p);
  }

  lemma ReversedSplits(p: string, r: int)
    requires '(' in p && ')' in p && r == Find(p, ')') && 0 < r < Find(p, '(')
    ensures 0 < r < |p| && JustTheName(p) == Some([p[r - 1]])
    ensures JustTheType(p) == Some(Strip(p[..r - 1]) + Strip(p[r..]))
  {
    FindIs(p, '(');
    ReversedPieces(p);
    Sliced(p, r - 1, r);
    assert p[r - 1..r] == [p[r - 1]];
  }

  lemma ReversedEnds(p: string, r: int, l: int)
    requires '(' in p && ')' in p && r == Find(p, ')') && l == Find(p, '(') && 0 < r < l
    ensures l < |p| && p[r] == ')' && p[r..][l - r] == '(' && p[r - 1] != '(' && p[r - 1] != ')'
    ensures '(' !in p[..r - 1] && ')' !in p[..r - 1]
  {
    FindIs(p, '(');
    FindIs(p, ')');
    assert p[..r - 1] == p[..r][..r - 1] && p[..r - 1] == p[..l][..r - 1];
    assert p[..r][r - 1] == p[r - 1] && p[..l][r - 1] == p[r - 1];
  }

  lemma ReversedHalves(p: string, r: int, l: int)
    requires '(' in p && ')' in p && r == Find(p, ')') && l == Find(p, '(') && 0 < r < l
    ensures 0 < r < l < |p|
    ensures var a, b := Strip(p[..r - 1]), Strip(p[r..]);
            '(' !in a && ')' !in a && b != [] && b[0] == ')' && '(' in b && Stripped(a) && Stripped(b)
  {
    ReversedEnds(p, r, l);
    var a, b := p[..r - 1], p[r..];
    StripWithout(a, '(');
    StripWithout(a, ')');
    StripIs(a);
    StripIs(b);
    FirstKept(b, ')', l - r);
  }

  lemma ReversedStable(p: string)
    requires '(' in p && ')' in p && 0 < Find(p, ')') < Find(p, '(')
    ensures Stable(p)
  {
    var r, l := Find(p, ')'), Find(p, '(');
    ReversedSplits(p, r);
    ReversedEnds(p, r, l);
    ReversedHalves(p, r, l);
    ReversedRecovered(Strip(p[..r - 1]), p[r - 1], Strip(p[r..]));
  }

  lemma FirstKept(b: string, c: char, k: nat)
    requires b != [] && b[0] == c && !Space(c) && k < |b| && b[k] == '('
    ensures Strip(b) != [] && Strip(b)[0] == c && '(' in Strip(b)
  {
    var i, j := StripKeeps(b);
    KeptHolds(b, i, j, 0);
    KeptHolds(b, i, j, k);
    assert Strip(b)[k - i] == b[k];
  }

  lemma FrontSplits(p: string)
    requires '(' in p && ')' in p && Find(p, ')') == 0
    ensures |p| >= 2 && p[0] == ')' && JustTheName(p) == Some([])
    ensures JustTheType(p) == Some(Strip(p[..|p| - 1]) + Strip(p))
  {
    FindIs(p, '(');
    FindIs(p, ')');
    ReversedPieces(p);
    assert Slice(p, -1, 0) == [];
    assert Slice(p, 0, -1) == p[..|p| - 1] && Slice(p, 0, |p|) == p;
  }

  lemma FrontJoin(t: string)
    requires t != [] && t[0] == ')' && Find(t, ')') == 0 && '(' in t
    ensures MakeParam(t, []) == Some(" " + t)
  {
    FindIs(t, '(');
    assert InsertName(t, [], 0) == " " + t;
  }

  /** A parameter that starts with the closing parenthesis has no name, and gets one when it is joined. */
  lemma ReversedFront(p: string)
    requires '(' in p && ')' in p && Find(p, ')') == 0
    ensures !Stable(p)
  {
    FrontSplits(p);
    var t := JustTheType(p).value;
    FrontType(p, t);
    FrontJoin(t);
    FrontName(t, " " + t);
  }

  lemma FrontType(p: string, t: string)
    requires |p| >= 2 && p[0] == ')' && '(' in p && t == Strip(p[..|p| - 1]) + Strip(p)
    ensures t != [] && t[0] == ')' && Find(t, ')') == 0 && '(' in t
  {
    var i, j := StripKeeps(p[..|p| - 1]);
    KeptHolds(p[..|p| - 1], i, j, 0);
    var k :| 0 <= k < |p| && p[k] == '(';
    FirstKept(p, ')', k);
    assert t[0] == Strip(p[..|p| - 1])[0];
    assert forall x :: x in Strip(p) ==> x in t;
  }

  lemma FrontName(t: string, q: string)
    requires t != [] && t[0] == ')' && '(' in t && q == " " + t
    ensures NameRange(q) == Some((0, 1)) && JustTheName(q) == Some(" ")
  {
    assert q == " " + [')'] + t[1..];
    FindAt(" ", ')', t[1..]);
    FindIs(t, '(');
    var left := Find(t, '(');
    assert q == (" " + t[..left]) + ['('] + t[left + 1..];
    FindAt(" " + t[..left], '(', t[left + 1..]);
    ReversedPieces(q);
    assert Slice(q, 0, 1) == " ";
  }

  // ----- the exact condition

  /**
    For every parameter in which a name is found: splitting it, joining what was split and splitting
    again gives the same type and the same name exactly under this condition on the parameter.
   */
  lemma SplitJoinIff(p: string)
    requires NameRange(p).Some?
    ensures Stable(p) <==> Settled(p)
  {
    var (s, e) := NameRange(p).value;
    FindIs(p, '(');
    FindIs(p, ')');
    FindIs(p, '[');
    if '(' !in p {
      if '[' !in p {
        NoBracketStable(p, s, e);
      } else if Find(p, '[') < s {
        BracketBefore(p, s, e);
      } else {
        BracketBehindName(p, s, e);
      }
    } else if Find(p, '(') < Find(p, ')') {
      FunctionSplits(p, s, e);
    } else if Find(p, ')') > 0 {
      ReversedStable(p);
    } else {
      ReversedFront(p);
    }
  }

  /** A size in front of the name is taken for part of the type, and for the name when it is joined again. */
  lemma SizeInFrontLost(t: string, name: string)
    requires Identifier(name) && '(' !in t && '[' in t && Stripped(t) && HasIdChar(Slice(t, Find(t, '['), |t|))
    ensures JustTheType(t + " " + name) == Some(t) && JustTheName(t + " " + name) == Some(name)
    ensures !Stable(t + " " + name)
  {
    assert t + " " + name == Joined(t, name, "");
    PlainJoin(t, name, "");
    StripIs(t);
    assert t + "" == t;
    FindIs(t, '[');
    assert Slice(t, Find(t, '['), |t|) == t[Find(t, '[')..];
    JoinSplit(t, name);
  }

  lemma SizedType(x: string, size: string)
    requires Identifier(x) && Identifier(size)
    ensures var t := x + "[" + size + "]";
            && '(' !in t && '[' in t && Stripped(t) && Find(t, '[') == |x| && HasIdChar(Slice(t, |x|, |t|))
  {
    var t := x + "[" + size + "]";
    NamePlain(x, '[');
    NamePlain(x, '(');
    NamePlain(size, '(');
    assert t == x + ['['] + (size + "]");
    FindAt(x, '[', size + "]");
    assert t[|x|] == '[' && t[0] == x[0] && !Space(x[0]) && t[|t| - 1] == ']';
    assert Slice(t, |x|, |t|) == "[" + size + "]";
    assert ("[" + size + "]")[1] == size[0];
  }

  /** That is every array parameter with its size in front of the name, such as `x[3] y`. */
  lemma SizedParameterLost(x: string, size: string, name: string)
    requires Identifier(x) && Identifier(size) && Identifier(name)
    ensures var p := x + "[" + size + "]" + " " + name;
            && JustTheType(p) == Some(x + "[" + size + "]") && JustTheName(p) == Some(name) && !Stable(p)
  {
    SizedType(x, size);
    SizeInFrontLost(x + "[" + size + "]", name);
  }

  lemma SixPieces(p: string)
    requires |p| == 6 && p[1] == '[' && p[3] == ']' && p[4] == ' '
    ensures p == [p[0]] + "[" + [p[2]] + "]" + " " + [p[5]]
  {
  }

  lemma SizedSix(p: string)
    requires |p| == 6 && IdChar(p[0]) && p[1] == '[' && IdChar(p[2]) && p[3] == ']' && p[4] == ' ' && IdChar(p[5])
    ensures !Stable(p)
  {
    SixPieces(p);
    SizedParameterLost([p[0]], [p[2]], [p[5]]);
  }

  lemma SizedExample()
    ensures !Stable("x[3] y")
  {
    SizedSix("x[3] y");
  }
}
