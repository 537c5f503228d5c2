/**
  The presubmit checks of a change description: splitting it into commits, and the shape of each
  commit message.
 */
module CommitMessages {
  import opened Whitespace

  // ----- splitting a description into commits

  function Text(paragraphs: seq<string>): string {
    if paragraphs == [] then "" else Text(paragraphs[..|paragraphs| - 1]) + paragraphs[|paragraphs| - 1]
  }

  /** A run of paragraphs of which only the last may have a Change-Id. */
  ghost predicate OneCommit(hasId: string -> bool, group: seq<string>) {
    forall i :: 0 <= i < |group| - 1 ==> !hasId(group[i])
  }

  ghost predicate Open(hasId: string -> bool, group: seq<string>) {
    forall i :: 0 <= i < |group| ==> !hasId(group[i])
  }

  ghost predicate Closed(hasId: string -> bool, group: seq<string>) {
    OneCommit(hasId, group) && group != [] && hasId(group[|group| - 1])
  }

  function Flatten(groups: seq<seq<string>>): seq<string> {
    if groups == [] then [] else Flatten(groups[..|groups| - 1]) + groups[|groups| - 1]
  }

  function Texts(groups: seq<seq<string>>): seq<string> {
    if groups == [] then [] else Texts(groups[..|groups| - 1]) + [Text(groups[|groups| - 1])]
  }

  lemma {:induction false} TextConcat(a: seq<string>, b: seq<string>)
    ensures Text(a + b) == Text(a) + Text(b)
  {
    if b == [] {
      assert a + b == a;
    } else {
      var n := |b| - 1;
      assert (a + b)[..|a| + n] == a + b[..n];
      TextConcat(a, b[..n]);
    }
  }

  lemma {:induction false} TextsFlatten(groups: seq<seq<string>>)
    ensures Text(Texts(groups)) == Text(Flatten(groups)) && |Texts(groups)| == |groups|
  {
    if groups != [] {
      var n := |groups| - 1;
      TextsFlatten(groups[..n]);
      TextConcat(Texts(groups[..n]), [Text(groups[n])]);
      TextConcat(Flatten(groups[..n]), groups[n]);
      assert Text([Text(groups[n])]) == Text(groups[n]) by { assert [Text(groups[n])][..0] == []; }
    }
  }

  /** The commits are the texts of groups of paragraphs, each closed by its Change-Id except perhaps the last. */
  ghost predicate SplitsInto(hasId: string -> bool, paragraphs: seq<string>, groups: seq<seq<string>>) {
    && Flatten(groups) == paragraphs
    && (forall i :: 0 <= i < |groups| - 1 ==> Closed(hasId, groups[i]))
    && (groups != [] ==> OneCommit(hasId, groups[|groups| - 1]))
  }

  lemma Snoc(groups: seq<seq<string>>, g: seq<string>)
    ensures Flatten(groups + [g]) == Flatten(groups) + g
    ensures Texts(groups + [g]) == Texts(groups) + [Text(g)]
  {
    assert (groups + [g])[..|groups|] == groups;
  }

  lemma TextSnoc(g: seq<string>, p: string)
    ensures Text(g + [p]) == Text(g) + p
  {
    assert (g + [p])[..|g|] == g;
  }

  /** The commits so far: those that are closed, and the one that is open. */
  ghost predicate Splitting(hasId: string -> bool, done: seq<string>, closed: seq<seq<string>>, open: seq<string>,
                            commits: seq<string>)
  {
    && Flatten(closed) + open == done
    && commits == Texts(closed) + [Text(open)]
    && (forall k :: 0 <= k < |closed| ==> Closed(hasId, closed[k]))
    && Open(hasId, open)
  }

  lemma GrowLast(front: seq<string>, open: seq<string>, commits: seq<string>, p: string)
    requires commits == front + [Text(open)]
    ensures commits[|commits| - 1 := commits[|commits| - 1] + p] == front + [Text(open + [p])]
  {
    TextSnoc(open, p);
  }

  lemma SplitOn(hasId: string -> bool, done: seq<string>, closed: seq<seq<string>>, open: seq<string>,
                commits: seq<string>, p: string)
    requires Splitting(hasId, done, closed, open, commits) && !hasId(p)
    ensures Splitting(hasId, done + [p], closed, open + [p], commits[|commits| - 1 := commits[|commits| - 1] + p])
  {
    GrowLast(Texts(closed), open, commits, p);
    assert Flatten(closed) + (open + [p]) == done + [p];
  }

  lemma SplitHere(hasId: string -> bool, done: seq<string>, closed: seq<seq<string>>, open: seq<string>,
                  commits: seq<string>, p: string)
    requires Splitting(hasId, done, closed, open, commits) && hasId(p)
    ensures Splitting(hasId, done + [p], closed + [open + [p]], [],
                      commits[|commits| - 1 := commits[|commits| - 1] + p] + [""])
  {
    GrowLast(Texts(closed), open, commits, p);
    assert Flatten(closed) + (open + [p]) == done + [p];
    Snoc(closed, open + [p]);
    assert Flatten(closed + [open + [p]]) + [] == done + [p];
    ClosedHere(hasId, open, p);
  }

  lemma ClosedHere(hasId: string -> bool, open: seq<string>, p: string)
    requires Open(hasId, open) && hasId(p)
    ensures Closed(hasId, open + [p])
  {
  }

  method SplitIntoCommits(paragraphs: seq<string>, hasId: string -> bool)
    returns (commits: seq<string>, ghost groups: seq<seq<string>>)
    ensures SplitsInto(hasId, paragraphs, groups)
    ensures Text(commits) == Text(paragraphs)
    ensures groups != [] && commits == if Text(groups[|groups| - 1]) == "" then Texts(groups[..|groups| - 1]) else Texts(groups)
  {
    commits := [""];
    ghost var closed, open := [], [];
    var i := 0;
    while i < |paragraphs|
      invariant 0 <= i <= |paragraphs|
      invariant Splitting(hasId, paragraphs[..i], closed, open, commits)
    {
      if hasId(paragraphs[i]) {
        SplitHere(hasId, paragraphs[..i], closed, open, commits, paragraphs[i]);
      } else {
        SplitOn(hasId, paragraphs[..i], closed, open, commits, paragraphs[i]);
      }
      assert paragraphs[..i + 1] == paragraphs[..i] + [paragraphs[i]];
      commits := commits[|commits| - 1 := commits[|commits| - 1] + paragraphs[i]];
      open := open + [paragraphs[i]];
      if hasId(paragraphs[i]) {
        commits := commits + [""];
        closed, open := closed + [open], [];
      }
      i := i + 1;
    }
    groups := closed + [open];
    SplitEnds(hasId, paragraphs, closed, open, commits) by { assert paragraphs[..i] == paragraphs; }
    if commits[|commits| - 1] == "" {
      DropEmpty(commits);
      commits := commits[..|commits| - 1];
    }
  }

  lemma SplitEnds(hasId: string -> bool, paragraphs: seq<string>, closed: seq<seq<string>>, open: seq<string>,
                  commits: seq<string>)
    requires Splitting(hasId, paragraphs, closed, open, commits)
    ensures SplitsInto(hasId, paragraphs, closed + [open]) && Text(commits) == Text(paragraphs)
    ensures commits[|commits| - 1] == Text(open) && commits[..|commits| - 1] == Texts(closed)
    ensures commits == Texts(closed + [open]) && (closed + [open])[..|closed|] == closed
  {
    Snoc(closed, open);
    TextsFlatten(closed + [open]);
  }

  lemma DropEmpty(commits: seq<string>)
    requires commits != [] && commits[|commits| - 1] == ""
    ensures Text(commits[..|commits| - 1]) == Text(commits)
  {
  }

  // ----- one commit message

  predicate Blank(line: string) {
    forall i :: 0 <= i < |line| ==> Space(line[i])
  }

  predicate Tag(line: string) {
    ':' in line
  }

  predicate Tabbed(line: string) {
    '\t' in line
  }

  const ALLOWED: seq<string> := ["Revert", "Roll", "Manual roll", "Reland", "Re-land"]

  predicate StartsAllowed(line: string) {
    exists i :: 0 <= i < |ALLOWED| && ALLOWED[i] <= line
  }

  /** A line of the body that is short enough, or exempt. */
  predicate Fits(line: string) {
    "    " <= line || "> " <= line || ' ' !in line || |line| <= 72
  }

  const SUMMARY_LIMIT := 64

  datatype Problem =
    | Tabs | NoTags | BlankLinesBeforeTags | NothingSaid | SummaryWarning | SummaryTooLong
    | NoBlankAfterSummary | BlankLinesAfterSummary | LineTooLong

  function TrimEnd(lines: seq<string>): seq<string> {
    if lines != [] && Blank(lines[|lines| - 1]) then TrimEnd(lines[..|lines| - 1]) else lines
  }

  function TrimStart(lines: seq<string>): seq<string> {
    if lines != [] && Blank(lines[0]) then TrimStart(lines[1..]) else lines
  }

  function Trim(lines: seq<string>): seq<string> {
    TrimStart(TrimEnd(lines))
  }

  method PopBlankEnd(lines: seq<string>) returns (r: seq<string>)
    ensures r == TrimEnd(lines)
  {
    r := lines;
    while |r| > 0 && Blank(r[|r| - 1])
      invariant TrimEnd(r) == TrimEnd(lines)
    {
      r := r[..|r| - 1];
    }
  }

  method PopBlankStart(lines: seq<string>) returns (r: seq<string>)
    ensures r == TrimStart(lines)
  {
    r := lines;
    while |r| > 0 && Blank(r[0])
      invariant TrimStart(r) == TrimStart(lines)
    {
      r := r[1..];
    }
  }

  lemma {:induction false} TrimEndIs(lines: seq<string>)
    ensures TrimEnd(lines) == [] || !Blank(TrimEnd(lines)[|TrimEnd(lines)| - 1])
    ensures TrimEnd(lines) <= lines
  {
    if lines != [] && Blank(lines[|lines| - 1]) {
      TrimEndIs(lines[..|lines| - 1]);
    }
  }

  /** The number of lines in front of the tags at the end. */
  function BeforeTags(c: seq<string>): (k: nat)
    ensures k <= |c| && (k > 0 ==> !Tag(c[k - 1])) && forall i :: k <= i < |c| ==> Tag(c[i])
  {
    if c != [] && Tag(c[|c| - 1]) then BeforeTags(c[..|c| - 1]) else |c|
  }

  lemma {:induction false} BeforeTagsUnique(c: seq<string>, k: nat)
    requires k <= |c| && (k > 0 ==> !Tag(c[k - 1])) && forall i :: k <= i < |c| ==> Tag(c[i])
    ensures BeforeTags(c) == k
  {
  }

  predicate NoTabs(c: seq<string>) {
    forall i :: 0 <= i < |c| ==> !Tabbed(c[i])
  }

  /** What is in front of the tags, without one blank line. */
  function Rest(c: seq<string>): seq<string> {
    var r := c[..BeforeTags(c)];
    if r != [] && Blank(r[|r| - 1]) then r[..|r| - 1] else r
  }

  predicate BodyFits(r: seq<string>, from: nat) {
    forall i :: from <= i < |r| ==> Fits(r[i])
  }

  /** The summary and the body. */
  predicate WellSaid(r: seq<string>) {
    && r != [] && !Blank(r[|r| - 1]) && |r[0]| <= SUMMARY_LIMIT
    && (|r| > 1 ==> Blank(r[1]) && |r| > 2 && !Blank(r[2]) && BodyFits(r, 2))
  }

  /** A trimmed message that gives no cause for complaint. */
  predicate Clean(c: seq<string>) {
    NoTabs(c) && BeforeTags(c) < |c| && WellSaid(Rest(c))
  }

  method CheckTabs(c: seq<string>) returns (ok: bool)
    ensures ok == NoTabs(c)
  {
    for i := 0 to |c|
      invariant forall k :: 0 <= k < i ==> !Tabbed(c[k])
    {
      if Tabbed(c[i]) {
        return false;
      }
    }
    return true;
  }

  method CheckAllowed(c: seq<string>) returns (allowed: bool)
    ensures allowed <==> c != [] && StartsAllowed(c[0])
  {
    if |c| > 0 {
      for i := 0 to |ALLOWED|
        invariant forall k :: 0 <= k < i ==> !(ALLOWED[k] <= c[0])
      {
        if ALLOWED[i] <= c[0] {
          return true;
        }
      }
    }
    return false;
  }

  method PopTags(c: seq<string>) returns (rest: seq<string>, count: nat)
    ensures rest == c[..BeforeTags(c)] && count == |c| - BeforeTags(c)
  {
    rest, count := c, 0;
    while |rest| > 0 && Tag(rest[|rest| - 1])
      invariant rest <= c && count == |c| - |rest| && BeforeTags(rest) == BeforeTags(c)
    {
      rest, count := rest[..|rest| - 1], count + 1;
    }
    assert BeforeTags(rest) == |rest|;
  }

  /** The blank lines between the tags and the body; more than one of them is a problem. */
  method PopGap(rest: seq<string>, errors: seq<Problem>) returns (r: seq<string>, e: seq<Problem>)
    ensures errors <= e
    ensures r != [] ==> !Blank(r[|r| - 1])
    ensures var popped := if rest != [] && Blank(rest[|rest| - 1]) then rest[..|rest| - 1] else rest;
            if popped != [] && Blank(popped[|popped| - 1]) then e != errors else e == errors && r == popped
  {
    r, e := rest, errors;
    if |r| > 0 && Blank(r[|r| - 1]) {
      r := r[..|r| - 1];
      if |r| > 0 && Blank(r[|r| - 1]) {
        e := e + [BlankLinesBeforeTags];
        ghost var before := r;
        r := PopBlankEnd(r);
        TrimEndIs(before);
      }
    }
  }

  method CheckSummary(line: string, errors: seq<Problem>) returns (e: seq<Problem>)
    ensures errors <= e && (e == errors <==> |line| <= SUMMARY_LIMIT)
  {
    e := errors;
    if 65 <= |line| <= 70 {
      e := e + [SummaryWarning];
    } else if |line| > 70 {
      e := e + [SummaryTooLong];
    }
  }

  method CheckLines(body: seq<string>, errors: seq<Problem>) returns (e: seq<Problem>)
    ensures errors <= e && (e == errors <==> BodyFits(body, 0))
  {
    e := errors;
    var rest, i := body, 0;
    while |rest| > 0
      invariant 0 <= i <= |body| && rest == body[i..] && e == errors
      invariant forall k :: 0 <= k < i ==> Fits(body[k])
      decreases |rest|
    {
      var line := rest[0];
      rest, i := rest[1..], i + 1;
      if "    " <= line || "> " <= line || ' ' !in line {
        continue;
      }
      if |line| > 72 {
        e := e + [LineTooLong];
        break;
      }
    }
  }

  /** What follows the summary line. */
  method CheckBody(after: seq<string>, errors: seq<Problem>) returns (e: seq<Problem>)
    requires after != [] ==> !Blank(after[|after| - 1])
    ensures errors <= e
    ensures e == errors <==>
      (after != [] ==> Blank(after[0]) && |after| > 1 && !Blank(after[1]) && BodyFits(after, 1))
  {
    e := errors;
    var rest := after;
    if |rest| == 0 {
      return;
    }
    if !Blank(rest[0]) {
      e := e + [NoBlankAfterSummary];
    } else {
      rest := rest[1..];
      if |rest| == 0 {
        return;
      }
      if Blank(rest[0]) {
        e := e + [BlankLinesAfterSummary];
        rest := PopBlankStart(rest);
      }
    }
    ghost var before := e;
    e := CheckLines(rest, e);
    if before == errors {
      assert rest == after[1..];
      assert BodyFits(rest, 0) <==> BodyFits(after, 1) by {
        assert forall i :: 0 <= i < |rest| ==> rest[i] == after[i + 1];
        assert forall i :: 1 <= i < |after| ==> after[i] == rest[i - 1];
      }
    }
  }

  lemma AfterSummary(r: seq<string>)
    requires r != [] && !Blank(r[|r| - 1])
    ensures var after := r[1..];
            && (after != [] ==> !Blank(after[|after| - 1]))
            && ((after != [] ==> Blank(after[0]) && |after| > 1 && !Blank(after[1]) && BodyFits(after, 1))
                <==> (|r| > 1 ==> Blank(r[1]) && |r| > 2 && !Blank(r[2]) && BodyFits(r, 2)))
  {
    var after := r[1..];
    assert forall i :: 1 <= i < |r| ==> r[i] == after[i - 1];
    assert forall i :: 0 <= i < |after| ==> after[i] == r[i + 1];
  }

  method CheckSaid(r: seq<string>, errors: seq<Problem>) returns (e: seq<Problem>)
    requires r != [] && !Blank(r[|r| - 1])
    ensures errors <= e && (e == errors <==> WellSaid(r))
  {
    AfterSummary(r);
    e := CheckSummary(r[0], errors);
    e := CheckBody(r[1..], e);
  }

  method CheckTrimmed(c: seq<string>) returns (errors: seq<Problem>)
    ensures errors == [] <==> Clean(c)
  {
    errors := [];
    var ok := CheckTabs(c);
    if !ok {
      errors := errors + [Tabs];
    }
    var rest, count := PopTags(c);
    if count == 0 {
      errors := errors + [NoTags];
    }
    ghost var e := errors;
    rest, errors := PopGap(rest, errors);
    if |rest| == 0 {
      errors := errors + [NothingSaid];
      return;
    }
    errors := CheckSaid(rest, errors);
  }

  method CheckCommit(lines: seq<string>) returns (errors: seq<Problem>)
    ensures var c := Trim(lines);
            errors == [] <==> (c != [] && StartsAllowed(c[0])) || Clean(c)
  {
    errors := [];
    var c := PopBlankEnd(lines);
    c := PopBlankStart(c);
    var allowed := CheckAllowed(c);
    if !allowed {
      errors := CheckTrimmed(c);
    }
  }

  // ----- the grammar of a message

  predicate AllTags(s: seq<string>) {
    forall i :: 0 <= i < |s| ==> Tag(s[i])
  }

  predicate AllBlank(s: seq<string>) {
    forall i :: 0 <= i < |s| ==> Blank(s[i])
  }

  datatype Message = Message(summary: string, gap: seq<string>, body: seq<string>, pause: seq<string>, tags: seq<string>)

  function Lines(m: Message): seq<string> {
    [m.summary] + m.gap + m.body + m.pause + m.tags
  }

  /** A summary; one blank line and a body, or neither; at most one blank line; tags. */
  predicate IsMessage(m: Message) {
    && |m.summary| <= SUMMARY_LIMIT
    && (if m.body == [] then m.gap == [] && !Blank(m.summary)
        else |m.gap| == 1 && AllBlank(m.gap) && !Blank(m.body[0]) && !Blank(m.body[|m.body| - 1]) && BodyFits(m.body, 0))
    && |m.pause| <= 1 && AllBlank(m.pause)
    && m.tags != [] && AllTags(m.tags)
    && (m.pause == [] ==> !Tag(if m.body == [] then m.summary else m.body[|m.body| - 1]))
  }

  lemma BlankNoTag(line: string)
    requires Blank(line)
    ensures !Tag(line)
  {
  }

  function Said(m: Message): seq<string> {
    [m.summary] + m.gap + m.body
  }

  lemma MessageParts(m: Message)
    requires IsMessage(m)
    ensures BeforeTags(Lines(m)) == |Said(m)| + |m.pause|
    ensures Rest(Lines(m)) == Said(m)
  {
    var c, k := Lines(m), |Said(m)| + |m.pause|;
    forall i | k <= i < |c| ensures Tag(c[i]) {
      assert c[i] == m.tags[i - k];
    }
    if m.pause != [] {
      assert c[k - 1] == m.pause[0];
      BlankNoTag(m.pause[0]);
    } else if m.body != [] {
      assert c[k - 1] == m.body[|m.body| - 1];
    } else {
      assert c[k - 1] == m.summary;
    }
    BeforeTagsUnique(c, k);
    assert c[..k] == Said(m) + m.pause;
    if m.pause != [] {
      assert c[..k][..k - 1] == Said(m);
    } else {
      assert c[..k] == Said(m);
    }
  }

  lemma MessageWellSaid(m: Message)
    requires IsMessage(m)
    ensures WellSaid(Said(m))
  {
    var r := Said(m);
    if m.body != [] {
      assert r[|r| - 1] == m.body[|m.body| - 1] && r[1] == m.gap[0] && r[2] == m.body[0];
      forall i | 2 <= i < |r| ensures Fits(r[i]) {
        assert r[i] == m.body[i - 2];
      }
    }
  }

  /** The message read off a clean list of lines. */
  function Read(c: seq<string>): Message
    requires Rest(c) != []
  {
    var r, k := Rest(c), BeforeTags(c);
    Message(r[0], if |r| > 1 then [r[1]] else [], if |r| > 2 then r[2..] else [], c[|r|..k], c[k..])
  }

  lemma RestIs(c: seq<string>)
    ensures var r, k := Rest(c), BeforeTags(c);
            && r <= c && k - 1 <= |r| <= k
            && (|r| == k - 1 ==> Blank(c[k - 1]))
  {
  }

  lemma SaidOf(r: seq<string>, m: Message)
    requires r != [] && m.summary == r[0] && m.gap == (if |r| > 1 then [r[1]] else []) && m.body == if |r| > 2 then r[2..] else []
    ensures Said(m) == r
  {
    if |r| > 2 {
      assert r == [r[0]] + [r[1]] + r[2..];
    } else if |r| == 2 {
      assert r == [r[0]] + [r[1]] + [];
    } else {
      assert r == [r[0]] + [] + [];
    }
  }

  lemma ReadLines(c: seq<string>)
    requires Clean(c)
    ensures Lines(Read(c)) == c
  {
    var m, n, k := Read(c), |Rest(c)|, BeforeTags(c);
    RestIs(c);
    SaidOf(Rest(c), m);
    assert Lines(m) == Said(m) + m.pause + m.tags;
    ThreeParts(c, n, k);
  }

  lemma ThreeParts(c: seq<string>, n: nat, k: nat)
    requires n <= k <= |c|
    ensures c[..n] + c[n..k] + c[k..] == c
  {
  }

  lemma ReadBody(c: seq<string>)
    requires Clean(c) && |Rest(c)| > 2
    ensures var m := Read(c);
            && !Blank(m.body[0]) && !Blank(m.body[|m.body| - 1]) && BodyFits(m.body, 0)
            && m.body[|m.body| - 1] == Rest(c)[|Rest(c)| - 1]
  {
    var m, r := Read(c), Rest(c);
    assert forall i :: 0 <= i < |m.body| ==> m.body[i] == r[i + 2];
  }

  lemma ReadIsMessage(c: seq<string>)
    requires Clean(c)
    ensures IsMessage(Read(c))
  {
    var m, r, k := Read(c), Rest(c), BeforeTags(c);
    RestIs(c);
    if |r| > 2 {
      ReadBody(c);
    }
    assert AllTags(m.tags);
    if |r| == k - 1 {
      assert m.pause == [c[k - 1]];
    } else {
      assert m.pause == [] && r[|r| - 1] == c[k - 1];
    }
  }

  /** A list of lines is clean exactly when it is a message without tabs. */
  lemma CleanIff(c: seq<string>)
    ensures Clean(c) <==> NoTabs(c) && exists m :: IsMessage(m) && Lines(m) == c
  {
    if Clean(c) {
      ReadLines(c);
      ReadIsMessage(c);
    }
    if m :| IsMessage(m) && Lines(m) == c {
      MessageParts(m);
      MessageWellSaid(m);
    }
  }

  /** A commit that passes: allowlisted, or a message. */
  ghost predicate Passes(lines: seq<string>) {
    var c := Trim(lines);
    (c != [] && StartsAllowed(c[0])) || (NoTabs(c) && exists m :: IsMessage(m) && Lines(m) == c)
  }

  datatype Report = Report(number: nat, problem: Problem)

  function Numbered(number: nat, problems: seq<Problem>): seq<Report> {
    seq(|problems|, i requires 0 <= i < |problems| => Report(number, problems[i]))
  }

  ghost predicate AllPass(commits: seq<seq<string>>) {
    forall k :: 0 <= k < |commits| ==> Passes(commits[k])
  }

  /** A report names a commit among the first `k` that does not pass; they are numbered from the last one. */
  ghost predicate Deserved(commits: seq<seq<string>>, k: nat, r: Report) {
    1 <= r.number <= |commits| && |commits| - r.number < k && !Passes(commits[|commits| - r.number])
  }

  ghost predicate Reported(commits: seq<seq<string>>, k: nat, reports: seq<Report>)
    requires k <= |commits|
  {
    && (reports == [] <==> AllPass(commits[..k]))
    && forall r :: r in reports ==> Deserved(commits, k, r)
  }

  lemma ReportedStep(commits: seq<seq<string>>, k: nat, reports: seq<Report>, problems: seq<Problem>)
    requires k < |commits| && Reported(commits, k, reports) && (problems == [] <==> Passes(commits[k]))
    ensures Reported(commits, k + 1, reports + Numbered(|commits| - k, problems))
  {
    var more := Numbered(|commits| - k, problems);
    assert commits[..k + 1] == commits[..k] + [commits[k]];
    if AllPass(commits[..k + 1]) {
      assert forall i :: 0 <= i < k ==> commits[..k + 1][i] == commits[..k][i];
      assert commits[..k + 1][k] == commits[k];
    }
    forall r | r in reports + more ensures Deserved(commits, k + 1, r) {
      if r in reports {
        assert Deserved(commits, k, r);
      } else {
        assert r in more && problems != [];
      }
    }
  }

  method CheckDescription(commits: seq<seq<string>>) returns (reports: seq<Report>)
    ensures reports == [] <==> AllPass(commits)
    ensures forall r :: r in reports ==> Deserved(commits, |commits|, r)
  {
    reports := [];
    for k := 0 to |commits|
      invariant Reported(commits, k, reports)
    {
      var problems := CheckCommit(commits[k]);
      CleanIff(Trim(commits[k]));
      ReportedStep(commits, k, reports, problems);
      reports := reports + Numbered(|commits| - k, problems);
    }
    assert commits[..|commits|] == commits;
  }
}
