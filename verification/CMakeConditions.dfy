/**
  How CMake evaluates the arguments of `if`: references are replaced first, then the comparisons,
  the negations, the conjunctions and the disjunctions are each reduced in one pass from the left.
  What remains has to be a single truth value.

  An argument is looked up as a variable even when a reference produced it, so a text that happens
  to be the name of a variable is replaced a second time.
 */
module CMakeConditions {
  import opened Prelude
  import opened CMakeArguments

  datatype Part = Given(arg: Tok) | Found(holds: bool)

  // ----- constants

  function Upper(c: char): char {
    if 'a' <= c <= 'z' then c - 'a' + 'A' else c
  }

  function Uppercase(s: string): string {
    seq(|s|, i requires 0 <= i < |s| => Upper(s[i]))
  }

  predicate IsOn(s: string) {
    Uppercase(s) in {"1", "ON", "YES", "TRUE", "Y"}
  }

  predicate EndsWith(s: string, suffix: string) {
    |suffix| <= |s| && s[|s| - |suffix|..] == suffix
  }

  predicate IsOff(s: string) {
    || Uppercase(s) in {"", "0", "OFF", "NO", "FALSE", "N", "IGNORE"}
    || s == "NOTFOUND" || EndsWith(s, "-NOTFOUND")
  }

  /** The numbers of this model: digits, and the words that a reader of numbers takes as one. */
  predicate IsNumber(s: string) {
    (s != "" && forall c :: c in s ==> '0' <= c <= '9') || Uppercase(s) in {"INF", "INFINITY", "NAN"}
  }

  predicate IsZero(s: string) {
    forall c :: c in s ==> c == '0'
  }

  // ----- keywords

  predicate KeywordChar(c: char) {
    'A' <= c <= 'Z' || c == '_'
  }

  /** Tests that this model gives no meaning. */
  const OTHER_TESTS: set<string> :=
    {"COMMAND", "POLICY", "TARGET", "TEST", "DEFINED", "EXISTS", "IS_READABLE", "IS_WRITABLE", "IS_EXECUTABLE",
     "IS_NEWER_THAN", "IS_DIRECTORY", "IS_SYMLINK", "IS_ABSOLUTE", "IN_LIST", "MATCHES", "PATH_EQUAL",
     "LESS", "LESS_EQUAL", "EQUAL", "GREATER", "GREATER_EQUAL", "STRLESS", "STRLESS_EQUAL", "STRGREATER",
     "STRGREATER_EQUAL", "VERSION_LESS", "VERSION_LESS_EQUAL", "VERSION_EQUAL", "VERSION_GREATER",
     "VERSION_GREATER_EQUAL"}

  predicate IsOtherTest(w: string) {
    (forall c :: c in w ==> KeywordChar(c)) && w in OTHER_TESTS
  }

  predicate IsKeyword(w: string) {
    w == "AND" || w == "OR" || w == "NOT" || w == "STREQUAL" || IsOtherTest(w)
  }

  lemma KeywordChars(w: string)
    requires IsKeyword(w)
    ensures forall c :: c in w ==> KeywordChar(c)
  {
  }

  // ----- arguments

  function Words(texts: seq<string>): seq<Part> {
    seq(|texts|, i requires 0 <= i < |texts| => Given(Word(texts[i])))
  }

  function PartsOf(arg: Tok, store: Store): seq<Part> {
    if arg.Quoted? then [Given(Quoted(Substitute(arg.text, store)))] else Words(ExpandOne(arg, store))
  }

  function Parts(args: seq<Tok>, store: Store): seq<Part> {
    if args == [] then [] else PartsOf(args[0], store) + Parts(args[1..], store)
  }

  lemma {:induction false} PartsAppend(a: seq<Tok>, b: seq<Tok>, store: Store)
    ensures Parts(a + b, store) == Parts(a, store) + Parts(b, store)
  {
    if a == [] {
      assert a + b == b;
    } else {
      assert (a + b)[1..] == a[1..] + b;
      PartsAppend(a[1..], b, store);
    }
  }

  const AND := Given(Word("AND"))
  const OR := Given(Word("OR"))
  const NOT := Given(Word("NOT"))
  const STREQUAL := Given(Word("STREQUAL"))

  predicate IsJoin(p: Part) {
    p == AND || p == OR
  }

  predicate IsOperand(p: Part) {
    p.Found? || p.arg.Quoted? || (p.arg.Word? && !IsKeyword(p.arg.text))
  }

  function TextOf(p: Part, store: Store): string {
    match p
    case Found(b) => if b then "1" else "0"
    case Given(Word(w)) => if w in store then store[w] else w
    case Given(arg) => if arg.Quoted? then arg.text else ""
  }

  function Truth(p: Part, store: Store): bool {
    match p
    case Found(b) => b
    case Given(arg) =>
      if !arg.Word? && !arg.Quoted? then false
      else if IsOn(arg.text) then true
      else if IsOff(arg.text) then false
      else if IsNumber(arg.text) then !IsZero(arg.text)
      else arg.Word? && !IsOff(Get(store, arg.text))
  }

  // ----- the passes

  function Compare(ps: seq<Part>, store: Store): seq<Part> {
    if |ps| >= 3 && ps[1] == STREQUAL then
      [Found(TextOf(ps[0], store) == TextOf(ps[2], store))] + Compare(ps[3..], store)
    else if ps == [] then []
    else [ps[0]] + Compare(ps[1..], store)
  }

  function Negate(ps: seq<Part>, store: Store): seq<Part> {
    if |ps| >= 2 && ps[0] == NOT then [Found(!Truth(ps[1], store))] + Negate(ps[2..], store)
    else if ps == [] then []
    else [ps[0]] + Negate(ps[1..], store)
  }

  function Joined(join: Part, a: bool, b: bool): bool {
    if join == AND then a && b else a || b
  }

  function Fold(join: Part, ps: seq<Part>, store: Store): seq<Part>
    decreases |ps|
  {
    if |ps| >= 3 && ps[1] == join then
      Fold(join, [Found(Joined(join, Truth(ps[0], store), Truth(ps[2], store)))] + ps[3..], store)
    else if ps == [] then []
    else [ps[0]] + Fold(join, ps[1..], store)
  }

  function Reduced(ps: seq<Part>, store: Store): seq<Part> {
    Fold(OR, Fold(AND, Negate(Compare(ps, store), store), store), store)
  }

  predicate HasOtherTest(ps: seq<Part>) {
    exists p :: p in ps && p.Given? && p.arg.Word? && IsOtherTest(p.arg.text)
  }

  function EvalParts(ps: seq<Part>, store: Store): Option<bool> {
    if HasOtherTest(ps) then None
    else
      var r := Reduced(ps, store);
      if |r| == 1 then Some(Truth(r[0], store)) else None
  }

  function EvalCondition(args: seq<Tok>, store: Store): Option<bool> {
    EvalParts(Parts(args, store), store)
  }

  // ----- which sequences reduce to a single value

  /**
    Operands separated by joins, each after any number of negations; several operands may stand
    side by side.  `open` says that an operand has to follow.
   */
  predicate Joint(ps: seq<Part>, open: bool) {
    if ps == [] then !open
    else if ps[0] == NOT then open && Joint(ps[1..], true)
    else if IsJoin(ps[0]) then !open && Joint(ps[1..], true)
    else IsOperand(ps[0]) && Joint(ps[1..], false)
  }

  /** Operands less joins. */
  function Excess(ps: seq<Part>): int {
    if ps == [] then 0
    else (if ps[0] == NOT then 0 else if IsJoin(ps[0]) then -1 else 1) + Excess(ps[1..])
  }

  /** Two negations in a row. */
  predicate Doubled(ps: seq<Part>) {
    |ps| >= 2 && ((ps[0] == NOT && ps[1] == NOT) || Doubled(ps[1..]))
  }

  predicate NoNot(ps: seq<Part>) {
    NOT !in ps
  }

  /** The negations cost nothing unless two stand in a row; then an operand too many is left. */
  lemma {:induction false} NegateExcess(ps: seq<Part>, open: bool, store: Store)
    requires Joint(ps, open)
    ensures Joint(Negate(ps, store), open) && NoNot(Negate(ps, store))
    ensures Excess(Negate(ps, store)) >= Excess(ps)
    ensures Excess(Negate(ps, store)) == Excess(ps) <==> !Doubled(ps)
    decreases |ps|, 1
  {
    if ps != [] {
      if ps[0] == NOT {
        assert ps[1..][1..] == ps[2..];
        NegateAfterNot(ps, store);
      } else {
        NegateExcess(ps[1..], IsJoin(ps[0]), store);
        assert Negate(ps, store)[1..] == Negate(ps[1..], store);
        NoDoubleStart(ps);
      }
    }
  }

  lemma NoDoubleStart(ps: seq<Part>)
    requires ps != [] && ps[0] != NOT
    ensures Doubled(ps) <==> Doubled(ps[1..])
  {
  }

  lemma {:induction false} NegateAfterNot(ps: seq<Part>, store: Store)
    requires ps != [] && ps[0] == NOT && Joint(ps[1..], true)
    ensures Joint(Negate(ps, store), true) && NoNot(Negate(ps, store))
    ensures Excess(Negate(ps, store)) >= Excess(ps)
    ensures Excess(Negate(ps, store)) == Excess(ps) <==> !Doubled(ps)
    decreases |ps|, 0
  {
    var rest := ps[2..];
    assert ps[1..][1..] == rest;
    var out := Negate(ps, store);
    assert out[1..] == Negate(rest, store);
    if ps[1] == NOT {
      if rest[0] == NOT {
        NegateAfterNot(rest, store);
      } else {
        NegateExcess(rest, true, store);
      }
      JointShut(Negate(rest, store));
    } else {
      NegateExcess(rest, false, store);
      NoDoubleStart(ps[1..]);
    }
  }

  lemma JointShut(ps: seq<Part>)
    requires Joint(ps, true) && NoNot(ps)
    ensures Joint(ps, false)
  {
    if ps != [] {
      assert ps[0] in ps;
    }
  }

  /** One fold keeps the excess and removes its joins. */
  lemma {:induction false} FoldExcess(join: Part, ps: seq<Part>, open: bool, store: Store)
    requires IsJoin(join) && Joint(ps, open) && NoNot(ps) && (ps == [] || ps[0] != join)
    ensures Joint(Fold(join, ps, store), open)
    ensures Excess(Fold(join, ps, store)) == Excess(ps)
    ensures forall p :: p in Fold(join, ps, store) ==> (p in ps && p != join) || p.Found?
    decreases |ps|
  {
    if ps != [] {
      assert ps[0] in ps && forall p :: p in ps[1..] ==> p in ps;
      if IsJoin(ps[0]) {
        AfterJoin(ps);
        FoldExcess(join, ps[1..], true, store);
        assert Fold(join, ps, store)[1..] == Fold(join, ps[1..], store);
      } else if |ps| >= 2 && ps[1] == join {
        AfterJoin(ps[1..]);
        assert ps[1..][1..] == ps[2..] && ps[1..][2..] == ps[3..] && ps[2..][1..] == ps[3..];
        assert ps[2] in ps && Excess(ps[2..]) == 1 + Excess(ps[3..]);
        var next := [Found(Joined(join, Truth(ps[0], store), Truth(ps[2], store)))] + ps[3..];
        assert next[1..] == ps[3..];
        assert forall p :: p in ps[3..] ==> p in ps;
        FoldExcess(join, next, open, store);
      } else {
        FoldExcess(join, ps[1..], false, store);
        assert Fold(join, ps, store)[1..] == Fold(join, ps[1..], store);
      }
    }
  }

  /** After a join comes an operand. */
  lemma AfterJoin(ps: seq<Part>)
    requires ps != [] && IsJoin(ps[0]) && Joint(ps, false) && NoNot(ps)
    ensures |ps| >= 2 && IsOperand(ps[1]) && !IsJoin(ps[1]) && Joint(ps[2..], false)
  {
    assert |ps| >= 2 ==> ps[1] in ps;
    assert ps[1..][1..] == ps[2..];
  }

  lemma {:induction false} ExcessOfOperands(ps: seq<Part>)
    requires forall p :: p in ps ==> !IsJoin(p) && p != NOT
    ensures Excess(ps) == |ps|
  {
    if ps != [] {
      assert ps[0] in ps && forall p :: p in ps[1..] ==> p in ps;
      ExcessOfOperands(ps[1..]);
    }
  }

  /** A joint sequence reduces to one value exactly when its operands are one more than its joins
      and no two negations stand in a row. */
  lemma ReducesIff(ps: seq<Part>, store: Store)
    requires Joint(Compare(ps, store), true) && Excess(Compare(ps, store)) >= 1
    ensures |Reduced(ps, store)| == 1 <==> Excess(Compare(ps, store)) == 1 && !Doubled(Compare(ps, store))
  {
    var compared := Compare(ps, store);
    var negated := Negate(compared, store);
    NegateExcess(compared, true, store);
    StartsWithOperand(negated);
    FoldExcess(AND, negated, true, store);
    var folded := Fold(AND, negated, store);
    StartsWithOperand(folded);
    FoldExcess(OR, folded, true, store);
    ExcessOfOperands(Reduced(ps, store));
  }

  lemma StartsWithOperand(ps: seq<Part>)
    requires Joint(ps, true) && NoNot(ps)
    ensures ps != [] && !IsJoin(ps[0])
  {
    assert ps != [] ==> ps[0] in ps;
  }

  lemma Regroup(l: seq<Part>, join: Part, r: seq<Part>, rest: seq<Part>)
    ensures l + [join] + r + rest == l + ([join] + (r + rest))
  {
  }

  // ----- what a conjunction or a disjunction reduces to

  /** Operands joined by one operator, grouped in any way. */
  datatype Group = Single(part: Part) | Pair(left: Group, right: Group)

  function Spread(join: Part, g: Group): seq<Part> {
    match g
    case Single(p) => [p]
    case Pair(l, r) => Spread(join, l) + [join] + Spread(join, r)
  }

  function GroupTruth(join: Part, g: Group, store: Store): bool {
    match g
    case Single(p) => Truth(p, store)
    case Pair(l, r) => Joined(join, GroupTruth(join, l, store), GroupTruth(join, r, store))
  }

  function Merged(join: Part, g: Group, store: Store): Part {
    if g.Single? then g.part else Found(GroupTruth(join, g, store))
  }

  lemma MergedTruth(join: Part, g: Group, store: Store)
    ensures Truth(Merged(join, g, store), store) == GroupTruth(join, g, store)
  {
  }

  lemma FoldStep(join: Part, p: Part, q: Part, rest: seq<Part>, store: Store)
    ensures Fold(join, [p, join, q] + rest, store) ==
            Fold(join, [Found(Joined(join, Truth(p, store), Truth(q, store)))] + rest, store)
  {
    assert ([p, join, q] + rest)[3..] == rest;
  }

  lemma SpreadPair(join: Part, g: Group, rest: seq<Part>)
    requires g.Pair?
    ensures Spread(join, g) + rest == Spread(join, g.left) + ([join] + (Spread(join, g.right) + rest))
  {
  }

  /** However it is grouped, a run of one operator folds to its value. */
  lemma {:induction false} FoldGroup(join: Part, g: Group, rest: seq<Part>, store: Store)
    ensures Fold(join, Spread(join, g) + rest, store) == Fold(join, [Merged(join, g, store)] + rest, store)
    decreases g, 1
  {
    if g.Pair? {
      var p := Merged(join, g.left, store);
      var after := [join] + (Spread(join, g.right) + rest);
      SpreadPair(join, g, rest);
      FoldGroup(join, g.left, after, store);
      FoldOnto(join, p, g.right, rest, store);
      assert [p] + after == [p, join] + (Spread(join, g.right) + rest);
      MergedTruth(join, g.left, store);
      assert Merged(join, g, store) == Found(Joined(join, Truth(p, store), GroupTruth(join, g.right, store)));
    }
  }

  lemma {:induction false} FoldOnto(join: Part, p: Part, g: Group, rest: seq<Part>, store: Store)
    ensures Fold(join, [p, join] + (Spread(join, g) + rest), store) ==
            Fold(join, [Found(Joined(join, Truth(p, store), GroupTruth(join, g, store)))] + rest, store)
    decreases g, 0
  {
    if g.Single? {
      assert [p, join] + (Spread(join, g) + rest) == [p, join, g.part] + rest;
      FoldStep(join, p, g.part, rest, store);
    } else {
      var mid := Found(Joined(join, Truth(p, store), GroupTruth(join, g.left, store)));
      var after := [join] + (Spread(join, g.right) + rest);
      SpreadPair(join, g, rest);
      FoldOnto(join, p, g.left, after, store);
      FoldOnto(join, mid, g.right, rest, store);
      assert [mid] + after == [mid, join] + (Spread(join, g.right) + rest);
    }
  }
}
