/** Where CMake gives a written condition another value than GN does, and exactly when it does not. */
module GniConditionLimits {
  import P = Precedence
  import opened Prelude
  import opened GnAst
  import opened CMakeArguments
  import opened CMakeConditions
  import opened CMakeWriter
  import opened GniStore
  import opened GniConditions

  predicate Kept(n: Node, env: Env, store: Store, prepend: string) {
    Convert(n).Some? && Evaluated(n, store, prepend) == EvalCond(n, env)
  }

  // ----- a single word

  lemma SingleReduced(p: Part, store: Store)
    requires p != NOT
    ensures Reduced([p], store) == [p]
  {
    assert Compare([p], store) == [p] + Compare([], store);
    assert Negate([p], store) == [p] + Negate([], store);
    assert Fold(AND, [p], store) == [p] + Fold(AND, [], store);
    assert Fold(OR, [p], store) == [p] + Fold(OR, [], store);
  }

  lemma SingleEvaluated(n: Node, w: string, env: Env, store: Store, prepend: string, ctx: Context)
    requires Readable(n, prepend, ctx) && EvalCond(n, env).Some?
    requires Related(env, store, prepend) && Clear(ctx, env, store, prepend)
    requires CondParts(n, env, prepend, ctx) == [Given(Word(w))] && Given(Word(w)) != NOT
    ensures Convert(n).Some? && Evaluated(n, store, prepend) == Some(Truth(Given(Word(w)), store))
  {
    ConditionEvaluates(n, env, store, prepend, ctx);
    NoOtherTest(n, env, store, prepend, ctx);
    SingleReduced(Given(Word(w)), store);
  }

  lemma GluedIsNoConstant(a: string, g: string, b: string)
    requires |g| == 2 && g[0] == '!'
    ensures !IsOn(a + g + b) && !IsNumber(a + g + b) && a + g + b != "NOT"
  {
    var w := a + g + b;
    assert w[|a|] == '!' && w[|a|] in w && Uppercase(w)[|a|] == '!';
  }

  lemma WordTruth(w: string, store: Store)
    requires !IsOn(w) && !IsNumber(w)
    ensures Truth(Given(Word(w)), store) <==> !IsOff(w) && w in store && !IsOff(store[w])
  {
    assert Uppercase("") == "";
  }

  /**
    A test that is not renamed is written without blanks.  CMake refuses it when a string is on the
    left; otherwise it looks for a variable whose name is the whole text.  As long as there is none, the
    value is right exactly when the two strings are the same.
   */
  lemma UnequalKeptIff(n: Node, env: Env, store: Store, prepend: string, ctx: Context)
    requires Readable(n, prepend, ctx) && n.Expr? && n.op == Binary(P.NotEq) && EvalCond(n, env).Some?
    requires Related(env, store, prepend) && Clear(ctx, env, store, prepend)
    ensures var w := InsideText(n.kids[0], env, prepend) + "!=" + InsideText(n.kids[1], env, prepend);
            var found := !IsOff(w) && w in store && !IsOff(store[w]);
            Kept(n, env, store, prepend) <==>
            !n.kids[0].Str? && (EvalString(n.kids[0], env) == EvalString(n.kids[1], env) <==> !found)
  {
    var l, r := InsideText(n.kids[0], env, prepend), InsideText(n.kids[1], env, prepend);
    EvaluableIff(n, env, store, prepend, ctx);
    if !n.kids[0].Str? {
      GluedIsNoConstant(l, "!=", r);
      WordTruth(l + "!=" + r, store);
      SingleEvaluated(n, l + "!=" + r, env, store, prepend, ctx);
    }
  }

  /** What CMake makes of a flag: a name that is a constant has the value of the constant. */
  lemma FlagTruth(x: string, flag: bool, store: Store)
    requires Name(x) && x in store && (flag <==> !IsOff(store[x]))
    ensures Truth(Given(Word(x)), store) == flag <==>
            if IsOn(x) then flag else if IsOff(x) then !flag else IsNumber(x) ==> flag
  {
    assert x[0] in x;
  }

  lemma FlagKeptIff(x: string, env: Env, store: Store, prepend: string)
    requires IsBool(env, x) && !IsKeyword(x) && Related(env, store, prepend)
    ensures Kept(Var(x), env, store, prepend) <==>
            if IsOn(x) then env[x].flag else if IsOff(x) then !env[x].flag else IsNumber(x) ==> env[x].flag
  {
    var ctx := Context({}, {}, store.Keys);
    assert Name(x) && Matches(env[x], x, store, prepend);
    FlagTruth(x, env[x].flag, store);
    SingleEvaluated(Var(x), x, env, store, prepend, ctx);
  }

  // ----- grouping

  /** A condition written with the tokens of another one has that one's value. */
  lemma ReadAs(n: Node, read: Node, env: Env, store: Store, prepend: string, ctx: Context)
    requires Readable(n, prepend, ctx) && CondForm(read, prepend, ctx) && Readable(read, prepend, ctx)
    requires EvalCond(read, env).Some? && CondToks(n, prepend, ctx) == CondToks(read, prepend, ctx)
    requires Related(env, store, prepend) && Clear(ctx, env, store, prepend)
    ensures Convert(n).Some? && Evaluated(n, store, prepend) == EvalCond(read, env)
  {
    CondWritten(n, prepend, ctx);
    CondWritten(read, prepend, ctx);
    ConditionKept(read, env, store, prepend, ctx);
  }

  function Negation(a: Node): Node {
    Expr(Bang, [a])
  }

  function Junction(op: P.BinOp, a: Node, b: Node): Node {
    Expr(Binary(op), [a, b])
  }

  lemma NegationToks(a: Node, env: Env, prepend: string, ctx: Context)
    requires Readable(a, prepend, ctx) && EvalCond(a, env).Some?
    ensures Readable(Negation(a), prepend, ctx)
    ensures CondToks(Negation(a), prepend, ctx) == [Word("NOT")] + CondToks(a, prepend, ctx)
    ensures EvalCond(Negation(a), env) == Some(!EvalCond(a, env).value)
  {
  }

  lemma JunctionToks(op: P.BinOp, a: Node, b: Node, env: Env, prepend: string, ctx: Context)
    requires op == P.AndAnd || op == P.OrOr
    requires Readable(a, prepend, ctx) && EvalCond(a, env).Some? && Readable(b, prepend, ctx) && EvalCond(b, env).Some?
    ensures Readable(Junction(op, a, b), prepend, ctx)
    ensures CondToks(Junction(op, a, b), prepend, ctx) ==
            CondToks(a, prepend, ctx) + [JoinTok(Binary(op))] + CondToks(b, prepend, ctx)
    ensures EvalCond(Junction(op, a, b), env) ==
            Some(if op == P.AndAnd then EvalCond(a, env).value && EvalCond(b, env).value
                 else EvalCond(a, env).value || EvalCond(b, env).value)
  {
  }

  lemma FormsOf(a: Node, b: Node, prepend: string, ctx: Context)
    ensures TestForm(a, prepend, ctx) ==> AndForm(Negation(a), prepend, ctx)
    ensures AndForm(a, prepend, ctx) && AndForm(b, prepend, ctx) ==> AndForm(Junction(P.AndAnd, a, b), prepend, ctx)
    ensures CondForm(a, prepend, ctx) && CondForm(b, prepend, ctx) ==> CondForm(Junction(P.OrOr, a, b), prepend, ctx)
  {
  }

  lemma NegatedAndRead(a: Node, b: Node, env: Env, prepend: string, ctx: Context)
    requires Readable(a, prepend, ctx) && EvalCond(a, env).Some? && Readable(b, prepend, ctx) && EvalCond(b, env).Some?
    ensures var n, read := Negation(Junction(P.AndAnd, a, b)), Junction(P.AndAnd, Negation(a), b);
            && Readable(n, prepend, ctx) && Readable(read, prepend, ctx)
            && CondToks(n, prepend, ctx) == CondToks(read, prepend, ctx)
            && EvalCond(n, env) == Some(!(EvalCond(a, env).value && EvalCond(b, env).value))
            && EvalCond(read, env) == Some(!EvalCond(a, env).value && EvalCond(b, env).value)
  {
    NegationToks(a, env, prepend, ctx);
    JunctionToks(P.AndAnd, a, b, env, prepend, ctx);
    JunctionToks(P.AndAnd, Negation(a), b, env, prepend, ctx);
    NegationToks(Junction(P.AndAnd, a, b), env, prepend, ctx);
  }

  /** `!(a && b)` is written as `NOT a AND b`; that is right exactly when `b` holds. */
  lemma NegatedAndKeptIff(a: Node, b: Node, env: Env, store: Store, prepend: string, ctx: Context)
    requires TestForm(a, prepend, ctx) && AndForm(b, prepend, ctx)
    requires EvalCond(a, env).Some? && EvalCond(b, env).Some?
    requires Related(env, store, prepend) && Clear(ctx, env, store, prepend)
    ensures Kept(Negation(Junction(P.AndAnd, a, b)), env, store, prepend) <==> EvalCond(b, env).value
  {
    assert AndForm(a, prepend, ctx);
    AndFormReadable(a, prepend, ctx);
    AndFormReadable(b, prepend, ctx);
    NegatedAndRead(a, b, env, prepend, ctx);
    FormsOf(a, b, prepend, ctx);
    FormsOf(Negation(a), b, prepend, ctx);
    ReadAs(Negation(Junction(P.AndAnd, a, b)), Junction(P.AndAnd, Negation(a), b), env, store, prepend, ctx);
  }

  lemma SameToks(a: seq<Tok>, j: Tok, b: seq<Tok>, k: Tok, c: seq<Tok>)
    ensures a + [j] + (b + [k] + c) == a + [j] + b + [k] + c
  {
  }

  lemma GroupedOrRead(a: Node, b: Node, c: Node, env: Env, prepend: string, ctx: Context)
    requires Readable(a, prepend, ctx) && EvalCond(a, env).Some? && Readable(b, prepend, ctx) && EvalCond(b, env).Some?
    requires Readable(c, prepend, ctx) && EvalCond(c, env).Some?
    ensures var n, read := Junction(P.AndAnd, a, Junction(P.OrOr, b, c)), Junction(P.OrOr, Junction(P.AndAnd, a, b), c);
            && Readable(n, prepend, ctx) && Readable(read, prepend, ctx)
            && CondToks(n, prepend, ctx) == CondToks(read, prepend, ctx)
            && EvalCond(n, env) == Some(EvalCond(a, env).value && (EvalCond(b, env).value || EvalCond(c, env).value))
            && EvalCond(read, env) == Some((EvalCond(a, env).value && EvalCond(b, env).value) || EvalCond(c, env).value)
  {
    var either, both := Junction(P.OrOr, b, c), Junction(P.AndAnd, a, b);
    JunctionToks(P.OrOr, b, c, env, prepend, ctx);
    JunctionToks(P.AndAnd, a, b, env, prepend, ctx);
    JunctionToks(P.AndAnd, a, either, env, prepend, ctx);
    JunctionToks(P.OrOr, both, c, env, prepend, ctx);
    SameToks(CondToks(a, prepend, ctx), JoinTok(Binary(P.AndAnd)), CondToks(b, prepend, ctx), JoinTok(Binary(P.OrOr)),
             CondToks(c, prepend, ctx));
  }

  /** `a && (b || c)` is written as `a AND b OR c`; that is right exactly when `a` holds or `c` does not. */
  lemma GroupedOrKeptIff(a: Node, b: Node, c: Node, env: Env, store: Store, prepend: string, ctx: Context)
    requires AndForm(a, prepend, ctx) && AndForm(b, prepend, ctx) && CondForm(c, prepend, ctx)
    requires EvalCond(a, env).Some? && EvalCond(b, env).Some? && EvalCond(c, env).Some?
    requires Related(env, store, prepend) && Clear(ctx, env, store, prepend)
    ensures Kept(Junction(P.AndAnd, a, Junction(P.OrOr, b, c)), env, store, prepend) <==>
            EvalCond(a, env).value || !EvalCond(c, env).value
  {
    AndFormReadable(a, prepend, ctx);
    AndFormReadable(b, prepend, ctx);
    CondFormReadable(c, prepend, ctx);
    GroupedOrRead(a, b, c, env, prepend, ctx);
    FormsOf(a, b, prepend, ctx);
    FormsOf(Junction(P.AndAnd, a, b), c, prepend, ctx);
    ReadAs(Junction(P.AndAnd, a, Junction(P.OrOr, b, c)), Junction(P.OrOr, Junction(P.AndAnd, a, b), c),
           env, store, prepend, ctx);
  }

  // ----- every condition

  /** The negation reaches the first test only. */
  function NegateFirst(t: Node): Node {
    if t.Expr? && IsJunction(t.op) && |t.kids| == 2 then Expr(t.op, [NegateFirst(t.kids[0]), t.kids[1]]) else Negation(t)
  }

  predicate IsDisjunction(n: Node) {
    n.Expr? && n.op == Binary(P.OrOr) && |n.kids| == 2
  }

  /** The conjunction reaches the last term on its left and the first on its right only. */
  function AndOnto(a: Node, b: Node): Node
    decreases a, b
  {
    if IsDisjunction(a) then Junction(P.OrOr, a.kids[0], AndOnto(a.kids[1], b))
    else if IsDisjunction(b) then Junction(P.OrOr, AndOnto(a, b.kids[0]), b.kids[1])
    else Junction(P.AndAnd, a, b)
  }

  /** The condition as CMake groups what is written for it: negations first, then conjunctions, then disjunctions. */
  function Regrouped(n: Node): Node {
    if n.Expr? && n.op.Bang? && |n.kids| == 1 then NegateFirst(Regrouped(n.kids[0]))
    else if n.Expr? && n.op == Binary(P.AndAnd) && |n.kids| == 2 then
      AndOnto(Regrouped(n.kids[0]), Regrouped(n.kids[1]))
    else if IsDisjunction(n) then Junction(P.OrOr, Regrouped(n.kids[0]), Regrouped(n.kids[1]))
    else n
  }

  lemma {:induction false} NegateFirstEvaluates(t: Node, env: Env)
    requires EvalCond(t, env).Some?
    ensures EvalCond(NegateFirst(t), env).Some?
  {
    if t.Expr? && IsJunction(t.op) {
      NegateFirstEvaluates(t.kids[0], env);
    }
  }

  lemma {:induction false} AndOntoEvaluates(a: Node, b: Node, env: Env)
    requires EvalCond(a, env).Some? && EvalCond(b, env).Some?
    ensures EvalCond(AndOnto(a, b), env).Some?
    decreases a, b
  {
    if IsDisjunction(a) {
      AndOntoEvaluates(a.kids[1], b, env);
    } else if IsDisjunction(b) {
      AndOntoEvaluates(a, b.kids[0], env);
    }
  }

  lemma {:induction false} RegroupedEvaluates(n: Node, env: Env)
    requires EvalCond(n, env).Some?
    ensures EvalCond(Regrouped(n), env).Some?
  {
    if n.Expr? && n.op.Bang? {
      RegroupedEvaluates(n.kids[0], env);
      NegateFirstEvaluates(Regrouped(n.kids[0]), env);
    } else if n.Expr? && IsJunction(n.op) {
      RegroupedEvaluates(n.kids[0], env);
      RegroupedEvaluates(n.kids[1], env);
      AndOntoEvaluates(Regrouped(n.kids[0]), Regrouped(n.kids[1]), env);
    }
  }

  /** The tokens of a condition in the form CMake groups in. */
  predicate GroupedAs(t: Node, toks: seq<Tok>, prepend: string, ctx: Context) {
    DisjunctionForm(t, prepend, ctx) && Readable(t, prepend, ctx) && CondToks(t, prepend, ctx) == toks
  }

  lemma JunctionGrouped(op: P.BinOp, a: Node, s: seq<Tok>, b: Node, t: seq<Tok>, prepend: string, ctx: Context)
    requires GroupedAs(a, s, prepend, ctx) && GroupedAs(b, t, prepend, ctx)
    requires op == P.OrOr || (op == P.AndAnd && !IsDisjunction(a) && !IsDisjunction(b))
    ensures GroupedAs(Junction(op, a, b), s + [JoinTok(Binary(op))] + t, prepend, ctx)
  {
    var n := Junction(op, a, b);
    assert n.kids[0] == a && n.kids[1] == b;
    assert Readable(n, prepend, ctx);
    if op == P.AndAnd {
      assert ConjunctionForm(n, prepend, ctx);
    }
  }

  lemma {:induction false} NegateFirstGrouped(t: Node, toks: seq<Tok>, prepend: string, ctx: Context)
    requires GroupedAs(t, toks, prepend, ctx) && !StartsNegated(t)
    ensures GroupedAs(NegateFirst(t), [Word("NOT")] + toks, prepend, ctx) && StartsNegated(NegateFirst(t))
    ensures IsDisjunction(NegateFirst(t)) <==> IsDisjunction(t)
    decreases t
  {
    if t.Expr? && IsJunction(t.op) {
      var a, b := t.kids[0], t.kids[1];
      var l, r := CondToks(a, prepend, ctx), CondToks(b, prepend, ctx);
      JunctionParts(t, prepend, ctx);
      NegateFirstGrouped(a, l, prepend, ctx);
      JunctionGrouped(t.op.op, NegateFirst(a), [Word("NOT")] + l, b, r, prepend, ctx);
      assert [Word("NOT")] + l + [JoinTok(t.op)] + r == [Word("NOT")] + (l + [JoinTok(t.op)] + r);
    } else {
      NegationGrouped(t, toks, prepend, ctx);
    }
  }

  /** The two sides of a grouped junction. */
  lemma JunctionParts(t: Node, prepend: string, ctx: Context)
    requires DisjunctionForm(t, prepend, ctx) && Readable(t, prepend, ctx) && t.Expr? && IsJunction(t.op)
    ensures |t.kids| == 2 && t == Junction(t.op.op, t.kids[0], t.kids[1])
    ensures forall k :: k in t.kids ==> GroupedAs(k, CondToks(k, prepend, ctx), prepend, ctx)
    ensures t.op == Binary(P.AndAnd) ==> !IsDisjunction(t.kids[0]) && !IsDisjunction(t.kids[1])
  {
    assert t.kids == [t.kids[0], t.kids[1]];
    if t.op == Binary(P.AndAnd) {
      assert ConjunctionForm(t, prepend, ctx);
      NoDisjunction(t.kids[0], prepend, ctx);
      NoDisjunction(t.kids[1], prepend, ctx);
    }
  }

  lemma NoDisjunction(t: Node, prepend: string, ctx: Context)
    requires ConjunctionForm(t, prepend, ctx)
    ensures !IsDisjunction(t)
  {
  }

  lemma NegationGrouped(t: Node, toks: seq<Tok>, prepend: string, ctx: Context)
    requires GroupedAs(t, toks, prepend, ctx) && !StartsNegated(t) && !(t.Expr? && IsJunction(t.op))
    ensures GroupedAs(Negation(t), [Word("NOT")] + toks, prepend, ctx)
  {
    var n := Negation(t);
    assert n.kids[0] == t && LeafForm(t, prepend, ctx);
    assert SignedForm(n, prepend, ctx);
  }

  lemma SameGrouping(a: seq<Tok>, j: Tok, b: seq<Tok>, k: Tok, c: seq<Tok>)
    ensures a + [j] + (b + [k] + c) == (a + [j] + b) + [k] + c
  {
  }

  lemma {:induction false} AndOntoGrouped(a: Node, s: seq<Tok>, b: Node, t: seq<Tok>, prepend: string, ctx: Context)
    requires GroupedAs(a, s, prepend, ctx) && GroupedAs(b, t, prepend, ctx)
    ensures GroupedAs(AndOnto(a, b), s + [Word("AND")] + t, prepend, ctx)
    ensures StartsNegated(AndOnto(a, b)) <==> StartsNegated(a)
    decreases a, b
  {
    if IsDisjunction(a) {
      JunctionParts(a, prepend, ctx);
      var l, r := CondToks(a.kids[0], prepend, ctx), CondToks(a.kids[1], prepend, ctx);
      assert a.kids[0] in a.kids && a.kids[1] in a.kids;
      AndOntoGrouped(a.kids[1], r, b, t, prepend, ctx);
      JunctionGrouped(P.OrOr, a.kids[0], l, AndOnto(a.kids[1], b), r + [Word("AND")] + t, prepend, ctx);
      SameGrouping(l, Word("OR"), r, Word("AND"), t);
    } else if IsDisjunction(b) {
      JunctionParts(b, prepend, ctx);
      var l, r := CondToks(b.kids[0], prepend, ctx), CondToks(b.kids[1], prepend, ctx);
      assert b.kids[0] in b.kids && b.kids[1] in b.kids;
      AndOntoGrouped(a, s, b.kids[0], l, prepend, ctx);
      JunctionGrouped(P.OrOr, AndOnto(a, b.kids[0]), s + [Word("AND")] + l, b.kids[1], r, prepend, ctx);
      SameGrouping(s, Word("AND"), l, Word("OR"), r);
    } else {
      JunctionGrouped(P.AndAnd, a, s, b, t, prepend, ctx);
    }
  }

  /** The regrouped condition is written with the same tokens. */
  lemma {:induction false} RegroupedWritten(n: Node, prepend: string, ctx: Context)
    requires Readable(n, prepend, ctx) && !NegatedTwice(n) && StringsOnLeft(n) == 0
    ensures GroupedAs(Regrouped(n), CondToks(n, prepend, ctx), prepend, ctx)
    ensures StartsNegated(Regrouped(n)) <==> StartsNegated(n)
  {
    if n.Expr? && n.op.Bang? {
      RegroupedWritten(n.kids[0], prepend, ctx);
      NegateFirstGrouped(Regrouped(n.kids[0]), CondToks(n.kids[0], prepend, ctx), prepend, ctx);
    } else if n.Expr? && IsJunction(n.op) {
      var a, b := n.kids[0], n.kids[1];
      var s, t := CondToks(a, prepend, ctx), CondToks(b, prepend, ctx);
      RegroupedWritten(a, prepend, ctx);
      RegroupedWritten(b, prepend, ctx);
      if n.op == Binary(P.AndAnd) {
        AndOntoGrouped(Regrouped(a), s, Regrouped(b), t, prepend, ctx);
      } else {
        JunctionGrouped(P.OrOr, Regrouped(a), s, Regrouped(b), t, prepend, ctx);
      }
    } else {
      assert LeafForm(n, prepend, ctx);
    }
  }

  /** What CMake computes for every condition: the value of the regrouped condition, or nothing. */
  lemma ConditionValue(n: Node, env: Env, store: Store, prepend: string, ctx: Context)
    requires Readable(n, prepend, ctx) && EvalCond(n, env).Some?
    requires Related(env, store, prepend) && Clear(ctx, env, store, prepend)
    ensures Convert(n).Some? && EvalCond(Regrouped(n), env).Some?
    ensures Evaluated(n, store, prepend) ==
            if NegatedTwice(n) || StringsOnLeft(n) > 0 then None else Some(CMakeValue(Regrouped(n), env, store, prepend))
  {
    RegroupedEvaluates(n, env);
    EvaluableIff(n, env, store, prepend, ctx);
    if !NegatedTwice(n) && StringsOnLeft(n) == 0 {
      RegroupedWritten(n, prepend, ctx);
      CondWritten(n, prepend, ctx);
      CondWritten(Regrouped(n), prepend, ctx);
      DisjunctionValue(Regrouped(n), env, store, prepend, ctx);
    }
  }

  /** Every condition keeps its value exactly if CMake can evaluate it and the regrouped one has that value. */
  lemma ConditionKeptIff(n: Node, env: Env, store: Store, prepend: string, ctx: Context)
    requires Readable(n, prepend, ctx) && EvalCond(n, env).Some?
    requires Related(env, store, prepend) && Clear(ctx, env, store, prepend)
    ensures EvalCond(Regrouped(n), env).Some?
    ensures Kept(n, env, store, prepend) <==>
            && !NegatedTwice(n) && StringsOnLeft(n) == 0
            && CMakeValue(Regrouped(n), env, store, prepend) == EvalCond(n, env).value
  {
    ConditionValue(n, env, store, prepend, ctx);
  }

  lemma {:induction false} NegateFirstPlain(t: Node)
    requires PlainLeaves(t)
    ensures PlainLeaves(NegateFirst(t))
  {
    if t.Expr? && IsJunction(t.op) && |t.kids| == 2 {
      assert t.kids[0] in t.kids && t.kids[1] in t.kids;
      NegateFirstPlain(t.kids[0]);
    }
  }

  lemma {:induction false} AndOntoPlain(a: Node, b: Node)
    requires PlainLeaves(a) && PlainLeaves(b)
    ensures PlainLeaves(AndOnto(a, b))
    decreases a, b
  {
    if IsDisjunction(a) {
      assert a.kids[0] in a.kids && a.kids[1] in a.kids;
      AndOntoPlain(a.kids[1], b);
    } else if IsDisjunction(b) {
      assert b.kids[0] in b.kids && b.kids[1] in b.kids;
      AndOntoPlain(a, b.kids[0]);
    }
  }

  lemma {:induction false} RegroupedPlain(n: Node)
    requires PlainLeaves(n)
    ensures PlainLeaves(Regrouped(n))
  {
    if n.Expr? && n.op.Bang? && |n.kids| == 1 {
      assert n.kids[0] in n.kids;
      RegroupedPlain(n.kids[0]);
      NegateFirstPlain(Regrouped(n.kids[0]));
    } else if n.Expr? && IsJunction(n.op) && |n.kids| == 2 {
      assert n.kids[0] in n.kids && n.kids[1] in n.kids;
      RegroupedPlain(n.kids[0]);
      RegroupedPlain(n.kids[1]);
      AndOntoPlain(Regrouped(n.kids[0]), Regrouped(n.kids[1]));
    }
  }

  lemma {:induction false} PlainStrings(n: Node)
    requires PlainLeaves(n)
    ensures StringsOnLeft(n) == 0
  {
    if n.Expr? && n.op.Bang? && |n.kids| == 1 {
      assert n.kids[0] in n.kids;
      PlainStrings(n.kids[0]);
    } else if n.Expr? && IsJunction(n.op) && |n.kids| == 2 {
      assert n.kids[0] in n.kids && n.kids[1] in n.kids;
      PlainStrings(n.kids[0]);
      PlainStrings(n.kids[1]);
    }
  }

  /** Without constants for flags and without `!=`, only the grouping decides, by the values in GN alone. */
  lemma GroupingKeptIff(n: Node, env: Env, store: Store, prepend: string, ctx: Context)
    requires Readable(n, prepend, ctx) && EvalCond(n, env).Some? && PlainLeaves(n)
    requires Related(env, store, prepend) && Clear(ctx, env, store, prepend)
    ensures Kept(n, env, store, prepend) <==> !NegatedTwice(n) && EvalCond(Regrouped(n), env) == EvalCond(n, env)
  {
    ConditionKeptIff(n, env, store, prepend, ctx);
    PlainStrings(n);
    RegroupedPlain(n);
    PlainValue(Regrouped(n), env, store, prepend);
  }

  // ----- a reference compared with a literal

  /** The text behind the reference, as a comparison takes it. */
  function Looked(t: string, store: Store): string {
    if t in store then store[t] else t
  }

  lemma EqualReduced(t: string, s: string, store: Store)
    ensures EvalParts([Given(Word(t)), STREQUAL, Given(Quoted(s))], store) ==
            if IsOtherTest(t) then None else Some(Looked(t, store) == s)
  {
    var ps := [Given(Word(t)), STREQUAL, Given(Quoted(s))];
    assert ps[0] in ps;
    OwnWordsOnly(STREQUAL);
    var found := Found(Looked(t, store) == s);
    assert ps[3..] == [] && Compare(ps, store) == [found] + Compare([], store);
    assert Compare([found], store) == [found];
    SingleReduced(found, store);
  }

  lemma MissingReduced(s: string, store: Store)
    ensures EvalParts([STREQUAL, Given(Quoted(s))], store) == None
  {
    var ps := [STREQUAL, Given(Quoted(s))];
    assert ps[1..] == [ps[1]] && ps[1..][1..] == [];
    assert Compare(ps[1..], store) == ps[1..];
    assert Compare(ps, store) == ps;
    assert Negate(ps[1..], store) == ps[1..];
    assert Negate(ps, store) == ps;
    assert Fold(AND, ps[1..], store) == ps[1..];
    assert Fold(AND, ps, store) == ps;
    assert Fold(OR, ps[1..], store) == ps[1..];
    assert Fold(OR, ps, store) == ps;
  }

  function ReferenceTest(v: string, s: string): Node {
    Expr(Binary(P.EqEq), [Expr(Binary(P.Plus), [Str(""), Var(v)]), Str(s)])
  }

  lemma ReferenceTestArgs(v: string, s: string, prepend: string)
    requires Name(v) && Inert(prepend + s)
    ensures var n := ReferenceTest(v, s);
            && Convert(n).Some?
            && Lexed(Emit(Convert(n).value, prepend).toks) == [Word(Reference(v)), Word("STREQUAL"), Quoted(prepend + s)]
  {
    var n, ctx := ReferenceTest(v, s), Context({}, {v}, {});
    assert OperandForm(n.kids[0], prepend, ctx) && OperandForm(n.kids[1], prepend, ctx);
    CondWritten(n, prepend, ctx);
    LexedApart(CondToks(n, prepend, ctx));
  }

  lemma ReferenceTestParts(a: Tok, b: Tok, c: Tok, p: Part, q: Part, store: Store)
    requires Parts([b], store) == [p] && Parts([c], store) == [q]
    ensures Parts([a, b, c], store) == Parts([a], store) + [p, q]
  {
    assert [a, b, c] == [a] + ([b] + [c]);
    PartsAppend([a], [b] + [c], store);
    PartsAppend([b], [c], store);
  }

  lemma ReferenceTestWritten(v: string, s: string, store: Store, prepend: string)
    requires Name(v) && Inert(prepend + s)
    ensures var n := ReferenceTest(v, s);
            && Convert(n).Some?
            && Evaluated(n, store, prepend) ==
               EvalParts(Words(Split(Get(store, v))) + [STREQUAL, Given(Quoted(prepend + s))], store)
  {
    ReferenceTestArgs(v, s, prepend);
    OnePart("STREQUAL", store);
    SubstituteText(prepend + s, store);
    ReferenceTestParts(Word(Reference(v)), Word("STREQUAL"), Quoted(prepend + s), STREQUAL,
                       Given(Quoted(prepend + s)), store);
    NameIsInert(v);
    SubstituteReference(v, store);
    assert Parts([Word(Reference(v))], store) == Words(Split(Get(store, v)));
  }

  lemma ReferenceEvaluated(v: string, s: string, env: Env, store: Store, prepend: string)
    requires IsString(env, v) && Related(env, store, prepend) && Inert(prepend + s)
    ensures var t := prepend + env[v].text;
            && Convert(ReferenceTest(v, s)).Some?
            && Evaluated(ReferenceTest(v, s), store, prepend) ==
               if t == "" || IsOtherTest(t) then None else Some(Looked(t, store) == prepend + s)
  {
    StringHeld(v, env, store, prepend);
    ReferenceTestWritten(v, s, store, prepend);
    TextCompared(prepend + env[v].text, prepend + s, store);
  }

  lemma TextCompared(t: string, s: string, store: Store)
    requires ';' !in t
    ensures EvalParts(Words(Split(t)) + [STREQUAL, Given(Quoted(s))], store) ==
            if t == "" || IsOtherTest(t) then None else Some(Looked(t, store) == s)
  {
    SplitOne(t);
    var q := Given(Quoted(s));
    if t == "" {
      assert Words([]) + [STREQUAL, q] == [STREQUAL, q];
      MissingReduced(s, store);
    } else {
      assert Words([t]) + [STREQUAL, q] == [Given(Word(t)), STREQUAL, q];
      EqualReduced(t, s, store);
    }
  }

  lemma ReferenceTestValue(v: string, s: string, env: Env)
    requires IsString(env, v) && '$' !in s && '\\' !in s
    ensures EvalCond(ReferenceTest(v, s), env) == Some(env[v].text == s)
  {
  }

  /**
    A reference to a string, compared with a literal: the text it stands for is looked up once more.
    The value is right exactly when there is a text, it is no other test of CMake, and it is not the
    name of a variable with another value that the literal could be mistaken for.
   */
  lemma ReferenceKeptIff(v: string, s: string, env: Env, store: Store, prepend: string)
    requires IsString(env, v) && Related(env, store, prepend) && Inert(prepend + s)
    ensures var t := prepend + env[v].text;
            Kept(ReferenceTest(v, s), env, store, prepend) <==>
            && t != "" && !IsOtherTest(t)
            && (t in store && store[t] != t ==> prepend + s != t && prepend + s != store[t])
  {
    ReferenceEvaluated(v, s, env, store, prepend);
    assert forall c :: c in s ==> c in prepend + s;
    ReferenceTestValue(v, s, env);
    PrefixInjective(prepend, env[v].text, s);
  }
}
