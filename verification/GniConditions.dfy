/**
  The conditions of a GN program: what is written for one, what of it survives without
  parentheses, and what CMake makes of it.
 */
module GniConditions {
  import P = Precedence
  import opened Prelude
  import opened GnAst
  import opened CMakeArguments
  import opened CMakeConditions
  import opened CMakeWriter
  import opened GniStore

  // ----- what is written, for every operator

  /** A leaf of a condition: a variable, a string, or the empty string plus a leaf that is no string. */
  function AtomTok(n: Node, prepend: string): Option<Tok> {
    match n
    case Var(v) => if v == "" then None else Some(Word(v))
    case Str(s) => Some(Quoted(prepend + s))
    case Expr(op, kids) =>
      if op == Binary(P.Plus) && |kids| == 2 && kids[0] == Str("") then
        var inner := AtomTok(kids[1], prepend);
        if inner.Some? && inner.value.Word? then Some(Word(Reference(inner.value.text))) else None
      else None
    case _ => None
  }

  predicate CondShape(n: Node, prepend: string) {
    || AtomTok(n, prepend).Some?
    || (n.Expr? && n.op.Bang? && |n.kids| == 1 && CondShape(n.kids[0], prepend))
    || (n.Expr? && n.op.Binary? && |n.kids| == 2 && CondShape(n.kids[0], prepend) && CondShape(n.kids[1], prepend))
  }

  /** The condition as the precedence grammar sees it, with the words of the output as leaves. */
  function CondTree(n: Node, prepend: string): P.Tree<Tok>
    requires CondShape(n, prepend)
  {
    if AtomTok(n, prepend).Some? then P.Atom(AtomTok(n, prepend).value)
    else if n.op.Bang? then P.Not(CondTree(n.kids[0], prepend))
    else P.Bin(n.op.op, CondTree(n.kids[0], prepend), CondTree(n.kids[1], prepend))
  }

  function Render(t: P.Token<Tok>): Tok {
    match t
    case Leaf(tok) => tok
    case Bang => OpTok(RenameOp(OpName.Bang))
    case Op(op) => OpTok(RenameOp(Binary(op)))
  }

  function RenderAll(ts: seq<P.Token<Tok>>): seq<Tok> {
    seq(|ts|, i requires 0 <= i < |ts| => Render(ts[i]))
  }

  lemma {:induction false} AtomWritten(n: Node, prepend: string)
    requires AtomTok(n, prepend).Some?
    ensures Convert(n).Some? && Emit(Convert(n).value, prepend) == Text([AtomTok(n, prepend).value], true)
    ensures AtomTok(n, prepend).value.Word? ==> Convert(n) == Some(Var(AtomTok(n, prepend).value.text))
    ensures AtomTok(n, prepend).value.Quoted? ==> Convert(n) == Some(n) && n.Str?
  {
    if n.Expr? {
      AtomWritten(n.kids[1], prepend);
      ConvertTwo(n.kids);
    }
  }

  /** What the writer prints for one operator with its operands. */
  lemma ExprWritten(op: OpName, kids: seq<Node>, prepend: string)
    requires |kids| == 1 || |kids| == 2
    requires forall k :: k in kids ==> Emit(k, prepend).ok
    ensures Emit(Expr(op, kids), prepend).ok
    ensures |kids| == 1 ==> Emit(Expr(op, kids), prepend).toks == [OpTok(op)] + Emit(kids[0], prepend).toks
    ensures |kids| == 2 ==> Emit(Expr(op, kids), prepend).toks ==
                            Emit(kids[0], prepend).toks + [OpTok(op)] + Emit(kids[1], prepend).toks
  {
  }

  lemma RenderBoth(a: seq<P.Token<Tok>>, t: P.Token<Tok>, b: seq<P.Token<Tok>>)
    ensures RenderAll(a + [t] + b) == RenderAll(a) + [Render(t)] + RenderAll(b)
  {
  }

  /** The operands of a condition never meet the special cases of `+`. */
  lemma SumStays(n: Node, l: Node, r: Node, prepend: string)
    requires n.Expr? && n.op == Binary(P.Plus) && |n.kids| == 2 && AtomTok(n, prepend).None?
    requires CondShape(n.kids[0], prepend) && CondShape(n.kids[1], prepend)
    requires Convert(n.kids[0]) == Some(l) && Convert(n.kids[1]) == Some(r)
    requires ConditionNode(n.kids[0], l, prepend) && ConditionNode(n.kids[1], r, prepend)
    ensures ConvertPlus([l, r]) == Some(Expr(Binary(P.Plus), [l, r]))
  {
  }

  /** What a condition converts to. */
  predicate ConditionNode(n: Node, c: Node, prepend: string)
    requires CondShape(n, prepend)
  {
    var atom := AtomTok(n, prepend);
    if atom.Some? then (if atom.value.Word? then c == Var(atom.value.text) else c == n && n.Str?)
    else c.Expr? && |c.kids| > 0
  }

  /** What is written for a condition: its tokens in order, with the operators renamed. */
  predicate WrittenAs(n: Node, prepend: string)
    requires CondShape(n, prepend)
  {
    && Convert(n).Some? && ConditionNode(n, Convert(n).value, prepend)
    && Emit(Convert(n).value, prepend).ok
    && Emit(Convert(n).value, prepend).toks == RenderAll(P.Flatten(CondTree(n, prepend)))
  }

  lemma NegationWritten(n: Node, prepend: string)
    requires CondShape(n, prepend) && AtomTok(n, prepend).None? && n.op.Bang? && WrittenAs(n.kids[0], prepend)
    ensures WrittenAs(n, prepend)
  {
    var a := P.Flatten(CondTree(n.kids[0], prepend));
    ConvertOne(n.kids);
    ExprWritten(NotWord, [Convert(n.kids[0]).value], prepend);
    RenderBoth([], P.Bang, a);
    assert [] + [P.Bang] + a == [P.Bang] + a;
    assert RenderAll([]) == [];
  }

  lemma BinaryWritten(n: Node, prepend: string)
    requires CondShape(n, prepend) && AtomTok(n, prepend).None? && n.op.Binary?
    requires WrittenAs(n.kids[0], prepend) && WrittenAs(n.kids[1], prepend)
    ensures WrittenAs(n, prepend)
  {
    var c, d := Convert(n.kids[0]).value, Convert(n.kids[1]).value;
    ConvertTwo(n.kids);
    if n.op == Binary(P.Plus) {
      SumStays(n, c, d, prepend);
    }
    ExprWritten(RenameOp(n.op), [c, d], prepend);
    RenderBoth(P.Flatten(CondTree(n.kids[0], prepend)), P.Op(n.op.op), P.Flatten(CondTree(n.kids[1], prepend)));
  }

  /** The writer prints the tokens of the condition in order, with the operators renamed. */
  lemma {:induction false} ConditionWritten(n: Node, prepend: string)
    requires CondShape(n, prepend)
    ensures WrittenAs(n, prepend)
  {
    if AtomTok(n, prepend).Some? {
      AtomWritten(n, prepend);
    } else {
      ConditionWritten(n.kids[0], prepend);
      if n.op.Bang? {
        NegationWritten(n, prepend);
      } else {
        ConditionWritten(n.kids[1], prepend);
        BinaryWritten(n, prepend);
      }
    }
  }

  // ----- reading the written condition back with the precedence table

  predicate IsOperatorWord(tok: Tok) {
    tok == Word("OR") || tok == Word("AND") || tok == Word("STREQUAL") || tok == Word("NOT")
  }

  function Token(tok: Tok): P.Token<Tok> {
    if tok == Word("OR") then P.Op(P.OrOr)
    else if tok == Word("AND") then P.Op(P.AndAnd)
    else if tok == Word("STREQUAL") then P.Op(P.EqEq)
    else if tok == Word("NOT") then P.Bang
    else if tok == Glue("!=") then P.Op(P.NotEq)
    else if tok == Glue(">") then P.Op(P.Gt)
    else if tok == Glue(">=") then P.Op(P.GtEq)
    else if tok == Glue("<") then P.Op(P.Lt)
    else if tok == Glue("<=") then P.Op(P.LtEq)
    else if tok == Glue("+") then P.Op(P.Plus)
    else if tok == Glue("-") then P.Op(P.Minus)
    else P.Leaf(tok)
  }

  function Tokens(toks: seq<Tok>): seq<P.Token<Tok>> {
    seq(|toks|, i requires 0 <= i < |toks| => Token(toks[i]))
  }

  lemma TokenOfOperator(op: P.BinOp)
    ensures Token(Render(P.Op(op))) == P.Op(op)
  {
  }

  lemma {:induction false} LeavesOfTree(n: Node, prepend: string)
    requires CondShape(n, prepend)
    ensures forall t :: t in P.Flatten(CondTree(n, prepend)) && t.Leaf? ==> t.leaf.Word? || t.leaf.Quoted?
  {
    if AtomTok(n, prepend).None? {
      LeavesOfTree(n.kids[0], prepend);
      if n.op.Binary? {
        LeavesOfTree(n.kids[1], prepend);
      }
    }
  }

  /** No leaf of the condition is a variable with the name of a CMake operator. */
  predicate LeavesStand(n: Node, prepend: string)
    requires CondShape(n, prepend)
  {
    forall t :: t in P.Flatten(CondTree(n, prepend)) && t.Leaf? ==> !IsOperatorWord(t.leaf)
  }

  lemma TokenReadBack(t: P.Token<Tok>)
    requires t.Leaf? ==> t.leaf.Word? || t.leaf.Quoted?
    ensures Token(Render(t)) == t <==> !(t.Leaf? && IsOperatorWord(t.leaf))
  {
    if t.Op? {
      TokenOfOperator(t.op);
    }
  }

  lemma TokensReadBack(ts: seq<P.Token<Tok>>)
    requires forall t :: t in ts && t.Leaf? ==> t.leaf.Word? || t.leaf.Quoted?
    ensures Tokens(RenderAll(ts)) == ts <==> forall t :: t in ts && t.Leaf? ==> !IsOperatorWord(t.leaf)
  {
    forall t | t in ts
      ensures Token(Render(t)) == t <==> !(t.Leaf? && IsOperatorWord(t.leaf))
    {
      TokenReadBack(t);
    }
    var read := Tokens(RenderAll(ts));
    assert forall i :: 0 <= i < |ts| ==> read[i] == Token(Render(ts[i])) && ts[i] in ts;
    if read == ts {
      forall t | t in ts
        ensures Token(Render(t)) == t
      {
        var i :| 0 <= i < |ts| && ts[i] == t;
        assert read[i] == ts[i];
      }
    }
  }

  /**
    Reading the written condition under the GN precedence table gives the condition back exactly
    when it needs no parentheses and no variable is named like one of the four words.
   */
  lemma WrittenConditionKept(n: Node, prepend: string)
    requires CondShape(n, prepend)
    ensures Convert(n).Some? && Emit(Convert(n).value, prepend).ok
    ensures P.Parse(Tokens(Emit(Convert(n).value, prepend).toks)) == P.Accepted(CondTree(n, prepend)) <==>
            P.ParenFree(CondTree(n, prepend)) && LeavesStand(n, prepend)
  {
    var t := CondTree(n, prepend);
    ConditionWritten(n, prepend);
    LeavesOfTree(n, prepend);
    TokensReadBack(P.Flatten(t));
    P.ParseIffParenFree(Tokens(RenderAll(P.Flatten(t))), t);
  }

  // ----- the conditions that GN evaluates

  /** The empty string plus a variable, which is how GN files spell a reference to a string. */
  predicate IsStringReference(n: Node) {
    n.Expr? && n.op == Binary(P.Plus) && |n.kids| == 2 && n.kids[0] == Str("") && n.kids[1].Var?
  }

  predicate OperandForm(n: Node, prepend: string, ctx: Context) {
    || (n.Str? && Inert(prepend + n.value))
    || (n.Var? && Name(n.name) && !IsKeyword(n.name))
    || (IsStringReference(n) && Name(n.kids[1].name) && n.kids[1].name in ctx.operands)
  }

  predicate IsComparison(op: OpName) {
    op == Binary(P.EqEq) || op == Binary(P.NotEq)
  }

  predicate IsJunction(op: OpName) {
    op == Binary(P.AndAnd) || op == Binary(P.OrOr)
  }

  /** Flags and comparisons of strings under negation, conjunction and disjunction, grouped in any way. */
  predicate Readable(n: Node, prepend: string, ctx: Context) {
    || (n.Var? && Name(n.name) && !IsKeyword(n.name))
    || (n.Expr? && n.op.Bang? && |n.kids| == 1 && Readable(n.kids[0], prepend, ctx))
    || (n.Expr? && IsJunction(n.op) && |n.kids| == 2 &&
        Readable(n.kids[0], prepend, ctx) && Readable(n.kids[1], prepend, ctx))
    || (n.Expr? && IsComparison(n.op) && |n.kids| == 2 &&
        OperandForm(n.kids[0], prepend, ctx) && OperandForm(n.kids[1], prepend, ctx))
  }

  lemma OperandIsAtom(n: Node, prepend: string, ctx: Context)
    requires OperandForm(n, prepend, ctx)
    ensures AtomTok(n, prepend) == Some(if n.Str? then Quoted(prepend + n.value) else if n.Var? then Word(n.name)
                                        else Word(Reference(n.kids[1].name)))
  {
    if n.Expr? {
      assert AtomTok(n.kids[1], prepend) == Some(Word(n.kids[1].name));
    }
  }

  lemma {:induction false} ReadableShape(n: Node, prepend: string, ctx: Context)
    requires Readable(n, prepend, ctx)
    ensures CondShape(n, prepend) && (AtomTok(n, prepend).Some? <==> n.Var?)
  {
    if n.Expr? {
      if IsComparison(n.op) {
        OperandIsAtom(n.kids[0], prepend, ctx);
        OperandIsAtom(n.kids[1], prepend, ctx);
        assert CondShape(n.kids[0], prepend) && CondShape(n.kids[1], prepend);
      } else {
        ReadableShape(n.kids[0], prepend, ctx);
        if |n.kids| == 2 {
          ReadableShape(n.kids[1], prepend, ctx);
        }
      }
    }
  }

  function OperandTok(n: Node, prepend: string): Tok {
    if n.Str? then Quoted(prepend + n.value) else if n.Var? then Word(n.name)
    else if IsStringReference(n) then Word(Reference(n.kids[1].name)) else Close
  }

  function JoinTok(op: OpName): Tok {
    if op == Binary(P.AndAnd) then Word("AND") else Word("OR")
  }

  /** The tokens written for a condition. */
  function CondToks(n: Node, prepend: string, ctx: Context): seq<Tok>
    requires Readable(n, prepend, ctx)
  {
    if n.Var? then [Word(n.name)]
    else if n.op.Bang? then [Word("NOT")] + CondToks(n.kids[0], prepend, ctx)
    else if IsJunction(n.op) then
      CondToks(n.kids[0], prepend, ctx) + [JoinTok(n.op)] + CondToks(n.kids[1], prepend, ctx)
    else
      var test := if n.op == Binary(P.EqEq) then Word("STREQUAL") else Glue("!=");
      [OperandTok(n.kids[0], prepend), test, OperandTok(n.kids[1], prepend)]
  }

  lemma {:induction false} ReadableWritten(n: Node, prepend: string, ctx: Context)
    requires Readable(n, prepend, ctx)
    ensures CondShape(n, prepend) && RenderAll(P.Flatten(CondTree(n, prepend))) == CondToks(n, prepend, ctx)
  {
    ReadableShape(n, prepend, ctx);
    if n.Expr? {
      var l := n.kids[0];
      if n.op.Bang? {
        ReadableWritten(l, prepend, ctx);
        var a := P.Flatten(CondTree(l, prepend));
        RenderBoth([], P.Bang, a);
        assert [] + [P.Bang] + a == [P.Bang] + a;
        assert RenderAll([]) == [];
      } else {
        var r := n.kids[1];
        if IsComparison(n.op) {
          OperandIsAtom(l, prepend, ctx);
          OperandIsAtom(r, prepend, ctx);
        } else {
          ReadableWritten(l, prepend, ctx);
          ReadableWritten(r, prepend, ctx);
        }
        RenderBoth(P.Flatten(CondTree(l, prepend)), P.Op(n.op.op), P.Flatten(CondTree(r, prepend)));
      }
    }
  }

  lemma CondWritten(n: Node, prepend: string, ctx: Context)
    requires Readable(n, prepend, ctx)
    ensures Convert(n).Some? && Emit(Convert(n).value, prepend) == Text(CondToks(n, prepend, ctx), true)
  {
    ReadableWritten(n, prepend, ctx);
    ConditionWritten(n, prepend);
  }

  // ----- the arguments CMake cuts it into

  /** The text of an operand inside an unquoted argument. */
  function Inside(r: Tok): string {
    if r.Word? then r.text else if r.Quoted? then "\"" + r.text + "\"" else ""
  }

  function CondArgs(n: Node, prepend: string, ctx: Context): seq<Tok>
    requires Readable(n, prepend, ctx)
  {
    if n.Var? then [Word(n.name)]
    else if n.op.Bang? then [Word("NOT")] + CondArgs(n.kids[0], prepend, ctx)
    else if IsJunction(n.op) then
      CondArgs(n.kids[0], prepend, ctx) + [JoinTok(n.op)] + CondArgs(n.kids[1], prepend, ctx)
    else if n.op == Binary(P.EqEq) then
      [OperandTok(n.kids[0], prepend), Word("STREQUAL"), OperandTok(n.kids[1], prepend)]
    else if n.kids[0].Str? then
      [OperandTok(n.kids[0], prepend), Word("!=" + Inside(OperandTok(n.kids[1], prepend)))]
    else [Word(Inside(OperandTok(n.kids[0], prepend)) + "!=" + Inside(OperandTok(n.kids[1], prepend)))]
  }

  predicate Apart(rest: seq<Tok>) {
    rest == [] || !rest[0].Glue?
  }

  lemma {:induction false} FirstTok(n: Node, prepend: string, ctx: Context)
    requires Readable(n, prepend, ctx)
    ensures CondToks(n, prepend, ctx) != [] && Apart(CondToks(n, prepend, ctx))
  {
    if n.Expr? && IsJunction(n.op) {
      FirstTok(n.kids[0], prepend, ctx);
    }
  }

  lemma LexOne(w: string, rest: seq<Tok>)
    requires Apart(rest)
    ensures Lexed([Word(w)] + rest) == [Word(w)] + Lexed(rest)
  {
    assert ([Word(w)] + rest)[1..] == rest;
  }

  lemma LexOperand(r: Tok, rest: seq<Tok>)
    requires Apart(rest) && (r.Word? || r.Quoted?)
    ensures Lexed([r] + rest) == [r] + Lexed(rest)
  {
    assert ([r] + rest)[1..] == rest;
  }

  lemma LexGlue(word: string, r: Tok, rest: seq<Tok>)
    requires Apart(rest) && (r.Word? || r.Quoted?)
    ensures LexGlued(word, [r] + rest) == [Word(word + Inside(r))] + Lexed(rest)
  {
    assert ([r] + rest)[1..] == rest;
    if r.Quoted? {
      assert word + "\"" + r.text + "\"" == word + Inside(r);
    }
  }

  lemma LexEqual(l: Tok, w: string, r: Tok, rest: seq<Tok>)
    requires Apart(rest) && (l.Word? || l.Quoted?) && (r.Word? || r.Quoted?)
    ensures Lexed([l, Word(w), r] + rest) == [l, Word(w), r] + Lexed(rest)
  {
    assert [l, Word(w), r] + rest == [l] + ([Word(w)] + ([r] + rest));
    LexOperand(l, [Word(w)] + ([r] + rest));
    LexOne(w, [r] + rest);
    LexOperand(r, rest);
  }

  lemma LexUnequal(l: Tok, g: string, r: Tok, rest: seq<Tok>)
    requires Apart(rest) && (l.Word? || l.Quoted?) && (r.Word? || r.Quoted?)
    ensures Lexed([l, Glue(g), r] + rest) ==
            (if l.Quoted? then [l, Word(g + Inside(r))] else [Word(l.text + g + Inside(r))]) + Lexed(rest)
  {
    var toks := [l, Glue(g), r] + rest;
    var after := [Glue(g)] + ([r] + rest);
    assert toks[1..] == after && after[1..] == [r] + rest;
    LexGlue(if l.Quoted? then g else l.text + g, r, rest);
  }

  lemma LexComparison(n: Node, prepend: string, ctx: Context, rest: seq<Tok>)
    requires Readable(n, prepend, ctx) && n.Expr? && IsComparison(n.op) && Apart(rest)
    ensures Lexed(CondToks(n, prepend, ctx) + rest) == CondArgs(n, prepend, ctx) + Lexed(rest)
  {
    var l, r := OperandTok(n.kids[0], prepend), OperandTok(n.kids[1], prepend);
    if n.op == Binary(P.EqEq) {
      LexEqual(l, "STREQUAL", r, rest);
    } else {
      LexUnequal(l, "!=", r, rest);
    }
  }

  lemma LexJoined(l: seq<Tok>, l': seq<Tok>, w: string, r: seq<Tok>, r': seq<Tok>, rest: seq<Tok>)
    requires r != [] && Apart(r)
    requires Lexed(l + ([Word(w)] + (r + rest))) == l' + Lexed([Word(w)] + (r + rest))
    requires Lexed(r + rest) == r' + Lexed(rest)
    ensures Lexed(l + [Word(w)] + r + rest) == l' + [Word(w)] + r' + Lexed(rest)
  {
    assert l + [Word(w)] + r + rest == l + ([Word(w)] + (r + rest));
    LexOne(w, r + rest);
  }

  lemma LexNegated(r: seq<Tok>, r': seq<Tok>, w: string, rest: seq<Tok>)
    requires r != [] && Apart(r) && Lexed(r + rest) == r' + Lexed(rest)
    ensures Lexed([Word(w)] + r + rest) == [Word(w)] + r' + Lexed(rest)
  {
    assert [Word(w)] + r + rest == [Word(w)] + (r + rest);
    LexOne(w, r + rest);
  }

  lemma {:induction false} LexCondition(n: Node, prepend: string, ctx: Context, rest: seq<Tok>)
    requires Readable(n, prepend, ctx) && Apart(rest)
    ensures Lexed(CondToks(n, prepend, ctx) + rest) == CondArgs(n, prepend, ctx) + Lexed(rest)
    decreases n
  {
    if n.Var? {
      LexOne(n.name, rest);
    } else if n.op.Bang? {
      var k := n.kids[0];
      FirstTok(k, prepend, ctx);
      LexCondition(k, prepend, ctx, rest);
      LexNegated(CondToks(k, prepend, ctx), CondArgs(k, prepend, ctx), "NOT", rest);
    } else if IsJunction(n.op) {
      var a, b, join := n.kids[0], n.kids[1], JoinTok(n.op).text;
      var r := CondToks(b, prepend, ctx);
      FirstTok(b, prepend, ctx);
      LexCondition(a, prepend, ctx, [Word(join)] + (r + rest));
      LexCondition(b, prepend, ctx, rest);
      LexJoined(CondToks(a, prepend, ctx), CondArgs(a, prepend, ctx), join, r, CondArgs(b, prepend, ctx), rest);
    } else {
      LexComparison(n, prepend, ctx, rest);
    }
  }

  // ----- the parts they expand to

  function OperandPart(n: Node, env: Env, prepend: string): Part
    requires EvalString(n, env).Some?
  {
    if n.Str? then Given(Quoted(prepend + n.value)) else if n.Var? then Given(Word(n.name))
    else Given(Word(prepend + EvalString(n, env).value))
  }

  /** What an operand adds to an unquoted argument it is written against. */
  function InsideText(n: Node, env: Env, prepend: string): string
    requires EvalString(n, env).Some?
  {
    if n.Str? then "\"" + (prepend + n.value) + "\"" else if n.Var? then n.name
    else prepend + EvalString(n, env).value
  }

  function CondParts(n: Node, env: Env, prepend: string, ctx: Context): seq<Part>
    requires Readable(n, prepend, ctx) && EvalCond(n, env).Some?
  {
    if n.Var? then [Given(Word(n.name))]
    else if n.op.Bang? then [NOT] + CondParts(n.kids[0], env, prepend, ctx)
    else if IsJunction(n.op) then
      CondParts(n.kids[0], env, prepend, ctx) + [Given(JoinTok(n.op))] + CondParts(n.kids[1], env, prepend, ctx)
    else if n.op == Binary(P.EqEq) then
      [OperandPart(n.kids[0], env, prepend), STREQUAL, OperandPart(n.kids[1], env, prepend)]
    else if n.kids[0].Str? then
      [OperandPart(n.kids[0], env, prepend), Given(Word("!=" + InsideText(n.kids[1], env, prepend)))]
    else [Given(Word(InsideText(n.kids[0], env, prepend) + "!=" + InsideText(n.kids[1], env, prepend)))]
  }

  lemma OnePart(w: string, store: Store)
    requires w != "" && '$' !in w && ';' !in w
    ensures Parts([Word(w)], store) == [Given(Word(w))]
  {
    WordExpands(w, store);
    assert Words([w]) == [Given(Word(w))];
  }

  /** A string variable holds its text under the prefix. */
  lemma StringHeld(v: string, env: Env, store: Store, prepend: string)
    requires IsString(env, v) && Related(env, store, prepend)
    ensures Name(v) && v in store && store[v] == prepend + env[v].text && Inert(store[v])
  {
    assert Matches(env[v], v, store, prepend);
  }

  lemma OperandParts(n: Node, env: Env, store: Store, prepend: string, ctx: Context)
    requires OperandForm(n, prepend, ctx) && EvalString(n, env).Some?
    requires Related(env, store, prepend) && Clear(ctx, env, store, prepend)
    ensures Parts([OperandTok(n, prepend)], store) == [OperandPart(n, env, prepend)]
    ensures IsOperand(OperandPart(n, env, prepend))
    ensures TextOf(OperandPart(n, env, prepend), store) == prepend + EvalString(n, env).value
  {
    if n.Str? {
      SubstituteText(prepend + n.value, store);
    } else if n.Var? {
      NameIsInert(n.name);
      OnePart(n.name, store);
      StringHeld(n.name, env, store, prepend);
    } else {
      var v := n.kids[1].name;
      StringHeld(v, env, store, prepend);
      ReferenceExpands(v, store);
      SplitOne(store[v]);
      assert Standing(prepend + env[v].text, ctx.names);
      assert Words([store[v]]) == [Given(Word(store[v]))];
    }
  }

  lemma InsideScanned(n: Node, rest: string, text: string, env: Env, store: Store, prepend: string, ctx: Context)
    requires OperandForm(n, prepend, ctx) && EvalString(n, env).Some? && Related(env, store, prepend)
    ensures Scan(Inside(OperandTok(n, prepend)) + rest, [text], store) ==
            Scan(rest, [text + InsideText(n, env, prepend)], store)
    ensures ';' !in InsideText(n, env, prepend)
  {
    var t := Inside(OperandTok(n, prepend));
    if n.Expr? {
      var v := n.kids[1].name;
      StringHeld(v, env, store, prepend);
      NameIsInert(v);
      ScanReference(v, rest, text, store);
    } else {
      if n.Var? {
        NameIsInert(n.name);
      }
      ScanText(t, rest, [text], store);
      assert [text][..0] + [text + t] == [text + t];
    }
  }

  lemma TailScanned(g: string, r: Node, text: string, env: Env, store: Store, prepend: string, ctx: Context)
    requires OperandForm(r, prepend, ctx) && EvalString(r, env).Some? && Related(env, store, prepend) && '$' !in g
    ensures Scan(g + Inside(OperandTok(r, prepend)), [text], store) == text + g + InsideText(r, env, prepend)
  {
    var inside := Inside(OperandTok(r, prepend));
    ScanText(g, inside, [text], store);
    assert [text][..0] + [text + g] == [text + g];
    InsideScanned(r, "", text + g, env, store, prepend, ctx);
    assert inside + "" == inside;
  }

  lemma OneWord(w: string, v: string, store: Store)
    requires Substitute(w, store) == v && v != "" && ';' !in v
    ensures Parts([Word(w)], store) == [Given(Word(v))]
  {
    SplitOne(v);
    assert Words([v]) == [Given(Word(v))];
  }

  /** Text written against an operand makes one word with it. */
  lemma GluedTail(g: string, r: Node, env: Env, store: Store, prepend: string, ctx: Context)
    requires OperandForm(r, prepend, ctx) && EvalString(r, env).Some? && Related(env, store, prepend)
    requires g != "" && '$' !in g && ';' !in g
    ensures Parts([Word(g + Inside(OperandTok(r, prepend)))], store) == [Given(Word(g + InsideText(r, env, prepend)))]
  {
    TailScanned(g, r, "", env, store, prepend, ctx);
    assert "" + g == g;
    InsideScanned(r, "", "", env, store, prepend, ctx);
    OneWord(g + Inside(OperandTok(r, prepend)), g + InsideText(r, env, prepend), store);
  }

  lemma GluedTexts(a: string, va: string, g: string, b: string, vb: string, store: Store)
    requires Scan(a + (g + b), [""], store) == Scan(g + b, ["" + va], store)
    requires Scan(g + b, [va], store) == va + g + vb
    requires g != "" && ';' !in g && ';' !in va && ';' !in vb
    ensures Parts([Word(a + g + b)], store) == [Given(Word(va + g + vb))]
  {
    assert "" + va == va && a + g + b == a + (g + b);
    OneWord(a + g + b, va + g + vb, store);
  }

  /** Two operands around an operator without blanks make one word. */
  lemma GluedBoth(l: Node, g: string, r: Node, env: Env, store: Store, prepend: string, ctx: Context)
    requires OperandForm(l, prepend, ctx) && EvalString(l, env).Some?
    requires OperandForm(r, prepend, ctx) && EvalString(r, env).Some? && Related(env, store, prepend)
    requires g != "" && '$' !in g && ';' !in g
    ensures Parts([Word(Inside(OperandTok(l, prepend)) + g + Inside(OperandTok(r, prepend)))], store) ==
            [Given(Word(InsideText(l, env, prepend) + g + InsideText(r, env, prepend)))]
  {
    var a, b := Inside(OperandTok(l, prepend)), Inside(OperandTok(r, prepend));
    var va, vb := InsideText(l, env, prepend), InsideText(r, env, prepend);
    InsideScanned(l, g + b, "", env, store, prepend, ctx);
    TailScanned(g, r, va, env, store, prepend, ctx);
    InsideScanned(r, "", "", env, store, prepend, ctx);
    GluedTexts(a, va, g, b, vb, store);
  }

  lemma PartsThree(a: Tok, p: Part, b: Tok, q: Part, c: Tok, r: Part, store: Store)
    requires Parts([a], store) == [p] && Parts([b], store) == [q] && Parts([c], store) == [r]
    ensures Parts([a, b, c], store) == [p, q, r]
  {
    assert [a, b, c] == [a] + [b] + [c];
    PartsAppend([a] + [b], [c], store);
    PartsAppend([a], [b], store);
  }

  lemma EqualParts(n: Node, env: Env, store: Store, prepend: string, ctx: Context)
    requires Readable(n, prepend, ctx) && n.Expr? && n.op == Binary(P.EqEq) && EvalCond(n, env).Some?
    requires Related(env, store, prepend) && Clear(ctx, env, store, prepend)
    ensures Parts(CondArgs(n, prepend, ctx), store) == CondParts(n, env, prepend, ctx)
  {
    var l, r := n.kids[0], n.kids[1];
    OperandParts(l, env, store, prepend, ctx);
    OperandParts(r, env, store, prepend, ctx);
    OnePart("STREQUAL", store);
    PartsThree(OperandTok(l, prepend), OperandPart(l, env, prepend), Word("STREQUAL"), STREQUAL,
               OperandTok(r, prepend), OperandPart(r, env, prepend), store);
  }

  lemma UnequalParts(n: Node, env: Env, store: Store, prepend: string, ctx: Context)
    requires Readable(n, prepend, ctx) && n.Expr? && n.op == Binary(P.NotEq) && EvalCond(n, env).Some?
    requires Related(env, store, prepend) && Clear(ctx, env, store, prepend)
    ensures Parts(CondArgs(n, prepend, ctx), store) == CondParts(n, env, prepend, ctx)
  {
    var l, r, g := n.kids[0], n.kids[1], "!=";
    if l.Str? {
      var first, second := OperandTok(l, prepend), Word(g + Inside(OperandTok(r, prepend)));
      OperandParts(l, env, store, prepend, ctx);
      GluedTail(g, r, env, store, prepend, ctx);
      PartsAppend([first], [second], store);
      assert CondArgs(n, prepend, ctx) == [first] + [second];
    } else {
      GluedBoth(l, g, r, env, store, prepend, ctx);
    }
  }

  lemma OwnTexts(op: OpName)
    ensures var w := JoinTok(op).text; w != "" && '$' !in w && ';' !in w && JoinTok(op) == Word(w)
    ensures "NOT" != "" && '$' !in "NOT" && ';' !in "NOT"
  {
  }

  lemma PartsJoined(l: seq<Tok>, l': seq<Part>, w: string, r: seq<Tok>, r': seq<Part>, store: Store)
    requires Parts(l, store) == l' && Parts(r, store) == r' && w != "" && '$' !in w && ';' !in w
    ensures Parts(l + [Word(w)] + r, store) == l' + [Given(Word(w))] + r'
  {
    OnePart(w, store);
    PartsAppend(l + [Word(w)], r, store);
    PartsAppend(l, [Word(w)], store);
  }

  lemma PartsNegated(r: seq<Tok>, r': seq<Part>, w: string, store: Store)
    requires Parts(r, store) == r' && w != "" && '$' !in w && ';' !in w
    ensures Parts([Word(w)] + r, store) == [Given(Word(w))] + r'
  {
    OnePart(w, store);
    PartsAppend([Word(w)], r, store);
  }

  lemma {:induction false} ConditionParts(n: Node, env: Env, store: Store, prepend: string, ctx: Context)
    requires Readable(n, prepend, ctx) && EvalCond(n, env).Some?
    requires Related(env, store, prepend) && Clear(ctx, env, store, prepend)
    ensures Parts(CondArgs(n, prepend, ctx), store) == CondParts(n, env, prepend, ctx)
  {
    if n.Var? {
      NameIsInert(n.name);
      OnePart(n.name, store);
    } else if n.op.Bang? {
      ConditionParts(n.kids[0], env, store, prepend, ctx);
      OwnTexts(n.op);
      PartsNegated(CondArgs(n.kids[0], prepend, ctx), CondParts(n.kids[0], env, prepend, ctx), "NOT", store);
    } else if IsJunction(n.op) {
      ConditionParts(n.kids[0], env, store, prepend, ctx);
      ConditionParts(n.kids[1], env, store, prepend, ctx);
      OwnTexts(n.op);
      PartsJoined(CondArgs(n.kids[0], prepend, ctx), CondParts(n.kids[0], env, prepend, ctx), JoinTok(n.op).text,
                  CondArgs(n.kids[1], prepend, ctx), CondParts(n.kids[1], env, prepend, ctx), store);
    } else if n.op == Binary(P.EqEq) {
      EqualParts(n, env, store, prepend, ctx);
    } else {
      UnequalParts(n, env, store, prepend, ctx);
    }
  }

  // ----- after the comparisons

  function ComparedParts(n: Node, env: Env, prepend: string, ctx: Context): seq<Part>
    requires Readable(n, prepend, ctx) && EvalCond(n, env).Some?
  {
    if n.Var? then [Given(Word(n.name))]
    else if n.op.Bang? then [NOT] + ComparedParts(n.kids[0], env, prepend, ctx)
    else if IsJunction(n.op) then
      ComparedParts(n.kids[0], env, prepend, ctx) + [Given(JoinTok(n.op))] +
      ComparedParts(n.kids[1], env, prepend, ctx)
    else if n.op == Binary(P.EqEq) then [Found(EvalCond(n, env).value)]
    else CondParts(n, env, prepend, ctx)
  }

  /** Nothing that follows can be taken for the second half of a comparison. */
  predicate Ended(rest: seq<Part>) {
    rest == [] || IsJoin(rest[0])
  }

  lemma CompareSkips(p: Part, rest: seq<Part>, store: Store)
    requires rest == [] || rest[0] != STREQUAL
    ensures Compare([p] + rest, store) == [p] + Compare(rest, store)
  {
    assert ([p] + rest)[1..] == rest;
  }

  lemma GluedIsOperand(a: string, g: string, b: string)
    requires '!' in g
    ensures IsOperand(Given(Word(a + g + b)))
  {
    var w := a + g + b;
    var i :| 0 <= i < |g| && g[i] == '!';
    assert w[|a| + i] == '!' && w[|a| + i] in w;
    if IsKeyword(w) {
      KeywordChars(w);
    }
  }

  /** The operands of a comparison that is not renamed. */
  lemma UnequalOperands(n: Node, env: Env, store: Store, prepend: string, ctx: Context)
    requires Readable(n, prepend, ctx) && n.Expr? && n.op == Binary(P.NotEq) && EvalCond(n, env).Some?
    requires Related(env, store, prepend) && Clear(ctx, env, store, prepend)
    ensures |CondParts(n, env, prepend, ctx)| == if n.kids[0].Str? then 2 else 1
    ensures forall p :: p in CondParts(n, env, prepend, ctx) ==> IsOperand(p)
  {
    var l, r := n.kids[0], n.kids[1];
    OperandParts(l, env, store, prepend, ctx);
    var b := InsideText(r, env, prepend);
    GluedIsOperand("", "!=", b);
    assert "" + "!=" + b == "!=" + b;
    GluedIsOperand(InsideText(l, env, prepend), "!=", b);
  }

  lemma {:induction false} FirstPart(n: Node, env: Env, store: Store, prepend: string, ctx: Context)
    requires Readable(n, prepend, ctx) && EvalCond(n, env).Some?
    requires Related(env, store, prepend) && Clear(ctx, env, store, prepend)
    ensures var ps := CondParts(n, env, prepend, ctx); ps != [] && (IsOperand(ps[0]) || ps[0] == NOT)
  {
    if n.Expr? {
      if IsJunction(n.op) {
        FirstPart(n.kids[0], env, store, prepend, ctx);
      } else if n.op == Binary(P.EqEq) {
        OperandParts(n.kids[0], env, store, prepend, ctx);
      } else if n.op == Binary(P.NotEq) {
        UnequalOperands(n, env, store, prepend, ctx);
      }
    }
  }

  lemma CompareEqual(n: Node, rest: seq<Part>, env: Env, store: Store, prepend: string, ctx: Context)
    requires Readable(n, prepend, ctx) && n.Expr? && n.op == Binary(P.EqEq) && EvalCond(n, env).Some?
    requires Related(env, store, prepend) && Clear(ctx, env, store, prepend)
    ensures Compare(CondParts(n, env, prepend, ctx) + rest, store) ==
            ComparedParts(n, env, prepend, ctx) + Compare(rest, store)
  {
    var l, r := n.kids[0], n.kids[1];
    OperandParts(l, env, store, prepend, ctx);
    OperandParts(r, env, store, prepend, ctx);
    PrefixInjective(prepend, EvalString(l, env).value, EvalString(r, env).value);
    var ps := CondParts(n, env, prepend, ctx) + rest;
    assert ps[3..] == rest;
  }

  lemma CompareTwo(p: Part, q: Part, rest: seq<Part>, store: Store)
    requires q != STREQUAL && Ended(rest)
    ensures Compare([p] + [q] + rest, store) == [p] + [q] + Compare(rest, store)
  {
    assert [p] + [q] + rest == [p] + ([q] + rest);
    CompareSkips(p, [q] + rest, store);
    CompareSkips(q, rest, store);
  }

  lemma CompareOperands(ps: seq<Part>, rest: seq<Part>, store: Store)
    requires (|ps| == 1 || |ps| == 2) && (forall p :: p in ps ==> IsOperand(p)) && Ended(rest)
    ensures Compare(ps + rest, store) == ps + Compare(rest, store)
  {
    if |ps| == 1 {
      assert ps == [ps[0]];
      CompareSkips(ps[0], rest, store);
    } else {
      assert ps[1] in ps && ps == [ps[0]] + [ps[1]];
      CompareTwo(ps[0], ps[1], rest, store);
    }
  }

  lemma CompareUnequal(n: Node, rest: seq<Part>, env: Env, store: Store, prepend: string, ctx: Context)
    requires Readable(n, prepend, ctx) && n.Expr? && n.op == Binary(P.NotEq) && EvalCond(n, env).Some?
    requires Related(env, store, prepend) && Clear(ctx, env, store, prepend) && Ended(rest)
    ensures Compare(CondParts(n, env, prepend, ctx) + rest, store) == CondParts(n, env, prepend, ctx) + Compare(rest, store)
  {
    UnequalOperands(n, env, store, prepend, ctx);
    CompareOperands(CondParts(n, env, prepend, ctx), rest, store);
  }

  /** Two compared stretches with a join between them. */
  lemma CompareJoined(l: seq<Part>, l': seq<Part>, join: Part, r: seq<Part>, r': seq<Part>, rest: seq<Part>, store: Store)
    requires r != [] && r[0] != STREQUAL
    requires Compare(l + ([join] + (r + rest)), store) == l' + Compare([join] + (r + rest), store)
    requires Compare(r + rest, store) == r' + Compare(rest, store)
    ensures Compare(l + [join] + r + rest, store) == l' + [join] + r' + Compare(rest, store)
  {
    Regroup(l, join, r, rest);
    CompareSkips(join, r + rest, store);
    Regroup(l', join, r', Compare(rest, store));
  }

  lemma CompareNegated(a: seq<Part>, a': seq<Part>, rest: seq<Part>, store: Store)
    requires a != [] && a[0] != STREQUAL && Compare(a + rest, store) == a' + Compare(rest, store)
    ensures Compare([NOT] + a + rest, store) == [NOT] + a' + Compare(rest, store)
  {
    assert [NOT] + a + rest == [NOT] + (a + rest);
    CompareSkips(NOT, a + rest, store);
  }

  lemma {:induction false} ConditionCompared(n: Node, rest: seq<Part>, env: Env, store: Store, prepend: string, ctx: Context)
    requires Readable(n, prepend, ctx) && EvalCond(n, env).Some?
    requires Related(env, store, prepend) && Clear(ctx, env, store, prepend) && Ended(rest)
    ensures Compare(CondParts(n, env, prepend, ctx) + rest, store) ==
            ComparedParts(n, env, prepend, ctx) + Compare(rest, store)
    decreases n
  {
    if n.Var? {
      CompareSkips(Given(Word(n.name)), rest, store);
    } else if n.op.Bang? {
      var k := n.kids[0];
      FirstPart(k, env, store, prepend, ctx);
      ConditionCompared(k, rest, env, store, prepend, ctx);
      CompareNegated(CondParts(k, env, prepend, ctx), ComparedParts(k, env, prepend, ctx), rest, store);
    } else if IsJunction(n.op) {
      var a, b, join := n.kids[0], n.kids[1], Given(JoinTok(n.op));
      var l, r := CondParts(a, env, prepend, ctx), CondParts(b, env, prepend, ctx);
      ConditionCompared(a, [join] + (r + rest), env, store, prepend, ctx);
      FirstPart(b, env, store, prepend, ctx);
      ConditionCompared(b, rest, env, store, prepend, ctx);
      CompareJoined(l, ComparedParts(a, env, prepend, ctx), join, r, ComparedParts(b, env, prepend, ctx), rest, store);
    } else if n.op == Binary(P.EqEq) {
      CompareEqual(n, rest, env, store, prepend, ctx);
    } else {
      CompareUnequal(n, rest, env, store, prepend, ctx);
    }
  }

  // ----- exactly which conditions CMake can evaluate

  /** The condition starts with a negation. */
  predicate StartsNegated(n: Node) {
    n.Expr? && (n.op.Bang? || (IsJunction(n.op) && |n.kids| == 2 && StartsNegated(n.kids[0])))
  }

  /** Somewhere a negation is applied to a condition that starts with one. */
  predicate NegatedTwice(n: Node) {
    n.Expr? &&
    ((n.op.Bang? && |n.kids| == 1 && (StartsNegated(n.kids[0]) || NegatedTwice(n.kids[0]))) ||
     (IsJunction(n.op) && |n.kids| == 2 && (NegatedTwice(n.kids[0]) || NegatedTwice(n.kids[1]))))
  }

  /** The number of `!=` tests that have a string on the left. */
  function StringsOnLeft(n: Node): nat {
    if !n.Expr? then 0
    else if n.op.Bang? && |n.kids| == 1 then StringsOnLeft(n.kids[0])
    else if IsJunction(n.op) && |n.kids| == 2 then StringsOnLeft(n.kids[0]) + StringsOnLeft(n.kids[1])
    else if n.op == Binary(P.NotEq) && |n.kids| == 2 && n.kids[0].Str? then 1
    else 0
  }

  lemma JointTwo(a: Part, b: Part, rest: seq<Part>)
    requires IsOperand(a) && IsOperand(b) && Joint(rest, false)
    ensures Joint([a] + rest, true) && Joint([a, b] + rest, true)
  {
    assert ([a, b] + rest)[1..] == [b] + rest && ([b] + rest)[1..] == rest && ([a] + rest)[1..] == rest;
  }

  lemma {:induction false} ExcessAppend(a: seq<Part>, b: seq<Part>)
    ensures Excess(a + b) == Excess(a) + Excess(b)
  {
    if a == [] {
      assert a + b == b;
    } else {
      assert (a + b)[1..] == a[1..] + b;
      ExcessAppend(a[1..], b);
    }
  }

  lemma JointJoined(l: seq<Part>, join: Part, r: seq<Part>, rest: seq<Part>)
    requires IsJoin(join) && Joint(r + rest, true)
    requires Joint([join] + (r + rest), false) ==> Joint(l + ([join] + (r + rest)), true)
    ensures Joint(l + [join] + r + rest, true)
  {
    var after := [join] + (r + rest);
    assert after[1..] == r + rest;
    assert l + [join] + r + rest == l + after;
  }

  lemma JointNegated(a: seq<Part>, rest: seq<Part>)
    requires Joint(a + rest, true)
    ensures Joint([NOT] + a + rest, true)
  {
    assert ([NOT] + a + rest)[1..] == a + rest;
  }

  lemma UnequalJoint(ps: seq<Part>, rest: seq<Part>)
    requires (|ps| == 1 || |ps| == 2) && (forall p :: p in ps ==> IsOperand(p)) && Joint(rest, false)
    ensures Joint(ps + rest, true)
  {
    assert ps[0] in ps;
    if |ps| == 2 {
      assert ps[1] in ps && ps == [ps[0], ps[1]];
      JointTwo(ps[0], ps[1], rest);
    } else {
      assert ps == [ps[0]];
      JointTwo(ps[0], ps[0], rest);
    }
  }

  lemma {:induction false} ComparedJoint(n: Node, rest: seq<Part>, env: Env, store: Store, prepend: string, ctx: Context)
    requires Readable(n, prepend, ctx) && EvalCond(n, env).Some?
    requires Related(env, store, prepend) && Clear(ctx, env, store, prepend) && Joint(rest, false)
    ensures Joint(ComparedParts(n, env, prepend, ctx) + rest, true)
    decreases n
  {
    if n.Var? {
      UnequalJoint(ComparedParts(n, env, prepend, ctx), rest);
    } else if n.op.Bang? {
      ComparedJoint(n.kids[0], rest, env, store, prepend, ctx);
      JointNegated(ComparedParts(n.kids[0], env, prepend, ctx), rest);
    } else if IsJunction(n.op) {
      var join, r := Given(JoinTok(n.op)), ComparedParts(n.kids[1], env, prepend, ctx);
      ComparedJoint(n.kids[1], rest, env, store, prepend, ctx);
      if Joint([join] + (r + rest), false) {
        ComparedJoint(n.kids[0], [join] + (r + rest), env, store, prepend, ctx);
      }
      JointJoined(ComparedParts(n.kids[0], env, prepend, ctx), join, r, rest);
    } else {
      if n.op == Binary(P.NotEq) {
        UnequalOperands(n, env, store, prepend, ctx);
      }
      UnequalJoint(ComparedParts(n, env, prepend, ctx), rest);
    }
  }

  lemma {:induction false} ComparedExcess(n: Node, env: Env, store: Store, prepend: string, ctx: Context)
    requires Readable(n, prepend, ctx) && EvalCond(n, env).Some?
    requires Related(env, store, prepend) && Clear(ctx, env, store, prepend)
    ensures Excess(ComparedParts(n, env, prepend, ctx)) == 1 + StringsOnLeft(n)
  {
    var ps := ComparedParts(n, env, prepend, ctx);
    if n.Var? {
      ExcessOfOperands(ps);
    } else if n.op.Bang? {
      ComparedExcess(n.kids[0], env, store, prepend, ctx);
      assert ps[1..] == ComparedParts(n.kids[0], env, prepend, ctx);
    } else if IsJunction(n.op) {
      var join := Given(JoinTok(n.op));
      ComparedExcess(n.kids[0], env, store, prepend, ctx);
      ComparedExcess(n.kids[1], env, store, prepend, ctx);
      ExcessAppend(ComparedParts(n.kids[0], env, prepend, ctx) + [join], ComparedParts(n.kids[1], env, prepend, ctx));
      ExcessAppend(ComparedParts(n.kids[0], env, prepend, ctx), [join]);
      assert Excess([join]) == -1;
    } else if n.op == Binary(P.EqEq) {
      ExcessOfOperands(ps);
    } else {
      UnequalOperands(n, env, store, prepend, ctx);
      ExcessOfOperands(ps);
    }
  }

  lemma {:induction false} DoubledJoined(a: seq<Part>, join: Part, b: seq<Part>)
    requires IsJoin(join)
    ensures Doubled(a + [join] + b) <==> Doubled(a) || Doubled(b)
  {
    var all := a + [join] + b;
    if a == [] {
      assert all[1..] == b;
    } else {
      assert all[1..] == a[1..] + [join] + b;
      DoubledJoined(a[1..], join, b);
    }
  }

  lemma {:induction false} ComparedDoubled(n: Node, env: Env, store: Store, prepend: string, ctx: Context)
    requires Readable(n, prepend, ctx) && EvalCond(n, env).Some?
    requires Related(env, store, prepend) && Clear(ctx, env, store, prepend)
    ensures var ps := ComparedParts(n, env, prepend, ctx);
            ps != [] && (ps[0] == NOT <==> StartsNegated(n)) && (Doubled(ps) <==> NegatedTwice(n))
  {
    var ps := ComparedParts(n, env, prepend, ctx);
    if n.Expr? {
      if n.op.Bang? {
        ComparedDoubled(n.kids[0], env, store, prepend, ctx);
        assert ps[1..] == ComparedParts(n.kids[0], env, prepend, ctx);
      } else if IsJunction(n.op) {
        ComparedDoubled(n.kids[0], env, store, prepend, ctx);
        ComparedDoubled(n.kids[1], env, store, prepend, ctx);
        DoubledJoined(ComparedParts(n.kids[0], env, prepend, ctx), Given(JoinTok(n.op)),
                      ComparedParts(n.kids[1], env, prepend, ctx));
      } else if n.op == Binary(P.NotEq) {
        UnequalOperands(n, env, store, prepend, ctx);
        assert ps[0] in ps && (|ps| == 2 ==> ps[1] in ps);
      }
    }
  }

  predicate OwnWord(p: Part) {
    p == NOT || p == AND || p == OR || p == STREQUAL
  }

  lemma OwnWordsOnly(p: Part)
    requires IsOperand(p) || OwnWord(p)
    ensures !(p.Given? && p.arg.Word? && IsOtherTest(p.arg.text))
  {
  }

  lemma {:induction false} ConditionWords(n: Node, env: Env, store: Store, prepend: string, ctx: Context)
    requires Readable(n, prepend, ctx) && EvalCond(n, env).Some?
    requires Related(env, store, prepend) && Clear(ctx, env, store, prepend)
    ensures forall p :: p in CondParts(n, env, prepend, ctx) ==> IsOperand(p) || OwnWord(p)
  {
    if n.Expr? {
      if n.op.Bang? {
        ConditionWords(n.kids[0], env, store, prepend, ctx);
      } else if IsJunction(n.op) {
        ConditionWords(n.kids[0], env, store, prepend, ctx);
        ConditionWords(n.kids[1], env, store, prepend, ctx);
      } else if n.op == Binary(P.EqEq) {
        OperandParts(n.kids[0], env, store, prepend, ctx);
        OperandParts(n.kids[1], env, store, prepend, ctx);
      } else {
        UnequalOperands(n, env, store, prepend, ctx);
      }
    }
  }

  /** What CMake computes from the text written for a condition. */
  function Evaluated(n: Node, store: Store, prepend: string): Option<bool>
    requires Convert(n).Some?
  {
    EvalCondition(Lexed(Emit(Convert(n).value, prepend).toks), store)
  }

  lemma NoOtherTest(n: Node, env: Env, store: Store, prepend: string, ctx: Context)
    requires Readable(n, prepend, ctx) && EvalCond(n, env).Some?
    requires Related(env, store, prepend) && Clear(ctx, env, store, prepend)
    ensures !HasOtherTest(CondParts(n, env, prepend, ctx))
  {
    ConditionWords(n, env, store, prepend, ctx);
    forall p | p in CondParts(n, env, prepend, ctx)
      ensures !(p.Given? && p.arg.Word? && IsOtherTest(p.arg.text))
    {
      OwnWordsOnly(p);
    }
  }

  lemma ConditionEvaluates(n: Node, env: Env, store: Store, prepend: string, ctx: Context)
    requires Readable(n, prepend, ctx) && EvalCond(n, env).Some?
    requires Related(env, store, prepend) && Clear(ctx, env, store, prepend)
    ensures Convert(n).Some? && Evaluated(n, store, prepend) == EvalParts(CondParts(n, env, prepend, ctx), store)
  {
    CondWritten(n, prepend, ctx);
    LexCondition(n, prepend, ctx, []);
    assert CondToks(n, prepend, ctx) + [] == CondToks(n, prepend, ctx);
    assert CondArgs(n, prepend, ctx) + [] == CondArgs(n, prepend, ctx);
    ConditionParts(n, env, store, prepend, ctx);
  }

  lemma CompareWhole(n: Node, env: Env, store: Store, prepend: string, ctx: Context)
    requires Readable(n, prepend, ctx) && EvalCond(n, env).Some?
    requires Related(env, store, prepend) && Clear(ctx, env, store, prepend)
    ensures Compare(CondParts(n, env, prepend, ctx), store) == ComparedParts(n, env, prepend, ctx)
  {
    var ps, compared := CondParts(n, env, prepend, ctx), ComparedParts(n, env, prepend, ctx);
    ConditionCompared(n, [], env, store, prepend, ctx);
    assert ps + [] == ps && compared + [] == compared;
  }

  /**
    CMake can evaluate the text written for a condition exactly when no negation is applied to a
    condition that starts with one, and no `!=` has a string on its left.
   */
  lemma EvaluableIff(n: Node, env: Env, store: Store, prepend: string, ctx: Context)
    requires Readable(n, prepend, ctx) && EvalCond(n, env).Some?
    requires Related(env, store, prepend) && Clear(ctx, env, store, prepend)
    ensures Convert(n).Some? && (Evaluated(n, store, prepend).Some? <==> !NegatedTwice(n) && StringsOnLeft(n) == 0)
  {
    var ps, compared := CondParts(n, env, prepend, ctx), ComparedParts(n, env, prepend, ctx);
    ConditionEvaluates(n, env, store, prepend, ctx);
    NoOtherTest(n, env, store, prepend, ctx);
    CompareWhole(n, env, store, prepend, ctx);
    ComparedJoint(n, [], env, store, prepend, ctx);
    assert compared + [] == compared;
    ComparedExcess(n, env, store, prepend, ctx);
    ComparedDoubled(n, env, store, prepend, ctx);
    ReducesIff(ps, store);
  }

  // ----- the conditions CMake evaluates as GN does

  /** A name that CMake reads as a variable where a truth value is wanted. */
  predicate CondName(x: string) {
    Name(x) && !IsKeyword(x) && !IsOn(x) && !IsOff(x) && !IsNumber(x)
  }

  predicate TestForm(n: Node, prepend: string, ctx: Context) {
    || (n.Var? && CondName(n.name))
    || (n.Expr? && n.op == Binary(P.EqEq) && |n.kids| == 2 &&
        OperandForm(n.kids[0], prepend, ctx) && OperandForm(n.kids[1], prepend, ctx))
  }

  predicate LiteralForm(n: Node, prepend: string, ctx: Context) {
    TestForm(n, prepend, ctx) || (n.Expr? && n.op.Bang? && |n.kids| == 1 && TestForm(n.kids[0], prepend, ctx))
  }

  predicate AndForm(n: Node, prepend: string, ctx: Context) {
    || LiteralForm(n, prepend, ctx)
    || (n.Expr? && n.op == Binary(P.AndAnd) && |n.kids| == 2 &&
        AndForm(n.kids[0], prepend, ctx) && AndForm(n.kids[1], prepend, ctx))
  }

  /** A disjunction of conjunctions of tests and negated tests. */
  predicate CondForm(n: Node, prepend: string, ctx: Context) {
    || AndForm(n, prepend, ctx)
    || (n.Expr? && n.op == Binary(P.OrOr) && |n.kids| == 2 &&
        CondForm(n.kids[0], prepend, ctx) && CondForm(n.kids[1], prepend, ctx))
  }

  lemma {:induction false} AndFormReadable(n: Node, prepend: string, ctx: Context)
    requires AndForm(n, prepend, ctx)
    ensures Readable(n, prepend, ctx)
  {
    if n.Expr? && n.op == Binary(P.AndAnd) {
      AndFormReadable(n.kids[0], prepend, ctx);
      AndFormReadable(n.kids[1], prepend, ctx);
    }
  }

  lemma {:induction false} CondFormReadable(n: Node, prepend: string, ctx: Context)
    requires CondForm(n, prepend, ctx)
    ensures Readable(n, prepend, ctx)
  {
    if n.Expr? && n.op == Binary(P.OrOr) {
      CondFormReadable(n.kids[0], prepend, ctx);
      CondFormReadable(n.kids[1], prepend, ctx);
    } else {
      AndFormReadable(n, prepend, ctx);
    }
  }

  // ----- what CMake computes for a disjunction of conjunctions

  /** A flag, or a comparison that is written in a form CMake accepts. */
  predicate LeafForm(n: Node, prepend: string, ctx: Context) {
    || (n.Var? && Name(n.name) && !IsKeyword(n.name))
    || (n.Expr? && IsComparison(n.op) && |n.kids| == 2 && !(n.op == Binary(P.NotEq) && n.kids[0].Str?) &&
        OperandForm(n.kids[0], prepend, ctx) && OperandForm(n.kids[1], prepend, ctx))
  }

  predicate SignedForm(n: Node, prepend: string, ctx: Context) {
    LeafForm(n, prepend, ctx) || (n.Expr? && n.op.Bang? && |n.kids| == 1 && LeafForm(n.kids[0], prepend, ctx))
  }

  predicate ConjunctionForm(n: Node, prepend: string, ctx: Context) {
    || SignedForm(n, prepend, ctx)
    || (n.Expr? && n.op == Binary(P.AndAnd) && |n.kids| == 2 &&
        ConjunctionForm(n.kids[0], prepend, ctx) && ConjunctionForm(n.kids[1], prepend, ctx))
  }

  predicate DisjunctionForm(n: Node, prepend: string, ctx: Context) {
    || ConjunctionForm(n, prepend, ctx)
    || (n.Expr? && n.op == Binary(P.OrOr) && |n.kids| == 2 &&
        DisjunctionForm(n.kids[0], prepend, ctx) && DisjunctionForm(n.kids[1], prepend, ctx))
  }

  lemma {:induction false} ConjunctionReadable(n: Node, prepend: string, ctx: Context)
    requires ConjunctionForm(n, prepend, ctx)
    ensures Readable(n, prepend, ctx)
  {
    if n.Expr? && n.op == Binary(P.AndAnd) {
      ConjunctionReadable(n.kids[0], prepend, ctx);
      ConjunctionReadable(n.kids[1], prepend, ctx);
    }
  }

  lemma {:induction false} DisjunctionReadable(n: Node, prepend: string, ctx: Context)
    requires DisjunctionForm(n, prepend, ctx)
    ensures Readable(n, prepend, ctx)
  {
    if n.Expr? && n.op == Binary(P.OrOr) {
      DisjunctionReadable(n.kids[0], prepend, ctx);
      DisjunctionReadable(n.kids[1], prepend, ctx);
    } else {
      ConjunctionReadable(n, prepend, ctx);
    }
  }

  /**
    The value of a condition with each leaf as CMake takes it: a flag may be a constant, and a `!=`
    is a single word that may be the name of a variable.
   */
  function CMakeValue(n: Node, env: Env, store: Store, prepend: string): bool
    requires EvalCond(n, env).Some?
  {
    if n.Var? then Truth(Given(Word(n.name)), store)
    else if n.op.Bang? then !CMakeValue(n.kids[0], env, store, prepend)
    else if n.op == Binary(P.AndAnd) then
      CMakeValue(n.kids[0], env, store, prepend) && CMakeValue(n.kids[1], env, store, prepend)
    else if n.op == Binary(P.OrOr) then
      CMakeValue(n.kids[0], env, store, prepend) || CMakeValue(n.kids[1], env, store, prepend)
    else if n.op == Binary(P.NotEq) then Truth(Given(Word(GluedText(n, env, prepend))), store)
    else EvalCond(n, env).value
  }

  /** The word a `!=` is written as. */
  function GluedText(n: Node, env: Env, prepend: string): string
    requires EvalCond(n, env).Some? && n.Expr? && n.op == Binary(P.NotEq)
  {
    InsideText(n.kids[0], env, prepend) + "!=" + InsideText(n.kids[1], env, prepend)
  }

  /** What a literal has become after the negations. */
  function LiteralPart(n: Node, env: Env, store: Store, prepend: string): Part
    requires EvalCond(n, env).Some?
  {
    if n.Var? then Given(Word(n.name))
    else if n.op == Binary(P.NotEq) then Given(Word(GluedText(n, env, prepend)))
    else Found(CMakeValue(n, env, store, prepend))
  }

  function AndGroup(n: Node, env: Env, store: Store, prepend: string): Group
    requires EvalCond(n, env).Some?
  {
    if n.Expr? && n.op == Binary(P.AndAnd) && |n.kids| == 2
    then Pair(AndGroup(n.kids[0], env, store, prepend), AndGroup(n.kids[1], env, store, prepend))
    else Single(LiteralPart(n, env, store, prepend))
  }

  function OrGroup(n: Node, env: Env, store: Store, prepend: string): Group
    requires EvalCond(n, env).Some?
  {
    if n.Expr? && n.op == Binary(P.OrOr) && |n.kids| == 2
    then Pair(OrGroup(n.kids[0], env, store, prepend), OrGroup(n.kids[1], env, store, prepend))
    else Single(Merged(AND, AndGroup(n, env, store, prepend), store))
  }

  function NegatedParts(n: Node, env: Env, store: Store, prepend: string): seq<Part>
    requires EvalCond(n, env).Some?
  {
    if n.Expr? && IsJunction(n.op) && |n.kids| == 2
    then NegatedParts(n.kids[0], env, store, prepend) + [Given(JoinTok(n.op))] + NegatedParts(n.kids[1], env, store, prepend)
    else [LiteralPart(n, env, store, prepend)]
  }

  lemma LiteralTruth(n: Node, env: Env, store: Store, prepend: string, ctx: Context)
    requires SignedForm(n, prepend, ctx) && EvalCond(n, env).Some?
    ensures var p := LiteralPart(n, env, store, prepend);
            Truth(p, store) == CMakeValue(n, env, store, prepend) && !IsJoin(p) && p != NOT
  {
    if n.Expr? && n.op == Binary(P.NotEq) {
      GluedIsOperand(InsideText(n.kids[0], env, prepend), "!=", InsideText(n.kids[1], env, prepend));
    }
  }

  lemma NegateStep(p: Part, rest: seq<Part>, store: Store)
    ensures p != NOT ==> Negate([p] + rest, store) == [p] + Negate(rest, store)
    ensures Negate([NOT, p] + rest, store) == [Found(!Truth(p, store))] + Negate(rest, store)
  {
    assert ([p] + rest)[1..] == rest && ([NOT, p] + rest)[2..] == rest;
  }

  lemma LiteralCompared(n: Node, env: Env, store: Store, prepend: string, ctx: Context)
    requires SignedForm(n, prepend, ctx) && Readable(n, prepend, ctx) && EvalCond(n, env).Some?
    ensures NegatedParts(n, env, store, prepend) == [LiteralPart(n, env, store, prepend)]
    ensures ComparedParts(n, env, prepend, ctx) ==
            if n.Expr? && n.op.Bang? then [NOT, LiteralPart(n.kids[0], env, store, prepend)]
            else [LiteralPart(n, env, store, prepend)]
  {
  }

  lemma NegatedLiteral(n: Node, rest: seq<Part>, env: Env, store: Store, prepend: string, ctx: Context)
    requires SignedForm(n, prepend, ctx) && Readable(n, prepend, ctx) && EvalCond(n, env).Some?
    requires n.Expr? && n.op.Bang?
    ensures Negate([NOT, LiteralPart(n.kids[0], env, store, prepend)] + rest, store) ==
            [LiteralPart(n, env, store, prepend)] + Negate(rest, store)
  {
    LiteralTruth(n.kids[0], env, store, prepend, ctx);
    NegateStep(LiteralPart(n.kids[0], env, store, prepend), rest, store);
  }

  lemma NegateLiteral(n: Node, rest: seq<Part>, env: Env, store: Store, prepend: string, ctx: Context)
    requires SignedForm(n, prepend, ctx) && Readable(n, prepend, ctx) && EvalCond(n, env).Some?
    ensures Negate(ComparedParts(n, env, prepend, ctx) + rest, store) ==
            NegatedParts(n, env, store, prepend) + Negate(rest, store)
  {
    LiteralCompared(n, env, store, prepend, ctx);
    LiteralTruth(n, env, store, prepend, ctx);
    if n.Expr? && n.op.Bang? {
      NegatedLiteral(n, rest, env, store, prepend, ctx);
    } else {
      NegateStep(LiteralPart(n, env, store, prepend), rest, store);
    }
  }

  lemma NegateJoined(l: seq<Part>, l': seq<Part>, join: Part, r: seq<Part>, r': seq<Part>, rest: seq<Part>, store: Store)
    requires join != NOT
    requires Negate(l + ([join] + (r + rest)), store) == l' + Negate([join] + (r + rest), store)
    requires Negate(r + rest, store) == r' + Negate(rest, store)
    ensures Negate(l + [join] + r + rest, store) == l' + [join] + r' + Negate(rest, store)
  {
    Regroup(l, join, r, rest);
    NegateStep(join, r + rest, store);
    Regroup(l', join, r', Negate(rest, store));
  }

  lemma {:induction false} ConditionNegated(n: Node, rest: seq<Part>, env: Env, store: Store, prepend: string, ctx: Context)
    requires DisjunctionForm(n, prepend, ctx) && Readable(n, prepend, ctx) && EvalCond(n, env).Some?
    ensures Negate(ComparedParts(n, env, prepend, ctx) + rest, store) ==
            NegatedParts(n, env, store, prepend) + Negate(rest, store)
    decreases n
  {
    if SignedForm(n, prepend, ctx) {
      NegateLiteral(n, rest, env, store, prepend, ctx);
    } else {
      var a, b, join := n.kids[0], n.kids[1], Given(JoinTok(n.op));
      var r := ComparedParts(b, env, prepend, ctx);
      ConditionNegated(a, [join] + (r + rest), env, store, prepend, ctx);
      ConditionNegated(b, rest, env, store, prepend, ctx);
      NegateJoined(ComparedParts(a, env, prepend, ctx), NegatedParts(a, env, store, prepend), join, r,
                   NegatedParts(b, env, store, prepend), rest, store);
    }
  }

  lemma {:induction false} AndGroupSpread(n: Node, env: Env, store: Store, prepend: string, ctx: Context)
    requires ConjunctionForm(n, prepend, ctx) && EvalCond(n, env).Some?
    ensures NegatedParts(n, env, store, prepend) == Spread(AND, AndGroup(n, env, store, prepend))
    ensures GroupTruth(AND, AndGroup(n, env, store, prepend), store) == CMakeValue(n, env, store, prepend)
    ensures NegatedParts(n, env, store, prepend) != [] && !IsJoin(NegatedParts(n, env, store, prepend)[0])
    ensures Truth(Merged(AND, AndGroup(n, env, store, prepend), store), store) == CMakeValue(n, env, store, prepend)
  {
    if SignedForm(n, prepend, ctx) {
      LiteralTruth(n, env, store, prepend, ctx);
    } else {
      AndGroupSpread(n.kids[0], env, store, prepend, ctx);
      AndGroupSpread(n.kids[1], env, store, prepend, ctx);
    }
  }

  lemma {:induction false} FirstNegated(n: Node, env: Env, store: Store, prepend: string, ctx: Context)
    requires DisjunctionForm(n, prepend, ctx) && EvalCond(n, env).Some?
    ensures NegatedParts(n, env, store, prepend) != [] && !IsJoin(NegatedParts(n, env, store, prepend)[0])
  {
    if ConjunctionForm(n, prepend, ctx) {
      AndGroupSpread(n, env, store, prepend, ctx);
    } else {
      FirstNegated(n.kids[0], env, store, prepend, ctx);
    }
  }

  lemma FoldSkips(p: Part, rest: seq<Part>, store: Store)
    requires rest == [] || rest[0] != AND
    ensures Fold(AND, [p] + rest, store) == [p] + Fold(AND, rest, store)
  {
    assert ([p] + rest)[1..] == rest;
  }

  lemma FoldJoined(l: seq<Part>, l': seq<Part>, r: seq<Part>, r': seq<Part>, rest: seq<Part>, store: Store)
    requires r != [] && r[0] != AND
    requires Fold(AND, l + ([OR] + (r + rest)), store) == l' + Fold(AND, [OR] + (r + rest), store)
    requires Fold(AND, r + rest, store) == r' + Fold(AND, rest, store)
    ensures Fold(AND, l + [OR] + r + rest, store) == l' + [OR] + r' + Fold(AND, rest, store)
  {
    Regroup(l, OR, r, rest);
    FoldSkips(OR, r + rest, store);
    Regroup(l', OR, r', Fold(AND, rest, store));
  }

  /** The conjunctions are folded; what is left is the disjunction of their values. */
  lemma {:induction false} ConjunctionsFolded(n: Node, rest: seq<Part>, env: Env, store: Store, prepend: string, ctx: Context)
    requires DisjunctionForm(n, prepend, ctx) && EvalCond(n, env).Some?
    requires rest == [] || rest[0] == OR
    ensures Fold(AND, NegatedParts(n, env, store, prepend) + rest, store) ==
            Spread(OR, OrGroup(n, env, store, prepend)) + Fold(AND, rest, store)
    decreases n
  {
    if ConjunctionForm(n, prepend, ctx) {
      AndGroupSpread(n, env, store, prepend, ctx);
      FoldGroup(AND, AndGroup(n, env, store, prepend), rest, store);
      FoldSkips(Merged(AND, AndGroup(n, env, store, prepend), store), rest, store);
    } else {
      var a, b := n.kids[0], n.kids[1];
      var r := NegatedParts(b, env, store, prepend);
      FirstNegated(b, env, store, prepend, ctx);
      ConjunctionsFolded(a, [OR] + (r + rest), env, store, prepend, ctx);
      ConjunctionsFolded(b, rest, env, store, prepend, ctx);
      FoldJoined(NegatedParts(a, env, store, prepend), Spread(OR, OrGroup(a, env, store, prepend)), r,
                 Spread(OR, OrGroup(b, env, store, prepend)), rest, store);
    }
  }

  lemma {:induction false} OrGroupValue(n: Node, env: Env, store: Store, prepend: string, ctx: Context)
    requires DisjunctionForm(n, prepend, ctx) && EvalCond(n, env).Some?
    ensures GroupTruth(OR, OrGroup(n, env, store, prepend), store) == CMakeValue(n, env, store, prepend)
    ensures Truth(Merged(OR, OrGroup(n, env, store, prepend), store), store) == CMakeValue(n, env, store, prepend)
  {
    if ConjunctionForm(n, prepend, ctx) {
      AndGroupSpread(n, env, store, prepend, ctx);
    } else {
      OrGroupValue(n.kids[0], env, store, prepend, ctx);
      OrGroupValue(n.kids[1], env, store, prepend, ctx);
    }
  }

  /** CMake gives a disjunction of conjunctions its value, each leaf taken as CMake takes it. */
  lemma DisjunctionValue(n: Node, env: Env, store: Store, prepend: string, ctx: Context)
    requires DisjunctionForm(n, prepend, ctx) && EvalCond(n, env).Some?
    requires Related(env, store, prepend) && Clear(ctx, env, store, prepend)
    ensures Convert(n).Some? && Evaluated(n, store, prepend) == Some(CMakeValue(n, env, store, prepend))
  {
    DisjunctionReadable(n, prepend, ctx);
    ConditionEvaluates(n, env, store, prepend, ctx);
    NoOtherTest(n, env, store, prepend, ctx);
    CompareWhole(n, env, store, prepend, ctx);
    var compared, negated := ComparedParts(n, env, prepend, ctx), NegatedParts(n, env, store, prepend);
    var group := OrGroup(n, env, store, prepend);
    ConditionNegated(n, [], env, store, prepend, ctx);
    assert compared + [] == compared && negated + [] == negated;
    ConjunctionsFolded(n, [], env, store, prepend, ctx);
    FoldGroup(OR, group, [], store);
    assert Spread(OR, group) + [] == Spread(OR, group);
    var last := Merged(OR, group, store);
    assert [last] + [] == [last];
    assert Fold(OR, [last], store) == [last] + Fold(OR, [], store) == [last];
    OrGroupValue(n, env, store, prepend, ctx);
  }

  /** Flags that are no constants, and no `!=`. */
  predicate PlainLeaves(n: Node) {
    && (n.Var? ==> CondName(n.name))
    && (n.Expr? ==> n.op != Binary(P.NotEq) &&
                    (n.op.Bang? || IsJunction(n.op) ==> forall k :: k in n.kids ==> PlainLeaves(k)))
  }

  /** Such conditions have the value of GN wherever CMake computes them. */
  lemma {:induction false} PlainValue(n: Node, env: Env, store: Store, prepend: string)
    requires PlainLeaves(n) && EvalCond(n, env).Some? && Related(env, store, prepend)
    ensures CMakeValue(n, env, store, prepend) == EvalCond(n, env).value
  {
    if n.Var? {
      assert Matches(env[n.name], n.name, store, prepend);
    } else if n.op.Bang? {
      assert n.kids[0] in n.kids;
      PlainValue(n.kids[0], env, store, prepend);
    } else if IsJunction(n.op) {
      assert n.kids[0] in n.kids && n.kids[1] in n.kids;
      PlainValue(n.kids[0], env, store, prepend);
      PlainValue(n.kids[1], env, store, prepend);
    }
  }

  lemma {:induction false} AndFormPlain(n: Node, prepend: string, ctx: Context)
    requires AndForm(n, prepend, ctx)
    ensures ConjunctionForm(n, prepend, ctx) && PlainLeaves(n)
  {
    if n.Expr? && n.op == Binary(P.AndAnd) {
      AndFormPlain(n.kids[0], prepend, ctx);
      AndFormPlain(n.kids[1], prepend, ctx);
    }
  }

  lemma {:induction false} CondFormPlain(n: Node, prepend: string, ctx: Context)
    requires CondForm(n, prepend, ctx)
    ensures DisjunctionForm(n, prepend, ctx) && PlainLeaves(n)
  {
    if n.Expr? && n.op == Binary(P.OrOr) {
      CondFormPlain(n.kids[0], prepend, ctx);
      CondFormPlain(n.kids[1], prepend, ctx);
    } else {
      AndFormPlain(n, prepend, ctx);
    }
  }

  /** A disjunction of conjunctions of tests has the value in CMake that it has in GN. */
  lemma ConditionKept(n: Node, env: Env, store: Store, prepend: string, ctx: Context)
    requires CondForm(n, prepend, ctx) && EvalCond(n, env).Some?
    requires Related(env, store, prepend) && Clear(ctx, env, store, prepend)
    ensures Convert(n).Some? && Evaluated(n, store, prepend) == EvalCond(n, env)
  {
    CondFormPlain(n, prepend, ctx);
    DisjunctionValue(n, env, store, prepend, ctx);
    PlainValue(n, env, store, prepend);
  }
}
