/**
  The expression grammar of the GN parser: binary operators and `!`, disambiguated by a
  precedence table alone.  The parser is the shift-reduce machine the table prescribes: with an
  operand on top of the stack, the pending rule is reduced when its level is at least that of the
  next operator (every binary level is left associative), and the operator is shifted otherwise.

  The printer walks a tree in order and never prints a parenthesis.  The main result says exactly
  for which trees that is harmless.
 */
module Precedence {

  datatype BinOp = OrOr | AndAnd | EqEq | NotEq | Gt | GtEq | Lt | LtEq | Plus | Minus

  datatype Token<L> = Leaf(leaf: L) | Bang | Op(op: BinOp)

  datatype Tree<L> = Atom(leaf: L) | Not(arg: Tree<L>) | Bin(op: BinOp, left: Tree<L>, right: Tree<L>)

  datatype Parsed<L> = Accepted(tree: Tree<L>) | Rejected

  /** A rule waiting for its last operand. */
  datatype Frame<L> = Pending(left: Tree<L>, op: BinOp) | PendingNot

  datatype Stack<L> = Empty | Push(top: Frame<L>, below: Stack<L>)

  const NOT_LEVEL := 6
  const ATOM_LEVEL := 7

  function OpLevel(op: BinOp): nat {
    match op
    case OrOr => 1
    case AndAnd => 2
    case EqEq => 3
    case NotEq => 3
    case Gt => 4
    case GtEq => 4
    case Lt => 4
    case LtEq => 4
    case Plus => 5
    case Minus => 5
  }

  function Level<L>(t: Tree<L>): nat {
    match t
    case Atom(_) => ATOM_LEVEL
    case Not(_) => NOT_LEVEL
    case Bin(op, _, _) => OpLevel(op)
  }

  function FrameLevel<L>(f: Frame<L>): nat {
    match f
    case Pending(_, op) => OpLevel(op)
    case PendingNot => NOT_LEVEL
  }

  function TopLevel<L>(stack: Stack<L>): nat {
    if stack.Empty? then 0 else FrameLevel(stack.top)
  }

  /** The tokens of a tree, in order, without parentheses. */
  function Flatten<L>(t: Tree<L>): seq<Token<L>> {
    match t
    case Atom(l) => [Leaf(l)]
    case Not(a) => [Bang] + Flatten(a)
    case Bin(op, l, r) => Flatten(l) + [Op(op)] + Flatten(r)
  }

  /** A tree in which no operand would need a parenthesis. */
  predicate ParenFree<L>(t: Tree<L>) {
    match t
    case Atom(_) => true
    case Not(a) => ParenFree(a) && Level(a) >= NOT_LEVEL
    case Bin(op, l, r) => ParenFree(l) && ParenFree(r) && Level(l) >= OpLevel(op) && Level(r) > OpLevel(op)
  }

  function Reduce<L>(f: Frame<L>, t: Tree<L>): Tree<L> {
    match f
    case Pending(l, op) => Bin(op, l, t)
    case PendingNot => Not(t)
  }

  /** The parser waiting for an operand. */
  function Operand<L>(stack: Stack<L>, input: seq<Token<L>>): Parsed<L>
    decreases |input|, stack
  {
    if input == [] then Rejected
    else match input[0]
      case Leaf(l) => Operator(stack, Atom(l), input[1..])
      case Bang => Operand(Push(PendingNot, stack), input[1..])
      case Op(_) => Rejected
  }

  /** The parser holding an operand `t`. */
  function Operator<L>(stack: Stack<L>, t: Tree<L>, input: seq<Token<L>>): Parsed<L>
    decreases |input|, stack
  {
    if input != [] && !input[0].Op? then Rejected
    else if stack.Push? && (input == [] || OpLevel(input[0].op) <= TopLevel(stack)) then
      Operator(stack.below, Reduce(stack.top, t), input)
    else if input == [] then Accepted(t)
    else Operand(Push(Pending(t, input[0].op), stack), input[1..])
  }

  function Parse<L>(input: seq<Token<L>>): Parsed<L> {
    Operand(Empty, input)
  }

  // ----- completeness: the printed form of a parenthesis-free tree parses back to it

  /** `rest` does not steal the right end of `t`. */
  predicate Ends<L>(t: Tree<L>, rest: seq<Token<L>>) {
    rest == [] || (rest[0].Op? && OpLevel(rest[0].op) <= Level(t))
  }

  lemma {:induction false} ParseStep<L>(stack: Stack<L>, t: Tree<L>, rest: seq<Token<L>>)
    requires ParenFree(t)
    requires t.Bin? ==> Level(t) > TopLevel(stack)
    requires Ends(t, rest)
    ensures Operand(stack, Flatten(t) + rest) == Operator(stack, t, rest)
    decreases t
  {
    match t
    case Atom(l) =>
      assert (Flatten(t) + rest)[1..] == rest;
    case Not(a) =>
      var inner := Push(PendingNot, stack);
      assert (Flatten(t) + rest)[1..] == Flatten(a) + rest;
      ParseStep(inner, a, rest);
    case Bin(op, l, r) =>
      var tail := [Op(op)] + (Flatten(r) + rest);
      var inner := Push(Pending(l, op), stack);
      assert Flatten(t) + rest == Flatten(l) + tail;
      ParseStep(stack, l, tail);
      assert tail[1..] == Flatten(r) + rest;
      ParseStep(inner, r, rest);
  }

  // ----- soundness: whatever is accepted is parenthesis-free and has exactly these tokens

  function FrameTokens<L>(f: Frame<L>): seq<Token<L>> {
    match f
    case Pending(l, op) => Flatten(l) + [Op(op)]
    case PendingNot => [Bang]
  }

  function StackTokens<L>(stack: Stack<L>): seq<Token<L>> {
    if stack.Empty? then [] else StackTokens(stack.below) + FrameTokens(stack.top)
  }

  predicate StackOk<L>(stack: Stack<L>) {
    stack.Push? ==>
      && StackOk(stack.below)
      && (stack.top.Pending? ==>
            && ParenFree(stack.top.left)
            && Level(stack.top.left) >= OpLevel(stack.top.op) > TopLevel(stack.below))
  }

  lemma {:induction false} OperandSound<L>(stack: Stack<L>, input: seq<Token<L>>)
    requires StackOk(stack)
    requires Operand(stack, input).Accepted?
    ensures ParenFree(Operand(stack, input).tree)
    ensures Flatten(Operand(stack, input).tree) == StackTokens(stack) + input
    decreases |input|, stack
  {
    var first, rest := input[0], input[1..];
    assert StackTokens(stack) + [first] + rest == StackTokens(stack) + input;
    match first
    case Leaf(l) =>
      OperatorSound(stack, Atom(l), rest);
    case Bang =>
      OperandSound(Push(PendingNot, stack), rest);
  }

  lemma {:induction false} OperatorSound<L>(stack: Stack<L>, t: Tree<L>, input: seq<Token<L>>)
    requires StackOk(stack) && ParenFree(t)
    requires t.Bin? ==> Level(t) > TopLevel(stack) && (input != [] && input[0].Op? ==> Ends(t, input))
    requires Operator(stack, t, input).Accepted?
    ensures ParenFree(Operator(stack, t, input).tree)
    ensures Flatten(Operator(stack, t, input).tree) == StackTokens(stack) + Flatten(t) + input
    decreases |input|, stack
  {
    if stack.Push? && (input == [] || OpLevel(input[0].op) <= TopLevel(stack)) {
      ReducedTokens(stack, t);
      OperatorSound(stack.below, Reduce(stack.top, t), input);
    } else if input != [] {
      OperandSound(Push(Pending(t, input[0].op), stack), input[1..]);
      PushedTokens(stack, t, input);
    }
  }

  lemma ReducedTokens<L>(stack: Stack<L>, t: Tree<L>)
    requires stack.Push?
    ensures StackTokens(stack.below) + Flatten(Reduce(stack.top, t)) == StackTokens(stack) + Flatten(t)
  {
  }

  lemma PushedTokens<L>(stack: Stack<L>, t: Tree<L>, input: seq<Token<L>>)
    requires input != [] && input[0].Op?
    ensures StackTokens(Push(Pending(t, input[0].op), stack)) + input[1..] == StackTokens(stack) + Flatten(t) + input
  {
    assert input == [input[0]] + input[1..];
  }

  // ----- the main results

  /** The table picks one tree for every token list it accepts, and exactly the parenthesis-free ones. */
  lemma ParseIffParenFree<L>(input: seq<Token<L>>, t: Tree<L>)
    ensures Parse(input) == Accepted(t) <==> ParenFree(t) && Flatten(t) == input
  {
    if Parse(input) == Accepted(t) {
      OperandSound(Empty, input);
    }
    if ParenFree(t) && Flatten(t) == input {
      assert Flatten(t) + [] == input;
      ParseStep(Empty, t, []);
    }
  }

  /** Printing without parentheses keeps a condition exactly when none was needed. */
  lemma PrintedConditionKept<L>(t: Tree<L>)
    ensures Parse(Flatten(t)) == Accepted(t) <==> ParenFree(t)
  {
    ParseIffParenFree(Flatten(t), t);
  }

  lemma AndOfAtoms<L>(a: L, b: L)
    ensures var t := Bin(AndAnd, Atom(a), Atom(b));
            ParenFree(t) && Level(t) == 2 && Flatten(t) == [Leaf(a), Op(AndAnd), Leaf(b)]
  {
    var l, r := Atom(a), Atom(b);
    assert Level(l) == Level(r) == ATOM_LEVEL == 7;
    assert Flatten(l) == [Leaf(a)] && Flatten(r) == [Leaf(b)];
  }

  lemma OrOfAtom<L>(t: Tree<L>, c: L)
    requires ParenFree(t) && Level(t) >= 1
    ensures var u := Bin(OrOr, t, Atom(c)); ParenFree(u) && Flatten(u) == Flatten(t) + [Op(OrOr), Leaf(c)]
  {
    var r := Atom(c);
    assert Level(r) == ATOM_LEVEL == 7 && OpLevel(OrOr) == 1;
    assert Flatten(r) == [Leaf(c)];
    assert Flatten(t) + [Op(OrOr)] + [Leaf(c)] == Flatten(t) + [Op(OrOr), Leaf(c)];
  }

  /** `a && (b || c)` is printed as `a && b || c`, which is another condition. */
  lemma LostParenthesis<L>(a: L, b: L, c: L)
    ensures var t := Bin(AndAnd, Atom(a), Bin(OrOr, Atom(b), Atom(c)));
            Parse(Flatten(t)) == Accepted(Bin(OrOr, Bin(AndAnd, Atom(a), Atom(b)), Atom(c)))
  {
    var both, either := Bin(AndAnd, Atom(a), Atom(b)), Bin(OrOr, Atom(b), Atom(c));
    var t, u := Bin(AndAnd, Atom(a), either), Bin(OrOr, both, Atom(c));
    AndOfAtoms(a, b);
    OrOfAtom(both, c);
    OrOfAtom(Atom(b), c);
    assert Flatten(Atom(a)) == [Leaf(a)] && Flatten(Atom(b)) == [Leaf(b)];
    assert Flatten(t) == [Leaf(a), Op(AndAnd), Leaf(b), Op(OrOr), Leaf(c)] == Flatten(u);
    ParseIffParenFree(Flatten(u), u);
  }
}
