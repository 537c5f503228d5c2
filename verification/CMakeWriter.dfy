/** The writer: walks the converted tree once and appends CMake text, here as tokens, to its output. */
module CMakeWriter {
  import P = Precedence
  import opened Prelude
  import opened GnAst
  import opened CMakeArguments

  /** What a visit appends, and whether it ends without raising. */
  datatype Text = Text(toks: seq<Tok>, ok: bool)

  /** The text of a GN operator, which the operator pass leaves without blanks unless it renames it. */
  function Symbol(op: P.BinOp): string {
    match op
    case OrOr => "||"
    case AndAnd => "&&"
    case EqEq => "=="
    case NotEq => "!="
    case Gt => ">"
    case GtEq => ">="
    case Lt => "<"
    case LtEq => "<="
    case Plus => "+"
    case Minus => "-"
  }

  function OpTok(op: OpName): Tok {
    match op
    case StrEqual => Word("STREQUAL")
    case And => Word("AND")
    case Or => Word("OR")
    case NotWord => Word("NOT")
    case Bang => Glue("!")
    case Binary(b) => Glue(Symbol(b))
  }

  /** The text of an assignment's target. */
  function TargetTok(n: Node): Tok {
    if n.Str? then Word(n.value) else if n.Var? then Word(n.name) else Glue("target")
  }

  function Then(a: Text, b: Text): Text {
    if a.ok then Text(a.toks + b.toks, b.ok) else a
  }

  predicate Truthy(n: Node) {
    match n
    case Comment(t) => t != ""
    case Var(v) => v != ""
    case Str(s) => s != ""
    case Int(i) => i != 0
    case Nothing => false
    case List(items) => items != []
    case Expr(_, kids) => kids != []
    case Stmt(_, kids) => kids != []
  }

  const RAISED := Text([], false)

  function Emit(n: Node, prepend: string): Text
    decreases n, 1
  {
    match n
    case List(items) => EmitAll(items, prepend)
    case Comment(t) => Text([Remark(t)], true)
    case Var(v) => Text([Word(v)], true)
    case Str(s) => Text([Quoted(prepend + s)], true)
    case Expr(op, kids) =>
      if |kids| == 1 then Then(Text([OpTok(op)], true), Emit(kids[0], prepend))
      else if |kids| == 0 then RAISED
      else Then(Then(Emit(kids[0], prepend), Text([OpTok(op)], true)), Emit(kids[1], prepend))
    case Stmt(kind, kids) =>
      (match kind
       case Assign =>
         if |kids| == 0 then RAISED
         else if |kids| == 1 then Text([Open(Set), TargetTok(kids[0])], false)
         else
           var head := Text([Open(Set), TargetTok(kids[0])], true);
           var items := if kids[1].List? then EmitAll(kids[1].items, prepend) else Text([], true);
           Then(Then(head, items), Text([Close], true))
       case Append =>
         if |kids| == 0 then RAISED
         else if |kids| == 1 then Text([Open(ListCommand), Word("APPEND"), TargetTok(kids[0])], false)
         else
           var head := Text([Open(ListCommand), Word("APPEND"), TargetTok(kids[0])], true);
           if kids[1].List? then Then(Then(head, EmitAll(kids[1].items, prepend)), Text([Close], true))
           else head
       case If =>
         if |kids| < 2 || Length(kids[1]).None? then RAISED
         else if Length(kids[1]).value == 0 then Text([], true)
         else
           var body := Then(EmitCondition(kids[0], prepend), Emit(kids[1], prepend));
           if |kids| == 2 then Then(body, RAISED)
           else
             var all := if Truthy(kids[2]) then Then(body, EmitElse(kids[2], prepend)) else body;
             Then(all, Text([Open(EndIf), Close], true))
       case Foreach =>
         if |kids| == 0 then Text([Open(ForeachCommand)], false)
         else
           var head := EmitForeach(kids[0], prepend);
           if |kids| == 1 then Then(head, RAISED)
           else Then(Then(head, Emit(kids[1], prepend)), Text([Open(EndForeach), Close], true))
       case Remove => Text([], true)
       case Call(_) => Text([], true))
    case Int(_) => RAISED
    case Nothing => RAISED
  }

  function EmitCondition(n: Node, prepend: string): Text
    decreases n, 2
  {
    Then(Then(Text([Open(IfCommand)], true), Emit(n, prepend)), Text([Close], true))
  }

  function EmitElse(n: Node, prepend: string): Text
    decreases n, 2
  {
    Then(Text([Open(Else), Close], true), Emit(n, prepend))
  }

  /** The opening command of a loop over `args`, the loop variable and the list. */
  function EmitForeach(args: Node, prepend: string): Text
    decreases args, 2
  {
    if !args.List? || args.items == [] then Text([Open(ForeachCommand)], false)
    else
      var first := Then(Text([Open(ForeachCommand)], true), Emit(args.items[0], prepend));
      var middle := Then(first, Text([Word("IN"), Word("LISTS")], true));
      if |args.items| == 1 then Then(middle, RAISED)
      else Then(Then(middle, Emit(args.items[1], prepend)), Text([Close], true))
  }

  function EmitAll(ns: seq<Node>, prepend: string): Text
    decreases ns, 0
  {
    if ns == [] then Text([], true) else Then(Emit(ns[0], prepend), EmitAll(ns[1..], prepend))
  }

  /** A list is written item by item, and stops at the first item that raises. */
  lemma EmitCons(n: Node, ns: seq<Node>, prepend: string)
    ensures EmitAll([n] + ns, prepend) == Then(Emit(n, prepend), EmitAll(ns, prepend))
  {
    assert ([n] + ns)[1..] == ns;
  }

  /** The writer object; a visit that raises leaves what it had written. */
  class Writer {
    const prepend: string
    var output: seq<Tok>

    constructor (prepend: string)
      ensures this.prepend == prepend && output == []
    {
      this.prepend := prepend;
      output := [];
    }

    method Put(toks: seq<Tok>)
      modifies this
      ensures output == old(output) + toks
    {
      output := output + toks;
    }

    method VisitAll(ns: seq<Node>) returns (ok: bool)
      modifies this
      ensures output == old(output) + EmitAll(ns, prepend).toks && ok == EmitAll(ns, prepend).ok
      decreases ns, 0
    {
      var i := 0;
      while i < |ns|
        invariant 0 <= i <= |ns|
        invariant output + EmitAll(ns[i..], prepend).toks == old(output) + EmitAll(ns, prepend).toks
        invariant EmitAll(ns[i..], prepend).ok == EmitAll(ns, prepend).ok
      {
        assert ns[i..][1..] == ns[i + 1..];
        ghost var before := output;
        ok := Visit(ns[i]);
        if !ok {
          return false;
        }
        assert before + EmitAll(ns[i..], prepend).toks == output + EmitAll(ns[i + 1..], prepend).toks;
        i := i + 1;
      }
      ok := true;
    }

    method Visit(n: Node) returns (ok: bool)
      modifies this
      ensures output == old(output) + Emit(n, prepend).toks && ok == Emit(n, prepend).ok
      decreases n, 1
    {
      match n {
        case List(items) => ok := VisitAll(items);
        case Comment(t) => Put([Remark(t)]); ok := true;
        case Var(v) => Put([Word(v)]); ok := true;
        case Str(s) => Put([Quoted(prepend + s)]); ok := true;
        case Expr(op, kids) => ok := VisitExpr(n);
        case Stmt(kind, kids) =>
          if kind.Assign? || kind.Append? {
            ok := VisitAssignment(n);
          } else if kind.If? {
            ok := VisitIf(n);
          } else if kind.Foreach? {
            ok := VisitForeach(n);
          } else {
            ok := true;
          }
        case Int(_) => ok := false;
        case Nothing => ok := false;
      }
    }

    method VisitExpr(n: Node) returns (ok: bool)
      requires n.Expr?
      modifies this
      ensures output == old(output) + Emit(n, prepend).toks && ok == Emit(n, prepend).ok
      decreases n, 0
    {
      if |n.kids| == 0 {
        return false;
      }
      if |n.kids| == 1 {
        Put([OpTok(n.op)]);
        ok := Visit(n.kids[0]);
        return;
      }
      ok := Visit(n.kids[0]);
      if ok {
        Put([OpTok(n.op)]);
        ok := Visit(n.kids[1]);
      }
    }

    method VisitAssignment(n: Node) returns (ok: bool)
      requires n.Stmt? && (n.kind.Assign? || n.kind.Append?)
      modifies this
      ensures output == old(output) + Emit(n, prepend).toks && ok == Emit(n, prepend).ok
      decreases n, 0
    {
      var kids := n.kids;
      if |kids| == 0 {
        return false;
      }
      if n.kind.Assign? {
        Put([Open(Set), TargetTok(kids[0])]);
      } else {
        Put([Open(ListCommand), Word("APPEND"), TargetTok(kids[0])]);
      }
      if |kids| == 1 {
        return false;
      }
      ok := true;
      if kids[1].List? {
        ok := VisitAll(kids[1].items);
      }
      if ok && (kids[1].List? || n.kind.Assign?) {
        Put([Close]);
      }
    }

    method VisitIf(n: Node) returns (ok: bool)
      requires n.Stmt? && n.kind.If?
      modifies this
      ensures output == old(output) + Emit(n, prepend).toks && ok == Emit(n, prepend).ok
      decreases n, 0
    {
      var kids := n.kids;
      if |kids| < 2 || Length(kids[1]).None? {
        return false;
      }
      if Length(kids[1]).value == 0 {
        return true;
      }
      ok := VisitCondition(kids[0]);
      ghost var done := EmitCondition(kids[0], prepend);
      if !ok {
        return;
      }
      ok := Visit(kids[1]);
      done := Then(done, Emit(kids[1], prepend));
      assert output == old(output) + done.toks;
      if !ok {
        return;
      }
      if |kids| == 2 {
        return false;
      }
      if Truthy(kids[2]) {
        ok := VisitElse(kids[2]);
        done := Then(done, EmitElse(kids[2], prepend));
        assert output == old(output) + done.toks;
        if !ok {
          return;
        }
      }
      Put([Open(EndIf), Close]);
    }

    method VisitCondition(n: Node) returns (ok: bool)
      modifies this
      ensures output == old(output) + EmitCondition(n, prepend).toks && ok == EmitCondition(n, prepend).ok
      decreases n, 2
    {
      Put([Open(IfCommand)]);
      ok := Visit(n);
      ghost var done := Then(Text([Open(IfCommand)], true), Emit(n, prepend));
      assert output == old(output) + done.toks;
      if ok {
        Put([Close]);
      }
    }

    method VisitElse(n: Node) returns (ok: bool)
      modifies this
      ensures output == old(output) + EmitElse(n, prepend).toks && ok == EmitElse(n, prepend).ok
      decreases n, 2
    {
      Put([Open(Else), Close]);
      ok := Visit(n);
    }

    method VisitForeach(n: Node) returns (ok: bool)
      requires n.Stmt? && n.kind.Foreach?
      modifies this
      ensures output == old(output) + Emit(n, prepend).toks && ok == Emit(n, prepend).ok
      decreases n, 0
    {
      var kids := n.kids;
      if |kids| == 0 {
        Put([Open(ForeachCommand)]);
        return false;
      }
      ok := VisitForeachArgs(kids[0]);
      ghost var done := EmitForeach(kids[0], prepend);
      if !ok || |kids| == 1 {
        return false;
      }
      ok := Visit(kids[1]);
      done := Then(done, Emit(kids[1], prepend));
      assert output == old(output) + done.toks;
      if !ok {
        return;
      }
      Put([Open(EndForeach), Close]);
    }

    method VisitForeachArgs(args: Node) returns (ok: bool)
      modifies this
      ensures output == old(output) + EmitForeach(args, prepend).toks && ok == EmitForeach(args, prepend).ok
      decreases args, 2
    {
      Put([Open(ForeachCommand)]);
      if !args.List? || args.items == [] {
        return false;
      }
      ghost var done := Text([Open(ForeachCommand)], true);
      ok := Visit(args.items[0]);
      done := Then(done, Emit(args.items[0], prepend));
      assert output == old(output) + done.toks;
      if !ok {
        return;
      }
      Put([Word("IN"), Word("LISTS")]);
      done := Then(done, Text([Word("IN"), Word("LISTS")], true));
      assert output == old(output) + done.toks;
      if |args.items| == 1 {
        return false;
      }
      ok := Visit(args.items[1]);
      done := Then(done, Emit(args.items[1], prepend));
      assert output == old(output) + done.toks;
      if !ok {
        return;
      }
      Put([Close]);
    }
  }
}
