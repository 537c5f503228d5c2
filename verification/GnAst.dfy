/**
  The parse tree of the GN to CMake converter, its meaning as a GN program, and the two passes the
  converter runs over it before writing: dropping the excluded calls and converting the operators.
 */
module GnAst {
  import P = Precedence
  import opened Prelude
  import opened CMakeArguments

  /** The `type` string of an expression node: as parsed, or as renamed by the operator pass. */
  datatype OpName = Binary(op: P.BinOp) | Bang | StrEqual | And | Or | NotWord

  /** The `type` string of a statement node. */
  datatype Kind = Assign | Append | Remove | If | Foreach | Call(name: string)

  /**
    The values a node can take in the parse tree.  A string literal, and the name on the left of an
    assignment, are plain strings; a name used as an expression is a variable.
   */
  datatype Node =
    | Comment(text: string)
    | Var(name: string)
    | Str(value: string)
    | Int(n: int)
    | Nothing
    | List(items: seq<Node>)
    | Expr(op: OpName, kids: seq<Node>)
    | Stmt(kind: Kind, kids: seq<Node>)

  // ----- what a GN program means

  datatype Value = ListValue(items: seq<string>) | StringValue(text: string) | BoolValue(flag: bool)

  type Env = map<string, Value>

  predicate IsList(env: Env, x: string) {
    x in env && env[x].ListValue?
  }

  predicate IsString(env: Env, x: string) {
    x in env && env[x].StringValue?
  }

  predicate IsBool(env: Env, x: string) {
    x in env && env[x].BoolValue?
  }

  /**
    The string an expression denotes: a literal, a string variable, or the empty string plus one.
    A literal with `$` or a backslash is interpolated by GN and has no meaning here.
   */
  function EvalString(n: Node, env: Env): Option<string> {
    match n
    case Str(s) => if '$' in s || '\\' in s then None else Some(s)
    case Var(v) => if IsString(env, v) then Some(env[v].text) else None
    case Expr(op, kids) =>
      if op == Binary(P.Plus) && |kids| == 2 && kids[0] == Str("") && kids[1].Var? && IsString(env, kids[1].name)
      then Some(env[kids[1].name].text)
      else None
    case _ => None
  }

  function EvalStrings(ns: seq<Node>, env: Env): Option<seq<string>> {
    if ns == [] then Some([])
    else
      var head := EvalString(ns[0], env);
      var tail := EvalStrings(ns[1..], env);
      if head.Some? && tail.Some? then Some([head.value] + tail.value) else None
  }

  function EvalList(n: Node, env: Env): Option<seq<string>> {
    match n
    case List(items) => EvalStrings(items, env)
    case Var(v) => if IsList(env, v) then Some(env[v].items) else None
    case Expr(op, kids) =>
      if op == Binary(P.Plus) && |kids| == 2 then
        var l := EvalList(kids[0], env);
        var r := EvalList(kids[1], env);
        if l.Some? && r.Some? then Some(l.value + r.value) else None
      else None
    case _ => None
  }

  /** What a variable holds after an append: a list grows by a list, a string by a string. */
  function Grow(x: string, n: Node, env: Env): Option<Value> {
    if IsList(env, x) then
      var v := EvalList(n, env);
      if v.Some? then Some(ListValue(env[x].items + v.value)) else None
    else if IsString(env, x) then
      var s := EvalString(n, env);
      if s.Some? then Some(StringValue(env[x].text + s.value)) else None
    else None
  }

  function EvalCond(n: Node, env: Env): Option<bool> {
    match n
    case Var(v) => if IsBool(env, v) then Some(env[v].flag) else None
    case Expr(op, kids) =>
      if op == Bang && |kids| == 1 then
        var a := EvalCond(kids[0], env);
        if a.Some? then Some(!a.value) else None
      else if |kids| == 2 && (op == Binary(P.EqEq) || op == Binary(P.NotEq)) then
        var l := EvalString(kids[0], env);
        var r := EvalString(kids[1], env);
        if l.Some? && r.Some? then Some((l.value == r.value) == (op == Binary(P.EqEq))) else None
      else if |kids| == 2 && (op == Binary(P.AndAnd) || op == Binary(P.OrOr)) then
        var l := EvalCond(kids[0], env);
        var r := EvalCond(kids[1], env);
        if l.Some? && r.Some? then
          Some(if op == Binary(P.AndAnd) then l.value && r.value else l.value || r.value)
        else None
      else None
    case _ => None
  }

  /** What the grammar allows after `else`: nothing, a block, or another condition. */
  predicate IsElse(n: Node) {
    n.Nothing? || n.List? || (n.Stmt? && n.kind.If?)
  }

  /**
    Running a statement or a block.  `excluded` names the calls that do not touch any variable of
    interest.  `None` is a GN error, or a construct this model gives no meaning.
   */
  function Exec(n: Node, env: Env, excluded: set<string>): Option<Env>
    decreases n, 1
  {
    match n
    case Comment(_) => Some(env)
    case Nothing => Some(env)
    case List(items) => ExecAll(items, env, excluded)
    case Stmt(kind, kids) =>
      (match kind
       case Call(name) => if name in excluded then Some(env) else None
       case Assign =>
         if |kids| == 2 && kids[0].Str? then
           var v := EvalList(kids[1], env);
           var s := EvalString(kids[1], env);
           if v.Some? then Some(env[kids[0].value := ListValue(v.value)])
           else if s.Some? then Some(env[kids[0].value := StringValue(s.value)])
           else None
         else None
       case Append =>
         if |kids| == 2 && kids[0].Str? then
           var v := Grow(kids[0].value, kids[1], env);
           if v.Some? then Some(env[kids[0].value := v.value]) else None
         else None
       case If =>
         if |kids| == 3 && kids[1].List? && IsElse(kids[2]) then
           var c := EvalCond(kids[0], env);
           if c.None? then None
           else if c.value then Exec(kids[1], env, excluded)
           else Exec(kids[2], env, excluded)
         else None
       case Remove => None
       case Foreach => None)
    case _ => None
  }

  function ExecAll(ns: seq<Node>, env: Env, excluded: set<string>): Option<Env>
    decreases ns, 0
  {
    if ns == [] then Some(env)
    else
      var r := Exec(ns[0], env, excluded);
      if r.Some? then ExecAll(ns[1..], r.value, excluded) else None
  }

  // ----- the pass that drops the excluded calls

  predicate IsExcluded(n: Node, excluded: set<string>) {
    n.Stmt? && n.kind.Call? && n.kind.name in excluded
  }

  function Exclude(n: Node, excluded: set<string>): Node
    decreases n, 1
  {
    match n
    case List(items) => List(ExcludeAll(items, excluded))
    case Stmt(kind, kids) => Stmt(kind, ExcludeAll(kids, excluded))
    case _ => n
  }

  function ExcludeAll(ns: seq<Node>, excluded: set<string>): seq<Node>
    decreases ns, 0
  {
    if ns == [] then []
    else if IsExcluded(ns[0], excluded) then ExcludeAll(ns[1..], excluded)
    else [Exclude(ns[0], excluded)] + ExcludeAll(ns[1..], excluded)
  }

  // ----- the pass that converts the operators

  /** Python's `len`, which is not defined on numbers and on `None`. */
  function Length(n: Node): Option<nat> {
    match n
    case Comment(t) => Some(|t|)
    case Var(v) => Some(|v|)
    case Str(s) => Some(|s|)
    case List(items) => Some(|items|)
    case Expr(_, kids) => Some(|kids|)
    case Stmt(_, kids) => Some(|kids|)
    case Int(_) => None
    case Nothing => None
  }

  function ConvertPlus(kids: seq<Node>): Option<Node> {
    if |kids| < 2 then None
    else if kids[0].Var? && kids[1].List? then
      Some(List([Var(Reference(kids[0].name))] + kids[1].items))
    else if Length(kids[0]).None? then None
    else if Length(kids[0]).value == 0 && kids[1].Var? then Some(Var(Reference(kids[1].name)))
    else Some(Expr(Binary(P.Plus), kids))
  }

  function RenameOp(op: OpName): OpName {
    match op
    case Binary(EqEq) => StrEqual
    case Binary(AndAnd) => And
    case Binary(OrOr) => Or
    case Bang => NotWord
    case _ => op
  }

  function Convert(n: Node): Option<Node>
    decreases n, 1
  {
    match n
    case List(items) =>
      var r := ConvertAll(items);
      if r.Some? then Some(List(r.value)) else None
    case Stmt(kind, kids) =>
      var r := ConvertAll(kids);
      if r.Some? then Some(Stmt(kind, r.value)) else None
    case Expr(op, kids) =>
      var r := ConvertAll(kids);
      if r.None? then None
      else if op == Binary(P.Plus) then ConvertPlus(r.value)
      else Some(Expr(RenameOp(op), r.value))
    case _ => Some(n)
  }

  function ConvertAll(ns: seq<Node>): Option<seq<Node>>
    decreases ns, 0
  {
    if ns == [] then Some([])
    else
      var head := Convert(ns[0]);
      var tail := ConvertAll(ns[1..]);
      if head.Some? && tail.Some? then Some([head.value] + tail.value) else None
  }

  lemma {:induction false} ConvertOne(kids: seq<Node>)
    requires |kids| == 1 && Convert(kids[0]).Some?
    ensures ConvertAll(kids).Some? && ConvertAll(kids).value == [Convert(kids[0]).value]
  {
    assert ConvertAll(kids[1..]) == Some([]);
  }

  lemma {:induction false} ConvertTwo(kids: seq<Node>)
    requires |kids| == 2 && Convert(kids[0]).Some? && Convert(kids[1]).Some?
    ensures ConvertAll(kids).Some? && ConvertAll(kids).value == [Convert(kids[0]).value, Convert(kids[1]).value]
  {
    ConvertOne(kids[1..]);
  }

  lemma {:induction false} ConvertThree(kids: seq<Node>)
    requires |kids| == 3 && Convert(kids[0]).Some? && Convert(kids[1]).Some? && Convert(kids[2]).Some?
    ensures ConvertAll(kids).Some? && ConvertAll(kids).value == [Convert(kids[0]).value, Convert(kids[1]).value, Convert(kids[2]).value]
  {
    ConvertTwo(kids[1..]);
  }

  // ----- dropping the excluded calls does not change what a program does

  lemma {:induction false} StringsUntouched(ns: seq<Node>, env: Env, excluded: set<string>)
    requires EvalStrings(ns, env).Some?
    ensures ExcludeAll(ns, excluded) == ns
  {
    if ns != [] {
      StringsUntouched(ns[1..], env, excluded);
    }
  }

  lemma {:induction false} ExcludeThree(kids: seq<Node>, excluded: set<string>)
    requires |kids| == 3 && forall k :: k in kids ==> !IsExcluded(k, excluded)
    ensures ExcludeAll(kids, excluded) ==
            [Exclude(kids[0], excluded), Exclude(kids[1], excluded), Exclude(kids[2], excluded)]
  {
    assert ExcludeAll(kids[1..][1..], excluded) == [Exclude(kids[2], excluded)];
  }

  lemma {:induction false} ExcludeTwo(kids: seq<Node>, excluded: set<string>)
    requires |kids| == 2 && forall k :: k in kids ==> !IsExcluded(k, excluded)
    ensures ExcludeAll(kids, excluded) == [Exclude(kids[0], excluded), Exclude(kids[1], excluded)]
  {
    assert ExcludeAll(kids[1..], excluded) == [Exclude(kids[1], excluded)];
  }

  /** A program that runs keeps its result when its excluded calls are dropped. */
  lemma {:induction false} ExcludeKeepsMeaning(n: Node, env: Env, excluded: set<string>)
    requires Exec(n, env, excluded).Some?
    ensures !IsExcluded(n, excluded) ==> Exec(Exclude(n, excluded), env, excluded) == Exec(n, env, excluded)
    decreases n, 1
  {
    match n
    case List(items) => ExcludeAllKeepsMeaning(items, env, excluded);
    case Stmt(kind, kids) =>
      if kind.Assign? || kind.Append? {
        ExcludeTwo(kids, excluded);
        if kids[1].List? {
          StringsUntouched(kids[1].items, env, excluded);
        }
      } else if kind.If? {
        ExcludeThree(kids, excluded);
        if EvalCond(kids[0], env).value {
          ExcludeKeepsMeaning(kids[1], env, excluded);
        } else {
          ExcludeKeepsMeaning(kids[2], env, excluded);
        }
      }
    case _ =>
  }

  lemma {:induction false} ExcludeAllKeepsMeaning(ns: seq<Node>, env: Env, excluded: set<string>)
    requires ExecAll(ns, env, excluded).Some?
    ensures ExecAll(ExcludeAll(ns, excluded), env, excluded) == ExecAll(ns, env, excluded)
    decreases ns, 0
  {
    if ns != [] {
      var next := Exec(ns[0], env, excluded).value;
      ExcludeKeepsMeaning(ns[0], env, excluded);
      ExcludeAllKeepsMeaning(ns[1..], next, excluded);
    }
  }
}
