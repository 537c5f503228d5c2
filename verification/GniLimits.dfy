/** Where the output does not mean what the program means, and exactly when it does. */
module GniLimits {
  import P = Precedence
  import opened Prelude
  import opened GnAst
  import opened CMakeArguments
  import opened CMakeConditions
  import opened CMakeMachine
  import opened CMakeWriter
  import opened GniStore
  import opened GniConditions
  import opened GniConditionLimits
  import opened GniLists
  import opened GniToCMake

  // ----- assignments and appends

  /** Every list that is converted to a list is a sum, and its words are its values exactly when the sum is kept. */
  lemma WordsKeptIff(e: Node, env: Env, store: Store, prepend: string)
    requires EvalList(e, env).Some? && Convert(e).Some? && Convert(e).value.List? && Related(env, store, prepend)
    ensures AllPlain(prepend, EvalList(e, env).value) ==> Solid(Expand(ListToks(e, prepend), store))
    ensures ListSum(e)
    ensures var values := EvalList(e, env).value;
            AllPlain(prepend, values) && Expand(ListToks(e, prepend), store) == Prefixed(prepend, values) <==>
            SumKept(e, env, store, prepend)
  {
    ListConverts(e, env);
    ConvertedIsSum(e, env);
    SumKeptIff(e, env, store, prepend);
    if AllPlain(prepend, EvalList(e, env).value) {
      LeavesSolid(Convert(e).value.items, store, prepend);
      SumExpands(e, env, store, prepend);
    }
  }

  /**
    What an assignment needs to be kept.  A right-hand side that does not convert to a list is
    written as an assignment of nothing, which is only right for the empty list.
   */
  predicate ValueKept(e: Node, env: Env, store: Store, prepend: string)
    requires Convert(e).Some?
  {
    if !Convert(e).value.List? then EvalList(e, env) == Some([])
    else EvalList(e, env).Some? && ListSum(e) && SumKept(e, env, store, prepend)
  }

  lemma StringConverts(e: Node, env: Env)
    requires EvalString(e, env).Some?
    ensures Convert(e).Some? && !Convert(e).value.List? && EvalList(e, env).None?
  {
    ItemConverts(e, env);
    if e.Expr? {
      assert EvalList(e.kids[0], env).None?;
    }
  }

  lemma EmptySet(x: string, store: Store)
    requires Name(x)
    ensures Run(Invocation(Set, [Word(x)]), State(store, [], Idle)) == Some(State(store - {x}, [], Idle))
  {
    RunCommand(Set, [Word(x)], store, []);
    SetStores(x, [], store);
    assert [Word(x)] + [] == [Word(x)];
  }

  /** Every assignment that GN evaluates is kept exactly when its value is. */
  lemma AssignKeptIff(x: string, e: Node, env: Env, store: Store, prepend: string)
    requires Name(x) && Related(env, store, prepend)
    requires EvalList(e, env).Some? || EvalString(e, env).Some?
    ensures var n := Stmt(Assign, [Str(x), e]);
            && Exec(n, env, {}).Some? && Convert(e).Some? && Writable(n, prepend)
            && var end := Run(Code(n, prepend), State(store, [], Idle));
               && end.Some?
               && (Related(Exec(n, env, {}).value, end.value.store, prepend) <==> ValueKept(e, env, store, prepend))
  {
    if EvalList(e, env).Some? {
      AssignListKeptIff(x, e, env, store, prepend);
    } else {
      AssignStringLost(x, e, env, store, prepend);
    }
  }

  /** A string on the right-hand side is never written. */
  lemma AssignStringLost(x: string, e: Node, env: Env, store: Store, prepend: string)
    requires Name(x) && EvalString(e, env).Some?
    ensures var n := Stmt(Assign, [Str(x), e]);
            && Exec(n, env, {}).Some? && Convert(e).Some? && Writable(n, prepend)
            && var end := Run(Code(n, prepend), State(store, [], Idle));
               end.Some? && !Related(Exec(n, env, {}).value, end.value.store, prepend)
    ensures !ValueKept(e, env, store, prepend)
  {
    var n := Stmt(Assign, [Str(x), e]);
    StringConverts(e, env);
    ConvertTwo([Str(x), e]);
    assert Code(n, prepend) == Invocation(Set, [Word(x)]);
    EmptySet(x, store);
    var s := EvalString(e, env).value;
    assert !Matches(StringValue(s), x, store - {x}, prepend);
    assert Exec(n, env, {}) == Some(env[x := StringValue(s)]) && env[x := StringValue(s)][x] == StringValue(s);
  }

  /** The code of an assignment, and the words it stores. */
  lemma AssignStores(x: string, e: Node, env: Env, store: Store, prepend: string)
    requires Name(x) && EvalList(e, env).Some?
    ensures var n := Stmt(Assign, [Str(x), e]);
            && Convert(e).Some? && Writable(n, prepend)
            && var words := if Convert(e).value.List? then Expand(ListToks(e, prepend), store) else [];
               Run(Code(n, prepend), State(store, [], Idle)) == Some(State(Stored(x, words, store), [], Idle))
  {
    var n, kids := Stmt(Assign, [Str(x), e]), [Str(x), e];
    ListConverts(e, env);
    if Convert(e).value.List? {
      var args := ListToks(e, prepend);
      AssignCode(kids, prepend);
      LeavesWritten(Convert(e).value.items, prepend);
      RunCommand(Set, [Word(x)] + args, store, []);
      SetStores(x, args, store);
    } else {
      ConvertTwo(kids);
      assert Code(n, prepend) == Invocation(Set, [Word(x)]);
      EmptySet(x, store);
    }
  }

  lemma AssignListKeptIff(x: string, e: Node, env: Env, store: Store, prepend: string)
    requires Name(x) && Related(env, store, prepend) && EvalList(e, env).Some?
    ensures var n := Stmt(Assign, [Str(x), e]);
            && Exec(n, env, {}) == Some(env[x := ListValue(EvalList(e, env).value)])
            && Convert(e).Some? && Writable(n, prepend)
            && var end := Run(Code(n, prepend), State(store, [], Idle));
               && end.Some?
               && (Related(env[x := ListValue(EvalList(e, env).value)], end.value.store, prepend) <==>
                   ValueKept(e, env, store, prepend))
  {
    var values := EvalList(e, env).value;
    AssignStores(x, e, env, store, prepend);
    if Convert(e).value.List? {
      WordsKeptIff(e, env, store, prepend);
      AssignedIff(x, Expand(ListToks(e, prepend), store), values, env, store, prepend);
    } else {
      AssignedIff(x, [], values, env, store, prepend);
    }
  }

  lemma AppendFinished(x: string, e: Node, store: Store, prepend: string)
    requires Name(x) && Convert(e).Some? && Convert(e).value.List? && Leaves(Convert(e).value.items)
    ensures var n := Stmt(Append, [Str(x), e]);
            && Writable(n, prepend)
            && Run(Code(n, prepend), State(store, [], Idle)) ==
               Some(State(Extended(x, Expand(ListToks(e, prepend), store), store), [], Idle))
  {
    var args := ListToks(e, prepend);
    AppendCode([Str(x), e], prepend);
    LeavesWritten(Convert(e).value.items, prepend);
    var words := [Word("APPEND"), Word(x)] + args;
    RunCommand(ListCommand, words, store, []);
    AppendStores(x, args, store);
  }

  lemma AppendUnfinished(x: string, e: Node, store: Store, prepend: string)
    requires Convert(e).Some? && !Convert(e).value.List?
    ensures var n := Stmt(Append, [Str(x), e]);
            && Writable(n, prepend)
            && var end := Run(Code(n, prepend), State(store, [], Idle)); end.Some? && end.value.pending.Reading?
  {
    ConvertTwo([Str(x), e]);
    UnfinishedAppend(x, store);
    assert Code(Stmt(Append, [Str(x), e]), prepend) == [Open(ListCommand), Word("APPEND"), Word(x)];
  }

  /** An append is a finished command exactly when its right-hand side converts to a list. */
  lemma AppendClosedIff(x: string, e: Node, env: Env, store: Store, prepend: string)
    requires Name(x) && (EvalList(e, env).Some? || EvalString(e, env).Some?)
    ensures var n := Stmt(Append, [Str(x), e]);
            && Convert(e).Some? && Writable(n, prepend)
            && var end := Run(Code(n, prepend), State(store, [], Idle));
               end.Some? && end.value.pending.Idle? <==> Convert(e).value.List?
  {
    if EvalString(e, env).Some? {
      StringConverts(e, env);
    } else {
      ListConverts(e, env);
    }
    if Convert(e).value.List? {
      AppendFinished(x, e, store, prepend);
    } else {
      AppendUnfinished(x, e, store, prepend);
    }
  }

  lemma ExecAppend(x: string, e: Node, env: Env)
    requires Grow(x, e, env).Some?
    ensures Exec(Stmt(Append, [Str(x), e]), env, {}) == Some(env[x := Grow(x, e, env).value])
  {
  }

  /**
    Every append that GN evaluates is kept exactly when it is one to a list and its value is written,
    and is the GN value; an append to a string is never finished.
   */
  lemma AppendKeptIff(x: string, e: Node, env: Env, store: Store, prepend: string)
    requires Grow(x, e, env).Some? && Related(env, store, prepend)
    ensures var n := Stmt(Append, [Str(x), e]);
            && Exec(n, env, {}) == Some(env[x := Grow(x, e, env).value]) && Convert(e).Some? && Writable(n, prepend)
            && var end := Run(Code(n, prepend), State(store, [], Idle));
               end.Some? && end.value.pending.Idle? && Related(Exec(n, env, {}).value, end.value.store, prepend) <==>
               IsList(env, x) && Convert(e).value.List? && ListSum(e) && SumKept(e, env, store, prepend)
  {
    ExecAppend(x, e, env);
    if IsList(env, x) {
      AppendListKeptIff(x, e, env, store, prepend);
    } else {
      StringConverts(e, env);
      AppendUnfinished(x, e, store, prepend);
    }
  }

  lemma AppendListKeptIff(x: string, e: Node, env: Env, store: Store, prepend: string)
    requires IsList(env, x) && Related(env, store, prepend) && EvalList(e, env).Some?
    ensures var n, values := Stmt(Append, [Str(x), e]), env[x].items + EvalList(e, env).value;
            && Convert(e).Some? && Writable(n, prepend)
            && var end := Run(Code(n, prepend), State(store, [], Idle));
               end.Some? && end.value.pending.Idle? && Related(env[x := ListValue(values)], end.value.store, prepend) <==>
               Convert(e).value.List? && ListSum(e) && SumKept(e, env, store, prepend)
  {
    var values := EvalList(e, env).value;
    assert Name(x) && Matches(env[x], x, store, prepend);
    ListConverts(e, env);
    if Convert(e).value.List? {
      AppendFinished(x, e, store, prepend);
      WordsKeptIff(e, env, store, prepend);
      AppendedIff(x, Expand(ListToks(e, prepend), store), values, env, store, prepend);
    } else {
      AppendUnfinished(x, e, store, prepend);
    }
  }

  /** The command that is never closed. */
  lemma UnfinishedAppend(x: string, store: Store)
    ensures var end := Run([Open(ListCommand), Word("APPEND"), Word(x)], State(store, [], Idle));
            end.Some? && end.value.pending.Reading?
  {
    var words := [Word("APPEND"), Word(x)];
    assert [Open(ListCommand), Word("APPEND"), Word(x)] == [Open(ListCommand)] + words;
    RunAppended([Open(ListCommand)], words, State(store, [], Idle));
    assert Run([Open(ListCommand)], State(store, [], Idle)) == Run([], State(store, [], Reading(ListCommand, [])));
    ReadArguments(ListCommand, [], words, store, []);
  }

  /**
    `x = ([] + v) + [ ... ]` is written with a reference to a reference: CMake looks up the variable
    whose name is the joined value of `v`, and that variable has to hold the same list.
   */
  lemma NestedReferenceKeptIff(x: string, v: string, items: seq<Node>, env: Env, store: Store, prepend: string)
    requires Name(x) && Related(env, store, prepend) && IsList(env, v) && EvalStrings(items, env).Some?
    ensures var plus := Binary(P.Plus);
            var n := Stmt(Assign, [Str(x), Expr(plus, [Expr(plus, [List([]), Var(v)]), List(items)])]);
            var words := Prefixed(prepend, env[v].items);
            && Exec(n, env, {}).Some? && Writable(n, prepend)
            && var end := Run(Code(n, prepend), State(store, [], Idle));
               && end.Some?
               && (Related(Exec(n, env, {}).value, end.value.store, prepend) <==>
                   Split(Get(store, Join(words))) == words && ItemsKept(items, env, prepend))
  {
    var l := Expr(Binary(P.Plus), [List([]), Var(v)]);
    var e := Expr(Binary(P.Plus), [l, List(items)]);
    VariableHeld(v, env, store, prepend);
    NestedValue(v, items, env);
    AssignListKeptIff(x, e, env, store, prepend);
    ListConverts(List(items), env);
    SumConverts(e, ConvertAll(items).value);
    assert FrontWords(e, store) == Split(Held(l, store)) + [] == Split(Held(l, store));
    assert Held(l, store) == Get(store, Held(Var(v), store));
    assert Literal(e) == items;
  }

  lemma NestedValue(v: string, items: seq<Node>, env: Env)
    requires IsList(env, v) && EvalStrings(items, env).Some?
    ensures var l := Expr(Binary(P.Plus), [List([]), Var(v)]);
            var e := Expr(Binary(P.Plus), [l, List(items)]);
            && ListSum(e) && EvalList(e, env) == Some(env[v].items + EvalStrings(items, env).value)
            && FrontValues(e, env) == env[v].items
  {
    var l := Expr(Binary(P.Plus), [List([]), Var(v)]);
    assert EvalList(List([]), env) == Some([]) && [] + env[v].items == env[v].items;
    assert EvalList(l, env) == Some(env[v].items);
    assert Referring(Var(v));
    assert env[v].items + [] == env[v].items;
  }

  /** `x = [ v ]` with a string variable `v` stores the name of the variable, unless that is its text. */
  lemma BareVariableKeptIff(x: string, v: string, env: Env, store: Store, prepend: string)
    requires Name(x) && Related(env, store, prepend) && IsString(env, v)
    ensures var n := Stmt(Assign, [Str(x), List([Var(v)])]);
            && Exec(n, env, {}).Some? && Writable(n, prepend)
            && var end := Run(Code(n, prepend), State(store, [], Idle));
               && end.Some?
               && (Related(Exec(n, env, {}).value, end.value.store, prepend) <==> prepend + env[v].text == v)
  {
    var e := List([Var(v)]);
    assert EvalStrings([Var(v)][1..], env) == Some([]);
    assert EvalStrings([Var(v)], env).Some?;
    AssignKeptIff(x, e, env, store, prepend);
    StringHeld(v, env, store, prepend);
    NameIsInert(v);
    assert ItemsKept([Var(v)], env, prepend) <==> ItemKept(Var(v), env, prepend);
  }

  // ----- a condition with an empty first block

  /** The variables a block assigns or appends to, on any path. */
  function Touched(n: Node): set<string>
    decreases n, 1
  {
    match n
    case List(items) => AllTouched(items)
    case Stmt(kind, kids) =>
      if (kind.Assign? || kind.Append?) && |kids| == 2 && kids[0].Str? then {kids[0].value}
      else if kind.If? && |kids| == 3 then Touched(kids[1]) + Touched(kids[2])
      else {}
    case _ => {}
  }

  function AllTouched(ns: seq<Node>): set<string>
    decreases ns, 0
  {
    if ns == [] then {} else Touched(ns[0]) + AllTouched(ns[1..])
  }

  /** Running code only changes what it touches, and never sets a flag. */
  predicate Frame(env: Env, env': Env, touched: set<string>) {
    && (forall x :: x in env ==> x in env')
    && (forall x :: x in env' ==> (x in env && env'[x] == env[x]) || (x in touched && !env'[x].BoolValue?))
  }

  lemma FrameSteps(a: Env, b: Env, c: Env, s: set<string>, t: set<string>)
    requires Frame(a, b, s) && Frame(b, c, t)
    ensures Frame(a, c, s + t)
  {
  }

  lemma {:induction false} ExecFrame(n: Node, env: Env, excluded: set<string>)
    requires Exec(n, env, excluded).Some?
    ensures Frame(env, Exec(n, env, excluded).value, Touched(n))
    decreases n, 1
  {
    match n
    case List(items) => ExecAllFrame(items, env, excluded);
    case Stmt(kind, kids) =>
      if kind.If? {
        var taken := if EvalCond(kids[0], env).value then kids[1] else kids[2];
        ExecFrame(taken, env, excluded);
      }
    case _ =>
  }

  lemma {:induction false} ExecAllFrame(ns: seq<Node>, env: Env, excluded: set<string>)
    requires ExecAll(ns, env, excluded).Some?
    ensures Frame(env, ExecAll(ns, env, excluded).value, AllTouched(ns))
    decreases ns, 0
  {
    if ns != [] {
      var next := Exec(ns[0], env, excluded).value;
      ExecFrame(ns[0], env, excluded);
      ExecAllFrame(ns[1..], next, excluded);
      FrameSteps(env, next, ExecAll(ns, env, excluded).value, Touched(ns[0]), AllTouched(ns[1..]));
    }
  }

  /** The list elements CMake finds in a value that is not a flag; an empty string is no element. */
  function Elements(v: Value, prepend: string): seq<string> {
    match v
    case ListValue(items) => items
    case StringValue(s) => if prepend + s == "" then [] else [s]
    case BoolValue(_) => []
  }

  /**
    The store already holds the value: what the variable held in GN, or nothing when neither side
    knows the variable.  Only for a flag, or a variable CMake alone knows, is the store consulted.
   */
  predicate AlreadyHeld(v: Value, x: string, env: Env, store: Store, prepend: string) {
    if x in env && !env[x].BoolValue? then
      Elements(v, prepend) == Elements(env[x], prepend) && (v.StringValue? ==> x in store)
    else if x !in store then v == ListValue([])
    else Matches(v, x, store, prepend)
  }

  /** A value that is not a flag matches when the store holds its elements. */
  lemma MatchesElements(v: Value, x: string, store: Store, prepend: string)
    requires !v.BoolValue?
    ensures Matches(v, x, store, prepend) <==>
            && AllPlain(prepend, Elements(v, prepend)) && (v.StringValue? ==> x in store)
            && Get(store, x) == Join(Prefixed(prepend, Elements(v, prepend)))
  {
    if v.StringValue? {
      var s := v.text;
      if prepend + s == "" {
        assert Elements(v, prepend) == [];
      } else {
        assert Prefixed(prepend, [s]) == [prepend + s];
        assert s in [s];
      }
    }
  }

  lemma HeldIff(v: Value, x: string, env: Env, store: Store, prepend: string)
    requires Related(env, store, prepend) && !v.BoolValue?
    ensures Matches(v, x, store, prepend) <==> AlreadyHeld(v, x, env, store, prepend)
  {
    MatchesElements(v, x, store, prepend);
    if x in env && !env[x].BoolValue? {
      var a, b := Elements(v, prepend), Elements(env[x], prepend);
      assert Matches(env[x], x, store, prepend);
      MatchesElements(env[x], x, store, prepend);
      PrefixedJoin(prepend, b);
      if Matches(v, x, store, prepend) {
        PrefixedJoin(prepend, a);
        PrefixedUnique(prepend, a, b);
      }
    } else if v.ListValue? && x !in store && Matches(v, x, store, prepend) {
      PrefixedJoin(prepend, v.items);
    }
  }

  /** The variable ends with the value it had. */
  predicate EndsAsBefore(x: string, env: Env, env': Env, store: Store, prepend: string)
    requires x in env'
  {
    (x in env && env'[x] == env[x]) || AlreadyHeld(env'[x], x, env, store, prepend)
  }

  /** Leaving code out keeps the relation exactly when all it touches ends with the value it had. */
  lemma LeftOutIff(env: Env, env': Env, touched: set<string>, store: Store, prepend: string)
    requires Related(env, store, prepend) && Frame(env, env', touched) && forall x :: x in touched ==> Name(x)
    ensures Related(env', store, prepend) <==>
            forall x :: x in touched && x in env' ==> EndsAsBefore(x, env, env', store, prepend)
  {
    forall x | x in env'
      ensures Name(x)
      ensures x in touched || Matches(env'[x], x, store, prepend)
      ensures Matches(env'[x], x, store, prepend) <==> EndsAsBefore(x, env, env', store, prepend)
    {
      if x in env && env'[x] == env[x] {
        assert Matches(env[x], x, store, prepend);
      } else {
        HeldIff(env'[x], x, env, store, prepend);
      }
    }
  }

  /** A condition that GN evaluates converts. */
  lemma {:induction false} CondConverts(n: Node, env: Env)
    requires EvalCond(n, env).Some?
    ensures Convert(n).Some?
  {
    if n.Expr? {
      if n.op.Bang? {
        CondConverts(n.kids[0], env);
        ConvertOne(n.kids);
      } else {
        if IsComparison(n.op) {
          ItemConverts(n.kids[0], env);
          ItemConverts(n.kids[1], env);
        } else {
          CondConverts(n.kids[0], env);
          CondConverts(n.kids[1], env);
        }
        ConvertTwo(n.kids);
      }
    }
  }

  lemma EmptyThenEmits(c: Node, o: Node, prepend: string)
    ensures Emit(Stmt(If, [c, List([]), o]), prepend) == Text([], true)
  {
  }

  lemma EmptyThenCode(cond: Node, other: Node, env: Env, prepend: string)
    requires EvalCond(cond, env).Some? && Convert(other).Some?
    ensures var n := Stmt(If, [cond, List([]), other]); Writable(n, prepend) && Code(n, prepend) == []
  {
    CondConverts(cond, env);
    var c, o, kids := Convert(cond).value, Convert(other).value, [cond, List([]), other];
    assert Convert(kids[1]) == Some(List([]));
    ConvertThree(kids);
    EmptyThenEmits(c, o, prepend);
    assert Convert(Stmt(If, kids)) == Some(Stmt(If, [c, List([]), o]));
  }

  /**
    A condition whose first block is empty is not written at all.  Nothing is lost exactly when the
    condition holds, or every variable the `else` part assigns or appends to ends with the value it
    had.
   */
  lemma EmptyThenKeptIff(cond: Node, other: Node, env: Env, store: Store, prepend: string, excluded: set<string>)
    requires Related(env, store, prepend) && Convert(other).Some?
    requires Exec(Stmt(If, [cond, List([]), other]), env, excluded).Some?
    requires forall x :: x in Touched(other) ==> Name(x)
    ensures var n := Stmt(If, [cond, List([]), other]);
            && Writable(n, prepend) && Code(n, prepend) == [] && EvalCond(cond, env).Some?
            && (Related(Exec(n, env, excluded).value, store, prepend) <==>
                EvalCond(cond, env).value ||
                (Exec(other, env, excluded).Some? &&
                 var env' := Exec(other, env, excluded).value;
                 forall x :: x in Touched(other) && x in env' ==> EndsAsBefore(x, env, env', store, prepend)))
  {
    EmptyThenCode(cond, other, env, prepend);
    if !EvalCond(cond, env).value {
      ExecFrame(other, env, excluded);
      LeftOutIff(env, Exec(other, env, excluded).value, Touched(other), store, prepend);
    }
  }

  // ----- an `else` part that only appends

  predicate OnlyAppends(n: Node)
    decreases n, 1
  {
    match n
    case List(items) => AllOnlyAppend(items)
    case Stmt(kind, kids) => !kind.Assign? && (kind.If? && |kids| == 3 ==> OnlyAppends(kids[1]) && OnlyAppends(kids[2]))
    case _ => true
  }

  predicate AllOnlyAppend(ns: seq<Node>)
    decreases ns, 0
  {
    ns == [] || (OnlyAppends(ns[0]) && AllOnlyAppend(ns[1..]))
  }

  /** Every append on the path that GN takes has an empty right-hand side. */
  predicate AddsNothing(n: Node, env: Env)
    decreases n, 1
  {
    match n
    case List(items) => AllAddNothing(items, env)
    case Stmt(kind, kids) =>
      if kind.Append? then |kids| == 2 && (EvalList(kids[1], env) == Some([]) || EvalString(kids[1], env) == Some(""))
      else if kind.If? && |kids| == 3 && EvalCond(kids[0], env).Some? then
        (if EvalCond(kids[0], env).value then AddsNothing(kids[1], env) else AddsNothing(kids[2], env))
      else true
    case _ => true
  }

  predicate AllAddNothing(ns: seq<Node>, env: Env)
    decreases ns, 0
  {
    ns == [] || (AddsNothing(ns[0], env) && AllAddNothing(ns[1..], env))
  }

  predicate Grown(env: Env, env': Env) {
    && env.Keys == env'.Keys
    && forall x :: x in env ==>
         match env[x]
         case ListValue(items) => env'[x].ListValue? && items <= env'[x].items
         case StringValue(text) => env'[x].StringValue? && text <= env'[x].text
         case BoolValue(_) => env'[x] == env[x]
  }

  lemma GrownBack(a: Env, b: Env, c: Env)
    requires Grown(a, b) && Grown(b, c)
    ensures Grown(a, c) && (a == c ==> a == b)
  {
    if a == c {
      forall x | x in a
        ensures a[x] == b[x]
      {
        if a[x].ListValue? {
          assert a[x].items <= b[x].items && b[x].items <= c[x].items;
        } else if a[x].StringValue? {
          assert a[x].text <= b[x].text && b[x].text <= c[x].text;
        }
      }
    }
  }

  lemma ListGrows(env: Env, x: string, added: seq<string>)
    requires IsList(env, x)
    ensures var env' := env[x := ListValue(env[x].items + added)]; Grown(env, env') && (env' == env <==> added == [])
  {
    var env' := env[x := ListValue(env[x].items + added)];
    if added == [] {
      assert env[x].items + added == env[x].items;
    } else {
      assert |env'[x].items| > |env[x].items|;
    }
  }

  lemma StringGrows(env: Env, x: string, added: string)
    requires IsString(env, x)
    ensures var env' := env[x := StringValue(env[x].text + added)]; Grown(env, env') && (env' == env <==> added == "")
  {
    var env' := env[x := StringValue(env[x].text + added)];
    if added == "" {
      assert env[x].text + added == env[x].text;
    } else {
      assert |env'[x].text| > |env[x].text|;
    }
  }

  lemma AppendGrows(x: string, e: Node, env: Env)
    requires Grow(x, e, env).Some?
    ensures var env' := env[x := Grow(x, e, env).value];
            Grown(env, env') && (env' == env <==> EvalList(e, env) == Some([]) || EvalString(e, env) == Some(""))
  {
    if IsList(env, x) {
      ListGrows(env, x, EvalList(e, env).value);
      if EvalString(e, env).Some? {
        StringConverts(e, env);
      }
    } else {
      StringGrows(env, x, EvalString(e, env).value);
      StringConverts(e, env);
    }
  }

  /** Code that only appends changes nothing exactly when all it appends is empty. */
  lemma {:induction false} AppendsKeepIff(n: Node, env: Env, excluded: set<string>)
    requires OnlyAppends(n) && Exec(n, env, excluded).Some?
    ensures Grown(env, Exec(n, env, excluded).value)
    ensures Exec(n, env, excluded).value == env <==> AddsNothing(n, env)
    decreases n, 1
  {
    match n
    case List(items) => AllAppendsKeepIff(items, env, excluded);
    case Stmt(kind, kids) =>
      if kind.If? {
        var taken := if EvalCond(kids[0], env).value then kids[1] else kids[2];
        AppendsKeepIff(taken, env, excluded);
      } else if kind.Append? {
        AppendGrows(kids[0].value, kids[1], env);
      }
    case _ =>
  }

  lemma {:induction false} AllAppendsKeepIff(ns: seq<Node>, env: Env, excluded: set<string>)
    requires AllOnlyAppend(ns) && ExecAll(ns, env, excluded).Some?
    ensures Grown(env, ExecAll(ns, env, excluded).value)
    ensures ExecAll(ns, env, excluded).value == env <==> AllAddNothing(ns, env)
    decreases ns, 0
  {
    if ns != [] {
      var next := Exec(ns[0], env, excluded).value;
      AppendsKeepIff(ns[0], env, excluded);
      AllAppendsKeepIff(ns[1..], next, excluded);
      GrownBack(env, next, ExecAll(ns[1..], next, excluded).value);
    }
  }

  lemma GrownRelated(env: Env, env': Env, store: Store, prepend: string)
    requires Related(env, store, prepend) && Grown(env, env')
    ensures Related(env', store, prepend) <==> env' == env
  {
    if Related(env', store, prepend) {
      forall x | x in env
        ensures env'[x] == env[x]
      {
        assert Matches(env[x], x, store, prepend) && Matches(env'[x], x, store, prepend);
        if env[x].ListValue? {
          PrefixedJoin(prepend, env[x].items);
          PrefixedJoin(prepend, env'[x].items);
          PrefixedUnique(prepend, env[x].items, env'[x].items);
        } else if env[x].StringValue? {
          PrefixInjective(prepend, env[x].text, env'[x].text);
        }
      }
    }
  }

  /** An `else` part that only appends is lost exactly when it is reached and appends something. */
  lemma EmptyThenAppendsIff(cond: Node, other: Node, env: Env, store: Store, prepend: string, excluded: set<string>)
    requires Related(env, store, prepend) && Convert(other).Some? && OnlyAppends(other)
    requires Exec(Stmt(If, [cond, List([]), other]), env, excluded).Some?
    ensures var n := Stmt(If, [cond, List([]), other]);
            && Writable(n, prepend) && Code(n, prepend) == [] && EvalCond(cond, env).Some?
            && (Related(Exec(n, env, excluded).value, store, prepend) <==>
                EvalCond(cond, env).value || AddsNothing(other, env))
  {
    EmptyThenCode(cond, other, env, prepend);
    if !EvalCond(cond, env).value {
      AppendsKeepIff(other, env, excluded);
      GrownRelated(env, Exec(other, env, excluded).value, store, prepend);
    }
  }

  /** The block `x += [ "a" ]`. */
  function AppendBlock(x: string, a: string): Node {
    List([Stmt(Append, [Str(x), List([Str(a)])])])
  }

  lemma AppendBlockRuns(x: string, a: string, env: Env)
    requires IsList(env, x) && '$' !in a && '\\' !in a
    ensures Exec(AppendBlock(x, a), env, {}) == Some(env[x := ListValue(env[x].items + [a])])
    ensures OnlyAppends(AppendBlock(x, a)) && !AddsNothing(AppendBlock(x, a), env)
  {
    var append, items := Stmt(Append, [Str(x), List([Str(a)])]), [Str(a)];
    assert EvalStrings(items, env) == Some([a]) by {
      assert EvalStrings(items[1..], env) == Some([]) && [a] + [] == [a];
    }
    assert EvalList(List(items), env) == Some([a]);
    var env' := env[x := ListValue(env[x].items + [a])];
    assert Exec(append, env, {}) == Some(env');
    assert [append][1..] == [];
    assert ExecAll([append], env, {}) == ExecAll([], env', {});
    assert OnlyAppends(append) && AllOnlyAppend([append]) && !AddsNothing(append, env);
  }

  lemma AppendBlockConverts(x: string, a: string)
    ensures Convert(AppendBlock(x, a)).Some?
  {
    ConvertOne([Str(a)]);
    ConvertTwo([Str(x), List([Str(a)])]);
    ConvertOne([Stmt(Append, [Str(x), List([Str(a)])])]);
  }

  /** A lost `else`: `if (flag) { } else { x += [ "a" ] }` with the flag off. */
  lemma LostElse(flag: string, x: string, a: string, env: Env, store: Store, prepend: string)
    requires Related(env, store, prepend) && IsBool(env, flag) && !env[flag].flag && IsList(env, x)
    requires '$' !in a && '\\' !in a
    ensures var n := Stmt(If, [Var(flag), List([]), AppendBlock(x, a)]);
            && Writable(n, prepend) && Code(n, prepend) == []
            && Exec(n, env, {}) == Some(env[x := ListValue(env[x].items + [a])])
            && !Related(Exec(n, env, {}).value, store, prepend)
  {
    AppendBlockRuns(x, a, env);
    AppendBlockConverts(x, a);
    EmptyThenAppendsIff(Var(flag), AppendBlock(x, a), env, store, prepend, {});
  }

  lemma TwoStrings(v: string, foo: string, b: string, env: Env, store: Store, prepend: string)
    requires Name(v) && Name(foo) && Name(b) && v != foo && prepend == ""
    requires env == map[v := StringValue(foo), foo := StringValue(b)] && store == map[v := foo, foo := b]
    ensures Related(env, store, prepend) && prepend + foo == foo && prepend + b == b && Inert(b)
  {
    NameIsInert(foo);
    NameIsInert(b);
    assert prepend + foo == foo && prepend + b == b;
  }

  /** The second look-up: with `v` holding `foo` and `foo` holding `b`, `"" + v == "b"` becomes true. */
  lemma DereferencedTwice(v: string, foo: string, b: string, env: Env, store: Store, prepend: string)
    requires Name(v) && Name(foo) && Name(b) && v != foo && foo != b && !IsOtherTest(foo) && prepend == ""
    requires env == map[v := StringValue(foo), foo := StringValue(b)] && store == map[v := foo, foo := b]
    ensures Related(env, store, prepend)
    ensures EvalCond(ReferenceTest(v, b), env) == Some(false) && !Kept(ReferenceTest(v, b), env, store, prepend)
  {
    TwoStrings(v, foo, b, env, store, prepend);
    ReferenceTestValue(v, b, env);
    ReferenceKeptIff(v, b, env, store, prepend);
  }
}
