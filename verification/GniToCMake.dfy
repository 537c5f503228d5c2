/**
  The converter is correct on the programs it is meant for: running the tokens it writes leaves
  every variable with the value GN gives it, each string under the prepended path.
 */
module GniToCMake {
  import opened Prelude
  import opened GnAst
  import opened CMakeArguments
  import opened CMakeMachine
  import opened CMakeWriter
  import opened GniStore
  import opened GniConditions
  import opened GniLists

  // ----- the supported programs

  predicate Supported(n: Node, prepend: string, ctx: Context)
    decreases n, 1
  {
    match n
    case Comment(_) => true
    case List(items) => AllSupported(items, prepend, ctx)
    case Stmt(kind, kids) =>
      if kind.Assign? || kind.Append? then
        && |kids| == 2 && kids[0].Str? && Name(kids[0].value) && kids[0].value in ctx.names
        && SupportedList(kids[1], prepend, ctx)
      else
        && kind.If? && |kids| == 3 && CondForm(kids[0], prepend, ctx)
        && kids[1].List? && kids[1].items != [] && Supported(kids[1], prepend, ctx)
        && IsElse(kids[2]) && (kids[2].Nothing? || Supported(kids[2], prepend, ctx))
    case _ => false
  }

  predicate AllSupported(ns: seq<Node>, prepend: string, ctx: Context)
    decreases ns, 0
  {
    ns == [] || (Supported(ns[0], prepend, ctx) && AllSupported(ns[1..], prepend, ctx))
  }

  // ----- the code of a supported program

  predicate Writable(n: Node, prepend: string) {
    Convert(n).Some? && Emit(Convert(n).value, prepend).ok
  }

  predicate AllWritable(ns: seq<Node>, prepend: string) {
    ConvertAll(ns).Some? && EmitAll(ConvertAll(ns).value, prepend).ok
  }

  function Code(n: Node, prepend: string): seq<Tok>
    requires Writable(n, prepend)
  {
    Emit(Convert(n).value, prepend).toks
  }

  function AllCode(ns: seq<Node>, prepend: string): seq<Tok>
    requires AllWritable(ns, prepend)
  {
    EmitAll(ConvertAll(ns).value, prepend).toks
  }

  predicate HasElse(n: Node) {
    n.Stmt? || (n.List? && n.items != [])
  }

  function ElseCode(n: Node, prepend: string): seq<Tok>
    requires HasElse(n) ==> Writable(n, prepend)
  {
    if HasElse(n) then Invocation(Else, []) + Code(n, prepend) else []
  }

  lemma AssignCode(kids: seq<Node>, prepend: string)
    requires |kids| == 2 && kids[0].Str?
    requires Convert(kids[1]).Some? && Convert(kids[1]).value.List? && Leaves(Convert(kids[1]).value.items)
    ensures var n := Stmt(Assign, kids);
            && Writable(n, prepend)
            && Code(n, prepend) == Invocation(Set, [Word(kids[0].value)] + ListToks(kids[1], prepend))
  {
    LeavesWritten(Convert(kids[1]).value.items, prepend);
    ConvertTwo(kids);
  }

  lemma AppendCode(kids: seq<Node>, prepend: string)
    requires |kids| == 2 && kids[0].Str?
    requires Convert(kids[1]).Some? && Convert(kids[1]).value.List? && Leaves(Convert(kids[1]).value.items)
    ensures var n := Stmt(Append, kids);
            && Writable(n, prepend)
            && Code(n, prepend) ==
               Invocation(ListCommand, [Word("APPEND"), Word(kids[0].value)] + ListToks(kids[1], prepend))
  {
    LeavesWritten(Convert(kids[1]).value.items, prepend);
    ConvertTwo(kids);
  }

  lemma {:induction false} ConvertLength(ns: seq<Node>)
    requires ConvertAll(ns).Some?
    ensures |ConvertAll(ns).value| == |ns|
  {
    if ns != [] {
      ConvertLength(ns[1..]);
    }
  }

  /** The else part is written exactly if there is one. */
  lemma ElseConverts(n: Node, prepend: string)
    requires IsElse(n) && (HasElse(n) ==> Writable(n, prepend))
    ensures Convert(n).Some? && (Truthy(Convert(n).value) <==> HasElse(n))
  {
    if HasElse(n) && n.List? {
      ConvertLength(n.items);
    } else if HasElse(n) {
      ConvertLength(n.kids);
    }
  }

  lemma IfEmitted(cond: Node, body: Node, orElse: Node, prepend: string)
    requires body.List? && body.items != [] && Emit(cond, prepend).ok && Emit(body, prepend).ok
    requires Truthy(orElse) ==> Emit(orElse, prepend).ok
    ensures var last := if Truthy(orElse) then Invocation(Else, []) + Emit(orElse, prepend).toks else [];
            Emit(Stmt(If, [cond, body, orElse]), prepend) ==
            Text(Invocation(IfCommand, Emit(cond, prepend).toks) + Emit(body, prepend).toks + last + Invocation(EndIf, []), true)
  {
    var kids := [cond, body, orElse];
    assert EmitCondition(kids[0], prepend) == Text(Invocation(IfCommand, Emit(cond, prepend).toks), true);
    assert [Open(EndIf), Close] == Invocation(EndIf, []) && [Open(Else), Close] == Invocation(Else, []);
    if Truthy(orElse) {
      assert EmitElse(kids[2], prepend) == Text(Invocation(Else, []) + Emit(orElse, prepend).toks, true);
    }
  }

  lemma IfCode(kids: seq<Node>, prepend: string)
    requires |kids| == 3 && kids[1].List? && kids[1].items != [] && IsElse(kids[2])
    requires Writable(kids[0], prepend) && Writable(kids[1], prepend)
    requires HasElse(kids[2]) ==> Writable(kids[2], prepend)
    ensures Writable(Stmt(If, kids), prepend)
    ensures Code(Stmt(If, kids), prepend) ==
            Invocation(IfCommand, Code(kids[0], prepend)) + Code(kids[1], prepend)
            + ElseCode(kids[2], prepend) + Invocation(EndIf, [])
  {
    ElseConverts(kids[2], prepend);
    ConvertThree(kids);
    ConvertLength(kids[1].items);
    IfEmitted(Convert(kids[0]).value, Convert(kids[1]).value, Convert(kids[2]).value, prepend);
  }

  lemma BlockCode(ns: seq<Node>, prepend: string)
    requires ns != [] && Writable(ns[0], prepend) && AllWritable(ns[1..], prepend)
    ensures AllWritable(ns, prepend)
    ensures AllCode(ns, prepend) == Code(ns[0], prepend) + AllCode(ns[1..], prepend)
  {
    EmitCons(Convert(ns[0]).value, ConvertAll(ns[1..]).value, prepend);
  }

  lemma {:induction false} CondToksArguments(n: Node, prepend: string, ctx: Context)
    requires Readable(n, prepend, ctx)
    ensures ArgumentText(CondToks(n, prepend, ctx))
  {
    if n.Expr? && !IsComparison(n.op) {
      CondToksArguments(n.kids[0], prepend, ctx);
      if |n.kids| == 2 {
        CondToksArguments(n.kids[1], prepend, ctx);
      }
    }
  }

  lemma CondCode(n: Node, prepend: string, ctx: Context)
    requires CondForm(n, prepend, ctx)
    ensures Writable(n, prepend) && ArgumentText(Code(n, prepend))
  {
    CondFormReadable(n, prepend, ctx);
    CondWritten(n, prepend, ctx);
    CondToksArguments(n, prepend, ctx);
  }

  lemma {:induction false} SupportedWritable(n: Node, prepend: string, ctx: Context)
    requires Supported(n, prepend, ctx)
    ensures Writable(n, prepend)
    decreases n, 1
  {
    match n
    case Comment(_) =>
    case List(items) => AllSupportedWritable(items, prepend, ctx);
    case Stmt(kind, kids) =>
      if kind.Assign? {
        SupportedConverts(kids[1], prepend, ctx);
        AssignCode(kids, prepend);
      } else if kind.Append? {
        SupportedConverts(kids[1], prepend, ctx);
        AppendCode(kids, prepend);
      } else {
        CondCode(kids[0], prepend, ctx);
        SupportedWritable(kids[1], prepend, ctx);
        if HasElse(kids[2]) {
          SupportedWritable(kids[2], prepend, ctx);
        }
        IfCode(kids, prepend);
      }
  }

  lemma {:induction false} AllSupportedWritable(ns: seq<Node>, prepend: string, ctx: Context)
    requires AllSupported(ns, prepend, ctx)
    ensures AllWritable(ns, prepend)
    decreases ns, 0
  {
    if ns != [] {
      SupportedWritable(ns[0], prepend, ctx);
      AllSupportedWritable(ns[1..], prepend, ctx);
      BlockCode(ns, prepend);
    }
  }

  // ----- code in a branch that is not running changes nothing

  lemma CommandSkipped(command: Command, args: seq<Tok>, store: Store, frames: seq<Frame>)
    requires Arguments(args) && !Active(frames) && (command.Set? || command.ListCommand?)
    ensures Run(Invocation(command, args), State(store, frames, Idle)) == Some(State(store, frames, Idle))
  {
    RunCommand(command, args, store, frames);
  }

  /** The commands around the branches of one condition. */
  lemma BranchFrames(store: Store, frames: seq<Frame>, f: Frame)
    requires !f.inElse
    ensures Run(Invocation(Else, []), State(store, frames + [f], Idle)) ==
            Some(State(store, frames + [f.(inElse := true)], Idle))
  {
    RunCommand(Else, [], store, frames + [f]);
    assert (frames + [f])[..|frames|] == frames;
  }

  lemma EndFrames(store: Store, frames: seq<Frame>, f: Frame)
    ensures Run(Invocation(EndIf, []), State(store, frames + [f], Idle)) == Some(State(store, frames, Idle))
  {
    RunCommand(EndIf, [], store, frames + [f]);
    assert (frames + [f])[..|frames|] == frames;
  }

  /** Running the four parts of a written condition one after the other. */
  lemma RunFour(a: seq<Tok>, b: seq<Tok>, c: seq<Tok>, d: seq<Tok>, st0: State, st1: State, st2: State, st3: State)
    requires Run(a, st0) == Some(st1) && Run(b, st1) == Some(st2) && Run(c, st2) == Some(st3)
    ensures Run(a + b + c + d, st0) == Run(d, st3)
  {
    RunAppended(a + b + c, d, st0);
    RunAppended(a + b, c, st0);
    RunAppended(a, b, st0);
  }

  lemma {:induction false} Skipped(n: Node, prepend: string, ctx: Context, store: Store, frames: seq<Frame>)
    requires Supported(n, prepend, ctx) && Writable(n, prepend) && !Active(frames)
    ensures Run(Code(n, prepend), State(store, frames, Idle)) == Some(State(store, frames, Idle))
    decreases n, 1
  {
    var st := State(store, frames, Idle);
    match n
    case Comment(t) =>
      assert Run([Remark(t)], st) == Run([], st);
    case List(items) =>
      AllSkipped(items, prepend, ctx, store, frames);
    case Stmt(kind, kids) =>
      if kind.Assign? {
        SupportedConverts(kids[1], prepend, ctx);
        LeavesWritten(Convert(kids[1]).value.items, prepend);
        AssignCode(kids, prepend);
        CommandSkipped(Set, [Word(kids[0].value)] + ListToks(kids[1], prepend), store, frames);
      } else if kind.Append? {
        SupportedConverts(kids[1], prepend, ctx);
        LeavesWritten(Convert(kids[1]).value.items, prepend);
        AppendCode(kids, prepend);
        CommandSkipped(ListCommand, [Word("APPEND"), Word(kids[0].value)] + ListToks(kids[1], prepend), store, frames);
      } else {
        IfSkipped(kids, prepend, ctx, store, frames);
      }
  }

  lemma {:induction false} IfSkipped(kids: seq<Node>, prepend: string, ctx: Context, store: Store, frames: seq<Frame>)
    requires Supported(Stmt(If, kids), prepend, ctx) && Writable(Stmt(If, kids), prepend) && !Active(frames)
    ensures Run(Code(Stmt(If, kids), prepend), State(store, frames, Idle)) == Some(State(store, frames, Idle))
    decreases kids, 2
  {
    var f := Frame(false, false, false);
    var st, inThen, inElse := State(store, frames, Idle), State(store, frames + [f], Idle),
                              State(store, frames + [f.(inElse := true)], Idle);
    CondCode(kids[0], prepend, ctx);
    SupportedWritable(kids[1], prepend, ctx);
    RunText(IfCommand, Code(kids[0], prepend), store, frames);
    Skipped(kids[1], prepend, ctx, store, frames + [f]);
    if HasElse(kids[2]) {
      SupportedWritable(kids[2], prepend, ctx);
      BranchFrames(store, frames, f);
      Skipped(kids[2], prepend, ctx, store, frames + [f.(inElse := true)]);
      RunAppended(Invocation(Else, []), Code(kids[2], prepend), inThen);
    }
    IfCode(kids, prepend);
    var last := if HasElse(kids[2]) then inElse else inThen;
    RunFour(Invocation(IfCommand, Code(kids[0], prepend)), Code(kids[1], prepend), ElseCode(kids[2], prepend),
            Invocation(EndIf, []), st, inThen, inThen, last);
    EndFrames(store, frames, if HasElse(kids[2]) then f.(inElse := true) else f);
  }

  lemma {:induction false} AllSkipped(ns: seq<Node>, prepend: string, ctx: Context, store: Store, frames: seq<Frame>)
    requires AllSupported(ns, prepend, ctx) && AllWritable(ns, prepend) && !Active(frames)
    ensures Run(AllCode(ns, prepend), State(store, frames, Idle)) == Some(State(store, frames, Idle))
    decreases ns, 0
  {
    if ns != [] {
      SupportedWritable(ns[0], prepend, ctx);
      AllSupportedWritable(ns[1..], prepend, ctx);
      BlockCode(ns, prepend);
      Skipped(ns[0], prepend, ctx, store, frames);
      AllSkipped(ns[1..], prepend, ctx, store, frames);
      RunAppended(Code(ns[0], prepend), AllCode(ns[1..], prepend), State(store, frames, Idle));
    }
  }

  // ----- code in a running branch does what the GN statement does

  predicate Fits(env: Env, store: Store, prepend: string, ctx: Context) {
    Related(env, store, prepend) && Clear(ctx, env, store, prepend)
  }

  /** A list assigned to a variable that may be set leaves the references clear. */
  lemma ClearAfter(x: string, values: seq<string>, env: Env, store: Store, store': Store, prepend: string, ctx: Context)
    requires Clear(ctx, env, store, prepend) && x in ctx.names && store'.Keys <= store.Keys + {x}
    ensures Clear(ctx, env[x := ListValue(values)], store', prepend)
  {
  }

  lemma SupportedIsList(e: Node, prepend: string, ctx: Context, env: Env)
    requires SupportedList(e, prepend, ctx)
    ensures EvalString(e, env).None?
  {
  }

  lemma AssignRuns(kids: seq<Node>, prepend: string, ctx: Context, env: Env, store: Store, frames: seq<Frame>,
                   excluded: set<string>)
    returns (store': Store)
    requires Supported(Stmt(Assign, kids), prepend, ctx) && Writable(Stmt(Assign, kids), prepend) && Active(frames)
    requires Fits(env, store, prepend, ctx) && Exec(Stmt(Assign, kids), env, excluded).Some?
    ensures Run(Code(Stmt(Assign, kids), prepend), State(store, frames, Idle)) == Some(State(store', frames, Idle))
    ensures Fits(Exec(Stmt(Assign, kids), env, excluded).value, store', prepend, ctx)
  {
    var x, e := kids[0].value, kids[1];
    SupportedConverts(e, prepend, ctx);
    LeavesWritten(Convert(e).value.items, prepend);
    SupportedIsList(e, prepend, ctx, env);
    var args, values := ListToks(e, prepend), EvalList(e, env).value;
    AssignCode(kids, prepend);
    RunCommand(Set, [Word(x)] + args, store, frames);
    SetStores(x, args, store);
    ListExpanded(e, env, store, prepend, ctx);
    PrefixedPlain(prepend, values);
    AssignedIff(x, Prefixed(prepend, values), values, env, store, prepend);
    store' := Stored(x, Prefixed(prepend, values), store);
    ClearAfter(x, values, env, store, store', prepend, ctx);
  }

  lemma AppendRuns(kids: seq<Node>, prepend: string, ctx: Context, env: Env, store: Store, frames: seq<Frame>,
                   excluded: set<string>)
    returns (store': Store)
    requires Supported(Stmt(Append, kids), prepend, ctx) && Writable(Stmt(Append, kids), prepend) && Active(frames)
    requires Fits(env, store, prepend, ctx) && Exec(Stmt(Append, kids), env, excluded).Some?
    ensures Run(Code(Stmt(Append, kids), prepend), State(store, frames, Idle)) == Some(State(store', frames, Idle))
    ensures Fits(Exec(Stmt(Append, kids), env, excluded).value, store', prepend, ctx)
  {
    var x, e := kids[0].value, kids[1];
    SupportedConverts(e, prepend, ctx);
    LeavesWritten(Convert(e).value.items, prepend);
    var args, values := ListToks(e, prepend), EvalList(e, env).value;
    AppendCode(kids, prepend);
    RunCommand(ListCommand, [Word("APPEND"), Word(x)] + args, store, frames);
    AppendStores(x, args, store);
    ListExpanded(e, env, store, prepend, ctx);
    PrefixedPlain(prepend, values);
    AppendedIff(x, Prefixed(prepend, values), values, env, store, prepend);
    store' := Extended(x, Prefixed(prepend, values), store);
    ClearAfter(x, env[x].items + values, env, store, store', prepend, ctx);
  }

  lemma {:induction false} Runs(n: Node, prepend: string, ctx: Context, env: Env, store: Store, frames: seq<Frame>, excluded: set<string>)
    returns (store': Store)
    requires Supported(n, prepend, ctx) && Writable(n, prepend) && Active(frames)
    requires Fits(env, store, prepend, ctx) && Exec(n, env, excluded).Some?
    ensures Run(Code(n, prepend), State(store, frames, Idle)) == Some(State(store', frames, Idle))
    ensures Fits(Exec(n, env, excluded).value, store', prepend, ctx)
    decreases n, 1
  {
    var st := State(store, frames, Idle);
    match n
    case Comment(t) =>
      store' := store;
      assert Run([Remark(t)], st) == Run([], st);
    case List(items) =>
      store' := AllRun(items, prepend, ctx, env, store, frames, excluded);
    case Stmt(kind, kids) =>
      if kind.Assign? {
        store' := AssignRuns(kids, prepend, ctx, env, store, frames, excluded);
      } else if kind.Append? {
        store' := AppendRuns(kids, prepend, ctx, env, store, frames, excluded);
      } else {
        store' := IfRuns(kids, prepend, ctx, env, store, frames, excluded);
      }
  }

  lemma ConditionRuns(n: Node, prepend: string, ctx: Context, env: Env, store: Store, frames: seq<Frame>)
    requires CondForm(n, prepend, ctx) && EvalCond(n, env).Some? && Fits(env, store, prepend, ctx) && Active(frames)
    ensures Writable(n, prepend)
    ensures Run(Invocation(IfCommand, Code(n, prepend)), State(store, frames, Idle)) ==
            Some(State(store, frames + [Frame(true, EvalCond(n, env).value, false)], Idle))
  {
    CondCode(n, prepend, ctx);
    ConditionKept(n, env, store, prepend, ctx);
    RunText(IfCommand, Code(n, prepend), store, frames);
  }

  lemma {:induction false} IfRuns(kids: seq<Node>, prepend: string, ctx: Context, env: Env, store: Store, frames: seq<Frame>,
                                  excluded: set<string>)
    returns (store': Store)
    requires Supported(Stmt(If, kids), prepend, ctx) && Writable(Stmt(If, kids), prepend) && Active(frames)
    requires Fits(env, store, prepend, ctx) && Exec(Stmt(If, kids), env, excluded).Some?
    ensures Run(Code(Stmt(If, kids), prepend), State(store, frames, Idle)) == Some(State(store', frames, Idle))
    ensures Fits(Exec(Stmt(If, kids), env, excluded).value, store', prepend, ctx)
    decreases kids, 2
  {
    var cond := EvalCond(kids[0], env).value;
    var f := Frame(true, cond, false);
    ConditionRuns(kids[0], prepend, ctx, env, store, frames);
    SupportedWritable(kids[1], prepend, ctx);
    var mid := store;
    if cond {
      mid := Runs(kids[1], prepend, ctx, env, store, frames + [f], excluded);
    } else {
      Skipped(kids[1], prepend, ctx, store, frames + [f]);
    }
    if HasElse(kids[2]) {
      SupportedWritable(kids[2], prepend, ctx);
    }
    store' := ElseRuns(kids[2], cond, prepend, ctx, env, mid, frames, excluded);
    IfCode(kids, prepend);
    var h := f.(inElse := HasElse(kids[2]));
    RunFour(Invocation(IfCommand, Code(kids[0], prepend)), Code(kids[1], prepend), ElseCode(kids[2], prepend),
            Invocation(EndIf, []), State(store, frames, Idle), State(store, frames + [f], Idle),
            State(mid, frames + [f], Idle), State(store', frames + [h], Idle));
    EndFrames(store', frames, h);
  }

  /** The `else` part, reached after the first branch ran or was skipped. */
  lemma {:induction false} ElseRuns(n: Node, cond: bool, prepend: string, ctx: Context, env: Env, store: Store, frames: seq<Frame>,
                                    excluded: set<string>)
    returns (store': Store)
    requires IsElse(n) && (n.Nothing? || Supported(n, prepend, ctx)) && (HasElse(n) ==> Writable(n, prepend))
    requires !cond ==> Fits(env, store, prepend, ctx) && Exec(n, env, excluded).Some?
    ensures Run(ElseCode(n, prepend), State(store, frames + [Frame(true, cond, false)], Idle)) ==
            Some(State(store', frames + [Frame(true, cond, HasElse(n))], Idle))
    ensures if cond then store' == store else Fits(Exec(n, env, excluded).value, store', prepend, ctx)
    decreases n, 2
  {
    var f, g := Frame(true, cond, false), Frame(true, cond, true);
    store' := store;
    if HasElse(n) {
      BranchFrames(store, frames, f);
      if cond {
        Skipped(n, prepend, ctx, store, frames + [g]);
      } else {
        store' := Runs(n, prepend, ctx, env, store, frames + [g], excluded);
      }
      RunAppended(Invocation(Else, []), Code(n, prepend), State(store, frames + [f], Idle));
    }
  }

  lemma {:induction false} AllRun(ns: seq<Node>, prepend: string, ctx: Context, env: Env, store: Store, frames: seq<Frame>,
                                  excluded: set<string>)
    returns (store': Store)
    requires AllSupported(ns, prepend, ctx) && AllWritable(ns, prepend) && Active(frames)
    requires Fits(env, store, prepend, ctx) && ExecAll(ns, env, excluded).Some?
    ensures Run(AllCode(ns, prepend), State(store, frames, Idle)) == Some(State(store', frames, Idle))
    ensures Fits(ExecAll(ns, env, excluded).value, store', prepend, ctx)
    decreases ns, 0
  {
    store' := store;
    if ns != [] {
      SupportedWritable(ns[0], prepend, ctx);
      AllSupportedWritable(ns[1..], prepend, ctx);
      BlockCode(ns, prepend);
      var mid := Runs(ns[0], prepend, ctx, env, store, frames, excluded);
      store' := AllRun(ns[1..], prepend, ctx, Exec(ns[0], env, excluded).value, mid, frames, excluded);
      RunAppended(Code(ns[0], prepend), AllCode(ns[1..], prepend), State(store, frames, Idle));
    }
  }

  // ----- the main result

  /** The whole pipeline: drop the excluded calls, convert the operators, write. */
  function Compile(program: Node, prepend: string, excluded: set<string>): Option<seq<Tok>> {
    var converted := Convert(Exclude(program, excluded));
    if converted.Some? && Emit(converted.value, prepend).ok then Some(Emit(converted.value, prepend).toks) else None
  }

  /**
    For every program the converter supports, every prefix and every start: if GN runs the program,
    CMake runs the output to the end with every `if` closed, and every variable then holds its GN
    value under the prefix.
   */
  lemma CompilerCorrect(program: Node, prepend: string, excluded: set<string>, ctx: Context, env: Env, store: Store)
    requires program.List? && Supported(Exclude(program, excluded), prepend, ctx)
    requires Exec(program, env, excluded).Some? && Fits(env, store, prepend, ctx)
    ensures Compile(program, prepend, excluded).Some?
    ensures var end := Run(Compile(program, prepend, excluded).value, State(store, [], Idle));
            && end.Some? && end.value.frames == [] && end.value.pending == Idle
            && Fits(Exec(program, env, excluded).value, end.value.store, prepend, ctx)
  {
    var kept := Exclude(program, excluded);
    ExcludeKeepsMeaning(program, env, excluded);
    SupportedWritable(kept, prepend, ctx);
    var store' := Runs(kept, prepend, ctx, env, store, [], excluded);
  }
}
