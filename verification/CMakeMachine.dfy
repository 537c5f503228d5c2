/**
  The part of CMake that the converter's output uses, run the way CMake runs it: one pass over a
  flat list of tokens.  Nothing builds a tree; `if`, `else` and `endif` are matched by a stack.
 */
module CMakeMachine {
  import opened Prelude
  import opened CMakeArguments
  import opened CMakeConditions

  /** An open `if`: was the surrounding code running, did the condition hold, is the `else` reached. */
  datatype Frame = Frame(outer: bool, taken: bool, inElse: bool)

  datatype Pending = Idle | Reading(command: Command, args: seq<Tok>)

  datatype State = State(store: Store, frames: seq<Frame>, pending: Pending)

  predicate Running(f: Frame) {
    f.outer && (f.taken != f.inElse)
  }

  predicate Active(frames: seq<Frame>) {
    frames == [] || Running(frames[|frames| - 1])
  }

  function RunSet(args: seq<Tok>, store: Store): Option<Store> {
    var e := Expand(args, store);
    if e == [] then None
    else if |e| == 1 then Some(store - {e[0]})
    else Some(store[e[0] := Join(e[1..])])
  }

  function RunAppend(args: seq<Tok>, store: Store): Option<Store> {
    var e := Expand(args, store);
    if |e| < 2 || e[0] != "APPEND" then None
    else if |e| == 2 then Some(store)
    else
      var was := Get(store, e[1]);
      Some(store[e[1] := if was == "" then Join(e[2..]) else was + ";" + Join(e[2..])])
  }

  function Dispatch(command: Command, args: seq<Tok>, store: Store, frames: seq<Frame>): Option<State> {
    match command
    case Set =>
      if !Active(frames) then Some(State(store, frames, Idle))
      else
        var r := RunSet(args, store);
        if r.Some? then Some(State(r.value, frames, Idle)) else None
    case ListCommand =>
      if !Active(frames) then Some(State(store, frames, Idle))
      else
        var r := RunAppend(args, store);
        if r.Some? then Some(State(r.value, frames, Idle)) else None
    case IfCommand =>
      if !Active(frames) then Some(State(store, frames + [Frame(false, false, false)], Idle))
      else
        var c := EvalCondition(args, store);
        if c.Some? then Some(State(store, frames + [Frame(true, c.value, false)], Idle)) else None
    case Else =>
      if frames == [] || frames[|frames| - 1].inElse then None
      else
        var k := |frames| - 1;
        Some(State(store, frames[..k] + [frames[k].(inElse := true)], Idle))
    case EndIf =>
      if frames == [] then None else Some(State(store, frames[..|frames| - 1], Idle))
    case ForeachCommand => None
    case EndForeach => None
  }

  function Step(st: State, tok: Tok): Option<State> {
    match tok
    case Remark(_) => if st.pending.Idle? then Some(st) else None
    case Open(c) => if st.pending.Idle? then Some(st.(pending := Reading(c, []))) else None
    case Close =>
      if st.pending.Reading? then Dispatch(st.pending.command, Lexed(st.pending.args), st.store, st.frames) else None
    case _ =>
      if st.pending.Reading? then Some(st.(pending := Reading(st.pending.command, st.pending.args + [tok]))) else None
  }

  function Run(toks: seq<Tok>, st: State): Option<State> {
    if toks == [] then Some(st)
    else
      var next := Step(st, toks[0]);
      if next.Some? then Run(toks[1..], next.value) else None
  }

  lemma {:induction false} RunAppended(a: seq<Tok>, b: seq<Tok>, st: State)
    ensures Run(a + b, st) == if Run(a, st).Some? then Run(b, Run(a, st).value) else None
  {
    if a == [] {
      assert a + b == b;
    } else {
      assert (a + b)[1..] == a[1..] + b;
      var next := Step(st, a[0]);
      if next.Some? {
        RunAppended(a[1..], b, next.value);
      }
    }
  }

  predicate ArgumentText(args: seq<Tok>) {
    forall a :: a in args ==> a.Word? || a.Quoted? || a.Glue?
  }

  function Invocation(command: Command, args: seq<Tok>): seq<Tok> {
    [Open(command)] + args + [Close]
  }

  lemma {:induction false} ReadArguments(command: Command, done: seq<Tok>, args: seq<Tok>, store: Store, frames: seq<Frame>)
    requires ArgumentText(args)
    ensures Run(args, State(store, frames, Reading(command, done))) ==
            Some(State(store, frames, Reading(command, done + args)))
    decreases |args|
  {
    if args == [] {
      assert done + args == done;
    } else {
      assert args[0] in args && ArgumentText(args[1..]);
      var st := State(store, frames, Reading(command, done));
      assert Step(st, args[0]) == Some(State(store, frames, Reading(command, done + [args[0]])));
      ReadArguments(command, done + [args[0]], args[1..], store, frames);
      assert done + [args[0]] + args[1..] == done + args;
    }
  }

  /** A complete command, from its name to its closing parenthesis. */
  lemma {:induction false} RunText(command: Command, args: seq<Tok>, store: Store, frames: seq<Frame>)
    requires ArgumentText(args)
    ensures Run(Invocation(command, args), State(store, frames, Idle)) == Dispatch(command, Lexed(args), store, frames)
  {
    var st := State(store, frames, Idle);
    var reading := State(store, frames, Reading(command, []));
    RunAppended([Open(command)] + args, [Close], st);
    RunAppended([Open(command)], args, st);
    assert Run([Open(command)], st) == Run([], reading) == Some(reading);
    ReadArguments(command, [], args, store, frames);
    assert [] + args == args;
    var full := State(store, frames, Reading(command, args));
    var last := Dispatch(command, Lexed(args), store, frames);
    if last.Some? {
      assert Run([Close], full) == Run([], last.value);
    }
  }

  lemma RunCommand(command: Command, args: seq<Tok>, store: Store, frames: seq<Frame>)
    requires Arguments(args)
    ensures Run(Invocation(command, args), State(store, frames, Idle)) == Dispatch(command, args, store, frames)
  {
    RunText(command, args, store, frames);
    LexedApart(args);
  }
}
