/** The lists of a GN program: what is written for one, and what CMake stores for it. */
module GniLists {
  import P = Precedence
  import opened Prelude
  import opened GnAst
  import opened CMakeArguments
  import opened CMakeMachine
  import opened CMakeWriter
  import opened GniStore
  import opened GniConditions

  // ----- every list that GN evaluates is written as words and strings

  predicate Leaves(cs: seq<Node>) {
    forall c :: c in cs ==> c.Str? || c.Var?
  }

  /** Each string among the items is one of the values. */
  predicate StringsAmong(cs: seq<Node>, values: seq<string>) {
    forall c :: c in cs && c.Str? ==> c.value in values
  }

  lemma ItemConverts(n: Node, env: Env)
    requires EvalString(n, env).Some?
    ensures Convert(n) == Some(if n.Expr? then Var(Reference(n.kids[1].name)) else n)
    ensures n.Str? ==> n.value == EvalString(n, env).value
  {
    if n.Expr? {
      ConvertTwo(n.kids);
    }
  }

  lemma {:induction false} ItemsConvert(ns: seq<Node>, env: Env)
    requires EvalStrings(ns, env).Some?
    ensures ConvertAll(ns).Some? && Leaves(ConvertAll(ns).value)
    ensures StringsAmong(ConvertAll(ns).value, EvalStrings(ns, env).value)
  {
    if ns != [] {
      ItemConverts(ns[0], env);
      ItemsConvert(ns[1..], env);
    }
  }

  lemma {:induction false} ListConverts(e: Node, env: Env)
    requires EvalList(e, env).Some?
    ensures Convert(e).Some? && !Convert(e).value.Str?
    ensures Convert(e).value.List? ==>
              Leaves(Convert(e).value.items) && StringsAmong(Convert(e).value.items, EvalList(e, env).value)
  {
    if e.List? {
      ItemsConvert(e.items, env);
    } else if e.Expr? {
      ListConverts(e.kids[0], env);
      ListConverts(e.kids[1], env);
      ConvertTwo(e.kids);
    }
  }

  lemma {:induction false} LeavesWritten(cs: seq<Node>, prepend: string)
    requires Leaves(cs)
    ensures EmitAll(cs, prepend).ok && Arguments(EmitAll(cs, prepend).toks)
  {
    if cs != [] {
      assert cs[0] in cs && forall c :: c in cs[1..] ==> c in cs;
      LeavesWritten(cs[1..], prepend);
    }
  }

  // ----- list elements

  predicate Solid(words: seq<string>) {
    forall w :: w in words ==> w != "" && ';' !in w
  }

  lemma {:induction false} SplitSolid(item: string, rest: string)
    requires ';' !in item
    ensures Solid(SplitFrom(item, rest))
    decreases |rest|
  {
    if rest != "" {
      if rest[0] == ';' {
        SplitSolid("", rest[1..]);
      } else {
        SplitSolid(item + [rest[0]], rest[1..]);
      }
    }
  }

  lemma {:induction false} LeavesSolid(cs: seq<Node>, store: Store, prepend: string)
    requires Leaves(cs) && forall c :: c in cs && c.Str? ==> Plain(prepend + c.value)
    ensures Solid(Expand(EmitAll(cs, prepend).toks, store))
  {
    if cs != [] {
      assert cs[0] in cs && forall c :: c in cs[1..] ==> c in cs;
      LeavesSolid(cs[1..], store, prepend);
      LeavesWritten(cs[1..], prepend);
      var first := Emit(cs[0], prepend).toks;
      ExpandAppend(first, EmitAll(cs[1..], prepend).toks, store);
      if cs[0].Str? {
        QuotedExpands(prepend + cs[0].value, store);
      } else {
        SplitSolid("", Substitute(cs[0].name, store));
        assert Expand(first, store) == Split(Substitute(cs[0].name, store)) + Expand([], store);
      }
    }
  }

  // ----- the store after an assignment or an append

  predicate AllPlain(prepend: string, items: seq<string>) {
    forall s :: s in items ==> Plain(prepend + s)
  }

  lemma PlainAppend(prepend: string, a: seq<string>, b: seq<string>)
    ensures AllPlain(prepend, a + b) <==> AllPlain(prepend, a) && AllPlain(prepend, b)
  {
    assert forall s :: s in a + b <==> s in a || s in b;
  }

  /** Storing a list keeps the relation exactly when the elements are those of the GN list. */
  lemma StoreList(env: Env, store: Store, store': Store, x: string, values: seq<string>, words: seq<string>, prepend: string)
    requires Related(env, store, prepend) && Name(x)
    requires Get(store', x) == Join(words) && (AllPlain(prepend, values) ==> Solid(words))
    requires forall y :: y != x ==> (y in store <==> y in store') && (y in store ==> store[y] == store'[y])
    ensures Related(env[x := ListValue(values)], store', prepend) <==>
            AllPlain(prepend, values) && words == Prefixed(prepend, values)
  {
    var env' := env[x := ListValue(values)];
    forall y | y in env && y != x
      ensures Name(y) && Matches(env'[y], y, store', prepend)
    {
      assert Matches(env[y], y, store, prepend);
    }
    if AllPlain(prepend, values) {
      PrefixedJoin(prepend, values);
      SplitJoin(words);
    }
    assert Related(env', store', prepend) <==> Matches(env'[x], x, store', prepend);
  }

  lemma NameFirst(x: string, args: seq<Tok>, store: Store)
    requires Name(x)
    ensures Expand([Word(x)] + args, store) == [x] + Expand(args, store)
  {
    NameExpands(x, store);
    ExpandAppend([Word(x)], args, store);
  }

  lemma NamesFirst(k: string, x: string, args: seq<Tok>, store: Store)
    requires Name(k) && Name(x)
    ensures Expand([Word(k), Word(x)] + args, store) == [k, x] + Expand(args, store)
  {
    NameFirst(x, args, store);
    NameFirst(k, [Word(x)] + args, store);
    assert [Word(k), Word(x)] + args == [Word(k)] + ([Word(x)] + args);
  }

  /** The store a `set` leaves. */
  function Stored(x: string, words: seq<string>, store: Store): Store {
    if words == [] then store - {x} else store[x := Join(words)]
  }

  /** The store an append leaves. */
  function Extended(x: string, words: seq<string>, store: Store): Store {
    if words == [] then store
    else store[x := if Get(store, x) == "" then Join(words) else Get(store, x) + ";" + Join(words)]
  }

  lemma SetStores(x: string, args: seq<Tok>, store: Store)
    requires Name(x)
    ensures RunSet([Word(x)] + args, store) == Some(Stored(x, Expand(args, store), store))
  {
    NameFirst(x, args, store);
    var e := [x] + Expand(args, store);
    assert e[1..] == Expand(args, store);
  }

  lemma AppendStores(x: string, args: seq<Tok>, store: Store)
    requires Name(x)
    ensures RunAppend([Word("APPEND"), Word(x)] + args, store) == Some(Extended(x, Expand(args, store), store))
  {
    NamesFirst("APPEND", x, args, store);
    var e := ["APPEND", x] + Expand(args, store);
    assert e[2..] == Expand(args, store);
  }

  lemma AssignedIff(x: string, words: seq<string>, values: seq<string>, env: Env, store: Store, prepend: string)
    requires Related(env, store, prepend) && Name(x) && (AllPlain(prepend, values) ==> Solid(words))
    ensures Related(env[x := ListValue(values)], Stored(x, words, store), prepend) <==>
            AllPlain(prepend, values) && words == Prefixed(prepend, values)
  {
    StoreList(env, store, Stored(x, words, store), x, values, words, prepend);
  }

  lemma AppendedIff(x: string, words: seq<string>, values: seq<string>, env: Env, store: Store, prepend: string)
    requires Related(env, store, prepend) && IsList(env, x) && (AllPlain(prepend, values) ==> Solid(words))
    ensures Related(env[x := ListValue(env[x].items + values)], Extended(x, words, store), prepend) <==>
            AllPlain(prepend, values) && words == Prefixed(prepend, values)
  {
    var items := env[x].items;
    var had, store' := Prefixed(prepend, items), Extended(x, words, store);
    assert Name(x) && Matches(env[x], x, store, prepend);
    PrefixedJoin(prepend, items);
    PrefixedPlain(prepend, items);
    if words == [] {
      assert had + words == had;
    } else if had == [] {
      assert had + words == words;
    } else {
      JoinAppend(had, words);
    }
    StoreList(env, store, store', x, items + values, had + words, prepend);
    PrefixedAppend(prepend, items, values);
    PlainAppend(prepend, items, values);
    if had + words == Prefixed(prepend, items + values) {
      assert (had + words)[|had|..] == words && (had + Prefixed(prepend, values))[|had|..] == Prefixed(prepend, values);
    }
  }

  // ----- the lists of the supported programs

  predicate SupportedItem(n: Node, prepend: string, ctx: Context) {
    (n.Str? && Plain(prepend + n.value)) || (IsStringReference(n) && n.kids[1].name in ctx.items)
  }

  predicate SupportedItems(ns: seq<Node>, prepend: string, ctx: Context) {
    forall n :: n in ns ==> SupportedItem(n, prepend, ctx)
  }

  /** A literal list, or a variable plus one. */
  predicate SupportedList(e: Node, prepend: string, ctx: Context) {
    || (e.List? && SupportedItems(e.items, prepend, ctx))
    || (IsSum(e) && SupportedList(e.kids[1], prepend, ctx))
  }

  /** A variable plus something. */
  predicate IsSum(e: Node) {
    e.Expr? && e.op == Binary(P.Plus) && |e.kids| == 2 && e.kids[0].Var?
  }

  lemma {:induction false} SupportedItemsConvert(ns: seq<Node>, prepend: string, ctx: Context)
    requires SupportedItems(ns, prepend, ctx)
    ensures ConvertAll(ns).Some? && Leaves(ConvertAll(ns).value)
  {
    if ns != [] {
      assert ns[0] in ns && forall n :: n in ns[1..] ==> n in ns;
      SupportedItemsConvert(ns[1..], prepend, ctx);
      if ns[0].Expr? {
        ConvertTwo(ns[0].kids);
      }
    }
  }

  lemma {:induction false} SupportedConverts(e: Node, prepend: string, ctx: Context)
    requires SupportedList(e, prepend, ctx)
    ensures Convert(e).Some? && Convert(e).value.List? && Leaves(Convert(e).value.items)
  {
    if e.List? {
      SupportedItemsConvert(e.items, prepend, ctx);
    } else {
      SupportedConverts(e.kids[1], prepend, ctx);
      ConvertTwo(e.kids);
    }
  }

  /** The arguments written for a list. */
  function ListToks(e: Node, prepend: string): seq<Tok>
    requires Convert(e).Some? && Convert(e).value.List?
  {
    EmitAll(Convert(e).value.items, prepend).toks
  }

  // ----- what the items expand to

  /** A variable as an item is written as its name. */
  function ItemWord(n: Node, env: Env, prepend: string): string
    requires EvalString(n, env).Some?
  {
    if n.Var? then n.name else prepend + EvalString(n, env).value
  }

  function ItemWords(ns: seq<Node>, env: Env, prepend: string): seq<string>
    requires EvalStrings(ns, env).Some?
  {
    if ns == [] then [] else [ItemWord(ns[0], env, prepend)] + ItemWords(ns[1..], env, prepend)
  }

  lemma ItemExpands(n: Node, env: Env, store: Store, prepend: string)
    requires EvalString(n, env).Some? && Related(env, store, prepend) && Plain(prepend + EvalString(n, env).value)
    ensures Convert(n).Some? && Emit(Convert(n).value, prepend).ok
    ensures Expand(Emit(Convert(n).value, prepend).toks, store) == [ItemWord(n, env, prepend)]
  {
    ItemConverts(n, env);
    if n.Str? {
      QuotedExpands(prepend + n.value, store);
    } else if n.Var? {
      StringHeld(n.name, env, store, prepend);
      NameExpands(n.name, store);
    } else {
      var v := n.kids[1].name;
      StringHeld(v, env, store, prepend);
      ReferenceExpands(v, store);
      SplitOne(prepend + env[v].text);
    }
  }

  lemma {:induction false} ItemsExpand(ns: seq<Node>, env: Env, store: Store, prepend: string)
    requires EvalStrings(ns, env).Some? && Related(env, store, prepend)
    requires AllPlain(prepend, EvalStrings(ns, env).value)
    ensures ConvertAll(ns).Some?
    ensures Expand(EmitAll(ConvertAll(ns).value, prepend).toks, store) == ItemWords(ns, env, prepend)
  {
    if ns != [] {
      var values := EvalStrings(ns, env).value;
      assert values[0] == EvalString(ns[0], env).value && values[0] in values;
      assert forall s :: s in values[1..] ==> s in values;
      ItemExpands(ns[0], env, store, prepend);
      ItemsExpand(ns[1..], env, store, prepend);
      var c, rest := Convert(ns[0]).value, ConvertAll(ns[1..]).value;
      EmitCons(c, rest, prepend);
      ExpandAppend(Emit(c, prepend).toks, EmitAll(rest, prepend).toks, store);
    }
  }

  // ----- sums

  /** A variable, or the empty list plus one, which is written as a reference. */
  predicate Referring(l: Node) {
    l.Var? || (IsPlus(l) && l.kids[0] == List([]) && Referring(l.kids[1]))
  }

  predicate IsPlus(e: Node) {
    e.Expr? && e.op == Binary(P.Plus) && |e.kids| == 2
  }

  /** A literal list with any number of such operands in front of it. */
  predicate ListSum(e: Node) {
    e.List? || (IsPlus(e) && Referring(e.kids[0]) && ListSum(e.kids[1]))
  }

  /** What the operand is converted to. */
  function Spelled(l: Node): string
    requires Referring(l)
  {
    if l.Var? then l.name else Reference(Spelled(l.kids[1]))
  }

  /**
    What CMake reads for a reference to the operand: a variable gives its text, and the empty list
    plus an operand gives the text of the variable whose name is what that operand gives.
   */
  function Held(l: Node, store: Store): string
    requires Referring(l)
  {
    if l.Var? then Get(store, l.name) else Get(store, Held(l.kids[1], store))
  }

  lemma {:induction false} OperandRefers(l: Node, env: Env)
    requires EvalList(l, env).Some? && Convert(l).Some? && Convert(l).value.Var? && "" !in env
    ensures Referring(l)
  {
    if l.Expr? {
      ListConverts(l.kids[0], env);
      ListConverts(l.kids[1], env);
      ConvertTwo(l.kids);
      EmptyConverted(l.kids[0], env);
      OperandRefers(l.kids[1], env);
    }
  }

  /** Nothing but the empty list is converted to something of length zero. */
  lemma EmptyConverted(e: Node, env: Env)
    requires EvalList(e, env).Some? && Convert(e).Some? && "" !in env
    ensures Length(Convert(e).value) == Some(0) ==> e == List([])
  {
    if e.Expr? {
      ListConverts(e.kids[0], env);
      ListConverts(e.kids[1], env);
      ConvertTwo(e.kids);
    }
  }

  lemma {:induction false} OperandConverts(l: Node)
    requires Referring(l)
    ensures Convert(l) == Some(Var(Spelled(l)))
  {
    if l.Expr? {
      OperandConverts(l.kids[1]);
      ConvertTwo(l.kids);
    }
  }

  /** The lists that are converted to a list are the sums. */
  lemma {:induction false} ConvertedIsSum(e: Node, env: Env)
    requires EvalList(e, env).Some? && Convert(e).Some? && Convert(e).value.List? && "" !in env
    ensures ListSum(e)
  {
    if e.Expr? {
      ListConverts(e.kids[0], env);
      ListConverts(e.kids[1], env);
      ConvertTwo(e.kids);
      OperandRefers(e.kids[0], env);
      ConvertedIsSum(e.kids[1], env);
    }
  }

  lemma {:induction false} OperandScanned(l: Node, env: Env, rest: string, stack: seq<string>, store: Store)
    requires Referring(l) && EvalList(l, env).Some? && stack != []
    requires forall x :: x in env ==> Name(x)
    ensures var k := |stack| - 1;
            Scan(Reference(Spelled(l)) + rest, stack, store) == Scan(rest, stack[..k] + [stack[k] + Held(l, store)], store)
  {
    var inner := if l.Var? then l.name else Held(l.kids[1], store);
    ReferenceOpened(Spelled(l), rest, stack, store);
    if l.Var? {
      ScanText(l.name, "}" + rest, stack + [""], store);
    } else {
      OperandScanned(l.kids[1], env, "}" + rest, stack + [""], store);
    }
    TopReplaced(stack, inner);
    ReferenceClosed(inner, rest, stack, store);
  }

  lemma TopReplaced(stack: seq<string>, text: string)
    ensures var s, k := stack + [""], |stack|; s[..k] + [s[k] + text] == stack + [text]
  {
    assert "" + text == text;
  }

  lemma ReferenceOpened(name: string, rest: string, stack: seq<string>, store: Store)
    requires stack != []
    ensures Scan(Reference(name) + rest, stack, store) == Scan(name + ("}" + rest), stack + [""], store)
  {
    assert (Reference(name) + rest)[2..] == name + ("}" + rest);
  }

  lemma ReferenceClosed(name: string, rest: string, stack: seq<string>, store: Store)
    requires stack != []
    ensures var k := |stack| - 1;
            Scan("}" + rest, stack + [name], store) == Scan(rest, stack[..k] + [stack[k] + Get(store, name)], store)
  {
    var k, s := |stack| - 1, stack + [name];
    assert ("}" + rest)[1..] == rest && s[..k] == stack[..k];
  }

  lemma OperandExpands(l: Node, env: Env, store: Store)
    requires Referring(l) && EvalList(l, env).Some? && forall x :: x in env ==> Name(x)
    ensures Expand([Word(Reference(Spelled(l)))], store) == Split(Held(l, store))
  {
    var text, held := Reference(Spelled(l)), Held(l, store);
    OperandScanned(l, env, "", [""], store);
    assert text + "" == text && "" + held == held;
    assert [""][..0] + [held] == [held];
  }

  /** The words the operands in front of the literal are read as. */
  function FrontWords(e: Node, store: Store): seq<string>
    requires ListSum(e)
  {
    if e.List? then [] else Split(Held(e.kids[0], store)) + FrontWords(e.kids[1], store)
  }

  /** The values they have. */
  function FrontValues(e: Node, env: Env): seq<string>
    requires ListSum(e) && EvalList(e, env).Some?
  {
    if e.List? then [] else EvalList(e.kids[0], env).value + FrontValues(e.kids[1], env)
  }

  function Literal(e: Node): seq<Node>
    requires ListSum(e)
  {
    if e.List? then e.items else Literal(e.kids[1])
  }

  lemma {:induction false} SumValue(e: Node, env: Env)
    requires ListSum(e) && EvalList(e, env).Some?
    ensures EvalStrings(Literal(e), env).Some?
    ensures EvalList(e, env).value == FrontValues(e, env) + EvalStrings(Literal(e), env).value
  {
    if !e.List? {
      SumValue(e.kids[1], env);
    }
  }

  lemma SumConverts(e: Node, cs: seq<Node>)
    requires IsPlus(e) && Referring(e.kids[0]) && Convert(e.kids[1]) == Some(List(cs))
    ensures Convert(e) == Some(List([Var(Reference(Spelled(e.kids[0])))] + cs))
  {
    OperandConverts(e.kids[0]);
    ConvertTwo(e.kids);
  }

  lemma Grouped(a: seq<string>, b: seq<string>, c: seq<string>)
    ensures a + (b + c) == a + b + c
  {
  }

  lemma {:induction false} SumExpands(e: Node, env: Env, store: Store, prepend: string)
    requires ListSum(e) && EvalList(e, env).Some? && Related(env, store, prepend)
    requires AllPlain(prepend, EvalList(e, env).value)
    ensures Convert(e).Some? && Convert(e).value.List? && EvalStrings(Literal(e), env).Some?
    ensures Expand(ListToks(e, prepend), store) == FrontWords(e, store) + ItemWords(Literal(e), env, prepend)
  {
    if e.List? {
      ItemsExpand(e.items, env, store, prepend);
    } else {
      var l, r := e.kids[0], e.kids[1];
      PlainAppend(prepend, EvalList(l, env).value, EvalList(r, env).value);
      SumExpands(r, env, store, prepend);
      var cs := Convert(r).value.items;
      SumConverts(e, cs);
      OperandFirst(l, cs, env, store, prepend);
      Grouped(Split(Held(l, store)), FrontWords(r, store), ItemWords(Literal(e), env, prepend));
    }
  }

  /** A reference to an operand in front of other items. */
  lemma OperandFirst(l: Node, cs: seq<Node>, env: Env, store: Store, prepend: string)
    requires Referring(l) && EvalList(l, env).Some? && Related(env, store, prepend)
    ensures Expand(EmitAll([Var(Reference(Spelled(l)))] + cs, prepend).toks, store) ==
            Split(Held(l, store)) + Expand(EmitAll(cs, prepend).toks, store)
  {
    var text := Reference(Spelled(l));
    EmitCons(Var(text), cs, prepend);
    OperandExpands(l, env, store);
    ExpandAppend([Word(text)], EmitAll(cs, prepend).toks, store);
  }

  // ----- when the words are the values

  /** The item is written as what it stands for: no bare variable unless it holds its own name, and plain text. */
  predicate ItemKept(n: Node, env: Env, prepend: string)
    requires EvalString(n, env).Some?
  {
    Plain(prepend + EvalString(n, env).value) && (n.Var? ==> n.name == prepend + EvalString(n, env).value)
  }

  predicate ItemsKept(ns: seq<Node>, env: Env, prepend: string)
    requires EvalStrings(ns, env).Some?
  {
    ns == [] || (ItemKept(ns[0], env, prepend) && ItemsKept(ns[1..], env, prepend))
  }

  /** What the operands in front are read as is what they stand for, and the literal is kept. */
  predicate SumKept(e: Node, env: Env, store: Store, prepend: string)
    requires ListSum(e) && EvalList(e, env).Some?
  {
    SumValue(e, env);
    FrontWords(e, store) == Prefixed(prepend, FrontValues(e, env)) && ItemsKept(Literal(e), env, prepend)
  }

  lemma PlainCons(prepend: string, s: string, rest: seq<string>)
    ensures AllPlain(prepend, [s] + rest) <==> Plain(prepend + s) && AllPlain(prepend, rest)
    ensures Prefixed(prepend, [s] + rest) == [prepend + s] + Prefixed(prepend, rest)
  {
    assert forall t :: t in [s] + rest <==> t == s || t in rest;
  }

  lemma {:induction false} ItemsKeptIff(ns: seq<Node>, env: Env, prepend: string)
    requires EvalStrings(ns, env).Some?
    ensures var values := EvalStrings(ns, env).value;
            AllPlain(prepend, values) && ItemWords(ns, env, prepend) == Prefixed(prepend, values) <==>
            ItemsKept(ns, env, prepend)
  {
    if ns != [] {
      ItemsKeptIff(ns[1..], env, prepend);
      var s, rest := EvalString(ns[0], env).value, EvalStrings(ns[1..], env).value;
      PlainCons(prepend, s, rest);
      var words, w := ItemWords(ns[1..], env, prepend), ItemWord(ns[0], env, prepend);
      ConsEqual(w, words, prepend + s, Prefixed(prepend, rest));
    }
  }

  lemma ConsEqual(a: string, s: seq<string>, b: string, t: seq<string>)
    ensures [a] + s == [b] + t <==> a == b && s == t
  {
    assert ([a] + s)[1..] == s && ([b] + t)[1..] == t;
    assert ([a] + s)[0] == a && ([b] + t)[0] == b;
  }

  /** Lists whose second halves are of one length are equal half by half. */
  lemma HalvesEqual(a: seq<string>, b: seq<string>, c: seq<string>, d: seq<string>)
    requires |b| == |d|
    ensures a + b == c + d <==> a == c && b == d
  {
    if a + b == c + d {
      assert |a + b| == |c + d|;
      assert (a + b)[..|a|] == a && (c + d)[..|c|] == c;
      assert (a + b)[|a|..] == b && (c + d)[|c|..] == d;
    }
  }

  lemma {:induction false} ItemWordsLength(ns: seq<Node>, env: Env, prepend: string)
    requires EvalStrings(ns, env).Some?
    ensures |ItemWords(ns, env, prepend)| == |EvalStrings(ns, env).value|
  {
    if ns != [] {
      ItemWordsLength(ns[1..], env, prepend);
    }
  }

  lemma {:induction false} OperandPlain(l: Node, env: Env, store: Store, prepend: string)
    requires Referring(l) && EvalList(l, env).Some? && Related(env, store, prepend)
    ensures AllPlain(prepend, EvalList(l, env).value)
  {
    if l.Var? {
      assert Matches(env[l.name], l.name, store, prepend);
    } else {
      OperandPlain(l.kids[1], env, store, prepend);
      assert EvalList(List([]), env) == Some([]);
      assert [] + EvalList(l.kids[1], env).value == EvalList(l.kids[1], env).value;
    }
  }

  lemma {:induction false} FrontPlain(e: Node, env: Env, store: Store, prepend: string)
    requires ListSum(e) && EvalList(e, env).Some? && Related(env, store, prepend)
    ensures AllPlain(prepend, FrontValues(e, env))
  {
    if !e.List? {
      OperandPlain(e.kids[0], env, store, prepend);
      FrontPlain(e.kids[1], env, store, prepend);
      PlainAppend(prepend, EvalList(e.kids[0], env).value, FrontValues(e.kids[1], env));
    }
  }

  lemma SumKeptIff(e: Node, env: Env, store: Store, prepend: string)
    requires ListSum(e) && EvalList(e, env).Some? && Related(env, store, prepend)
    ensures EvalStrings(Literal(e), env).Some?
    ensures var values := EvalList(e, env).value;
            AllPlain(prepend, values) &&
            FrontWords(e, store) + ItemWords(Literal(e), env, prepend) == Prefixed(prepend, values) <==>
            SumKept(e, env, store, prepend)
  {
    SumValue(e, env);
    var front, values := FrontValues(e, env), EvalStrings(Literal(e), env).value;
    FrontPlain(e, env, store, prepend);
    PlainAppend(prepend, front, values);
    PrefixedAppend(prepend, front, values);
    ItemWordsLength(Literal(e), env, prepend);
    ItemsKeptIff(Literal(e), env, prepend);
    HalvesEqual(FrontWords(e, store), ItemWords(Literal(e), env, prepend), Prefixed(prepend, front), Prefixed(prepend, values));
  }

  /** A variable in front is always read as its value. */
  lemma VariableHeld(v: string, env: Env, store: Store, prepend: string)
    requires IsList(env, v) && Related(env, store, prepend)
    ensures Get(store, v) == Join(Prefixed(prepend, env[v].items))
    ensures Split(Get(store, v)) == Prefixed(prepend, env[v].items)
  {
    assert Matches(env[v], v, store, prepend);
    PrefixedJoin(prepend, env[v].items);
  }

  lemma {:induction false} SupportedItemsKept(ns: seq<Node>, env: Env, store: Store, prepend: string, ctx: Context)
    requires SupportedItems(ns, prepend, ctx) && EvalStrings(ns, env).Some?
    requires Related(env, store, prepend) && Clear(ctx, env, store, prepend)
    ensures ItemsKept(ns, env, prepend)
  {
    if ns != [] {
      assert ns[0] in ns && forall n :: n in ns[1..] ==> n in ns;
      SupportedItemsKept(ns[1..], env, store, prepend, ctx);
      if ns[0].Expr? {
        StringHeld(ns[0].kids[1].name, env, store, prepend);
      }
    }
  }

  /** A literal list, or variables plus one. */
  predicate PlainSum(e: Node) {
    e.List? || (IsSum(e) && PlainSum(e.kids[1]))
  }

  /** With nothing but variables in front, only the literal decides. */
  lemma {:induction false} PlainSumKeptIff(e: Node, env: Env, store: Store, prepend: string)
    requires PlainSum(e) && EvalList(e, env).Some? && Related(env, store, prepend)
    ensures ListSum(e) && EvalStrings(Literal(e), env).Some?
    ensures FrontWords(e, store) == Prefixed(prepend, FrontValues(e, env))
    ensures SumKept(e, env, store, prepend) <==> ItemsKept(Literal(e), env, prepend)
  {
    if !e.List? {
      var v, r := e.kids[0].name, e.kids[1];
      PlainSumKeptIff(r, env, store, prepend);
      VariableHeld(v, env, store, prepend);
      PrefixedAppend(prepend, env[v].items, FrontValues(r, env));
    }
  }

  lemma {:induction false} SupportedKept(e: Node, env: Env, store: Store, prepend: string, ctx: Context)
    requires SupportedList(e, prepend, ctx) && EvalList(e, env).Some?
    requires Related(env, store, prepend) && Clear(ctx, env, store, prepend)
    ensures PlainSum(e) && ListSum(e) && EvalStrings(Literal(e), env).Some? && ItemsKept(Literal(e), env, prepend)
  {
    if e.List? {
      SupportedItemsKept(e.items, env, store, prepend, ctx);
    } else {
      SupportedKept(e.kids[1], env, store, prepend, ctx);
    }
  }

  /** The arguments written for a supported list expand to its GN value under the prefix. */
  lemma ListExpanded(e: Node, env: Env, store: Store, prepend: string, ctx: Context)
    requires SupportedList(e, prepend, ctx) && EvalList(e, env).Some?
    requires Related(env, store, prepend) && Clear(ctx, env, store, prepend)
    ensures Convert(e).Some? && Convert(e).value.List?
    ensures AllPlain(prepend, EvalList(e, env).value)
    ensures Expand(ListToks(e, prepend), store) == Prefixed(prepend, EvalList(e, env).value)
  {
    SupportedKept(e, env, store, prepend, ctx);
    PlainSumKeptIff(e, env, store, prepend);
    SumKeptIff(e, env, store, prepend);
    SumExpands(e, env, store, prepend);
  }
}
