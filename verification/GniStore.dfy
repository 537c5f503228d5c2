/** When a CMake store holds what a GN environment holds, each string under the prepended path. */
module GniStore {
  import opened GnAst
  import opened CMakeArguments
  import opened CMakeConditions

  function Prefixed(prepend: string, items: seq<string>): seq<string> {
    seq(|items|, i requires 0 <= i < |items| => prepend + items[i])
  }

  lemma PrefixedAppend(prepend: string, a: seq<string>, b: seq<string>)
    ensures Prefixed(prepend, a + b) == Prefixed(prepend, a) + Prefixed(prepend, b)
  {
  }

  lemma PrefixInjective(prepend: string, a: string, b: string)
    ensures prepend + a == prepend + b <==> a == b
  {
    assert (prepend + a)[|prepend|..] == a && (prepend + b)[|prepend|..] == b;
  }

  lemma PrefixedPlain(prepend: string, items: seq<string>)
    requires forall s :: s in items ==> Plain(prepend + s)
    ensures forall s :: s in Prefixed(prepend, items) ==> Plain(s)
  {
  }

  lemma PrefixedJoin(prepend: string, items: seq<string>)
    requires forall s :: s in items ==> Plain(prepend + s)
    ensures Split(Join(Prefixed(prepend, items))) == Prefixed(prepend, items)
    ensures Join(Prefixed(prepend, items)) == "" <==> items == []
  {
    PrefixedPlain(prepend, items);
    SplitJoin(Prefixed(prepend, items));
    if items != [] {
      assert Prefixed(prepend, items)[0] in Prefixed(prepend, items);
    }
  }

  /** The list a string of list elements stands for is unique. */
  lemma PrefixedUnique(prepend: string, a: seq<string>, b: seq<string>)
    requires Prefixed(prepend, a) == Prefixed(prepend, b)
    ensures a == b
  {
    assert |a| == |Prefixed(prepend, a)| == |Prefixed(prepend, b)| == |b|;
    forall i | 0 <= i < |a|
      ensures a[i] == b[i]
    {
      assert Prefixed(prepend, a)[i] == Prefixed(prepend, b)[i];
      PrefixInjective(prepend, a[i], b[i]);
    }
  }

  // ----- names

  predicate NameChar(c: char) {
    'a' <= c <= 'z' || 'A' <= c <= 'Z' || '0' <= c <= '9' || c == '_'
  }

  /** What the GN lexer takes for a name. */
  predicate Name(x: string) {
    x != "" && !('0' <= x[0] <= '9') && forall c :: c in x ==> NameChar(c)
  }

  lemma NameIsInert(x: string)
    requires Name(x)
    ensures '$' !in x && ';' !in x && '}' !in x && '"' !in x && '!' !in x && Plain(x)
  {
  }

  lemma NameExpands(x: string, store: Store)
    requires Name(x)
    ensures Expand([Word(x)], store) == [x]
  {
    NameIsInert(x);
    WordExpands(x, store);
  }

  lemma ReferenceExpands(x: string, store: Store)
    requires Name(x)
    ensures Expand([Word(Reference(x))], store) == Split(Get(store, x))
  {
    NameIsInert(x);
    SubstituteReference(x, store);
  }

  // ----- the relation

  predicate Matches(v: Value, x: string, store: Store, prepend: string) {
    match v
    case ListValue(items) =>
      && (forall s :: s in items ==> Plain(prepend + s))
      && Get(store, x) == Join(Prefixed(prepend, items))
    case StringValue(s) => Inert(prepend + s) && x in store && store[x] == prepend + s
    case BoolValue(b) => x in store && (b <==> !IsOff(store[x]))
  }

  predicate Related(env: Env, store: Store, prepend: string) {
    forall x :: x in env ==> Name(x) && Matches(env[x], x, store, prepend)
  }

  /**
    What a program refers to: `items` and `operands` are the variables it spells as the empty string
    plus a variable, in a list and in a comparison; `names` are the variables that may be set.
   */
  datatype Context = Context(items: set<string>, operands: set<string>, names: set<string>)

  /** A text that CMake does not take for anything but itself as an operand of a comparison. */
  predicate Standing(t: string, names: set<string>) {
    t != "" && !IsKeyword(t) && t !in names
  }

  /** An empty text is no list element, and an operand must not be taken for something else. */
  predicate Clear(ctx: Context, env: Env, store: Store, prepend: string) {
    && store.Keys <= ctx.names
    && (forall v :: v in ctx.items && IsString(env, v) ==> prepend + env[v].text != "")
    && (forall v :: v in ctx.operands && IsString(env, v) ==> Standing(prepend + env[v].text, ctx.names))
  }
}
