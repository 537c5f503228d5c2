/**
  How CMake reads the arguments of a command: the text between the parentheses is cut into
  arguments, references to variables are replaced, and an unquoted argument is split at `;`.

  A variable holds a string.  A list is a string with `;` between the elements; a variable that is
  not set reads as the empty string, which is the empty list.
 */
module CMakeArguments {

  datatype Command = Set | ListCommand | IfCommand | Else | EndIf | ForeachCommand | EndForeach

  /** `Glue` is text the writer puts between two arguments without the blanks CMake needs there. */
  datatype Tok =
    | Open(command: Command) | Close | Word(text: string) | Quoted(text: string)
    | Glue(text: string) | Remark(text: string)

  type Store = map<string, string>

  function Get(store: Store, x: string): string {
    if x in store then store[x] else ""
  }

  // ----- list strings

  function Join(items: seq<string>): string {
    if items == [] then "" else if |items| == 1 then items[0] else items[0] + ";" + Join(items[1..])
  }

  function Flush(item: string): seq<string> {
    if item == "" then [] else [item]
  }

  /** The elements of a list string, as an unquoted argument is cut into them. */
  function SplitFrom(item: string, rest: string): seq<string>
    decreases |rest|
  {
    if rest == "" then Flush(item)
    else if rest[0] == ';' then Flush(item) + SplitFrom("", rest[1..])
    else SplitFrom(item + [rest[0]], rest[1..])
  }

  function Split(text: string): seq<string> {
    SplitFrom("", text)
  }

  /** Text that CMake neither splits nor expands. */
  predicate Inert(text: string) {
    ';' !in text && '$' !in text && '"' !in text && '\\' !in text && '[' !in text && ']' !in text
  }

  predicate Plain(text: string) {
    text != "" && Inert(text)
  }

  lemma {:induction false} SplitItem(item: string, text: string, rest: string)
    requires ';' !in text
    ensures SplitFrom(item, text + rest) == SplitFrom(item + text, rest)
    decreases |text|
  {
    if text == "" {
      assert text + rest == rest && item + text == item;
    } else {
      assert (text + rest)[1..] == text[1..] + rest;
      assert item + [text[0]] + text[1..] == item + text;
      SplitItem(item + [text[0]], text[1..], rest);
    }
  }

  lemma {:induction false} SplitOne(text: string)
    requires ';' !in text
    ensures Split(text) == Flush(text)
  {
    SplitItem("", text, "");
    assert text + "" == text && "" + text == text;
  }

  lemma {:induction false} SplitJoin(items: seq<string>)
    requires forall s :: s in items ==> s != "" && ';' !in s
    ensures Split(Join(items)) == items
  {
    if items != [] {
      var tail := if |items| == 1 then "" else ";" + Join(items[1..]);
      assert Join(items) == items[0] + tail;
      assert items[0] in items;
      SplitItem("", items[0], tail);
      assert "" + items[0] == items[0];
      if |items| > 1 {
        SplitJoin(items[1..]);
        assert tail[1..] == Join(items[1..]);
      }
    }
  }

  lemma {:induction false} JoinAppend(a: seq<string>, b: seq<string>)
    requires a != [] && b != []
    ensures Join(a + b) == Join(a) + ";" + Join(b)
  {
    assert (a + b)[1..] == a[1..] + b;
    if |a| > 1 {
      JoinAppend(a[1..], b);
    } else {
      assert a[1..] + b == b;
    }
  }

  // ----- references

  function Reference(name: string): string {
    "${" + name + "}"
  }

  /**
    One pass over a text, replacing references; `stack` holds the text before each reference that
    is still open, so the name of a variable may itself be given by references.  A reference that
    is never closed, which CMake refuses, is dropped here.
   */
  function Scan(rest: string, stack: seq<string>, store: Store): string
    requires stack != []
    decreases |rest|
  {
    var k := |stack| - 1;
    if rest == "" then stack[0]
    else if |rest| > 1 && rest[0] == '$' && rest[1] == '{' then Scan(rest[2..], stack + [""], store)
    else if rest[0] == '}' && k > 0 then
      Scan(rest[1..], stack[..k - 1] + [stack[k - 1] + Get(store, stack[k])], store)
    else Scan(rest[1..], stack[..k] + [stack[k] + [rest[0]]], store)
  }

  function Substitute(text: string, store: Store): string {
    Scan(text, [""], store)
  }

  /** Text without references is passed over. */
  lemma {:induction false} ScanText(text: string, rest: string, stack: seq<string>, store: Store)
    requires stack != [] && '$' !in text && ('}' !in text || |stack| == 1)
    ensures var k := |stack| - 1; Scan(text + rest, stack, store) == Scan(rest, stack[..k] + [stack[k] + text], store)
    decreases |text|
  {
    var k := |stack| - 1;
    if text == "" {
      assert text + rest == rest && stack[k] + text == stack[k];
      assert stack[..k] + [stack[k]] == stack;
    } else {
      var next := stack[..k] + [stack[k] + [text[0]]];
      assert (text + rest)[1..] == text[1..] + rest && text[0] in text;
      ScanText(text[1..], rest, next, store);
      assert next[..k] == stack[..k] && next[k] + text[1..] == stack[k] + text;
    }
  }

  /** A reference to a plain name, anywhere in a text. */
  lemma {:induction false} ScanReference(name: string, rest: string, text: string, store: Store)
    requires '$' !in name && '}' !in name
    ensures Scan(Reference(name) + rest, [text], store) == Scan(rest, [text + Get(store, name)], store)
  {
    var all := Reference(name) + rest;
    assert all[2..] == name + ("}" + rest);
    ScanText(name, "}" + rest, [text, ""], store);
    assert "" + name == name;
    assert [text, ""][..1] + [name] == [text, name];
    assert Scan(all, [text], store) == Scan(name + ("}" + rest), [text] + [""], store);
    assert [text] + [""] == [text, ""];
    assert ("}" + rest)[1..] == rest;
    assert [text, name][..0] + [text + Get(store, name)] == [text + Get(store, name)];
  }

  lemma SubstituteText(text: string, store: Store)
    requires '$' !in text
    ensures Substitute(text, store) == text
  {
    ScanText(text, "", [""], store);
    assert text + "" == text && "" + text == text;
    assert [""][..0] + [text] == [text];
  }

  lemma SubstituteReference(name: string, store: Store)
    requires '$' !in name && '}' !in name
    ensures Substitute(Reference(name), store) == Get(store, name)
  {
    ScanReference(name, "", "", store);
    assert Reference(name) + "" == Reference(name) && "" + Get(store, name) == Get(store, name);
  }

  // ----- expansion

  function ExpandOne(arg: Tok, store: Store): seq<string> {
    match arg
    case Quoted(s) => [Substitute(s, store)]
    case Word(w) => Split(Substitute(w, store))
    case _ => []
  }

  function Expand(args: seq<Tok>, store: Store): seq<string> {
    if args == [] then [] else ExpandOne(args[0], store) + Expand(args[1..], store)
  }

  lemma {:induction false} ExpandAppend(a: seq<Tok>, b: seq<Tok>, store: Store)
    ensures Expand(a + b, store) == Expand(a, store) + Expand(b, store)
  {
    if a == [] {
      assert a + b == b;
    } else {
      assert (a + b)[1..] == a[1..] + b;
      ExpandAppend(a[1..], b, store);
    }
  }

  /** A word that is no reference and holds nothing to split stands for itself. */
  lemma WordExpands(w: string, store: Store)
    requires w != "" && '$' !in w && ';' !in w
    ensures Expand([Word(w)], store) == [w]
  {
    SubstituteText(w, store);
    SplitOne(w);
  }

  lemma QuotedExpands(s: string, store: Store)
    requires '$' !in s
    ensures Expand([Quoted(s)], store) == [s]
  {
    SubstituteText(s, store);
  }

  // ----- cutting the text into arguments

  /**
    The arguments CMake sees.  Text written against an unquoted argument is part of it, quotes and
    all; text written against the end of a quoted argument starts an argument of its own.
   */
  function Lexed(args: seq<Tok>): seq<Tok>
    decreases |args|, 1
  {
    if args == [] then []
    else match args[0]
      case Word(w) => LexWord(w, args[1..])
      case Glue(g) => LexGlued(g, args[1..])
      case _ => [args[0]] + Lexed(args[1..])
  }

  function LexWord(word: string, args: seq<Tok>): seq<Tok>
    decreases |args|, 2
  {
    if args != [] && args[0].Glue? then LexGlued(word + args[0].text, args[1..])
    else [Word(word)] + Lexed(args)
  }

  function LexGlued(word: string, args: seq<Tok>): seq<Tok>
    decreases |args|, 2
  {
    if args == [] then [Word(word)]
    else match args[0]
      case Word(w) => LexWord(word + w, args[1..])
      case Quoted(s) => LexWord(word + "\"" + s + "\"", args[1..])
      case Glue(g) => LexGlued(word + g, args[1..])
      case _ => [Word(word)] + Lexed(args)
  }

  /** Arguments with blanks between them. */
  predicate Arguments(args: seq<Tok>) {
    forall a :: a in args ==> a.Word? || a.Quoted?
  }

  lemma {:induction false} LexedApart(args: seq<Tok>)
    requires Arguments(args)
    ensures Lexed(args) == args
  {
    if args != [] {
      assert args[0] in args && forall a :: a in args[1..] ==> a in args;
      LexedApart(args[1..]);
    }
  }
}
