/**
  The attribute list that a window hands to `eglCreateContext`, and how EGL reads it back.
 */
module EglContextAttributes {
  import opened Prelude

  const EGL_NONE := 0x3038
  const EGL_NO_RESET_NOTIFICATION := 0x31BE

  datatype Params = Params(
    major: int, minor: int,
    debug: bool, noError: bool, webGL: bool, hardened: bool, extensionsEnabled: bool,
    robustAccess: bool, resetStrategy: int,
    bindGenerates: bool, clientArrays: bool, programCache: bool, robustInit: bool)

  /** What EGL gives a context whose attribute list is empty. */
  const DEFAULTS := Params(1, 0, false, false, false, false, true, false, EGL_NO_RESET_NOTIFICATION, true, true, true, false)

  /** The display: the EGL version and the extensions that matter here. */
  datatype Display = Display(
    eglMajor: int, eglMinor: int,
    createContext: bool, noError: bool, webGL: bool, extensionsEnabled: bool, robustness: bool,
    bindGenerates: bool, clientArrays: bool, programCache: bool, backwards: bool, robustInit: bool)

  datatype Attribute =
    | MajorVersion | MinorVersion | Debug | NoError | WebGL | Hardened | ExtensionsEnabled
    | RobustAccess | ResetStrategy | BindGenerates | ClientArrays | ProgramCache | Backwards | RobustInit

  function Code(a: Attribute): int {
    match a
    case MajorVersion => 0x3098
    case MinorVersion => 0x30FB
    case Debug => 0x31B0
    case NoError => 0x31B3
    case WebGL => 0x33AC
    case Hardened => 0x34F8
    case ExtensionsEnabled => 0x345F
    case RobustAccess => 0x30BF
    case ResetStrategy => 0x3138
    case BindGenerates => 0x33AD
    case ClientArrays => 0x3452
    case ProgramCache => 0x3459
    case Backwards => 0x3483
    case RobustInit => 0x3453
  }

  /** The order in which the attributes are written. */
  const ORDER: seq<Attribute> :=
    [MajorVersion, MinorVersion, Debug, NoError, WebGL, Hardened, ExtensionsEnabled,
     RobustAccess, ResetStrategy, BindGenerates, ClientArrays, ProgramCache, Backwards, RobustInit]

  function Bit(b: bool): int {
    if b then 1 else 0
  }

  predicate HasDebug(d: Display) {
    d.eglMinor >= 5
  }

  /** The request is refused before any context is created. */
  predicate Refused(p: Params, d: Display, clientMajor: int) {
    || (clientMajor > 2 && !(d.eglMajor > 1 || d.eglMinor >= 5) && !d.createContext)
    || (p.debug && !HasDebug(d))
    || ((p.webGL || p.hardened) && !d.webGL)
    || (!p.extensionsEnabled && !d.extensionsEnabled)
    || ((p.robustAccess || p.resetStrategy != EGL_NO_RESET_NOTIFICATION) && !d.robustness)
    || (!p.bindGenerates && !d.bindGenerates)
    || (!p.clientArrays && !d.clientArrays)
    || (!p.programCache && !d.programCache)
    || (p.noError && !d.noError)
    || (p.robustInit && !d.robustInit)
  }

  // ----- what is written

  /** The value written for an attribute, if it is written at all. */
  function Written(p: Params, d: Display, a: Attribute): Option<int> {
    match a
    case MajorVersion => Some(p.major)
    case MinorVersion => Some(p.minor)
    case Debug => if HasDebug(d) && p.debug then Some(Bit(p.debug)) else None
    case NoError => if d.noError && p.noError then Some(Bit(p.noError)) else None
    case WebGL => if d.webGL then Some(Bit(p.webGL)) else None
    case Hardened => if d.webGL then Some(Bit(p.hardened)) else None
    case ExtensionsEnabled => if d.extensionsEnabled then Some(Bit(p.extensionsEnabled)) else None
    case RobustAccess => if d.robustness then Some(Bit(p.robustAccess)) else None
    case ResetStrategy => if d.robustness then Some(p.resetStrategy) else None
    case BindGenerates => if d.bindGenerates then Some(Bit(p.bindGenerates)) else None
    case ClientArrays => if d.clientArrays then Some(Bit(p.clientArrays)) else None
    case ProgramCache => if d.programCache then Some(Bit(p.programCache)) else None
    case Backwards => if d.backwards then Some(0) else None
    case RobustInit => if d.robustInit then Some(Bit(p.robustInit)) else None
  }

  function Entry(p: Params, d: Display, a: Attribute): seq<int> {
    match Written(p, d, a)
    case None => []
    case Some(v) => [Code(a), v]
  }

  function Entries(p: Params, d: Display, order: seq<Attribute>): seq<int> {
    if order == [] then [] else Entry(p, d, order[0]) + Entries(p, d, order[1..])
  }

  /** Key/value pairs up to a closing EGL_NONE. */
  predicate Terminated(list: seq<int>) {
    list != [] && (list[0] == EGL_NONE || (|list| >= 2 && Terminated(list[2..])))
  }

  /** The pairs in front of the closing EGL_NONE. */
  function Body(list: seq<int>): seq<int>
    requires Terminated(list)
  {
    if list[0] == EGL_NONE then [] else list[..2] + Body(list[2..])
  }

  // ----- how it is read

  predicate WellFormed(list: seq<int>) {
    list != [] && if list[0] == EGL_NONE then |list| == 1 else |list| >= 2 && WellFormed(list[2..])
  }

  function Lookup(list: seq<int>, key: int): Option<int> {
    if |list| < 2 || list[0] == EGL_NONE then None
    else if list[0] == key then Some(list[1])
    else Lookup(list[2..], key)
  }

  function Value(list: seq<int>, a: Attribute, default: int): int {
    match Lookup(list, Code(a))
    case None => default
    case Some(v) => v
  }

  function Flag(list: seq<int>, a: Attribute, default: bool): bool {
    Value(list, a, Bit(default)) != 0
  }

  function Decode(list: seq<int>): Params {
    Params(Value(list, MajorVersion, DEFAULTS.major), Value(list, MinorVersion, DEFAULTS.minor),
           Flag(list, Debug, DEFAULTS.debug), Flag(list, NoError, DEFAULTS.noError),
           Flag(list, WebGL, DEFAULTS.webGL), Flag(list, Hardened, DEFAULTS.hardened),
           Flag(list, ExtensionsEnabled, DEFAULTS.extensionsEnabled),
           Flag(list, RobustAccess, DEFAULTS.robustAccess), Value(list, ResetStrategy, DEFAULTS.resetStrategy),
           Flag(list, BindGenerates, DEFAULTS.bindGenerates), Flag(list, ClientArrays, DEFAULTS.clientArrays),
           Flag(list, ProgramCache, DEFAULTS.programCache), Flag(list, RobustInit, DEFAULTS.robustInit))
  }

  // ----- writing and reading back

  lemma CodesDiffer(a: Attribute, b: Attribute)
    ensures Code(a) == Code(b) ==> a == b
    ensures Code(a) != EGL_NONE
  {
  }

  function Position(a: Attribute): nat {
    match a
    case MajorVersion => 0
    case MinorVersion => 1
    case Debug => 2
    case NoError => 3
    case WebGL => 4
    case Hardened => 5
    case ExtensionsEnabled => 6
    case RobustAccess => 7
    case ResetStrategy => 8
    case BindGenerates => 9
    case ClientArrays => 10
    case ProgramCache => 11
    case Backwards => 12
    case RobustInit => 13
  }

  lemma OrderCovers(a: Attribute)
    ensures a in ORDER
  {
    assert ORDER[Position(a)] == a;
  }

  lemma OrderDistinct()
    ensures forall i, j :: 0 <= i < j < |ORDER| ==> ORDER[i] != ORDER[j]
  {
    assert forall i :: 0 <= i < |ORDER| ==> Position(ORDER[i]) == i;
  }

  /** Every entry of a list without repetitions is read back, and nothing else. */
  lemma {:induction false} EntriesRead(p: Params, d: Display, order: seq<Attribute>, a: Attribute)
    requires forall i, j :: 0 <= i < j < |order| ==> order[i] != order[j]
    ensures Lookup(Entries(p, d, order) + [EGL_NONE], Code(a)) == if a in order then Written(p, d, a) else None
  {
    if order != [] {
      var first, rest := order[0], order[1..];
      var tail := Entries(p, d, rest) + [EGL_NONE];
      var list := Entries(p, d, order) + [EGL_NONE];
      assert list == Entry(p, d, first) + tail;
      assert order == [first] + rest;
      EntriesRead(p, d, rest, a);
      EntryRead(p, d, first, tail, a);
    }
  }

  /** The entry of one attribute in front of a list. */
  lemma EntryRead(p: Params, d: Display, first: Attribute, tail: seq<int>, a: Attribute)
    ensures Lookup(Entry(p, d, first) + tail, Code(a)) ==
            if Written(p, d, first).Some? && a == first then Written(p, d, a) else Lookup(tail, Code(a))
  {
    CodesDiffer(first, a);
    var list := Entry(p, d, first) + tail;
    if Written(p, d, first).Some? {
      assert list[2..] == tail;
    } else {
      assert list == tail;
    }
  }

  lemma {:induction false} EntriesWellFormed(p: Params, d: Display, order: seq<Attribute>)
    ensures WellFormed(Entries(p, d, order) + [EGL_NONE])
  {
    if order != [] {
      var tail := Entries(p, d, order[1..]) + [EGL_NONE];
      var list := Entries(p, d, order) + [EGL_NONE];
      assert list == Entry(p, d, order[0]) + tail;
      EntriesWellFormed(p, d, order[1..]);
      CodesDiffer(order[0], order[0]);
      if Written(p, d, order[0]).Some? {
        assert list[2..] == tail;
      } else {
        assert list == tail;
      }
    }
  }

  /** None of the caller's own attributes is one that the window may write. */
  predicate Apart(extra: seq<int>)
    requires Terminated(extra)
  {
    extra[0] != EGL_NONE ==> (forall a :: extra[0] != Code(a)) && Apart(extra[2..])
  }

  lemma {:induction false} ExtraSkipped(extra: seq<int>, rest: seq<int>, a: Attribute)
    requires Terminated(extra) && Apart(extra)
    ensures Lookup(Body(extra) + rest, Code(a)) == Lookup(rest, Code(a))
  {
    if extra[0] == EGL_NONE {
      assert Body(extra) + rest == rest;
    } else {
      ExtraSkipped(extra[2..], rest, a);
      var list := Body(extra) + rest;
      assert list[0] == extra[0] && list[2..] == Body(extra[2..]) + rest;
    }
  }

  lemma {:induction false} ExtraWellFormed(extra: seq<int>, rest: seq<int>)
    requires Terminated(extra) && WellFormed(rest)
    ensures WellFormed(Body(extra) + rest)
  {
    if extra[0] == EGL_NONE {
      assert Body(extra) + rest == rest;
    } else {
      ExtraWellFormed(extra[2..], rest);
      var list := Body(extra) + rest;
      assert list[0] == extra[0] && list[2..] == Body(extra[2..]) + rest;
    }
  }

  /** The list for a request; a null pointer for the extra attributes is the empty list. */
  function Attributes(p: Params, d: Display, extra: seq<int>): seq<int>
    requires Terminated(extra)
  {
    Body(extra) + if d.createContext then Entries(p, d, ORDER) + [EGL_NONE] else [EGL_NONE]
  }

  lemma AttributesWellFormed(p: Params, d: Display, extra: seq<int>)
    requires Terminated(extra)
    ensures WellFormed(Attributes(p, d, extra))
  {
    EntriesWellFormed(p, d, ORDER);
    ExtraWellFormed(extra, if d.createContext then Entries(p, d, ORDER) + [EGL_NONE] else [EGL_NONE]);
  }

  lemma AttributesRead(p: Params, d: Display, extra: seq<int>, a: Attribute)
    requires Terminated(extra) && Apart(extra)
    ensures Lookup(Attributes(p, d, extra), Code(a)) == if d.createContext then Written(p, d, a) else None
  {
    OrderDistinct();
    OrderCovers(a);
    EntriesRead(p, d, ORDER, a);
    ExtraSkipped(extra, if d.createContext then Entries(p, d, ORDER) + [EGL_NONE] else [EGL_NONE], a);
  }

  lemma ReadBack(p: Params, d: Display, clientMajor: int, list: seq<int>)
    requires !Refused(p, d, clientMajor)
    requires forall a :: Lookup(list, Code(a)) == Written(p, d, a)
    ensures Decode(list) == p
  {
  }

  lemma ReadNothing(list: seq<int>)
    requires forall a :: Lookup(list, Code(a)) == None
    ensures Decode(list) == DEFAULTS
  {
  }

  /**
    A request that is not refused is recovered from its list exactly when the display can express
    versions and flags at all, or when nothing but the defaults was asked for.
   */
  lemma RequestRecovered(p: Params, d: Display, clientMajor: int, extra: seq<int>)
    requires Terminated(extra) && Apart(extra) && !Refused(p, d, clientMajor)
    ensures Decode(Attributes(p, d, extra)) == p <==> d.createContext || p == DEFAULTS
  {
    var list := Attributes(p, d, extra);
    forall a ensures Lookup(list, Code(a)) == if d.createContext then Written(p, d, a) else None {
      AttributesRead(p, d, extra, a);
    }
    if d.createContext {
      ReadBack(p, d, clientMajor, list);
    } else {
      ReadNothing(list);
    }
  }

  // ----- the list as it is built

  /** The first `n` attributes have been written after `start`. */
  predicate SoFar(p: Params, d: Display, start: seq<int>, n: nat, list: seq<int>)
    requires n <= |ORDER|
  {
    list == start + Entries(p, d, ORDER[..n])
  }

  lemma {:induction false} EntriesSnoc(p: Params, d: Display, order: seq<Attribute>, a: Attribute)
    ensures Entries(p, d, order + [a]) == Entries(p, d, order) + Entry(p, d, a)
  {
    if order == [] {
      assert (order + [a])[1..] == [];
    } else {
      assert (order + [a])[1..] == order[1..] + [a];
      EntriesSnoc(p, d, order[1..], a);
    }
  }

  lemma NextEntry(p: Params, d: Display, start: seq<int>, n: nat, a: Attribute)
    requires n < |ORDER| && ORDER[n] == a
    ensures forall list :: SoFar(p, d, start, n, list)
              ==> SoFar(p, d, start, n + 1, if Written(p, d, a).Some? then list + [Code(a), Written(p, d, a).value] else list)
  {
    assert ORDER[..n + 1] == ORDER[..n] + [a];
    EntriesSnoc(p, d, ORDER[..n], a);
  }

  method CopyExtra(extra: seq<int>) returns (list: seq<int>)
    requires Terminated(extra)
    ensures list == Body(extra)
  {
    list := [];
    var i := 0;
    while extra[i] != EGL_NONE
      invariant 0 <= i < |extra| && Terminated(extra[i..])
      invariant list + Body(extra[i..]) == Body(extra)
      decreases |extra| - i
    {
      assert extra[i..][2..] == extra[i + 2..];
      list := list + [extra[i]] + [extra[i + 1]];
      i := i + 2;
    }
  }

  method WriteVersions(p: Params, d: Display, ghost start: seq<int>, before: seq<int>) returns (list: seq<int>)
    requires SoFar(p, d, start, 0, before)
    ensures SoFar(p, d, start, 2, list)
  {
    list := before;
    list := list + [Code(MajorVersion), p.major];
    NextEntry(p, d, start, 0, MajorVersion);
    list := list + [Code(MinorVersion), p.minor];
    NextEntry(p, d, start, 1, MinorVersion);
  }

  method WriteDebug(p: Params, d: Display, ghost start: seq<int>, before: seq<int>) returns (list: seq<int>)
    requires SoFar(p, d, start, 2, before)
    ensures SoFar(p, d, start, 4, list)
  {
    list := before;
    if HasDebug(d) && p.debug {
      list := list + [Code(Debug), Bit(p.debug)];
    }
    NextEntry(p, d, start, 2, Debug);
    if d.noError && p.noError {
      list := list + [Code(NoError), Bit(p.noError)];
    }
    NextEntry(p, d, start, 3, NoError);
  }

  method WriteWebGL(p: Params, d: Display, ghost start: seq<int>, before: seq<int>) returns (list: seq<int>)
    requires SoFar(p, d, start, 4, before)
    ensures SoFar(p, d, start, 7, list)
  {
    list := before;
    if d.webGL {
      list := list + [Code(WebGL), Bit(p.webGL)];
    }
    NextEntry(p, d, start, 4, WebGL);
    if d.webGL {
      list := list + [Code(Hardened), Bit(p.hardened)];
    }
    NextEntry(p, d, start, 5, Hardened);
    if d.extensionsEnabled {
      list := list + [Code(ExtensionsEnabled), Bit(p.extensionsEnabled)];
    }
    NextEntry(p, d, start, 6, ExtensionsEnabled);
  }

  method WriteRobustness(p: Params, d: Display, ghost start: seq<int>, before: seq<int>) returns (list: seq<int>)
    requires SoFar(p, d, start, 7, before)
    ensures SoFar(p, d, start, 9, list)
  {
    list := before;
    if d.robustness {
      list := list + [Code(RobustAccess), Bit(p.robustAccess)];
    }
    NextEntry(p, d, start, 7, RobustAccess);
    if d.robustness {
      list := list + [Code(ResetStrategy), p.resetStrategy];
    }
    NextEntry(p, d, start, 8, ResetStrategy);
  }

  method WriteClient(p: Params, d: Display, ghost start: seq<int>, before: seq<int>) returns (list: seq<int>)
    requires SoFar(p, d, start, 9, before)
    ensures SoFar(p, d, start, 12, list)
  {
    list := before;
    if d.bindGenerates {
      list := list + [Code(BindGenerates), Bit(p.bindGenerates)];
    }
    NextEntry(p, d, start, 9, BindGenerates);
    if d.clientArrays {
      list := list + [Code(ClientArrays), Bit(p.clientArrays)];
    }
    NextEntry(p, d, start, 10, ClientArrays);
    if d.programCache {
      list := list + [Code(ProgramCache), Bit(p.programCache)];
    }
    NextEntry(p, d, start, 11, ProgramCache);
  }

  method WriteRest(p: Params, d: Display, ghost start: seq<int>, before: seq<int>) returns (list: seq<int>)
    requires SoFar(p, d, start, 12, before)
    ensures SoFar(p, d, start, 14, list)
  {
    list := before;
    if d.backwards {
      list := list + [Code(Backwards), 0];
    }
    NextEntry(p, d, start, 12, Backwards);
    if d.robustInit {
      list := list + [Code(RobustInit), Bit(p.robustInit)];
    }
    NextEntry(p, d, start, 13, RobustInit);
  }

  method WriteEntries(p: Params, d: Display, start: seq<int>) returns (list: seq<int>)
    ensures list == start + Entries(p, d, ORDER)
  {
    assert SoFar(p, d, start, 0, start);
    list := WriteVersions(p, d, start, start);
    list := WriteDebug(p, d, start, list);
    list := WriteWebGL(p, d, start, list);
    list := WriteRobustness(p, d, start, list);
    list := WriteClient(p, d, start, list);
    list := WriteRest(p, d, start, list);
    assert ORDER[..14] == ORDER;
  }

  method WriteAttributes(p: Params, d: Display, extra: seq<int>) returns (list: seq<int>)
    requires Terminated(extra)
    ensures list == Attributes(p, d, extra) && WellFormed(list)
  {
    list := CopyExtra(extra);
    if d.createContext {
      list := WriteEntries(p, d, list);
    }
    list := list + [EGL_NONE];
    AttributesWellFormed(p, d, extra);
  }
}
