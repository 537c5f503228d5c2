/**
  The names of the union members that hold captured parameters: a C type is encoded into a name, and
  the type of the member is decoded from that name.
 */
module CaptureTypes {
  import opened ParamNames
  import opened Substrings
  import opened Whitespace

  // ----- encoding

  /** `w` is one of the words that white space separates. */
  predicate HasWord(s: string, w: string) {
    exists i :: 0 <= i <= |s| && OccursAt(s, w, i)
      && (i == 0 || Space(s[i - 1])) && (i + |w| == |s| || Space(s[i + |w|]))
  }

  function CallbackName(t: string): string {
    if Contains(t, "errinfo") then "cl_context_func_type"
    else if Contains(t, "cl_program") then "cl_program_func_type"
    else if Contains(t, "cl_event") then "cl_callback_func_type"
    else if Contains(t, "cl_command_queue") then "cl_svm_free_callback_func_type"
    else if Contains(t, "cl_context") then "cl_context_destructor_func_type"
    else if Contains(t, "cl_mem") then "cl_mem_destructor_func_type"
    else "cl_void_func_type"
  }

  function Pointers(n: nat): string {
    if n == 0 then "" else Pointers(n - 1) + "Pointer"
  }

  /** The type with everything removed that the rest of the name expresses. */
  function Bare(t: string, pointers: nat): string {
    var t2 := Replace(Replace(t, "*", ""), "[]", "");
    var t4 := Replace(Replace(t2, "&", ""), "const", "");
    var t5 := Replace(t4, "struct", "");
    var t6 := Replace(t5, "egl::", if pointers > 0 || t5 == "egl::SyncID" then "egl_" else "");
    Strip(Replace(Replace(t6, "gl::", ""), "unsigned ", ""))
  }

  function Qualified(t: string, pointers: nat): string {
    var isChar := HasWord(Replace(Replace(t, "*", ""), "[]", ""), "char");
    var name := if HasWord(t, "unsigned") && isChar then "charUnsigned" else Bare(t, pointers);
    if HasWord(t, "const") && name != "AttributeMap" then name + "Const" else name
  }

  function PointerCount(t: string): nat {
    Count(t, "*") + Count(t, "[]")
  }

  function Encode(t: string): string {
    if Contains(t, "CL_CALLBACK") then CallbackName(t)
    else Qualified(t, PointerCount(t)) + Pointers(PointerCount(t))
  }

  method CaptureName(t: string) returns (name: string)
    ensures name == Encode(t)
  {
    if Contains(t, "CL_CALLBACK") {
      return CallbackName(t);
    }
    var count := PointerCount(t);
    name := Qualified(t, count);
    ghost var start := name;
    for x := 0 to count
      invariant name == start + Pointers(x)
    {
      name := name + "Pointer";
    }
  }

  // ----- decoding

  function AddNamespace(p: string, eglTypes: set<string>, clTypes: set<string>): string {
    var s := Strip(p);
    if s in {"AHardwareBufferConstPointer", "charConstPointer", "char", "size_t"}
       || Slice(s, -9, |s|) == "func_type" then s
    else if "GL" <= s || "EGL" <= s || Contains(s, "void") || "cl_" <= s then s
    else if "gl_" <= s then Replace(s, "gl_", "gl::")
    else if "egl_" <= s then Replace(s, "egl_", "egl::")
    else if "wl_" <= s then s
    else if s in eglTypes then "egl::" + s
    else if s in clTypes then "cl::" + s
    else "gl::" + s
  }

  function Unpointed(t: string): string {
    if Contains(t, "ConstPointerPointer") then
      if Contains(t, "GLcharConstPointerPointer")
      then "const " + Replace(t, "ConstPointerPointer", "") + " *const *"
      else "const " + Replace(t, "ConstPointerPointer", "") + " **"
    else if Contains(t, "ConstPointer") then "const " + Replace(t, "ConstPointer", "") + " *"
    else if Contains(t, "PointerPointer") then Replace(t, "PointerPointer", "") + " **"
    else if Contains(t, "Pointer") then Replace(t, "Pointer", "") + " *"
    else t
  }

  function PointerType(p: string): string {
    var t1 := if Contains(p, "gl::size_t") then Replace(p, "gl::size_t", "size_t") else p;
    var t2 := if Contains(t1, "gl::char") then Replace(t1, "gl::char", "char") else t1;
    var t3 := if Contains(t2, "Unsigned") then "unsigned " + Replace(t2, "Unsigned", "") else t2;
    Unpointed(t3)
  }

  function Decode(name: string, eglTypes: set<string>, clTypes: set<string>): string {
    PointerType(AddNamespace(name, eglTypes, clTypes))
  }

  // ----- canonical types

  /** The name of a GL, EGL or void type that has none of the words the encoding uses. */
  predicate Base(b: string) {
    && Identifier(b)
    && ("GL" <= b || "EGL" <= b || Contains(b, "void"))
    && !Contains(b, "CL_CALLBACK") && !Contains(b, "const") && !Contains(b, "struct") && !Contains(b, "unsigned")
    && !Contains(b, "Const") && !Contains(b, "Pointer") && !Contains(b, "Unsigned")
  }

  datatype Shape = Plain | ToMutable | ToMutableTwice | ToConst | ToConstTwice | ToConstArray

  function Spelling(b: string, shape: Shape): string {
    match shape
    case Plain => b
    case ToMutable => b + " *"
    case ToMutableTwice => b + " **"
    case ToConst => "const " + b + " *"
    case ToConstTwice => "const " + b + " **"
    case ToConstArray => "const " + b + " *const *"
  }

  function Marker(shape: Shape): string {
    match shape
    case Plain => ""
    case ToMutable => "Pointer"
    case ToMutableTwice => "PointerPointer"
    case ToConst => "ConstPointer"
    case ToConstTwice => "ConstPointerPointer"
    case ToConstArray => "ConstPointerPointer"
  }

  // ----- decoding a canonical name

  lemma ContainsPrefix(s: string, w: string, n: nat)
    requires n <= |w| && !Contains(s, w[..n])
    ensures !Contains(s, w)
  {
    if i :| OccursAt(s, w, i) {
      assert s[i..i + n] == s[i..i + |w|][..n];
      assert OccursAt(s, w[..n], i);
    }
  }

  lemma ContainsLonger(b: string, m: string, w: string)
    requires Contains(b, w)
    ensures Contains(b + m, w)
  {
    var i :| 0 <= i <= |b| && OccursAt(b, w, i);
    assert (b + m)[i..i + |w|] == b[i..i + |w|];
    assert OccursAt(b + m, w, i);
  }

  lemma NoSpaces(b: string, m: string)
    requires Identifier(b) && (m == "" || Identifier(m))
    ensures Strip(b + m) == b + m && ':' !in b + m
  {
    StripIs(b + m);
    NamePlain(b, ':');
    if m != "" {
      NamePlain(m, ':');
    }
  }

  lemma MarkerPlain(shape: Shape)
    ensures shape != Plain ==> Identifier(Marker(shape))
    ensures 'U' !in Marker(shape)
  {
  }

  lemma NamespaceKept(b: string, shape: Shape, eglTypes: set<string>, clTypes: set<string>)
    requires Base(b)
    ensures AddNamespace(b + Marker(shape), eglTypes, clTypes) == b + Marker(shape)
  {
    MarkerPlain(shape);
    NoSpaces(b, Marker(shape));
    if Contains(b, "void") {
      ContainsLonger(b, Marker(shape), "void");
    } else if "GL" <= b {
      assert (b + Marker(shape))[..2] == b[..2];
    } else {
      assert (b + Marker(shape))[..3] == b[..3];
    }
  }

  lemma NothingElse(b: string, shape: Shape)
    requires Base(b)
    ensures PointerType(b + Marker(shape)) == Unpointed(b + Marker(shape))
  {
    var m := Marker(shape);
    MarkerPlain(shape);
    NoSpaces(b, m);
    assert "gl::size_t"[2] == ':' && "gl::char"[2] == ':';
    CharFree(b + m, "gl::size_t", ':');
    CharFree(b + m, "gl::char", ':');
    if m != "" {
      assert "Unsigned"[0] == 'U' && "Unsigned"[..8] == "Unsigned";
      CharFree(m, "Unsigned", 'U');
      NoOccurrence(b, m, "Unsigned", 8);
    } else {
      assert b + m == b;
    }
  }

  lemma ConstFree(b: string, w: string)
    requires Base(b) && "Const" <= w
    ensures !Contains(b, w)
  {
    assert w[..5] == "Const";
    ContainsPrefix(b, w, 5);
  }

  lemma PointerFree(b: string, w: string)
    requires Base(b) && "Pointer" <= w
    ensures !Contains(b, w)
  {
    assert w[..7] == "Pointer";
    ContainsPrefix(b, w, 7);
  }

  lemma TooShort(m: string, w: string)
    requires |m| < |w|
    ensures !Contains(m, w)
  {
  }

  /** A marker that begins with `Const` is removed from the end. */
  lemma ConstRemoved(b: string, m: string)
    requires Base(b) && "Const" <= m
    ensures Contains(b + m, m) && Replace(b + m, m, "") == b
  {
    assert m[..5] == "Const" && m[1..5] == "onst" && m[0] == 'C';
    ContainsEnd(b, m);
    ReplaceEnd(b, m, 5);
  }

  lemma PointerRemoved(b: string, m: string)
    requires Base(b) && "Pointer" <= m
    ensures Contains(b + m, m) && Replace(b + m, m, "") == b
  {
    assert m[..7] == "Pointer" && m[1..7] == "ointer" && m[0] == 'P';
    ContainsEnd(b, m);
    ReplaceEnd(b, m, 7);
  }

  /** A longer marker, or one that begins with another word, is not there. */
  lemma ConstAbsent(b: string, m: string, w: string)
    requires Base(b) && "Const" <= w && m != [] && m[0] !in "onst" && !Contains(m, w)
    ensures !Contains(b + m, w)
  {
    assert w[..5] == "Const" && w[1..5] == "onst";
    NoOccurrence(b, m, w, 5);
  }

  lemma DecodePlain(b: string)
    requires Base(b)
    ensures Unpointed(b) == b
  {
    ConstFree(b, "ConstPointerPointer");
    ConstFree(b, "ConstPointer");
    PointerFree(b, "PointerPointer");
  }

  lemma DecodeMutable(b: string)
    requires Base(b)
    ensures Unpointed(b + "Pointer") == b + " *"
  {
    TooShort("Pointer", "ConstPointerPointer");
    TooShort("Pointer", "ConstPointer");
    ConstAbsent(b, "Pointer", "ConstPointerPointer");
    ConstAbsent(b, "Pointer", "ConstPointer");
    TooShort("Pointer", "PointerPointer");
    assert "PointerPointer"[..7] == "Pointer" && "PointerPointer"[1..7] == "ointer";
    NoOccurrence(b, "Pointer", "PointerPointer", 7);
    PointerRemoved(b, "Pointer");
  }

  lemma DecodeMutableTwice(b: string)
    requires Base(b)
    ensures Unpointed(b + "PointerPointer") == b + " **"
  {
    assert "ConstPointerPointer"[0] == 'C' && "ConstPointer"[0] == 'C' && 'C' !in "PointerPointer";
    CharFree("PointerPointer", "ConstPointerPointer", 'C');
    CharFree("PointerPointer", "ConstPointer", 'C');
    ConstAbsent(b, "PointerPointer", "ConstPointerPointer");
    ConstAbsent(b, "PointerPointer", "ConstPointer");
    PointerRemoved(b, "PointerPointer");
  }

  lemma DecodeConst(b: string)
    requires Base(b)
    ensures Unpointed(b + "ConstPointer") == "const " + b + " *"
  {
    TooShort("ConstPointer", "ConstPointerPointer");
    ConstAbsent(b, "ConstPointer", "ConstPointerPointer");
    ConstRemoved(b, "ConstPointer");
  }

  predicate EndsInChar(b: string) {
    |b| >= 6 && b[|b| - 6..] == "GLchar"
  }

  lemma DecodeConstTwice(b: string)
    requires Base(b)
    ensures Unpointed(b + "ConstPointerPointer")
         == if EndsInChar(b) then "const " + b + " *const *" else "const " + b + " **"
  {
    var m := "ConstPointerPointer";
    ConstRemoved(b, m);
    CharBefore(b);
  }

  /** The longer marker is there exactly when the base ends in `GLchar`. */
  lemma CharBefore(b: string)
    requires Base(b)
    ensures Contains(b + "ConstPointerPointer", "GLcharConstPointerPointer") <==> EndsInChar(b)
  {
    var m, w := "ConstPointerPointer", "GLcharConstPointerPointer";
    assert w == "GLchar" + m && |w| == 25;
    if EndsInChar(b) {
      assert b + m == b[..|b| - 6] + w;
      ContainsEnd(b[..|b| - 6], w);
    }
    if i :| 0 <= i <= |b + m| && OccursAt(b + m, w, i) {
      OnlyAtEnd(b, m, i);
    }
  }

  lemma OnlyAtEnd(b: string, m: string, i: int)
    requires Base(b) && m == "ConstPointerPointer" && OccursAt(b + m, "GLcharConstPointerPointer", i)
    ensures EndsInChar(b)
  {
    var w := "GLcharConstPointerPointer";
    assert w[6..] == m;
    assert (b + m)[i + 6..i + 25] == (b + m)[i..i + 25][6..];
    assert OccursAt(b + m, m, i + 6);
    if i + 6 < |b| {
      assert m[..5] == "Const" && m[1..5] == "onst" && m[0] == 'C';
      NoStraddle(b, m, m, 5, i + 6);
    }
    assert i + 6 == |b|;
    assert b[|b| - 6..] == (b + m)[i..i + 25][..6];
  }

  /** What the name of a canonical type is decoded to. */
  lemma DecodeIs(b: string, shape: Shape, eglTypes: set<string>, clTypes: set<string>)
    requires Base(b)
    ensures Decode(b + Marker(shape), eglTypes, clTypes)
         == if shape.ToConstTwice? || shape.ToConstArray?
            then Spelling(b, if EndsInChar(b) then ToConstArray else ToConstTwice)
            else Spelling(b, shape)
  {
    NamespaceKept(b, shape, eglTypes, clTypes);
    NothingElse(b, shape);
    match shape
    case Plain =>
      assert b + "" == b;
      DecodePlain(b);
    case ToMutable => DecodeMutable(b);
    case ToMutableTwice => DecodeMutableTwice(b);
    case ToConst => DecodeConst(b);
    case ToConstTwice => DecodeConstTwice(b);
    case ToConstArray => DecodeConstTwice(b);
  }

  // ----- encoding a canonical type

  /** A word without spaces, in or removed from a string that begins with a space. */
  lemma LeadingSpace(s: string, w: string, r: string)
    requires w != "" && ' ' !in w
    ensures Contains(" " + s, w) <==> Contains(s, w)
    ensures Replace(" " + s, w, r) == " " + Replace(s, w, r)
    ensures Count(" " + s, w) == Count(s, w)
  {
    var t := " " + s;
    assert t[1..] == s && t[0] == ' ' && !(w <= t);
    ReplaceShort(t, w, r);
    CountShort(t, w);
    if Contains(s, w) {
      var i :| 0 <= i <= |s| && OccursAt(s, w, i);
      assert t[i + 1..i + 1 + |w|] == s[i..i + |w|];
      assert OccursAt(t, w, i + 1);
    }
    if Contains(t, w) {
      var i :| 0 <= i <= |t| && OccursAt(t, w, i);
      OccursInside(t, w, i, 0);
      assert i > 0 && s[i - 1..i - 1 + |w|] == t[i..i + |w|];
      assert OccursAt(s, w, i - 1);
    }
  }

  /** The parts of a spelling that spaces separate. */
  predicate Parts(s: string, a: string, rest: string) {
    rest != "" && rest[0] == ' ' && s == a + rest
  }

  lemma PartsCut(s: string, a: string, rest: string, w: string, r: string)
    requires Parts(s, a, rest) && w != "" && ' ' !in w
    ensures Contains(s, w) <==> Contains(a, w) || Contains(rest, w)
    ensures Replace(s, w, r) == Replace(a, w, r) + Replace(rest, w, r)
    ensures Count(s, w) == Count(a, w) + Count(rest, w)
  {
    ContainsCut(a, rest, w);
    ReplaceCut(a, rest, w, r);
    CountCut(a, rest, w);
  }

  /** A space, the base and a tail: a word that the base does not have is removed from the tail only. */
  lemma Middle(b: string, tail: string, w: string)
    requires w != "" && ' ' !in w && !Contains(b, w) && (tail == "" || tail[0] == ' ')
    ensures Contains(b + tail, w) <==> Contains(tail, w)
    ensures Replace(b + tail, w, "") == b + Replace(tail, w, "")
    ensures Count(b + tail, w) == Count(tail, w)
  {
    ReplaceFree(b, w, "");
    if tail == "" {
      assert b + tail == b;
      ReplaceNothing(w);
    } else {
      PartsCut(b + tail, b, tail, w, "");
    }
  }

  lemma ReplaceNothing(w: string)
    requires w != ""
    ensures Replace("", w, "") == "" && Count("", w) == 0 && !Contains("", w)
  {
  }

  /** The same behind another word. */
  lemma BehindWord(c: string, b: string, tail: string, w: string)
    requires w != "" && ' ' !in w && !Contains(b, w) && (tail == "" || tail[0] == ' ')
    ensures Contains(c + " " + b + tail, w) <==> Contains(c, w) || Contains(tail, w)
    ensures Replace(c + " " + b + tail, w, "") == Replace(c, w, "") + " " + b + Replace(tail, w, "")
    ensures Count(c + " " + b + tail, w) == Count(c, w) + Count(tail, w)
  {
    var s, rest := c + " " + b + tail, " " + (b + tail);
    assert s == c + rest;
    PartsCut(s, c, rest, w, "");
    LeadingSpace(b + tail, w, "");
    Middle(b, tail, w);
    FourParts(Replace(c, w, ""), b, Replace(tail, w, ""));
  }

  lemma FourParts(c: string, b: string, tail: string)
    ensures c + (" " + (b + tail)) == c + " " + b + tail
  {
  }

  lemma ConstSpace(b: string, tail: string)
    ensures "const" + " " + b + tail == "const " + b + tail
  {
    assert "const" + " " == "const ";
  }

  // ----- the tails

  lemma OneStar()
    ensures Replace(" *", "*", "") == " " && Count(" *", "*") == 1
  {
    StarFirst("");
    assert "*" + "" == "*" && " " + "*" == " *";
    ReplaceNothing("*");
    LeadingSpace("*", "*", "");
  }

  lemma TwoStars()
    ensures Replace(" **", "*", "") == " " && Count(" **", "*") == 2
  {
    StarFirst("");
    StarFirst("*");
    assert "*" + "" == "*" && "*" + "*" == "**" && " " + "**" == " **";
    ReplaceNothing("*");
    LeadingSpace("**", "*", "");
  }

  lemma StarsAround(c: string)
    requires '*' !in c
    ensures Replace(" " + ("*" + (c + " *")), "*", "") == " " + (c + " ") && Count(" " + ("*" + (c + " *")), "*") == 2
  {
    OneStar();
    StarFirst(c + " *");
    LeadingSpace("*" + (c + " *"), "*", "");
    CharFree(c, "*", '*');
    ReplaceFree(c, "*", "");
    PartsCut(c + " *", c, " *", "*", "");
  }

  lemma StarFirst(s: string)
    ensures Replace("*" + s, "*", "") == Replace(s, "*", "") && Count("*" + s, "*") == 1 + Count(s, "*")
  {
    assert ("*" + s)[1..] == s && "*" <= "*" + s;
    assert "" + Replace(s, "*", "") == Replace(s, "*", "");
  }

  lemma ConstRemovedOnce()
    ensures Replace("const", "const", "") == ""
    ensures Replace(" const ", "const", "") == "  "
  {
    assert "const"[5..] == "";
    LeadingSpace("const ", "const", "");
    assert " " + "const " == " const " && "const " == "const" + " ";
    PartsCut("const ", "const", " ", "const", "");
    CharFree(" ", "const", 'c') by { assert "const"[0] == 'c'; }
    ReplaceFree(" ", "const", "");
    assert "" + " " == " " && " " + " " == "  ";
  }

  // ----- what is left after the removals

  predicate Spaces(s: string) {
    forall i :: 0 <= i < |s| ==> s[i] == ' '
  }

  lemma {:induction false} LeftStripPadded(lead: string, s: string)
    requires Spaces(lead) && s != "" && !Space(s[0])
    ensures LeftStrip(lead + s) == s
  {
    if lead == "" {
      assert lead + s == s;
    } else {
      assert (lead + s)[1..] == lead[1..] + s;
      LeftStripPadded(lead[1..], s);
    }
  }

  lemma {:induction false} RightStripPadded(s: string, trail: string)
    requires Spaces(trail) && s != "" && !Space(s[|s| - 1])
    ensures RightStrip(s + trail) == s
  {
    if trail == "" {
      assert s + trail == s;
    } else {
      assert (s + trail)[..|s + trail| - 1] == s + trail[..|trail| - 1];
      RightStripPadded(s, trail[..|trail| - 1]);
    }
  }

  lemma StripPadded(lead: string, b: string, trail: string)
    requires Spaces(lead) && Spaces(trail) && Identifier(b)
    ensures Strip(lead + b + trail) == b
  {
    assert lead + b + trail == lead + (b + trail);
    LeftStripPadded(lead, b + trail);
    RightStripPadded(b, trail);
  }

  lemma PaddedFree(lead: string, b: string, trail: string, w: string)
    requires (lead == "" || lead == " ") && Spaces(trail) && w != "" && ' ' !in w && !Contains(b, w)
    ensures !Contains(lead + b + trail, w)
  {
    CharFree(trail, w, w[0]) by { assert w[0] in w; }
    Middle(b, trail, w);
    if lead == "" {
      assert lead + b + trail == b + trail;
    } else {
      LeadingSpace(b + trail, w, "");
      assert lead + b + trail == " " + (b + trail);
    }
  }

  /** Once only spaces surround the base, nothing more is removed but them. */
  lemma PaddedBare(lead: string, b: string, trail: string, egl: string)
    requires (lead == "" || lead == " ") && Spaces(trail) && Base(b)
    ensures var t := lead + b + trail;
            && Replace(t, "struct", "") == t && Replace(t, "egl::", egl) == t && Replace(t, "gl::", "") == t
            && Replace(t, "unsigned ", "") == t && Strip(t) == b
  {
    var t := lead + b + trail;
    PaddedFree(lead, b, trail, "struct");
    ReplaceFree(t, "struct", "");
    NamePlain(b, ':');
    assert ':' !in t && "egl::"[3] == ':' && "gl::"[2] == ':';
    CharFree(t, "egl::", ':');
    CharFree(t, "gl::", ':');
    ReplaceFree(t, "egl::", egl);
    ReplaceFree(t, "gl::", "");
    PaddedFree(lead, b, trail, "unsigned");
    assert "unsigned "[..8] == "unsigned";
    ContainsPrefix(t, "unsigned ", 8);
    ReplaceFree(t, "unsigned ", "");
    StripPadded(lead, b, trail);
  }

  lemma Bracketless(t: string)
    requires '[' !in t && '&' !in t
    ensures Replace(t, "[]", "") == t && Count(t, "[]") == 0 && Replace(t, "&", "") == t
  {
    assert "[]"[0] == '[';
    CharFree(t, "[]", '[');
    CharFree(t, "&", '&');
    ReplaceFree(t, "[]", "");
    ReplaceFree(t, "&", "");
  }

  // ----- the encoding of every shape

  function Tail(shape: Shape): string {
    match shape
    case Plain => ""
    case ToMutable => " *"
    case ToMutableTwice => " **"
    case ToConst => " *"
    case ToConstTwice => " **"
    case ToConstArray => " *const *"
  }

  predicate IsConst(shape: Shape) {
    shape.ToConst? || shape.ToConstTwice? || shape.ToConstArray?
  }

  function Stars(shape: Shape): nat {
    match shape
    case Plain => 0
    case ToMutable => 1
    case ToConst => 1
    case _ => 2
  }

  /** The tail without its stars, and then without the word `const`. */
  function Unstarred(shape: Shape): string {
    match shape
    case Plain => ""
    case ToConstArray => " const "
    case _ => " "
  }

  function Cleared(shape: Shape): string {
    match shape
    case Plain => ""
    case ToConstArray => "  "
    case _ => " "
  }

  lemma TailUnstarred(shape: Shape)
    ensures Replace(Tail(shape), "*", "") == Unstarred(shape) && Count(Tail(shape), "*") == Stars(shape)
  {
    match shape
    case Plain => ReplaceNothing("*");
    case ToMutable => OneStar();
    case ToMutableTwice => TwoStars();
    case ToConst => OneStar();
    case ToConstTwice => TwoStars();
    case ToConstArray =>
      StarsAround("const");
      assert " " + ("*" + ("const" + " *")) == " *const *" && " " + ("const" + " ") == " const ";
  }

  lemma TailCleared(shape: Shape)
    ensures Replace(Unstarred(shape), "const", "") == Cleared(shape)
  {
    match shape
    case Plain => ReplaceNothing("const");
    case ToConstArray => ConstRemovedOnce();
    case _ =>
      CharFree(" ", "const", 'c') by { assert "const"[0] == 'c'; }
      ReplaceFree(" ", "const", "");
  }

  function Whole(b: string, shape: Shape, tail: string): string {
    if IsConst(shape) then "const " + b + tail else b + tail
  }

  lemma SpellingIs(b: string, shape: Shape)
    ensures Spelling(b, shape) == Whole(b, shape, Tail(shape))
  {
    if shape == Plain {
      assert b + "" == b;
    }
  }

  lemma StarsGoneBehind(c: string, b: string, tail: string)
    requires Base(b) && '*' !in c && (tail == "" || tail[0] == ' ')
    ensures Replace(c + " " + b + tail, "*", "") == c + " " + b + Replace(tail, "*", "")
    ensures Count(c + " " + b + tail, "*") == Count(tail, "*")
  {
    NamePlain(b, '*');
    CharFree(b, "*", '*');
    BehindWord(c, b, tail, "*");
    CharFree(c, "*", '*');
    ReplaceFree(c, "*", "");
  }

  lemma StarsGone(b: string, shape: Shape)
    requires Base(b)
    ensures Replace(Spelling(b, shape), "*", "") == Whole(b, shape, Unstarred(shape))
    ensures Count(Spelling(b, shape), "*") == Stars(shape)
  {
    SpellingIs(b, shape);
    TailUnstarred(shape);
    if IsConst(shape) {
      StarsGoneBehind("const", b, Tail(shape));
      ConstSpace(b, Tail(shape));
      ConstSpace(b, Unstarred(shape));
    } else {
      NamePlain(b, '*');
      CharFree(b, "*", '*');
      Middle(b, Tail(shape), "*");
    }
  }

  lemma ConstGone(b: string, shape: Shape)
    requires Base(b)
    ensures Replace(Whole(b, shape, Unstarred(shape)), "const", "")
         == (if IsConst(shape) then " " else "") + b + Cleared(shape)
  {
    TailCleared(shape);
    if IsConst(shape) {
      BehindWord("const", b, Unstarred(shape), "const");
      ConstSpace(b, Unstarred(shape));
      ConstRemovedOnce();
      assert "" + " " == " ";
    } else {
      Middle(b, Unstarred(shape), "const");
      assert "" + b + Cleared(shape) == b + Cleared(shape);
    }
  }

  lemma Unbracketed(b: string, shape: Shape)
    requires Base(b)
    ensures '[' !in Spelling(b, shape) && '&' !in Spelling(b, shape)
    ensures '[' !in Whole(b, shape, Unstarred(shape)) && '&' !in Whole(b, shape, Unstarred(shape))
  {
    NamePlain(b, '[');
    NamePlain(b, '&');
  }

  lemma BareIs(b: string, shape: Shape)
    requires Base(b)
    ensures Bare(Spelling(b, shape), Stars(shape)) == b && PointerCount(Spelling(b, shape)) == Stars(shape)
  {
    var t1 := Whole(b, shape, Unstarred(shape));
    StarsGone(b, shape);
    Unbracketed(b, shape);
    Bracketless(t1);
    Bracketless(Spelling(b, shape));
    ConstGone(b, shape);
    PaddingGone(if IsConst(shape) then " " else "", b, Cleared(shape), Spelling(b, shape), Stars(shape));
  }

  /** What is left when the stars and `const` are gone is the base with spaces around it. */
  lemma PaddingGone(lead: string, b: string, trail: string, t: string, pointers: nat)
    requires (lead == "" || lead == " ") && Spaces(trail) && Base(b)
    requires Replace(Replace(Replace(Replace(t, "*", ""), "[]", ""), "&", ""), "const", "") == lead + b + trail
    ensures Bare(t, pointers) == b
  {
    PaddedBare(lead, b, trail, "egl_");
    PaddedBare(lead, b, trail, "");
  }

  lemma NoSuchWord(t: string, w: string)
    requires !Contains(t, w)
    ensures !HasWord(t, w)
  {
  }

  lemma ConstWord(b: string, shape: Shape)
    requires Base(b)
    ensures HasWord(Spelling(b, shape), "const") <==> IsConst(shape)
  {
    var t := Spelling(b, shape);
    if IsConst(shape) {
      assert t[0..5] == "const" && t[5] == ' ';
      assert OccursAt(t, "const", 0);
    } else {
      SpellingIs(b, shape);
      assert "const"[0] == 'c' && 'c' !in Tail(shape);
      CharFree(Tail(shape), "const", 'c');
      Middle(b, Tail(shape), "const");
      NoSuchWord(t, "const");
    }
  }

  /** A word with a letter that no tail has, and that is not in the base, is not in the spelling. */
  lemma WordAbsent(b: string, shape: Shape, w: string, c: char)
    requires c in w && ' ' !in w && c !in "const *" && !Contains(b, w)
    ensures !Contains(Spelling(b, shape), w)
  {
    SpellingIs(b, shape);
    assert c !in Tail(shape) && c !in "const";
    CharFree(Tail(shape), w, c);
    CharFree("const", w, c);
    Middle(b, Tail(shape), w);
    BehindWord("const", b, Tail(shape), w);
    ConstSpace(b, Tail(shape));
  }

  lemma PointersAre()
    ensures Pointers(0) == "" && Pointers(1) == "Pointer" && Pointers(2) == "PointerPointer"
  {
    assert "" + "Pointer" == "Pointer" && "Pointer" + "Pointer" == "PointerPointer";
    assert Pointers(1) == Pointers(0) + "Pointer" && Pointers(2) == Pointers(1) + "Pointer";
  }

  lemma EncodeIs(b: string, shape: Shape)
    requires Base(b)
    ensures Encode(Spelling(b, shape)) == b + Marker(shape)
  {
    var t := Spelling(b, shape);
    assert "CL_CALLBACK"[0] == 'C' && "unsigned"[0] == 'u';
    WordAbsent(b, shape, "CL_CALLBACK", 'C');
    WordAbsent(b, shape, "unsigned", 'u');
    NoSuchWord(t, "unsigned");
    BareIs(b, shape);
    ConstWord(b, shape);
    BaseNotMap(b);
    MarkerIs(b, shape);
  }

  lemma BaseNotMap(b: string)
    requires Base(b)
    ensures b != "AttributeMap"
  {
    assert 'v' !in "AttributeMap" && "void"[0] == 'v' && "AttributeMap"[0] == 'A';
    CharFree("AttributeMap", "void", 'v');
    assert "GL" <= b ==> b[0] == 'G';
    assert "EGL" <= b ==> b[0] == 'E';
  }

  lemma MarkerParts(shape: Shape)
    ensures (if IsConst(shape) then "Const" else "") + Pointers(Stars(shape)) == Marker(shape)
  {
    PointersAre();
    match shape
    case Plain => assert "" + "" == "";
    case ToMutable => assert "" + "Pointer" == "Pointer";
    case ToMutableTwice => assert "" + "PointerPointer" == "PointerPointer";
    case ToConst => assert "Const" + "Pointer" == "ConstPointer";
    case ToConstTwice => assert "Const" + "PointerPointer" == "ConstPointerPointer";
    case ToConstArray => assert "Const" + "PointerPointer" == "ConstPointerPointer";
  }

  lemma Associated(a: string, b: string, c: string)
    ensures a + b + c == a + (b + c)
    ensures a + "" == a
  {
  }

  lemma MarkerIs(b: string, shape: Shape)
    ensures (if IsConst(shape) then b + "Const" else b) + Pointers(Stars(shape)) == b + Marker(shape)
  {
    MarkerParts(shape);
    var c := if IsConst(shape) then "Const" else "";
    Associated(b, c, Pointers(Stars(shape)));
  }

  // ----- round trips

  /** The type is given back, except that a pointer to pointers to const is read in one way only. */
  lemma TypeGivenBack(b: string, shape: Shape, eglTypes: set<string>, clTypes: set<string>)
    requires Base(b)
    ensures Decode(Encode(Spelling(b, shape)), eglTypes, clTypes) == Spelling(b, shape) <==>
      (shape.ToConstTwice? ==> !EndsInChar(b)) && (shape.ToConstArray? ==> EndsInChar(b))
  {
    EncodeIs(b, shape);
    DecodeIs(b, shape, eglTypes, clTypes);
    SpelledApart(b);
  }

  lemma SpelledApart(b: string)
    ensures Spelling(b, ToConstTwice) != Spelling(b, ToConstArray)
  {
    assert |Spelling(b, ToConstTwice)| != |Spelling(b, ToConstArray)|;
  }

  predicate Canonical(b: string, shape: Shape) {
    Base(b) && (shape.ToConstTwice? ==> !EndsInChar(b)) && (shape.ToConstArray? ==> EndsInChar(b))
  }

  /** Two canonical types never share a name. */
  lemma NamesDiffer(b: string, shape: Shape, c: string, other: Shape)
    requires Canonical(b, shape) && Canonical(c, other)
    ensures Encode(Spelling(b, shape)) == Encode(Spelling(c, other)) ==> Spelling(b, shape) == Spelling(c, other)
  {
    TypeGivenBack(b, shape, {}, {});
    TypeGivenBack(c, other, {}, {});
  }

  /** The two spellings of a pointer to pointers to const share a name. */
  lemma NamesShared(b: string)
    requires Base(b)
    ensures Encode("const " + b + " **") == Encode("const " + b + " *const *")
  {
    EncodeIs(b, ToConstTwice);
    EncodeIs(b, ToConstArray);
  }
}
