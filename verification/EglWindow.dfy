/**
  The life of a window's EGL display, surface and context.  What EGL answers is arbitrary; every call
  that acquires, releases or binds an object is recorded.
 */
module EglWindow {
  import opened Prelude
  import A = EglContextAttributes

  /** Zero stands for EGL_NO_DISPLAY, EGL_NO_SURFACE and EGL_NO_CONTEXT. */
  type Handle = nat

  datatype Event =
    | GotDisplay(display: Handle)
    | TerminatedDisplay(display: Handle)
    | CreatedSurface(display: Handle, surface: Handle)
    | DestroyedSurface(display: Handle, surface: Handle)
    | CreatedContext(display: Handle, context: Handle, attributes: seq<int>)
    | DestroyedContext(display: Handle, context: Handle)
    | MadeCurrent(display: Handle, draw: Handle, read: Handle, context: Handle)

  // ----- a monitor of the calls

  datatype Live = Live(display: Handle, surface: Handle, context: Handle)

  const NOTHING := Live(0, 0, 0)

  /** The effect of a call on what is live; None for a call that must not happen. */
  function Watch(live: Live, e: Event): Option<Live> {
    match e
    case GotDisplay(d) =>
      if live == NOTHING && d != 0 then Some(live.(display := d)) else None
    case TerminatedDisplay(d) =>
      if d != 0 && live == Live(d, 0, 0) then Some(NOTHING) else None
    case CreatedSurface(d, s) =>
      if d != 0 && live.display == d && live.surface == 0 && s != 0 then Some(live.(surface := s)) else None
    case DestroyedSurface(d, s) =>
      if d != 0 && live.display == d && live.surface == s && s != 0 then Some(live.(surface := 0)) else None
    case CreatedContext(d, c, attributes) =>
      if d != 0 && live.display == d && live.context == 0 && c != 0 && A.WellFormed(attributes)
      then Some(live.(context := c)) else None
    case DestroyedContext(d, c) =>
      if d != 0 && live.display == d && live.context == c && c != 0 then Some(live.(context := 0)) else None
    case MadeCurrent(d, draw, read, c) =>
      if d != 0 && live.display == d && (draw == 0 <==> read == 0) then Some(live) else None
  }

  function WatchAll(log: seq<Event>): Option<Live> {
    if log == [] then Some(NOTHING)
    else match WatchAll(log[..|log| - 1])
      case None => None
      case Some(live) => Watch(live, log[|log| - 1])
  }

  function Count(log: seq<Event>, e: Event): nat {
    if log == [] then 0 else Count(log[..|log| - 1], e) + if log[|log| - 1] == e then 1 else 0
  }

  function CountContexts(log: seq<Event>, d: Handle, c: Handle): nat {
    if log == [] then 0
    else
      var last := log[|log| - 1];
      CountContexts(log[..|log| - 1], d, c)
      + if last.CreatedContext? && last.display == d && last.context == c then 1 else 0
  }

  lemma {:induction false} WatchedPrefix(log: seq<Event>, n: nat)
    requires WatchAll(log).Some? && n <= |log|
    ensures WatchAll(log[..n]).Some?
  {
    if n < |log| {
      assert log[..|log| - 1][..n] == log[..n];
      WatchedPrefix(log[..|log| - 1], n);
    } else {
      assert log[..n] == log;
    }
  }

  /** A monitored log releases a surface only where it is live, together with its display. */
  lemma ReleasedWhileLive(log: seq<Event>, n: nat)
    requires WatchAll(log).Some? && n < |log|
    ensures WatchAll(log[..n]).Some?
    ensures var live := WatchAll(log[..n]).value;
            match log[n]
            case DestroyedSurface(d, s) => d != 0 && live.display == d && live.surface == s
            case DestroyedContext(d, c) => d != 0 && live.display == d && live.context == c
            case TerminatedDisplay(d) => live == Live(d, 0, 0)
            case _ => true
  {
    WatchedPrefix(log, n + 1);
    WatchedPrefix(log, n);
    assert log[..n + 1][..n] == log[..n];
  }

  /** In a monitored log, what was acquired more often than released is exactly what is still live. */
  lemma {:induction false} Balanced(log: seq<Event>, d: Handle, h: Handle)
    requires WatchAll(log).Some? && d != 0 && h != 0
    ensures var live := WatchAll(log).value;
            && Count(log, GotDisplay(d)) == Count(log, TerminatedDisplay(d)) + (if live.display == d then 1 else 0)
            && Count(log, CreatedSurface(d, h)) == Count(log, DestroyedSurface(d, h))
                 + (if live.display == d && live.surface == h then 1 else 0)
            && CountContexts(log, d, h) == Count(log, DestroyedContext(d, h))
                 + (if live.display == d && live.context == h then 1 else 0)
  {
    if log != [] {
      Balanced(log[..|log| - 1], d, h);
    }
  }

  /** The display, and the surface and the context on it, were released as often as acquired. */
  predicate Settled(log: seq<Event>, d: Handle, h: Handle) {
    && Count(log, GotDisplay(d)) == Count(log, TerminatedDisplay(d))
    && Count(log, CreatedSurface(d, h)) == Count(log, DestroyedSurface(d, h))
    && CountContexts(log, d, h) == Count(log, DestroyedContext(d, h))
  }

  /** Once nothing is live, everything has been released as often as it was acquired. */
  lemma AllReleased(log: seq<Event>, d: Handle, h: Handle)
    requires WatchAll(log) == Some(NOTHING) && d != 0 && h != 0
    ensures Settled(log, d, h)
  {
    Balanced(log, d, h);
  }

  // ----- the window

  datatype Result = NoError | NoColorspaceSupport | NoMutableRenderBufferSupport | Error

  datatype DisplayRequest = DisplayRequest(isAngle: bool, systemWgl: bool, presentPath: bool, featureOverrides: bool)

  datatype DisplayAnswers = DisplayAnswers(
    loaded: bool, hasPresentPath: bool, hasFeatureControl: bool, hasPlatformAngle: bool,
    platformDisplay: Handle, defaultDisplay: Handle, initialized: bool, eglMajor: int, eglMinor: int)

  datatype SurfaceRequest = SurfaceRequest(mutableRenderBuffer: bool, fixedComponents: bool, linearColors: bool, context: A.Params)

  datatype SurfaceAnswers = SurfaceAnswers(
    hasMutableRenderBuffer: bool, hasPixelFormatFloat: bool, configFound: bool, hasColorSpace: bool,
    surface: Handle, success: bool)

  datatype ContextAnswers = ContextAnswers(
    extensions: A.Display, bound: bool, context: Handle, current: CurrentAnswers,
    hasBackwards: bool, versionMajor: int, versionMinor: int)

  datatype CurrentAnswers = CurrentAnswers(made: bool, success: bool)

  function DisplayOf(q: DisplayRequest, a: DisplayAnswers): Handle {
    if q.isAngle && a.hasPlatformAngle then a.platformDisplay else a.defaultDisplay
  }

  predicate DisplayOk(q: DisplayRequest, a: DisplayAnswers) {
    && a.loaded
    && (q.presentPath ==> a.hasPresentPath)
    && (q.featureOverrides ==> a.hasFeatureControl)
    && !q.systemWgl
    && DisplayOf(q, a) != 0
    && a.initialized
  }

  function SurfaceResult(q: SurfaceRequest, a: SurfaceAnswers): Result {
    if q.mutableRenderBuffer && !a.hasMutableRenderBuffer then NoMutableRenderBufferSupport
    else if (!a.hasPixelFormatFloat && !q.fixedComponents) || !a.configFound then Error
    else if !a.hasColorSpace && !q.linearColors then NoColorspaceSupport
    else if !a.success || a.surface == 0 then Error
    else NoError
  }

  class Window {
    var display: Handle
    var surface: Handle
    var context: Handle
    var eglMajor: int
    var eglMinor: int
    var clientMajor: int
    var clientMinor: int
    const requestedMajor: int
    const requestedMinor: int
    var params: A.Params

    ghost var log: seq<Event>

    ghost function Now(): Live
      reads this
    {
      Live(display, surface, context)
    }

    ghost predicate Valid()
      reads this
    {
      && WatchAll(log) == Some(Now())
      && (display == 0 ==> surface == 0 && context == 0)
    }

    constructor (major: int, minor: int)
      ensures Valid() && Now() == NOTHING
    {
      display, surface, context := 0, 0, 0;
      eglMajor, eglMinor := 0, 0;
      clientMajor, clientMinor, requestedMajor, requestedMinor := major, minor, major, minor;
      params := A.DEFAULTS;
      log := [];
    }

    predicate IsInitialized()
      reads this
    {
      surface != 0 && context != 0 && display != 0
    }

    ghost method Record(e: Event)
      modifies this`log
      ensures log == old(log) + [e]
      ensures old(WatchAll(log)).Some? ==> WatchAll(log) == Watch(old(WatchAll(log)).value, e)
    {
      log := log + [e];
      assert log[..|log| - 1] == old(log);
    }

    method DestroyContext()
      requires Valid()
      modifies this`context, this`log
      ensures Valid() && context == 0
    {
      if context != 0 {
        Record(MadeCurrent(display, 0, 0, 0));
        assert display != 0;
        Record(DestroyedContext(display, context));
        context := 0;
      }
    }

    method DestroySurface()
      requires Valid()
      modifies this`surface, this`log
      ensures Valid() && surface == 0
    {
      if surface != 0 {
        Record(MadeCurrent(display, 0, 0, 0));
        assert display != 0;
        Record(DestroyedSurface(display, surface));
        surface := 0;
      }
    }

    method DestroyGL()
      requires Valid()
      modifies this`display, this`surface, this`context, this`log
      ensures Valid() && Now() == NOTHING
    {
      DestroyContext();
      DestroySurface();
      if display != 0 {
        Record(MadeCurrent(display, 0, 0, 0));
        Record(TerminatedDisplay(display));
        display := 0;
      }
    }

    method InitializeDisplay(q: DisplayRequest, a: DisplayAnswers) returns (ok: bool)
      requires Valid() && Now() == NOTHING
      modifies this
      ensures Valid() && ok == DisplayOk(q, a)
      ensures Now() == if ok then Live(DisplayOf(q, a), 0, 0) else NOTHING
      ensures ok ==> eglMajor == a.eglMajor && eglMinor == a.eglMinor
    {
      if !a.loaded {
        return false;
      }
      if q.presentPath && !a.hasPresentPath {
        DestroyGL();
        return false;
      }
      if !a.hasFeatureControl && q.featureOverrides {
        DestroyGL();
        return false;
      }
      if q.systemWgl {
        return false;
      }
      if q.isAngle && a.hasPlatformAngle {
        display := a.platformDisplay;
      } else {
        display := a.defaultDisplay;
      }
      if display == 0 {
        DestroyGL();
        return false;
      }
      Record(GotDisplay(display));
      eglMajor, eglMinor := a.eglMajor, a.eglMinor;
      if !a.initialized {
        DestroyGL();
        return false;
      }
      return true;
    }

    method InitializeSurface(q: SurfaceRequest, a: SurfaceAnswers) returns (r: Result)
      requires Valid() && display != 0 && surface == 0
      modifies this
      ensures Valid() && r == SurfaceResult(q, a)
      ensures Now() == if r == NoError then Live(old(display), a.surface, old(context)) else NOTHING
      ensures params == q.context
    {
      params := q.context;
      if q.mutableRenderBuffer && !a.hasMutableRenderBuffer {
        DestroyGL();
        return NoMutableRenderBufferSupport;
      }
      if !a.hasPixelFormatFloat && !q.fixedComponents {
        DestroyGL();
        return Error;
      }
      if !a.configFound {
        DestroyGL();
        return Error;
      }
      if !a.hasColorSpace && !q.linearColors {
        DestroyGL();
        return NoColorspaceSupport;
      }
      surface := a.surface;
      if surface != 0 {
        Record(CreatedSurface(display, surface));
      }
      if !a.success || surface == 0 {
        DestroyGL();
        return Error;
      }
      return NoError;
    }

    /** The request for a context, with the versions the window was made for. */
    function Request(): A.Params
      reads this
    {
      params.(major := requestedMajor, minor := requestedMinor)
    }

    function Shown(extensions: A.Display): A.Display
      reads this
    {
      extensions.(eglMajor := eglMajor, eglMinor := eglMinor)
    }

    predicate ContextOk(a: ContextAnswers)
      reads this
    {
      !A.Refused(Request(), Shown(a.extensions), clientMajor) && a.bound && a.context != 0
    }

    /** The window stores the new context itself. */
    method CreateContext(a: ContextAnswers) returns (c: Handle)
      requires Valid() && display != 0 && context == 0
      modifies this`context, this`log
      ensures Valid() && c == context
      ensures c == if old(ContextOk(a)) then a.context else 0
      ensures old(ContextOk(a)) ==>
                log == old(log) + [CreatedContext(display, c, A.Attributes(old(Request()), Shown(a.extensions), [A.EGL_NONE]))]
    {
      if A.Refused(Request(), Shown(a.extensions), clientMajor) {
        return 0;
      }
      if !a.bound {
        return 0;
      }
      var attributes := A.WriteAttributes(Request(), Shown(a.extensions), [A.EGL_NONE]);
      if a.context == 0 {
        return 0;
      }
      Record(CreatedContext(display, a.context, attributes));
      context := a.context;
      c := a.context;
    }

    method MakeCurrent(draw: Handle, read: Handle, c: Handle, a: CurrentAnswers) returns (ok: bool)
      requires Valid()
      modifies this`log
      ensures Valid()
      ensures ok <==> (draw == 0 <==> read == 0) && (IsInitialized() ==> a.made && a.success)
    {
      if (draw != 0 && read == 0) || (draw == 0 && read != 0) {
        return false;
      }
      var d, r := draw, read;
      if draw == 0 {
        d := if c != 0 then surface else 0;
        r := d;
      }
      if IsInitialized() {
        Record(MadeCurrent(display, d, r, c));
        if !a.made || !a.success {
          return false;
        }
      }
      return true;
    }

    method MakeContextCurrent(c: Handle, a: CurrentAnswers) returns (ok: bool)
      requires Valid()
      modifies this`log
      ensures Valid()
      ensures ok <==> (IsInitialized() ==> a.made && a.success)
    {
      var s := if c == 0 then 0 else surface;
      ok := MakeCurrent(s, s, c, a);
    }

    /** The context is made current, if there is a surface to do it with. */
    predicate CurrentOk(a: ContextAnswers)
      reads this
    {
      surface != 0 ==> a.current.made && a.current.success
    }

    predicate VersionOk(a: ContextAnswers) {
      a.hasBackwards || a.versionMajor != 0
    }

    method InitializeContext(a: ContextAnswers) returns (ok: bool)
      requires Valid() && display != 0 && context == 0
      modifies this
      ensures Valid()
      ensures ok == old(ContextOk(a) && CurrentOk(a) && VersionOk(a))
      ensures Now() == if old(ContextOk(a) && CurrentOk(a)) then Live(old(display), old(surface), a.context) else NOTHING
    {
      var c := CreateContext(a);
      if c == 0 {
        DestroyGL();
        return false;
      }
      var current := MakeContextCurrent(context, a.current);
      if !current {
        DestroyGL();
        return false;
      }
      if !a.hasBackwards {
        if a.versionMajor == 0 {
          return false;
        }
        clientMajor, clientMinor := a.versionMajor, a.versionMinor;
      }
      return true;
    }

    /** A failed initialization leaves nothing live, unless only the version could not be queried. */
    method InitializeGL(dq: DisplayRequest, d: DisplayAnswers, sq: SurfaceRequest, s: SurfaceAnswers, c: ContextAnswers)
      returns (r: Result)
      requires Valid() && Now() == NOTHING
      modifies this
      ensures Valid()
      ensures r == NoError ==> IsInitialized() && Now() == Live(DisplayOf(dq, d), s.surface, c.context)
      ensures r != NoError && Now() != NOTHING ==> IsInitialized() && r == Error && !VersionOk(c)
      ensures IsInitialized() && !VersionOk(c) ==> r == Error
      ensures IsInitialized() || Now() == NOTHING
    {
      var ok := InitializeDisplay(dq, d);
      if !ok {
        return Error;
      }
      r := InitializeSurface(sq, s);
      if r != NoError {
        return;
      }
      ok := InitializeContext(c);
      r := if ok then NoError else Error;
    }
  }

  // ----- whole sessions

  datatype Operation =
    | Init(dq: DisplayRequest, d: DisplayAnswers, sq: SurfaceRequest, s: SurfaceAnswers, c: ContextAnswers)
    | InitDisplay(dq: DisplayRequest, d: DisplayAnswers)
    | InitSurface(sq: SurfaceRequest, s: SurfaceAnswers)
    | InitContext(c: ContextAnswers)
    | Current(context: Handle, a: CurrentAnswers)
    | CurrentWith(draw: Handle, read: Handle, context: Handle, a: CurrentAnswers)
    | DropSurface
    | DropContext
    | Drop

  /** A client initializes only what is missing. */
  method Perform(w: Window, op: Operation)
    requires w.Valid()
    modifies w
    ensures w.Valid()
  {
    match op {
      case Init(dq, d, sq, s, c) =>
        if w.display == 0 {
          var _ := w.InitializeGL(dq, d, sq, s, c);
        }
      case InitDisplay(dq, d) =>
        if w.display == 0 {
          var _ := w.InitializeDisplay(dq, d);
        }
      case InitSurface(sq, s) =>
        if w.display != 0 && w.surface == 0 {
          var _ := w.InitializeSurface(sq, s);
        }
      case InitContext(c) =>
        if w.display != 0 && w.context == 0 {
          var _ := w.InitializeContext(c);
        }
      case Current(c, a) =>
        var _ := w.MakeContextCurrent(c, a);
      case CurrentWith(draw, read, c, a) =>
        var _ := w.MakeCurrent(draw, read, c, a);
      case DropSurface =>
        w.DestroySurface();
      case DropContext =>
        w.DestroyContext();
      case Drop =>
        w.DestroyGL();
    }
  }

  /** From construction to destruction, whatever is called in between and whatever EGL answers. */
  method Session(major: int, minor: int, ops: seq<Operation>) returns (w: Window)
    ensures WatchAll(w.log) == Some(NOTHING)
    ensures forall d: Handle, h: Handle :: d != 0 && h != 0 ==> Settled(w.log, d, h)
  {
    w := new Window(major, minor);
    for i := 0 to |ops|
      invariant w.Valid()
    {
      Perform(w, ops[i]);
    }
    w.DestroyGL();
    forall d: Handle, h: Handle | d != 0 && h != 0 ensures Settled(w.log, d, h) {
      AllReleased(w.log, d, h);
    }
  }
}
