/**
  The locking discipline of the generated EGL entry points.

  The generator chooses for every command which global locks its entry point takes, and whether it
  ends by running the tail calls its body has queued or by asserting that there are none.  Here every
  entry point is the list of steps the chosen template produces, threads run those steps in any
  interleaving, and the discipline is proved of every reachable state.
 */
module EntryPointLocks {

  // ----- what the generator knows about a command

  const LOCKLESS: set<string> := {
    "eglGetError", "eglGetCurrentContext", "eglGetCurrentSurface", "eglGetCurrentDisplay",
    "eglLockVulkanQueueANGLE", "eglUnlockVulkanQueueANGLE"
  }

  const SYNC: set<string> := {
    "eglClientWaitSync", "eglCreateSync", "eglDestroySync", "eglGetSyncAttrib", "eglWaitSync",
    "eglCreateSyncKHR", "eglClientWaitSyncKHR", "eglDupNativeFenceFDANDROID", "eglCopyMetalSharedEventANGLE",
    "eglDestroySyncKHR", "eglGetSyncAttribKHR", "eglSignalSyncKHR", "eglWaitSyncKHR"
  }

  const SYNC_AND_OTHERS: set<string> := {"eglTerminate", "eglLabelObjectKHR", "eglReleaseThread", "eglInitialize"}

  const RUNS_TAIL_CALLS: set<string> := {
    "eglDestroySurface", "eglMakeCurrent", "eglReleaseThread", "eglCreateWindowSurface",
    "eglCreatePlatformWindowSurface", "eglCreatePlatformWindowSurfaceEXT", "eglPrepareSwapBuffersANGLE",
    "eglClientWaitSyncKHR", "eglClientWaitSync", "eglCreateImageKHR", "eglCreateImage", "eglCreateSyncKHR",
    "eglCreateSync", "eglDestroySyncKHR", "eglDestroySync", "eglGetCompositorTimingANDROID",
    "eglGetFrameTimestampsANDROID", "eglSwapBuffers", "eglSwapBuffersWithDamageKHR", "eglWaitSyncKHR", "eglWaitSync"
  }

  const PREPARES_SWAP: set<string> := {
    "eglSwapBuffers", "eglSwapBuffersWithDamageKHR", "eglQuerySurface", "eglQuerySurface64KHR"
  }

  /** The resources a command's body works on: thread-local ones, sync objects, all objects, or all but sync objects. */
  datatype Class = Lockless | SyncOnly | SyncAndOthers | Others

  datatype Command = Command(class_: Class, returnsVoid: bool, runsTailCalls: bool, preparesSwap: bool)

  function Describe(name: string, returnsVoid: bool): Command {
    Command(
      if name in LOCKLESS then Lockless else if name in SYNC then SyncOnly
      else if name in SYNC_AND_OTHERS then SyncAndOthers else Others,
      returnsVoid, name in RUNS_TAIL_CALLS, name in PREPARES_SWAP)
  }

  datatype Lock = GlobalLock | SyncLock

  /** The lock argument of the templates. */
  function EglLock(c: Class): set<Lock> {
    match c
    case SyncOnly => {SyncLock}
    case SyncAndOthers => {GlobalLock, SyncLock}
    case _ => {GlobalLock}
  }

  /** The locks of the chosen template; the one for commands without a result ignores the argument. */
  function Locks(c: Command): set<Lock> {
    if c.class_.Lockless? then {} else if c.returnsVoid then {GlobalLock} else EglLock(c.class_)
  }

  datatype Resource = SyncObjects | OtherObjects

  function Touches(c: Command): set<Resource> {
    match c.class_
    case Lockless => {}
    case SyncOnly => {SyncObjects}
    case SyncAndOthers => {SyncObjects, OtherObjects}
    case Others => {OtherObjects}
  }

  function Guard(r: Resource): Lock {
    match r
    case SyncObjects => SyncLock
    case OtherObjects => GlobalLock
  }

  /** Every resource of the body is under its lock. */
  predicate Guarded(c: Command) {
    forall r :: r in Touches(c) ==> Guard(r) in Locks(c)
  }

  /**
    The template for commands without a result always takes the global lock, so the generator protects
    a command exactly when it is not a sync command without a result.
   */
  lemma GuardedIff(c: Command)
    ensures Guarded(c) <==> !(c.returnsVoid && (c.class_.SyncOnly? || c.class_.SyncAndOthers?))
  {
    if c.returnsVoid && (c.class_.SyncOnly? || c.class_.SyncAndOthers?) {
      assert SyncObjects in Touches(c) && Guard(SyncObjects) !in Locks(c);
    }
  }

  /** For every command of the tables: it is protected unless it is a sync command without a result. */
  lemma DescribedGuarded(name: string, returnsVoid: bool)
    ensures Guarded(Describe(name, returnsVoid)) <==>
            !returnsVoid || name in LOCKLESS || name !in SYNC + SYNC_AND_OTHERS
  {
    GuardedIff(Describe(name, returnsVoid));
  }

  // ----- the steps of an entry point

  /**
    `Enter` is where the validation of a command starts to look at its objects, `Call` where its body
    is called.  A failed validation returns on the spot: the locks are given back as their scopes are
    left, and the steps at the end of the entry point are not reached.
   */
  datatype Step =
    | CheckNoTailCalls
    | Acquire(lock: Lock)
    | Enter(command: Command)
    | Validate(failed: seq<Step>)
    | Call
    | Leave
    | Release(lock: Lock)
    | RunTailCalls
    | MayReturn

  /** Taking both locks happens in one order or the other. */
  function AcquireAll(locks: set<Lock>, syncFirst: bool): seq<Step> {
    var g := if GlobalLock in locks then [Acquire(GlobalLock)] else [];
    var s := if SyncLock in locks then [Acquire(SyncLock)] else [];
    if syncFirst then s + g else g + s
  }

  function ReleaseAll(locks: set<Lock>): seq<Step> {
    (if SyncLock in locks then [Release(SyncLock)] else []) + (if GlobalLock in locks then [Release(GlobalLock)] else [])
  }

  /** The entry point of a command; `after` is what the thread does when it returns. */
  function Body(c: Command, syncFirst: bool, after: seq<Step>): seq<Step> {
    var unlock := [Leave] + ReleaseAll(Locks(c));
    [CheckNoTailCalls] + AcquireAll(Locks(c), syncFirst) + [Enter(c), Validate(unlock + after), Call] + unlock
    + [if c.runsTailCalls then RunTailCalls else CheckNoTailCalls] + after
  }

  /**
    The entry point that swapping commands call first, and surface queries for some attributes; they
    give up when it fails.
   */
  const PREPARE := Describe("eglPrepareSwapBuffersANGLE", false)

  function EntryPoint(c: Command, syncFirst: bool, prepares: bool): seq<Step> {
    var own := Body(c, syncFirst, []);
    if c.preparesSwap && prepares then Body(PREPARE, syncFirst, [MayReturn] + own) else own
  }

  // ----- threads

  /**
    A thread: the steps ahead, the command it is validating or calling, whether it has got to the
    call, and its queued tail calls.
   */
  datatype Thread = Thread(code: seq<Step>, inside: seq<Command>, calling: bool, queued: nat)

  datatype State = State(threads: map<nat, Thread>, owner: map<Lock, nat>)

  function Held(s: State, t: nat): set<Lock> {
    set l | l in s.owner && s.owner[l] == t
  }

  /** Only a command whose entry point runs tail calls may queue one. */
  predicate MayQueue(c: Command) {
    c.runsTailCalls
  }

  ghost predicate Starts(s: State, s': State, t: nat, c: Command, syncFirst: bool, prepares: bool) {
    && t in s.threads && s.threads[t].code == [] && Guarded(c)
    && s' == s.(threads := s.threads[t := s.threads[t].(code := EntryPoint(c, syncFirst, prepares))])
  }

  ghost predicate Queues(s: State, s': State, t: nat) {
    && t in s.threads && s.threads[t].inside != [] && s.threads[t].calling && MayQueue(s.threads[t].inside[0])
    && s' == s.(threads := s.threads[t := s.threads[t].(queued := s.threads[t].queued + 1)])
  }

  ghost predicate Advances(s: State, s': State, t: nat) {
    && t in s.threads && s.threads[t].code != []
    && var th := s.threads[t];
       var next := th.(code := th.code[1..]);
       match th.code[0]
       case CheckNoTailCalls => s' == s.(threads := s.threads[t := next])
       case Acquire(l) =>
         l !in s.owner && s' == State(s.threads[t := next], s.owner[l := t])
       case Enter(c) => s' == s.(threads := s.threads[t := next.(inside := [c], calling := false)])
       case Validate(failed) =>
         || s' == s.(threads := s.threads[t := next])
         || s' == s.(threads := s.threads[t := th.(code := failed)])
       case Call => s' == s.(threads := s.threads[t := next.(calling := true)])
       case Leave => s' == s.(threads := s.threads[t := next.(inside := [], calling := false)])
       case Release(l) => s' == State(s.threads[t := next], s.owner - {l})
       case RunTailCalls => s' == s.(threads := s.threads[t := next.(queued := 0)])
       case MayReturn =>
         || s' == s.(threads := s.threads[t := next])
         || s' == s.(threads := s.threads[t := th.(code := [])])
  }

  ghost predicate Moves(s: State, s': State, t: nat) {
    || Advances(s, s', t) || Queues(s, s', t)
    || exists c, syncFirst, prepares :: Starts(s, s', t, c, syncFirst, prepares)
  }

  ghost predicate Next(s: State, s': State) {
    exists t :: Moves(s, s', t)
  }

  ghost predicate Initial(s: State) {
    s.owner == map[] && forall t :: t in s.threads ==> s.threads[t] == Thread([], [], false, 0)
  }

  ghost predicate IsRun(run: seq<State>) {
    run != [] && Initial(run[0]) && forall i :: 0 <= i < |run| - 1 ==> Next(run[i], run[i + 1])
  }

  // ----- the discipline of the steps ahead

  /**
    The steps can be taken, holding `held` now, inside a command or not and past its call or not;
    `dirty` when tail calls may be queued.
   */
  predicate Disciplined(code: seq<Step>, inside: seq<Command>, calling: bool, held: set<Lock>, dirty: bool)
    decreases code
  {
    if code == [] then inside == [] && held == {} && !dirty
    else
      var rest := code[1..];
      match code[0]
      case CheckNoTailCalls => !dirty && inside == [] && Disciplined(rest, inside, calling, held, dirty)
      case Acquire(l) => l !in held && inside == [] && Disciplined(rest, inside, calling, held + {l}, dirty)
      case Enter(c) =>
        && inside == [] && (forall r :: r in Touches(c) ==> Guard(r) in held)
        && Disciplined(rest, [c], false, held, dirty)
      case Validate(failed) =>
        && |inside| == 1 && !calling
        && Disciplined(rest, inside, calling, held, dirty) && Disciplined(failed, inside, calling, held, dirty)
      case Call => |inside| == 1 && Disciplined(rest, inside, true, held, dirty || MayQueue(inside[0]))
      case Leave => |inside| == 1 && Disciplined(rest, [], false, held, dirty)
      case Release(l) => l in held && inside == [] && Disciplined(rest, inside, calling, held - {l}, dirty)
      case RunTailCalls => held == {} && inside == [] && Disciplined(rest, inside, calling, held, false)
      case MayReturn => held == {} && inside == [] && !dirty && Disciplined(rest, inside, calling, held, dirty)
  }

  /** While inside a command, the locks of what it touches are held; once it is called it may have queued. */
  predicate InsideOk(inside: seq<Command>, calling: bool, held: set<Lock>, dirty: bool) {
    |inside| <= 1 &&
    (|inside| == 1 ==>
       (forall r :: r in Touches(inside[0]) ==> Guard(r) in held) && (calling && MayQueue(inside[0]) ==> dirty))
  }

  predicate Behaves(th: Thread, held: set<Lock>, dirty: bool) {
    && Disciplined(th.code, th.inside, th.calling, held, dirty)
    && InsideOk(th.inside, th.calling, held, dirty)
    && (th.queued > 0 ==> dirty)
  }

  ghost predicate ThreadOk(s: State, t: nat) {
    t in s.threads && exists dirty :: Behaves(s.threads[t], Held(s, t), dirty)
  }

  ghost predicate Invariant(s: State) {
    && (forall t :: t in s.threads ==> ThreadOk(s, t))
    && (forall l :: l in s.owner ==> s.owner[l] in s.threads)
  }

  // ----- every entry point follows the discipline

  lemma OnlyTwoLocks(locks: set<Lock>)
    ensures forall l :: l in locks ==> l == GlobalLock || l == SyncLock
  {
  }

  lemma ReleaseOne(lock: Lock, locks: set<Lock>, held: set<Lock>, rest: seq<Step>, dirty: bool)
    requires (lock in locks <==> lock in held) && Disciplined(rest, [], false, held - {lock}, dirty)
    ensures Disciplined((if lock in locks then [Release(lock)] else []) + rest, [], false, held, dirty)
  {
    var a := if lock in locks then [Release(lock)] else [];
    if lock in locks {
      assert (a + rest)[1..] == rest;
    } else {
      assert a + rest == rest && held - {lock} == held;
    }
  }

  lemma ReleaseDisciplined(locks: set<Lock>, rest: seq<Step>, dirty: bool)
    requires Disciplined(rest, [], false, {}, dirty)
    ensures Disciplined(ReleaseAll(locks) + rest, [], false, locks, dirty)
  {
    var g := if GlobalLock in locks then [Release(GlobalLock)] else [];
    var s := if SyncLock in locks then [Release(SyncLock)] else [];
    OnlyTwoLocks(locks);
    assert locks - {SyncLock} - {GlobalLock} == {};
    ReleaseOne(GlobalLock, locks, locks - {SyncLock}, rest, dirty);
    ReleaseOne(SyncLock, locks, locks, g + rest, dirty);
    assert ReleaseAll(locks) + rest == s + (g + rest);
  }

  lemma AcquireOne(lock: Lock, locks: set<Lock>, held: set<Lock>, rest: seq<Step>, dirty: bool)
    requires lock !in held && Disciplined(rest, [], false, if lock in locks then held + {lock} else held, dirty)
    ensures Disciplined((if lock in locks then [Acquire(lock)] else []) + rest, [], false, held, dirty)
  {
    var a := if lock in locks then [Acquire(lock)] else [];
    if lock in locks {
      assert (a + rest)[1..] == rest;
    } else {
      assert a + rest == rest;
    }
  }

  lemma AcquireDisciplined(locks: set<Lock>, syncFirst: bool, rest: seq<Step>, dirty: bool)
    requires Disciplined(rest, [], false, locks, dirty)
    ensures Disciplined(AcquireAll(locks, syncFirst) + rest, [], false, {}, dirty)
  {
    var first, second := if syncFirst then SyncLock else GlobalLock, if syncFirst then GlobalLock else SyncLock;
    var a := if first in locks then [Acquire(first)] else [];
    var b := if second in locks then [Acquire(second)] else [];
    var held: set<Lock> := if first in locks then {first} else {};
    OnlyTwoLocks(locks);
    assert locks == if second in locks then held + {second} else held;
    AcquireOne(second, locks, held, rest, dirty);
    assert held == if first in locks then {} + {first} else {};
    AcquireOne(first, locks, {}, b + rest, dirty);
    assert AcquireAll(locks, syncFirst) + rest == a + (b + rest);
  }

  /** Leaving the scopes of the locks, with or without having called the command. */
  lemma UnlockDisciplined(c: Command, calling: bool, rest: seq<Step>, dirty: bool)
    requires Disciplined(rest, [], false, {}, dirty)
    ensures Disciplined([Leave] + ReleaseAll(Locks(c)) + rest, [c], calling, Locks(c), dirty)
  {
    ReleaseDisciplined(Locks(c), rest, dirty);
    assert ([Leave] + ReleaseAll(Locks(c)) + rest)[1..] == ReleaseAll(Locks(c)) + rest;
  }

  lemma InsideDisciplined(c: Command, failed: seq<Step>, rest: seq<Step>)
    requires Guarded(c) && Disciplined(failed, [c], false, Locks(c), false)
    requires Disciplined(rest, [c], true, Locks(c), MayQueue(c))
    ensures Disciplined([Enter(c), Validate(failed), Call] + rest, [], false, Locks(c), false)
  {
    var call := [Call] + rest;
    assert call[1..] == rest;
    var validate := [Validate(failed)] + call;
    assert validate[1..] == call;
    assert ([Enter(c), Validate(failed), Call] + rest)[1..] == validate;
  }

  lemma Regroup(a: seq<Step>, b: seq<Step>, c: seq<Step>, d: seq<Step>, e: seq<Step>, f: seq<Step>)
    ensures a + b + c + d + e + f == a + (b + (c + (d + (e + f))))
  {
  }

  lemma BodyDisciplined(c: Command, syncFirst: bool, after: seq<Step>)
    requires Guarded(c) && Disciplined(after, [], false, {}, false)
    ensures Disciplined(Body(c, syncFirst, after), [], false, {}, false)
  {
    var last := if c.runsTailCalls then RunTailCalls else CheckNoTailCalls;
    var end := [last] + after;
    assert end[1..] == after;
    var unlock := [Leave] + ReleaseAll(Locks(c));
    UnlockDisciplined(c, true, end, MayQueue(c));
    UnlockDisciplined(c, false, after, false);
    var within := [Enter(c), Validate(unlock + after), Call];
    InsideDisciplined(c, unlock + after, unlock + end);
    var inner := within + (unlock + end);
    AcquireDisciplined(Locks(c), syncFirst, inner, false);
    var outer := AcquireAll(Locks(c), syncFirst) + inner;
    assert ([CheckNoTailCalls] + outer)[1..] == outer;
    Regroup([CheckNoTailCalls], AcquireAll(Locks(c), syncFirst), within, unlock, [last], after);
  }

  lemma PreparedDisciplined(p: Command, syncFirst: bool, body: seq<Step>)
    requires Guarded(p) && Disciplined(body, [], false, {}, false)
    ensures Disciplined(Body(p, syncFirst, [MayReturn] + body), [], false, {}, false)
  {
    assert ([MayReturn] + body)[1..] == body;
    BodyDisciplined(p, syncFirst, [MayReturn] + body);
  }

  lemma EntryPointDisciplined(c: Command, syncFirst: bool, prepares: bool)
    requires Guarded(c)
    ensures Disciplined(EntryPoint(c, syncFirst, prepares), [], false, {}, false)
  {
    BodyDisciplined(c, syncFirst, []);
    if c.preparesSwap && prepares {
      DescribedGuarded("eglPrepareSwapBuffersANGLE", false);
      PreparedDisciplined(PREPARE, syncFirst, Body(c, syncFirst, []));
    }
  }

  // ----- every step keeps the invariant

  lemma OtherThread(s: State, s': State, u: nat)
    requires ThreadOk(s, u) && u in s'.threads && s'.threads[u] == s.threads[u] && Held(s', u) == Held(s, u)
    ensures ThreadOk(s', u)
  {
  }

  function HeldAfter(step: Step, held: set<Lock>): set<Lock> {
    match step
    case Acquire(l) => held + {l}
    case Release(l) => held - {l}
    case _ => held
  }

  function DirtyAfter(step: Step, inside: seq<Command>, dirty: bool): bool {
    match step
    case Call => dirty || (inside != [] && MayQueue(inside[0]))
    case RunTailCalls => false
    case _ => dirty
  }

  lemma AdvanceHeld(s: State, s': State, t: nat)
    requires Invariant(s) && Advances(s, s', t)
    ensures Held(s', t) == HeldAfter(s.threads[t].code[0], Held(s, t))
    ensures forall u :: u in s.threads && u != t ==> Held(s', u) == Held(s, u)
  {
    assert ThreadOk(s, t);
  }

  lemma StepBehaves(s: State, s': State, t: nat, dirty: bool)
    requires Advances(s, s', t) && Behaves(s.threads[t], Held(s, t), dirty)
    ensures var step := s.threads[t].code[0];
            Behaves(s'.threads[t], HeldAfter(step, Held(s, t)), DirtyAfter(step, s.threads[t].inside, dirty))
  {
  }

  lemma AdvanceKeeps(s: State, s': State, t: nat)
    requires Invariant(s) && Advances(s, s', t)
    ensures ThreadOk(s', t) && forall u :: u in s.threads && u != t ==> Held(s', u) == Held(s, u)
  {
    AdvanceHeld(s, s', t);
    assert ThreadOk(s, t);
    var dirty :| Behaves(s.threads[t], Held(s, t), dirty);
    StepBehaves(s, s', t, dirty);
  }

  lemma NextKeeps(s: State, s': State)
    requires Invariant(s) && Next(s, s')
    ensures Invariant(s')
  {
    var t :| Moves(s, s', t);
    if Advances(s, s', t) {
      AdvanceKeeps(s, s', t);
    } else if Queues(s, s', t) {
      QueueKeeps(s, s', t);
    } else {
      var c, syncFirst, prepares :| Starts(s, s', t, c, syncFirst, prepares);
      StartKeeps(s, s', t, c, syncFirst, prepares);
    }
    forall u | u in s'.threads
      ensures ThreadOk(s', u)
    {
      if u != t {
        assert ThreadOk(s, u);
        OtherThread(s, s', u);
      }
    }
  }

  lemma QueueKeeps(s: State, s': State, t: nat)
    requires Invariant(s) && Queues(s, s', t)
    ensures ThreadOk(s', t) && forall u :: Held(s', u) == Held(s, u)
  {
    assert ThreadOk(s, t);
    var dirty :| Behaves(s.threads[t], Held(s, t), dirty);
    assert Held(s', t) == Held(s, t);
    assert Behaves(s'.threads[t], Held(s', t), dirty);
  }

  lemma StartKeeps(s: State, s': State, t: nat, c: Command, syncFirst: bool, prepares: bool)
    requires Invariant(s) && Starts(s, s', t, c, syncFirst, prepares)
    ensures ThreadOk(s', t) && forall u :: Held(s', u) == Held(s, u)
  {
    assert ThreadOk(s, t);
    var dirty :| Behaves(s.threads[t], Held(s, t), dirty);
    EntryPointDisciplined(c, syncFirst, prepares);
    assert Held(s', t) == Held(s, t) == {};
    EntryStarts(EntryPoint(c, syncFirst, prepares), s.threads[t].calling, {});
    assert Behaves(s'.threads[t], Held(s', t), false);
  }

  /** Outside a command it does not matter whether the last one was called. */
  lemma {:induction false} EntryStarts(code: seq<Step>, calling: bool, held: set<Lock>)
    requires Disciplined(code, [], false, held, false)
    ensures Disciplined(code, [], calling, held, false)
    decreases code
  {
    if code != [] {
      match code[0]
      case CheckNoTailCalls => EntryStarts(code[1..], calling, held);
      case Acquire(l) => EntryStarts(code[1..], calling, held + {l});
      case Release(l) => EntryStarts(code[1..], calling, held - {l});
      case RunTailCalls => EntryStarts(code[1..], calling, held);
      case MayReturn => EntryStarts(code[1..], calling, held);
      case _ =>
    }
  }

  lemma {:induction false} RunKeeps(run: seq<State>, i: nat)
    requires IsRun(run) && i < |run|
    ensures Invariant(run[i])
    decreases i
  {
    if i == 0 {
      var s := run[0];
      forall t | t in s.threads
        ensures ThreadOk(s, t)
      {
        assert Held(s, t) == {};
        assert Behaves(s.threads[t], {}, false);
      }
    } else {
      RunKeeps(run, i - 1);
      NextKeeps(run[i - 1], run[i]);
    }
  }

  // ----- the main results, for every state of every run

  /** Two threads are never both in a body that works on the same resources. */
  lemma NoTwoInside(run: seq<State>, i: nat, t: nat, u: nat)
    requires IsRun(run) && i < |run| && t != u && t in run[i].threads && u in run[i].threads
    requires run[i].threads[t].inside != [] && run[i].threads[u].inside != []
    ensures Touches(run[i].threads[t].inside[0]) !! Touches(run[i].threads[u].inside[0])
  {
    var s := run[i];
    RunKeeps(run, i);
    assert ThreadOk(s, t) && ThreadOk(s, u);
    forall r | r in Touches(s.threads[t].inside[0])
      ensures r !in Touches(s.threads[u].inside[0])
    {
      assert Guard(r) in Held(s, t) && Guard(r) !in Held(s, u);
    }
  }

  /** Tail calls run with no lock held. */
  lemma TailCallsUnlocked(run: seq<State>, i: nat, t: nat)
    requires IsRun(run) && i < |run| && t in run[i].threads
    requires run[i].threads[t].code != [] && run[i].threads[t].code[0] == RunTailCalls
    ensures Held(run[i], t) == {} && run[i].threads[t].inside == []
  {
    RunKeeps(run, i);
    assert ThreadOk(run[i], t);
  }

  /** Between calls, and wherever an entry point asserts it, a thread has no tail call queued and holds no lock between calls. */
  lemma NoTailCallsLeft(run: seq<State>, i: nat, t: nat)
    requires IsRun(run) && i < |run| && t in run[i].threads
    ensures run[i].threads[t].code == [] ==> run[i].threads[t].queued == 0 && Held(run[i], t) == {}
    ensures run[i].threads[t].code != [] && run[i].threads[t].code[0] == CheckNoTailCalls ==> run[i].threads[t].queued == 0
  {
    RunKeeps(run, i);
    assert ThreadOk(run[i], t);
  }

  /** A lock is only given back by the thread that holds it. */
  lemma ReleasesOwnLock(run: seq<State>, i: nat, t: nat)
    requires IsRun(run) && i < |run| && t in run[i].threads
    requires run[i].threads[t].code != [] && run[i].threads[t].code[0].Release?
    ensures var l := run[i].threads[t].code[0].lock; l in run[i].owner && run[i].owner[l] == t
  {
    RunKeeps(run, i);
    assert ThreadOk(run[i], t);
  }

  /** What goes wrong otherwise: such a command shares no lock with any sync command that has a result. */
  lemma UnguardedShares(c: Command, d: Command)
    requires !Guarded(c) && d.class_.SyncOnly? && !d.returnsVoid
    ensures Locks(c) !! Locks(d) && SyncObjects in Touches(c) * Touches(d)
  {
    GuardedIff(c);
  }
}
