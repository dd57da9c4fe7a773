/**
 The fiber cache of one worker thread (src/core/fiber_cache.cpp and .h): fiber
 contexts that run one task after another, a cache of parked contexts and a
 counter-based drain at shutdown.

 Fibers are cooperative: one runs until it waits on its condition variable or its
 task gives way, so each step below is the stretch between two such points.
*/
module FiberCache {
  import opened Common

  type Task = nat
  type Id = nat

  /** Where a context's fiber is: ready to run (new, or notified while waiting),
      inside its task, parked in `cv.wait`, or returned. */
  datatype Pc = Ready | Running | Parked | Ended

  datatype Context = Context(pc: Pc, func: Option<Task>)

  /** How far `unregister_io_service` has come: not called; stop flag set; drained;
      about to notify context `k` of the cache; joining it; done. */
  datatype Shutdown = Open | Stopping | Drained | Notifying(k: nat) | Joining(k: nat) | Closed

  /** `contexts` holds every context ever started; `direct` the tasks of plain
      detached fibers that have not begun. As history, `submitted` counts the calls
      of `run`, whose tasks are numbered in order, and `begun` lists the tasks whose
      function was entered. */
  datatype State = State(
    contexts: seq<Context>,
    cache: Option<seq<Id>>,
    fibCnt: nat,
    stop: bool,
    shutdown: Shutdown,
    direct: set<Task>,
    submitted: nat,
    begun: seq<Task>)

  datatype Event =
    | Register
    | Run                   // run() with the next task
    | Resume(id: Id)        // the scheduler picks a ready context
    | Return(id: Id)        // the task of a running context returns
    | ResumeDirect(t: Task) // the scheduler picks a plain fiber
    | SetStop
    | Poll
    | BeginCleanup
    | Notify
    | Join
    | Reset

  predicate IsPc(s: State, id: Id, pc: Pc) {
    id < |s.contexts| && s.contexts[id].pc == pc
  }

  predicate Enabled(s: State, e: Event) {
    match e
    case Register => s.cache.None? && s.shutdown.Open?
    case Run => true
    case Resume(id) => IsPc(s, id, Ready)
    case Return(id) => IsPc(s, id, Running)
    case ResumeDirect(t) => t in s.direct
    case SetStop => s.shutdown.Open? && s.cache.Some?
    case Poll => s.shutdown.Stopping? && s.cache.Some?
    case BeginCleanup => s.shutdown.Drained?
    case Notify => s.shutdown.Notifying? && s.cache.Some? && s.shutdown.k < |s.cache.value|
    case Join =>
      s.shutdown.Joining? && s.cache.Some? && s.shutdown.k < |s.cache.value|
      && IsPc(s, s.cache.value[s.shutdown.k], Ended)
    case Reset => s.shutdown.Notifying? && s.cache.Some? && s.shutdown.k == |s.cache.value|
  }

  /** `notify_one` on a context's condition variable: lost unless its fiber waits. */
  function Notified(contexts: seq<Context>, id: Id): seq<Context> {
    if id < |contexts| && contexts[id].pc.Parked? then contexts[id := contexts[id].(pc := Ready)] else contexts
  }

  function WithFunc(contexts: seq<Context>, id: Id, t: Task): seq<Context> {
    if id < |contexts| then contexts[id := contexts[id].(func := Some(t))] else contexts
  }

  function Step(s: State, e: Event): State
    requires Enabled(s, e)
  {
    match e
    case Register => s.(cache := Some([]))
    case Run =>
      var t, s1 := s.submitted, s.(submitted := s.submitted + 1);
      if s.stop || s.cache.None? then s1.(direct := s.direct + {t})
      else if s.cache.value != [] then
        var n := |s.cache.value| - 1;
        var id := s.cache.value[n];
        s1.(cache := Some(s.cache.value[..n]), contexts := Notified(WithFunc(s.contexts, id, t), id))
      else s1.(contexts := s.contexts + [Context(Ready, Some(t))], fibCnt := s.fibCnt + 1)
    case Resume(id) =>
      var f := s.contexts[id].func;
      if f.Some? then s.(contexts := s.contexts[id := Context(Running, f)], begun := s.begun + [f.value])
      else s.(contexts := s.contexts[id := Context(Ended, None)])
    case Return(id) =>
      s.(contexts := s.contexts[id := Context(Parked, None)],
         cache := if s.cache.Some? then Some(s.cache.value + [id]) else None)
    case ResumeDirect(t) => s.(direct := s.direct - {t}, begun := s.begun + [t])
    case SetStop => s.(stop := true, shutdown := Stopping)
    case Poll => if s.fibCnt == |s.cache.value| then s.(shutdown := Drained) else s
    case BeginCleanup => s.(shutdown := Notifying(0))
    case Notify =>
      s.(contexts := Notified(s.contexts, s.cache.value[s.shutdown.k]), shutdown := Joining(s.shutdown.k))
    case Join => s.(shutdown := Notifying(s.shutdown.k + 1))
    case Reset => s.(cache := None, shutdown := Closed)
  }

  function Init(): State {
    State([], None, 0, false, Open, {}, 0, [])
  }

  ghost predicate IsRun(s: State, es: seq<Event>)
    decreases |es|
  {
    es == [] || (Enabled(s, es[0]) && IsRun(Step(s, es[0]), es[1..]))
  }

  ghost function Exec(s: State, es: seq<Event>): State
    requires IsRun(s, es)
    decreases |es|
  {
    if es == [] then s else Exec(Step(s, es[0]), es[1..])
  }

  /** What can happen when. */
  lemma PossibleSteps(s: State, id: Id, t: Task)
    ensures Enabled(s, Run)
    ensures Enabled(s, Resume(id)) <==> id < |s.contexts| && s.contexts[id].pc.Ready?
    ensures Enabled(s, Return(id)) <==> id < |s.contexts| && s.contexts[id].pc.Running?
    ensures Enabled(s, ResumeDirect(t)) <==> t in s.direct
    ensures Enabled(s, Register) <==> s.cache.None? && s.shutdown.Open?
    ensures Enabled(s, SetStop) <==> s.cache.Some? && s.shutdown.Open?
  {
  }

  /** A run is one possible step after the other. */
  lemma RunIsSteps(s: State, e: Event, rest: seq<Event>)
    ensures IsRun(s, []) && Exec(s, []) == s
    ensures IsRun(s, [e] + rest) <==> Enabled(s, e) && IsRun(Step(s, e), rest)
    ensures IsRun(s, [e] + rest) ==> Exec(s, [e] + rest) == Exec(Step(s, e), rest)
  {
    assert ([e] + rest)[1..] == rest;
  }

  // ----- the invariant

  /** A context whose fiber holds a task that has not begun. */
  ghost predicate Pending(s: State, id: Id, t: Task) {
    IsPc(s, id, Ready) && s.contexts[id].func == Some(t)
  }

  /** Every submitted task is in exactly one place: begun once, waiting in one
      ready context, or waiting in a plain fiber. */
  ghost predicate TasksOk(s: State) {
    && NoDup(s.begun)
    && (forall t :: t in s.begun ==> t < s.submitted)
    && (forall t :: t in s.direct ==> t < s.submitted && t !in s.begun)
    && (forall id: Id, t: Task :: Pending(s, id, t) ==> t < s.submitted && t !in s.begun && t !in s.direct)
    && (forall id: Id, id2: Id, t: Task :: Pending(s, id, t) && Pending(s, id2, t) ==> id == id2)
    && (forall t: Task :: t < s.submitted ==> t in s.begun || t in s.direct || exists id: Id :: Pending(s, id, t))
  }

  ghost predicate IsParked(c: Context) { c == Context(Parked, None) }

  ghost predicate IsActive(c: Context) { (c.pc.Ready? || c.pc.Running?) && c.func.Some? }

  /** Outside cleanup: a context is either parked in the cache without a task, or
      active with a task and not in the cache; the counter counts them all. */
  ghost predicate Split(s: State)
    requires s.cache.Some?
  {
    && NoDup(s.cache.value) && s.fibCnt == |s.contexts|
    && (forall id: Id :: id in s.cache.value <==> id < |s.contexts| && IsParked(s.contexts[id]))
    && (forall id: Id :: id < |s.contexts| ==> IsParked(s.contexts[id]) || IsActive(s.contexts[id]))
  }

  ghost predicate CleanedAt(contexts: seq<Context>, id: Id, joining: bool, done: bool) {
    id < |contexts| &&
    if done then contexts[id] == Context(Ended, None)
    else if joining then contexts[id] == Context(Ready, None) || contexts[id] == Context(Ended, None)
    else IsParked(contexts[id])
  }

  /** During cleanup: the first `k` cached contexts have ended, the rest are parked,
      and the cache still lists every context. */
  ghost predicate Cleaning(s: State, k: nat, joining: bool)
    requires s.cache.Some?
  {
    var c := s.cache.value;
    && NoDup(c) && s.fibCnt == |c| == |s.contexts| && (if joining then k < |c| else k <= |c|)
    && (forall id: Id :: id in c <==> id < |s.contexts|)
    && (forall j {:trigger c[j]} :: 0 <= j < |c| ==>
          CleanedAt(s.contexts, c[j], if joining then j == k else false, j < k))
  }

  ghost predicate ContextsOk(s: State) {
    && (s.stop <==> !s.shutdown.Open?)
    && match s.shutdown
       case Open => if s.cache.Some? then Split(s) else s.contexts == [] && s.fibCnt == 0
       case Stopping => s.cache.Some? && Split(s)
       case Drained => s.cache.Some? && Split(s) && |s.cache.value| == |s.contexts|
       case Notifying(k) => s.cache.Some? && Cleaning(s, k, false)
       case Joining(k) => s.cache.Some? && Cleaning(s, k, true)
       case Closed => s.cache.None? && forall id: Id :: id < |s.contexts| ==> s.contexts[id] == Context(Ended, None)
  }

  ghost predicate Inv(s: State) {
    ContextsOk(s) && TasksOk(s)
  }

  /** With every context in its place, the counter equals the size of the cache
      exactly when no context is active. */
  lemma CounterMeansIdle(s: State)
    requires s.cache.Some? && Split(s)
    ensures |s.cache.value| <= s.fibCnt
    ensures s.fibCnt == |s.cache.value| <==> forall id: Id :: id < |s.contexts| ==> !IsActive(s.contexts[id])
  {
    var c, n := s.cache.value, |s.contexts|;
    assert forall j :: 0 <= j < |c| ==> c[j] in c;
    Pigeonhole(c, n);
    if forall id: Id :: 0 <= id < n ==> !IsActive(s.contexts[id]) {
      assert forall id: Id :: 0 <= id < n ==> id in c;
      AllListed(c, n);
    }
  }

  lemma {:induction false} AllListed(c: seq<Id>, n: nat)
    requires forall id: Id :: id < n ==> id in c
    ensures |c| >= n
    decreases n
  {
    if n > 0 {
      var last: Id := n - 1;
      assert last in c;
      var j :| 0 <= j < |c| && c[j] == n - 1;
      var rest := c[..j] + c[j + 1..];
      forall id: Id | id < n - 1
        ensures id in rest
      {
        assert id in c;
        var i :| 0 <= i < |c| && c[i] == id;
        assert rest[if i < j then i else i - 1] == id;
      }
      AllListed(rest, n - 1);
    }
  }

  lemma InvInit()
    ensures Inv(Init())
  {
  }

  /** A submitted task that lands in a context or in a plain fiber. */
  lemma TaskSubmitted(s: State, t: State, id: Id)
    requires TasksOk(s) && t.submitted == s.submitted + 1 && t.begun == s.begun
    requires forall id: Id, u: Task :: Pending(s, id, u) ==> Pending(t, id, u)
    requires
      || (t.direct == s.direct + {s.submitted} && forall id: Id, u: Task :: Pending(t, id, u) ==> Pending(s, id, u))
      || (t.direct == s.direct && Pending(t, id, s.submitted) && forall id2: Id, u: Task ::
            Pending(t, id2, u) ==> Pending(s, id2, u) || (id2 == id && u == s.submitted))
    ensures TasksOk(t)
  {
    forall u: Task | u < t.submitted
      ensures u in t.begun || u in t.direct || exists id: Id :: Pending(t, id, u)
    {
      if u < s.submitted && u !in s.begun && u !in s.direct {
        var id: Id :| Pending(s, id, u);
        assert Pending(t, id, u);
      }
    }
  }

  /** A task that begins leaves its context or its plain fiber. */
  lemma TaskBegun(s: State, t: State, b: Task)
    requires TasksOk(s) && t.submitted == s.submitted && t.begun == s.begun + [b]
    requires forall id: Id, u: Task :: Pending(t, id, u) <==> Pending(s, id, u) && u != b
    requires t.direct == s.direct - {b}
    requires b in s.direct || exists id: Id :: Pending(s, id, b)
    ensures TasksOk(t)
  {
    assert b < s.submitted && b !in s.begun;
    forall u: Task | u < t.submitted
      ensures u in t.begun || u in t.direct || exists id: Id :: Pending(t, id, u)
    {
      assert t.begun[|s.begun|] == b;
      if u != b && u !in s.begun && u !in s.direct {
        var id: Id :| Pending(s, id, u);
        assert Pending(t, id, u);
      }
      assert u in s.begun ==> u in t.begun;
    }
  }

  lemma TaskUnmoved(s: State, t: State)
    requires TasksOk(s) && t.submitted == s.submitted && t.begun == s.begun && t.direct == s.direct
    requires forall id: Id, u: Task :: Pending(t, id, u) <==> Pending(s, id, u)
    ensures TasksOk(t)
  {
    forall u: Task | u < t.submitted && u !in t.begun && u !in t.direct
      ensures exists id: Id :: Pending(t, id, u)
    {
      var id: Id :| Pending(s, id, u);
      assert Pending(t, id, u);
    }
  }

  lemma RunTasks(s: State)
    requires Inv(s)
    ensures TasksOk(Step(s, Run))
  {
    var id: Id := |s.contexts|;
    if !s.stop && s.cache.Some? && s.cache.value != [] {
      id := s.cache.value[|s.cache.value| - 1];
      assert id in s.cache.value && IsParked(s.contexts[id]);
    }
    TaskSubmitted(s, Step(s, Run), id);
  }

  lemma ResumeTasks(s: State, id: Id)
    requires Inv(s) && Enabled(s, Resume(id))
    ensures TasksOk(Step(s, Resume(id)))
  {
    var t, f := Step(s, Resume(id)), s.contexts[id].func;
    if f.Some? {
      assert Pending(s, id, f.value);
      forall id2: Id, u: Task
        ensures Pending(t, id2, u) <==> Pending(s, id2, u) && u != f.value
      {
        assert Pending(s, id2, f.value) ==> id2 == id;
        assert id2 < |s.contexts| && id2 != id ==> t.contexts[id2] == s.contexts[id2];
      }
      TaskBegun(s, t, f.value);
    } else {
      forall id2: Id, u: Task
        ensures Pending(t, id2, u) <==> Pending(s, id2, u)
      {
        assert id2 < |s.contexts| && id2 != id ==> t.contexts[id2] == s.contexts[id2];
      }
      TaskUnmoved(s, t);
    }
  }

  lemma TasksStep(s: State, e: Event)
    requires Inv(s) && Enabled(s, e)
    ensures TasksOk(Step(s, e))
  {
    var t := Step(s, e);
    match e
    case Run => RunTasks(s);
    case Resume(id) =>
      ResumeTasks(s, id);
    case ResumeDirect(b) =>
      assert forall id: Id, u: Task :: Pending(t, id, u) <==> Pending(s, id, u);
      TaskBegun(s, t, b);
    case Notify =>
      assert CleanedAt(s.contexts, s.cache.value[s.shutdown.k], false, false);
      TaskUnmoved(s, t);
    case _ => TaskUnmoved(s, t);
  }

  lemma RunContexts(s: State)
    requires Inv(s)
    ensures ContextsOk(Step(s, Run))
  {
    if !s.stop && s.cache.Some? {
      var t, c := Step(s, Run), s.cache.value;
      if c != [] {
        var n := |c| - 1;
        assert c == c[..n] + [c[n]] && c[n] in c;
        assert forall id: Id :: id in c <==> id in c[..n] || id == c[n];
        assert c[n] !in c[..n];
        assert forall id: Id :: id < |s.contexts| && id != c[n] ==> t.contexts[id] == s.contexts[id];
      } else {
        assert forall id: Id :: id < |s.contexts| ==> id !in c && t.contexts[id] == s.contexts[id];
      }
      assert Split(t);
    }
  }

  /** During cleanup no context is running, and at most the one being joined is ready. */
  lemma CleaningContext(s: State, k: nat, joining: bool, id: Id) returns (j: nat)
    requires s.cache.Some? && Cleaning(s, k, joining) && id < |s.contexts|
    ensures j < |s.cache.value| && s.cache.value[j] == id
    ensures CleanedAt(s.contexts, id, if joining then j == k else false, j < k)
  {
    assert id in s.cache.value;
    j :| 0 <= j < |s.cache.value| && s.cache.value[j] == id;
  }

  lemma ResumeContexts(s: State, id: Id)
    requires Inv(s) && (Enabled(s, Resume(id)))
    ensures ContextsOk(Step(s, Resume(id)))
  {
    if s.shutdown.Notifying? || s.shutdown.Joining? {
      var j := CleaningContext(s, s.shutdown.k, s.shutdown.Joining?, id);
    }
  }

  lemma ReturnContexts(s: State, id: Id)
    requires Inv(s) && (Enabled(s, Return(id)))
    ensures ContextsOk(Step(s, Return(id)))
  {
    if s.shutdown.Notifying? || s.shutdown.Joining? {
      var j := CleaningContext(s, s.shutdown.k, s.shutdown.Joining?, id);
    } else if s.shutdown.Drained? {
      CounterMeansIdle(s);
    } else if s.cache.Some? {
      var t, c := Step(s, Return(id)), s.cache.value;
      assert id !in c;
      assert forall i: Id :: i in t.cache.value <==> i in c || i == id;
    }
  }

  lemma ContextsStep(s: State, e: Event)
    requires Inv(s) && Enabled(s, e)
    ensures ContextsOk(Step(s, e))
  {
    match e
    case Run => RunContexts(s);
    case Resume(id) => ResumeContexts(s, id);
    case Return(id) => ReturnContexts(s, id);
    case BeginCleanup =>
      CounterMeansIdle(s);
      assert forall j :: 0 <= j < |s.cache.value| ==> s.cache.value[j] in s.cache.value;
      Pigeonhole(s.cache.value, |s.contexts|);
    case Reset =>
      forall id: Id | id < |s.contexts|
        ensures s.contexts[id] == Context(Ended, None)
      {
        var j := CleaningContext(s, s.shutdown.k, false, id);
      }
    case _ =>
  }

  lemma InvStep(s: State, e: Event)
    requires Inv(s) && Enabled(s, e)
    ensures Inv(Step(s, e))
  {
    TasksStep(s, e);
    ContextsStep(s, e);
  }

  lemma {:induction false} InvRun(s: State, es: seq<Event>)
    requires Inv(s) && IsRun(s, es)
    ensures Inv(Exec(s, es))
    decreases |es|
  {
    if es != [] {
      InvStep(s, es[0]);
      InvRun(Step(s, es[0]), es[1..]);
    }
  }

  // ----- what every run guarantees

  lemma {:induction false} SubmittedAreRuns(s: State, es: seq<Event>)
    requires IsRun(s, es)
    ensures Exec(s, es).submitted == s.submitted + multiset(es)[Run]
    decreases |es|
  {
    if es != [] {
      SubmittedAreRuns(Step(s, es[0]), es[1..]);
      assert es == [es[0]] + es[1..];
    }
  }

  /** The tasks are numbered by the calls of `run`. Each is begun at most once, and is at
      every moment begun, or held by exactly one ready context, or by a plain fiber. */
  lemma AtMostOnce(es: seq<Event>)
    requires IsRun(Init(), es)
    ensures TasksOk(Exec(Init(), es))
    ensures
      var s := Exec(Init(), es);
      && s.submitted == multiset(es)[Run]
      && NoDup(s.begun) && (forall t :: t in s.begun ==> t < multiset(es)[Run])
  {
    InvInit();
    InvRun(Init(), es);
    SubmittedAreRuns(Init(), es);
  }

  /** What `run` does: during shutdown or without a cache the task goes to a plain fiber;
      otherwise to the newest parked context, which is woken, or to a new one. */
  lemma RunIs(s: State)
    requires Inv(s)
    ensures
      var t := Step(s, Run);
      && t.submitted == s.submitted + 1 && t.begun == s.begun && t.stop == s.stop && t.shutdown == s.shutdown
      && if s.stop || s.cache.None? then
           && t.direct == s.direct + {s.submitted} && t.contexts == s.contexts
           && t.cache == s.cache && t.fibCnt == s.fibCnt
         else if s.cache.value != [] then
           var n := |s.cache.value| - 1;
           var id := s.cache.value[n];
           && t.direct == s.direct && t.fibCnt == s.fibCnt && t.cache == Some(s.cache.value[..n])
           && id < |s.contexts| && t.contexts == s.contexts[id := Context(Ready, Some(s.submitted))]
         else
           && t.direct == s.direct && t.fibCnt == s.fibCnt + 1 && t.cache == s.cache
           && t.contexts == s.contexts + [Context(Ready, Some(s.submitted))]
  {
    if !s.stop && s.cache.Some? && s.cache.value != [] {
      assert s.cache.value[|s.cache.value| - 1] in s.cache.value;
    }
  }

  /** The task is held by this context and by no other. */
  ghost predicate OnlyPending(s: State, id: Id, t: Task) {
    Pending(s, id, t) && forall id2: Id :: Pending(s, id2, t) ==> id2 == id
  }

  lemma TaskHeldOnce(s: State)
    requires Inv(s)
    ensures s.submitted in Step(s, Run).direct <==> s.stop || s.cache.None?
    ensures s.submitted !in Step(s, Run).direct ==> exists id: Id :: OnlyPending(Step(s, Run), id, s.submitted)
  {
    var t, u := Step(s, Run), s.submitted;
    RunIs(s);
    RunTasks(s);
    if !s.stop && s.cache.Some? {
      var id: Id := if s.cache.value != [] then s.cache.value[|s.cache.value| - 1] else |s.contexts|;
      assert Pending(t, id, u);
      assert OnlyPending(t, id, u);
    }
  }

  /** Nothing waits for the scheduler. */
  ghost predicate Quiet(s: State) {
    s.direct == {} && forall id: Id :: id < |s.contexts| ==> !s.contexts[id].pc.Ready?
  }

  /** Once the scheduler has nothing left to pick, every task has begun exactly once. */
  lemma ExactlyOnceWhenQuiet(es: seq<Event>)
    requires IsRun(Init(), es) && Quiet(Exec(Init(), es))
    ensures
      var s := Exec(Init(), es);
      NoDup(s.begun) && forall t: Task :: t in s.begun <==> t < multiset(es)[Run]
  {
    AtMostOnce(es);
  }

  /** A `func` slot that holds a task changes only when its own context returns from
      that task. */
  lemma FuncSlotsSafe(s: State, e: Event, id: Id)
    requires Inv(s) && Enabled(s, e) && id < |s.contexts|
    ensures
      var t := Step(s, e);
      && |t.contexts| >= |s.contexts|
      && (s.contexts[id].func.Some? && t.contexts[id].func != s.contexts[id].func ==> e == Return(id))
  {
    if e.Run? && s.cache.Some? && s.cache.value != [] {
      assert s.cache.value[|s.cache.value| - 1] in s.cache.value;
    }
  }

  /** After the stop flag is set the counter stands still, the cache only grows until
      it is reset, and a thread without active contexts stays without them. */
  lemma StopIsStable(s: State, e: Event)
    requires Inv(s) && s.stop && Enabled(s, e)
    ensures
      var t := Step(s, e);
      && t.stop && t.fibCnt == s.fibCnt
      && (t.cache.Some? ==> s.cache.Some? && s.cache.value <= t.cache.value)
      && ((forall id: Id :: id < |s.contexts| ==> !IsActive(s.contexts[id])) ==>
            forall id: Id :: id < |t.contexts| ==> !IsActive(t.contexts[id]))
  {
    InvStep(s, e);
  }

  /** When the drain test succeeds, no context is active; it succeeds whenever none is. */
  lemma PollIsExact(s: State)
    requires Inv(s) && Enabled(s, Poll)
    ensures Step(s, Poll).shutdown.Drained? <==> forall id: Id :: id < |s.contexts| ==> !IsActive(s.contexts[id])
  {
    CounterMeansIdle(s);
  }

  /** Cleanup leaves no context behind, and nothing brings one back. */
  lemma CleanupEndsAll(es: seq<Event>, e: Event)
    requires IsRun(Init(), es) && Exec(Init(), es).shutdown.Closed? && Enabled(Exec(Init(), es), e)
    ensures
      var s := Exec(Init(), es);
      var t := Step(s, e);
      && (forall id: Id :: id < |s.contexts| ==> s.contexts[id] == Context(Ended, None))
      && t.contexts == s.contexts && t.cache.None? && t.shutdown.Closed?
  {
    InvInit();
    InvRun(Init(), es);
  }

  // ----- draining takes finitely many steps

  predicate Scheduling(e: Event) {
    e.Resume? || e.Return? || e.ResumeDirect?
  }

  function Weight(c: Context): nat {
    match c.pc case Ready => 2 case Running => 1 case Parked => 0 case Ended => 0
  }

  function Weights(contexts: seq<Context>): nat {
    if contexts == [] then 0 else Weights(contexts[..|contexts| - 1]) + Weight(contexts[|contexts| - 1])
  }

  /** How many scheduling steps are left at most. */
  function Work(s: State): nat {
    Weights(s.contexts) + |s.direct|
  }

  lemma {:induction false} WeightsUpdate(contexts: seq<Context>, id: Id, c: Context)
    requires id < |contexts|
    ensures Weights(contexts[id := c]) == Weights(contexts) - Weight(contexts[id]) + Weight(c)
    ensures Weights(contexts) >= Weight(contexts[id])
  {
    var n := |contexts| - 1;
    if id < n {
      WeightsUpdate(contexts[..n], id, c);
      assert contexts[id := c][..n] == contexts[..n][id := c];
    } else {
      assert contexts[id := c][..n] == contexts[..n];
    }
  }

  lemma {:induction false} SomeWeight(contexts: seq<Context>)
    requires Weights(contexts) > 0
    ensures exists id: Id :: id < |contexts| && Weight(contexts[id]) > 0
  {
    var n := |contexts| - 1;
    if Weight(contexts[n]) == 0 {
      SomeWeight(contexts[..n]);
      var id: Id :| id < n && Weight(contexts[..n][id]) > 0;
      assert contexts[id] == contexts[..n][id];
    }
  }

  lemma WorkShrinks(s: State, e: Event)
    requires Enabled(s, e) && Scheduling(e)
    ensures Work(Step(s, e)) < Work(s)
  {
    match e
    case Resume(id) => WeightsUpdate(s.contexts, id, Step(s, e).contexts[id]);
    case Return(id) => WeightsUpdate(s.contexts, id, Step(s, e).contexts[id]);
    case ResumeDirect(t) =>
  }

  lemma ConsRun(s: State, e: Event, rest: seq<Event>)
    requires Enabled(s, e) && IsRun(Step(s, e), rest)
    ensures IsRun(s, [e] + rest) && Exec(s, [e] + rest) == Exec(Step(s, e), rest)
  {
    assert ([e] + rest)[1..] == rest;
  }

  lemma SomeStep(s: State) returns (e: Event)
    requires Work(s) > 0
    ensures Scheduling(e) && Enabled(s, e)
  {
    if s.direct != {} {
      var t :| t in s.direct;
      e := ResumeDirect(t);
    } else {
      SomeWeight(s.contexts);
      var id: Id :| id < |s.contexts| && Weight(s.contexts[id]) > 0;
      e := if s.contexts[id].pc.Ready? then Resume(id) else Return(id);
    }
  }

  lemma NoWorkIsQuiet(s: State)
    requires Work(s) == 0
    ensures Quiet(s) && forall id: Id :: id < |s.contexts| ==> !s.contexts[id].pc.Running?
  {
    forall id: Id | id < |s.contexts|
      ensures Weight(s.contexts[id]) == 0
    {
      WeightsUpdate(s.contexts, id, s.contexts[id]);
    }
  }

  /** From every reachable state the scheduler gets through all waiting tasks: while
      work is left some step is possible, and every step leaves less. Afterwards
      every task has begun exactly once and no context is ready or running. */
  lemma {:induction false} SchedulerDrains(s: State) returns (es: seq<Event>)
    requires Inv(s)
    ensures IsRun(s, es) && (forall i :: 0 <= i < |es| ==> Scheduling(es[i])) && |es| <= Work(s)
    ensures Inv(Exec(s, es)) && Exec(s, es).submitted == s.submitted && Work(Exec(s, es)) == 0
    ensures NoDup(Exec(s, es).begun) && forall n: Task :: n in Exec(s, es).begun <==> n < s.submitted
    decreases Work(s)
  {
    if Work(s) == 0 {
      es := [];
      NoWorkIsQuiet(s);
    } else {
      var e := SomeStep(s);
      InvStep(s, e);
      WorkShrinks(s, e);
      var rest := SchedulerDrains(Step(s, e));
      ConsRun(s, e, rest);
      es := [e] + rest;
    }
  }

  /** Notifying, resuming and joining one cached context ends it and changes nothing
      else. */
  lemma EndOne(s: State)
    requires Inv(s) && s.shutdown.Notifying? && s.shutdown.k < |s.cache.value|
    ensures
      var k, id := s.shutdown.k, s.cache.value[s.shutdown.k];
      && Enabled(s, Notify) && Enabled(Step(s, Notify), Resume(id))
      && Enabled(Step(Step(s, Notify), Resume(id)), Join)
      && var t := Step(Step(Step(s, Notify), Resume(id)), Join);
         && Inv(t) && IsPc(s, id, Parked)
         && t == s.(contexts := s.contexts[id := Context(Ended, None)], shutdown := Notifying(k + 1))
  {
    var k, id := s.shutdown.k, s.cache.value[s.shutdown.k];
    assert CleanedAt(s.contexts, id, false, false);
    var s1 := Step(s, Notify);
    var s2 := Step(s1, Resume(id));
    InvStep(s, Notify);
    InvStep(s1, Resume(id));
    InvStep(s2, Join);
    assert s.contexts[id := Context(Ready, None)][id := Context(Ended, None)] == s.contexts[id := Context(Ended, None)];
  }

  /** Cleanup, once begun, can always be finished. */
  lemma {:induction false} CleanupFinishes(s: State) returns (es: seq<Event>)
    requires Inv(s) && s.shutdown.Notifying?
    ensures IsRun(s, es) && Exec(s, es).shutdown.Closed?
    decreases |s.cache.value| - s.shutdown.k
  {
    var k, c := s.shutdown.k, s.cache.value;
    if k == |c| {
      es := [Reset] + [];
      ConsRun(s, Reset, []);
    } else {
      EndOne(s);
      var s1 := Step(s, Notify);
      var s2 := Step(s1, Resume(c[k]));
      var rest := CleanupFinishes(Step(s2, Join));
      ConsRun(s2, Join, rest);
      ConsRun(s1, Resume(c[k]), [Join] + rest);
      ConsRun(s, Notify, [Resume(c[k])] + ([Join] + rest));
      es := [Notify] + ([Resume(c[k])] + ([Join] + rest));
    }
  }

  // ----- the class

  /** The thread-local cache of one worker. Each method is one step of the system. */
  class ThreadCache {
    var contexts: seq<Context>
    var cache: Option<seq<Id>>
    var fibCnt: nat
    var stop: bool
    var shutdown: Shutdown
    var direct: set<Task>
    var submitted: nat
    ghost var begun: seq<Task>

    ghost function Now(): State
      reads this
    {
      State(contexts, cache, fibCnt, stop, shutdown, direct, submitted, begun)
    }

    constructor ()
      ensures Now() == Init() && Inv(Now())
    {
      contexts, cache, fibCnt, stop, shutdown := [], None, 0, false, Open;
      direct, submitted, begun := {}, 0, [];
    }

    /** `get_fiber`: a parked context, a new one, or none. */
    method GetFiber() returns (fctx: Option<Id>)
      requires Inv(Now())
      modifies this`contexts, this`cache, this`fibCnt
      ensures fctx.None? <==> stop || old(cache).None?
      ensures fctx.None? ==> Now() == old(Now())
      ensures fctx.Some? && old(cache).value != [] ==>
        && cache.Some? && old(cache) == Some(cache.value + [fctx.value])
        && contexts == old(contexts) && fibCnt == old(fibCnt)
        && fctx.value < |contexts| && contexts[fctx.value] == Context(Parked, None)
      ensures fctx.Some? && old(cache).value == [] ==>
        && cache == old(cache) && fibCnt == old(fibCnt) + 1
        && fctx.value == |old(contexts)| && contexts == old(contexts) + [Context(Ready, None)]
    {
      if stop || cache.None? { return None; }
      if cache.value != [] {
        var n := |cache.value| - 1;
        fctx := Some(cache.value[n]);
        assert cache.value[n] in cache.value && cache.value == cache.value[..n] + [cache.value[n]];
        cache := Some(cache.value[..n]);
        return;
      }
      fctx := Some(|contexts|);
      contexts := contexts + [Context(Ready, None)];
      fibCnt := fibCnt + 1;
    }

    /** The closure of `register_io_service`. */
    method RegisterIoService()
      requires Inv(Now()) && cache.None? && shutdown.Open?
      modifies this`cache
      ensures cache == Some([]) && Inv(Now()) && Now() == Step(old(Now()), Register)
    {
      InvStep(Now(), Register);
      cache := Some([]);
    }

    /** The body of `run`. */
    method HandOver()
      requires Inv(Now())
      modifies this
      ensures Now() == Step(old(Now()), Run)
    {
      var fctx := GetFiber();
      if fctx.Some? {
        assert old(cache).value != [] ==> cache.value == old(cache).value[..|old(cache).value| - 1];
        contexts := WithFunc(contexts, fctx.value, submitted);
        contexts := Notified(contexts, fctx.value);
      } else {
        direct := direct + {submitted};
      }
      submitted := submitted + 1;
    }

    /** `run`: hands the next task to exactly one context, or to a plain fiber during
        shutdown or without a cache. */
    method RunTask()
      requires Inv(Now())
      modifies this
      ensures submitted == old(submitted) + 1
      ensures old(submitted) in direct <==> stop || old(cache).None?
      ensures old(submitted) !in direct ==> exists id: Id :: OnlyPending(Now(), id, old(submitted))
      ensures Now() == Step(old(Now()), Run)
    {
      RunIs(Now());
      TaskHeldOnce(Now());
      HandOver();
    }

    /** A context's fiber goes on from its wait, or from its start, into its task. */
    method ResumeFiber(id: Id)
      requires Inv(Now()) && IsPc(Now(), id, Ready)
      modifies this`contexts, this`begun
      ensures
        var f := old(contexts)[id].func;
        if f.Some? then contexts == old(contexts)[id := Context(Running, f)] && begun == old(begun) + [f.value]
        else contexts == old(contexts)[id := Context(Ended, None)] && begun == old(begun)
      ensures Now() == Step(old(Now()), Resume(id))
    {
      if contexts[id].func.Some? {
        begun := begun + [contexts[id].func.value];
        contexts := contexts[id := contexts[id].(pc := Running)];
      } else {
        contexts := contexts[id := contexts[id].(pc := Ended)];
      }
    }

    /** A context's task returns; the context goes back to the cache and waits. */
    method FinishTask(id: Id)
      requires Inv(Now()) && IsPc(Now(), id, Running)
      modifies this`contexts, this`cache
      ensures contexts == old(contexts)[id := Context(Parked, None)]
      ensures cache == if old(cache).Some? then Some(old(cache).value + [id]) else None
      ensures Now() == Step(old(Now()), Return(id))
    {
      contexts := contexts[id := contexts[id].(func := None)];
      if cache.Some? {
        cache := Some(cache.value + [id]);
      }
      contexts := contexts[id := contexts[id].(pc := Parked)];
    }

    /** The drain test. */
    method Poll() returns (drained: bool)
      requires Inv(Now()) && shutdown.Stopping?
      modifies this`shutdown
      ensures Inv(Now()) && Now() == Step(old(Now()), Event.Poll)
      ensures drained == shutdown.Drained? == (fibCnt == |cache.value|)
      ensures !drained ==> shutdown.Stopping? && exists id: Id :: id < |contexts| && IsActive(contexts[id])
    {
      PollIsExact(Now());
      InvStep(Now(), Event.Poll);
      drained := fibCnt == |cache.value|;
      if drained {
        shutdown := Drained;
      }
    }

    /** The closure that ends the parked contexts one by one: joining a context lets
        its fiber run to the end. */
    method Cleanup()
      requires Inv(Now()) && shutdown.Drained?
      modifies this
      ensures Inv(Now()) && shutdown.Closed? && |contexts| == |old(contexts)|
      ensures forall id: Id :: id < |contexts| ==> contexts[id] == Context(Ended, None)
      ensures submitted == old(submitted) && begun == old(begun) && direct == old(direct)
    {
      InvStep(Now(), BeginCleanup);
      shutdown := Notifying(0);
      for k := 0 to |cache.value|
        invariant Inv(Now()) && shutdown == Notifying(k) && cache == old(cache) && |contexts| == |old(contexts)|
        invariant submitted == old(submitted) && begun == old(begun) && direct == old(direct)
      {
        EndContext(k);
      }
      InvStep(Now(), Reset);
      cache, shutdown := None, Closed;
    }

    /** `notify` and `join` for one parked context. */
    method EndContext(k: nat)
      requires Inv(Now()) && shutdown == Notifying(k) && cache.Some? && k < |cache.value|
      modifies this
      ensures Inv(Now()) && shutdown == Notifying(k + 1) && cache == old(cache) && |contexts| == |old(contexts)|
      ensures contexts == old(contexts)[cache.value[k] := Context(Ended, None)]
      ensures submitted == old(submitted) && begun == old(begun) && direct == old(direct)
    {
      EndOne(Now());
      var id := cache.value[k];
      contexts := contexts[id := contexts[id].(pc := Ready)];
      contexts := contexts[id := contexts[id].(pc := Ended)];
      shutdown := Notifying(k + 1);
    }

    /** A plain fiber begins its task. */
    method BeginDirect(t: Task)
      requires t in direct
      modifies this`direct, this`begun
      ensures direct == old(direct) - {t} && begun == old(begun) + [t]
      ensures Now() == Step(old(Now()), ResumeDirect(t))
    {
      direct := direct - {t};
      begun := begun + [t];
    }

    /** After the stop flag any number of new tasks arrive and any number of plain fibers
        begin, in any order; the contexts do not change. */
    method GoOn()
      requires Inv(Now()) && stop
      modifies this
      ensures Inv(Now()) && submitted >= old(submitted)
      ensures Now() == old(Now()).(direct := direct, submitted := submitted, begun := begun)
    {
      var rounds: nat :| rounds >= 0;
      for i := 0 to rounds
        invariant Inv(Now()) && submitted >= old(submitted)
        invariant Now() == old(Now()).(direct := direct, submitted := submitted, begun := begun)
      {
        if * {
          InvStep(Now(), Run);
          RunTask();
        } else if direct != {} {
          var t :| t in direct;
          InvStep(Now(), ResumeDirect(t));
          BeginDirect(t);
        }
      }
    }

    /** One stretch of some context that is ready or running. */
    method RunSome()
      requires Inv(Now()) && exists id: Id :: id < |contexts| && IsActive(contexts[id])
      modifies this
      ensures Inv(Now()) && Weights(contexts) < Weights(old(contexts)) && shutdown == old(shutdown)
      ensures submitted == old(submitted) && direct == old(direct)
    {
      var id: Id :| id < |contexts| && (contexts[id].pc.Ready? || contexts[id].pc.Running?);
      var e := if contexts[id].pc.Ready? then Resume(id) else Return(id);
      WorkShrinks(Now(), e);
      InvStep(Now(), e);
      if contexts[id].pc.Ready? {
        ResumeFiber(id);
      } else {
        FinishTask(id);
      }
    }

    /** `unregister_io_service`: stop, wait until every context is back in the cache,
        end them all. Between two drain tests the worker goes on: new tasks arrive,
        plain fibers begin, and at least one context makes progress. */
    method UnregisterIoService()
      requires Inv(Now()) && shutdown.Open? && cache.Some?
      modifies this
      ensures Inv(Now()) && shutdown.Closed? && stop && cache.None?
      ensures forall id: Id :: id < |contexts| ==> contexts[id] == Context(Ended, None)
      ensures forall t: Task :: t < submitted ==> t in begun || t in direct
    {
      InvStep(Now(), SetStop);
      stop, shutdown := true, Stopping;
      var drained := Poll();
      while !drained
        invariant Inv(Now()) && stop && (if drained then shutdown.Drained? else shutdown.Stopping?)
        invariant !drained ==> exists id: Id :: id < |contexts| && IsActive(contexts[id])
        decreases Weights(contexts), !drained
      {
        GoOn();
        RunSome();
        drained := Poll();
      }
      Cleanup();
    }
  }
}
