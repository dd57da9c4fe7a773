/**
 The file cache's update protocol (src/core/file_cache.cpp).

 A lock-protected main map is mirrored into one unlocked map per worker. The
 mirrors change only on their worker's thread: by closures that a writer posts
 to the worker's queue, and by `get_file`, which copies an entry out of the main
 map on a miss. The model is the step system in which one writer, any number of
 workers and their queues interleave freely.
*/
module FileCache {
  import opened Common

  /** A file name, as the components of its path. */
  type Name = seq<string>
  type Worker = nat

  /** What a stat call reports of a file. */
  datatype Stamp = Stamp(size: nat, time: int)

  /** A loaded file object. Each load makes a new object, told apart by `id`. */
  datatype File = File(id: nat, stamp: Stamp)

  type FileMap = map<Name, File>

  /** The closures that are posted to a worker. */
  datatype Msg = CreateMap | DropMap | Put(name: Name, file: File) | Erase(name: Name)

  /** `add_file` after a good load, or `remove_file`. */
  datatype Op = Add(name: Name, file: File) | Remove(name: Name)

  /** The writer is between operations, or still has to post to `todo`; once
      `todo` is empty its next step is to take the lock and change the main map. */
  datatype Writer = Idle | Busy(op: Op, todo: seq<Worker>, posted: set<Worker>)

  /** A worker thread: its thread-local map, its queue and, as history only, the
      names it filled from the main map after it had handled their erase and
      before the main map lost them. */
  datatype WorkerState = WorkerState(local: Option<FileMap>, queue: seq<Msg>, lateFills: set<Name>)

  /** `loaded` is history: every good load so far. */
  datatype State = State(
    main: FileMap,
    iosvcs: seq<Worker>,
    workers: map<Worker, WorkerState>,
    writer: Writer,
    nextId: nat,
    loaded: set<(Name, File)>)

  datatype Event =
    | BeginAdd(name: Name, load: Option<Stamp>)
    | BeginRemove(name: Name)
    | PostNext
    | Commit
    | Deliver(w: Worker)
    | GetFile(w: Worker, name: Name)
    | Register(w: Worker)
    | Unregister(w: Worker)

  // ----- steps

  function At(s: State, w: Worker): WorkerState {
    if w in s.workers then s.workers[w] else WorkerState(None, [], {})
  }

  function OpMsg(op: Op): Msg {
    match op
    case Add(n, f) => Put(n, f)
    case Remove(n) => Erase(n)
  }

  /** Appends a closure to a worker's queue; `stale` names leave its fill history. */
  function Post(s: State, w: Worker, m: Msg, stale: set<Name>): State {
    var ws := At(s, w);
    s.(workers := s.workers[w := ws.(queue := ws.queue + [m], lateFills := ws.lateFills - stale)])
  }

  /** Runs one closure on a thread-local map. */
  function RunMsg(local: Option<FileMap>, m: Msg): Option<FileMap> {
    match m
    case CreateMap => Some(map[])
    case DropMap => None
    case Put(n, f) => if local.Some? then Some(local.value[n := f]) else None
    case Erase(n) => if local.Some? then Some(local.value - {n}) else None
  }

  /** What `get_file` on worker `w` returns. */
  function Lookup(s: State, w: Worker, name: Name): Option<File> {
    var local := At(s, w).local;
    if local.Some? && name in local.value then Some(local.value[name])
    else if name in s.main then Some(s.main[name])
    else None
  }

  /** True when `get_file` copies the main map's entry into the local map. */
  predicate Fills(s: State, w: Worker, name: Name) {
    var local := At(s, w).local;
    local.Some? && name !in local.value && name in s.main
  }

  /** True when the pending remove of `name` has been handled by `w`. */
  predicate EraseHandled(s: State, w: Worker, name: Name) {
    && s.writer.Busy? && s.writer.op == Remove(name) && w in s.writer.posted
    && Erase(name) !in At(s, w).queue
  }

  predicate Enabled(s: State, e: Event) {
    match e
    case BeginAdd(_, _) => s.writer.Idle?
    case BeginRemove(_) => s.writer.Idle?
    case PostNext => s.writer.Busy? && s.writer.todo != []
    case Commit => s.writer.Busy? && s.writer.todo == []
    case Deliver(w) => At(s, w).queue != []
    case GetFile(_, _) => true
    case Register(w) => w !in s.iosvcs && (s.writer.Busy? ==> s.writer.todo == [])
    case Unregister(w) => w in s.iosvcs && (s.writer.Busy? ==> s.writer.todo == [])
  }

  function Members(s: seq<Worker>): set<Worker> {
    set w | w in s
  }

  /** The list without its first `w`, as the erase loop of `unregister_io_service` leaves it. */
  function Without(s: seq<Worker>, w: Worker): (r: seq<Worker>)
    ensures forall x :: x in r ==> x in s
    ensures NoDup(s) ==> NoDup(r) && forall x :: x in r <==> x in s && x != w
  {
    if s == [] then []
    else
      assert s == [s[0]] + s[1..];
      if s[0] == w then s[1..]
      else
        var rest := Without(s[1..], w);
        assert forall i :: 0 <= i < |rest| ==> rest[i] in s[1..];
        [s[0]] + rest
  }

  function Step(s: State, e: Event): State
    requires Enabled(s, e)
  {
    match e
    case BeginAdd(n, load) =>
      if load.None? then s  // the load was not good: nothing is posted
      else
        var f := File(s.nextId, load.value);
        s.(writer := Busy(Add(n, f), s.iosvcs, {}), nextId := s.nextId + 1, loaded := s.loaded + {(n, f)})
    case BeginRemove(n) =>
      s.(writer := Busy(Remove(n), s.iosvcs, {}))
    case PostNext =>
      Post(s, s.writer.todo[0], OpMsg(s.writer.op), {s.writer.op.name}).(
        writer := s.writer.(todo := s.writer.todo[1..], posted := s.writer.posted + {s.writer.todo[0]}))
    case Commit =>
      var m := match s.writer.op case Add(n, f) => s.main[n := f] case Remove(n) => s.main - {n};
      s.(main := m, writer := Idle)
    case Deliver(w) =>
      var ws := At(s, w);
      s.(workers := s.workers[w := ws.(local := RunMsg(ws.local, ws.queue[0]), queue := ws.queue[1..])])
    case GetFile(w, n) =>
      if !Fills(s, w, n) then s
      else
        var ws := At(s, w);
        s.(workers := s.workers[w := ws.(
            local := Some(ws.local.value[n := s.main[n]]),
            lateFills := if EraseHandled(s, w, n) then ws.lateFills + {n} else ws.lateFills)])
    case Register(w) =>
      Post(s, w, CreateMap, At(s, w).lateFills).(iosvcs := s.iosvcs + [w])
    case Unregister(w) =>
      Post(s, w, DropMap, {}).(
        iosvcs := Without(s.iosvcs, w),
        writer := if s.writer.Idle? then Idle else s.writer.(posted := s.writer.posted - {w}))
  }

  // ----- runs

  /** Registration may fall between an operation's posting loop and its main-map
      step only while the main map does not hold the operation's name. */
  predicate Orderly(s: State, e: Event) {
    e.Register? && s.writer.Busy? ==> s.writer.op.name !in s.main
  }

  ghost predicate IsRun(s: State, es: seq<Event>)
    decreases |es|
  {
    es == [] || (Enabled(s, es[0]) && IsRun(Step(s, es[0]), es[1..]))
  }

  ghost predicate IsOrderlyRun(s: State, es: seq<Event>)
    decreases |es|
  {
    es == [] || (Enabled(s, es[0]) && Orderly(s, es[0]) && IsOrderlyRun(Step(s, es[0]), es[1..]))
  }

  ghost function Exec(s: State, es: seq<Event>): State
    requires IsRun(s, es)
    decreases |es|
  {
    if es == [] then s else Exec(Step(s, es[0]), es[1..])
  }

  function Init(): State {
    State(map[], [], map[], Idle, 0, {})
  }

  /** What can happen when: one writer, one step at a time; workers at any time; and
      registration while the writer is not in its posting loop. */
  lemma PossibleSteps(s: State, w: Worker, n: Name, load: Option<Stamp>)
    ensures (Enabled(s, BeginAdd(n, load)) <==> s.writer.Idle?) && (Enabled(s, BeginRemove(n)) <==> s.writer.Idle?)
    ensures Enabled(s, PostNext) <==> s.writer.Busy? && s.writer.todo != []
    ensures Enabled(s, Commit) <==> s.writer.Busy? && s.writer.todo == []
    ensures Enabled(s, Deliver(w)) <==> w in s.workers && s.workers[w].queue != []
    ensures Enabled(s, GetFile(w, n))
    ensures Enabled(s, Register(w)) <==> w !in s.iosvcs && (s.writer.Idle? || s.writer.todo == [])
    ensures Enabled(s, Unregister(w)) <==> w in s.iosvcs && (s.writer.Idle? || s.writer.todo == [])
  {
  }

  /** A run is one possible step after the other. */
  lemma RunIs(s: State, e: Event, rest: seq<Event>)
    ensures IsRun(s, []) && Exec(s, []) == s
    ensures IsRun(s, [e] + rest) <==> Enabled(s, e) && IsRun(Step(s, e), rest)
    ensures IsRun(s, [e] + rest) ==> Exec(s, [e] + rest) == Exec(Step(s, e), rest)
    ensures IsOrderlyRun(s, []) && (IsOrderlyRun(s, [e] + rest) <==>
      Enabled(s, e) && IsOrderlyRun(Step(s, e), rest)
      && (e.Register? && s.writer.Busy? ==> s.writer.op.name !in s.main))
  {
    assert ([e] + rest)[1..] == rest;
  }

  // ----- replaying a queue

  /** A local map after every pending closure has run. */
  ghost function Replay(local: Option<FileMap>, q: seq<Msg>): Option<FileMap>
    decreases |q|
  {
    if q == [] then local else Replay(RunMsg(local, q[0]), q[1..])
  }

  /** The map that worker `w` will have once its queue is drained. */
  ghost function Drained(s: State, w: Worker): Option<FileMap> {
    Replay(At(s, w).local, At(s, w).queue)
  }

  /** Every pending put and erase will find a map to work on. */
  ghost predicate MapPresent(present: bool, q: seq<Msg>)
    decreases |q|
  {
    q == [] ||
    match q[0]
    case CreateMap => MapPresent(true, q[1..])
    case DropMap => MapPresent(false, q[1..])
    case _ => present && MapPresent(present, q[1..])
  }

  ghost predicate Touches(q: seq<Msg>, n: Name) {
    exists m :: m in q && (m.CreateMap? || m.DropMap? || m.name == n)
  }

  lemma {:induction false} ReplayAppend(local: Option<FileMap>, q: seq<Msg>, m: Msg)
    ensures Replay(local, q + [m]) == RunMsg(Replay(local, q), m)
    decreases |q|
  {
    if q == [] {
      assert Replay(local, [m]) == Replay(RunMsg(local, m), [m][1..]);
    } else {
      assert (q + [m])[1..] == q[1..] + [m];
      ReplayAppend(RunMsg(local, q[0]), q[1..], m);
    }
  }

  lemma {:induction false} MapPresentAppend(local: Option<FileMap>, q: seq<Msg>, m: Msg)
    requires MapPresent(local.Some?, q)
    requires m.CreateMap? || m.DropMap? || Replay(local, q).Some?
    ensures MapPresent(local.Some?, q + [m])
    decreases |q|
  {
    if q == [] {
      assert MapPresent(true, [m][1..]) && MapPresent(false, [m][1..]);
    } else {
      assert (q + [m])[1..] == q[1..] + [m];
      MapPresentAppend(RunMsg(local, q[0]), q[1..], m);
    }
  }

  /** A fill shows in the drained map exactly when no pending closure overrides it. */
  lemma {:induction false} ReplayFill(m: FileMap, n: Name, f: File, q: seq<Msg>)
    requires n !in m && MapPresent(true, q)
    ensures Touches(q, n) ==> Replay(Some(m[n := f]), q) == Replay(Some(m), q)
    ensures !Touches(q, n) ==>
      var r := Replay(Some(m), q);
      r.Some? && n !in r.value && Replay(Some(m[n := f]), q) == Some(r.value[n := f])
    decreases |q|
  {
    if q != [] {
      assert q == [q[0]] + q[1..];
      assert Touches(q, n) <==> Touches([q[0]], n) || Touches(q[1..], n);
      assert Touches([q[0]], n) <==> q[0].CreateMap? || q[0].DropMap? || q[0].name == n by {
        assert q[0] in [q[0]];
      }
      match q[0]
      case CreateMap =>
      case DropMap =>
      case Put(k, g) =>
        if k == n {
          assert m[n := f][n := g] == m[n := g];
        } else {
          assert m[n := f][k := g] == m[k := g][n := f];
          ReplayFill(m[k := g], n, f, q[1..]);
        }
      case Erase(k) =>
        if k == n {
          assert m[n := f] - {n} == m - {n};
        } else {
          assert m[n := f] - {k} == (m - {k})[n := f];
          ReplayFill(m - {k}, n, f, q[1..]);
        }
    }
  }

  // ----- the invariant

  /** The writer has posted an add of `n` to `w` and not yet changed the main map. */
  ghost predicate AddPosted(s: State, w: Worker, n: Name) {
    s.writer.Busy? && s.writer.op.Add? && s.writer.op.name == n && w in s.writer.posted
  }

  /** The file that worker `w`'s drained map must hold for a name of the main map. */
  ghost function Target(s: State, w: Worker, n: Name): File
    requires n in s.main
  {
    if AddPosted(s, w, n) then s.writer.op.file else s.main[n]
  }

  ghost predicate WriterOk(s: State) {
    s.writer.Busy? ==>
      && NoDup(s.writer.todo)
      && (forall w :: w in s.writer.todo ==> w in s.iosvcs && w !in s.writer.posted)
      && (forall w :: w in s.writer.posted ==> w in s.iosvcs)
  }

  /** What the writer's current operation says of worker `w`. */
  ghost predicate OpOk(s: State, w: Worker)
    requires s.writer.Busy? && Drained(s, w).Some?
  {
    var n, d, q := s.writer.op.name, Drained(s, w).value, At(s, w).queue;
    && (w in s.writer.posted ==>
        && (q == [] || q[|q| - 1] == OpMsg(s.writer.op))
        && (s.writer.op.Add? ==> n in d && d[n] == s.writer.op.file)
        && (s.writer.op.Remove? ==> (n in d <==> n in At(s, w).lateFills)))
    && (w !in s.writer.posted && w !in s.writer.todo ==> n !in d && n !in s.main)
  }

  /** No closure will miss its map, and a worker ends up with a map exactly when it is
      registered. */
  ghost predicate WorkerSafe(s: State, w: Worker) {
    && MapPresent(At(s, w).local.Some?, At(s, w).queue)
    && (w in s.iosvcs <==> Drained(s, w).Some?)
  }

  ghost predicate WorkerOk(s: State, w: Worker) {
    && WorkerSafe(s, w)
    && (w in s.iosvcs ==>
        var d := Drained(s, w).value;
        && (forall n :: n in d && n in s.main ==> d[n] == Target(s, w, n))
        && (forall n :: n !in s.main && !AddPosted(s, w, n) ==> (n in d <==> n in At(s, w).lateFills))
        && (s.writer.Busy? ==> OpOk(s, w)))
  }

  ghost predicate FromLoads(m: FileMap, loaded: set<(Name, File)>) {
    forall n :: n in m ==> (n, m[n]) in loaded
  }

  /** Every file object anywhere was loaded good for the name it is held under. */
  ghost predicate LoadsOk(s: State) {
    && FromLoads(s.main, s.loaded)
    && (s.writer.Busy? && s.writer.op.Add? ==> (s.writer.op.name, s.writer.op.file) in s.loaded)
    && (forall w :: At(s, w).local.Some? ==> FromLoads(At(s, w).local.value, s.loaded))
    && (forall w, m :: m in At(s, w).queue && m.Put? ==> (m.name, m.file) in s.loaded)
  }

  /** A pending add brings an object that is newer than the one it replaces. */
  ghost predicate IdsOk(s: State) {
    && (forall n :: n in s.main ==> s.main[n].id < s.nextId)
    && (s.writer.Busy? && s.writer.op.Add? ==>
        var n, f := s.writer.op.name, s.writer.op.file;
        f.id < s.nextId && (n in s.main ==> s.main[n].id < f.id))
  }

  ghost predicate Inv(s: State) {
    && NoDup(s.iosvcs)
    && IdsOk(s)
    && WriterOk(s)
    && LoadsOk(s)
    && (forall w :: WorkerOk(s, w))
  }

  lemma InvInit()
    ensures Inv(Init())
  {
  }

  lemma LoadsStep(s: State, e: Event)
    requires LoadsOk(s) && Enabled(s, e)
    ensures LoadsOk(Step(s, e))
  {
    var t := Step(s, e);
    forall w | At(t, w).local.Some?
      ensures FromLoads(At(t, w).local.value, t.loaded)
    {
      assert At(s, w).local.Some? ==> FromLoads(At(s, w).local.value, s.loaded);
      if e == Deliver(w) {
        assert At(s, w).queue[0] in At(s, w).queue;
      }
    }
    forall w, m | m in At(t, w).queue && m.Put?
      ensures (m.name, m.file) in t.loaded
    {
      assert m in At(s, w).queue ==> (m.name, m.file) in s.loaded;
    }
  }

  lemma PostToWorker(s: State, w: Worker)
    requires Inv(s) && Enabled(s, PostNext) && w == s.writer.todo[0]
    ensures WorkerOk(Step(s, PostNext), w)
  {
    var t, ws, m := Step(s, PostNext), At(s, w), OpMsg(s.writer.op);
    assert w in s.writer.todo;
    assert WorkerOk(s, w);
    ReplayAppend(ws.local, ws.queue, m);
    MapPresentAppend(ws.local, ws.queue, m);
    assert w !in t.writer.todo by {
      assert forall i :: 0 <= i < |t.writer.todo| ==> t.writer.todo[i] == s.writer.todo[i + 1];
    }
  }

  lemma DeliverToWorker(s: State, w: Worker)
    requires Inv(s) && Enabled(s, Deliver(w))
    ensures WorkerOk(Step(s, Deliver(w)), w)
  {
    assert WorkerOk(s, w);
    var t := Step(s, Deliver(w));
    assert Drained(t, w) == Drained(s, w);
    var q, q' := At(s, w).queue, At(t, w).queue;
    assert q' != [] ==> q'[|q'| - 1] == q[|q| - 1];
  }

  lemma FillWorker(s: State, w: Worker, n: Name)
    requires Inv(s) && Fills(s, w, n)
    ensures WorkerOk(Step(s, GetFile(w, n)), w)
  {
    assert WorkerOk(s, w);
    var t, ws := Step(s, GetFile(w, n)), At(s, w);
    ReplayFill(ws.local.value, n, s.main[n], ws.queue);
    assert ws.queue != [] ==> ws.queue[|ws.queue| - 1] in ws.queue;
  }

  lemma RegisterWorker(s: State, w: Worker)
    requires Inv(s) && Enabled(s, Register(w)) && Orderly(s, Register(w))
    ensures WorkerOk(Step(s, Register(w)), w)
  {
    assert WorkerOk(s, w);
    var t := Step(s, Register(w));
    ReplayAppend(At(s, w).local, At(s, w).queue, CreateMap);
    MapPresentAppend(At(s, w).local, At(s, w).queue, CreateMap);
    assert w in t.iosvcs by { assert t.iosvcs[|s.iosvcs|] == w; }
  }

  lemma UnregisterWorker(s: State, w: Worker)
    requires Inv(s) && Enabled(s, Unregister(w))
    ensures WorkerOk(Step(s, Unregister(w)), w)
  {
    assert WorkerOk(s, w);
    ReplayAppend(At(s, w).local, At(s, w).queue, DropMap);
    MapPresentAppend(At(s, w).local, At(s, w).queue, DropMap);
  }

  /** A worker that a step does not address sees at most the shared parts change. */
  lemma OtherWorker(s: State, e: Event, w: Worker)
    requires Inv(s) && Enabled(s, e)
    requires match e
             case BeginAdd(_, _) => true
             case BeginRemove(_) => true
             case PostNext => w != s.writer.todo[0]
             case Commit => true
             case Deliver(v) => w != v
             case GetFile(v, n) => w != v || !Fills(s, v, n)
             case Register(v) => w != v
             case Unregister(v) => w != v
    ensures WorkerOk(Step(s, e), w)
  {
    var t := Step(s, e);
    assert WorkerOk(s, w) && At(t, w) == At(s, w) && Drained(t, w) == Drained(s, w);
    match e
    case PostNext =>
      assert s.writer.todo == [s.writer.todo[0]] + t.writer.todo;
    case Register(v) =>
      assert t.iosvcs == s.iosvcs + [v];
    case _ =>
  }

  lemma WorkerStep(s: State, e: Event, w: Worker)
    requires Inv(s) && Enabled(s, e) && Orderly(s, e)
    ensures WorkerOk(Step(s, e), w)
  {
    if e == PostNext && w == s.writer.todo[0] {
      PostToWorker(s, w);
    } else if e == Deliver(w) {
      DeliverToWorker(s, w);
    } else if e.GetFile? && e.w == w && Fills(s, w, e.name) {
      FillWorker(s, w, e.name);
    } else if e == Register(w) {
      RegisterWorker(s, w);
    } else if e == Unregister(w) {
      UnregisterWorker(s, w);
    } else {
      OtherWorker(s, e, w);
    }
  }

  lemma RegistryStep(s: State, e: Event)
    requires NoDup(s.iosvcs) && WriterOk(s) && Enabled(s, e)
    ensures NoDup(Step(s, e).iosvcs) && WriterOk(Step(s, e))
  {
    var t := Step(s, e);
    if e == PostNext {
      assert s.writer.todo == [s.writer.todo[0]] + t.writer.todo;
    }
    if e.Register? {
      assert t.iosvcs == s.iosvcs + [e.w];
    }
  }

  /** One step of anyone keeps the invariant. */
  lemma InvStep(s: State, e: Event)
    requires Inv(s) && Enabled(s, e) && Orderly(s, e)
    ensures Inv(Step(s, e))
  {
    RegistryStep(s, e);
    LoadsStep(s, e);
    forall w
      ensures WorkerOk(Step(s, e), w)
    {
      WorkerStep(s, e, w);
    }
  }

  lemma {:induction false} InvRun(s: State, es: seq<Event>)
    requires Inv(s) && IsOrderlyRun(s, es)
    ensures IsRun(s, es) && Inv(Exec(s, es))
    decreases |es|
  {
    if es != [] {
      InvStep(s, es[0]);
      InvRun(Step(s, es[0]), es[1..]);
    }
  }

  // ----- what every run guarantees

  /** The part of the invariant that holds whenever registration happens. */
  ghost predicate Safe(s: State) {
    NoDup(s.iosvcs) && WriterOk(s) && LoadsOk(s) && forall w :: WorkerSafe(s, w)
  }

  lemma SafeAddressed(s: State, e: Event, w: Worker)
    requires Safe(s) && Enabled(s, e)
    requires (e == PostNext && w == s.writer.todo[0]) || e == Register(w) || e == Unregister(w)
    ensures WorkerSafe(Step(s, e), w)
  {
    var t, ws := Step(s, e), At(s, w);
    var m := if e.PostNext? then OpMsg(s.writer.op) else if e.Register? then CreateMap else DropMap;
    assert WorkerSafe(s, w);
    assert e.PostNext? ==> w in s.writer.todo;
    ReplayAppend(ws.local, ws.queue, m);
    MapPresentAppend(ws.local, ws.queue, m);
    assert e.Register? ==> t.iosvcs[|s.iosvcs|] == w;
  }

  lemma SafeWorkerStep(s: State, e: Event, w: Worker)
    requires Safe(s) && Enabled(s, e)
    ensures WorkerSafe(Step(s, e), w)
  {
    var t, ws := Step(s, e), At(s, w);
    assert WorkerSafe(s, w);
    if (e == PostNext && w == s.writer.todo[0]) || e == Register(w) || e == Unregister(w) {
      SafeAddressed(s, e, w);
    } else if e == Deliver(w) {
      assert Drained(t, w) == Drained(s, w);
    } else if e.GetFile? && e.w == w && Fills(s, w, e.name) {
      ReplayFill(ws.local.value, e.name, s.main[e.name], ws.queue);
    } else {
      assert At(t, w) == ws && Drained(t, w) == Drained(s, w);
      assert e.Register? ==> t.iosvcs == s.iosvcs + [e.w];
    }
  }

  lemma SafeStep(s: State, e: Event)
    requires Safe(s) && Enabled(s, e)
    ensures Safe(Step(s, e))
  {
    RegistryStep(s, e);
    LoadsStep(s, e);
    forall w
      ensures WorkerSafe(Step(s, e), w)
    {
      SafeWorkerStep(s, e, w);
    }
  }

  lemma {:induction false} SafeRun(s: State, es: seq<Event>)
    requires Safe(s) && IsRun(s, es)
    ensures Safe(Exec(s, es))
    decreases |es|
  {
    if es != [] {
      SafeStep(s, es[0]);
      SafeRun(Step(s, es[0]), es[1..]);
    }
  }

  /** In every run, orderly or not, a posted put or erase never runs on a worker without
      a local map, and no file comes out of `get_file` that was not loaded good for that
      very name. */
  lemma ClosuresAndReadsSafe(es: seq<Event>, w: Worker, n: Name)
    requires IsRun(Init(), es)
    ensures
      var s := Exec(Init(), es);
      && (At(s, w).queue != [] && (At(s, w).queue[0].Put? || At(s, w).queue[0].Erase?) ==> At(s, w).local.Some?)
      && (Lookup(s, w, n).Some? ==> (n, Lookup(s, w, n).value) in s.loaded)
  {
    InvInit();
    SafeRun(Init(), es);
    assert WorkerSafe(Exec(Init(), es), w);
  }

  /** What `get_file` answers: a name that the main map holds is found, always; nothing
      is found exactly when neither map holds the name. */
  lemma FoundIff(es: seq<Event>, w: Worker, n: Name)
    requires IsRun(Init(), es)
    ensures
      var s := Exec(Init(), es);
      && (n in s.main ==> Lookup(s, w, n).Some?)
      && (Lookup(s, w, n).None? <==>
            n !in s.main && (w in s.workers && s.workers[w].local.Some? ==> n !in s.workers[w].local.value))
  {
  }

  /** Every file that counts as loaded was loaded by some `add_file` for that name, with
      that size and time; and every such call that finds the writer idle loads one. */
  lemma {:induction false} LoadedByCalls(s: State, es: seq<Event>)
    requires IsRun(s, es)
    ensures s.loaded <= Exec(s, es).loaded
    ensures forall n, f :: (n, f) in Exec(s, es).loaded && (n, f) !in s.loaded ==> BeginAdd(n, Some(f.stamp)) in es
    ensures forall n, stamp :: BeginAdd(n, Some(stamp)) in es ==>
      exists f: File :: f.stamp == stamp && (n, f) in Exec(s, es).loaded
    decreases |es|
  {
    if es != [] {
      var t := Step(s, es[0]);
      LoadedByCalls(t, es[1..]);
      assert es == [es[0]] + es[1..];
      forall n, stamp | BeginAdd(n, Some(stamp)) in es
        ensures exists f: File :: f.stamp == stamp && (n, f) in Exec(s, es).loaded
      {
        if es[0] == BeginAdd(n, Some(stamp)) {
          var f := File(s.nextId, stamp);
          assert (n, f) in t.loaded;
        } else {
          assert BeginAdd(n, Some(stamp)) in es[1..];
        }
      }
    }
  }

  // ----- what every orderly run guarantees

  /** Draining a worker's queue gives, for every name that its map and the main
      map share, the main map's object, or the object of the add in flight when
      that add has already been posted to this worker. */
  lemma ReplayAgrees(es: seq<Event>, w: Worker, n: Name)
    requires IsOrderlyRun(Init(), es)
    ensures IsRun(Init(), es)
    ensures
      var s := Exec(Init(), es);
      Drained(s, w).Some? && n in Drained(s, w).value && n in s.main ==>
        Drained(s, w).value[n] == Target(s, w, n)
  {
    InvInit();
    InvRun(Init(), es);
    assert WorkerOk(Exec(Init(), es), w);
  }

  /** Between operations, a worker with an empty queue agrees with the main map on
      every common name, and holds a removed name only when it refilled it late. */
  ghost predicate Coherent(s: State) {
    s.writer.Idle? ==>
      forall w, n :: At(s, w).queue == [] && At(s, w).local.Some? ==>
        var m := At(s, w).local.value;
        && (n in m && n in s.main ==> m[n] == s.main[n])
        && (n !in s.main ==> (n in m <==> n in At(s, w).lateFills))
  }

  lemma CoherentRun(es: seq<Event>)
    requires IsOrderlyRun(Init(), es)
    ensures IsRun(Init(), es) && Coherent(Exec(Init(), es))
    ensures
      var s := Exec(Init(), es);
      s.writer.Idle? ==>
        forall w, n :: At(s, w).queue == [] && At(s, w).local.Some? ==>
          var m := At(s, w).local.value;
          && (n in m && n in s.main ==> m[n] == s.main[n])
          && (n in s.main ==> Lookup(s, w, n) == Some(s.main[n]))
          && (n !in s.main ==> (n in m <==> n in At(s, w).lateFills))
  {
    InvInit();
    InvRun(Init(), es);
    var s := Exec(Init(), es);
    forall w, n | s.writer.Idle? && At(s, w).queue == [] && At(s, w).local.Some?
      ensures
        var m := At(s, w).local.value;
        && (n in m && n in s.main ==> m[n] == s.main[n])
        && (n !in s.main ==> (n in m <==> n in At(s, w).lateFills))
    {
      assert WorkerOk(s, w);
    }
  }

  /** The main-map step publishes to every worker that was posted to: its drained
      map has the new object, or has lost the name unless it refilled it late. */
  lemma CommitPublishes(s: State, w: Worker)
    requires Inv(s) && Enabled(s, Commit) && w in s.writer.posted
    ensures
      var t, n := Step(s, Commit), s.writer.op.name;
      && Drained(t, w).Some?
      && (s.writer.op.Add? ==> n in Drained(t, w).value && Drained(t, w).value[n] == t.main[n] == s.writer.op.file)
      && (s.writer.op.Remove? ==> n !in t.main && (n in Drained(t, w).value <==> n in At(t, w).lateFills))
  {
    assert WorkerOk(s, w) && At(Step(s, Commit), w) == At(s, w);
  }

  // ----- the registration guard is exact

  function Deliveries(w: Worker, k: nat): seq<Event> {
    seq(k, _ => Deliver(w))
  }

  lemma {:induction false} DrainQueue(s: State, w: Worker)
    ensures IsRun(s, Deliveries(w, |At(s, w).queue|))
    ensures
      var t := Exec(s, Deliveries(w, |At(s, w).queue|));
      && At(t, w) == WorkerState(Drained(s, w), [], At(s, w).lateFills)
      && t.(workers := s.workers) == s
    decreases |At(s, w).queue|
  {
    if At(s, w).queue != [] {
      var ds, t := Deliveries(w, |At(s, w).queue|), Step(s, Deliver(w));
      assert ds[1..] == Deliveries(w, |At(t, w).queue|);
      DrainQueue(t, w);
    }
  }

  lemma {:induction false} ExecAppend(s: State, es: seq<Event>, fs: seq<Event>)
    requires IsRun(s, es) && IsRun(Exec(s, es), fs)
    ensures IsRun(s, es + fs) && Exec(s, es + fs) == Exec(Exec(s, es), fs)
    ensures IsOrderlyRun(s, es) && IsOrderlyRun(Exec(s, es), fs) ==> IsOrderlyRun(s, es + fs)
    decreases |es|
  {
    if es == [] {
      assert es + fs == fs;
    } else {
      assert (es + fs)[1..] == es[1..] + fs;
      ExecAppend(Step(s, es[0]), es[1..], fs);
    }
  }

  lemma ExecOne(s: State, e: Event)
    requires Enabled(s, e)
    ensures IsRun(s, [e]) && Exec(s, [e]) == Step(s, e)
    ensures Orderly(s, e) ==> IsOrderlyRun(s, [e])
  {
    assert [e][1..] == [];
    assert IsRun(Step(s, e), []);
  }

  /** The run that shows it: the late registrant drains its queue, misses, copies
      the old entry and is never told of the new state. */
  function LateRegistration(s: State, w: Worker): seq<Event>
    requires s.writer.Busy?
  {
    [Register(w)] + Deliveries(w, |At(s, w).queue| + 1) + [GetFile(w, s.writer.op.name)] + [Commit]
  }

  /** `Orderly` asks no more of registration than coherence needs: from every
      state of an orderly run, registering when it forbids it can end in a
      drained, idle state that is not coherent. */
  lemma RegistrationGuardIsExact(s: State, w: Worker)
    requires Inv(s) && Enabled(s, Register(w)) && !Orderly(s, Register(w))
    ensures IsRun(s, LateRegistration(s, w)) && !Coherent(Exec(s, LateRegistration(s, w)))
  {
    var n := s.writer.op.name;
    var ds := Deliveries(w, |At(s, w).queue| + 1);
    assert WorkerOk(s, w);
    var s1 := Step(s, Register(w));
    ReplayAppend(At(s, w).local, At(s, w).queue, CreateMap);
    assert Drained(s1, w) == Some(map[]);
    DrainQueue(s1, w);
    var s2 := Exec(s1, ds);
    var s3 := Step(s2, GetFile(w, n));
    var s4 := Step(s3, Commit);
    assert At(s3, w).local == Some(map[n := s.main[n]]);
    assert w !in s3.writer.posted;
    assert At(s4, w) == WorkerState(Some(map[n := s.main[n]]), [], {});
    var m := At(s4, w).local.value;
    assert n in m && (n in s4.main ==> m[n] != s4.main[n]) && n !in At(s4, w).lateFills;
    assert !Coherent(s4);
    ExecOne(s, Register(w));
    ExecAppend(s, [Register(w)], ds);
    ExecOne(s2, GetFile(w, n));
    ExecAppend(s, [Register(w)] + ds, [GetFile(w, n)]);
    ExecOne(s3, Commit);
    ExecAppend(s, [Register(w)] + ds + [GetFile(w, n)], [Commit]);
  }

  /** Such a state is reached at once: a file is added, a removal of it has
      passed its empty posting loop, and a worker registers before the main map loses
      the file. The worker keeps the removed file for good. */
  lemma LateRegistrationHappens(n: Name, stamp: Stamp)
    ensures
      var begin := [BeginAdd(n, Some(stamp)), Commit, BeginRemove(n)];
      && IsOrderlyRun(Init(), begin) && IsRun(Init(), begin)
      && Enabled(Exec(Init(), begin), Register(0)) && !Orderly(Exec(Init(), begin), Register(0))
      && IsRun(Exec(Init(), begin), LateRegistration(Exec(Init(), begin), 0))
      && !Coherent(Exec(Exec(Init(), begin), LateRegistration(Exec(Init(), begin), 0)))
  {
    var a, c, r := BeginAdd(n, Some(stamp)), Commit, BeginRemove(n);
    var s0 := Init();
    var s1 := Step(s0, a);
    var s2 := Step(s1, c);
    ExecOne(s0, a);
    ExecOne(s1, c);
    ExecOne(s2, r);
    ExecAppend(s0, [a], [c]);
    ExecAppend(s0, [a] + [c], [r]);
    assert [a] + [c] + [r] == [a, c, r];
    InvInit();
    InvRun(s0, [a, c, r]);
    RegistrationGuardIsExact(Exec(s0, [a, c, r]), 0);
  }

  // ----- the class

  function Posts(k: nat): seq<Event> {
    if k == 0 then [] else Posts(k - 1) + [PostNext]
  }

  /** The steps of one uninterrupted `add_file` or `remove_file` call. */
  function CallRun(begin: Event, posts: nat): seq<Event> {
    [begin] + Posts(posts) + [Commit]
  }

  /** A state in the posting loop of `op`, with the first `i` workers served. */
  ghost function Posting(s: State, op: Op, i: nat): State
    requires i <= |s.iosvcs|
  {
    s.(writer := Busy(op, s.iosvcs[i..], Members(s.iosvcs[..i])))
  }

  /** The state once the first `i` workers have been posted `op`. */
  ghost function PostedTo(s: State, op: Op, i: nat): State
    requires i <= |s.iosvcs|
    ensures PostedTo(s, op, i).(workers := s.workers) == s
  {
    if i == 0 then s else Post(PostedTo(s, op, i - 1), s.iosvcs[i - 1], OpMsg(op), {op.name})
  }

  /** `es` is an orderly run from `s` to `t`. */
  ghost predicate Leads(s: State, es: seq<Event>, t: State) {
    IsOrderlyRun(s, es) && IsRun(s, es) && Exec(s, es) == t
  }

  lemma LeadsOn(s: State, es: seq<Event>, t: State, e: Event)
    requires Leads(s, es, t) && Enabled(t, e) && Orderly(t, e)
    ensures Leads(s, es + [e], Step(t, e))
  {
    ExecOne(t, e);
    ExecAppend(s, es, [e]);
  }

  lemma PostingStep(s: State, op: Op, i: nat)
    requires i < |s.iosvcs|
    ensures
      var t := Posting(PostedTo(s, op, i), op, i);
      t.writer.todo != [] && Step(t, PostNext) == Posting(PostedTo(s, op, i + 1), op, i + 1)
  {
    assert s.iosvcs[..i + 1] == s.iosvcs[..i] + [s.iosvcs[i]];
    assert Members(s.iosvcs[..i + 1]) == Members(s.iosvcs[..i]) + {s.iosvcs[i]};
    assert s.iosvcs[i..][1..] == s.iosvcs[i + 1..];
  }

  lemma {:induction false} PostingRun(s: State, op: Op, i: nat, s0: State, es: seq<Event>)
    requires i <= |s.iosvcs| && Leads(s0, es, Posting(s, op, 0))
    ensures Leads(s0, es + Posts(i), Posting(PostedTo(s, op, i), op, i))
  {
    if i == 0 {
      assert es + Posts(i) == es;
    } else {
      PostingRun(s, op, i - 1, s0, es);
      PostingStep(s, op, i - 1);
      LeadsOn(s0, es + Posts(i - 1), Posting(PostedTo(s, op, i - 1), op, i - 1), PostNext);
      assert es + (Posts(i - 1) + [PostNext]) == es + Posts(i - 1) + [PostNext];
    }
  }

  lemma {:induction false} PostedQueues(s: State, op: Op, i: nat, w: Worker)
    requires i <= |s.iosvcs| && NoDup(s.iosvcs)
    ensures At(PostedTo(s, op, i), w).queue == At(s, w).queue + (if w in s.iosvcs[..i] then [OpMsg(op)] else [])
  {
    if i > 0 {
      PostedQueues(s, op, i - 1, w);
      var t, v := PostedTo(s, op, i - 1), s.iosvcs[i - 1];
      assert At(Post(t, v, OpMsg(op), {op.name}), w).queue == At(t, w).queue + (if w == v then [OpMsg(op)] else []);
      assert s.iosvcs[..i] == s.iosvcs[..i - 1] + [s.iosvcs[i - 1]];
    }
  }

  lemma {:induction false} PostedLocals(s: State, op: Op, i: nat, w: Worker)
    requires i <= |s.iosvcs|
    ensures At(PostedTo(s, op, i), w).local == At(s, w).local
  {
    if i > 0 {
      PostedLocals(s, op, i - 1, w);
      var t, v := PostedTo(s, op, i - 1), s.iosvcs[i - 1];
      assert At(Post(t, v, OpMsg(op), {op.name}), w).local == At(t, w).local;
    }
  }

  /** The state right after an uninterrupted call of `op` that began as `s1`. */
  ghost function AfterCall(s1: State, op: Op): State {
    Step(PostedTo(s1, op, |s1.iosvcs|).(writer := Busy(op, [], Members(s1.iosvcs))), Commit)
  }

  /** A whole uninterrupted call is an orderly run. */
  lemma CallIsRun(s: State, begin: Event, op: Op)
    requires Inv(s) && Enabled(s, begin)
    requires (begin.BeginAdd? && begin.load.Some?) || begin.BeginRemove?
    requires Step(s, begin).writer.op == op
    ensures
      var s1 := Step(s, begin).(writer := Idle);
      Leads(s, CallRun(begin, |s.iosvcs|), AfterCall(s1, op)) && Inv(AfterCall(s1, op))
  {
    var s1, n := Step(s, begin).(writer := Idle), |s.iosvcs|;
    var t := Posting(PostedTo(s1, op, n), op, n);
    assert Members(s.iosvcs[..0]) == {} && s.iosvcs[0..] == s.iosvcs && s.iosvcs[..n] == s.iosvcs;
    ExecOne(s, begin);
    PostingRun(s1, op, n, s, [begin]);
    LeadsOn(s, [begin] + Posts(n), t, Commit);
    InvRun(s, CallRun(begin, n));
  }

  /** Each registered worker finds exactly one new closure at the end of its queue, and no
      local map changes. */
  lemma CallPosts(s: State, op: Op)
    requires NoDup(s.iosvcs)
    ensures forall w :: (At(AfterCall(s, op), w).queue ==
        At(s, w).queue + (if w in s.iosvcs then [OpMsg(op)] else []))
    ensures forall w :: At(AfterCall(s, op), w).local == At(s, w).local
  {
    forall w
      ensures At(AfterCall(s, op), w).queue == At(s, w).queue + (if w in s.iosvcs then [OpMsg(op)] else [])
      ensures At(AfterCall(s, op), w).local == At(s, w).local
    {
      PostedLocals(s, op, |s.iosvcs|, w);
      PostedQueues(s, op, |s.iosvcs|, w);
      assert s.iosvcs[..|s.iosvcs|] == s.iosvcs;
    }
  }

  /**
   The object of the source, with the workers' queues and thread-local maps
   beside it. Each method runs without interference; its contract gives the new
   state directly and as a run of the step system.
  */
  class Cache {
    var fileMap: FileMap
    var iosvcs: seq<Worker>
    var workers: map<Worker, WorkerState>
    var nextId: nat
    ghost var loaded: set<(Name, File)>

    ghost function Now(): State
      reads this
    {
      State(fileMap, iosvcs, workers, Idle, nextId, loaded)
    }

    constructor ()
      ensures Now() == Init() && Inv(Now())
    {
      fileMap, iosvcs, workers, nextId, loaded := map[], [], map[], 0, {};
    }

    /** Posts one closure to one worker. */
    method Enqueue(w: Worker, m: Msg, stale: set<Name>)
      modifies this`workers
      ensures Now() == Post(old(Now()), w, m, stale)
    {
      var ws := if w in workers then workers[w] else WorkerState(None, [], {});
      workers := workers[w := ws.(queue := ws.queue + [m], lateFills := ws.lateFills - stale)];
    }

    /** The posting loop shared by `add_file` and `remove_file`. */
    method PostToAll(op: Op)
      modifies this`workers
      ensures Now() == PostedTo(old(Now()), op, |iosvcs|)
    {
      for i := 0 to |iosvcs|
        invariant Now() == PostedTo(old(Now()), op, i)
      {
        Enqueue(iosvcs[i], OpMsg(op), {op.name});
      }
    }

    /** `add_file`; `load` is what reading the file gave. */
    method AddFile(name: Name, load: Option<Stamp>) returns (ok: bool)
      requires Inv(Now())
      modifies this
      ensures Inv(Now())
      ensures ok == load.Some?
      ensures !ok ==> Now() == old(Now())
      ensures ok ==>
        && fileMap == old(fileMap)[name := File(old(nextId), load.value)] && nextId == old(nextId) + 1
        && iosvcs == old(iosvcs) && (forall w :: At(Now(), w).local == At(old(Now()), w).local)
        && Leads(old(Now()), CallRun(BeginAdd(name, load), |iosvcs|), Now())
        && forall w :: (At(Now(), w).queue == At(old(Now()), w).queue +
             (if w in old(iosvcs) then [Put(name, File(old(nextId), load.value))] else []))
    {
      if load.None? { return false; }
      ghost var s := Now();
      var f := File(nextId, load.value);
      CallIsRun(s, BeginAdd(name, load), Add(name, f));
      nextId := nextId + 1;
      loaded := loaded + {(name, f)};
      CallPosts(Now(), Add(name, f));
      PostToAll(Add(name, f));
      fileMap := fileMap[name := f];
      return true;
    }

    /** `remove_file`. */
    method RemoveFile(name: Name)
      requires Inv(Now())
      modifies this
      ensures Inv(Now())
      ensures fileMap == old(fileMap) - {name} && nextId == old(nextId) && iosvcs == old(iosvcs)
      ensures forall w :: At(Now(), w).local == At(old(Now()), w).local
      ensures Leads(old(Now()), CallRun(BeginRemove(name), |iosvcs|), Now())
      ensures forall w :: (At(Now(), w).queue ==
          At(old(Now()), w).queue + (if w in old(iosvcs) then [Erase(name)] else []))
    {
      CallIsRun(Now(), BeginRemove(name), Remove(name));
      CallPosts(Now(), Remove(name));
      PostToAll(Remove(name));
      if name in fileMap {
        fileMap := fileMap - {name};
      }
      assert fileMap == old(fileMap) - {name};
    }

    /** `get_file`, called on worker `w`'s thread: the local entry, else the main map's,
        which goes into the local map if there is one. */
    method GetFile(w: Worker, name: Name) returns (file: Option<File>)
      modifies this`workers
      ensures file ==
        if w in old(workers) && old(workers)[w].local.Some? && name in old(workers)[w].local.value
        then Some(old(workers)[w].local.value[name])
        else if name in fileMap then Some(fileMap[name]) else None
      ensures
        if w in old(workers) && old(workers)[w].local.Some? && name !in old(workers)[w].local.value && name in fileMap
        then
          var ws := old(workers)[w];
          workers == old(workers)[w := ws.(local := Some(ws.local.value[name := fileMap[name]]))]
        else workers == old(workers)
      ensures file == Lookup(old(Now()), w, name)
      ensures Now() == Step(old(Now()), Event.GetFile(w, name))
    {
      var updateLocal := false;
      if w in workers && workers[w].local.Some? {
        if name in workers[w].local.value {
          return Some(workers[w].local.value[name]);
        }
        updateLocal := true;
      }
      if name !in fileMap { return None; }
      file := Some(fileMap[name]);
      if updateLocal {
        workers := workers[w := workers[w].(local := Some(workers[w].local.value[name := file.value]))];
      }
    }

    /** One posted closure runs on worker `w`. */
    method RunNext(w: Worker)
      requires w in workers && workers[w].queue != []
      modifies this`workers
      ensures
        var ws, m := old(workers)[w], old(workers)[w].queue[0];
        && w in workers && workers == old(workers)[w := ws.(local := workers[w].local, queue := ws.queue[1..])]
        && (m.CreateMap? ==> workers[w].local == Some(map[]))
        && (m.DropMap? || (ws.local.None? && !m.CreateMap?) ==> workers[w].local == None)
        && (m.Put? && ws.local.Some? ==> workers[w].local == Some(ws.local.value[m.name := m.file]))
        && (m.Erase? && ws.local.Some? ==> workers[w].local == Some(ws.local.value - {m.name}))
      ensures Now() == Step(old(Now()), Deliver(w))
    {
      var ws := workers[w];
      var local := ws.local;
      match ws.queue[0] {
        case CreateMap => local := Some(map[]);
        case DropMap => local := None;
        case Put(n, f) => if local.Some? { local := Some(local.value[n := f]); }
        case Erase(n) =>
          if local.Some? {
            assert n !in local.value ==> local.value - {n} == local.value;
            if n in local.value { local := Some(local.value - {n}); }
          }
      }
      assert local == RunMsg(ws.local, ws.queue[0]);
      workers := workers[w := ws.(local := local, queue := ws.queue[1..])];
    }

    method RegisterIoService(w: Worker)
      requires Inv(Now()) && w !in iosvcs
      modifies this
      ensures iosvcs == old(iosvcs) + [w] && fileMap == old(fileMap) && nextId == old(nextId)
      ensures At(Now(), w).queue == At(old(Now()), w).queue + [CreateMap]
      ensures At(Now(), w).local == At(old(Now()), w).local
      ensures forall v :: v != w ==> At(Now(), v) == At(old(Now()), v)
      ensures Inv(Now()) && Now() == Step(old(Now()), Register(w))
    {
      ghost var s := Now();
      iosvcs := iosvcs + [w];
      Enqueue(w, CreateMap, if w in workers then workers[w].lateFills else {});
      assert Now() == Step(s, Register(w));
      InvStep(s, Register(w));
    }

    method UnregisterIoService(w: Worker)
      requires Inv(Now()) && w in iosvcs
      modifies this
      ensures w !in iosvcs && fileMap == old(fileMap) && nextId == old(nextId)
      ensures exists i :: (0 <= i < |old(iosvcs)| && old(iosvcs)[i] == w
        && iosvcs == old(iosvcs)[..i] + old(iosvcs)[i + 1..])
      ensures At(Now(), w).queue == At(old(Now()), w).queue + [DropMap]
      ensures At(Now(), w).local == At(old(Now()), w).local
      ensures forall v :: v != w ==> At(Now(), v) == At(old(Now()), v)
      ensures Inv(Now()) && Now() == Step(old(Now()), Unregister(w))
    {
      ghost var s := Now();
      ghost var all := iosvcs;
      for i := 0 to |iosvcs|
        invariant iosvcs == all && w !in all[..i]
      {
        if iosvcs[i] == w {
          WithoutAt(iosvcs, w, i);
          iosvcs := iosvcs[..i] + iosvcs[i + 1..];
          break;
        }
        assert all[..i + 1] == all[..i] + [all[i]];
      }
      assert all[..|all|] == all;
      Enqueue(w, DropMap, {});
      assert Now() == Step(s, Unregister(w));
      InvStep(s, Unregister(w));
    }
  }

  lemma {:induction false} WithoutAt(s: seq<Worker>, w: Worker, i: nat)
    requires i < |s| && s[i] == w && w !in s[..i]
    ensures Without(s, w) == s[..i] + s[i + 1..]
    decreases |s|
  {
    if i > 0 {
      assert s[0] == s[..i][0];
      assert s[1..][..i - 1] == s[..i][1..];
      WithoutAt(s[1..], w, i - 1);
    }
  }
}
