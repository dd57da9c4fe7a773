/**
 The refresh pass as the writer of the update protocol: what a pass calls, one
 operation after the other, while the workers go on, and what reaches them.
*/
module RefreshProtocol {
  import opened Common
  import FileCache
  import FileRefresh

  type Path = FileCache.Name
  type Stamp = FileCache.Stamp
  type State = FileCache.State
  type Event = FileCache.Event
  type Msg = FileRefresh.Msg

  function Stamps(m: FileCache.FileMap): map<Path, Stamp> {
    map n | n in m :: m[n].stamp
  }

  /** The operation that an event begins, if it does. */
  function CallOf(e: Event): seq<Msg> {
    match e
    case BeginAdd(n, load) => if load.Some? then [FileRefresh.Put(n, load.value)] else []
    case BeginRemove(n) => [FileRefresh.Erase(n)]
    case _ => []
  }

  /** The operations that the writer begins during a run, oldest first. */
  function Calls(es: seq<Event>): seq<Msg>
    decreases |es|
  {
    if es == [] then [] else CallOf(es[0]) + Calls(es[1..])
  }

  /** The stamps of the main map once the operation under way has reached it. */
  function Settled(s: State): map<Path, Stamp> {
    if s.writer.Idle? then Stamps(s.main)
    else
      match s.writer.op
      case Add(n, f) => Stamps(s.main)[n := f.stamp]
      case Remove(n) => Stamps(s.main) - {n}
  }

  lemma {:induction false} ApplyConcat(m: map<Path, Stamp>, x: seq<Msg>, y: seq<Msg>)
    ensures FileRefresh.Apply(m, x + y) == FileRefresh.Apply(FileRefresh.Apply(m, x), y)
    decreases |y|
  {
    if y == [] {
      assert x + y == x;
    } else {
      var n := |y| - 1;
      assert (x + y)[..|x + y| - 1] == x + y[..n];
      ApplyConcat(m, x, y[..n]);
    }
  }

  lemma ApplySingle(m: map<Path, Stamp>, msg: Msg)
    ensures FileRefresh.Apply(m, [msg]) == FileRefresh.ApplyOne(m, msg)
  {
    assert [msg][..0] == [];
  }

  lemma StampsCommit(s: State)
    requires FileCache.Enabled(s, FileCache.Commit)
    ensures Stamps(FileCache.Step(s, FileCache.Commit).main) == Settled(s)
  {
  }

  lemma SettledStep(s: State, e: Event)
    requires FileCache.Enabled(s, e)
    ensures Settled(FileCache.Step(s, e)) == FileRefresh.Apply(Settled(s), CallOf(e))
  {
    match e
    case BeginAdd(n, load) => if load.Some? { ApplySingle(Settled(s), FileRefresh.Put(n, load.value)); }
    case BeginRemove(n) => ApplySingle(Settled(s), FileRefresh.Erase(n));
    case Commit => StampsCommit(s);
    case _ =>
  }

  /** Over any run the main map ends up as the writer's operations say, whatever the
      workers do meanwhile. */
  lemma {:induction false} SettledRun(s: State, es: seq<Event>)
    requires FileCache.IsRun(s, es)
    ensures Settled(FileCache.Exec(s, es)) == FileRefresh.Apply(Settled(s), Calls(es))
    decreases |es|
  {
    if es != [] {
      SettledStep(s, es[0]);
      SettledRun(FileCache.Step(s, es[0]), es[1..]);
      ApplyConcat(Settled(s), CallOf(es[0]), Calls(es[1..]));
    }
  }

  /** `es` is an orderly run from `s`, a state between two operations, to another. */
  ghost predicate WholeRun(s: State, es: seq<Event>) {
    && FileCache.IsRun(s, es) && FileCache.IsOrderlyRun(s, es)
    && s.writer.Idle? && FileCache.Exec(s, es).writer.Idle?
  }

  /** What a worker will hold for a path once its queue is drained agrees with the disk,
      unless the path has left the main map and the worker refilled it too late. */
  ghost predicate UpToDate(disk: FileRefresh.Entry, dirs: set<Path>, s: State, w: FileCache.Worker, p: Path) {
    var d := FileCache.Drained(s, w);
    d.Some? && p in d.value && FileRefresh.Loadable(disk, p) ==>
      || d.value[p].stamp == FileRefresh.StampOf(disk, p)
      || (p !in s.main && p in FileCache.At(s, w).lateFills && !FileRefresh.Watched(disk, dirs, p))
  }

  lemma UpToDateMeans(disk: FileRefresh.Entry, dirs: set<Path>, s: State, w: FileCache.Worker, p: Path)
    requires UpToDate(disk, dirs, s, w, p)
    ensures
      var d, at := FileCache.Drained(s, w), FileRefresh.Lookup(disk, p);
      d.Some? && p in d.value && at.Some? && at.value.Regular? && at.value.readable ==>
        || d.value[p].stamp == at.value.stamp
        || (p !in s.main && p in FileCache.At(s, w).lateFills)
  {
  }

  lemma DrainedUpToDate(disk: FileRefresh.Entry, dirs: set<Path>, m1: map<Path, Stamp>,
                        s: State, w: FileCache.Worker, p: Path)
    requires FileCache.Inv(s) && s.writer.Idle?
    requires FileRefresh.Refreshed(disk, dirs, m1, Stamps(s.main))
    ensures UpToDate(disk, dirs, s, w, p)
  {
    assert FileCache.WorkerOk(s, w);
    assert FileRefresh.Watched(disk, dirs, p) ==> p in Stamps(s.main);
  }

  /** A refresh pass whose operations run in any orderly interleaving with the workers:
      the main map is refreshed, and so is every worker's drained map. The premises
      on `msgs` are what `Refresher.Refresh` promises of the closures it posts. */
  lemma RefreshReachesWorkers(disk: FileRefresh.Entry, dirs: set<Path>, before: seq<Event>, pass: seq<Event>,
                              msgs: seq<Msg>, m2: map<Path, Stamp>)
    requires WholeRun(FileCache.Init(), before) && WholeRun(FileCache.Exec(FileCache.Init(), before), pass)
    requires Calls(pass) == msgs
    requires
      var m1 := Stamps(FileCache.Exec(FileCache.Init(), before).main);
      FileRefresh.Refreshed(disk, dirs, m1, m2) && FileRefresh.Apply(m1, msgs) == m2
    ensures
      var t := FileCache.Exec(FileCache.Exec(FileCache.Init(), before), pass);
      Stamps(t.main) == m2 && forall w, p :: UpToDate(disk, dirs, t, w, p)
  {
    FileCache.InvInit();
    FileCache.InvRun(FileCache.Init(), before);
    var s := FileCache.Exec(FileCache.Init(), before);
    FileCache.InvRun(s, pass);
    SettledRun(s, pass);
    var t := FileCache.Exec(s, pass);
    forall w, p
      ensures UpToDate(disk, dirs, t, w, p)
    {
      DrainedUpToDate(disk, dirs, Stamps(s.main), t, w, p);
    }
  }
}
