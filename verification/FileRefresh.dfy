/**
 The file cache's directory scan and refresh pass (src/core/file_cache.cpp) over
 a finite directory tree that does not change while the pass runs.
*/
module FileRefresh {
  import opened Common
  import FileCache

  type Path = FileCache.Name
  type Stamp = FileCache.Stamp

  /** A node of the disk: a regular file that can or cannot be opened, something
      that is neither file nor directory, or a directory in its listing order. */
  datatype Entry =
    | Regular(stamp: Stamp, readable: bool)
    | Special
    | Directory(children: seq<(string, Entry)>)

  /** A closure that the pass posts to every registered worker. */
  datatype Msg = Put(path: Path, stamp: Stamp) | Erase(path: Path)

  // ----- the disk

  function Find(children: seq<(string, Entry)>, name: string): (r: Option<Entry>)
    ensures r.Some? ==> exists i :: 0 <= i < |children| && children[i] == (name, r.value)
  {
    if children == [] then None
    else if children[0].0 == name then Some(children[0].1)
    else Find(children[1..], name)
  }

  function Lookup(e: Entry, p: Path): Option<Entry>
    decreases |p|
  {
    if p == [] then Some(e)
    else if !e.Directory? then None
    else
      var c := Find(e.children, p[0]);
      if c.None? then None else Lookup(c.value, p[1..])
  }

  /** No directory lists a name twice. */
  ghost predicate WellFormed(e: Entry) {
    e.Directory? ==>
      && (forall i, j :: 0 <= i < j < |e.children| ==> e.children[i].0 != e.children[j].0)
      && (forall i :: 0 <= i < |e.children| ==> WellFormed(e.children[i].1))
  }

  predicate Exists(disk: Entry, p: Path) {
    Lookup(disk, p).Some?
  }

  predicate IsDirectory(disk: Entry, p: Path) {
    Lookup(disk, p).Some? && Lookup(disk, p).value.Directory?
  }

  /** `file(name, true)` ends up good. */
  predicate Loadable(disk: Entry, p: Path) {
    Lookup(disk, p).Some? && Lookup(disk, p).value.Regular? && Lookup(disk, p).value.readable
  }

  /** The size and time of `file(name)`. */
  function StampOf(disk: Entry, p: Path): Stamp {
    if Lookup(disk, p).Some? && Lookup(disk, p).value.Regular? then Lookup(disk, p).value.stamp
    else FileCache.Stamp(0, 0)
  }

  /** The stamp held for a path after an attempt to load it again. */
  function Reloaded(disk: Entry, p: Path, held: Stamp): Stamp {
    if Loadable(disk, p) then StampOf(disk, p) else held
  }

  lemma {:induction false} LookupConcat(e: Entry, p: Path, q: Path)
    ensures Lookup(e, p + q) == if Lookup(e, p).Some? then Lookup(Lookup(e, p).value, q) else None
    decreases |p|
  {
    if p == [] {
      assert p + q == q;
    } else if e.Directory? {
      assert (p + q)[1..] == p[1..] + q;
      if Find(e.children, p[0]).Some? {
        LookupConcat(Find(e.children, p[0]).value, p[1..], q);
      }
    }
  }

  lemma {:induction false} FindAt(children: seq<(string, Entry)>, i: nat)
    requires i < |children|
    requires forall j, k :: 0 <= j < k < |children| ==> children[j].0 != children[k].0
    ensures Find(children, children[i].0) == Some(children[i].1)
  {
    if i > 0 {
      FindAt(children[1..], i - 1);
    }
  }

  lemma {:induction false} LookupWellFormed(e: Entry, p: Path)
    requires WellFormed(e) && Lookup(e, p).Some?
    ensures WellFormed(Lookup(e, p).value)
    decreases |p|
  {
    if p != [] {
      LookupWellFormed(Find(e.children, p[0]).value, p[1..]);
    }
  }

  /** The listed child is what its path names. */
  lemma ChildLookup(disk: Entry, dir: Path, i: nat)
    requires WellFormed(disk) && IsDirectory(disk, dir) && i < |Lookup(disk, dir).value.children|
    ensures
      var c := Lookup(disk, dir).value.children[i];
      Lookup(disk, dir + [c.0]) == Some(c.1)
  {
    var e := Lookup(disk, dir).value;
    LookupWellFormed(disk, dir);
    LookupConcat(disk, dir, [e.children[i].0]);
    FindAt(e.children, i);
    assert Lookup(e.children[i].1, [e.children[i].0][1..]) == Some(e.children[i].1);
  }

  /** Whatever exists below a directory exists at or below one of its children. */
  lemma BelowSomeChild(disk: Entry, dir: Path, p: Path)
    requires IsDirectory(disk, dir) && dir < p && Exists(disk, p)
    ensures
      var cs := Lookup(disk, dir).value.children;
      exists i :: 0 <= i < |cs| && dir + [cs[i].0] <= p
  {
    var e, rest := Lookup(disk, dir).value, p[|dir|..];
    assert p == dir + rest;
    LookupConcat(disk, dir, rest);
    var i :| 0 <= i < |e.children| && e.children[i] == (rest[0], Find(e.children, rest[0]).value);
    assert dir + [e.children[i].0] <= p;
  }

  /** Nothing exists below something that is not a directory. */
  lemma NothingBelowLeaf(disk: Entry, leaf: Path, p: Path)
    requires Exists(disk, leaf) && !IsDirectory(disk, leaf) && leaf <= p && Exists(disk, p)
    ensures p == leaf
  {
    assert p == leaf + p[|leaf|..];
    LookupConcat(disk, leaf, p[|leaf|..]);
  }

  // ----- what a pass must achieve

  ghost predicate Under(roots: set<Path>, p: Path) {
    exists r :: r in roots && r <= p
  }

  /** A loadable file in some watched directory's tree. */
  ghost predicate Watched(disk: Entry, dirs: set<Path>, p: Path) {
    Loadable(disk, p) && exists d :: d in dirs && IsDirectory(disk, d) && d <= p
  }

  /** `m2` is `m1` brought up to date: it holds the watched loadable files and the
      earlier entries that still exist, and every file it could load carries the
      disk's size and time. */
  ghost predicate Refreshed(disk: Entry, dirs: set<Path>, m1: map<Path, Stamp>, m2: map<Path, Stamp>) {
    && (forall p :: p in m2 <==> Watched(disk, dirs, p) || (p in m1 && Exists(disk, p)))
    && (forall p :: p in m2 && Loadable(disk, p) ==> m2[p] == StampOf(disk, p))
    && (forall p :: p in m2 && !Loadable(disk, p) ==> m2[p] == m1[p])
  }

  /** What a refreshed map is, in terms of what is found at each path of the disk. */
  lemma RefreshedMeans(disk: Entry, dirs: set<Path>, m1: map<Path, Stamp>, m2: map<Path, Stamp>, p: Path)
    requires Refreshed(disk, dirs, m1, m2)
    ensures
      var at := Lookup(disk, p);
      var good := at.Some? && at.value.Regular? && at.value.readable;
      && (p in m2 <==>
            || (good && exists d :: d in dirs && d <= p && Lookup(disk, d).Some? && Lookup(disk, d).value.Directory?)
            || (p in m1 && at.Some?))
      && (p in m2 && good ==> m2[p] == at.value.stamp)
      && (p in m2 && !good ==> p in m1 && m2[p] == m1[p])
  {
    var at := Lookup(disk, p);
    if Watched(disk, dirs, p) {
      var d :| d in dirs && IsDirectory(disk, d) && d <= p;
      assert d in dirs && d <= p && Lookup(disk, d).Some?;
    }
    if at.Some? && at.value.Regular? && at.value.readable && p !in m1 {
      if d :| d in dirs && d <= p && Lookup(disk, d).Some? && Lookup(disk, d).value.Directory? {
        assert IsDirectory(disk, d);
        assert Watched(disk, dirs, p);
      }
    }
  }

  /** What is found at a path: the disk itself at the empty one, and below a directory
      what its child of that name holds. */
  lemma LookupIs(children: seq<(string, Entry)>, i: nat, rest: Path)
    requires i < |children| && WellFormed(Directory(children))
    ensures Lookup(Directory(children), []) == Some(Directory(children))
    ensures Lookup(Directory(children), [children[i].0] + rest) == Lookup(children[i].1, rest)
  {
    FindAt(children, i);
    assert ([children[i].0] + rest)[1..] == rest;
  }

  /** A second pass over the same disk finds nothing to change. */
  lemma RefreshIsIdempotent(disk: Entry, dirs: set<Path>,
                            m1: map<Path, Stamp>, m2: map<Path, Stamp>, m3: map<Path, Stamp>)
    requires Refreshed(disk, dirs, m1, m2) && Refreshed(disk, dirs, m2, m3)
    ensures m3 == m2
  {
    assert forall p :: p in m3 <==> p in m2;
    assert m3.Keys == m2.Keys;
  }

  /** `after` has gained exactly the loadable files at or below `roots`. */
  ghost predicate Gained(disk: Entry, roots: set<Path>, before: map<Path, Stamp>, after: map<Path, Stamp>) {
    && (forall p :: p in after <==> p in before || (Under(roots, p) && Loadable(disk, p)))
    && (forall p :: p in before ==> after[p] == before[p])
    && (forall p :: p in after && p !in before ==> after[p] == StampOf(disk, p))
  }

  lemma GainedTransitive(disk: Entry, r1: set<Path>, r2: set<Path>,
                         a: map<Path, Stamp>, b: map<Path, Stamp>, c: map<Path, Stamp>)
    requires Gained(disk, r1, a, b) && Gained(disk, r2, b, c)
    ensures Gained(disk, r1 + r2, a, c)
  {
    forall p
      ensures Under(r1 + r2, p) <==> Under(r1, p) || Under(r2, p)
    {
      if Under(r1, p) {
        var r :| r in r1 && r <= p;
        assert r in r1 + r2;
      }
      if Under(r2, p) {
        var r :| r in r2 && r <= p;
        assert r in r1 + r2;
      }
    }
  }

  /** Only the shadow that a set of roots casts on the loadable files matters. */
  lemma GainedFrom(disk: Entry, r1: set<Path>, r2: set<Path>, a: map<Path, Stamp>, b: map<Path, Stamp>)
    requires Gained(disk, r1, a, b)
    requires forall p :: Loadable(disk, p) ==> (Under(r1, p) <==> Under(r2, p))
    ensures Gained(disk, r2, a, b)
  {
  }

  function ApplyOne(m: map<Path, Stamp>, msg: Msg): map<Path, Stamp> {
    match msg
    case Put(p, s) => m[p := s]
    case Erase(p) => m - {p}
  }

  /** The paths of a directory's first `k` children. */
  ghost function ChildPaths(dir: Path, children: seq<(string, Entry)>, k: nat): set<Path>
    requires k <= |children|
  {
    if k == 0 then {} else ChildPaths(dir, children, k - 1) + {dir + [children[k - 1].0]}
  }

  lemma {:induction false} ChildPathsAre(dir: Path, children: seq<(string, Entry)>, k: nat, r: Path)
    requires k <= |children|
    ensures r in ChildPaths(dir, children, k) <==> exists i :: 0 <= i < k && r == dir + [children[i].0]
  {
    if k > 0 { ChildPathsAre(dir, children, k - 1, r); }
  }

  /** The loadable files of a directory's tree are those of its children's trees. */
  lemma ChildrenCover(disk: Entry, dir: Path)
    requires IsDirectory(disk, dir)
    ensures
      var cs := Lookup(disk, dir).value.children;
      forall p :: Loadable(disk, p) ==> (Under(ChildPaths(dir, cs, |cs|), p) <==> Under({dir}, p))
  {
    var cs := Lookup(disk, dir).value.children;
    forall p | Loadable(disk, p)
      ensures Under(ChildPaths(dir, cs, |cs|), p) <==> Under({dir}, p)
    {
      if Under(ChildPaths(dir, cs, |cs|), p) {
        var r :| r in ChildPaths(dir, cs, |cs|) && r <= p;
        ChildPathsAre(dir, cs, |cs|, r);
        assert dir in {dir} && dir <= p;
      }
      if Under({dir}, p) {
        assert dir <= p && dir != p;
        BelowSomeChild(disk, dir, p);
        var i :| 0 <= i < |cs| && dir + [cs[i].0] <= p;
        ChildPathsAre(dir, cs, |cs|, dir + [cs[i].0]);
      }
    }
  }

  /** Scanning, then reloading the changed and dropping the missing, is a refresh. */
  lemma PassRefreshes(disk: Entry, dirs: set<Path>,
                      m1: map<Path, Stamp>, scanned: map<Path, Stamp>, m2: map<Path, Stamp>)
    requires Gained(disk, (set d | d in dirs && IsDirectory(disk, d)), m1, scanned)
    requires forall p :: p in m2 <==> p in scanned && Exists(disk, p)
    requires forall p :: p in m2 ==>
      m2[p] == (if scanned[p] != StampOf(disk, p) then Reloaded(disk, p, scanned[p]) else scanned[p])
    ensures Refreshed(disk, dirs, m1, m2)
    ensures m2 == m1 ==> scanned == m1
  {
    var roots := set d | d in dirs && IsDirectory(disk, d);
    forall p | Loadable(disk, p)
      ensures Under(roots, p) <==> Watched(disk, dirs, p)
    {
      if Under(roots, p) {
        var r :| r in roots && r <= p;
        assert r in dirs && IsDirectory(disk, r) && r <= p;
      }
      if Watched(disk, dirs, p) {
        var d :| d in dirs && IsDirectory(disk, d) && d <= p;
        assert d in roots && d <= p;
      }
    }
    if m2 == m1 {
      assert forall p :: p in scanned ==> p in m1;
    }
  }

  /** Replays posted closures on a copy of the map, as each worker will. */
  function Apply(m: map<Path, Stamp>, msgs: seq<Msg>): map<Path, Stamp> {
    if msgs == [] then m else ApplyOne(Apply(m, msgs[..|msgs| - 1]), msgs[|msgs| - 1])
  }

  lemma ApplySnoc(m: map<Path, Stamp>, msgs: seq<Msg>, msg: Msg)
    ensures Apply(m, msgs + [msg]) == ApplyOne(Apply(m, msgs), msg)
  {
    assert (msgs + [msg])[..|msgs|] == msgs;
  }

  class Refresher {
    const disk: Entry
    var fileMap: map<Path, Stamp>
    var directories: set<Path>
    /** Every closure posted so far, oldest first. */
    var posted: seq<Msg>
    /** The map and the length of `posted` at some earlier moment. */
    ghost var mark: (map<Path, Stamp>, nat)

    /** The closures posted since the mark turn the map of then into the map of now. */
    ghost predicate Valid()
      reads this
    {
      && WellFormed(disk)
      && mark.1 <= |posted|
      && fileMap == Apply(mark.0, posted[mark.1..])
    }

    constructor (disk: Entry)
      requires WellFormed(disk)
      ensures Valid() && this.disk == disk && fileMap == map[] && directories == {} && posted == []
    {
      this.disk := disk;
      fileMap, directories, posted, mark := map[], {}, [], (map[], 0);
    }

    method AddFile(p: Path) returns (ok: bool)
      requires Valid()
      modifies this`fileMap, this`posted
      ensures Valid()
      ensures ok <==> Lookup(disk, p).Some? && Lookup(disk, p).value.Regular? && Lookup(disk, p).value.readable
      ensures ok ==> fileMap == old(fileMap)[p := Lookup(disk, p).value.stamp]
      ensures ok == Loadable(disk, p)
      ensures fileMap == if ok then old(fileMap)[p := StampOf(disk, p)] else old(fileMap)
      ensures posted == if ok then old(posted) + [Put(p, StampOf(disk, p))] else old(posted)
    {
      if !Loadable(disk, p) { return false; }
      var msg := Put(p, StampOf(disk, p));
      assert (posted + [msg])[mark.1..] == posted[mark.1..] + [msg];
      ApplySnoc(mark.0, posted[mark.1..], msg);
      posted := posted + [msg];
      fileMap := fileMap[p := StampOf(disk, p)];
      return true;
    }

    method RemoveFile(p: Path)
      requires Valid()
      modifies this`fileMap, this`posted
      ensures Valid()
      ensures fileMap == old(fileMap) - {p} && posted == old(posted) + [Erase(p)]
    {
      assert (posted + [Erase(p)])[mark.1..] == posted[mark.1..] + [Erase(p)];
      ApplySnoc(mark.0, posted[mark.1..], Erase(p));
      posted := posted + [Erase(p)];
      fileMap := fileMap - {p};
    }

    /** Handles one entry of a directory listing. */
    method ScanEntry(path: Path)
      requires Valid() && Exists(disk, path)
      modifies this`fileMap, this`posted
      ensures Valid() && Gained(disk, {path}, old(fileMap), fileMap)
      ensures old(posted) <= posted && (fileMap == old(fileMap) ==> posted == old(posted))
      decreases Lookup(disk, path).value, 1
    {
      if IsDirectory(disk, path) {
        var _ := ScanDirectory(path);
      } else {
        if path !in fileMap {
          var _ := AddFile(path);
        }
        forall p | Under({path}, p) && Loadable(disk, p)
          ensures p == path
        {
          NothingBelowLeaf(disk, path, p);
        }
        assert Under({path}, path) by { assert path in {path} && path <= path; }
      }
    }

    /** Adds every loadable file below a directory that the map does not hold yet. */
    method ScanDirectory(name: Path) returns (ok: bool)
      requires Valid()
      modifies this`fileMap, this`posted
      ensures Valid()
      ensures ok == IsDirectory(disk, name)
      ensures Gained(disk, if ok then {name} else {}, old(fileMap), fileMap)
      ensures old(posted) <= posted && (fileMap == old(fileMap) ==> posted == old(posted))
      decreases if Exists(disk, name) then Lookup(disk, name).value else Special, 0
    {
      if !IsDirectory(disk, name) { return false; }
      var children := Lookup(disk, name).value.children;
      ghost var done: set<Path> := {};
      for i := 0 to |children|
        invariant Valid() && Gained(disk, done, old(fileMap), fileMap)
        invariant done == ChildPaths(name, children, i)
        invariant old(posted) <= posted && (fileMap == old(fileMap) ==> posted == old(posted))
      {
        ghost var was := fileMap;
        var path := name + [children[i].0];
        ChildLookup(disk, name, i);
        ScanEntry(path);
        GainedTransitive(disk, done, {path}, old(fileMap), was, fileMap);
        done := done + {path};
      }
      ChildrenCover(disk, name);
      GainedFrom(disk, done, {name}, old(fileMap), fileMap);
      return true;
    }

    method AddDirectory(name: Path) returns (ok: bool)
      requires Valid()
      modifies this`fileMap, this`posted, this`directories
      ensures Valid()
      ensures ok == IsDirectory(disk, name)
      ensures directories == if ok then old(directories) + {name} else old(directories)
      ensures Gained(disk, if ok then {name} else {}, old(fileMap), fileMap)
    {
      ok := ScanDirectory(name);
      if ok {
        directories := directories + {name};
      }
    }

    /** Looks for new objects. */
    method ScanAll(dirs: set<Path>)
      requires Valid()
      modifies this`fileMap, this`posted
      ensures Valid()
      ensures Gained(disk, (set d | d in dirs && IsDirectory(disk, d)), old(fileMap), fileMap)
      ensures old(posted) <= posted && (fileMap == old(fileMap) ==> posted == old(posted))
    {
      var todo := dirs;
      ghost var seen: set<Path> := {};
      while todo != {}
        invariant Valid() && todo <= dirs
        invariant forall d :: d in seen <==> d in dirs && d !in todo && IsDirectory(disk, d)
        invariant Gained(disk, seen, old(fileMap), fileMap)
        invariant old(posted) <= posted && (fileMap == old(fileMap) ==> posted == old(posted))
      {
        var dir :| dir in todo;
        ghost var was := fileMap;
        var ok := ScanDirectory(dir);
        GainedTransitive(disk, seen, if ok then {dir} else {}, old(fileMap), was, fileMap);
        seen := seen + if ok then {dir} else {};
        todo := todo - {dir};
      }
      assert seen == set d | d in dirs && IsDirectory(disk, d);
    }

    /** Finds the entries whose file has changed and those whose file is gone. */
    method Compare() returns (toAdd: set<Path>, toRemove: set<Path>)
      ensures forall p :: p in toAdd <==> p in fileMap && Exists(disk, p) && fileMap[p] != StampOf(disk, p)
      ensures forall p :: p in toRemove <==> p in fileMap && !Exists(disk, p)
    {
      toAdd, toRemove := {}, {};
      var rest := fileMap.Keys;
      while rest != {}
        invariant rest <= fileMap.Keys
        invariant forall p :: p in toAdd <==>
          p in fileMap && p !in rest && Exists(disk, p) && fileMap[p] != StampOf(disk, p)
        invariant forall p :: p in toRemove <==> p in fileMap && p !in rest && !Exists(disk, p)
      {
        var p :| p in rest;
        if Exists(disk, p) {
          if fileMap[p] != StampOf(disk, p) {
            toAdd := toAdd + {p};
          }
        } else {
          toRemove := toRemove + {p};
        }
        rest := rest - {p};
      }
    }

    method AddAll(paths: set<Path>)
      requires Valid() && paths <= fileMap.Keys
      modifies this`fileMap, this`posted
      ensures Valid() && fileMap.Keys == old(fileMap).Keys
      ensures forall p :: p in fileMap ==>
        fileMap[p] == (if p in paths then Reloaded(disk, p, old(fileMap)[p]) else old(fileMap)[p])
      ensures old(posted) <= posted && ((forall p :: p in paths ==> !Loadable(disk, p)) ==> posted == old(posted))
    {
      var todo := paths;
      while todo != {}
        invariant Valid() && todo <= paths && fileMap.Keys == old(fileMap).Keys
        invariant forall p :: p in fileMap ==>
          fileMap[p] == (if p in paths && p !in todo then Reloaded(disk, p, old(fileMap)[p]) else old(fileMap)[p])
        invariant old(posted) <= posted && ((forall p :: p in paths ==> !Loadable(disk, p)) ==> posted == old(posted))
      {
        var p :| p in todo;
        var _ := AddFile(p);
        todo := todo - {p};
      }
    }

    method RemoveAll(paths: set<Path>)
      requires Valid() && paths <= fileMap.Keys
      modifies this`fileMap, this`posted
      ensures Valid() && fileMap == old(fileMap) - paths
      ensures old(posted) <= posted && (paths == {} ==> posted == old(posted))
    {
      var todo := paths;
      while todo != {}
        invariant Valid() && todo <= paths && fileMap == old(fileMap) - (paths - todo)
        invariant old(posted) <= posted && (paths == {} ==> posted == old(posted))
      {
        var p :| p in todo;
        RemoveFile(p);
        todo := todo - {p};
      }
    }

    /** One turn of the refresh thread's loop. It brings the map up to date, posts
        closures that do the same to every copy of the map, and posts nothing when
        nothing has to change. */
    method Refresh()
      requires Valid()
      modifies this
      ensures Valid() && directories == old(directories)
      ensures Refreshed(disk, directories, old(fileMap), fileMap)
      ensures old(posted) <= posted && Apply(old(fileMap), posted[|old(posted)|..]) == fileMap
      ensures fileMap == old(fileMap) ==> posted == old(posted)
    {
      mark := (fileMap, |posted|);
      ScanAll(directories);
      ghost var scanned := fileMap;
      var toAdd, toRemove := Compare();
      AddAll(toAdd);
      RemoveAll(toRemove);
      PassRefreshes(disk, directories, old(fileMap), scanned, fileMap);
    }

    /** The turn after a turn, on the same disk, changes nothing and posts nothing. */
    method RefreshAgain(ghost before: map<Path, Stamp>)
      requires Valid() && Refreshed(disk, directories, before, fileMap)
      modifies this
      ensures Valid() && fileMap == old(fileMap) && posted == old(posted) && directories == old(directories)
    {
      Refresh();
      RefreshIsIdempotent(disk, directories, before, old(fileMap), fileMap);
    }
  }
}
