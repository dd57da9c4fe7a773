/**
 The request router (src/core/router.h): a heap of 256-way node arrays indexed
 by path bytes, which behaves as a map with longest-prefix lookup.
*/
module Router {
  import opened Common

  newtype Byte = b: int | 0 <= b < 256
  type Path = seq<Byte>

  /** A `path_node`: nodes live by value inside their array. */
  datatype Node<F> = Node(term: bool, func: F, next: array?<Node<F>>)

  // ----- the abstract router

  /** The longest key of `m` that is a prefix of `p`, looking no further than `k` bytes. */
  ghost function LongestUpTo<F>(m: map<Path, F>, p: Path, k: nat): Option<Path>
    requires k <= |p|
  {
    if k == 0 then None
    else if p[..k] in m then Some(p[..k])
    else LongestUpTo(m, p, k - 1)
  }

  ghost function Longest<F>(m: map<Path, F>, p: Path): Option<Path> {
    LongestUpTo(m, p, |p|)
  }

  /** `Longest` is what its name says. */
  lemma {:induction false} LongestUpToIs<F>(m: map<Path, F>, p: Path, k: nat)
    requires k <= |p|
    ensures match LongestUpTo(m, p, k)
            case Some(q) => q in m && q <= p && 0 < |q| <= k && forall j :: |q| < j <= k ==> p[..j] !in m
            case None => forall j :: 0 < j <= k ==> p[..j] !in m
  {
    if k > 0 && p[..k] !in m { LongestUpToIs(m, p, k - 1); }
  }

  /** Looking further changes nothing when the map has no longer prefix of `p`. */
  lemma {:induction false} LongestUpToStops<F>(m: map<Path, F>, p: Path, k: nat, n: nat)
    requires k <= n <= |p| && forall j :: k < j <= n ==> p[..j] !in m
    ensures LongestUpTo(m, p, n) == LongestUpTo(m, p, k)
  {
    if k < n { LongestUpToStops(m, p, k, n - 1); }
  }

  /** The bindings after a sequence of `add_route` calls; the empty path is refused. */
  ghost function Bindings<F>(routes: seq<(Path, F)>): map<Path, F> {
    if routes == [] then map[]
    else
      var m, last := Bindings(routes[..|routes| - 1]), routes[|routes| - 1];
      if last.0 == [] then m else m[last.0 := last.1]
  }

  /** Route `i` is the last one added for its path. */
  ghost predicate LastFor<F>(routes: seq<(Path, F)>, i: nat) {
    i < |routes| && forall j :: i < j < |routes| ==> routes[j].0 != routes[i].0
  }

  lemma {:induction false} BindingsAre<F>(routes: seq<(Path, F)>)
    ensures forall q :: q in Bindings(routes) <==> q != [] && exists i :: 0 <= i < |routes| && routes[i].0 == q
    ensures forall i :: 0 <= i < |routes| && routes[i].0 != [] && LastFor(routes, i) ==>
      routes[i].0 in Bindings(routes) && Bindings(routes)[routes[i].0] == routes[i].1
  {
    if routes != [] {
      var n := |routes| - 1;
      var init := routes[..n];
      BindingsAre(init);
      forall i | 0 <= i < |routes| && routes[i].0 != [] && LastFor(routes, i)
        ensures routes[i].0 in Bindings(routes) && Bindings(routes)[routes[i].0] == routes[i].1
      {
        if i < n {
          assert init[i] == routes[i] && routes[n].0 != routes[i].0;
          assert LastFor(init, i);
        }
      }
      forall q
        ensures q in Bindings(routes) <==> q != [] && exists i :: 0 <= i < |routes| && routes[i].0 == q
      {
        if i :| 0 <= i < |routes| && routes[i].0 == q && q != [] {
          assert i < n ==> init[i].0 == q;
        }
      }
    }
  }

  /** Route `i` decides requests for `p`: its path is a prefix of `p`, no added path
      is a longer one, and nothing was added for the same path later. */
  ghost predicate Decides<F>(routes: seq<(Path, F)>, p: Path, i: nat) {
    && LastFor(routes, i)
    && routes[i].0 != [] && routes[i].0 <= p
    && forall j :: 0 <= j < |routes| && routes[j].0 <= p ==> |routes[j].0| <= |routes[i].0|
  }

  lemma {:induction false} SomeLast<F>(routes: seq<(Path, F)>, q: Path) returns (i: nat)
    requires exists j :: 0 <= j < |routes| && routes[j].0 == q
    ensures LastFor(routes, i) && routes[i].0 == q
  {
    var n := |routes| - 1;
    if routes[n].0 == q {
      i := n;
    } else {
      var init := routes[..n];
      var j :| 0 <= j < |routes| && routes[j].0 == q;
      assert init[j].0 == q;
      i := SomeLast(init, q);
    }
  }

  /** After any sequence of `add_route` calls, looking `p` up finds nothing exactly when
      no non-empty added path is a prefix of `p`. Otherwise some route decides `p`, and
      whichever does, the lookup gives its function. */
  lemma LookupAfterRoutes<F>(routes: seq<(Path, F)>, p: Path)
    ensures
      var m, q := Bindings(routes), Longest(Bindings(routes), p);
      && (q.None? <==> forall i :: 0 <= i < |routes| && routes[i].0 <= p ==> routes[i].0 == [])
      && (q.Some? ==> q.value in m)
      && (q.Some? <==> exists i: nat :: Decides(routes, p, i))
      && forall i: nat :: Decides(routes, p, i) ==> q == Some(routes[i].0) && m[q.value] == routes[i].1
  {
    var m, q := Bindings(routes), Longest(Bindings(routes), p);
    BindingsAre(routes);
    LongestUpToIs(m, p, |p|);
    forall i | 0 <= i < |routes| && routes[i].0 <= p && routes[i].0 != []
      ensures q.Some? && |routes[i].0| <= |q.value|
    {
      assert routes[i].0 == p[..|routes[i].0|] && routes[i].0 in m;
    }
    forall i: nat | Decides(routes, p, i)
      ensures q == Some(routes[i].0) && m[q.value] == routes[i].1
    {
      var j :| 0 <= j < |routes| && routes[j].0 == q.value;
      assert |q.value| == |routes[i].0|;
      assert q.value == p[..|q.value|] == routes[i].0;
    }
    if q.Some? {
      var i := SomeLast(routes, q.value);
      assert Decides(routes, p, i);
    }
  }

  /** What a lookup of `p` in `m` gives. */
  ghost function Lookup<F>(m: map<Path, F>, p: Path): Option<F> {
    LongestUpToIs(m, p, |p|);
    match Longest(m, p) case Some(q) => Some(m[q]) case None => None
  }

  /** It is the binding of the longest bound prefix, and nothing if there is none. */
  lemma LookupIs<F>(m: map<Path, F>, p: Path)
    ensures forall k: nat {:trigger p[..k]} ::
      (0 < k <= |p| && p[..k] in m && (forall j :: k < j <= |p| ==> p[..j] !in m) ==> Lookup(m, p) == Some(m[p[..k]]))
    ensures Lookup(m, p).None? <==> forall k :: 0 < k <= |p| ==> p[..k] !in m
  {
    LongestUpToIs(m, p, |p|);
    forall k: nat {:trigger p[..k]} | 0 < k <= |p| && p[..k] in m && forall j :: k < j <= |p| ==> p[..j] !in m
      ensures Lookup(m, p) == Some(m[p[..k]])
    {
      var q := Longest(m, p).value;
      assert q == p[..|q|];
      assert |q| == k;
    }
    if Longest(m, p).Some? {
      assert Longest(m, p).value == p[..|Longest(m, p).value|];
    }
  }

  // ----- the trie

  /** All but the last byte. */
  ghost function Init(p: Path): Path
    requires p != []
  {
    p[..|p| - 1]
  }

  lemma InitLast(p: Path, q: Path)
    requires p != [] && q != [] && Init(p) == Init(q) && p[|p| - 1] == q[|q| - 1]
    ensures p == q
  {
    assert p == Init(p) + [p[|p| - 1]] && q == Init(q) + [q[|q| - 1]];
  }

  /**
   The `path_set`. The ghost map `levels` names every node array by the bytes
   that lead to it, so a node array hangs below exactly one node.
  */
  class PathSet<F> {
    const empty: F
    const root: array<Node<F>>
    ghost var levels: map<Path, array<Node<F>>>
    ghost var bindings: map<Path, F>

    /** Every level is an array of 256 nodes, and no two levels share one. */
    ghost predicate Arrays()
      reads this
    {
      && [] in levels && levels[[]] == root
      && (forall p :: p in levels ==> levels[p].Length == 256)
      && (forall p, q :: p in levels && q in levels && levels[p] == levels[q] ==> p == q)
      && (forall p :: p in levels && p != [] ==> Init(p) in levels)
    }

    /** The node that a path ends at. */
    ghost function NodeOf(p: Path): Node<F>
      requires Arrays() && p != [] && Init(p) in levels
      reads this, levels.Values
    {
      levels[Init(p)][p[|p| - 1] as int]
    }

    /** The `next` pointers link the levels into a tree, and the terminal nodes
        hold the bindings. */
    ghost predicate Valid()
      reads this, levels.Values
    {
      && Arrays()
      && (forall p :: p in bindings ==> p != [] && Init(p) in levels)
      && (forall p :: p != [] && Init(p) in levels ==>
            && NodeOf(p).next == (if p in levels then levels[p] else null)
            && (NodeOf(p).term <==> p in bindings)
            && (p in bindings ==> bindings[p] == NodeOf(p).func))
    }

    constructor (empty: F)
      ensures Valid() && bindings == map[] && fresh(levels.Values)
    {
      var a := new Node<F>[256](_ => Node(false, empty, null));
      this.empty := empty;
      root := a;
      levels := map[[] := a];
      bindings := map[];
    }

    /** `node.term = true; node.func = func`, where `a` is the array of the path's last node. */
    method SetTerm(path: Path, func: F, a: array<Node<F>>)
      requires Valid() && path != [] && Init(path) in levels && levels[Init(path)] == a
      modifies this`bindings, a
      ensures Valid() && bindings == old(bindings)[path := func]
    {
      var c := path[|path| - 1] as int;
      a[c] := a[c].(term := true, func := func);
      bindings := bindings[path := func];
      forall p | p != [] && Init(p) in levels && p != path
        ensures NodeOf(p) == old(NodeOf(p))
      {
        if Init(p) == Init(path) && p[|p| - 1] == path[|path| - 1] { InitLast(p, path); }
      }
    }

    /** `new node_type[256]`. */
    method NewLevel() returns (b: array<Node<F>>)
      ensures fresh(b) && b.Length == 256
      ensures forall i :: 0 <= i < 256 ==> b[i] == Node(false, empty, null)
    {
      b := new Node<F>[256](_ => Node(false, empty, null));
    }

    /** `node.next = new node_type[256]`, where `a` is the array of the path's last node. */
    method Grow(path: Path, a: array<Node<F>>)
      requires Valid() && path != [] && Init(path) in levels && levels[Init(path)] == a
      requires path !in levels
      modifies this`levels, a
      ensures Valid() && path in levels && fresh(levels[path]) && levels == old(levels)[path := levels[path]]
    {
      var b := NewLevel();
      var c := path[|path| - 1] as int;
      a[c] := a[c].(next := b);
      levels := levels[path := b];
      assert Arrays();
      forall p | p != [] && Init(p) in old(levels) && p != path
        ensures NodeOf(p) == old(NodeOf(p))
      {
        assert levels[Init(p)] == old(levels)[Init(p)];
        if Init(p) == Init(path) && p[|p| - 1] == path[|path| - 1] { InitLast(p, path); }
      }
      forall p | p != [] && Init(p) == path
        ensures NodeOf(p) == Node(false, empty, null) && p !in levels && p !in bindings
      {
      }
    }

    /** One step down the trie, where `a` is the array of the path's last node. */
    method Descend(path: Path, a: array<Node<F>>) returns (next: array<Node<F>>)
      requires Valid() && path != [] && Init(path) in levels && levels[Init(path)] == a
      modifies this`levels, a
      ensures Valid() && path in levels && levels[path] == next
      ensures path in old(levels) ==> levels == old(levels)
      ensures path !in old(levels) ==> fresh(next) && levels == old(levels)[path := next]
    {
      var c := path[|path| - 1] as int;
      assert a[c] == NodeOf(path);
      if a[c].next == null {
        Grow(path, a);
        assert a[c] == NodeOf(path);
      }
      next := a[c].next;
    }

    /** Adds or replaces the function of a path; the empty path is refused. */
    method Insert(path: Path, func: F) returns (ok: bool)
      requires Valid()
      modifies this`levels, this`bindings, levels.Values
      ensures Valid() && fresh(levels.Values - old(levels.Values))
      ensures ok == (path != [])
      ensures bindings == if ok then old(bindings)[path := func] else old(bindings)
    {
      var next := root;
      assert path[..0] == [];
      for i := 0 to |path|
        invariant Valid() && fresh(levels.Values - old(levels.Values))
        invariant path[..i] in levels && levels[path[..i]] == next
        invariant bindings == old(bindings)
        invariant i == |path| ==> path == []
      {
        assert Init(path[..i + 1]) == path[..i];
        if i == |path| - 1 {
          assert path[..i + 1] == path;
          SetTerm(path, func, next);
          return true;
        }
        next := Descend(path[..i + 1], next);
      }
      return false;
    }

    /** Below a missing level there is nothing. */
    lemma NothingDeeper(p: Path, k: nat, j: nat)
      requires Valid() && k < j <= |p| && p[..k] !in levels
      ensures p[..j] !in bindings && p[..j] !in levels
      decreases j
    {
      assert Init(p[..j]) == p[..j - 1];
      if k < j - 1 { NothingDeeper(p, k, j - 1); }
    }

    /** The function of the longest inserted prefix of `path`, if there is one. */
    method Find(path: Path) returns (r: Option<F>)
      requires Valid()
      ensures forall k: nat {:trigger path[..k]} ::
        (0 < k <= |path| && path[..k] in bindings && (forall j :: k < j <= |path| ==> path[..j] !in bindings) ==>
           r == Some(bindings[path[..k]]))
      ensures r.None? <==> forall k :: 0 < k <= |path| ==> path[..k] !in bindings
      ensures r == Lookup(bindings, path)
    {
      var next := root;
      r := None;
      assert path[..0] == [];
      for i := 0 to |path|
        invariant path[..i] in levels && levels[path[..i]] == next
        invariant match LongestUpTo(bindings, path, i)
                  case Some(q) => q in bindings && r == Some(bindings[q])
                  case None => r == None
      {
        var node := next[path[i] as int];
        assert Init(path[..i + 1]) == path[..i] && node == NodeOf(path[..i + 1]);
        if node.term {
          r := Some(node.func);
        }
        if node.next == null {
          forall j | i + 1 < j <= |path|
            ensures path[..j] !in bindings
          {
            NothingDeeper(path, i + 1, j);
          }
          LongestUpToStops(bindings, path, i + 1, |path|);
          LookupIs(bindings, path);
          return;
        }
        next := node.next;
      }
      LookupIs(bindings, path);
    }
  }

  /** The `router`: a path set and the function that answers 404. */
  class Router<F> {
    const paths: PathSet<F>
    const defaultFunc: F

    ghost predicate Valid()
      reads this, paths, paths.levels.Values
    {
      paths.Valid()
    }

    constructor (notFound: F, empty: F)
      ensures Valid() && paths.bindings == map[] && defaultFunc == notFound
      ensures fresh(paths) && fresh(paths.levels.Values)
    {
      paths := new PathSet(empty);
      defaultFunc := notFound;
    }

    /** False when the source throws. */
    method AddRoute(path: Path, func: F) returns (ok: bool)
      requires Valid()
      modifies paths`levels, paths`bindings, paths.levels.Values
      ensures Valid() && fresh(paths.levels.Values - old(paths.levels.Values))
      ensures ok == (path != [])
      ensures paths.bindings == if ok then old(paths.bindings)[path := func] else old(paths.bindings)
    {
      ok := paths.Insert(path, func);
    }

    /** The function of the longest bound prefix, else the default. */
    method FindRoute(path: Path) returns (func: F)
      requires Valid()
      ensures forall k: nat {:trigger path[..k]} :: 0 < k <= |path| && path[..k] in paths.bindings ==>
        (forall j :: k < j <= |path| ==> path[..j] !in paths.bindings) ==> func == paths.bindings[path[..k]]
      ensures (forall k :: 0 < k <= |path| ==> path[..k] !in paths.bindings) ==> func == defaultFunc
      ensures func == match Lookup(paths.bindings, path) case Some(f) => f case None => defaultFunc
    {
      var r := paths.Find(path);
      match r {
        case Some(f) => func := f;
        case None => func := defaultFunc;
      }
    }

    /** Any sequence of calls leaves the bindings that the sequence defines. */
    method AddRoutes(routes: seq<(Path, F)>)
      requires Valid() && paths.bindings == map[]
      modifies paths`levels, paths`bindings, paths.levels.Values
      ensures Valid() && paths.bindings == Bindings(routes)
    {
      for i := 0 to |routes|
        invariant Valid() && fresh(paths.levels.Values - old(paths.levels.Values))
        invariant paths.bindings == Bindings(routes[..i])
      {
        var _ := AddRoute(routes[i].0, routes[i].1);
        assert routes[..i + 1][..i] == routes[..i];
      }
      assert routes[..|routes|] == routes;
    }

    /** A request after any series of calls: of the added paths that are prefixes of the
        request's, the longest decides, and of the routes added for it the last; without
        a non-empty one the default does. */
    method RouteAfter(routes: seq<(Path, F)>, path: Path) returns (func: F)
      requires Valid() && paths.bindings == map[]
      modifies paths`levels, paths`bindings, paths.levels.Values
      ensures Valid()
      ensures forall i :: 0 <= i < |routes| && routes[i].0 != [] && routes[i].0 <= path ==>
        (forall j :: 0 <= j < |routes| && routes[j].0 <= path ==> |routes[j].0| <= |routes[i].0|) ==>
        (forall j :: i < j < |routes| ==> routes[j].0 != routes[i].0) ==>
          func == routes[i].1
      ensures (forall i :: 0 <= i < |routes| && routes[i].0 <= path ==> routes[i].0 == []) ==> func == defaultFunc
    {
      AddRoutes(routes);
      LookupAfterRoutes(routes, path);
      func := FindRoute(path);
      forall i: nat | i < |routes| && routes[i].0 != [] && routes[i].0 <= path
        && (forall j :: 0 <= j < |routes| && routes[j].0 <= path ==> |routes[j].0| <= |routes[i].0|)
        && (forall j :: i < j < |routes| ==> routes[j].0 != routes[i].0)
        ensures func == routes[i].1
      {
        assert Decides(routes, path, i);
      }
    }
  }
}
