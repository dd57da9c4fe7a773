/**
 The Lua state pool (src/core/lua_state_manager.cpp): a lock-protected global
 cache that a watcher thread refills, one unlocked cache per worker thread, and
 request handlers that take a state and give it back.
*/
module StatePool {
  import opened Common

  type Id = nat
  type Worker = nat
  type Handler = nat

  /** The watcher thread: about to test the stop flag, sleeping, in its creation loop
      with `todo` turns to go and perhaps a finished state in hand, or gone. */
  datatype Watcher = Checking | Asleep | Refilling(todo: nat, hand: Option<Id>) | Exited

  /** A handler runs on one worker thread and holds one state. */
  datatype Request = Request(w: Worker, id: Id)

  /** `locals` has the workers whose thread-local cache exists. `objects` counts the
      library objects registered with a state. As history, `next` numbers the
      created states, `destroyed` lists the destroyed ones and `lost` those whose
      handler threw. */
  datatype State = State(
    bufferSize: int,
    global: seq<Id>,
    locals: map<Worker, seq<Id>>,
    requests: map<Handler, Request>,
    objects: map<Id, nat>,
    watcher: Watcher,
    stop: bool,
    next: nat,
    destroyed: seq<Id>,
    lost: seq<Id>)

  datatype Event =
    | CreateLocal(w: Worker)                      // the closure of register_io_service runs
    | DestroyLocal(w: Worker)                     // the closure of unregister_io_service runs
    | Get(h: Handler, w: Worker, created: bool)   // get_state; `created`: a needed creation succeeds
    | AddObject(h: Handler)                       // the handler registers a library object
    | Free(h: Handler)                            // free_state
    | Throw(h: Handler)                           // the handler throws before free_state
    | Check
    | Decide
    | Make(created: bool)
    | Store
    | SetStop
    | Destroy                                     // the destructor, after the watcher is joined

  // ----- the watcher's arithmetic

  const TWO_31: int := 0x8000_0000
  const TWO_64: int := 0x1_0000_0000_0000_0000

  /** `to_create = buffer_size - m_state_cache.size()`: int to size_t, unsigned
      subtraction, cut to 32 bits. */
  function ToCreate(bufferSize: int, size: nat): nat {
    ((bufferSize % TWO_64 - size) % TWO_64) % TWO_32
  }

  /** `int i = to_create`. */
  function ToInt(u: nat): int {
    if u < TWO_31 then u else u - TWO_32
  }

  /** How often the loop `for (int i = to_create; i > 0; --i)` runs. */
  function Turns(bufferSize: int, size: nat): nat {
    var i := ToInt(ToCreate(bufferSize, size));
    if i > 0 then i else 0
  }

  lemma ToCreateIs(bufferSize: int, size: nat)
    ensures ToCreate(bufferSize, size) == (bufferSize - size) % TWO_32
  {
    var a, q := bufferSize % TWO_64, bufferSize / TWO_64;
    var b, r := (a - size) % TWO_64, (a - size) / TWO_64;
    assert bufferSize - size == b + (q + r) * TWO_64;
    SameRemainder(b, (q + r) * TWO_32);
  }

  lemma SameRemainder(x: int, k: int)
    ensures (x + k * TWO_32) % TWO_32 == x % TWO_32
  {
    var q, m := x / TWO_32, x % TWO_32;
    assert x + k * TWO_32 == (q + k) * TWO_32 + m;
    RemainderUnique(x + k * TWO_32, q + k, m);
  }

  /** The loop creates exactly the missing states, whatever the conversions do on the
      way, as long as the cache does not exceed the buffer size by more than 2^31
      (modulo 2^32). */
  lemma TurnsAreExact(bufferSize: int, size: nat)
    requires -TWO_31 <= bufferSize < TWO_31
    ensures
      var missing := if bufferSize > size then bufferSize - size else 0;
      Turns(bufferSize, size) == missing <==> size <= bufferSize || (size - bufferSize) % TWO_32 <= TWO_31
  {
    ToCreateIs(bufferSize, size);
    var d := size - bufferSize;
    if d > 0 {
      var q, m := d / TWO_32, d % TWO_32;
      assert -d == (-q) * TWO_32 - m;
      if m == 0 {
        RemainderUnique(-d, -q, 0);
      } else {
        RemainderUnique(-d, -q - 1, TWO_32 - m);
      }
    } else {
      RemainderUnique(-d, 0, -d);
    }
  }

  /** The least buffer size an int can hold, with one state in the cache: none is
      missing, yet the loop would create over two billion. */
  lemma NegativeBufferRefills()
    ensures Turns(-TWO_31, 1) == TWO_31 - 1
  {
    ToCreateIs(-TWO_31, 1);
    RemainderUnique(-TWO_31 - 1, -1, TWO_31 - 1);
  }

  // ----- steps

  predicate Enabled(s: State, e: Event) {
    match e
    case CreateLocal(w) => w !in s.locals
    case DestroyLocal(w) => w in s.locals
    case Get(h, _, _) => h !in s.requests
    case AddObject(h) => h in s.requests
    case Free(h) => h in s.requests
    case Throw(h) => h in s.requests
    case Check => s.watcher.Checking?
    case Decide => s.watcher.Asleep?
    case Make(_) => s.watcher.Refilling? && s.watcher.hand.None? && s.watcher.todo > 0
    case Store => s.watcher.Refilling? && s.watcher.hand.Some? && s.watcher.todo > 0
    case SetStop => true
    case Destroy => s.watcher.Exited? && s.requests == map[]
  }

  /** The creation loop is left when no turn remains. */
  function Loop(todo: nat): Watcher {
    if todo == 0 then Checking else Refilling(todo, None)
  }

  function Init(bufferSize: int): State {
    State(bufferSize, [], map[], map[], map[], Checking, false, 0, [], [])
  }

  function Step(s: State, e: Event): State
    requires Enabled(s, e)
  {
    match e
    case CreateLocal(w) => s.(locals := s.locals[w := []])
    case DestroyLocal(w) =>
      s.(locals := s.locals - {w}, destroyed := s.destroyed + s.locals[w])
    case Get(h, w, created) =>
      if w in s.locals && s.locals[w] != [] then
        var n := |s.locals[w]| - 1;
        s.(locals := s.locals[w := s.locals[w][..n]], requests := s.requests[h := Request(w, s.locals[w][n])])
      else if s.global != [] then
        var n := |s.global| - 1;
        s.(global := s.global[..n], requests := s.requests[h := Request(w, s.global[n])])
      else if created then
        s.(next := s.next + 1, requests := s.requests[h := Request(w, s.next)])
      else s  // create_state throws: the handler never had a state
    case AddObject(h) =>
      var id := s.requests[h].id;
      s.(objects := s.objects[id := Objects(s, id) + 1])
    case Free(h) =>
      var r := s.requests[h];
      var t := s.(requests := s.requests - {h}, objects := s.objects - {r.id});
      if r.w in s.locals then t.(locals := s.locals[r.w := s.locals[r.w] + [r.id]])
      else t.(global := s.global + [r.id])
    case Throw(h) => s.(requests := s.requests - {h}, lost := s.lost + [s.requests[h].id])
    case Check => s.(watcher := if s.stop then Exited else Asleep)
    case Decide => s.(watcher := Loop(Turns(s.bufferSize, |s.global|)))
    case Make(created) =>
      if created then s.(watcher := s.watcher.(hand := Some(s.next)), next := s.next + 1)
      else s.(watcher := Checking)
    case Store =>
      s.(global := s.global + [s.watcher.hand.value], watcher := Loop(s.watcher.todo - 1))
    case SetStop => s.(stop := true)
    case Destroy => s.(global := [], destroyed := s.destroyed + s.global)
  }

  function Objects(s: State, id: Id): nat {
    if id in s.objects then s.objects[id] else 0
  }

  ghost predicate IsRun(s: State, es: seq<Event>)
    decreases |es|
  {
    es == [] || (Enabled(s, es[0]) && IsRun(Step(s, es[0]), es[1..]))
  }

  ghost function Exec(s: State, es: seq<Event>): State
    requires IsRun(s, es)
    decreases |es|
  {
    if es == [] then s else Exec(Step(s, es[0]), es[1..])
  }

  /** What can happen when. */
  lemma PossibleSteps(s: State, h: Handler, w: Worker, created: bool)
    ensures Enabled(s, Get(h, w, created)) <==> h !in s.requests
    ensures (Enabled(s, Free(h)) <==> h in s.requests) && (Enabled(s, Throw(h)) <==> h in s.requests)
    ensures Enabled(s, AddObject(h)) <==> h in s.requests
    ensures (Enabled(s, CreateLocal(w)) <==> w !in s.locals) && (Enabled(s, DestroyLocal(w)) <==> w in s.locals)
    ensures (Enabled(s, Check) <==> s.watcher.Checking?) && (Enabled(s, Decide) <==> s.watcher.Asleep?)
    ensures Enabled(s, SetStop) && (Enabled(s, Destroy) <==> s.watcher.Exited? && s.requests == map[])
  {
  }

  /** A run is one possible step after the other. */
  lemma RunIs(s: State, e: Event, rest: seq<Event>)
    ensures IsRun(s, []) && Exec(s, []) == s
    ensures IsRun(s, [e] + rest) <==> Enabled(s, e) && IsRun(Step(s, e), rest)
    ensures IsRun(s, [e] + rest) ==> Exec(s, [e] + rest) == Exec(Step(s, e), rest)
  {
    assert ([e] + rest)[1..] == rest;
  }

  // ----- every state is in exactly one place

  datatype Place = Global | Local(w: Worker) | Held(h: Handler) | Hand | Destroyed | Lost

  /** What a place holds. */
  function At(s: State, p: Place): seq<Id> {
    match p
    case Global => s.global
    case Local(w) => if w in s.locals then s.locals[w] else []
    case Held(h) => if h in s.requests then [s.requests[h].id] else []
    case Hand => if s.watcher.Refilling? && s.watcher.hand.Some? then [s.watcher.hand.value] else []
    case Destroyed => s.destroyed
    case Lost => s.lost
  }

  type Layout = Place -> seq<Id>

  ghost function LayoutOf(s: State): Layout {
    p => At(s, p)
  }

  ghost predicate Somewhere(a: Layout, id: Id) {
    exists p :: id in a(p)
  }

  /** The first `n` states, and no others, are each in one place, once. */
  ghost predicate Partition(a: Layout, n: nat) {
    && (forall p :: NoDup(a(p)))
    && (forall p, q, id: Id :: id in a(p) && id in a(q) ==> p == q)
    && (forall id: Id :: Somewhere(a, id) <==> id < n)
  }

  /** `b` is `a` with the tail `ids` of one place moved to the end of another. */
  ghost predicate Moves(a: Layout, b: Layout, from: Place, ids: seq<Id>, to: Place) {
    && from != to
    && a(from) == b(from) + ids
    && b(to) == a(to) + ids
    && (forall p :: p != from && p != to ==> b(p) == a(p))
  }

  lemma SplitNoDup(x: seq<Id>, y: seq<Id>)
    ensures NoDup(x + y) <==> NoDup(x) && NoDup(y) && forall id: Id :: !(id in x && id in y)
  {
    var z := x + y;
    assert forall i :: 0 <= i < |x| ==> z[i] == x[i];
    assert forall i :: 0 <= i < |y| ==> z[|x| + i] == y[i];
    if NoDup(x) && NoDup(y) && forall id: Id :: !(id in x && id in y) {
      forall i, j | 0 <= i < j < |z|
        ensures z[i] != z[j]
      {
        if i < |x| <= j { assert z[i] in x && z[j] in y; }
      }
    }
  }

  /** Where a state of `b` was in `a`. */
  lemma MovedFrom(a: Layout, b: Layout, from: Place, ids: seq<Id>, to: Place, p: Place, id: Id)
    requires Moves(a, b, from, ids, to) && id in b(p)
    ensures id in a(if p == to && id in ids then from else p)
  {
    if p == to {
      assert id in a(to) || id in ids;
    }
  }

  /** Moving keeps every state in exactly one place. */
  lemma MoveKeeps(a: Layout, b: Layout, n: nat, from: Place, ids: seq<Id>, to: Place)
    requires Partition(a, n) && Moves(a, b, from, ids, to)
    ensures Partition(b, n)
  {
    assert forall id: Id :: id in ids ==> id in a(from) && id !in a(to);
    assert NoDup(a(from)) && NoDup(a(to));
    SplitNoDup(b(from), ids);
    SplitNoDup(a(to), ids);
    forall p
      ensures NoDup(b(p))
    {
      assert NoDup(a(p));
    }
    forall p, q, id: Id | id in b(p) && id in b(q)
      ensures p == q
    {
      MovedFrom(a, b, from, ids, to, p, id);
      MovedFrom(a, b, from, ids, to, q, id);
    }
    forall id: Id
      ensures Somewhere(b, id) <==> id < n
    {
      if Somewhere(b, id) {
        var p :| id in b(p);
        MovedFrom(a, b, from, ids, to, p, id);
        assert Somewhere(a, id);
      }
      if id < n {
        assert Somewhere(a, id);
        var p :| id in a(p);
        assert id in b(p) || id in b(to);
      }
    }
  }

  /** Creating puts the new state in one place. */
  lemma CreateKeeps(a: Layout, b: Layout, n: nat, to: Place)
    requires Partition(a, n)
    requires b(to) == a(to) + [n] && forall p :: p != to ==> b(p) == a(p)
    ensures Partition(b, n + 1)
  {
    assert !Somewhere(a, n);
    assert forall p :: n !in a(p);
    forall p
      ensures NoDup(b(p))
    {
      assert NoDup(a(p));
    }
    forall id: Id
      ensures Somewhere(b, id) <==> id < n + 1
    {
      if Somewhere(b, id) {
        var p :| id in b(p);
        assert id in a(p) || id == n;
        assert id in a(p) ==> Somewhere(a, id);
      }
      if id < n {
        assert Somewhere(a, id);
        var p :| id in a(p);
        assert id in b(p);
      }
      if id == n {
        assert b(to)[|a(to)|] == n;
      }
    }
  }

  lemma SameKeeps(a: Layout, b: Layout, n: nat)
    requires Partition(a, n) && forall p :: b(p) == a(p)
    ensures Partition(b, n)
  {
    forall p
      ensures NoDup(b(p))
    {
      assert NoDup(a(p));
    }
    forall id: Id
      ensures Somewhere(b, id) <==> Somewhere(a, id)
    {
      if Somewhere(a, id) {
        var p :| id in a(p);
        assert id in b(p);
      }
      if Somewhere(b, id) {
        var p :| id in b(p);
        assert id in a(p);
      }
    }
  }

  /** A pooled or destroyed state has no library objects, and neither has a state
      that does not exist yet. */
  ghost predicate Clean(s: State) {
    && (forall p, id: Id :: id in At(s, p) && !p.Held? && !p.Lost? ==> Objects(s, id) == 0)
    && (forall id: Id :: id >= s.next ==> Objects(s, id) == 0)
  }

  ghost predicate Inv(s: State) {
    Partition(LayoutOf(s), s.next) && Clean(s)
  }

  lemma GetFromCache(s: State, t: State, h: Handler, w: Worker, from: Place, id: Id)
    requires Inv(s) && h !in s.requests && t.next == s.next && t.requests == s.requests[h := Request(w, id)]
    requires t.watcher == s.watcher && t.destroyed == s.destroyed && t.lost == s.lost
    requires At(s, from) == At(t, from) + [id]
    requires
      || (from.Global? && t.locals == s.locals)
      || (from.Local? && t.global == s.global && from.w in s.locals && t.locals == s.locals[from.w := At(t, from)])
    ensures Partition(LayoutOf(t), t.next)
  {
    MoveKeeps(LayoutOf(s), LayoutOf(t), s.next, from, [id], Held(h));
  }

  lemma GetPlaces(s: State, h: Handler, w: Worker, created: bool)
    requires Inv(s) && Enabled(s, Get(h, w, created))
    ensures var t := Step(s, Get(h, w, created)); Partition(LayoutOf(t), t.next)
  {
    var t := Step(s, Get(h, w, created));
    if w in s.locals && s.locals[w] != [] {
      var n := |s.locals[w]| - 1;
      assert s.locals[w] == s.locals[w][..n] + [s.locals[w][n]];
      assert At(t, Local(w)) == s.locals[w][..n];
      GetFromCache(s, t, h, w, Local(w), s.locals[w][n]);
    } else if s.global != [] {
      var n := |s.global| - 1;
      assert s.global == s.global[..n] + [s.global[n]];
      GetFromCache(s, t, h, w, Global, s.global[n]);
    } else if created {
      CreateKeeps(LayoutOf(s), LayoutOf(t), s.next, Held(h));
    }
  }

  lemma FreePlaces(s: State, h: Handler)
    requires Inv(s) && Enabled(s, Free(h))
    ensures var t := Step(s, Free(h)); Partition(LayoutOf(t), t.next)
  {
    var r, t := s.requests[h], Step(s, Free(h));
    MoveKeeps(LayoutOf(s), LayoutOf(t), s.next, Held(h), [r.id], if r.w in s.locals then Local(r.w) else Global);
  }

  lemma DestroyLocalPlaces(s: State, w: Worker)
    requires Inv(s) && Enabled(s, DestroyLocal(w))
    ensures var t := Step(s, DestroyLocal(w)); Partition(LayoutOf(t), t.next)
  {
    MoveKeeps(LayoutOf(s), LayoutOf(Step(s, DestroyLocal(w))), s.next, Local(w), s.locals[w], Destroyed);
  }

  lemma WatcherPlaces(s: State, e: Event)
    requires Inv(s) && Enabled(s, e) && (e.Make? || e.Store?)
    ensures var t := Step(s, e); Partition(LayoutOf(t), t.next)
  {
    var t := Step(s, e);
    var a, b := LayoutOf(s), LayoutOf(t);
    if e.Store? {
      MoveKeeps(a, b, s.next, Hand, [s.watcher.hand.value], Global);
    } else if e.created {
      CreateKeeps(a, b, s.next, Hand);
    } else {
      SameKeeps(a, b, s.next);
    }
  }

  lemma PlacesStep(s: State, e: Event)
    requires Inv(s) && Enabled(s, e)
    ensures var t := Step(s, e); Partition(LayoutOf(t), t.next)
  {
    var t := Step(s, e);
    var a, b := LayoutOf(s), LayoutOf(t);
    match e
    case DestroyLocal(w) => DestroyLocalPlaces(s, w);
    case Get(h, w, created) => GetPlaces(s, h, w, created);
    case Free(h) => FreePlaces(s, h);
    case Throw(h) => MoveKeeps(a, b, s.next, Held(h), [s.requests[h].id], Lost);
    case Make(_) => WatcherPlaces(s, e);
    case Store => WatcherPlaces(s, e);
    case Destroy => MoveKeeps(a, b, s.next, Global, s.global, Destroyed);
    case _ => SameKeeps(a, b, s.next);
  }

  lemma HeldExists(s: State, h: Handler)
    requires Inv(s) && h in s.requests
    ensures s.requests[h].id < s.next
    ensures forall p :: s.requests[h].id in At(s, p) ==> p == Held(h)
  {
    var a, id := LayoutOf(s), s.requests[h].id;
    assert id in a(Held(h));
    assert Somewhere(a, id);
    assert forall p :: At(s, p) == a(p);
  }

  /** Only a handler's own state gains objects, and giving it back deletes them. */
  lemma ObjectsStep(s: State, e: Event, id: Id)
    requires Enabled(s, e)
    ensures Objects(Step(s, e), id) ==
      if e.AddObject? && id == s.requests[e.h].id then Objects(s, id) + 1
      else if e.Free? && id == s.requests[e.h].id then 0
      else Objects(s, id)
  {
  }

  /** A state that a pool or the graveyard gains comes from a pool, from the handler
      that gives it back, or is new. */
  lemma PooledFrom(s: State, e: Event, p: Place, id: Id)
    requires Inv(s) && Enabled(s, e) && id in At(Step(s, e), p) && !p.Held? && !p.Lost?
    ensures
      || (exists q :: id in At(s, q) && !q.Held? && !q.Lost?)
      || (e.Free? && id == s.requests[e.h].id)
      || id == s.next
  {
    match e
    case DestroyLocal(w) => assert id in At(s, p) || id in At(s, Local(w));
    case Destroy => assert id in At(s, p) || id in At(s, Global);
    case Store => assert id in At(s, p) || id in At(s, Hand);
    case Make(_) => assert id in At(s, p) || id == s.next;
    case Free(h) => assert id in At(s, p) || id == s.requests[h].id;
    case _ => assert id in At(s, p);
  }

  lemma CleanStep(s: State, e: Event)
    requires Inv(s) && Enabled(s, e)
    ensures Clean(Step(s, e))
  {
    var t := Step(s, e);
    if e.AddObject? || e.Free? { HeldExists(s, e.h); }
    forall p, id: Id | id in At(t, p) && !p.Held? && !p.Lost?
      ensures Objects(t, id) == 0
    {
      PooledFrom(s, e, p, id);
      ObjectsStep(s, e, id);
    }
    forall id: Id | id >= t.next
      ensures Objects(t, id) == 0
    {
      ObjectsStep(s, e, id);
    }
  }

  lemma InvInit(bufferSize: int)
    ensures Inv(Init(bufferSize))
  {
    var a := LayoutOf(Init(bufferSize));
    assert forall p :: a(p) == [];
  }

  /** One step of anyone keeps the invariant. */
  lemma InvStep(s: State, e: Event)
    requires Inv(s) && Enabled(s, e)
    ensures Inv(Step(s, e))
  {
    PlacesStep(s, e);
    CleanStep(s, e);
  }

  lemma {:induction false} InvRun(s: State, es: seq<Event>)
    requires Inv(s) && IsRun(s, es)
    ensures Inv(Exec(s, es))
    decreases |es|
  {
    if es != [] {
      InvStep(s, es[0]);
      InvRun(Step(s, es[0]), es[1..]);
    }
  }

  // ----- what every run guarantees

  /** At every moment each state ever created is in exactly one place and listed
      there once; so no two handlers share a state, and none is destroyed twice. */
  lemma OnePlace(bufferSize: int, es: seq<Event>)
    requires IsRun(Init(bufferSize), es)
    ensures
      var s := Exec(Init(bufferSize), es);
      && (forall p :: NoDup(At(s, p)))
      && (forall p, q, id: Id :: id in At(s, p) && id in At(s, q) ==> p == q)
      && (forall id: Id :: Somewhere(LayoutOf(s), id) <==> id < s.next)
      && (forall h, h2 :: h in s.requests && h2 in s.requests && s.requests[h].id == s.requests[h2].id ==> h == h2)
      && NoDup(s.destroyed)
  {
    InvInit(bufferSize);
    InvRun(Init(bufferSize), es);
    var s := Exec(Init(bufferSize), es);
    var a := LayoutOf(s);
    forall h, h2 | h in s.requests && h2 in s.requests && s.requests[h].id == s.requests[h2].id
      ensures h == h2
    {
      assert s.requests[h].id in a(Held(h)) && s.requests[h2].id in a(Held(h2));
      assert Held(h) == Held(h2);
    }
    assert a(Destroyed) == s.destroyed;
    assert forall p :: a(p) == At(s, p);
  }

  /** A state that waits in a pool carries no library object of an earlier request. */
  lemma PooledStatesClean(bufferSize: int, es: seq<Event>, w: Worker, id: Id)
    requires IsRun(Init(bufferSize), es)
    ensures
      var s := Exec(Init(bufferSize), es);
      (id in s.global || (w in s.locals && id in s.locals[w])) ==> Objects(s, id) == 0
  {
    InvInit(bufferSize);
    InvRun(Init(bufferSize), es);
    var s := Exec(Init(bufferSize), es);
    assert id in s.global ==> id in At(s, Global);
    assert w in s.locals && id in s.locals[w] ==> id in At(s, Local(w));
  }

  /** Once the handlers have finished, the workers' caches are gone and the
      destructor has run, every state has been destroyed, exactly once, unless its
      handler lost it; whatever order handlers and unregistration took. */
  lemma ShutdownDestroysAll(bufferSize: int, es: seq<Event>)
    requires IsRun(Init(bufferSize), es)
    requires var s := Exec(Init(bufferSize), es); Enabled(s, Destroy) && s.locals == map[]
    ensures
      var t := Step(Exec(Init(bufferSize), es), Destroy);
      && NoDup(t.destroyed) && NoDup(t.lost)
      && forall id: Id :: id < t.next <==> (id in t.destroyed) != (id in t.lost)
  {
    InvInit(bufferSize);
    InvRun(Init(bufferSize), es);
    var s := Exec(Init(bufferSize), es);
    InvStep(s, Destroy);
    var t := Step(s, Destroy);
    var a := LayoutOf(t);
    assert a(Destroyed) == t.destroyed && a(Lost) == t.lost;
    assert forall p :: p != Destroyed && p != Lost ==> a(p) == [];
    forall id: Id
      ensures id < t.next <==> (id in t.destroyed) != (id in t.lost)
    {
      assert Somewhere(a, id) <==> id < t.next;
      if Somewhere(a, id) {
        var p :| id in a(p);
        assert p == Destroyed || p == Lost;
      }
      assert id in a(Destroyed) && id in a(Lost) ==> Destroyed == Lost;
    }
  }

  // ----- the refill bound

  /** How many states the watcher may still add, the one in hand included. */
  function StillToCreate(s: State): nat {
    if s.watcher.Refilling? then s.watcher.todo else 0
  }

  /** The size that the watcher may fill the global cache up to. */
  function Limit(s: State): nat {
    if s.bufferSize > 0 then s.bufferSize else 0
  }

  ghost predicate Bounded(s: State) {
    -TWO_31 <= s.bufferSize < TWO_31 && |s.global| + StillToCreate(s) <= Limit(s)
  }

  /** A state is given back on a thread that has a local cache. */
  predicate FreesLocally(s: State, e: Event) {
    e.Free? && e.h in s.requests ==> s.requests[e.h].w in s.locals
  }

  ghost predicate IsLocalRun(s: State, es: seq<Event>)
    decreases |es|
  {
    es == [] || (Enabled(s, es[0]) && FreesLocally(s, es[0]) && IsLocalRun(Step(s, es[0]), es[1..]))
  }

  lemma BoundedStep(s: State, e: Event)
    requires Bounded(s) && Enabled(s, e) && FreesLocally(s, e)
    ensures Bounded(Step(s, e))
  {
    if e.Decide? {
      TurnsAreExact(s.bufferSize, |s.global|);
      if |s.global| > s.bufferSize {
        RemainderUnique(|s.global| - s.bufferSize, 0, |s.global| - s.bufferSize);
      }
    }
  }

  /** With all states given back on threads that have a local cache, the global cache
      and what is still to be created never exceed the buffer size, at any step of
      any interleaving. */
  lemma {:induction false} RefillBound(s: State, es: seq<Event>)
    requires Bounded(s) && IsLocalRun(s, es)
    ensures IsRun(s, es) && Bounded(Exec(s, es))
    decreases |es|
  {
    if es != [] {
      BoundedStep(s, es[0]);
      RefillBound(Step(s, es[0]), es[1..]);
    }
  }

  /** The watcher's creations, one after the other. */
  function Creations(k: nat): seq<Event> {
    if k == 0 then [] else [Make(true), Store] + Creations(k - 1)
  }

  /** In a creation loop that nothing disturbs every turn adds one new state, and then the
      watcher tests the stop flag again. */
  lemma {:induction false} CreationsFill(s: State, k: nat)
    requires s.watcher == Loop(k)
    ensures IsRun(s, Creations(k))
    ensures
      var t := Exec(s, Creations(k));
      && |t.global| == |s.global| + k && t.global[..|s.global|] == s.global && t.next == s.next + k
      && (forall j :: |s.global| <= j < |t.global| ==> t.global[j] == s.next + j - |s.global|)
      && t.(global := s.global, next := s.next, watcher := s.watcher) == s && t.watcher == Checking
    decreases k
  {
    if k == 0 {
    } else {
      var s1 := Step(s, Make(true));
      var s2 := Step(s1, Store);
      CreationsFill(s2, k - 1);
      ghost var t := Exec(s2, Creations(k - 1));
      assert t.global[|s.global|] == t.global[..|s2.global|][|s.global|];
      assert t.global[..|s.global|] == t.global[..|s2.global|][..|s.global|];
      ConsRun(s1, Store, Creations(k - 1));
      ConsRun(s, Make(true), [Store] + Creations(k - 1));
      assert [Make(true)] + ([Store] + Creations(k - 1)) == Creations(k);
    }
  }

  /** Once the stop flag is set the watcher can be gone after at most three of its steps. */
  lemma WatcherStops(s: State) returns (es: seq<Event>)
    requires s.stop && !s.watcher.Exited? && (s.watcher.Refilling? ==> s.watcher.todo > 0)
    ensures IsRun(s, es) && Exec(s, es).watcher.Exited? && |es| <= 3
  {
    match s.watcher
    case Checking =>
      ConsRun(s, Check, []);
      es := [Check] + [];
    case Refilling(todo, hand) =>
      if hand.Some? {
        var t := Step(s, Store);
        if todo == 1 {
          ConsRun(t, Check, []);
          ConsRun(s, Store, [Check] + []);
          es := [Store] + ([Check] + []);
        } else {
          var rest := FailAndStop(t);
          ConsRun(s, Store, rest);
          es := [Store] + rest;
        }
      } else {
        es := FailAndStop(s);
      }
    case Asleep =>
      var t := Step(s, Decide);
      if t.watcher.Checking? {
        ConsRun(t, Check, []);
        ConsRun(s, Decide, [Check] + []);
        es := [Decide] + ([Check] + []);
      } else {
        var rest := FailAndStop(t);
        ConsRun(s, Decide, rest);
        es := [Decide] + rest;
      }
  }

  lemma FailAndStop(s: State) returns (es: seq<Event>)
    requires s.stop && s.watcher.Refilling? && s.watcher.todo > 0 && s.watcher.hand.None?
    ensures IsRun(s, es) && Exec(s, es).watcher.Exited? && |es| == 2
  {
    var t := Step(s, Make(false));
    ConsRun(t, Check, []);
    ConsRun(s, Make(false), [Check] + []);
    es := [Make(false)] + ([Check] + []);
  }

  /** One round of the watcher, undisturbed, creates exactly the missing states. */
  lemma RoundFills(s: State)
    requires s.watcher.Asleep? && -TWO_31 <= s.bufferSize < TWO_31
    requires |s.global| <= s.bufferSize || |s.global| - s.bufferSize <= TWO_31
    ensures
      var missing := if s.bufferSize > |s.global| then s.bufferSize - |s.global| else 0;
      var es := [Decide] + Creations(missing);
      IsRun(s, es) && |Exec(s, es).global| == |s.global| + missing && Exec(s, es).next == s.next + missing
  {
    var missing: nat := if s.bufferSize > |s.global| then s.bufferSize - |s.global| else 0;
    RoundTurns(s);
    CreationsFill(Step(s, Decide), missing);
    ConsRun(s, Decide, Creations(missing));
  }

  lemma RoundTurns(s: State)
    requires -TWO_31 <= s.bufferSize < TWO_31
    requires |s.global| <= s.bufferSize || |s.global| - s.bufferSize <= TWO_31
    ensures Turns(s.bufferSize, |s.global|) == if s.bufferSize > |s.global| then s.bufferSize - |s.global| else 0
  {
    TurnsAreExact(s.bufferSize, |s.global|);
    if |s.global| > s.bufferSize {
      RemainderUnique(|s.global| - s.bufferSize, 0, |s.global| - s.bufferSize);
    }
  }

  /** Giving a state back on a thread without a local cache keeps to the bound
      exactly when the global cache, counting what is still to come, is not full. */
  lemma ForeignFree(s: State, h: Handler)
    requires Bounded(s) && Enabled(s, Free(h)) && !FreesLocally(s, Free(h))
    ensures Bounded(Step(s, Free(h))) <==> |s.global| + StillToCreate(s) < Limit(s)
  {
  }

  /** A state is given back locally, or while the global cache has room for it. */
  predicate FindsRoom(s: State, e: Event) {
    !FreesLocally(s, e) ==> |s.global| + StillToCreate(s) < Limit(s)
  }

  ghost predicate IsRoomyRun(s: State, es: seq<Event>)
    requires IsRun(s, es)
    decreases |es|
  {
    es == [] || (FindsRoom(s, es[0]) && IsRoomyRun(Step(s, es[0]), es[1..]))
  }

  /** The bound holds at every moment of the run. */
  ghost predicate StaysBounded(s: State, es: seq<Event>)
    requires IsRun(s, es)
    decreases |es|
  {
    Bounded(s) && (es != [] ==> StaysBounded(Step(s, es[0]), es[1..]))
  }

  /** A run keeps to the bound throughout exactly when every state that is given back
      on a thread without a local cache finds room. */
  lemma {:induction false} BoundIsExact(s: State, es: seq<Event>)
    requires Bounded(s) && IsRun(s, es)
    ensures StaysBounded(s, es) <==> IsRoomyRun(s, es)
    decreases |es|
  {
    if es != [] {
      var t := Step(s, es[0]);
      if FreesLocally(s, es[0]) {
        BoundedStep(s, es[0]);
      } else {
        ForeignFree(s, es[0].h);
      }
      if Bounded(t) {
        BoundIsExact(t, es[1..]);
      }
    }
  }

  lemma InitBounded(bufferSize: int)
    requires -TWO_31 <= bufferSize < TWO_31
    ensures Bounded(Init(bufferSize))
  {
  }

  /** A handler takes a state before the watcher has filled the cache and gives it back
      afterwards, on a thread without a local cache. */
  lemma ForeignFreeOverfills()
    ensures
      var es := [Get(0, 0, true), Check, Decide, Make(true), Store, Free(0)];
      IsRun(Init(1), es) && Exec(Init(1), es).global == [1, 0]
  {
    var s0 := Init(1);
    var s1 := Step(s0, Get(0, 0, true));
    var s2 := Step(s1, Check);
    TurnsAreExact(1, 0);
    var s3 := Step(s2, Decide);
    assert s3.watcher == Refilling(1, None);
    var s4 := Step(s3, Make(true));
    var s5 := Step(s4, Store);
    assert s5.global == [1];
    var s6 := Step(s5, Free(0));
    assert s6.global == [1, 0];
    ConsRun(s5, Free(0), []);
    ConsRun(s4, Store, [Free(0)]);
    ConsRun(s3, Make(true), [Store, Free(0)]);
    ConsRun(s2, Decide, [Make(true), Store, Free(0)]);
    ConsRun(s1, Check, [Decide, Make(true), Store, Free(0)]);
    ConsRun(s0, Get(0, 0, true), [Check, Decide, Make(true), Store, Free(0)]);
  }

  lemma ConsRun(s: State, e: Event, rest: seq<Event>)
    requires Enabled(s, e) && IsRun(Step(s, e), rest)
    ensures IsRun(s, [e] + rest) && Exec(s, [e] + rest) == Exec(Step(s, e), rest)
  {
    assert ([e] + rest)[1..] == rest;
  }

  // ----- the class

  /** The members of the source's class, with the thread-local caches in a map. */
  class StateManager {
    const bufferSize: int
    var stateCache: seq<Id>
    var localCaches: map<Worker, seq<Id>>
    var requests: map<Handler, Request>
    var objects: map<Id, nat>
    var watcher: Watcher
    var stop: bool
    var next: nat
    ghost var destroyed: seq<Id>
    ghost var lost: seq<Id>

    ghost function Now(): State
      reads this
    {
      State(bufferSize, stateCache, localCaches, requests, objects, watcher, stop, next, destroyed, lost)
    }

    constructor (bufferSize: int)
      ensures Now() == Init(bufferSize) && Inv(Now())
    {
      this.bufferSize := bufferSize;
      stateCache, localCaches, requests, objects := [], map[], map[], map[];
      watcher, stop, next, destroyed, lost := Checking, false, 0, [], [];
      new;
      InvInit(bufferSize);
    }

    /** `get_state` for handler `h` on worker `w`: the newest local state, else the
        newest global one, else a new one. */
    method GetState(h: Handler, w: Worker, created: bool) returns (state: Option<Id>)
      requires h !in requests
      modifies this`stateCache, this`localCaches, this`requests, this`next
      ensures
        if w in old(localCaches) && old(localCaches)[w] != [] then
          var n := |old(localCaches)[w]| - 1;
          && state == Some(old(localCaches)[w][n]) && localCaches == old(localCaches)[w := old(localCaches)[w][..n]]
          && stateCache == old(stateCache) && next == old(next)
        else if old(stateCache) != [] then
          var n := |old(stateCache)| - 1;
          && state == Some(old(stateCache)[n]) && stateCache == old(stateCache)[..n]
          && localCaches == old(localCaches) && next == old(next)
        else
          && state == (if created then Some(old(next)) else None)
          && next == old(next) + (if created then 1 else 0)
          && stateCache == old(stateCache) && localCaches == old(localCaches)
      ensures requests == if state.Some? then old(requests)[h := Request(w, state.value)] else old(requests)
      ensures Now() == Step(old(Now()), Get(h, w, created))
    {
      state := None;
      if w in localCaches && localCaches[w] != [] {
        var n := |localCaches[w]| - 1;
        state := Some(localCaches[w][n]);
        localCaches := localCaches[w := localCaches[w][..n]];
      } else if stateCache != [] {
        var n := |stateCache| - 1;
        state := Some(stateCache[n]);
        stateCache := stateCache[..n];
      } else if created {
        state := Some(next);
        next := next + 1;
      }
      if state.Some? {
        requests := requests[h := Request(w, state.value)];
      }
    }

    /** `free_state`: deletes the library objects and pools the state, locally when
        the thread has a cache. */
    method FreeState(h: Handler)
      requires h in requests
      modifies this`stateCache, this`localCaches, this`requests, this`objects
      ensures requests == old(requests) - {h} && objects == old(objects) - {old(requests)[h].id}
      ensures
        var r := old(requests)[h];
        if r.w in old(localCaches) then
          && localCaches == old(localCaches)[r.w := old(localCaches)[r.w] + [r.id]] && stateCache == old(stateCache)
        else stateCache == old(stateCache) + [r.id] && localCaches == old(localCaches)
      ensures Now() == Step(old(Now()), Free(h))
    {
      var r := requests[h];
      requests := requests - {h};
      objects := objects - {r.id};
      if r.w in localCaches {
        localCaches := localCaches[r.w := localCaches[r.w] + [r.id]];
      } else {
        stateCache := stateCache + [r.id];
      }
    }

    /** The handler registers a library object with its state. */
    method AddObject(h: Handler)
      requires h in requests
      modifies this`objects
      ensures
        var id := requests[h].id;
        objects == old(objects)[id := (if id in old(objects) then old(objects)[id] else 0) + 1]
      ensures Now() == Step(old(Now()), Event.AddObject(h))
    {
      var id := requests[h].id;
      objects := objects[id := (if id in objects then objects[id] else 0) + 1];
    }

    /** The closure of `register_io_service`. */
    method RegisterIoService(w: Worker)
      requires w !in localCaches
      modifies this`localCaches
      ensures localCaches == old(localCaches)[w := []] && Now() == Step(old(Now()), CreateLocal(w))
    {
      localCaches := localCaches[w := []];
    }

    /** One refill by the watcher, undisturbed, in which at most `limit` creations
        succeed before one fails. */
    method Refill(limit: nat)
      modifies this`stateCache, this`next
      ensures
        var turns := Turns(bufferSize, |old(stateCache)|);
        var made := if limit < turns then limit else turns;
        && stateCache == old(stateCache) + seq(made, k requires 0 <= k < made => old(next) + k)
        && next == old(next) + made
    {
      var toCreate := ToCreate(bufferSize, |stateCache|);
      var i := ToInt(toCreate);
      var made := 0;
      while i > 0 && made < limit
        invariant 0 <= made <= limit && next == old(next) + made
        invariant stateCache == old(stateCache) + seq(made, k requires 0 <= k < made => old(next) + k)
        invariant i + made == ToInt(toCreate) && (ToInt(toCreate) > 0 ==> i >= 0) && (i < 0 ==> made == 0)
        decreases i
      {
        stateCache := stateCache + [next];
        next := next + 1;
        made := made + 1;
        i := i - 1;
      }
    }

    /** The closure of `unregister_io_service`. */
    method UnregisterIoService(w: Worker)
      requires w in localCaches
      modifies this`localCaches, this`destroyed
      ensures localCaches == old(localCaches) - {w} && destroyed == old(destroyed) + old(localCaches)[w]
      ensures Now() == Step(old(Now()), DestroyLocal(w))
    {
      var cache := localCaches[w];
      for j := 0 to |cache|
        invariant destroyed == old(destroyed) + cache[..j]
        invariant Now() == old(Now()).(destroyed := destroyed)
      {
        destroyed := destroyed + [cache[j]];
      }
      assert cache[..|cache|] == cache;
      localCaches := localCaches - {w};
    }

    /** The destructor's loop, after the watcher has been joined. */
    method DestroyAll()
      requires watcher.Exited? && requests == map[]
      modifies this`stateCache, this`destroyed
      ensures stateCache == [] && destroyed == old(destroyed) + old(stateCache)
      ensures Now() == Step(old(Now()), Destroy)
    {
      for j := 0 to |stateCache|
        invariant destroyed == old(destroyed) + stateCache[..j]
        invariant Now() == old(Now()).(destroyed := destroyed)
      {
        destroyed := destroyed + [stateCache[j]];
      }
      assert stateCache[..|stateCache|] == stateCache;
      stateCache := [];
    }
  }
}
