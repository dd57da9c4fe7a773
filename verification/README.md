# Verification of petrel's concurrent caches, metrics and request handling

Petrel is a web server whose requests are answered by Lua handlers. These Dafny
modules model the parts of it that have guarantees worth proving: the file cache
with its per-worker mirrors, the timer and meter metrics, the router's trie, the
fiber cache, the scheduler's back-off, the pool of Lua states, the handling of one
request on a Lua stack, `string.split` and the FNV hash. Each component is one
file and one module.

Components that several threads touch appear twice. A *step system* (a `State`, an
`Event` and a function `Step`) interleaves the atomic steps of all threads; its
theorems hold of every state of every run (`InvRun` and the lemmas after it). A
*class* has the source's members and its methods' loops; each method is proved to
do exactly one step, or exactly a run of steps, of the system.

- `Common`: options, distinct lists, the part of a string that C sees.
- `FileCache`: the update protocol between the writer, the main map, the workers'
  queues and their unlocked local maps.
- `FileRefresh`: the directory scan and the refresh pass over a finite tree.
- `RefreshProtocol`: both together, a refresh pass as the writer of the protocol.
- `Histogram`, `Timer`: the bin sweep, the double buffer, the six-slot window.
- `Router`: the heap of 256-way node arrays as a map with longest-prefix lookup.
- `FiberCache`: reusable fiber contexts and their drain at shutdown.
- `FiberSched`: the two decaying rates behind the keep-alive interval.
- `StatePool`: ownership of Lua states, and the refill arithmetic.
- `LuaEngine`: `handle_request` on the Lua stack, overlapping requests, and what is sent.
- `Meter`, `StringSplit`, `Fnv`: the smaller algorithms.

`dafny verify dfyconfig.toml --verification-time-limit 0`
checks everything.

## What turned out not to hold

Some natural statements are false of the code. Each is replaced by the exact
condition under which it holds, and each failure is shown at a concrete input.

- Registering a worker between an operation's posting loop and its main-map step
  leaves that worker with a stale file exactly when the main map holds the name
  (`FileCache.RegistrationGuardIsExact`; a run that does it:
  `FileCache.LateRegistrationHappens`).
- A sample in the unit gap above the bin of the sample before it is counted one or
  more bins too low. The bins are the pointwise ones exactly when there is no such
  sample; whole samples never produce one (`Histogram.SweepIsPointwiseIff`; the
  sample 1000000.5: `Histogram.FractionalSampleTooLow`).
- The one-minute maximum is the real one exactly when it is not negative, and the
  minimum exactly when no batch in the window was empty or it is not positive
  (`Timer.WindowSummary`; `Timer.NegativeMaximumMissed` and
  `Timer.EmptyBatchHidesMinimum`).
- The refill loop's conversions are exact unless the cache exceeds the buffer size
  by more than 2^31, modulo 2^32 (`StatePool.TurnsAreExact`; the buffer size -2^31:
  `StatePool.NegativeBufferRefills`). A run keeps to the size bound throughout exactly
  when each state given back on a thread without a local cache finds room
  (`StatePool.BoundIsExact`; a run that does not: `StatePool.ForeignFreeOverfills`).
- A handler that fails does not always lead to a 500. The exception's message is made
  from what the traceback function leaves, by way of a C string, and nil has none: a
  failed call throws if and only if a string or number is left, and crashes otherwise
  (`LuaEngine.Conversions.FailureThrowsIff`; `error(nil)`:
  `LuaEngine.Conversions.NilErrorCrashes`).
- In a response-header table `lua_tostring` turns numeric keys into strings while
  `lua_next` walks by them. The headers are read in order if and only if no such key
  has a string-like value (`LuaEngine.Conversions.StraightIff`). Otherwise the walk may
  skip entries and end, be refused by `lua_next` outside any protected call, or go on
  for ever; which of these is decided after as many turns as the table has entries
  (`LuaEngine.Conversions.FateIsFinal`; one table for each: `SkipsAnEntry`,
  `LosesItsKey`, `NeverEnds`).
- `string.split` with a limit cuts its last piece at a stale position; the pieces
  join to the string exactly under the condition of `StringSplit.LimitedSplit`
  (`StringSplit.LimitDropsCharacter`). With an empty separator it ends exactly when
  there is a limit (`StringSplit.EmptySeparatorLoops`).
- `hash.fnv` views a Lua string through a C string, so strings that differ in one
  byte can collide, exactly under the condition of `Fnv.OneByteSeparates`
  (`Fnv.ZeroByteHidesDifference`).
- The comment at src/core/lua_engine.cpp:119 says that the traceback function is
  popped. The code pops the content and the result, and leaves the traceback
  function in place, as the next request needs it.

## Model

| member | source | states |
|---|---|---|
| FileCache.ReplayFill | src/core/file_cache.cpp:176-193 | copying an entry into a local map shows in the drained map exactly when no queued closure creates, drops or touches that name |
| FileCache.InvStep | src/core/file_cache.cpp:95-193 | every step of writer, workers and registration keeps the coherence invariant, with writes in flight and fills that overtake queued closures |
| FileCache.InvRun | src/core/file_cache.cpp:95-193 | the invariant holds after every orderly run |
| FileCache.ReplayAgrees | src/core/file_cache.cpp:141-193 | after every orderly run, replaying a worker's queue on its map gives, for each name also in the main map, the main map's object, or the in-flight one once its add was posted to that worker |
| FileCache.CoherentRun | src/core/file_cache.cpp:141-193 | with an idle writer and a drained queue the two maps agree on common names, a lookup of a name in the main map gives the main map's file, and a removed name is held exactly if it was refilled between the erase and the main-map step |
| FileCache.ClosuresAndReadsSafe | src/core/file_cache.cpp:95-202 | in every run, orderly or not, a posted put or erase is only run while the local map exists, and every file that a lookup returns was loaded good for that very name |
| FileCache.FoundIff | src/core/file_cache.cpp:176-202 | in every run a name in the main map is found, and nothing is found exactly when neither map holds the name |
| FileCache.LoadedByCalls | src/core/file_cache.cpp:141-144 | the files that count as loaded are those that add calls have loaded, with their name, size and time |
| FileCache.PossibleSteps | src/core/file_cache.cpp:95-202 | which steps can happen when: one writer, workers at any time, registration outside the posting loop |
| FileCache.CommitPublishes | src/core/file_cache.cpp:149-151 | the main-map step makes each notified worker's drained map hold the new object, or lose the name unless it refilled it late |
| FileCache.RegistrationGuardIsExact | src/core/file_cache.cpp:95-98 | a registration that the assumption forbids can always be continued to a drained, idle, incoherent state; so the assumption is not stronger than needed |
| FileCache.LateRegistrationHappens | src/core/file_cache.cpp:157-174 | a run from the empty cache in which a late registrant keeps a removed file for good |
| FileCache.DrainQueue | src/core/file_cache.cpp:97-107 | delivering a queue to its end gives the drained map and changes no other worker |
| FileCache.CallIsRun | src/core/file_cache.cpp:141-174 | an uninterrupted add or remove call is an orderly run of the step system that ends in a state with the invariant |
| FileCache.CallPosts | src/core/file_cache.cpp:145-148 | such a call appends one closure to each registered worker's queue and none elsewhere, and changes no local map |
| FileCache.Cache.constructor | src/core/file_cache.cpp:48-49 | the empty cache satisfies the invariant |
| FileCache.Cache.AddFile | src/core/file_cache.cpp:141-155 | a failed load changes nothing; a good one binds the name to a new object, posts it to every registered worker, and is a run of the step system |
| FileCache.Cache.RemoveFile | src/core/file_cache.cpp:157-174 | unbinds the name, posts the erase to every registered worker, and is a run of the step system |
| FileCache.Cache.GetFile | src/core/file_cache.cpp:176-202 | returns the local entry, else the main map's, which it copies into an existing local map |
| FileCache.Cache.RunNext | src/core/file_cache.cpp:147-166 | a worker runs its oldest closure |
| FileCache.Cache.RegisterIoService | src/core/file_cache.cpp:95-98 | the registration step, keeping the invariant |
| FileCache.Cache.UnregisterIoService | src/core/file_cache.cpp:100-108 | removes the worker and posts the reset of its map, keeping the invariant |
| FileRefresh.BelowSomeChild | src/core/file_cache.cpp:113-115 | whatever exists below a directory exists at or below one of its listed children |
| FileRefresh.ChildrenCover | src/core/file_cache.cpp:110-128 | the loadable files of a directory's tree are those of its children's trees |
| FileRefresh.PassRefreshes | src/core/file_cache.cpp:53-85 | scanning, reloading the changed and dropping the missing leaves exactly the watched loadable files and the earlier entries that still exist, each loadable one with the disk's size and time |
| FileRefresh.RefreshedMeans | src/core/file_cache.cpp:53-85 | what a refreshed map holds, path by path, in terms of what the disk has there |
| FileRefresh.RefreshIsIdempotent | src/core/file_cache.cpp:53-85 | two passes over the same disk end in the same map |
| FileRefresh.Refresher.AddFile | src/core/file_cache.cpp:141-155 | binds and posts a loadable file, else does nothing |
| FileRefresh.Refresher.ScanDirectory | src/core/file_cache.cpp:110-128 | adds exactly the loadable files below a directory that were missing, keeps the others, and posts nothing if nothing was added |
| FileRefresh.Refresher.AddDirectory | src/core/file_cache.cpp:130-139 | scans and, if it is a directory, watches it |
| FileRefresh.Refresher.ScanAll | src/core/file_cache.cpp:53-61 | scanning all watched directories, in any order, adds exactly what each of them contributes |
| FileRefresh.Refresher.Compare | src/core/file_cache.cpp:62-79 | finds exactly the entries whose stamp differs and those whose file is gone |
| FileRefresh.Refresher.Refresh | src/core/file_cache.cpp:53-85 | one pass brings the map up to date; its postings, replayed on a copy of the old map, give the new map; nothing is posted if nothing changed |
| FileRefresh.Refresher.RefreshAgain | src/core/file_cache.cpp:50-86 | the pass after a pass changes nothing and posts nothing |
| RefreshProtocol.SettledRun | src/core/file_cache.cpp:141-174 | over any run, with workers interleaved, the main map ends up as the writer's operations in order say |
| RefreshProtocol.RefreshReachesWorkers | src/core/file_cache.cpp:50-86 | after the operations of one refresh pass, in any orderly interleaving with the workers, the main map is refreshed, and for each loadable name that a drained worker map holds it has the disk's size and time, unless the name is unwatched, gone from the main map and was refilled late |
| RefreshProtocol.UpToDateMeans | src/core/file_cache.cpp:121-127 | a drained worker map that is up to date holds, for a readable regular file, the size and time that the disk has, or the name was refilled late and is gone from the main map |
| Histogram.SumRearranged | src/metrics/timer.h:102-108 | sorting does not change the sum |
| Histogram.NextBin | src/metrics/timer.h:122-126 | the inner loop moves to the first later bin that can hold the sample |
| Histogram.CountSample | src/metrics/timer.h:115-129 | one sample is counted in the bin where the sweep puts it |
| Histogram.Sweep | src/metrics/timer.h:111-130 | the one-pass sweep counts every sample in the bin it stands at |
| Histogram.BinsAddUp | src/metrics/timer.h:111-130 | for all samples and bin sizes the bins sum to the number of samples |
| Histogram.ClassIs | src/metrics/timer.h:111-130 | bin 0 is for d <= b, bin k for k*b < d <= (k+1)*b, bin n for d > n*b, and for nothing else |
| Histogram.PlaceIs | src/metrics/timer.h:116-126 | the sweep puts a sample into its bin unless it lies in the unit gap above the current one |
| Histogram.SweepIsPointwiseIff | src/metrics/timer.h:111-130 | the swept bins are the pointwise ones if and only if no sample lies in the gap above the bin of the sample before it |
| Histogram.FractionalSampleTooLow | src/metrics/timer.h:116 | the sample 1000000.5 with the default bins belongs to bin 1 and is counted in bin 0 |
| Histogram.WholeSamplesGapFree | src/metrics/timer.h:116-123 | whole samples and bin sizes leave no gap |
| Histogram.WholeBins | src/metrics/timer.h:101-131 | for whole samples in any order every bin counts exactly the samples that belong to it |
| Histogram.WholeBinCounts | src/metrics/timer.h:101-131 | for whole samples bin k is the number of samples of the batch that belong to it |
| Histogram.MembersAre | src/metrics/timer.h:111-130 | those are, as often as in the batch, the samples with k*b < d <= (k+1)*b, without the lower bound for the first bin and the upper one for the last |
| Histogram.SumSingle | src/metrics/timer.h:106-108 | the sum of one sample is that sample; with SumConcat, which adds, this is what a sum is |
| Timer.WindowBins | src/metrics/timer.h:144-149 | for whole samples the merged bins are those of all the samples at once |
| Timer.WindowSummary | src/metrics/timer.h:140-162 | merged sum, count and average are those of all the samples; maximum and minimum exactly under the stated conditions |
| Timer.NegativeMaximumMissed | src/metrics/timer.h:153-155 | after the one sample -1 the window's maximum is 0 |
| Timer.EmptyBatchHidesMinimum | src/metrics/timer.h:150-152 | an empty batch next to the sample 5 makes the window's minimum 0 |
| Timer.WindowIsConcatenation | src/metrics/timer.h:140-162 | the merged window is the histogram of the concatenated batches, in the above sense |
| Timer.InvStep | src/metrics/timer.h:91-138 | every step of an update or of an aggregate call keeps the buffer and window invariant |
| Timer.NoSampleLost | src/metrics/timer.h:91-138 | under any interleaving, as often as update was called with a sample it is in the two buffers and the folded batches |
| Timer.WindowHoldsLastSix | src/metrics/timer.h:133-136 | the inactive buffer is empty outside a drain, and the window holds the histograms of the last six batches |
| Timer.AggregatedIs | src/metrics/timer.h:91-138 | nine calls of ten only count; the tenth empties the active buffer into one histogram, switches, and keeps six |
| Timer.HistIs | src/metrics/timer.h:100-131 | a histogram has the sum, number, average, least and greatest of its batch |
| Timer.LastMinute | src/metrics/timer.h:91-162 | after any interleaving the merged window is the histogram of the last six batches together |
| Timer.AggregatedIsRun | src/metrics/timer.h:91-138 | an uninterrupted aggregate call is its steps in order |
| Timer.TimerMetric.Update | src/metrics/timer.h:206-209 | appends the sample to the active buffer and leaves the other, the window and the counter |
| Timer.TimerMetric.BuildHistogram | src/metrics/timer.h:100-132 | bounds, average, sum, count and bins of a batch |
| Timer.TimerMetric.Aggregate | src/metrics/timer.h:91-138 | every tenth call switches buffers, folds the inactive one and evicts the oldest of seven histograms |
| Timer.TimerMetric.Get1MinHistogram | src/metrics/timer.h:140-162 | merges the window |
| Router.LongestUpToIs | src/core/router.h:51-69 | the abstract lookup finds the longest bound prefix, or none exactly when there is none |
| Router.BindingsAre | src/core/router.h:99-101 | after a series of calls exactly the non-empty added paths are bound, each to the function added last |
| Router.LookupAfterRoutes | src/core/router.h:99-110 | a lookup succeeds exactly when some added route decides the request, one with the longest added prefix and the last added for it, and then gives its function; it fails exactly when no non-empty added path is a prefix |
| Router.PathSet.SetTerm | src/core/router.h:37-40 | writing a terminal node rebinds one path and leaves every other binding unchanged |
| Router.PathSet.Grow | src/core/router.h:42-44 | allocating a level changes no binding and keeps the heap a tree |
| Router.PathSet.Insert | src/core/router.h:32-49 | inserting rebinds exactly the given path; the empty path is refused without a change |
| Router.PathSet.NothingDeeper | src/core/router.h:60-62 | below a missing level nothing is bound |
| Router.PathSet.Find | src/core/router.h:51-69 | the binding of the longest bound prefix, and nothing exactly when no bound path is a prefix |
| Router.Router.AddRoute | src/core/router.h:99-101 | rebinds the path, or throws for the empty one |
| Router.Router.FindRoute | src/core/router.h:103-110 | the binding of the longest bound prefix, else the default |
| Router.Router.AddRoutes | src/core/router.h:99-101 | any series of calls on the heap leaves the bindings that the series defines |
| Router.Router.RouteAfter | src/core/router.h:99-110 | a request after any series of add calls gets the route with the longest prefix, the last added for it, and the default without any |
| FiberCache.CounterMeansIdle | src/core/fiber_cache.cpp:37 | the counter equals the size of the cache exactly when no context is active |
| FiberCache.InvStep | src/core/fiber_cache.h:51-74 | every step keeps the split into parked cached contexts and active ones with a task, the counter, and the accounting of tasks |
| FiberCache.AtMostOnce | src/core/fiber_cache.cpp:17-26 | in every run the tasks are as many as the calls of run, each is begun at most once, and is begun, or held by exactly one context, or by a plain fiber |
| FiberCache.RunIs | src/core/fiber_cache.cpp:17-26 | a task goes to a plain fiber without a cache or after the stop flag, else to the newest parked context, woken, or to a new one; nothing else changes |
| FiberCache.ExactlyOnceWhenQuiet | src/core/fiber_cache.cpp:17-26 | once the scheduler has nothing to pick, the tasks of all calls of run were begun exactly once |
| FiberCache.SchedulerDrains | src/core/fiber_cache.h:54-72 | from every reachable state the scheduler gets through all waiting tasks in a bounded number of steps |
| FiberCache.WorkShrinks | src/core/fiber_cache.h:54-72 | every scheduling step, whichever is picked, leaves less work |
| FiberCache.FuncSlotsSafe | src/core/fiber_cache.cpp:20 | a slot that holds a task is only ever cleared by the return of that task |
| FiberCache.StopIsStable | src/core/fiber_cache.cpp:32-41 | after the stop flag the counter stands still, the cache never shrinks until the reset, and an idle thread stays idle |
| FiberCache.PollIsExact | src/core/fiber_cache.cpp:37 | the drain test succeeds exactly when no context is active |
| FiberCache.CleanupEndsAll | src/core/fiber_cache.cpp:43-49 | after cleanup every context ever created has ended and none can come back |
| FiberCache.CleanupFinishes | src/core/fiber_cache.cpp:43-49 | a cleanup that has begun can always be finished: no join waits forever |
| FiberCache.ThreadCache.GetFiber | src/core/fiber_cache.cpp:52-65 | the newest parked context, else a new one that is counted, else none during shutdown |
| FiberCache.ThreadCache.RunTask | src/core/fiber_cache.cpp:17-26 | the new task is held by exactly one context, or by a plain fiber exactly without a cache or after the stop flag |
| FiberCache.ThreadCache.RegisterIoService | src/core/fiber_cache.cpp:28-30 | an empty cache comes into being |
| FiberCache.ThreadCache.ResumeFiber | src/core/fiber_cache.h:56-62 | a resumed context enters its task, or returns when it has none |
| FiberCache.ThreadCache.FinishTask | src/core/fiber_cache.h:63-67 | a returning task clears the slot and parks the context in the cache |
| FiberCache.ThreadCache.Poll | src/core/fiber_cache.cpp:37 | the drain test; if it fails some context is active |
| FiberCache.ThreadCache.Cleanup | src/core/fiber_cache.cpp:43-49 | ends every context, begins no task, and closes the cache |
| FiberCache.ThreadCache.UnregisterIoService | src/core/fiber_cache.cpp:32-50 | stop, drain and cleanup come to an end, however many tasks arrive and plain fibers begin meanwhile, with every context ended and every submitted task begun or held by a plain fiber |
| FiberSched.InvStep | src/core/fiber_sched_algorithm.h:82-106 | rl > 0 implies 11*(rx+9) >= 10*(rl+10), and the interval is the one that the rates call for; kept by ticks and updates |
| FiberSched.InvRun | src/core/fiber_sched_algorithm.cpp:12-22 | the invariant holds after every run |
| FiberSched.ActivityPicksShort | src/core/fiber_sched_algorithm.h:85-106 | a tick that follows at least one update picks 100ns |
| FiberSched.BackOffInOrder | src/core/fiber_sched_algorithm.h:96-106 | without activity the interval never falls and never skips 1ms |
| FiberSched.ReachesExtraLong | src/core/fiber_sched_algorithm.h:85-106 | 30ms is reached within rate_xl / 0.00009 idle ticks, rounded up, and kept |
| FiberSched.TickIs | src/core/fiber_sched_algorithm.h:85-106 | one tick, with the rates shifted by 10 and 9 to where both shrink by the same factor |
| FiberSched.ExactDecay | src/core/fiber_sched_algorithm.h:85-94 | the rates after n idle ticks: shifted, the first ones times 0.99999^n, with the floor at 0 |
| FiberSched.LongIntervalLasts | src/core/fiber_sched_algorithm.h:85-106 | when an idle tick leaves 100ns, at least 997 further idle ticks stay at 1ms |
| FiberSched.Algorithm.OnEmptyIoService | src/core/fiber_sched_algorithm.h:82-110 | one tick, keeping the invariant: one yield is posted and the timer is armed once, with the interval the new rates call for |
| FiberSched.Algorithm.Update | src/core/fiber_sched_algorithm.cpp:17-22 | counts one activity and resets the interval |
| StatePool.ToCreateIs | src/core/lua_state_manager.cpp:41 | int to size_t, unsigned subtraction and the cut to 32 bits give the difference modulo 2^32 |
| StatePool.TurnsAreExact | src/core/lua_state_manager.cpp:38-43 | the loop runs max(0, buffer_size - size) times if and only if the cache exceeds the buffer size by at most 2^31, modulo 2^32 |
| StatePool.NegativeBufferRefills | src/core/lua_state_manager.cpp:41-43 | with buffer size -2^31 and one cached state the loop would create 2^31 - 1 states |
| StatePool.MoveKeeps | src/core/lua_state_manager.cpp:207-243 | moving the tail of one place to another keeps every state in exactly one place |
| StatePool.InvStep | src/core/lua_state_manager.cpp:57-90 | every step of handlers, watcher, registration and destructor keeps the partition, and pooled states free of library objects |
| StatePool.OnePlace | src/core/lua_state_manager.cpp:207-243 | in every run each created state is in exactly one place once; no two requests share one; none is destroyed twice |
| StatePool.PooledStatesClean | src/core/lua_state_manager.cpp:230-243 | a pooled state has no library objects |
| StatePool.ObjectsStep | src/core/lua_state_manager.cpp:230-236 | registering an object adds one to the handler's own state, giving it back deletes them all, and nothing else touches them |
| StatePool.ShutdownDestroysAll | src/core/server_impl.cpp:351-356 | once handlers are done, local caches gone and the destructor has run, each state is destroyed exactly once unless its handler lost it, in whatever order handlers and unregistration took |
| StatePool.BoundedStep | src/core/lua_state_manager.cpp:34-52 | a step that gives states back only to local caches keeps global size + still to create <= buffer size |
| StatePool.RefillBound | src/core/lua_state_manager.cpp:34-52 | that bound holds at every step of every such interleaving |
| StatePool.ForeignFree | src/core/lua_state_manager.cpp:239-242 | giving back on a thread without a local cache keeps the bound exactly when the global cache is not full |
| StatePool.BoundIsExact | src/core/lua_state_manager.cpp:34-52 | a run keeps to the bound at every step if and only if each state given back on a thread without a local cache finds room |
| StatePool.RoundFills | src/core/lua_state_manager.cpp:38-52 | an undisturbed round of the watcher creates exactly the missing states |
| StatePool.WatcherStops | src/core/lua_state_manager.cpp:35-54 | once the stop flag is set the watcher can be gone after at most three of its steps |
| StatePool.ForeignFreeOverfills | src/core/lua_state_manager.cpp:239-242 | a run from the start in which such a thread overfills the cache |
| StatePool.StateManager.GetState | src/core/lua_state_manager.cpp:207-228 | the newest local state, else the newest global one, taken out; only else a new one, or failure |
| StatePool.StateManager.FreeState | src/core/lua_state_manager.cpp:230-243 | deletes the objects and pools the state locally, or globally without a local cache |
| StatePool.StateManager.Refill | src/core/lua_state_manager.cpp:38-52 | appends as many new states as the converted difference says, or up to the first failing creation |
| StatePool.StateManager.UnregisterIoService | src/core/lua_state_manager.cpp:77-90 | destroys the local states in order and drops the cache |
| StatePool.StateManager.DestroyAll | src/core/lua_state_manager.cpp:57-63 | destroys the global states in order |
| LuaEngine.GetSet | src/core/lua_engine.cpp:157-158 | storing a field changes that field and no other |
| LuaEngine.FieldIs | src/core/lua_engine.cpp:90 | reading a field gives the value stored under its name |
| LuaEngine.TruncatedIs | src/core/lua_engine.cpp:94 | the whole number next to a status on the side of 0 |
| LuaEngine.LastHeaderIs | src/core/lua_engine.cpp:168-171 | the last header of a name has its value |
| LuaEngine.FirstHeaderIs | src/core/request.h:239-257 | the first header of a name has its value |
| LuaEngine.CookiePartsAre | src/core/lua_engine.cpp:129 | the parts have no semicolon and, joined by semicolons, are the cookie string |
| LuaEngine.CookieNameIs | src/core/lua_engine.cpp:133-142 | the text before the first equals sign without leading spaces |
| LuaEngine.CompletedIs | src/core/request.h:308-328 | a server header is added exactly if there is none, and in HTTP/2 the length of the content |
| LuaEngine.DecimalIs | src/core/request.h:325 | decimal digits that stand for the number |
| LuaEngine.RequestTableIs | src/core/lua_engine.cpp:154-179 | the handler reads the request's time, method, protocol, host, path, headers and address in its table |
| LuaEngine.OptionalFieldsRead | src/core/lua_engine.cpp:178-186 | content exactly for a POST, a cookie table exactly with a cookie header |
| LuaEngine.EmptyResponseIs | src/core/lua_engine.cpp:189-197 | the response it starts from: 200, no content, no headers |
| LuaEngine.Conversions.FollowIs | src/core/lua_engine.cpp:103-109 | one turn leads to the next entry, but after a converted key to the entry after the one with its text, or is refused |
| LuaEngine.Conversions.TwiceIsForever | src/core/lua_engine.cpp:103-109 | a traversal that comes to an entry twice never ends |
| LuaEngine.Conversions.FateIsFinal | src/core/lua_engine.cpp:102-110 | after as many turns as there are entries the traversal has ended or been refused, for good and with the same headers, or it goes on for ever |
| LuaEngine.Conversions.EndsIff | src/core/lua_engine.cpp:102-110 | it ends, or is refused, after some number of turns exactly when it has after as many turns as there are entries |
| LuaEngine.Conversions.VisitsOnce | src/core/lua_engine.cpp:102-110 | a traversal that ends visits no entry twice |
| LuaEngine.Conversions.StraightIff | src/core/lua_engine.cpp:102-110 | the entries are visited one after the other if and only if no numeric key has a string-like value |
| LuaEngine.Conversions.SkipsAnEntry | src/core/lua_engine.cpp:104-107 | key 1 before key "1": the second entry is skipped and the traversal ends |
| LuaEngine.Conversions.LosesItsKey | src/core/lua_engine.cpp:103-105 | key 1 alone: lua_next is refused the converted key |
| LuaEngine.Conversions.NeverEnds | src/core/lua_engine.cpp:103-109 | key "1" before key 1: the traversal goes on for ever |
| LuaEngine.Conversions.FailureThrowsIff | src/core/lua_utils.cpp:193-203 | a failed call throws if and only if the error is a string or number, or another value but nil whose __tostring, if any, gives a string or number; otherwise it crashes |
| LuaEngine.Conversions.NilErrorCrashes | src/core/lua_engine.cpp:82-84 | a handler that raises nil crashes the call |
| LuaEngine.Conversions.ReturnedIs | src/core/lua_engine.cpp:86-116 | the exact condition of each outcome of a call that returns: an exception if the result is no table, its status no number, its headers no table, or these are read to the end and its content is no string or number |
| LuaEngine.Conversions.ResponseIs | src/core/lua_engine.cpp:94-118 | what is sent for a result: its status, its headers completed, its content |
| LuaEngine.Exchange.SendResponse | src/core/request.h:307-329 | sends status, headers with a server header added if missing, and content, and can do so only once |
| LuaEngine.LuaState.constructor | src/core/lua_state_manager.cpp:178-189 | a new state has the traceback function on top, at its index |
| LuaEngine.LuaState.PushHeaders | src/core/lua_engine.cpp:167-172 | pushes one table with, for each name, the last header of that name, and nothing else |
| LuaEngine.LuaState.SkipSpaces | src/core/lua_engine.cpp:139-141 | finds where the name without leading spaces starts |
| LuaEngine.LuaState.PushCookies | src/core/lua_engine.cpp:124-152 | pushes one table whose keys are exactly the non-empty trimmed cookie names, for any cookie string |
| LuaEngine.LuaState.PushRequest | src/core/lua_engine.cpp:154-187 | pushes one table with exactly the request's fields; cookies only with a cookie header, content only for POST |
| LuaEngine.LuaState.PushResponse | src/core/lua_engine.cpp:189-197 | pushes one table with status 200, empty content and no headers |
| LuaEngine.LuaState.ReadHeaders | src/core/lua_engine.cpp:97-110 | comes out exactly as the traversal does, converting keys in place; if it ends, the headers of the visited entries have been added in order and the stack is restored |
| LuaEngine.LuaState.ReadResponse | src/core/lua_engine.cpp:86-120 | answers if and only if the result has a number for status, headers whose traversal ends and a string-like content; then these are sent and the result is popped |
| LuaEngine.LuaState.Begin | src/core/lua_engine.cpp:75-82 | the handler is called once with the request's tables, the traceback function in its place, if it is defined, and not at all otherwise |
| LuaEngine.LuaState.Finish | src/core/lua_engine.cpp:82-121 | the five outcomes of a call; an answer leaves the stack at its entry value with the traceback function in place and one response sent, every other outcome has sent none |
| LuaEngine.Engine.Take | src/core/lua_engine.cpp:71-72 | the state for a request is ready, and no longer in the pool |
| LuaEngine.Engine.BeginRequest | src/core/lua_engine.cpp:70-82 | takes a ready state out of the pool and calls the handler on it, while other requests are under way |
| LuaEngine.Engine.FinishRequest | src/core/lua_engine.cpp:82-122 | under any overlap of requests, a state goes back exactly when its request was answered, and every pooled state is as it was created, stack and traceback index included |
| LuaEngine.Engine.HandleRequest | src/core/lua_engine.cpp:70-122 | an uninterrupted request: its outcome, what is sent, and what the pool is afterwards |
| LuaEngine.Engine.Serve | src/core/server_impl.cpp:183-223 | a request gets exactly one response, 501 for other methods, the handler's, or 500 without a handler, after an error with a message or for an unusable result; and none exactly when the call crashes, aborts or diverges |
| Meter.RateClosedForm | src/metrics/meter.h:31-34 | the average is r0*(1-a)^n plus the counts weighted by their age |
| Meter.RateBetween | src/metrics/meter.h:31-34 | the average stays between any bounds of the start value and the counts |
| Meter.ConstantCounts | src/metrics/meter.h:31-34 | under a constant count the error is the initial one times (1-a)^n |
| Meter.ConvergesOverInterval | src/metrics/meter.h:77-78 | after the interval's length the error is exactly 0.005 of the initial one |
| Meter.InvStep | src/metrics/meter.h:28-30 | increments between taking the counter and adding it up are not lost |
| Meter.NothingLost | src/metrics/meter.h:28-50 | in every interleaving pending, taken and totalled increments are all increments, and between calls the rest is what was folded |
| Meter.MeterMetric.Increment | src/metrics/meter.h:46-47 | adds to the pending counter and returns it |
| Meter.MeterMetric.Aggregate | src/metrics/meter.h:28-35 | empties the counter into the total and folds it into the four averages |
| StringSplit.Find | lua/tools/string.lua:14 | the first occurrence, or none exactly when there is none |
| StringSplit.LoopCollects | lua/tools/string.lua:12-30 | the loop appends the split of the rest to the pieces it has |
| StringSplit.StringSplit | lua/tools/string.lua:6-32 | returns the split and its count, with or without a limit, and terminates unless the separator is empty and there is no limit |
| StringSplit.EmptySeparatorLoops | lua/tools/string.lua:12-24 | with an empty separator and no limit the loop is never left |
| StringSplit.EmptySeparatorSplits | lua/tools/string.lua:12-29 | with an empty separator and a limit it gives that many empty pieces and the string |
| StringSplit.JoinSplit | lua/tools/string.lua:6-32 | joining the pieces of an unlimited split gives the string back |
| StringSplit.PiecesFree | lua/tools/string.lua:6-32 | no piece of an unlimited split contains the separator |
| StringSplit.SplitJoin | lua/tools/string.lua:6-32 | splitting a join gives the pieces back if and only if the separator neither occurs in the last piece nor begins inside an earlier one |
| StringSplit.SplitJoinOneChar | lua/tools/string.lua:6-32 | for a one-character separator: if and only if no piece contains it |
| StringSplit.LimitedSplit | lua/tools/string.lua:25-29 | with a limit the pieces join to the string if and only if the limit is not reached, or the last piece before the cut has at most one character, or nothing follows it |
| StringSplit.LimitedPieces | lua/tools/string.lua:12-29 | a limited split has the pieces of the unlimited one up to the limit, and then all that follows, without as many characters as the piece before has, less one |
| StringSplit.LimitDropsCharacter | lua/tools/string.lua:25-28 | "ab.cd" split at "." with limit 1 gives "ab" and "d" |
| Fnv.StepIsBijection | src/lib/builtin/hash.cpp:84 | for a fixed byte the step is a bijection on 32-bit states, with the inverse prime 899433627 |
| Fnv.BytesSeparate | src/lib/builtin/hash.cpp:84 | from one state different bytes lead to different states |
| Fnv.RunConcat | src/lib/builtin/hash.cpp:83-85 | the loop over a concatenation is the loop over the parts in order |
| Fnv.SuffixSeparates | src/lib/builtin/hash.cpp:83-85 | after a common suffix two states are equal exactly when they were equal before it |
| Fnv.OneByteSeparates | src/lib/builtin/hash.cpp:79-86 | strings that differ in one byte hash differently if and only if no zero byte stands before it and, if one of the bytes is zero, the other one with what follows does not lead the hash back to where it was |
| Fnv.ZeroByteEnds | src/lib/builtin/hash.cpp:80 | nothing after a zero byte is hashed |
| Fnv.ZeroByteHidesDifference | src/lib/builtin/hash.cpp:80 | the strings of bytes 0, 1 and 0, 2 collide |
| Fnv.FnvHash | src/lib/builtin/hash.cpp:79-86 | the loop computes the hash of the string up to its first zero byte |
| Fnv.KnownHashes | src/lib/builtin/hash.cpp:82-85 | the hash of nothing is 2166136261, that of the byte 31 is 84696320 |

## Left out

- FileCache.InvRun: assumes one writer at a time, no registration or unregistration during its posting loop, and none between that loop and the main-map step while the main map holds the name; the source leaves that to its callers.
- RefreshProtocol.RefreshReachesWorkers: the disk stands still, and only the refresh thread writes during the pass.
- FileCache.ReplayAgrees: says nothing of how reads on one worker follow each other; a fill from the main map can run ahead of an older queued add.
- FileRefresh.Refresher.Refresh: the disk stands still during a pass, paths are component sequences without links, and a change that keeps size and time is not seen, as in src/core/file_cache.h:121-127. File contents are not modelled.
- Histogram.Sweep: times are reals, so rounding is not modelled; the bins' lower bounds, which only label the output, are left out.
- Timer.LastMinute: samples are assumed to be at most the largest double.
- Router.PathSet.Insert: the reference it returns is not modelled, nor is the recursive deletion of nodes.
- Router.PathSet.Find: returns the function by value.
- FiberCache.InvStep: assumes no spurious wake-ups, and that contexts are switched only in the wait and inside a task. A task that waits and goes on is one that is still running.
- FiberCache.ThreadCache.UnregisterIoService: between two drain tests at least one ready or running context makes progress; a task that never returns is not modelled.
- FiberSched.InvRun: rates are reals, ticks and updates of one thread; when the armed timer fires, and the ready queue, are Boost's.
- StatePool.StateManager.Refill: runs undisturbed; the interleaved refill is the step system's. The thread-local caches are a map from workers.
- LuaEngine.LuaState.PushCookies: the cookies' values are left open, because the code computes their length from the untrimmed part and the trimmed name. Of an empty part the code takes a reference to the first character without reading it; a debugging build of Boost would stop there.
- LuaEngine.LuaState.Finish: tables are values, without metatables and without aliasing between what the handler got and what it returns; the order in which Lua visits a table is that of its entry list. Conversions between numbers and text are parameters. After a crash, an abort or a divergence nothing is claimed of the process.
- LuaEngine.LuaState.ReadHeaders: stops after as many turns as there are entries, where the source would go on for ever.
- LuaEngine.Engine.FinishRequest: the pool is one worker's; how states move between pools is StatePool's. Development mode, which reloads scripts into a pooled state, is off.
- LuaEngine.LuaState.PushRequest: the first header named cookie is taken, where the container may return any of several.
- Meter.NothingLost: counters do not wrap around, and memory ordering is not modelled.
- Meter.ConvergesOverInterval: takes (1-a)^secs = 0.005 as what alpha means; exp and log are not modelled.
- Sockets, TLS, HTTP sessions, nghttp2, graphite output, logging, options and library loading: input and output or foreign calls.
- base64, md5 and sha1: the work is done by Boost and OpenSSL.
- The resolver cache, the metrics registry, the HTTP clients and request accessors: plain look-ups or network plumbing.
- The hand-off of new sessions in src/core/worker.cpp: its liveness rests on the timing of Boost's condition variables.
- The bootstrap call and the loading of scripts: one-time calls into Lua.
- string.starts_with: a single comparison.
