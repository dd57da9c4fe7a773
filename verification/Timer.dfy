/**
 The timer metric (src/metrics/timer.h): two sample buffers that are switched
 under a lock, a histogram per batch and a window of the last six histograms.
 Times are modelled as reals.
*/
module Timer {
  import opened Histogram

  /** The largest finite double, 2^1024 - 2^971. */
  const DBL_MAX: real :=
    179769313486231570814527423731704356798070567525844996598917476803157260780028538760589558632766878171540458953514382464234321326889464182768467546703537516986049910576551282076245490090389328944075868508455133942304583236903222948165808559332123348274797826204144723168738177180919299881250404026184124858368.0

  datatype Hist = Hist(min: real, max: real, avg: real, sum: real, count: nat, dist: seq<nat>)

  function Zeros(n: nat): seq<nat> {
    seq(n + 1, _ => 0)
  }

  function Empty(n: nat): Hist {
    Hist(0.0, 0.0, 0.0, 0.0, 0, Zeros(n))
  }

  /** The histogram of one batch. */
  function HistOf(batch: seq<real>, n: nat, b: real): (h: Hist)
    ensures |h.dist| == n + 1
  {
    if batch == [] then Empty(n)
    else
      var s := Sorted(batch);
      Hist(s[0], s[|s| - 1], Sum(batch) / |batch| as real, Sum(batch), |batch|, Bins(batch, n, b))
  }

  ghost predicate AllBetween(lo: real, x: seq<real>, hi: real) {
    forall d :: d in x ==> lo <= d <= hi
  }

  ghost predicate AtMostMax(x: seq<real>) {
    forall d :: d in x ==> d <= DBL_MAX
  }

  /** The bounds are the least and greatest sample, or 0 when there is none. */
  ghost predicate Bounds(h: Hist, batch: seq<real>) {
    if batch == [] then h.min == 0.0 && h.max == 0.0
    else h.min in batch && h.max in batch && AllBetween(h.min, batch, h.max)
  }

  lemma HistBounds(batch: seq<real>, n: nat, b: real)
    ensures Bounds(HistOf(batch, n, b), batch)
  {
    if batch != [] {
      var s := Sorted(batch);
      assert s[0] in multiset(s) && s[|s| - 1] in multiset(s);
      forall d | d in batch
        ensures s[0] <= d <= s[|s| - 1]
      {
        assert d in multiset(s);
        var i :| 0 <= i < |s| && s[i] == d;
      }
    }
  }

  /** What the histogram of a batch says. */
  lemma HistIs(batch: seq<real>, n: nat, b: real)
    ensures
      var h := HistOf(batch, n, b);
      && Builder(n, b)(batch) == h
      && h.sum == Sum(batch) && h.count == |batch| && h.dist == (if batch == [] then Zeros(n) else Bins(batch, n, b))
      && (batch == [] ==> h.min == h.max == h.avg == 0.0)
      && (batch != [] ==>
            && h.avg == Sum(batch) / |batch| as real
            && h.min in batch && h.max in batch && forall d :: d in batch ==> h.min <= d <= h.max)
  {
    HistBounds(batch, n, b);
  }

  // ----- the window

  function AddBins(x: seq<nat>, y: seq<nat>): (r: seq<nat>)
    ensures |r| == |x| && forall k :: 0 <= k < |x| ==> r[k] == x[k] + (if k < |y| then y[k] else 0)
  {
    seq(|x|, k requires 0 <= k < |x| => x[k] + (if k < |y| then y[k] else 0))
  }

  function MergeInto(acc: Hist, h: Hist): Hist {
    Hist(if acc.min > h.min then h.min else acc.min, if acc.max < h.max then h.max else acc.max,
         acc.avg, acc.sum + h.sum, acc.count + h.count, AddBins(acc.dist, h.dist))
  }

  function Folded(window: seq<Hist>, n: nat): (h: Hist)
    ensures |h.dist| == n + 1
  {
    if window == [] then Empty(n).(min := DBL_MAX)
    else MergeInto(Folded(window[..|window| - 1], n), window[|window| - 1])
  }

  /** What `get_1min_histogram` makes of the window. */
  function Merged(window: seq<Hist>, n: nat): Hist {
    if window == [] then Empty(n)
    else
      var f := Folded(window, n);
      if f.count > 0 then f.(avg := f.sum / f.count as real) else f
  }

  function Hists(build: seq<real> -> Hist, batches: seq<seq<real>>): (r: seq<Hist>)
    ensures |r| == |batches| && forall k :: 0 <= k < |r| ==> r[k] == build(batches[k])
  {
    if batches == [] then [] else Hists(build, batches[..|batches| - 1]) + [build(batches[|batches| - 1])]
  }

  /** How the timer makes a histogram out of a batch. */
  function Builder(n: nat, b: real): seq<real> -> Hist {
    batch => HistOf(batch, n, b)
  }

  function Flat(batches: seq<seq<real>>): seq<real> {
    if batches == [] then [] else Flat(batches[..|batches| - 1]) + batches[|batches| - 1]
  }

  lemma {:induction false} FoldedSums(hs: seq<Hist>, batches: seq<seq<real>>, n: nat)
    requires |hs| == |batches| && forall k :: 0 <= k < |hs| ==> Describes(hs[k], batches[k], n)
    ensures
      var f, x := Folded(hs, n), Flat(batches);
      f.sum == Sum(x) && f.count == |x| && f.avg == 0.0
  {
    if hs != [] {
      var m := |hs| - 1;
      FoldedSums(hs[..m], batches[..m], n);
      SumConcat(Flat(batches[..m]), batches[m]);
      assert Describes(hs[m], batches[m], n);
    }
  }

  lemma Between(lo: real, x: seq<real>, hi: real, lo2: real, y: seq<real>, hi2: real, lo3: real, hi3: real)
    requires AllBetween(lo, x, hi) && AllBetween(lo2, y, hi2)
    requires lo3 <= lo && lo3 <= lo2 && hi <= hi3 && hi2 <= hi3
    ensures AllBetween(lo3, x + y, hi3)
  {
  }

  lemma {:induction false} FoldedBounds(hs: seq<Hist>, batches: seq<seq<real>>, n: nat)
    requires |hs| == |batches| && forall k :: 0 <= k < |hs| ==> Describes(hs[k], batches[k], n)
    ensures
      var f, x := Folded(hs, n), Flat(batches);
      && AllBetween(f.min, x, f.max)
      && f.max >= 0.0 && (f.max == 0.0 || f.max in x)
      && ([] in batches ==> f.min <= 0.0)
      && (f.min == DBL_MAX || f.min in x || ([] in batches && f.min == 0.0))
  {
    if hs != [] {
      var m := |hs| - 1;
      var x, y, h := Flat(batches[..m]), batches[m], hs[m];
      FoldedBounds(hs[..m], batches[..m], n);
      assert Describes(h, y, n);
      assert batches == batches[..m] + [y];
      var f, g := Folded(hs[..m], n), Folded(hs, n);
      assert g == MergeInto(f, h);
      Between(f.min, x, f.max, h.min, y, h.max, g.min, g.max);
    }
  }

  lemma CountsConcat(x: seq<nat>, y: seq<nat>, n: nat)
    ensures Counts(x + y, n) == AddBins(Counts(x, n), Counts(y, n))
  {
  }

  lemma {:induction false} FoldedBins(hs: seq<Hist>, batches: seq<seq<real>>, n: nat, b: real)
    requires |hs| == |batches| && forall k :: 0 <= k < |hs| ==> hs[k].dist == Counts(Classes(batches[k], n, b), n)
    ensures Folded(hs, n).dist == Counts(Classes(Flat(batches), n, b), n)
  {
    if hs != [] {
      var m := |hs| - 1;
      var x, y := Flat(batches[..m]), batches[m];
      FoldedBins(hs[..m], batches[..m], n, b);
      assert Flat(batches) == x + y;
      ClassesConcat(x, y, n, b);
      CountsConcat(Classes(x, n, b), Classes(y, n, b), n);
      assert Folded(hs, n).dist == AddBins(Folded(hs[..m], n).dist, hs[m].dist);
    }
  }

  lemma {:induction false} InFlat(batches: seq<seq<real>>, k: nat, d: real)
    requires k < |batches| && d in batches[k]
    ensures d in Flat(batches)
  {
    if k < |batches| - 1 { InFlat(batches[..|batches| - 1], k, d); }
  }

  /** Every bin of whole samples. */
  lemma WindowBins(batches: seq<seq<real>>, n: nat, b: real)
    requires IsWhole(b) && b >= 0.0 && forall d :: d in Flat(batches) ==> IsWhole(d)
    ensures Folded(Hists(Builder(n, b), batches), n).dist == HistOf(Flat(batches), n, b).dist
  {
    var hs := Hists(Builder(n, b), batches);
    forall k | 0 <= k < |batches|
      ensures hs[k].dist == Counts(Classes(batches[k], n, b), n)
    {
      forall d | d in batches[k]
        ensures IsWhole(d)
      {
        InFlat(batches, k, d);
      }
      WholeBins(batches[k], n, b);
    }
    FoldedBins(hs, batches, n, b);
    WholeBins(Flat(batches), n, b);
  }

  /** All that a histogram says of its batch besides the bins. */
  ghost predicate Describes(h: Hist, batch: seq<real>, n: nat) {
    && |h.dist| == n + 1
    && h.sum == Sum(batch) && h.count == |batch|
    && h.avg == (if batch == [] then 0.0 else Sum(batch) / |batch| as real)
    && Bounds(h, batch)
  }

  lemma HistDescribes(batch: seq<real>, n: nat, b: real)
    ensures Describes(HistOf(batch, n, b), batch, n)
  {
    HistBounds(batch, n, b);
  }

  lemma HistsDescribe(batches: seq<seq<real>>, n: nat, b: real)
    ensures forall k :: 0 <= k < |batches| ==> Describes(Hists(Builder(n, b), batches)[k], batches[k], n)
  {
    forall k | 0 <= k < |batches|
      ensures Describes(Hists(Builder(n, b), batches)[k], batches[k], n)
    {
      HistDescribes(batches[k], n, b);
    }
  }

  /** The merged window against a histogram of all its samples at once: sum, count
      and average always agree; the maximum agrees exactly when it is not negative,
      the minimum exactly when no batch is empty or it is not positive. */
  lemma WindowSummary(hs: seq<Hist>, batches: seq<seq<real>>, n: nat, c: Hist)
    requires |hs| == |batches| && forall k :: 0 <= k < |hs| ==> Describes(hs[k], batches[k], n)
    requires Describes(c, Flat(batches), n) && forall d :: d in Flat(batches) ==> d <= DBL_MAX
    ensures
      var x, m := Flat(batches), Merged(hs, n);
      && m.sum == c.sum && m.count == c.count && m.avg == c.avg
      && (m.max == c.max <==> x == [] || c.max >= 0.0)
      && (m.min == c.min <==> x == [] || [] !in batches || c.min <= 0.0)
  {
    FoldedSums(hs, batches, n);
    FoldedBounds(hs, batches, n);
    if Flat(batches) == [] && batches != [] {
      AllEmpty(batches);
    }
  }

  /** One negative sample: its maximum is -1, the window's is 0. */
  lemma NegativeMaximumMissed(n: nat, b: real)
    ensures Merged([HistOf([-1.0], n, b)], n).max == 0.0 && HistOf([-1.0], n, b).max == -1.0
  {
    HistBounds([-1.0], n, b);
    var h := HistOf([-1.0], n, b);
    assert h.max == -1.0;
    assert [h][..0] == [];
    assert Folded([h], n) == MergeInto(Folded([], n), h);
  }

  /** An empty batch before a sample: the minimum is 5, the window's is 0. */
  lemma EmptyBatchHidesMinimum(n: nat, b: real)
    ensures Merged([HistOf([], n, b), HistOf([5.0], n, b)], n).min == 0.0 && HistOf([5.0], n, b).min == 5.0
  {
    HistBounds([5.0], n, b);
    var e, h := HistOf([], n, b), HistOf([5.0], n, b);
    assert h.min == 5.0;
    assert [e, h][..1] == [e] && [e][..0] == [];
    assert Folded([e], n).min == 0.0;
  }

  /** `m` is the histogram of all the batches' samples at once, up to the limits that
      `WindowSummary` draws for the bounds; with whole samples every bin agrees too. */
  ghost predicate Summarises(m: Hist, batches: seq<seq<real>>, n: nat, b: real) {
    var x, c := Flat(batches), HistOf(Flat(batches), n, b);
    && m.sum == c.sum && m.count == c.count && m.avg == c.avg
    && (m.max == c.max <==> x == [] || c.max >= 0.0)
    && (m.min == c.min <==> x == [] || [] !in batches || c.min <= 0.0)
    && (IsWhole(b) && b >= 0.0 && (forall d :: d in x ==> IsWhole(d)) ==> m.dist == c.dist)
  }

  lemma SummarisesMeans(m: Hist, batches: seq<seq<real>>, n: nat, b: real)
    requires Summarises(m, batches, n, b)
    ensures
      var x, c := Flat(batches), HistOf(Flat(batches), n, b);
      && m.sum == c.sum == Sum(x) && m.count == c.count == |x|
      && m.avg == c.avg && (x != [] ==> c.avg == Sum(x) / |x| as real)
      && (m.max == c.max <==> x == [] || c.max >= 0.0)
      && (m.min == c.min <==> x == [] || [] !in batches || c.min <= 0.0)
      && (x != [] ==> c.min in x && c.max in x && forall d :: d in x ==> c.min <= d <= c.max)
      && (IsWhole(b) && b >= 0.0 && (forall d :: d in x ==> IsWhole(d)) ==> m.dist == c.dist)
  {
    HistBounds(Flat(batches), n, b);
  }

  /** The merged window is the histogram of the concatenated batches. */
  lemma WindowIsConcatenation(batches: seq<seq<real>>, n: nat, b: real)
    requires AtMostMax(Flat(batches))
    ensures Summarises(Merged(Hists(Builder(n, b), batches), n), batches, n, b)
  {
    HistsDescribe(batches, n, b);
    HistDescribes(Flat(batches), n, b);
    WindowSummary(Hists(Builder(n, b), batches), batches, n, HistOf(Flat(batches), n, b));
    if IsWhole(b) && b >= 0.0 && forall d :: d in Flat(batches) ==> IsWhole(d) {
      WindowBins(batches, n, b);
    }
  }

  lemma AllEmpty(batches: seq<seq<real>>)
    requires Flat(batches) == [] && batches != []
    ensures [] in batches
  {
    assert batches[|batches| - 1] == [];
  }

  // ----- updates and aggregation interleaved

  /** Where a call of `aggregate` stands: it has chosen the active buffer, switched
      to the other one, or built the histogram of the batch it found. */
  datatype Phase = Idle | Chosen(old_: nat) | Switched(old_: nat) | Built(old_: nat, batch: seq<real>, hist: Hist)

  /** `added` and `batches` are history: every sample passed to `update`, and every
      batch folded into a histogram, oldest first. */
  datatype State = State(
    build: seq<real> -> Hist,
    times: seq<seq<real>>, idx: nat, values: seq<Hist>, counter: nat,
    phase: Phase, added: multiset<real>, batches: seq<seq<real>>)

  datatype Event = Update(t: real) | Tick | Switch | Build | Finish

  predicate Enabled(s: State, e: Event) {
    match e
    case Update(_) => true
    case Tick => s.phase.Idle?
    case Switch => s.phase.Chosen?
    case Build => s.phase.Switched?
    case Finish => s.phase.Built?
  }

  ghost predicate WellTyped(s: State) {
    |s.times| == 2 && s.idx < 2 && (!s.phase.Idle? ==> s.phase.old_ < 2)
  }

  function Evict(values: seq<Hist>): seq<Hist> {
    if |values| > 6 then values[1..] else values
  }

  function Step(s: State, e: Event): (t: State)
    requires WellTyped(s) && Enabled(s, e)
    ensures WellTyped(t) && t.build == s.build
  {
    match e
    case Update(t) => s.(times := s.times[s.idx := s.times[s.idx] + [t]], added := s.added + multiset{t})
    case Tick =>
      if s.counter + 1 >= 10 then s.(counter := 0, phase := Chosen(s.idx)) else s.(counter := s.counter + 1)
    case Switch => s.(idx := (s.idx + 1) % 2, phase := Switched(s.phase.old_))
    case Build =>
      var o := s.phase.old_;
      s.(times := s.times[o := Sorted(s.times[o])], phase := Built(o, s.times[o], s.build(s.times[o])))
    case Finish =>
      s.(times := s.times[s.phase.old_ := []], values := Evict(s.values + [s.phase.hist]),
         batches := s.batches + [s.phase.batch], phase := Idle)
  }

  function Init(build: seq<real> -> Hist): State {
    State(build, [[], []], 0, [], 0, Idle, multiset{}, [])
  }

  ghost predicate IsRun(s: State, es: seq<Event>)
    requires WellTyped(s)
    decreases |es|
  {
    es == [] || (Enabled(s, es[0]) && IsRun(Step(s, es[0]), es[1..]))
  }

  ghost function Exec(s: State, es: seq<Event>): (t: State)
    requires WellTyped(s) && IsRun(s, es)
    ensures WellTyped(t)
    decreases |es|
  {
    if es == [] then s else Exec(Step(s, es[0]), es[1..])
  }

  /** What can happen when: updates always, the steps of a call in their order. */
  lemma PossibleSteps(s: State, t: real)
    ensures Enabled(s, Update(t))
    ensures (Enabled(s, Tick) <==> s.phase.Idle?) && (Enabled(s, Switch) <==> s.phase.Chosen?)
    ensures (Enabled(s, Build) <==> s.phase.Switched?) && (Enabled(s, Finish) <==> s.phase.Built?)
  {
  }

  /** A run is one possible step after the other. */
  lemma RunIs(s: State, e: Event, rest: seq<Event>)
    requires WellTyped(s)
    ensures IsRun(s, []) && Exec(s, []) == s
    ensures IsRun(s, [e] + rest) <==> Enabled(s, e) && IsRun(Step(s, e), rest)
    ensures IsRun(s, [e] + rest) ==> Exec(s, [e] + rest) == Exec(Step(s, e), rest)
  {
    assert ([e] + rest)[1..] == rest;
  }

  function LastSix(batches: seq<seq<real>>): seq<seq<real>> {
    if |batches| <= 6 then batches else batches[|batches| - 6..]
  }

  /** The buffer that `update` does not write to is empty outside a drain, and
      nothing touches it during one. */
  ghost predicate BuffersOk(s: State) {
    WellTyped(s) &&
    match s.phase
    case Idle => s.times[1 - s.idx] == []
    case Chosen(o) => o == s.idx && s.times[1 - s.idx] == []
    case Switched(o) => o == 1 - s.idx
    case Built(o, batch, h) => o == 1 - s.idx && h == s.build(batch) && multiset(batch) == multiset(s.times[o])
  }

  ghost predicate Inv(s: State) {
    && BuffersOk(s)
    && s.added == multiset(s.times[0]) + multiset(s.times[1]) + multiset(Flat(s.batches))
    && s.values == Hists(s.build, LastSix(s.batches))
    && s.counter < 10
  }

  lemma UpdateKeeps(s: State, t: real)
    requires Inv(s)
    ensures Inv(Step(s, Update(t)))
  {
    assert multiset(s.times[s.idx] + [t]) == multiset(s.times[s.idx]) + multiset{t};
  }

  lemma BuildKeeps(s: State)
    requires Inv(s) && s.phase.Switched?
    ensures Inv(Step(s, Build))
  {
    assert multiset(Sorted(s.times[s.phase.old_])) == multiset(s.times[s.phase.old_]);
  }

  lemma SlideWindow(build: seq<real> -> Hist, batches: seq<seq<real>>, batch: seq<real>)
    ensures Evict(Hists(build, LastSix(batches)) + [build(batch)]) == Hists(build, LastSix(batches + [batch]))
  {
    var x, y := LastSix(batches), LastSix(batches + [batch]);
    assert y == (if |batches| < 6 then x + [batch] else x[1..] + [batch]);
  }

  lemma FinishKeeps(s: State)
    requires Inv(s) && s.phase.Built?
    ensures Inv(Step(s, Finish))
  {
    var t := Step(s, Finish);
    assert t.batches[..|s.batches|] == s.batches;
    assert multiset(Flat(t.batches)) == multiset(Flat(s.batches)) + multiset(s.phase.batch);
    SlideWindow(s.build, s.batches, s.phase.batch);
  }

  lemma InvStep(s: State, e: Event)
    requires Inv(s) && Enabled(s, e)
    ensures Inv(Step(s, e))
  {
    match e
    case Update(t) => UpdateKeeps(s, t);
    case Tick =>
    case Switch =>
    case Build => BuildKeeps(s);
    case Finish => FinishKeeps(s);
  }

  lemma {:induction false} InvRun(s: State, es: seq<Event>)
    requires Inv(s) && IsRun(s, es)
    ensures Inv(Exec(s, es)) && Exec(s, es).build == s.build
    decreases |es|
  {
    if es != [] {
      InvStep(s, es[0]);
      InvRun(Step(s, es[0]), es[1..]);
    }
  }

  lemma UpdateCounted(s: State, e: Event, d: real)
    requires WellTyped(s) && Enabled(s, e)
    ensures Step(s, e).added[d] == s.added[d] + (if e == Update(d) then 1 else 0)
  {
  }

  /** What counts as added are the samples passed to `update`. */
  lemma {:induction false} AddedAreUpdates(s: State, es: seq<Event>, d: real)
    requires WellTyped(s) && IsRun(s, es)
    ensures Exec(s, es).added[d] == s.added[d] + multiset(es)[Update(d)]
    decreases |es|
  {
    if es != [] {
      UpdateCounted(s, es[0], d);
      AddedAreUpdates(Step(s, es[0]), es[1..], d);
      assert es == [es[0]] + es[1..];
    }
  }

  lemma WhereAdded(s: State, d: real)
    requires Inv(s)
    ensures s.added[d] == multiset(s.times[0])[d] + multiset(s.times[1])[d] + multiset(Flat(s.batches))[d]
  {
  }

  /** Under any interleaving no sample is lost or counted twice: as often as `update` was
      called with `d`, it is in the two buffers and the folded batches. */
  lemma NoSampleLost(build: seq<real> -> Hist, es: seq<Event>, d: real)
    requires IsRun(Init(build), es)
    ensures
      var s := Exec(Init(build), es);
      multiset(es)[Update(d)] == multiset(s.times[0])[d] + multiset(s.times[1])[d] + multiset(Flat(s.batches))[d]
  {
    InvRun(Init(build), es);
    AddedAreUpdates(Init(build), es, d);
    WhereAdded(Exec(Init(build), es), d);
  }

  /** The inactive buffer is empty outside a drain, and the window holds the histograms of
      the last six batches. */
  lemma WindowHoldsLastSix(build: seq<real> -> Hist, es: seq<Event>)
    requires IsRun(Init(build), es)
    ensures
      var s := Exec(Init(build), es);
      && (s.phase.Idle? ==> s.times[1 - s.idx] == [])
      && s.values == Hists(build, if |s.batches| <= 6 then s.batches else s.batches[|s.batches| - 6..])
  {
    InvRun(Init(build), es);
  }

  lemma WindowOfRun(build: seq<real> -> Hist, es: seq<Event>)
    requires IsRun(Init(build), es) && forall d :: d in Exec(Init(build), es).added ==> d <= DBL_MAX
    ensures
      var s := Exec(Init(build), es);
      s.values == Hists(build, LastSix(s.batches)) && AtMostMax(Flat(LastSix(s.batches)))
  {
    InvRun(Init(build), es);
    var s := Exec(Init(build), es);
    forall d | d in Flat(LastSix(s.batches))
      ensures d <= DBL_MAX
    {
      WindowWasAdded(s, d);
    }
  }

  /** After any interleaving, what `get_1min_histogram` makes of the window is the
      histogram of the last six batches together. */
  lemma LastMinute(build: seq<real> -> Hist, n: nat, b: real, es: seq<Event>)
    requires build == Builder(n, b) && IsRun(Init(build), es)
    requires forall d :: d in Exec(Init(build), es).added ==> d <= DBL_MAX
    ensures
      var s := Exec(Init(build), es);
      Summarises(Merged(s.values, n), LastSix(s.batches), n, b)
  {
    WindowOfRun(build, es);
    WindowIsConcatenation(LastSix(Exec(Init(build), es).batches), n, b);
  }

  lemma {:induction false} FromSomeBatch(batches: seq<seq<real>>, d: real) returns (k: nat)
    requires d in Flat(batches)
    ensures k < |batches| && d in batches[k]
  {
    var m := |batches| - 1;
    if d in batches[m] {
      k := m;
    } else {
      k := FromSomeBatch(batches[..m], d);
    }
  }

  lemma FlatWasAdded(s: State, x: seq<real>, d: real)
    requires multiset(x) <= s.added && d in x
    ensures d in s.added
  {
    assert multiset(x)[d] > 0;
  }

  lemma WindowWasAdded(s: State, d: real)
    requires Inv(s) && d in Flat(LastSix(s.batches))
    ensures d in s.added
  {
    var k := FromSomeBatch(LastSix(s.batches), d);
    InFlat(s.batches, if |s.batches| <= 6 then k else |s.batches| - 6 + k, d);
    FlatWasAdded(s, Flat(s.batches), d);
  }

  // ----- the class

  /** One uninterrupted call of `aggregate`: every tenth folds the active buffer. */
  function Aggregated(s: State): State
    requires WellTyped(s) && s.phase.Idle?
  {
    if s.counter + 1 < 10 then s.(counter := s.counter + 1)
    else
      s.(counter := 0, idx := (s.idx + 1) % 2, times := s.times[s.idx := []],
         values := Evict(s.values + [s.build(s.times[s.idx])]), batches := s.batches + [s.times[s.idx]])
  }

  /** The call is its steps, one after the other. */
  lemma AggregatedIsRun(s: State)
    requires WellTyped(s) && s.phase.Idle?
    ensures
      var t := Step(s, Tick);
      Aggregated(s) == if t.phase.Idle? then t else Step(Step(Step(t, Switch), Build), Finish)
  {
    var x := Sorted(s.times[s.idx]);
    assert s.times[s.idx := x][s.idx := []] == s.times[s.idx := []];
  }

  /** What a call changes: nine of ten only count; the tenth empties the active buffer
      into a histogram, switches to the other buffer and keeps six histograms. */
  lemma AggregatedIs(s: State)
    requires WellTyped(s) && s.phase.Idle?
    ensures
      var t := Aggregated(s);
      && t.build == s.build && t.added == s.added && t.phase.Idle? && |t.times| == 2
      && if s.counter + 1 < 10 then
           && t.counter == s.counter + 1 && t.idx == s.idx
           && t.times == s.times && t.values == s.values && t.batches == s.batches
         else
           && t.counter == 0 && t.idx == 1 - s.idx && t.times[s.idx] == [] && t.times[t.idx] == s.times[t.idx]
           && t.batches == s.batches + [s.times[s.idx]]
           && (|s.values| < 6 ==> t.values == s.values + [s.build(s.times[s.idx])])
           && (|s.values| == 6 ==> t.values == s.values[1..] + [s.build(s.times[s.idx])])
  {
  }

  class TimerMetric {
    const numOfBins: nat
    const binSize: real
    var times: seq<seq<real>>
    var timesIdx: nat
    var values: seq<Hist>
    var aggregateCounter: nat
    ghost const build: seq<real> -> Hist
    ghost var added: multiset<real>
    ghost var batches: seq<seq<real>>

    ghost function Now(): State
      reads this
    {
      State(build, times, timesIdx, values, aggregateCounter, Idle, added, batches)
    }

    constructor (n: nat, b: real)
      ensures build == Builder(n, b) && numOfBins == n && binSize == b
      ensures Now() == Init(build) && Inv(Now())
    {
      numOfBins, binSize, build := n, b, Builder(n, b);
      times, timesIdx, values, aggregateCounter := [[], []], 0, [], 0;
      added, batches := multiset{}, [];
    }

    method Update(t: real)
      requires WellTyped(Now())
      modifies this`times, this`added
      ensures WellTyped(Now()) && times[timesIdx] == old(times)[timesIdx] + [t]
      ensures times[1 - timesIdx] == old(times)[1 - timesIdx] && added == old(added) + multiset{t}
      ensures Now() == Step(old(Now()), Event.Update(t))
    {
      times := times[timesIdx := times[timesIdx] + [t]];
      added := added + multiset{t};
    }

    /** The summing loop. */
    static method Total(data: seq<real>) returns (sum: real)
      ensures sum == Sum(data)
    {
      sum := 0.0;
      for j := 0 to |data|
        invariant sum == Sum(data[..j])
      {
        assert data[..j + 1][..j] == data[..j];
        sum := sum + data[j];
      }
      assert data[..|data|] == data;
    }

    /** Builds the histogram of a batch. */
    method BuildHistogram(batch: seq<real>) returns (hist: Hist)
      requires build == Builder(numOfBins, binSize)
      ensures hist == build(batch)
    {
      hist := Empty(numOfBins);
      if batch != [] {
        var data := Sorted(batch);
        var sum := Total(data);
        SumRearranged(data, batch);
        var dist := Sweep(data, numOfBins, binSize);
        hist := Hist(data[0], data[|data| - 1], sum / |data| as real, sum, |data|, dist);
      }
    }

    /** Folds the inactive buffer into a histogram and evicts the oldest of seven. */
    method Drain(chosen: nat)
      requires WellTyped(Now()) && chosen < 2 && build == Builder(numOfBins, binSize)
      modifies this`times, this`values, this`batches
      ensures times == old(times)[chosen := []] && batches == old(batches) + [old(times)[chosen]]
      ensures values == Evict(old(values) + [build(old(times)[chosen])])
    {
      var hist := BuildHistogram(times[chosen]);
      batches := batches + [times[chosen]];
      times := times[chosen := []];
      values := values + [hist];
      if |values| > 6 {
        values := values[1..];
      }
    }

    /** Nine calls of ten only count; the tenth empties the active buffer into a histogram
        of its samples, switches to the other buffer and keeps the last six histograms. */
    method Aggregate()
      requires WellTyped(Now()) && build == Builder(numOfBins, binSize)
      modifies this
      ensures Now() == Aggregated(old(Now()))
    {
      aggregateCounter := aggregateCounter + 1;
      if aggregateCounter >= 10 {
        aggregateCounter := 0;
        var chosen := timesIdx;
        timesIdx := (timesIdx + 1) % 2;
        Drain(chosen);
      }
    }

    method Get1MinHistogram() returns (aggregate: Hist)
      requires forall k :: 0 <= k < |values| ==> |values[k].dist| == numOfBins + 1
      ensures aggregate == Merged(values, numOfBins)
    {
      aggregate := Empty(numOfBins);
      if |values| > 0 {
        aggregate := aggregate.(min := DBL_MAX);
        for j := 0 to |values|
          invariant aggregate == Folded(values[..j], numOfBins)
        {
          var hist := values[j];
          assert values[..j + 1][..j] == values[..j];
          var dist := aggregate.dist;
          for i := 0 to numOfBins + 1
            invariant |dist| == numOfBins + 1
            invariant forall k :: 0 <= k <= numOfBins ==>
              dist[k] == aggregate.dist[k] + (if k < i then hist.dist[k] else 0)
          {
            dist := dist[i := dist[i] + hist.dist[i]];
          }
          assert dist == AddBins(aggregate.dist, hist.dist);
          aggregate := Hist(if aggregate.min > hist.min then hist.min else aggregate.min,
                            if aggregate.max < hist.max then hist.max else aggregate.max,
                            aggregate.avg, aggregate.sum + hist.sum, aggregate.count + hist.count, dist);
        }
        assert values[..|values|] == values;
        if aggregate.count > 0 {
          aggregate := aggregate.(avg := aggregate.sum / aggregate.count as real);
        }
      }
    }
  }
}
