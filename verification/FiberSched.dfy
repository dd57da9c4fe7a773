/**
 The scheduler's back-off (src/core/fiber_sched_algorithm.h and .cpp): two
 decaying activity rates choose how long a worker's keep-alive timer waits.
 Rates are modelled as reals.
*/
module FiberSched {

  /** The keep-alive interval: 100ns, 1ms or 30ms. */
  datatype Interval = Short | Long | ExtraLong

  function Rank(i: Interval): nat {
    match i case Short => 0 case Long => 1 case ExtraLong => 2
  }

  datatype State = State(counter: nat, rateL: real, rateXL: real, expires: Interval)

  /** The thread-local members before the first tick. */
  function Init(): State {
    State(0, 1.0, 1.0, Short)
  }

  function Clamp(x: real): real {
    if x < 0.0 then 0.0 else x
  }

  function Choose(rateL: real, rateXL: real): Interval {
    if rateXL == 0.0 then ExtraLong else if rateL == 0.0 then Long else Short
  }

  /** One call of `on_empty_io_service`. */
  function Tick(s: State): State {
    var l := Clamp(s.rateL * 0.99999 - 0.0001 + s.counter as real);
    var xl := Clamp(s.rateXL * 0.99999 - 0.00009 + s.counter as real);
    State(0, l, xl, Choose(l, xl))
  }

  /** One call of `update`. */
  function Updated(s: State): State {
    s.(counter := s.counter + 1, expires := Short)
  }

  datatype Event = Activity | KeepAlive

  function Step(s: State, e: Event): State {
    match e case Activity => Updated(s) case KeepAlive => Tick(s)
  }

  function Exec(s: State, es: seq<Event>): State
    decreases |es|
  {
    if es == [] then s else Exec(Step(s, es[0]), es[1..])
  }

  /** A run is one event after the other, and activity only counts and resets. */
  lemma RunIs(s: State, e: Event, rest: seq<Event>)
    ensures Exec(s, []) == s && Exec(s, [e] + rest) == Exec(Step(s, e), rest)
    ensures Step(s, KeepAlive) == Tick(s) && Step(s, Activity) == s.(counter := s.counter + 1, expires := Short)
  {
    assert ([e] + rest)[1..] == rest;
  }

  /** The slow rate never falls far behind the fast one, and the interval is the one
      the rates call for unless there was activity since the last tick. */
  ghost predicate Inv(s: State) {
    && s.rateL >= 0.0 && s.rateXL >= 0.0
    && (s.rateL > 0.0 ==> 11.0 * (s.rateXL + 9.0) >= 10.0 * (s.rateL + 10.0))
    && s.expires == (if s.counter > 0 then Short else Choose(s.rateL, s.rateXL))
  }

  /** Both rates, shifted, shrink by the same factor; that keeps them in proportion. */
  lemma InvStep(s: State, e: Event)
    requires Inv(s)
    ensures Inv(Step(s, e))
  {
    if e.KeepAlive? {
      var c := s.counter as real;
      var l, xl := s.rateL * 0.99999 - 0.0001 + c, s.rateXL * 0.99999 - 0.00009 + c;
      assert l + 10.0 == 0.99999 * (s.rateL + 10.0) + c;
      assert xl + 9.0 == 0.99999 * (s.rateXL + 9.0) + c;
      assert s.counter == 0 || c >= 1.0;
    }
  }

  lemma {:induction false} InvRun(s: State, es: seq<Event>)
    requires Inv(s)
    ensures Inv(Exec(s, es))
    decreases |es|
  {
    if es != [] {
      InvStep(s, es[0]);
      InvRun(Step(s, es[0]), es[1..]);
    }
  }

  /** Any tick that follows activity waits the shortest interval. */
  lemma ActivityPicksShort(es: seq<Event>)
    requires Exec(Init(), es).counter > 0
    ensures Tick(Exec(Init(), es)).expires == Short
  {
    InvRun(Init(), es);
  }

  /** After `n` ticks without activity. */
  function Idle(s: State, n: nat): State {
    if n == 0 then s else Tick(Idle(s, n - 1))
  }

  lemma {:induction false} IdleInv(s: State, n: nat)
    requires Inv(s) && s.counter == 0
    ensures Inv(Idle(s, n)) && Idle(s, n).counter == 0
  {
    if n > 0 {
      IdleInv(s, n - 1);
      InvStep(Idle(s, n - 1), KeepAlive);
    }
  }

  function Pow(x: real, n: nat): real {
    if n == 0 then 1.0 else Pow(x, n - 1) * x
  }

  lemma {:induction false} PowShrinks(n: nat)
    ensures 0.0 < Pow(0.99999, n) <= 1.0
  {
    if n > 0 { PowShrinks(n - 1); }
  }

  /** One tick, with each rate shifted to where it shrinks by a factor. */
  lemma TickIs(s: State)
    ensures
      var t := Tick(s);
      var l := (s.rateL + 10.0) * 0.99999 - 10.0 + s.counter as real;
      var xl := (s.rateXL + 9.0) * 0.99999 - 9.0 + s.counter as real;
      && t.counter == 0
      && t.rateL == (if l < 0.0 then 0.0 else l)
      && t.rateXL == (if xl < 0.0 then 0.0 else xl)
      && t.expires == (if t.rateXL == 0.0 then ExtraLong else if t.rateL == 0.0 then Long else Short)
  {
  }

  /** A rate that has shrunk by the factor `p`, shifted, with its floor at 0. */
  ghost predicate OnCurve(rate: real, shift: real, p: real, r: real) {
    var d := (rate + shift) * p - shift;
    r == (if d < 0.0 then 0.0 else d)
  }

  lemma OnCurveIs(rate: real, shift: real, p: real, r: real)
    ensures OnCurve(rate, shift, p, r) <==>
      r == (if (rate + shift) * p - shift < 0.0 then 0.0 else (rate + shift) * p - shift)
  {
  }

  lemma Stays(rate: real, shift: real, p: real, before: real, after: real)
    requires rate >= 0.0 && shift > 0.0 && p > 0.0 && OnCurve(rate, shift, p, before)
    requires var d := (before + shift) * 0.99999 - shift; after == (if d < 0.0 then 0.0 else d)
    ensures OnCurve(rate, shift, p * 0.99999, after)
  {
    assert (rate + shift) * (p * 0.99999) == ((rate + shift) * p) * 0.99999;
  }

  /** The rates after any number of idle ticks, exactly: shifted, each has shrunk by the
      factor 0.99999 per tick. */
  lemma {:induction false} ExactDecay(s: State, n: nat)
    requires s.counter == 0 && s.rateL >= 0.0 && s.rateXL >= 0.0
    ensures Idle(s, n).counter == 0
    ensures OnCurve(s.rateL, 10.0, Pow(0.99999, n), Idle(s, n).rateL)
    ensures OnCurve(s.rateXL, 9.0, Pow(0.99999, n), Idle(s, n).rateXL)
  {
    if n > 0 {
      var t := Idle(s, n - 1);
      ExactDecay(s, n - 1);
      TickIs(t);
      PowShrinks(n - 1);
      Stays(s.rateL, 10.0, Pow(0.99999, n - 1), t.rateL, Tick(t).rateL);
      Stays(s.rateXL, 9.0, Pow(0.99999, n - 1), t.rateXL, Tick(t).rateXL);
    }
  }

  /** While nothing happens the interval only moves up, one level at a time. */
  lemma BackOffInOrder(es: seq<Event>, n: nat)
    requires Exec(Init(), es).counter == 0
    ensures
      var a, b := Idle(Exec(Init(), es), n).expires, Idle(Exec(Init(), es), n + 1).expires;
      Rank(a) <= Rank(b) <= Rank(a) + 1
  {
    InvRun(Init(), es);
    IdleInv(Exec(Init(), es), n);
  }

  lemma {:induction false} SlowRateFalls(s: State, n: nat)
    requires Inv(s) && s.counter == 0
    ensures Idle(s, n).rateXL <= Clamp(s.rateXL - n as real * 0.00009)
  {
    if n > 0 {
      SlowRateFalls(s, n - 1);
      IdleInv(s, n - 1);
      assert n as real * 0.00009 == (n - 1) as real * 0.00009 + 0.00009;
    }
  }

  /** The longest interval is reached within rateXL / 0.00009 idle ticks, rounded up,
      and kept. */
  lemma ReachesExtraLong(es: seq<Event>, n: nat)
    requires Exec(Init(), es).counter == 0 && n > 0
    requires n as real * 0.00009 >= Exec(Init(), es).rateXL
    ensures Idle(Exec(Init(), es), n).expires == ExtraLong
  {
    var s := Exec(Init(), es);
    InvRun(Init(), es);
    SlowRateFalls(s, n);
    IdleInv(s, n);
  }

  lemma {:induction false} SlowRateLasts(s: State, n: nat)
    requires s.counter == 0 && s.rateXL >= 0.0908
    ensures Idle(s, n).counter == 0 && Idle(s, n).rateXL >= 0.0908 - n as real * 0.000091
  {
    if n > 0 {
      SlowRateLasts(s, n - 1);
      var xl, floor := Idle(s, n - 1).rateXL, 0.0908 - (n - 1) as real * 0.000091;
      assert n as real * 0.000091 == (n - 1) as real * 0.000091 + 0.000091;
      assert xl * 0.99999 - 0.00009 >= floor * 0.99999 - 0.00009 >= floor - 0.000091;
    }
  }

  lemma {:induction false} FastRateGone(s: State, n: nat)
    requires s.counter == 0 && s.rateL == 0.0
    ensures Idle(s, n).rateL == 0.0 && Idle(s, n).counter == 0
  {
    if n > 0 { FastRateGone(s, n - 1); }
  }

  /** The 1ms interval is not just not skipped: when an idle tick leaves the 100ns
      interval, at least the next 997 idle ticks stay at 1ms. */
  lemma LongIntervalLasts(es: seq<Event>, n: nat)
    requires
      var s := Exec(Init(), es);
      s.counter == 0 && s.expires == Short && Tick(s).expires != Short
    requires n <= 997
    ensures Idle(Tick(Exec(Init(), es)), n).expires == Long
  {
    var s := Exec(Init(), es);
    InvRun(Init(), es);
    assert s.rateXL > 0.0909;
    var t := Tick(s);
    SlowRateLasts(t, n);
    FastRateGone(t, n);
    InvStep(s, KeepAlive);
    IdleInv(t, n);
  }

  /** The thread-local members of one worker. */
  class Algorithm {
    var counter: nat
    var rateL: real
    var rateXL: real
    var expires: Interval
    /** How many yieldsPosted have been posted, and the intervals the timer was armed with. */
    var yieldsPosted: nat
    var armed: seq<Interval>

    ghost function Now(): State
      reads this
    {
      State(counter, rateL, rateXL, expires)
    }

    constructor ()
      ensures Now() == Tick(Init()) && Inv(Now()) && yieldsPosted == 1 && armed == [expires]
    {
      counter, rateL, rateXL, expires, yieldsPosted, armed := 0, 1.0, 1.0, Short, 0, [];
      new;
      OnEmptyIoService();
    }

    /** One tick: posts a yield, updates the rates and arms the keep-alive timer with
        the interval they call for. */
    method OnEmptyIoService()
      modifies this
      ensures Now() == Tick(old(Now()))
      ensures counter == 0
      ensures
        var l, xl := old(rateL * 0.99999 - 0.0001 + counter as real), old(rateXL * 0.99999 - 0.00009 + counter as real);
        && rateL == (if l < 0.0 then 0.0 else l) && rateXL == (if xl < 0.0 then 0.0 else xl)
        && expires == (if rateXL == 0.0 then ExtraLong else if rateL == 0.0 then Long else Short)
      ensures yieldsPosted == old(yieldsPosted) + 1 && armed == old(armed) + [expires]
      ensures old(Inv(Now())) ==> Inv(Now())
    {
      if Inv(Now()) { InvStep(Now(), KeepAlive); }
      yieldsPosted := yieldsPosted + 1;
      rateL := rateL * 0.99999 - 0.0001 + counter as real;
      rateXL := rateXL * 0.99999 - 0.00009 + counter as real;
      counter := 0;
      if rateL < 0.0 {
        rateL := 0.0;
      }
      if rateXL < 0.0 {
        rateXL := 0.0;
      }
      if rateXL == 0.0 {
        if expires != ExtraLong {
          expires := ExtraLong;
        }
      } else if rateL == 0.0 {
        if expires != Long {
          expires := Long;
        }
      } else if expires != Short {
        expires := Short;
      }
      armed := armed + [expires];
    }

    method Update()
      requires Inv(Now())
      modifies this`counter, this`expires
      ensures counter == old(counter) + 1 && expires == Short
      ensures Now() == Updated(old(Now())) && Inv(Now())
    {
      counter := counter + 1;
      if expires != Short {
        expires := Short;
      }
    }
  }
}
