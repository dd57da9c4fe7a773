/**
 The meter metric (src/metrics/meter.h): a counter folded once per second into
 exponentially weighted moving averages. Rates are modelled as reals and
 counters as natural numbers.
*/
module Meter {

  function Pow(x: real, n: nat): real {
    if n == 0 then 1.0 else Pow(x, n - 1) * x
  }

  /** One fold of a count into an average. */
  function Fold(rate: real, a: real, c: nat): real {
    rate * (1.0 - a) + c as real * a
  }

  lemma FoldIs(rate: real, a: real, c: nat)
    ensures Fold(rate, a, c) == rate + (c as real - rate) * a
  {
  }

  /** The average after a series of counts, oldest first. */
  function Rate(r0: real, a: real, counts: seq<nat>): real {
    if counts == [] then r0 else Fold(Rate(r0, a, counts[..|counts| - 1]), a, counts[|counts| - 1])
  }

  lemma RateSnoc(r0: real, a: real, counts: seq<nat>, c: nat)
    ensures Rate(r0, a, counts + [c]) == Fold(Rate(r0, a, counts), a, c)
  {
    assert (counts + [c])[..|counts|] == counts;
  }

  /** The counts, each weighted by how many later counts have followed it. */
  function WeightedSum(a: real, counts: seq<nat>): real {
    if counts == [] then 0.0
    else counts[0] as real * a * Pow(1.0 - a, |counts| - 1) + WeightedSum(a, counts[1..])
  }

  lemma {:induction false} WeightedSumSnoc(a: real, counts: seq<nat>, c: nat)
    ensures WeightedSum(a, counts + [c]) == WeightedSum(a, counts) * (1.0 - a) + c as real * a
  {
    if counts == [] {
      assert [c][1..] == [];
      assert ([] + [c])[0] == c && ([] + [c])[1..] == [];
      assert WeightedSum(a, [] + [c]) == c as real * a * 1.0;
    } else {
      var q, n, x := 1.0 - a, |counts|, counts[0] as real * a;
      assert (counts + [c])[1..] == counts[1..] + [c];
      WeightedSumSnoc(a, counts[1..], c);
      var w := WeightedSum(a, counts[1..]);
      assert Pow(q, n) == Pow(q, n - 1) * q;
      assert x * (Pow(q, n - 1) * q) == (x * Pow(q, n - 1)) * q;
      assert (x * Pow(q, n - 1) + w) * q == (x * Pow(q, n - 1)) * q + w * q;
    }
  }

  lemma FoldDistributes(r0: real, p: real, w: real, a: real, c: nat)
    ensures Fold(r0 * p + w, a, c) == r0 * (p * (1.0 - a)) + (w * (1.0 - a) + c as real * a)
  {
    var q := 1.0 - a;
    assert (r0 * p + w) * q == r0 * p * q + w * q;
    assert r0 * p * q == r0 * (p * q);
  }

  ghost predicate Closed(rate: real, r0: real, p: real, w: real) {
    rate == r0 * p + w
  }

  /** How a count takes the average, the weight of the start value and the weighted
      sum one step further. */
  ghost predicate Advances(a: real, c: nat, rate: real, p: real, w: real, rate2: real, p2: real, w2: real) {
    rate2 == Fold(rate, a, c) && p2 == p * (1.0 - a) && w2 == w * (1.0 - a) + c as real * a
  }

  /** The closed form survives one more fold. */
  lemma ClosedFold(rate: real, r0: real, p: real, w: real, a: real, c: nat, rate2: real, p2: real, w2: real)
    requires Closed(rate, r0, p, w) && Advances(a, c, rate, p, w, rate2, p2, w2)
    ensures Closed(rate2, r0, p2, w2)
  {
    FoldDistributes(r0, p, w, a, c);
  }

  lemma PowStep(x: real, n: nat)
    ensures Pow(x, n + 1) == Pow(x, n) * x
  {
  }

  lemma OneMore(r0: real, a: real, init: seq<nat>, c: nat)
    ensures Advances(a, c,
              Rate(r0, a, init), Pow(1.0 - a, |init|), WeightedSum(a, init),
              Rate(r0, a, init + [c]), Pow(1.0 - a, |init| + 1), WeightedSum(a, init + [c]))
  {
    RateSnoc(r0, a, init, c);
    PowStep(1.0 - a, |init|);
    WeightedSumSnoc(a, init, c);
  }

  lemma ClosedSnoc(r0: real, a: real, init: seq<nat>, c: nat)
    requires Closed(Rate(r0, a, init), r0, Pow(1.0 - a, |init|), WeightedSum(a, init))
    ensures Closed(Rate(r0, a, init + [c]), r0, Pow(1.0 - a, |init| + 1), WeightedSum(a, init + [c]))
  {
    OneMore(r0, a, init, c);
    ClosedFold(Rate(r0, a, init), r0, Pow(1.0 - a, |init|), WeightedSum(a, init), a, c,
               Rate(r0, a, init + [c]), Pow(1.0 - a, |init| + 1), WeightedSum(a, init + [c]));
  }

  /** The average is the start value and the counts, each weighted by its age. */
  lemma {:induction false} RateClosedForm(r0: real, a: real, counts: seq<nat>)
    ensures Closed(Rate(r0, a, counts), r0, Pow(1.0 - a, |counts|), WeightedSum(a, counts))
  {
    if counts != [] {
      var n := |counts| - 1;
      var init := counts[..n];
      RateClosedForm(r0, a, init);
      assert counts == init + [counts[n]];
      ClosedSnoc(r0, a, init, counts[n]);
    }
  }

  /** What the closed form says. */
  lemma ClosedIs(rate: real, r0: real, p: real, w: real)
    ensures Closed(rate, r0, p, w) <==> rate == r0 * p + w
  {
  }

  lemma Shrinks(x: real, q: real)
    requires x >= 0.0 && q >= 0.0
    ensures x * q >= 0.0
  {
  }

  lemma Between(x: real, y: real, a: real, lo: real, hi: real)
    requires 0.0 < a < 1.0 && lo <= x <= hi && lo <= y <= hi
    ensures lo <= x * (1.0 - a) + y * a <= hi
  {
    Shrinks(x - lo, 1.0 - a);
    Shrinks(y - lo, a);
    Shrinks(hi - x, 1.0 - a);
    Shrinks(hi - y, a);
    assert x * (1.0 - a) + y * a == lo + (x - lo) * (1.0 - a) + (y - lo) * a;
    assert x * (1.0 - a) + y * a == hi - (hi - x) * (1.0 - a) - (hi - y) * a;
  }

  /** It stays between any bounds that hold of the start value and the counts. */
  lemma {:induction false} RateBetween(r0: real, a: real, counts: seq<nat>, lo: real, hi: real)
    requires 0.0 < a < 1.0 && lo <= r0 <= hi
    requires forall i :: 0 <= i < |counts| ==> lo <= counts[i] as real <= hi
    ensures lo <= Rate(r0, a, counts) <= hi
  {
    if counts != [] {
      var n := |counts| - 1;
      RateBetween(r0, a, counts[..n], lo, hi);
      Between(Rate(r0, a, counts[..n]), counts[n] as real, a, lo, hi);
    }
  }

  /** What `alpha(secs)` is for: after `secs` folds an old value weighs 0.005. */
  ghost predicate IsAlpha(a: real, secs: nat) {
    0.0 < a < 1.0 && Pow(1.0 - a, secs) == 0.005
  }

  lemma {:induction false} ConstantCounts(r0: real, a: real, counts: seq<nat>, c: nat)
    requires forall i :: 0 <= i < |counts| ==> counts[i] == c
    ensures Rate(r0, a, counts) - c as real == (r0 - c as real) * Pow(1.0 - a, |counts|)
  {
    if counts != [] {
      var n, q, x := |counts| - 1, 1.0 - a, c as real;
      ConstantCounts(r0, a, counts[..n], c);
      var r := Rate(r0, a, counts[..n]);
      assert r * q + x * a - x == (r - x) * q;
      assert (r0 - x) * Pow(q, n) * q == (r0 - x) * (Pow(q, n) * q);
    }
  }

  /** Under a constant load the interval's length brings an average to within exactly
      0.005 of its initial error. */
  lemma ConvergesOverInterval(r0: real, a: real, secs: nat, counts: seq<nat>, c: nat)
    requires IsAlpha(a, secs) && |counts| == secs && forall i :: 0 <= i < |counts| ==> counts[i] == c
    ensures Rate(r0, a, counts) - c as real == 0.005 * (r0 - c as real)
  {
    ConstantCounts(r0, a, counts, c);
  }

  // ----- increments and aggregation interleaved

  /** `taken` is what `aggregate` has taken off the counter and not yet added up.
      `added` and `folded` are history: the sum of all increments, and the counts
      folded so far. */
  datatype State = State(counter: nat, taken: seq<nat>, total: nat, added: nat, folded: seq<nat>)

  datatype Event = Increment(i: nat) | Take | AddUp

  predicate Enabled(s: State, e: Event) {
    match e case Increment(_) => true case Take => s.taken == [] case AddUp => s.taken != []
  }

  function Step(s: State, e: Event): State
    requires Enabled(s, e)
  {
    match e
    case Increment(i) => s.(counter := s.counter + i, added := s.added + i)
    case Take => s.(counter := 0, taken := [s.counter])
    case AddUp => s.(total := s.total + s.taken[0], taken := s.taken[1..], folded := s.folded + [s.taken[0]])
  }

  function Sum(s: seq<nat>): nat {
    if s == [] then 0 else Sum(s[..|s| - 1]) + s[|s| - 1]
  }

  lemma SumSnoc(s: seq<nat>, c: nat)
    ensures Sum(s + [c]) == Sum(s) + c
  {
    assert (s + [c])[..|s|] == s;
  }

  ghost predicate IsRun(s: State, es: seq<Event>)
    decreases |es|
  {
    es == [] || (Enabled(s, es[0]) && IsRun(Step(s, es[0]), es[1..]))
  }

  ghost function Exec(s: State, es: seq<Event>): State
    requires IsRun(s, es)
    decreases |es|
  {
    if es == [] then s else Exec(Step(s, es[0]), es[1..])
  }

  /** Increments can happen at any time, the two halves of a fold one after the other. */
  lemma PossibleSteps(s: State, i: nat)
    ensures Enabled(s, Increment(i)) && (Enabled(s, Take) <==> s.taken == []) && (Enabled(s, AddUp) <==> s.taken != [])
  {
  }

  /** A run is one possible step after the other. */
  lemma RunIs(s: State, e: Event, rest: seq<Event>)
    ensures IsRun(s, []) && Exec(s, []) == s
    ensures IsRun(s, [e] + rest) <==> Enabled(s, e) && IsRun(Step(s, e), rest)
    ensures IsRun(s, [e] + rest) ==> Exec(s, [e] + rest) == Exec(Step(s, e), rest)
  {
    assert ([e] + rest)[1..] == rest;
  }

  ghost predicate Inv(s: State) {
    |s.taken| <= 1 && s.added == s.counter + Sum(s.taken) + s.total && s.total == Sum(s.folded)
  }

  lemma InvStep(s: State, e: Event)
    requires Inv(s) && Enabled(s, e)
    ensures Inv(Step(s, e))
  {
    match e
    case Increment(_) =>
    case Take => assert [s.counter][..0] == [];
    case AddUp =>
      assert s.taken == [s.taken[0]] && [s.taken[0]][..0] == [];
      SumSnoc(s.folded, s.taken[0]);
  }

  lemma {:induction false} InvRun(s: State, es: seq<Event>)
    requires Inv(s) && IsRun(s, es)
    ensures Inv(Exec(s, es))
    decreases |es|
  {
    if es != [] {
      InvStep(s, es[0]);
      InvRun(Step(s, es[0]), es[1..]);
    }
  }

  function Init(): State {
    State(0, [], 0, 0, [])
  }

  lemma InvInit()
    ensures Inv(Init())
  {
  }

  /** The amounts passed to `increment` during a run, added up. */
  function Amounts(es: seq<Event>): nat {
    if es == [] then 0
    else Amounts(es[..|es| - 1]) + (match es[|es| - 1] case Increment(i) => i case _ => 0)
  }

  lemma AmountsSnoc(es: seq<Event>, e: Event)
    ensures Amounts([]) == 0 && Amounts(es + [e]) == Amounts(es) + (if e.Increment? then e.i else 0)
  {
    assert (es + [e])[..|es|] == es;
  }

  lemma {:induction false} ExecSnoc(s: State, es: seq<Event>, e: Event)
    requires IsRun(s, es + [e])
    ensures IsRun(s, es) && Enabled(Exec(s, es), e) && Exec(s, es + [e]) == Step(Exec(s, es), e)
    decreases |es|
  {
    if es == [] {
      assert es + [e] == [e] && [e][1..] == [];
    } else {
      assert (es + [e])[1..] == es[1..] + [e];
      ExecSnoc(Step(s, es[0]), es[1..], e);
    }
  }

  lemma {:induction false} AddedAreAmounts(s: State, es: seq<Event>)
    requires IsRun(s, es)
    ensures Exec(s, es).added == s.added + Amounts(es)
    decreases |es|
  {
    if es != [] {
      var n := |es| - 1;
      assert es == es[..n] + [es[n]];
      ExecSnoc(s, es[..n], es[n]);
      AddedAreAmounts(s, es[..n]);
    }
  }

  /** Each increment is counted once: it is pending, just taken, or in the total; with
      no call under way the total is what has been folded. */
  ghost predicate Conserved(s: State) {
    && s.added == s.counter + Sum(s.taken) + s.total
    && (s.taken == [] ==> s.added == s.counter + Sum(s.folded))
  }

  lemma InvConserves(s: State)
    requires Inv(s)
    ensures Conserved(s)
  {
    if s.taken == [] { assert Sum(s.taken) == 0; }
  }

  /** Conservation in every interleaving: what was passed to `increment` is pending, just
      taken, or in the total, and with no call under way the total is what was folded. */
  lemma NothingLost(s: State, es: seq<Event>)
    requires Inv(s) && IsRun(s, es)
    ensures Conserved(Exec(s, es)) && Exec(s, es).added == s.added + Amounts(es)
  {
    InvRun(s, es);
    InvConserves(Exec(s, es));
    AddedAreAmounts(s, es);
  }

  lemma ConservedIs(s: State)
    ensures Conserved(s) <==>
      s.added == s.counter + Sum(s.taken) + s.total && (s.taken == [] ==> s.added == s.counter + Sum(s.folded))
  {
  }

  // ----- the class

  class MeterMetric {
    const alpha1min: real
    const alpha5min: real
    const alpha15min: real
    const alpha1hr: real
    var counter1s: nat
    var total: nat
    var rate1min: real
    var rate5min: real
    var rate15min: real
    var rate1hr: real
    ghost var folded: seq<nat>
    ghost var added: nat

    /** Every rate is the average of the counts folded so far, and no increment is missing. */
    ghost predicate Valid()
      reads this
    {
      && rate1min == Rate(0.0, alpha1min, folded) && rate5min == Rate(0.0, alpha5min, folded)
      && rate15min == Rate(0.0, alpha15min, folded) && rate1hr == Rate(0.0, alpha1hr, folded)
      && added == counter1s + total && total == Sum(folded)
    }

    constructor (a1: real, a5: real, a15: real, a60: real)
      ensures Valid() && folded == [] && total == 0 && counter1s == 0
      ensures alpha1min == a1 && alpha5min == a5 && alpha15min == a15 && alpha1hr == a60
    {
      alpha1min, alpha5min, alpha15min, alpha1hr := a1, a5, a15, a60;
      counter1s, total, rate1min, rate5min, rate15min, rate1hr := 0, 0, 0.0, 0.0, 0.0, 0.0;
      folded, added := [], 0;
    }

    method Increment(i: nat) returns (value: nat)
      requires Valid()
      modifies this`counter1s, this`added
      ensures Valid() && counter1s == value == old(counter1s) + i && added == old(added) + i
    {
      counter1s := counter1s + i;
      added := added + i;
      value := counter1s;
    }

    /** One fold of the new count into one of the averages. */
    static method NextRate(rate: real, alpha: real, c: nat, ghost counts: seq<nat>) returns (r: real)
      requires rate == Rate(0.0, alpha, counts)
      ensures r == Rate(0.0, alpha, counts + [c])
      ensures r == Fold(rate, alpha, c)
    {
      RateSnoc(0.0, alpha, counts, c);
      r := rate * (1.0 - alpha) + c as real * alpha;
    }

    method Aggregate()
      requires Valid()
      modifies this
      ensures Valid() && folded == old(folded) + [old(counter1s)]
      ensures counter1s == 0 && total == old(total) + old(counter1s) && added == old(added)
      ensures rate1min == Fold(old(rate1min), alpha1min, old(counter1s))
      ensures rate5min == Fold(old(rate5min), alpha5min, old(counter1s))
      ensures rate15min == Fold(old(rate15min), alpha15min, old(counter1s))
      ensures rate1hr == Fold(old(rate1hr), alpha1hr, old(counter1s))
    {
      var c := counter1s;
      var r1 := NextRate(rate1min, alpha1min, c, folded);
      var r5 := NextRate(rate5min, alpha5min, c, folded);
      var r15 := NextRate(rate15min, alpha15min, c, folded);
      var r60 := NextRate(rate1hr, alpha1hr, c, folded);
      SumSnoc(folded, c);
      counter1s, total, folded := 0, total + c, folded + [c];
      rate1min, rate5min, rate15min, rate1hr := r1, r5, r15, r60;
    }
  }
}
