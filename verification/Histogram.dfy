/**
 The timer's histogram (src/metrics/timer.h): one pass over sorted samples sorts
 them into bins. Times are modelled as reals.
*/
module Histogram {

  // ----- sequences of reals

  function Sum(s: seq<real>): real {
    if s == [] then 0.0 else Sum(s[..|s| - 1]) + s[|s| - 1]
  }

  ghost predicate Ordered(s: seq<real>) {
    forall i, j :: 0 <= i < j < |s| ==> s[i] <= s[j]
  }

  lemma OrderedSnoc(s: seq<real>, x: real)
    requires Ordered(s) && (s != [] ==> s[|s| - 1] <= x)
    ensures Ordered(s + [x])
  {
  }

  function Insert(s: seq<real>, x: real): (r: seq<real>)
    requires Ordered(s)
    ensures Ordered(r) && multiset(r) == multiset(s) + multiset{x}
    ensures |r| == |s| + 1 && r[|s|] == if s == [] || s[|s| - 1] <= x then x else s[|s| - 1]
    decreases |s|
  {
    if s == [] || s[|s| - 1] <= x then
      OrderedSnoc(s, x);
      s + [x]
    else
      var init, last := s[..|s| - 1], s[|s| - 1];
      assert s == init + [last];
      var r := Insert(init, x);
      OrderedSnoc(r, last);
      r + [last]
  }

  /** Stands for `std::sort`: the ordered rearrangement. */
  function Sorted(s: seq<real>): (r: seq<real>)
    ensures Ordered(r) && multiset(r) == multiset(s) && |r| == |s|
  {
    if s == [] then []
    else
      assert s == s[..|s| - 1] + [s[|s| - 1]];
      var r := Insert(Sorted(s[..|s| - 1]), s[|s| - 1]);
      assert |multiset(r)| == |multiset(s)|;
      r
  }

  function Without(s: seq<real>, i: nat): seq<real>
    requires i < |s|
  {
    s[..i] + s[i + 1..]
  }

  lemma WithoutMultiset(s: seq<real>, i: nat)
    requires i < |s|
    ensures multiset(Without(s, i)) == multiset(s) - multiset{s[i]}
  {
    assert s == s[..i] + [s[i]] + s[i + 1..];
  }

  lemma {:induction false} SumWithout(s: seq<real>, i: nat)
    requires i < |s|
    ensures Sum(s) == Sum(Without(s, i)) + s[i]
  {
    var n := |s| - 1;
    if i < n {
      SumWithout(s[..n], i);
      assert Without(s, i)[..n - 1] == Without(s[..n], i);
    } else {
      assert Without(s, i) == s[..n];
    }
  }

  /** Rearranging does not change a sum. */
  lemma {:induction false} SumRearranged(s: seq<real>, t: seq<real>)
    requires multiset(s) == multiset(t)
    ensures Sum(s) == Sum(t)
    decreases |s|
  {
    if s == [] {
      assert |multiset(t)| == 0;
    } else {
      var n := |s| - 1;
      assert s[n] in multiset(t);
      var i :| 0 <= i < |t| && t[i] == s[n];
      WithoutMultiset(t, i);
      WithoutMultiset(s, n);
      assert Without(s, n) == s[..n];
      SumRearranged(s[..n], Without(t, i));
      SumWithout(t, i);
    }
  }

  /** With `SumConcat` this says what a sum is. */
  lemma SumSingle(x: real)
    ensures Sum([]) == 0.0 && Sum([x]) == x
  {
    assert [x][..0] == [];
  }

  lemma {:induction false} SumConcat(s: seq<real>, t: seq<real>)
    ensures Sum(s + t) == Sum(s) + Sum(t)
  {
    if t == [] {
      assert s + t == s;
    } else {
      assert (s + t)[..|s + t| - 1] == s + t[..|t| - 1];
      SumConcat(s, t[..|t| - 1]);
    }
  }

  // ----- bins

  /** The upper bound of bin `i`, as the sweep builds it up. */
  function Upper(i: nat, b: real): real {
    if i == 0 then b else Upper(i - 1, b) + b
  }

  lemma {:induction false} UpperIs(i: nat, b: real)
    ensures Upper(i, b) == (i as real + 1.0) * b
  {
    if i > 0 {
      UpperIs(i - 1, b);
      assert ((i - 1) as real + 1.0) * b + b == (i as real + 1.0) * b;
    }
  }

  lemma {:induction false} UpperMonotone(i: nat, j: nat, b: real)
    requires i <= j && b >= 0.0
    ensures Upper(i, b) <= Upper(j, b)
  {
    if i < j { UpperMonotone(i, j - 1, b); }
  }

  /** The inner loop: the first bin from `i` on that can hold `d`. */
  function Advance(i: nat, d: real, n: nat, b: real): (k: nat)
    requires i <= n
    ensures i <= k <= n
    decreases n - i
  {
    if d > Upper(i, b) && i < n then Advance(i + 1, d, n, b) else i
  }

  /** The bin that a sample belongs to. */
  function Class(d: real, n: nat, b: real): (k: nat)
    ensures k <= n
  {
    Advance(0, d, n, b)
  }

  /** The bin that the sweep counts `d` in when it stands at bin `i`. */
  function Place(i: nat, d: real, n: nat, b: real): (k: nat)
    requires i <= n
    ensures i <= k <= n
  {
    if d < Upper(i, b) + 1.0 || i == n then i else Advance(i, d, n, b)
  }

  /** The bin that the sweep stands at after `data`. */
  function Standing(data: seq<real>, n: nat, b: real): (k: nat)
    ensures k <= n
  {
    if data == [] then 0 else Place(Standing(data[..|data| - 1], n, b), data[|data| - 1], n, b)
  }

  /** The bins that the sweep counts the samples in, one by one. */
  function Placed(data: seq<real>, n: nat, b: real): (r: seq<nat>)
    ensures |r| == |data| && forall j :: 0 <= j < |r| ==> r[j] <= n
  {
    if data == [] then [] else Placed(data[..|data| - 1], n, b) + [Standing(data, n, b)]
  }

  function Classes(data: seq<real>, n: nat, b: real): (r: seq<nat>)
    ensures |r| == |data| && forall j :: 0 <= j < |r| ==> r[j] <= n
  {
    if data == [] then [] else Classes(data[..|data| - 1], n, b) + [Class(data[|data| - 1], n, b)]
  }

  /** How many samples each of the bins 0 to n holds. */
  function Counts(bins: seq<nat>, n: nat): seq<nat> {
    seq(n + 1, k => multiset(bins)[k])
  }

  lemma PlacedSnoc(data: seq<real>, j: nat, n: nat, b: real)
    requires j < |data|
    ensures
      var i := Place(Standing(data[..j], n, b), data[j], n, b);
      && Standing(data[..j + 1], n, b) == i
      && (var bins := multiset(Placed(data[..j], n, b));
          multiset(Placed(data[..j + 1], n, b)) == bins[i := bins[i] + 1])
  {
    assert data[..j + 1][..j] == data[..j];
  }

  /** The inner loop of the sweep. */
  method NextBin(i0: nat, upper0: real, d: real, n: nat, b: real) returns (i: nat, upper: real)
    requires i0 < n && upper0 == Upper(i0, b) && d >= upper0 + 1.0
    ensures i0 < i <= n && i == Advance(i0, d, n, b) && upper == Upper(i, b)
  {
    i, upper := i0, upper0;
    while d > upper && i < n
      invariant i0 <= i <= n && upper == Upper(i, b)
      invariant Advance(i, d, n, b) == Advance(i0, d, n, b)
      invariant i == i0 ==> d > upper
      decreases n - i
    {
      i := i + 1;
      upper := upper + b;
    }
  }

  /** `dist`, with `count` still to be added to bin `i`, counts `bins`. */
  ghost predicate Tally(dist: seq<nat>, i: nat, count: nat, bins: multiset<nat>, n: nat) {
    i <= n && |dist| == n + 1 && forall k: nat :: k <= n ==> dist[k] + (if k == i then count else 0) == bins[k]
  }

  lemma TallyStay(dist: seq<nat>, i: nat, count: nat, bins: multiset<nat>, n: nat)
    requires Tally(dist, i, count, bins, n)
    ensures Tally(dist, i, count + 1, bins[i := bins[i] + 1], n)
  {
  }

  lemma TallyMove(dist: seq<nat>, i: nat, count: nat, bins: multiset<nat>, n: nat, j: nat)
    requires Tally(dist, i, count, bins, n) && i != j <= n
    ensures Tally(dist[i := dist[i] + count], j, 1, bins[j := bins[j] + 1], n)
  {
  }

  lemma TallyDone(dist: seq<nat>, i: nat, count: nat, bins: seq<nat>, n: nat)
    requires Tally(dist, i, count, multiset(bins), n)
    ensures dist[i := dist[i] + count] == Counts(bins, n)
  {
  }

  /** The body of the sweep's loop. */
  method CountSample(dist0: seq<nat>, i0: nat, upper0: real, count0: nat,
                     d: real, n: nat, b: real, ghost bins: multiset<nat>)
    returns (dist: seq<nat>, i: nat, upper: real, count: nat)
    requires Tally(dist0, i0, count0, bins, n) && upper0 == Upper(i0, b)
    ensures i == Place(i0, d, n, b) && upper == Upper(i, b)
    ensures Tally(dist, i, count, bins[i := bins[i] + 1], n)
  {
    if d < upper0 + 1.0 || i0 == n {
      TallyStay(dist0, i0, count0, bins, n);
      dist, i, upper, count := dist0, i0, upper0, count0 + 1;
    } else {
      i, upper := NextBin(i0, upper0, d, n, b);
      TallyMove(dist0, i0, count0, bins, n, i);
      dist, count := dist0[i0 := dist0[i0] + count0], 1;
    }
  }

  /** The sweep of `aggregate` over sorted samples. */
  method Sweep(data: seq<real>, n: nat, b: real) returns (dist: seq<nat>)
    ensures dist == Counts(Placed(data, n, b), n)
  {
    dist := seq(n + 1, _ => 0);
    var count, i, upper := 0, 0, b;
    ghost var bins: multiset<nat> := multiset{};
    for j := 0 to |data|
      invariant i == Standing(data[..j], n, b) && upper == Upper(i, b)
      invariant bins == multiset(Placed(data[..j], n, b))
      invariant Tally(dist, i, count, bins, n)
    {
      PlacedSnoc(data, j, n, b);
      dist, i, upper, count := CountSample(dist, i, upper, count, data[j], n, b, bins);
      bins := bins[i := bins[i] + 1];
    }
    assert data[..|data|] == data;
    TallyDone(dist, i, count, Placed(data, n, b), n);
    dist := dist[i := dist[i] + count];
  }

  // ----- conservation

  function Dot(dist: seq<nat>, f: nat -> int): int {
    if dist == [] then 0 else Dot(dist[..|dist| - 1], f) + f(|dist| - 1) * dist[|dist| - 1]
  }

  function SumOf(bins: seq<nat>, f: nat -> int): int {
    if bins == [] then 0 else SumOf(bins[..|bins| - 1], f) + f(bins[|bins| - 1])
  }

  lemma {:induction false} DotBump(dist: seq<nat>, k: nat, f: nat -> int)
    requires k < |dist|
    ensures Dot(dist[k := dist[k] + 1], f) == Dot(dist, f) + f(k)
  {
    var n := |dist| - 1;
    if k < n {
      DotBump(dist[..n], k, f);
      assert dist[k := dist[k] + 1][..n] == dist[..n][k := dist[k] + 1];
    } else {
      assert dist[k := dist[k] + 1][..n] == dist[..n];
      assert f(n) * (dist[n] + 1) == f(n) * dist[n] + f(n);
    }
  }

  lemma {:induction false} DotZeros(n: nat, f: nat -> int)
    ensures Dot(seq(n, _ => 0), f) == 0
  {
    if n > 0 {
      assert seq(n, _ => 0)[..n - 1] == seq(n - 1, _ => 0);
      DotZeros(n - 1, f);
    }
  }

  /** Weighing the bins is weighing the samples. */
  lemma {:induction false} DotCounts(bins: seq<nat>, n: nat, f: nat -> int)
    requires forall j :: 0 <= j < |bins| ==> bins[j] <= n
    ensures Dot(Counts(bins, n), f) == SumOf(bins, f)
  {
    if bins == [] {
      assert Counts(bins, n) == seq(n + 1, _ => 0);
      DotZeros(n + 1, f);
    } else {
      var m := |bins| - 1;
      assert bins == bins[..m] + [bins[m]];
      DotCounts(bins[..m], n, f);
      var c := Counts(bins[..m], n);
      assert Counts(bins, n) == c[bins[m] := c[bins[m]] + 1];
      DotBump(c, bins[m], f);
    }
  }

  function One(k: nat): int { 1 }

  function Index(k: nat): int { k }

  function Total(dist: seq<nat>): int {
    Dot(dist, One)
  }

  lemma {:induction false} SumOfOnes(bins: seq<nat>)
    ensures SumOf(bins, One) == |bins|
  {
    if bins != [] { SumOfOnes(bins[..|bins| - 1]); }
  }

  /** Whatever the samples, the sweep counts each of them once. */
  lemma BinsAddUp(data: seq<real>, n: nat, b: real)
    ensures Total(Counts(Placed(data, n, b), n)) == |data|
  {
    DotCounts(Placed(data, n, b), n, One);
    SumOfOnes(Placed(data, n, b));
  }

  // ----- pointwise classification

  lemma {:induction false} AdvanceIs(i: nat, d: real, n: nat, b: real)
    requires i <= n
    ensures var k := Advance(i, d, n, b);
      (k == n || d <= Upper(k, b)) && forall j :: i <= j < k ==> d > Upper(j, b)
    decreases n - i
  {
    if d > Upper(i, b) && i < n { AdvanceIs(i + 1, d, n, b); }
  }

  /** Bin 0 is for d <= b, bin k for k*b < d <= (k+1)*b, the last for the rest. */
  lemma ClassIs(d: real, n: nat, b: real, k: nat)
    requires b >= 0.0
    ensures Class(d, n, b) == k <==>
      k <= n && (k > 0 ==> k as real * b < d) && (k < n ==> d <= (k as real + 1.0) * b)
  {
    var c := Class(d, n, b);
    AdvanceIs(0, d, n, b);
    UpperIs(k, b);
    if k > 0 { UpperIs(k - 1, b); }
    if c < k { UpperMonotone(c, k - 1, b); }
    assert k < c ==> d > Upper(k, b);
  }

  lemma {:induction false} AdvanceMonotone(i: nat, d: real, e: real, n: nat, b: real)
    requires i <= n && d <= e
    ensures Advance(i, d, n, b) <= Advance(i, e, n, b)
    decreases n - i
  {
    if d > Upper(i, b) && i < n { AdvanceMonotone(i + 1, d, e, n, b); }
  }

  lemma {:induction false} AdvanceFrom(i: nat, j: nat, d: real, n: nat, b: real)
    requires i <= n && i <= j <= Advance(i, d, n, b)
    ensures Advance(j, d, n, b) == Advance(i, d, n, b)
    decreases j - i
  {
    if i < j { AdvanceFrom(i + 1, j, d, n, b); }
  }

  /** `d` lies in the unit gap above bin `i`: too large for the bin, yet counted in it. */
  predicate InGap(i: nat, d: real, n: nat, b: real) {
    i < n && Upper(i, b) < d < Upper(i, b) + 1.0
  }

  lemma PlaceIs(i: nat, d: real, n: nat, b: real)
    requires i <= Class(d, n, b)
    ensures if InGap(i, d, n, b) then Place(i, d, n, b) == i < Class(d, n, b)
            else Place(i, d, n, b) == Class(d, n, b)
  {
    AdvanceIs(0, d, n, b);
    AdvanceFrom(0, i, d, n, b);
  }

  function LastClass(data: seq<real>, n: nat, b: real): nat {
    if data == [] then 0 else Class(data[|data| - 1], n, b)
  }

  /** No sample lies in the gap above the bin of the sample before it. */
  ghost predicate GapFree(data: seq<real>, n: nat, b: real) {
    forall j :: 0 <= j < |data| ==> !InGap(LastClass(data[..j], n, b), data[j], n, b)
  }

  lemma GapFreeInit(data: seq<real>, n: nat, b: real)
    requires data != []
    ensures
      var m := |data| - 1;
      GapFree(data, n, b) <==> GapFree(data[..m], n, b) && !InGap(LastClass(data[..m], n, b), data[m], n, b)
  {
    var m := |data| - 1;
    assert forall j :: 0 <= j < m ==> data[..m][..j] == data[..j] && data[..m][j] == data[j];
  }

  /** The bin of the sample before is no higher than the bin of the last one. */
  lemma LastClassGrows(data: seq<real>, n: nat, b: real)
    requires Ordered(data) && data != []
    ensures LastClass(data[..|data| - 1], n, b) <= LastClass(data, n, b)
  {
    var m := |data| - 1;
    if m > 0 { AdvanceMonotone(0, data[m - 1], data[m], n, b); }
  }

  /** The sweep never overshoots, and is exact as long as it meets no gap. */
  lemma {:induction false} StandingBelow(data: seq<real>, n: nat, b: real)
    requires Ordered(data) && b >= 0.0
    ensures Standing(data, n, b) <= LastClass(data, n, b)
    ensures GapFree(data, n, b) ==> Standing(data, n, b) == LastClass(data, n, b)
    decreases |data|, 1
  {
    if data != [] { LastPlaced(data, n, b); }
  }

  /** Where the sweep puts the last sample. */
  lemma {:induction false} LastPlaced(data: seq<real>, n: nat, b: real)
    requires Ordered(data) && b >= 0.0 && data != []
    ensures Standing(data, n, b) <= LastClass(data, n, b)
    ensures GapFree(data[..|data| - 1], n, b) ==>
      (Standing(data, n, b) == LastClass(data, n, b) <==> GapFree(data, n, b))
    decreases |data|, 0
  {
    var m := |data| - 1;
    StandingBelow(data[..m], n, b);
    LastClassGrows(data, n, b);
    PlaceIs(Standing(data[..m], n, b), data[m], n, b);
    GapFreeInit(data, n, b);
  }

  lemma {:induction false} GapFreePlaced(data: seq<real>, n: nat, b: real)
    requires Ordered(data) && b >= 0.0 && GapFree(data, n, b)
    ensures Placed(data, n, b) == Classes(data, n, b)
  {
    if data != [] {
      GapFreeInit(data, n, b);
      GapFreePlaced(data[..|data| - 1], n, b);
      LastPlaced(data, n, b);
    }
  }

  lemma SumOfSnoc(bins: seq<nat>, k: nat, f: nat -> int)
    ensures SumOf(bins + [k], f) == SumOf(bins, f) + f(k)
  {
    assert (bins + [k])[..|bins|] == bins;
  }

  /** The first gap makes the sweep count a sample too low. */
  lemma {:induction false} GapLowersSum(data: seq<real>, n: nat, b: real)
    requires Ordered(data) && b >= 0.0
    ensures SumOf(Placed(data, n, b), Index) <= SumOf(Classes(data, n, b), Index)
    ensures !GapFree(data, n, b) ==> SumOf(Placed(data, n, b), Index) < SumOf(Classes(data, n, b), Index)
  {
    if data != [] {
      var m := |data| - 1;
      GapLowersSum(data[..m], n, b);
      GapFreeInit(data, n, b);
      LastPlaced(data, n, b);
      SumOfSnoc(Placed(data[..m], n, b), Standing(data, n, b), Index);
      SumOfSnoc(Classes(data[..m], n, b), Class(data[m], n, b), Index);
    }
  }

  /** Exactly when the sweep's bins are the pointwise ones. */
  lemma SweepIsPointwiseIff(data: seq<real>, n: nat, b: real)
    requires Ordered(data) && b >= 0.0
    ensures Counts(Placed(data, n, b), n) == Counts(Classes(data, n, b), n) <==> GapFree(data, n, b)
  {
    if GapFree(data, n, b) {
      GapFreePlaced(data, n, b);
    } else {
      GapLowersSum(data, n, b);
      DotCounts(Placed(data, n, b), n, Index);
      DotCounts(Classes(data, n, b), n, Index);
    }
  }

  /** A sample half a unit above the first bin, with the default bins: it belongs to bin
      1 and is counted in bin 0. */
  lemma FractionalSampleTooLow()
    ensures Placed([1000000.5], 10, 1000000.0) == [0] && Classes([1000000.5], 10, 1000000.0) == [1]
  {
    var d, b := 1000000.5, 1000000.0;
    assert [d][..0] == [];
    assert Upper(0, b) == b && Upper(1, b) == 2000000.0;
    assert Place(0, d, 10, b) == 0;
    assert Advance(1, d, 10, b) == 1;
    assert Class(d, 10, b) == 1;
  }

  predicate IsWhole(x: real) {
    x == x.Floor as real
  }

  lemma WholeSum(x: real, y: real)
    requires IsWhole(x) && IsWhole(y)
    ensures IsWhole(x + y)
  {
    assert x + y == (x.Floor + y.Floor) as real;
  }

  lemma {:induction false} UpperWhole(i: nat, b: real)
    requires IsWhole(b)
    ensures IsWhole(Upper(i, b))
  {
    if i > 0 {
      UpperWhole(i - 1, b);
      WholeSum(Upper(i - 1, b), b);
    }
  }

  lemma WholeGap(u: real, d: real)
    requires IsWhole(u) && IsWhole(d)
    ensures !(u < d < u + 1.0)
  {
    assert u < d < u + 1.0 ==> u.Floor < d.Floor < u.Floor + 1;
  }

  /** Whole samples and a whole bin size leave no gap, so the bins are exact. */
  lemma WholeSamplesGapFree(data: seq<real>, n: nat, b: real)
    requires IsWhole(b) && forall d :: d in data ==> IsWhole(d)
    ensures GapFree(data, n, b)
  {
    forall j | 0 <= j < |data|
      ensures !InGap(LastClass(data[..j], n, b), data[j], n, b)
    {
      var u, d := Upper(LastClass(data[..j], n, b), b), data[j];
      UpperWhole(LastClass(data[..j], n, b), b);
      assert d in data;
      WholeGap(u, d);
    }
  }

  // ----- bins of rearranged and joined samples

  lemma ClassesSnoc(s: seq<real>, d: real, n: nat, b: real)
    ensures multiset(Classes(s + [d], n, b)) == multiset(Classes(s, n, b)) + multiset{Class(d, n, b)}
  {
    assert (s + [d])[..|s|] == s;
  }

  lemma {:induction false} ClassesWithout(s: seq<real>, i: nat, n: nat, b: real)
    requires i < |s|
    ensures multiset(Classes(s, n, b)) == multiset(Classes(Without(s, i), n, b)) + multiset{Class(s[i], n, b)}
  {
    var m := |s| - 1;
    assert s == s[..m] + [s[m]];
    ClassesSnoc(s[..m], s[m], n, b);
    if i < m {
      assert Without(s, i) == Without(s[..m], i) + [s[m]];
      ClassesWithout(s[..m], i, n, b);
      ClassesSnoc(Without(s[..m], i), s[m], n, b);
    } else {
      assert Without(s, i) == s[..m];
    }
  }

  /** The order of the samples does not matter to their classes. */
  lemma {:induction false} ClassesRearranged(s: seq<real>, t: seq<real>, n: nat, b: real)
    requires multiset(s) == multiset(t)
    ensures multiset(Classes(s, n, b)) == multiset(Classes(t, n, b))
    decreases |s|
  {
    if s == [] {
      assert |multiset(t)| == 0;
    } else {
      var m := |s| - 1;
      assert s[m] in multiset(t);
      var i :| 0 <= i < |t| && t[i] == s[m];
      WithoutMultiset(t, i);
      WithoutMultiset(s, m);
      assert Without(s, m) == s[..m];
      ClassesRearranged(s[..m], Without(t, i), n, b);
      ClassesWithout(t, i, n, b);
    }
  }

  lemma {:induction false} ClassesConcat(s: seq<real>, t: seq<real>, n: nat, b: real)
    ensures Classes(s + t, n, b) == Classes(s, n, b) + Classes(t, n, b)
  {
    if t == [] {
      assert s + t == s;
    } else {
      assert (s + t)[..|s + t| - 1] == s + t[..|t| - 1];
      ClassesConcat(s, t[..|t| - 1], n, b);
    }
  }

  /** The bins that `aggregate` counts for a batch. */
  function Bins(batch: seq<real>, n: nat, b: real): seq<nat> {
    Counts(Placed(Sorted(batch), n, b), n)
  }

  /** For whole samples each bin counts exactly the samples that belong to it. */
  lemma WholeBins(batch: seq<real>, n: nat, b: real)
    requires IsWhole(b) && b >= 0.0 && forall d :: d in batch ==> IsWhole(d)
    ensures Bins(batch, n, b) == Counts(Classes(batch, n, b), n)
  {
    var s := Sorted(batch);
    assert forall d :: d in s ==> d in multiset(s);
    WholeSamplesGapFree(s, n, b);
    GapFreePlaced(s, n, b);
    ClassesRearranged(s, batch, n, b);
  }

  /** Whether `d` belongs to bin `k` of `n` bins and the last one. */
  predicate Belongs(d: real, k: nat, n: nat, b: real) {
    (k > 0 ==> k as real * b < d) && (k < n ==> d <= (k as real + 1.0) * b)
  }

  function Members(batch: seq<real>, k: nat, n: nat, b: real): seq<real> {
    if batch == [] then []
    else
      var m := |batch| - 1;
      Members(batch[..m], k, n, b) + if Belongs(batch[m], k, n, b) then [batch[m]] else []
  }

  lemma ClassBelongs(d: real, k: nat, n: nat, b: real)
    requires b >= 0.0 && k <= n
    ensures Class(d, n, b) == k <==> Belongs(d, k, n, b)
  {
    ClassIs(d, n, b, k);
  }

  lemma MembersSnoc(s: seq<real>, d: real, k: nat, n: nat, b: real)
    ensures |Members(s + [d], k, n, b)| == |Members(s, k, n, b)| + if Belongs(d, k, n, b) then 1 else 0
  {
    assert (s + [d])[..|s|] == s;
  }

  lemma ClassesCountSnoc(s: seq<real>, d: real, k: nat, n: nat, b: real)
    ensures multiset(Classes(s + [d], n, b))[k] ==
      multiset(Classes(s, n, b))[k] + if Class(d, n, b) == k then 1 else 0
  {
    ClassesSnoc(s, d, n, b);
  }

  lemma {:induction false} MembersCounted(batch: seq<real>, k: nat, n: nat, b: real)
    requires b >= 0.0 && k <= n
    ensures multiset(Classes(batch, n, b))[k] == |Members(batch, k, n, b)|
  {
    if batch != [] {
      var init, d := batch[..|batch| - 1], batch[|batch| - 1];
      MembersCounted(init, k, n, b);
      ClassBelongs(d, k, n, b);
      ClassesCountSnoc(init, d, k, n, b);
      MembersSnoc(init, d, k, n, b);
      assert batch == init + [d];
    }
  }

  /** They are the samples of the batch that belong to the bin, each as often as in the
      batch. */
  lemma {:induction false} MembersAre(batch: seq<real>, k: nat, n: nat, b: real, d: real)
    ensures multiset(Members(batch, k, n, b))[d] ==
      if (k > 0 ==> k as real * b < d) && (k < n ==> d <= (k as real + 1.0) * b) then multiset(batch)[d] else 0
  {
    if batch != [] {
      var m := |batch| - 1;
      MembersAre(batch[..m], k, n, b, d);
      assert batch == batch[..m] + [batch[m]];
    }
  }

  /** The bins of whole samples: bin k counts exactly the samples that belong to it. */
  lemma WholeBinCounts(batch: seq<real>, n: nat, b: real, k: nat)
    requires IsWhole(b) && b >= 0.0 && (forall d :: d in batch ==> IsWhole(d)) && k <= n
    ensures |Bins(batch, n, b)| == n + 1 && Bins(batch, n, b)[k] == |Members(batch, k, n, b)|
  {
    WholeBins(batch, n, b);
    MembersCounted(batch, k, n, b);
  }
}
