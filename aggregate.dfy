/** The statistics that `calculate` accumulates over the collected results,
    as a fold of one step per result, with independent reference definitions
    (filters, counts and sums over the result list) and lemmas tying the two.
    Costs are integer nanoseconds, as Go's `time.Duration` is. */
module Aggregate {
  import opened Wrappers
  import opened Numbers

  /** One request's outcome: whether the search failed, how long it took,
      and how many nodes it returned. */
  datatype TestResult = TestResult(hasError: bool, costNs: nat, count: nat)

  const NsPerMs: nat := 1_000_000
  const NsPerSecond: nat := 1_000_000_000
  /** `minCost` and `successMinCost` start at 10000000 seconds. */
  const MinSentinelNs: nat := 10_000_000 * NsPerSecond

  /** `seconds*1000 > float64(timeLimit)` with the cost in exact nanoseconds. */
  predicate TimedOut(costNs: int, timeLimitMs: int)
  {
    costNs > timeLimitMs * NsPerMs
  }

  /** The local variables of `calculate` other than the derived floats. */
  datatype Stats = Stats(
    failed: nat, timeOut: nat, successCount: nat, successTimeOut: nat,
    minCost: nat, maxCost: nat, totalCost: nat,
    successMinCost: nat, successMaxCost: nat, successTotalCost: nat)

  const Initial: Stats := Stats(0, 0, 0, 0, MinSentinelNs, 0, 0, MinSentinelNs, 0, 0)

  function Inc(n: nat, cond: bool): nat { if cond then n + 1 else n }

  /** One iteration of the loop in `calculate`. */
  function Step(s: Stats, r: TestResult, timeLimitMs: int): Stats
  {
    if r.hasError then
      s.(failed := s.failed + 1)
    else
      var c := r.costNs;
      var late := TimedOut(c, timeLimitMs);
      var s1 :=
        if r.count != 0 then
          s.(successTotalCost := s.successTotalCost + c,
             successMinCost := Min(s.successMinCost, c),
             successMaxCost := Max(s.successMaxCost, c),
             successTimeOut := Inc(s.successTimeOut, late),
             successCount := s.successCount + 1)
        else s;
      s1.(totalCost := s1.totalCost + c,
          minCost := Min(s1.minCost, c),
          maxCost := Max(s1.maxCost, c),
          timeOut := Inc(s1.timeOut, late))
  }

  /** The statistics after consuming `rs` in order. */
  function Fold(rs: seq<TestResult>, timeLimitMs: int): Stats
    decreases |rs|
  {
    if rs == [] then Initial
    else Step(Fold(rs[..|rs| - 1], timeLimitMs), rs[|rs| - 1], timeLimitMs)
  }

  // ---------------------------------------------------------------------
  // Reference definitions

  /** The results without a transport error, in order. */
  function Completed(rs: seq<TestResult>): seq<TestResult>
    decreases |rs|
  {
    if rs == [] then []
    else Completed(rs[..|rs| - 1]) + (if rs[|rs| - 1].hasError then [] else [rs[|rs| - 1]])
  }

  /** The results without an error and with a nonzero node count, in order. */
  function Succeeded(rs: seq<TestResult>): seq<TestResult>
    decreases |rs|
  {
    if rs == [] then []
    else
      var r := rs[|rs| - 1];
      Succeeded(rs[..|rs| - 1]) + (if !r.hasError && r.count != 0 then [r] else [])
  }

  /** The results whose cost exceeds the limit, in order. */
  function Late(rs: seq<TestResult>, timeLimitMs: int): seq<TestResult>
    decreases |rs|
  {
    if rs == [] then []
    else
      var r := rs[|rs| - 1];
      Late(rs[..|rs| - 1], timeLimitMs) + (if TimedOut(r.costNs, timeLimitMs) then [r] else [])
  }

  function Costs(rs: seq<TestResult>): (cs: seq<nat>)
    ensures |cs| == |rs|
    ensures forall i :: 0 <= i < |rs| ==> cs[i] == rs[i].costNs
    decreases |rs|
  {
    if rs == [] then [] else Costs(rs[..|rs| - 1]) + [rs[|rs| - 1].costNs]
  }

  function Sum(xs: seq<nat>): nat
    decreases |xs|
  {
    if xs == [] then 0 else Sum(xs[..|xs| - 1]) + xs[|xs| - 1]
  }

  // ---------------------------------------------------------------------
  // Lemmas

  lemma LastRemoved<T>(a: seq<T>, x: T)
    ensures (a + [x])[..|a|] == a && (a + [x])[|a|] == x
  {
  }

  /** The effect of one step, field by field. */
  lemma StepFields(s: Stats, r: TestResult, timeLimitMs: int)
    ensures var t := Step(s, r, timeLimitMs);
      var ok := !r.hasError;
      var hit := ok && r.count != 0;
      var late := TimedOut(r.costNs, timeLimitMs);
      && t.failed == Inc(s.failed, r.hasError)
      && t.timeOut == Inc(s.timeOut, ok && late)
      && t.successCount == Inc(s.successCount, hit)
      && t.successTimeOut == Inc(s.successTimeOut, hit && late)
      && t.minCost == (if ok then Min(s.minCost, r.costNs) else s.minCost)
      && t.maxCost == (if ok then Max(s.maxCost, r.costNs) else s.maxCost)
      && t.totalCost == (if ok then s.totalCost + r.costNs else s.totalCost)
      && t.successMinCost == (if hit then Min(s.successMinCost, r.costNs) else s.successMinCost)
      && t.successMaxCost == (if hit then Max(s.successMaxCost, r.costNs) else s.successMaxCost)
      && t.successTotalCost == (if hit then s.successTotalCost + r.costNs else s.successTotalCost)
  {
  }

  /** `failed` counts the results with an error; `timeOut` and `totalCost`
      count and add up the completed results that are late and all the
      completed results, respectively. */
  lemma {:induction false} FoldCounts(rs: seq<TestResult>, timeLimitMs: int)
    ensures var s := Fold(rs, timeLimitMs);
      && s.failed + |Completed(rs)| == |rs|
      && s.timeOut == |Late(Completed(rs), timeLimitMs)|
      && s.totalCost == Sum(Costs(Completed(rs)))
    decreases |rs|
  {
    if rs != [] {
      var init, r := rs[..|rs| - 1], rs[|rs| - 1];
      FoldCounts(init, timeLimitMs);
      StepFields(Fold(init, timeLimitMs), r, timeLimitMs);
      if !r.hasError {
        var c := Completed(init);
        assert Completed(rs) == c + [r];
        LastRemoved(c, r);
        LastRemoved(Costs(c), r.costNs);
        assert Late(c + [r], timeLimitMs)
          == Late(c, timeLimitMs) + (if TimedOut(r.costNs, timeLimitMs) then [r] else []);
        assert Costs(c + [r]) == Costs(c) + [r.costNs];
      } else {
        assert Completed(rs) == Completed(init);
      }
    }
  }

  /** `successCount`, `successTimeOut` and `successTotalCost` count, count
      the late ones among, and add up the results with nodes. */
  lemma {:induction false} FoldSuccessCounts(rs: seq<TestResult>, timeLimitMs: int)
    ensures var s := Fold(rs, timeLimitMs);
      && s.successCount == |Succeeded(rs)|
      && s.successTimeOut == |Late(Succeeded(rs), timeLimitMs)|
      && s.successTotalCost == Sum(Costs(Succeeded(rs)))
    decreases |rs|
  {
    if rs != [] {
      var init, r := rs[..|rs| - 1], rs[|rs| - 1];
      FoldSuccessCounts(init, timeLimitMs);
      StepFields(Fold(init, timeLimitMs), r, timeLimitMs);
      if !r.hasError && r.count != 0 {
        var c := Succeeded(init);
        assert Succeeded(rs) == c + [r];
        LastRemoved(c, r);
        LastRemoved(Costs(c), r.costNs);
        assert Late(c + [r], timeLimitMs)
          == Late(c, timeLimitMs) + (if TimedOut(r.costNs, timeLimitMs) then [r] else []);
        assert Costs(c + [r]) == Costs(c) + [r.costNs];
      } else {
        assert Succeeded(rs) == Succeeded(init);
      }
    }
  }

  /** `successTimeOut <= successCount <= reqCount - failed` and
      `successTimeOut <= timeOut <= reqCount - failed`. */
  lemma {:induction false} FoldBounds(rs: seq<TestResult>, timeLimitMs: int)
    ensures var s := Fold(rs, timeLimitMs);
      && s.failed <= |rs|
      && s.successTimeOut <= s.successCount <= |rs| - s.failed
      && s.successTimeOut <= s.timeOut <= |rs| - s.failed
    decreases |rs|
  {
    if rs != [] {
      FoldBounds(rs[..|rs| - 1], timeLimitMs);
    }
  }

  /** The overall minimum never exceeds the success-only minimum and the
      success-only maximum never exceeds the overall maximum. */
  lemma {:induction false} FoldExtremesNested(rs: seq<TestResult>, timeLimitMs: int)
    ensures var s := Fold(rs, timeLimitMs);
      s.minCost <= s.successMinCost && s.successMaxCost <= s.maxCost
    decreases |rs|
  {
    if rs != [] {
      FoldExtremesNested(rs[..|rs| - 1], timeLimitMs);
    }
  }

  /** What a running minimum from `start` and a running maximum from 0 over
      `cs` satisfy. */
  ghost predicate Extremes(lo: nat, hi: nat, cs: seq<nat>, start: nat)
  {
    && lo <= start
    && (forall i :: 0 <= i < |cs| ==> lo <= cs[i] <= hi)
    && (lo == start || lo in cs)
    && (cs == [] ==> lo == start && hi == 0)
    && (cs != [] ==> hi in cs)
  }

  lemma ExtremesStep(lo: nat, hi: nat, cs: seq<nat>, start: nat, c: nat)
    requires Extremes(lo, hi, cs, start)
    ensures Extremes(Min(lo, c), Max(hi, c), cs + [c], start)
  {
  }

  /** Over the completed results, `minCost` is at most every cost and
      `maxCost` at least every cost; `maxCost` is one of the costs when there
      is one, and `minCost` is one of them unless it is still the sentinel.
      With no completed result the sentinels 10000000 s and 0 remain. */
  lemma {:induction false} FoldExtremes(rs: seq<TestResult>, timeLimitMs: int)
    ensures var s := Fold(rs, timeLimitMs);
      Extremes(s.minCost, s.maxCost, Costs(Completed(rs)), MinSentinelNs)
    decreases |rs|
  {
    if rs != [] {
      var init, r := rs[..|rs| - 1], rs[|rs| - 1];
      FoldExtremes(init, timeLimitMs);
      if !r.hasError {
        var s := Fold(init, timeLimitMs);
        LastRemoved(Completed(init), r);
        LastRemoved(Costs(Completed(init)), r.costNs);
        ExtremesStep(s.minCost, s.maxCost, Costs(Completed(init)), MinSentinelNs, r.costNs);
      }
    }
  }

  /** The same for the success-only minimum and maximum over the results
      with nodes. */
  lemma {:induction false} FoldSuccessExtremes(rs: seq<TestResult>, timeLimitMs: int)
    ensures var s := Fold(rs, timeLimitMs);
      Extremes(s.successMinCost, s.successMaxCost, Costs(Succeeded(rs)), MinSentinelNs)
    decreases |rs|
  {
    if rs != [] {
      var init, r := rs[..|rs| - 1], rs[|rs| - 1];
      FoldSuccessExtremes(init, timeLimitMs);
      if !r.hasError && r.count != 0 {
        var s := Fold(init, timeLimitMs);
        LastRemoved(Succeeded(init), r);
        LastRemoved(Costs(Succeeded(init)), r.costNs);
        ExtremesStep(s.successMinCost, s.successMaxCost, Costs(Succeeded(init)), MinSentinelNs, r.costNs);
      }
    }
  }

  /** A completed result whose cost is at most the sentinel pins `minCost`
      to an actual cost. */
  lemma MinAttained(rs: seq<TestResult>, timeLimitMs: int, k: nat)
    requires k < |Completed(rs)| && Completed(rs)[k].costNs <= MinSentinelNs
    ensures Fold(rs, timeLimitMs).minCost in Costs(Completed(rs))
  {
    FoldExtremes(rs, timeLimitMs);
  }

  /** A failed result, wherever it stands, increments `failed` and changes
      nothing else. */
  lemma {:induction false} FailedChangesOnlyFailed(a: seq<TestResult>, r: TestResult, b: seq<TestResult>, timeLimitMs: int)
    requires r.hasError
    ensures Fold(a + [r] + b, timeLimitMs) == Fold(a + b, timeLimitMs).(failed := Fold(a + b, timeLimitMs).failed + 1)
    decreases |b|
  {
    if b == [] {
      assert a + [r] + b == a + [r];
      assert a + b == a;
      LastRemoved(a, r);
    } else {
      var init, x := b[..|b| - 1], b[|b| - 1];
      FailedChangesOnlyFailed(a, r, init, timeLimitMs);
      assert a + [r] + b == (a + [r] + init) + [x];
      assert a + b == (a + init) + [x];
      LastRemoved(a + [r] + init, x);
      LastRemoved(a + init, x);
    }
  }

  lemma {:induction false} SumBetween(xs: seq<nat>, lo: nat, hi: nat)
    requires forall i :: 0 <= i < |xs| ==> lo <= xs[i] <= hi
    ensures |xs| * lo <= Sum(xs) <= |xs| * hi
    decreases |xs|
  {
    if xs != [] {
      SumBetween(xs[..|xs| - 1], lo, hi);
      assert |xs| * lo == (|xs| - 1) * lo + lo;
      assert |xs| * hi == (|xs| - 1) * hi + hi;
    }
  }

  // ---------------------------------------------------------------------
  // The derived outputs

  /** The floats `calculate` logs, as exact reals in nanoseconds; `None`
      stands for Go's NaN from dividing 0 by 0. */
  datatype Report = Report(
    stats: Stats,
    avgCost: Option<real>, timeOutRatio: Option<real>, successRatio: Option<real>,
    successAvgCost: Option<real>, successTimeOutRatio: Option<real>)

  /** `float64(num) / float64(den)`; with `den == 0` the value is not finite. */
  function Ratio(num: nat, den: nat): (q: Option<real>)
    ensures q.Some? <==> den != 0
    ensures q.Some? ==> q.value * den as real == num as real
  {
    if den == 0 then None else Some(num as real / den as real)
  }

  /** A quotient by a positive number lies between the bounds its
      numerator lies between, scaled. */
  lemma QuotientBetween(total: real, n: real, lo: real, hi: real)
    requires n > 0.0 && lo * n <= total <= hi * n
    ensures lo <= total / n <= hi
  {
    var q := total / n;
    assert (q - lo) * n == total - lo * n;
    assert (hi - q) * n == hi * n - total;
  }

  /** `float64(num) / float64(den) * 100`. */
  function Percent(num: nat, den: nat): (p: Option<real>)
    ensures p.Some? <==> den != 0
    ensures p.Some? && num <= den ==> 0.0 <= p.value <= 100.0
    ensures p.Some? ==> p.value * den as real == 100.0 * num as real
  {
    match Ratio(num, den)
    case None => None
    case Some(q) =>
      assert num <= den ==> 0.0 <= q <= 1.0 by {
        if num <= den {
          QuotientBetween(num as real, den as real, 0.0, 1.0);
        }
      }
      Some(q * 100.0)
  }

  /** Lines 279-284: the averages and ratios, over `reqCount` for the
      overall figures and over `successCount` for the success-only ones. */
  function Summarize(s: Stats, reqCount: nat): Report
  {
    Report(s,
      Ratio(s.totalCost, reqCount),
      Percent(s.timeOut, reqCount),
      Percent(s.successCount, reqCount),
      Ratio(s.successTotalCost, s.successCount),
      Percent(s.successTimeOut, s.successCount))
  }

  /** A whole-number average lies between whole-number bounds. */
  lemma AverageBetween(total: nat, n: nat, lo: nat, hi: nat)
    requires n > 0 && n * lo <= total <= n * hi
    ensures lo as real <= total as real / n as real <= hi as real
  {
    assert (n * lo) as real == lo as real * n as real;
    assert (n * hi) as real == hi as real * n as real;
    QuotientBetween(total as real, n as real, lo as real, hi as real);
  }

  /** The overall figures of a report over `n` requests of which at most
      `n` timed out and at most `n` succeeded. */
  ghost predicate OverallFigures(rep: Report, n: nat, total: nat)
  {
    && (n == 0 <==> rep.avgCost.None?)
    && (n == 0 <==> rep.timeOutRatio.None?)
    && (n == 0 <==> rep.successRatio.None?)
    && (n > 0 ==>
          && rep.avgCost.value * n as real == total as real
          && 0.0 <= rep.timeOutRatio.value <= 100.0
          && 0.0 <= rep.successRatio.value <= 100.0)
  }

  lemma SummarizeOverall(s: Stats, n: nat)
    requires s.timeOut <= n && s.successCount <= n
    ensures OverallFigures(Summarize(s, n), n, s.totalCost)
  {
  }

  /** With `reqCount` the number of results consumed: `avgCost * reqCount`
      is the sum of the completed costs (failed results add nothing to the
      total but count in the divisor), the two ratios lie in [0, 100], and all
      three figures are not finite exactly when no result was consumed. */
  lemma OverallSummary(rs: seq<TestResult>, timeLimitMs: int)
    ensures OverallFigures(Summarize(Fold(rs, timeLimitMs), |rs|), |rs|, Sum(Costs(Completed(rs))))
  {
    FoldCounts(rs, timeLimitMs);
    FoldBounds(rs, timeLimitMs);
    SummarizeOverall(Fold(rs, timeLimitMs), |rs|);
  }

  /** The success-only average lies between the success-only minimum and
      maximum, and the success-only timeout ratio in [0, 100]; both are not
      finite exactly when no result returned nodes. */
  lemma SuccessSummary(rs: seq<TestResult>, timeLimitMs: int)
    ensures var s := Fold(rs, timeLimitMs);
      var rep := Summarize(s, |rs|);
      && (s.successCount == 0 <==> rep.successAvgCost.None?)
      && (s.successCount == 0 <==> rep.successTimeOutRatio.None?)
      && (s.successCount > 0 ==>
            && s.successMinCost as real <= rep.successAvgCost.value <= s.successMaxCost as real
            && 0.0 <= rep.successTimeOutRatio.value <= 100.0)
  {
    var s := Fold(rs, timeLimitMs);
    FoldBounds(rs, timeLimitMs);
    var n := s.successCount;
    assert s.successTimeOut <= n;
    if n > 0 {
      FoldSuccessCounts(rs, timeLimitMs);
      FoldSuccessExtremes(rs, timeLimitMs);
      var cs := Costs(Succeeded(rs));
      assert |cs| == n && Sum(cs) == s.successTotalCost;
      SumBetween(cs, s.successMinCost, s.successMaxCost);
      AverageBetween(s.successTotalCost, n, s.successMinCost, s.successMaxCost);
    }
  }

  /** The overall average is bounded above by the maximum and below by 0,
      and by nothing larger: failed results add to the divisor only. */
  lemma OverallAverageBounds(rs: seq<TestResult>, timeLimitMs: int)
    requires |rs| > 0
    ensures var s := Fold(rs, timeLimitMs);
      var rep := Summarize(s, |rs|);
      rep.avgCost.Some? && 0.0 <= rep.avgCost.value <= s.maxCost as real
  {
    var s := Fold(rs, timeLimitMs);
    var cs := Costs(Completed(rs));
    FoldCounts(rs, timeLimitMs);
    FoldExtremes(rs, timeLimitMs);
    SumBetween(cs, 0, s.maxCost);
    MeanBelow(s.totalCost, |cs|, |rs|, s.maxCost);
  }

  /** A total of at most `k` values each at most `hi`, divided by `n >= k`,
      is at most `hi`. */
  lemma MeanBelow(total: nat, k: nat, n: nat, hi: nat)
    requires 0 < n && k <= n && total <= k * hi
    ensures 0.0 <= total as real / n as real <= hi as real
  {
    assert n * hi == k * hi + (n - k) * hi;
    AverageBetween(total, n, 0, hi);
  }

  /** The overall average is not bounded below by the minimum: a failed
      result adds to the divisor but not to the total. */
  lemma AverageCanFallBelowMinimum()
    ensures var rs := [TestResult(true, 0, 0), TestResult(false, 10, 1)];
      var rep := Summarize(Fold(rs, 500), |rs|);
      rep.avgCost == Some(5.0) && rep.stats.minCost == 10
  {
    var rs := [TestResult(true, 0, 0), TestResult(false, 10, 1)];
    assert rs[..1] == [TestResult(true, 0, 0)];
    assert rs[..1][..0] == [];
  }
}
