/** The benchmark run of `test_company.go`: the request `makeQuery` builds,
    how it records one outcome into the result and timed-out channels, the
    partial drain in `printTimeOutReq`, the loop of `calculate`, and a
    sequential run that ties them together. The RPC, the clock and the
    goroutine scheduling are parameters: a `Query` carries the request, what
    the search returned and the measured cost. */
module Benchmark {
  import opened Wrappers
  import opened Channels
  import opened Aggregate
  import Conditions

  // ---------------------------------------------------------------------
  // Requests

  /** The values of `pb.SearchType`, in the order of `searchTypes`. */
  datatype SearchType = NoType | Company | Person | Fund | Lp | InsInvestor | Deal

  const SearchTypes: seq<SearchType> := [NoType, Company, Person, Fund, Lp, InsInvestor, Deal]

  /** `base64.StdEncoding.EncodeToString([]byte(strconv.Itoa(0)))`. */
  const FirstPageCursor: string := "MA=="

  const TwoTo31: int := 0x8000_0000
  const TwoTo32: int := 0x1_0000_0000

  /** Go's conversion `int32(x)`: the two's-complement truncation to 32 bits. */
  function Int32(x: int): (r: int)
    ensures -TwoTo31 <= r < TwoTo31
    ensures (x - r) % TwoTo32 == 0
    ensures -TwoTo31 <= x < TwoTo31 ==> r == x
  {
    (x + TwoTo31) % TwoTo32 - TwoTo31
  }

  /** The fields of `pb.SearchRequest` that `makeQuery` sets, other than the
      ordering columns and column ids. */
  datatype SearchRequest = SearchRequest(
    searchType: SearchType, first: int, after: string,
    conditions: seq<Conditions.SearchCondition>)

  /** The request `makeQuery` builds from the `-t` and `-p` flags and the
      conditions it drew; `None` where `searchTypes[*searchType]` is out of
      range and Go panics. */
  function BuildRequest(searchTypeFlag: int, pageSize: int, conditions: seq<Conditions.SearchCondition>)
    : (req: Option<SearchRequest>)
    ensures req.Some? <==> 0 <= searchTypeFlag < |SearchTypes|
    ensures req.Some? ==>
      && req.value.searchType == SearchTypes[searchTypeFlag]
      && -TwoTo31 <= req.value.first < TwoTo31
      && (-TwoTo31 <= pageSize < TwoTo31 ==> req.value.first == pageSize)
      && req.value.after == FirstPageCursor
      && req.value.conditions == conditions
  {
    if 0 <= searchTypeFlag < |SearchTypes| then
      Some(SearchRequest(SearchTypes[searchTypeFlag], Int32(pageSize), FirstPageCursor, conditions))
    else None
  }

  // ---------------------------------------------------------------------
  // One query

  /** What `client.Search` returned: a transport error, or a response with
      this many nodes. */
  datatype SearchOutcome = TransportError | Response(nodes: nat)

  /** One `makeQuery` call: the request, the search outcome and the cost
      `time.Since(start)` in nanoseconds. */
  datatype Query = Query(req: SearchRequest, outcome: SearchOutcome, costNs: nat)

  /** The `testResult` a query writes. */
  function ResultOf(q: Query): TestResult
  {
    match q.outcome
    case TransportError => TestResult(true, q.costNs, 0)
    case Response(n) => TestResult(false, q.costNs, n)
  }

  /** The results of `qs`, one per query, in order. */
  function ResultsOf(qs: seq<Query>): (rs: seq<TestResult>)
    ensures |rs| == |qs|
    ensures forall i :: 0 <= i < |qs| ==> rs[i] == ResultOf(qs[i])
    decreases |qs|
  {
    if qs == [] then [] else ResultsOf(qs[..|qs| - 1]) + [ResultOf(qs[|qs| - 1])]
  }

  /** The requests of the queries over the limit, in order. */
  function LateRequests(qs: seq<Query>, timeLimitMs: int): seq<SearchRequest>
    decreases |qs|
  {
    if qs == [] then []
    else
      var q := qs[|qs| - 1];
      LateRequests(qs[..|qs| - 1], timeLimitMs) + (if TimedOut(q.costNs, timeLimitMs) then [q.req] else [])
  }

  /** The number of queries whose search failed. */
  function Failures(qs: seq<Query>): nat
    decreases |qs|
  {
    if qs == [] then 0
    else Failures(qs[..|qs| - 1]) + (if qs[|qs| - 1].outcome.TransportError? then 1 else 0)
  }

  /** The recording rule of `makeQuery`: one result into `resChan`, whose
      error, cost and count come from the query (the count only without an
      error), and then the request into `reqChan` exactly when the cost is
      over the limit. A send on a full channel would block; then nothing
      after it happens. */
  method MakeQuery(resChan: Chan<TestResult>, reqChan: Chan<SearchRequest>, q: Query, timeLimitMs: int)
      returns (resSent: bool, reqSent: bool)
    requires resChan.Valid() && reqChan.Valid()
    modifies resChan, reqChan
    ensures resChan.Valid() && reqChan.Valid()
    ensures resSent == (|old(resChan.buf)| < resChan.capacity)
    ensures resChan.buf == if resSent then old(resChan.buf) + [ResultOf(q)] else old(resChan.buf)
    ensures reqSent ==> resSent && TimedOut(q.costNs, timeLimitMs)
    ensures resSent && TimedOut(q.costNs, timeLimitMs) && |old(reqChan.buf)| < reqChan.capacity ==> reqSent
    ensures reqChan.buf == if reqSent then old(reqChan.buf) + [q.req] else old(reqChan.buf)
  {
    var count := 0;
    if q.outcome.Response? {
      count := q.outcome.nodes;
    }
    resSent := resChan.Send(TestResult(q.outcome.TransportError?, q.costNs, count));
    reqSent := false;
    if resSent && q.costNs > timeLimitMs * NsPerMs {
      reqSent := reqChan.Send(q.req);
    }
  }

  // ---------------------------------------------------------------------
  // Draining the timed-out requests

  /** `printTimeOutReq`: the loop compares its counter with the shrinking
      `len(reqChan)`, so of n buffered requests it takes the oldest
      ceil(n/2) and leaves the newest floor(n/2). */
  method PrintTimeOutReq(reqChan: Chan<SearchRequest>)
    requires reqChan.Valid()
    modifies reqChan
    ensures reqChan.Valid()
    ensures reqChan.buf == old(reqChan.buf)[(|old(reqChan.buf)| + 1) / 2..]
    ensures |reqChan.buf| == |old(reqChan.buf)| / 2
  {
    var i := 0;
    while i < reqChan.Len()
      invariant reqChan.Valid()
      invariant 0 <= i <= |old(reqChan.buf)|
      invariant 2 * i <= |old(reqChan.buf)| + 1
      invariant reqChan.buf == old(reqChan.buf)[i..]
      decreases |reqChan.buf| - i
    {
      var _ := reqChan.Recv();
      i := i + 1;
    }
  }

  // ---------------------------------------------------------------------
  // Aggregating the results

  /** `calculate`: receive `reqCount` results from `resChan` and fold them,
      a failed result only counting as failed; then the derived figures. */
  method Calculate(resChan: Chan<TestResult>, reqCount: nat, timeLimitMs: int) returns (report: Report)
    requires resChan.Valid() && reqCount <= |resChan.buf|
    modifies resChan
    ensures resChan.Valid()
    ensures resChan.buf == old(resChan.buf)[reqCount..]
    ensures report == Summarize(Fold(old(resChan.buf)[..reqCount], timeLimitMs), reqCount)
  {
    var failed: nat, timeOut: nat, successCount: nat, successTimeOut: nat := 0, 0, 0, 0;
    var minCost: nat, maxCost: nat, totalCost: nat := MinSentinelNs, 0, 0;
    var successMinCost: nat, successMaxCost: nat, successTotalCost: nat := MinSentinelNs, 0, 0;
    ghost var all := resChan.buf;
    for i := 0 to reqCount
      invariant resChan.Valid()
      invariant resChan.buf == all[i..]
      invariant Stats(failed, timeOut, successCount, successTimeOut, minCost, maxCost, totalCost,
                      successMinCost, successMaxCost, successTotalCost)
                == Fold(all[..i], timeLimitMs)
    {
      assert all[..i + 1][..i] == all[..i];
      var res := resChan.Recv();
      if res.hasError {
        failed := failed + 1;
        continue;
      }
      var cost := res.costNs;
      if res.count != 0 {
        successTotalCost := successTotalCost + cost;
        if cost < successMinCost {
          successMinCost := cost;
        }
        if cost > successMaxCost {
          successMaxCost := cost;
        }
        if cost > timeLimitMs * NsPerMs {
          successTimeOut := successTimeOut + 1;
        }
        successCount := successCount + 1;
      }
      totalCost := totalCost + cost;
      if cost < minCost {
        minCost := cost;
      }
      if cost > maxCost {
        maxCost := cost;
      }
      if cost > timeLimitMs * NsPerMs {
        timeOut := timeOut + 1;
      }
    }
    var s := Stats(failed, timeOut, successCount, successTimeOut, minCost, maxCost, totalCost,
                   successMinCost, successMaxCost, successTotalCost);
    report := Summarize(s, reqCount);
  }

  // ---------------------------------------------------------------------
  // A whole run

  /** `reqCount = int(duration/time.Second) * *qps` with `duration` the
      `-m` flag in seconds. */
  function ReqCount(seconds: nat, qps: nat): nat
  {
    seconds * qps
  }

  /** A run in which the queries record one after another: both channels
      are made with capacity `reqCount`, every query records its result,
      and then the deferred calls run, `printTimeOutReq` before
      `calculate`. Every send is delivered; the report is the fold of the
      results in order, and the requests left in `reqChan` are the newer
      half of the late ones. */
  method Run(seconds: nat, qps: nat, timeLimitMs: int, queries: seq<Query>)
      returns (report: Report, leftOver: seq<SearchRequest>)
    requires |queries| == ReqCount(seconds, qps)
    ensures report == Summarize(Fold(ResultsOf(queries), timeLimitMs), |queries|)
    ensures var late := LateRequests(queries, timeLimitMs);
      leftOver == late[(|late| + 1) / 2..]
  {
    var reqCount := ReqCount(seconds, qps);
    var resChan := new Chan<TestResult>(reqCount);
    var reqChan := new Chan<SearchRequest>(reqCount);
    RecordAll(resChan, reqChan, queries, timeLimitMs);
    ghost var results := resChan.buf;
    assert results[..reqCount] == ResultsOf(queries);
    PrintTimeOutReq(reqChan);
    leftOver := reqChan.buf;
    report := Calculate(resChan, reqCount, timeLimitMs);
  }

  /** The queries of a run, recorded one after another into empty channels
      with room for all of them: every send is delivered. */
  method RecordAll(resChan: Chan<TestResult>, reqChan: Chan<SearchRequest>, queries: seq<Query>, timeLimitMs: int)
    requires resChan.Valid() && reqChan.Valid()
    requires resChan.buf == [] && reqChan.buf == []
    requires resChan.capacity == |queries| && reqChan.capacity == |queries|
    modifies resChan, reqChan
    ensures resChan.Valid() && reqChan.Valid()
    ensures resChan.buf == ResultsOf(queries)
    ensures reqChan.buf == LateRequests(queries, timeLimitMs)
  {
    var i := 0;
    while i < |queries|
      invariant 0 <= i <= |queries|
      invariant resChan.Valid() && reqChan.Valid()
      invariant resChan.buf == ResultsOf(queries[..i])
      invariant reqChan.buf == LateRequests(queries[..i], timeLimitMs)
    {
      LateRequestsBound(queries[..i], timeLimitMs);
      var q := queries[i];
      assert queries[..i + 1][..i] == queries[..i];
      var resSent, reqSent := MakeQuery(resChan, reqChan, q, timeLimitMs);
      i := i + 1;
    }
    assert queries[..i] == queries;
  }

  // ---------------------------------------------------------------------
  // Lemmas about a run

  /** No more late requests than queries. */
  lemma {:induction false} LateRequestsBound(qs: seq<Query>, timeLimitMs: int)
    ensures |LateRequests(qs, timeLimitMs)| <= |qs|
    decreases |qs|
  {
    if qs != [] {
      LateRequestsBound(qs[..|qs| - 1], timeLimitMs);
    }
  }

  /** A request is enqueued for each late result, failed or not. */
  lemma {:induction false} LateRequestsMatchResults(qs: seq<Query>, timeLimitMs: int)
    ensures |LateRequests(qs, timeLimitMs)| == |Late(ResultsOf(qs), timeLimitMs)|
    decreases |qs|
  {
    if qs != [] {
      var init := qs[..|qs| - 1];
      LateRequestsMatchResults(init, timeLimitMs);
      LastRemoved(ResultsOf(init), ResultOf(qs[|qs| - 1]));
    }
  }

  /** The failed results are those of the failed searches. */
  lemma {:induction false} ResultsFailures(qs: seq<Query>)
    ensures |Completed(ResultsOf(qs))| + Failures(qs) == |qs|
    decreases |qs|
  {
    if qs != [] {
      var init := qs[..|qs| - 1];
      ResultsFailures(init);
      LastRemoved(ResultsOf(init), ResultOf(qs[|qs| - 1]));
    }
  }

  /** Dropping failed results keeps only fewer late ones. */
  lemma {:induction false} LateCompletedBound(rs: seq<TestResult>, timeLimitMs: int)
    ensures |Late(Completed(rs), timeLimitMs)| <= |Late(rs, timeLimitMs)|
    decreases |rs|
  {
    if rs != [] {
      var init, r := rs[..|rs| - 1], rs[|rs| - 1];
      LateCompletedBound(init, timeLimitMs);
      var c := Completed(init);
      assert Late(rs, timeLimitMs)
        == Late(init, timeLimitMs) + (if TimedOut(r.costNs, timeLimitMs) then [r] else []);
      if !r.hasError {
        assert Completed(rs) == c + [r];
        LastRemoved(c, r);
        assert Late(c + [r], timeLimitMs)
          == Late(c, timeLimitMs) + (if TimedOut(r.costNs, timeLimitMs) then [r] else []);
      } else {
        assert Completed(rs) == c;
      }
    }
  }

  /** In a run, `failed` is the number of failed searches, and the
      `timeOut` counter never exceeds the number of requests enqueued as
      timed out: those also include the failed searches over the limit. */
  lemma RunCounts(qs: seq<Query>, timeLimitMs: int)
    ensures var s := Fold(ResultsOf(qs), timeLimitMs);
      && s.failed == Failures(qs)
      && s.timeOut <= |LateRequests(qs, timeLimitMs)| <= |qs|
  {
    var rs := ResultsOf(qs);
    FoldCounts(rs, timeLimitMs);
    ResultsFailures(qs);
    LateCompletedBound(rs, timeLimitMs);
    LateRequestsMatchResults(qs, timeLimitMs);
    LateRequestsBound(qs, timeLimitMs);
  }
}
