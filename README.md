# Company-search load test, modelled in Dafny

The system is a Go load-test script, `stress-test-script/test_company.go`, for
an advanced-search RPC service. Each second it starts `qps` goroutines, for
`seconds` seconds. Each goroutine runs `makeQuery`:

- build a search request with randomly drawn conditions;
- time the call;
- write one `testResult` into `resChan`;
- if the call took longer than the `-l` limit, also write the request into
  `reqChan`.

Both channels have capacity `reqCount = seconds * qps`. When the run ends, the
deferred `printTimeOutReq` drains part of `reqChan`. Then `calculate` takes
`reqCount` results from `resChan` and reports:

- failure, success and timeout counts;
- minimum, maximum and average latency;
- the same figures restricted to the responses that returned nodes.

The search conditions come from three steps:

- helpers draw an operator, a boolean and decimal number ranges;
- `searchCondition` returns nil unless it has an id and values;
- `getSearchConditions` drops the nil conditions and `choiceConditions`
  picks `min(conditionCount, remaining, 200)` of the rest, none when
  `conditionCount <= 0`. It uses `perm`, which turns a random permutation
  and a random offset into distinct indices.

The investor and vertical reference lists come from `getInvestors` and
`getVerticals`. They keep the trimmed first field of every line that holds a
comma.

The project is split into these modules:

- `Wrappers`: `Option`.
- `Channels`: a buffered channel as a class over a FIFO `seq`.
- `Aggregate`: the `calculate` fold, reference filters, counts and sums, and
  the lemmas relating them.
- `Benchmark`:
  - how requests are built;
  - `makeQuery`'s recording rule;
  - `printTimeOutReq`;
  - the `calculate` loop;
  - a sequential whole run.
- `Decimal`: `strconv.Itoa` and a parser used to state round trips.
- `Selection`: `perm` and `choice`.
- `Conditions`: `searchCondition`, `randOperator`, `randBoolean`,
  `randNumber`, `randAmout`, the nil filter and `choiceConditions`.
- `ReferenceData`: `strings.Split`, `strings.TrimSpace`, `getInvestors` and
  `getVerticals`.

Modelling choices:

- **Costs.** A cost is a whole number of nanoseconds, as Go's
  `time.Duration` is. "Over the limit" is `costNs > timeLimitMs * 1_000_000`.
  The minimum sentinel of 10000000 seconds is 10^16 ns.
- **Derived figures.** The averages and ratios are exact reals. `None` stands
  for Go's NaN from 0/0.
- **Random draws.** Every `rand.Intn` and `rand.Perm` value is a parameter,
  with a precondition giving the range the call guarantees.
- **Results and timing.** The RPC result and the measured time are also
  parameters. A `Query` carries the request, a transport error or a node
  count, and the cost.
- **Channels.** A send on a full channel reports that it did not deliver,
  instead of blocking.

The loops of the source are methods with `while`/`for` loops:

- `calculate`, `printTimeOutReq`;
- `perm`, `choice`, the nil filter;
- the line parsers.

Each loop is proved against a function on its inputs. The properties of the
run are lemmas over those functions.

One might read the overall figures as satisfying `min <= mean <= max`. The
code guarantees only the upper half. `avgCost` divides the total of the
non-failed costs by `reqCount`, so failed results count in the divisor but add
nothing to the total (line 279). The mean is therefore bounded above by
`maxCost`, and below by 0 but not by `minCost`. The model follows the code:

- `Aggregate.OverallSummary` proves that `avgCost * reqCount` is the sum of
  the completed costs.
- `Aggregate.OverallAverageBounds` proves `0 <= avgCost <= maxCost` whenever
  `reqCount > 0`.
- `Aggregate.AverageCanFallBelowMinimum` exhibits an average below the minimum.
- `Aggregate.SuccessSummary` proves that the success-only average, which
  divides by `successCount`, does lie between the success-only bounds.

## Model

| member | source | states |
|---|---|---|
| Channels.Chan.constructor | stress-test-script/test_company.go:63-64 | `make(chan T, reqCount)`: an empty buffer with the given capacity |
| Channels.Chan.Send | stress-test-script/test_company.go:235-237 | a send appends to the buffer exactly when it is below capacity, otherwise leaves it unchanged (Go would block) |
| Channels.Chan.Len | stress-test-script/test_company.go:293 | `len(ch)`: the number of buffered values, the bound `PrintTimeOutReq` re-reads every iteration |
| Channels.Chan.Recv | stress-test-script/test_company.go:249 | a receive on a non-empty buffer returns the oldest value and removes it (FIFO) |
| Aggregate.Step | stress-test-script/test_company.go:249-277 | one iteration of the loop of `calculate`; its effect field by field is stated by `Aggregate.StepFields` |
| Aggregate.Fold | stress-test-script/test_company.go:246-278 | the counters after consuming a result list in order, from the initial values of lines 242-247; characterised by `FoldCounts`, `FoldSuccessCounts`, `FoldBounds`, `FoldExtremes`, `FoldSuccessExtremes` and `FailedChangesOnlyFailed` |
| Aggregate.Summarize | stress-test-script/test_company.go:279-284 | the five derived figures, over `reqCount` and over `successCount`; their ranges are stated by `OverallSummary`, `OverallAverageBounds` and `SuccessSummary` |
| Aggregate.Costs | stress-test-script/test_company.go:254 | the cost list has one entry per result, equal to that result's cost |
| Aggregate.StepFields | stress-test-script/test_company.go:249-277 | one loop iteration field by field: an error only increments `failed`; a completed result updates total, min, max and the timeout count; the success fields move only when the count is nonzero |
| Aggregate.FoldCounts | stress-test-script/test_company.go:248-277 | after consuming a result list: `failed + completed == reqCount`, `timeOut` is the number of completed late results, `totalCost` the sum of completed costs |
| Aggregate.FoldSuccessCounts | stress-test-script/test_company.go:255-267 | `successCount`, `successTimeOut` and `successTotalCost` equal the count, late count and cost sum of the results without error and with nodes |
| Aggregate.FoldBounds | stress-test-script/test_company.go:248-277 | `failed <= reqCount`, `successTimeOut <= successCount <= reqCount - failed`, `successTimeOut <= timeOut <= reqCount - failed` |
| Aggregate.FoldExtremesNested | stress-test-script/test_company.go:246-274 | `minCost <= successMinCost` and `successMaxCost <= maxCost` |
| Aggregate.FoldExtremes | stress-test-script/test_company.go:246-274 | `minCost` is at most and `maxCost` at least every completed cost; `maxCost` is one of them when there is one; `minCost` is one unless still the sentinel; with no completed result the sentinels 10000000 s and 0 stay |
| Aggregate.FoldSuccessExtremes | stress-test-script/test_company.go:247-262 | the same for `successMinCost`/`successMaxCost` over the results with nodes |
| Aggregate.MinAttained | stress-test-script/test_company.go:246-271 | with a completed cost not above the sentinel, `minCost` is an actual completed cost |
| Aggregate.FailedChangesOnlyFailed | stress-test-script/test_company.go:250-253 | inserting a failed result anywhere increments `failed` and changes no other counter, minimum, maximum or total |
| Aggregate.SumBetween | stress-test-script/test_company.go:256-268 | a sum of n costs within [lo, hi] lies within [n*lo, n*hi] |
| Aggregate.Ratio | stress-test-script/test_company.go:279 | `float64(num)/float64(den)`: defined exactly when `den != 0`, and then `q * den == num` |
| Aggregate.Percent | stress-test-script/test_company.go:280-281 | a ratio times 100: defined exactly when `den != 0`, `p * den == 100 * num`, and within [0, 100] when `num <= den` |
| Aggregate.SummarizeOverall | stress-test-script/test_company.go:279-281 | from counter bounds: avg times `reqCount` is the total, both ratios in [0, 100], all not finite exactly when `reqCount == 0` |
| Aggregate.OverallSummary | stress-test-script/test_company.go:279-281 | for any consumed list: `avgCost * reqCount` is the sum of completed costs, `timeOutRatio` and `successRatio` in [0, 100], NaN exactly when `reqCount == 0` |
| Aggregate.SuccessSummary | stress-test-script/test_company.go:283-284 | `successMinCost <= successAvgCost <= successMaxCost` and `successTimeOutRatio` in [0, 100] when `successCount > 0`; both NaN exactly when `successCount == 0` |
| Aggregate.OverallAverageBounds | stress-test-script/test_company.go:268-279 | with `reqCount > 0`, `avgCost` is defined and `0 <= avgCost <= maxCost` |
| Aggregate.AverageCanFallBelowMinimum | stress-test-script/test_company.go:279 | a failed result plus one of cost 10 gives `avgCost == 5` while `minCost == 10`: the overall average is not bounded by the minimum |
| Benchmark.Int32 | stress-test-script/test_company.go:219 | `int32(x)`: in the 32-bit range, congruent to `x` modulo 2^32, and `x` itself when `x` fits |
| Benchmark.BuildRequest | stress-test-script/test_company.go:211-227 | the request exists exactly when the search-type index is in range of `searchTypes` (Go panics otherwise); it holds that search type, the truncated page size, the first-page cursor and the drawn conditions |
| Benchmark.ResultOf | stress-test-script/test_company.go:231-235 | the `testResult` of one query: error flag and cost from the query, node count only without error; `MakeQuery` and `ResultsFailures` state its use |
| Benchmark.ResultsOf | stress-test-script/test_company.go:231-235 | one result per query, in order, each the query's own result |
| Benchmark.MakeQuery | stress-test-script/test_company.go:228-238 | exactly one result is appended to `resChan`: error flag and cost from the query, node count only without error; the request is appended to `reqChan` exactly when the result was sent and the cost is over the limit (given room) |
| Benchmark.PrintTimeOutReq | stress-test-script/test_company.go:292-303 | of n buffered requests the oldest ceil(n/2) are removed in FIFO order and the newest floor(n/2) remain |
| Benchmark.Calculate | stress-test-script/test_company.go:241-290 | exactly `reqCount` results are taken from the front of `resChan` and the report is the fold of them in order, summarized over `reqCount` |
| Benchmark.ReqCount | stress-test-script/test_company.go:61 | `reqCount = seconds * qps`; `Run` requires exactly that many queries and sizes both channels with it |
| Benchmark.RecordAll | stress-test-script/test_company.go:228-238 | queries recorded one after another into channels of capacity `reqCount`: every send is delivered; `resChan` holds the results in order and `reqChan` the late requests in order |
| Benchmark.Run | stress-test-script/test_company.go:60-73 | a sequential run of `seconds * qps` queries: the report is the fold of all their results, and the requests left in `reqChan` are the newer half of the late ones |
| Benchmark.LateRequestsBound | stress-test-script/test_company.go:236-237 | no more requests are enqueued as timed out than there are queries, so a buffer of `reqCount` never fills |
| Benchmark.LateRequestsMatchResults | stress-test-script/test_company.go:235-237 | one request is enqueued per late result, failed or not |
| Benchmark.ResultsFailures | stress-test-script/test_company.go:232-235 | a result is failed exactly when its search failed: completed results plus failed searches is the number of queries |
| Benchmark.LateCompletedBound | stress-test-script/test_company.go:250-253 | the late completed results are no more than the late results |
| Benchmark.RunCounts | stress-test-script/test_company.go:235-277 | in a run, `failed` is the number of failed searches and `timeOut <= enqueued timed-out requests <= reqCount` |
| Decimal.DigitsOf | stress-test-script/test_company.go:517 | the decimal digits of a natural: non-empty, all digits, no leading zero except for "0" |
| Decimal.Itoa | stress-test-script/test_company.go:517 | `strconv.Itoa`: non-empty, with a leading '-' exactly for negative numbers |
| Decimal.ValueOfDigitsOf | stress-test-script/test_company.go:517 | the digits of n read back as n |
| Decimal.ItoaRoundTrip | stress-test-script/test_company.go:517-520 | parsing `strconv.Itoa(n)` gives n back |
| Decimal.ItoaInjective | stress-test-script/test_company.go:517-520 | distinct numbers render as distinct strings |
| Selection.Span | stress-test-script/test_company.go:477-484 | the permuted span is `min(n, 200)` |
| Selection.PermLength | stress-test-script/test_company.go:486-491 | `perm` yields `min(count, min(n, 200))` entries, none when `count <= 0` |
| Selection.Perm | stress-test-script/test_company.go:474-492 | `min(count, min(n,200))` entries, entry i being `list[i] + offset`, pairwise distinct, all in [0, n), and below n-1 when n > 200 |
| Selection.Choice | stress-test-script/test_company.go:459-470 | empty for a nil array or `count <= 0`; otherwise `PermLength` elements, element i being `array[perm[i]]`, and a sub-multiset of the array |
| Selection.DistinctPicksAreSubMultiset | stress-test-script/test_company.go:465-467 | picking at pairwise distinct indices takes a sub-multiset of the array |
| Conditions.MakeSearchCondition | stress-test-script/test_company.go:563-573 | nil exactly when the id is empty or the values are nil; otherwise holds the four arguments |
| Conditions.RandOperator | stress-test-script/test_company.go:575-592 | a comparison operator exactly for the number, amount and date types; `INCLUDES_ANY` exactly for every other |
| Conditions.RandOperatorReachesEach | stress-test-script/test_company.go:577-582 | every comparison operator is produced by some draw |
| Conditions.RandBoolean | stress-test-script/test_company.go:556-561 | always true for `falsePercent <= 0`, always false for `falsePercent >= 100` |
| Conditions.FalseDrawsCount | stress-test-script/test_company.go:556-561 | exactly `clamp(falsePercent, 0, 100)` of the 100 draws give false |
| Conditions.NumberBounds | stress-test-script/test_company.go:524-531 | one value in [1, 10], or for BETWEEN a lower and upper bound with `0 <= low <= high/2 < high` |
| Conditions.AmountBounds | stress-test-script/test_company.go:515-522 | one value `200000*k + 1` with k < 10000, or for BETWEEN also a lower bound with `0 <= low <= high/2 < high` |
| Conditions.BetweenLow | stress-test-script/test_company.go:521 | the BETWEEN lower bound `(high - draw) / 2` lies in [0, high/2] and below `high` |
| Conditions.RandNumber | stress-test-script/test_company.go:524-531 | the strings of `randNumber`; `RandNumberValues` states what they parse to |
| Conditions.RandAmount | stress-test-script/test_company.go:515-522 | the strings of `randAmout`; `RandAmountValues` states what they parse to |
| Conditions.AmountHigh | stress-test-script/test_company.go:516 | `rand.Intn(10000)*200000 + 1` lies in [1, 9999 * 200000 + 1] and is 1 more than a multiple of 200000 |
| Conditions.BetweenLowReachesEach | stress-test-script/test_company.go:521 | every lower bound in [0, high/2] is produced by some draw |
| Conditions.RenderParses | stress-test-script/test_company.go:517-530 | each rendered value parses back to its number |
| Conditions.RandNumberValues | stress-test-script/test_company.go:524-531 | `randNumber`'s strings parse to a value in [1, 10] and, for BETWEEN, to a lower bound of at most half of it |
| Conditions.RandAmountValues | stress-test-script/test_company.go:515-522 | `randAmout`'s strings parse to `200000*k + 1` and, for BETWEEN, to a lower bound of at most half of it |
| Conditions.PresentAppend | stress-test-script/test_company.go:330-335 | the nil filter distributes over concatenation, so it keeps the order |
| Conditions.PresentSingle | stress-test-script/test_company.go:331-333 | a nil condition is dropped, a non-nil one kept |
| Conditions.PresentMembers | stress-test-script/test_company.go:330-335 | no more kept than given, and a condition is kept exactly when it is among the non-nil inputs |
| Conditions.KeepPresent | stress-test-script/test_company.go:330-335 | the filter loop returns the non-nil conditions in order |
| Conditions.ChoiceConditions | stress-test-script/test_company.go:339-350 | empty for `count <= 0` or a nil array (`None`); otherwise `PermLength` conditions, element i being `array[perm[i]]`, a sub-multiset of the array |
| Conditions.GetSearchConditions | stress-test-script/test_company.go:330-336 | empty for `conditionCount <= 0`; otherwise `min(conditionCount, non-nil count, 200)` conditions, the i-th being the non-nil candidate at the i-th index `perm` chose, none taken twice |
| ReferenceData.TrimLeft | stress-test-script/test_company.go:392 | drops exactly a white-space prefix: the rest is a suffix that does not start with white space |
| ReferenceData.TrimRight | stress-test-script/test_company.go:392 | drops exactly a white-space suffix: the rest is a prefix that does not end with white space |
| ReferenceData.TrimSpace | stress-test-script/test_company.go:392 | `strings.TrimSpace`: the result neither starts nor ends with white space, is no longer than the input, and is empty exactly when the input is all white space |
| ReferenceData.TrimLeftPadded | stress-test-script/test_company.go:392 | trimming the left of white space before text that starts with non-space gives the text |
| ReferenceData.TrimRightPadded | stress-test-script/test_company.go:392 | trimming the right of text ending in non-space followed by white space gives the text |
| ReferenceData.TrimSpaceOfPadded | stress-test-script/test_company.go:392 | trimmed non-empty text padded with white space on both sides trims back to itself |
| ReferenceData.Before | stress-test-script/test_company.go:389-392 | the longest prefix without the separator, followed by the separator when shorter than the input |
| ReferenceData.Split | stress-test-script/test_company.go:389-390 | `strings.Split`: at least one field, the first being the text before the first separator, more than one exactly when the separator occurs |
| ReferenceData.JoinSplit | stress-test-script/test_company.go:389 | joining the fields with the separator restores the line |
| ReferenceData.LineId | stress-test-script/test_company.go:389-394 | what one line contributes: the trimmed first field when the split gives more than one field; `LineIdOf` states it |
| ReferenceData.LineIdOf | stress-test-script/test_company.go:389-392 | a line contributes exactly when it holds a comma, and its identifier is the trimmed text before the first comma, with no comma in it |
| ReferenceData.TrimSpaceKeepsOut | stress-test-script/test_company.go:392 | trimming adds no character |
| ReferenceData.CollectAppend | stress-test-script/test_company.go:388-394 | the per-line collection distributes over concatenation |
| ReferenceData.CollectMembers | stress-test-script/test_company.go:388-394 | the collection is no longer than the input and holds exactly the values some element yields |
| ReferenceData.IdsOfAppend | stress-test-script/test_company.go:388-394 | the parse of concatenated lines is the concatenation of the parses: order is kept |
| ReferenceData.IdsOfSingle | stress-test-script/test_company.go:388-394 | a line without a comma gives nothing, a line with one gives the trimmed text before its first comma |
| ReferenceData.IdsOfMembers | stress-test-script/test_company.go:388-394 | no more identifiers than lines, and each identifier is exactly one that some line contributes |
| ReferenceData.ParseLines | stress-test-script/test_company.go:384-397 | nil exactly for no lines; otherwise the identifiers of the lines in order |
| ReferenceData.GetInvestors | stress-test-script/test_company.go:384-397 | nil exactly for no lines; otherwise the identifiers of the lines in order |
| ReferenceData.GetVerticals | stress-test-script/test_company.go:399-412 | nil exactly for no lines; otherwise the identifiers of the lines in order |

## Left out

- The driver loop of `benchmarkTest` (lines 91-107) is left out: goroutine fan-out and the timer `select`. `Benchmark.Run` replaces it by a sequential schedule of exactly `reqCount` queries.
- Benchmark.Run: does not model producers that are still running while `printTimeOutReq` and `calculate` execute, nor a schedule that starts more or fewer than `reqCount` queries.
- Benchmark.Calculate: requires at least `reqCount` buffered results, because with fewer the Go receive blocks forever.
- Channels.Chan.Send: a send on a full channel reports non-delivery. A Go send would block the goroutine.
- Aggregate.Step: costs are exact integer nanoseconds and the limit test is exact. Go converts to float64 seconds and compares `seconds*1000` with the limit, which can differ by rounding.
- Aggregate.Percent: exact reals replace float64, and the `%.5f`/`%.2f` log formatting is left out.
- Flag parsing and logging in `main` (lines 51-69) are left out. Only `reqCount = seconds * qps` is kept, as `Benchmark.ReqCount`. The `int(duration/time.Second)` conversion cannot overflow in the model.
- `readFileLines` (lines 414-444) is file I/O. Its lines are the input of the parsers.
- `client.Search` and the protobuf types are an external service. A response is a transport error or a node count, and the measured cost is a parameter.
- `getOrderColumns` and `getColumnIds` return constants. They are not fields of the modelled request.
- `randChoice` (lines 448-457) and `randSearchCondition` (lines 494-513) only compose the modelled pieces with a draw. The status and location generators (lines 352-382) render constant tables.
- `randDate` and `randomDate` (lines 533-554) depend on Go's calendar arithmetic in `time.Date` and `AddDate`.
- `getSearchConditions` is modelled from the built candidate list onwards. The fixed list of candidate columns (lines 308-327) is a parameter.
- The cursor is the constant `"MA=="`, the base64 of `"0"`. Base64 encoding is left out.
- Strings are sequences of code points, and `unicode.IsSpace` is modelled for code points. Invalid UTF-8 and byte-level behaviour are left out.
- The Java sources (the Elasticsearch plugins and the JDBC connector) are not part of this model. They are thin glue over libraries the model cannot see.
